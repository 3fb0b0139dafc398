/**
 A record store with value semantics: every read decodes a fresh copy of the row, and
 writes replace whole rows. The rows are those of one namespace, listed in key order.
 */
module RowStore {
  import opened Wrappers
  import opened Ordering
  import opened Evolution

  datatype Row = Row(fields: Fields, stamp: Stamp, revision: int)

  type Rows = map<string, Row>

  datatype Entry = Entry(key: string, row: Row)

  /** The unconditional save: the new revision is one past the revision of the row saved. */
  function Saved(rows: Rows, key: string, row: Row): Rows {
    rows[key := row.(revision := row.revision + 1)]
  }

  predicate RevisionIs(rows: Rows, key: string, expected: int) {
    key in rows && rows[key].revision == expected
  }

  /** The compare-and-set save. */
  function SavedIf(rows: Rows, key: string, row: Row, expected: int): Rows {
    if RevisionIs(rows, key, expected) then rows[key := row.(revision := expected + 1)] else rows
  }

  function EntriesAt(rows: Rows, ks: seq<string>): (es: seq<Entry>)
    requires forall k :: k in ks ==> k in rows
    ensures |es| == |ks|
    ensures forall i :: 0 <= i < |ks| ==> es[i] == Entry(ks[i], rows[ks[i]])
  {
    seq(|ks|, i requires 0 <= i < |ks| => Entry(ks[i], rows[ks[i]]))
  }

  /** All rows in key order. */
  ghost function Listing(rows: Rows): (es: seq<Entry>)
    ensures |es| == |rows|
    ensures forall i :: 0 <= i < |es| ==> EntryAt(rows, i, es[i])
  {
    EntriesAt(rows, SortKeys(rows.Keys))
  }

  ghost predicate EntryAt(rows: Rows, i: nat, e: Entry) {
    i < |rows| && e.key == SortKeys(rows.Keys)[i] && e.key in rows && e.row == rows[e.key]
  }

  /** What listing `limit` rows from `offset` on returns. */
  ghost function Listed(rows: Rows, offset: nat, limit: nat): seq<Entry> {
    Page(Listing(rows), offset, limit)
  }

  lemma ListedAt(rows: Rows, offset: nat, limit: nat, i: nat)
    requires i < |Listed(rows, offset, limit)|
    ensures EntryAt(rows, offset + i, Listed(rows, offset, limit)[i])
  {
    assert Listed(rows, offset, limit)[i] == Listing(rows)[offset + i];
  }

  /** A page holds the keys whose rank lies in it, and is full when some rank lies beyond. */
  lemma RankListed(rows: Rows, offset: nat, limit: nat, x: string)
    requires x in rows && offset <= |Below(rows.Keys, x)|
    ensures
      var page, rank := Listed(rows, offset, limit), |Below(rows.Keys, x)|;
      if rank < offset + limit then rank - offset < |page| && page[rank - offset].key == x
      else |page| == limit
  {
    var rank := |Below(rows.Keys, x)|;
    PositionOf(rows.Keys, x);
    if rank < offset + limit { ListedAt(rows, offset, limit, rank - offset); }
  }

  // ----- Saves in sequence -----

  /**
   A conditional save after an unconditional one takes effect exactly if it expects the
   revision that one left behind; otherwise the unconditional save stands, unchanged.
   */
  lemma SaveThenConditional(rows: Rows, key: string, saved: Row, next: Row, expected: int)
    ensures
      var between := Saved(rows, key, saved);
      var after := SavedIf(between, key, next, expected);
      && (expected == saved.revision + 1 <==> after == between[key := next.(revision := saved.revision + 2)])
      && (expected != saved.revision + 1 ==> after == between)
  {
    var between := Saved(rows, key, saved);
    if expected != saved.revision + 1 {
      var other: Rows := between[key := next.(revision := saved.revision + 2)];
      assert other[key].revision != between[key].revision;
    }
  }

  /** So of two writers that read the same row, the conditional one loses if it comes second. */
  lemma SecondWriterConflicts(rows: Rows, key: string, saved: Row, next: Row)
    requires key in rows && saved.revision == rows[key].revision
    ensures SavedIf(Saved(rows, key, saved), key, next, rows[key].revision) == Saved(rows, key, saved)
  {
    SaveThenConditional(rows, key, saved, next, rows[key].revision);
  }

  /** After a removal no conditional save brings the row back, while any unconditional one does. */
  lemma RemovedThenSaved(rows: Rows, key: string, row: Row, expected: int)
    ensures SavedIf(rows - {key}, key, row, expected) == rows - {key}
    ensures Saved(rows - {key}, key, row) == Saved(rows, key, row)
  {
    var removed: Rows := rows - {key};
    assert Saved(removed, key, row) == Saved(rows, key, row);
  }

  // ----- Upgrading rows -----

  predicate Stale(order: seq<Version>, row: Row) {
    !Current(order, row.stamp)
  }

  /** The row as a just-in-time reader sees it: evolved data and stamp, same revision. */
  function Upgrade(order: seq<Version>, row: Row): Row {
    Row(Evolve(order, row.fields, row.stamp), EvolveStamp(order, row.stamp), row.revision)
  }

  /** A timeline whose dates are pairwise distinct and whose latest date is a whole second. */
  ghost predicate GoodTimeline(order: seq<Version>) {
    StrictlySorted(order) && (order != [] ==> order[|order| - 1].date % SECOND == 0)
  }

  lemma UpgradeSettles(order: seq<Version>, row: Row)
    requires GoodTimeline(order)
    ensures !Stale(order, Upgrade(order, row))
    ensures !Stale(order, row) ==> Upgrade(order, row) == row
  {
    if Stale(order, row) { SecondUpgradeIdle(order, row.stamp); }
  }

  /** A row is stale exactly if the latest version of its timeline is dated after it. */
  lemma StaleIff(order: seq<Version>, row: Row)
    requires Sorted(order)
    ensures
      Stale(order, row) <==>
      order != [] && order[|order| - 1].date > match row.stamp.date
                                               case Rfc3339(t) => t
                                               case Blank => 0
                                               case Malformed(_) => 0
  {
    CurrentIff(order, Since(row.stamp));
  }

  // ----- One record of a scrub -----

  /** A row after its visit: upgraded under the next revision if it was stale. */
  function ScrubRow(order: seq<Version>, row: Row): Row {
    if Stale(order, row) then Upgrade(order, row).(revision := row.revision + 1) else row
  }

  /** A visit leaves evolved data under the name of the latest version and the next revision. */
  lemma ScrubbedRow(order: seq<Version>, row: Row)
    requires Sorted(order)
    ensures Stale(order, row) ==>
              var scrubbed, last := ScrubRow(order, row), order[|order| - 1];
              && scrubbed.fields == Evolve(order, row.fields, row.stamp) && scrubbed.revision == row.revision + 1
              && scrubbed.stamp.version == last.name && scrubbed.stamp.date.Rfc3339?
              && scrubbed.stamp.date.instant <= last.date < scrubbed.stamp.date.instant + 1_000_000_000
              && scrubbed.stamp.date.instant % 1_000_000_000 == 0
    ensures !Stale(order, row) ==> ScrubRow(order, row) == row
  {
    StaleIff(order, row);
    if Stale(order, row) { StampAfterUpgrade(order, row.stamp); }
  }

  datatype Outcome = Unchanged | Upgraded | Failed

  ghost function OutcomeOf(order: seq<Version>, rows: Rows, r: Entry): Outcome {
    if !Stale(order, r.row) then Unchanged
    else if RevisionIs(rows, r.key, r.row.revision) then Upgraded
    else Failed
  }

  /** The scrubber's write: a compare-and-set of the upgraded row, only if it was stale. */
  function AfterRecord(order: seq<Version>, rows: Rows, r: Entry): Rows {
    if Stale(order, r.row) then SavedIf(rows, r.key, Upgrade(order, r.row), r.row.revision) else rows
  }

  /** A record is upgraded if it was stale and its revision stands, and failed if that does not. */
  lemma RecordOutcome(order: seq<Version>, rows: Rows, r: Entry)
    ensures
      var outcome, after := OutcomeOf(order, rows, r), AfterRecord(order, rows, r);
      var stands := r.key in rows && rows[r.key].revision == r.row.revision;
      && (outcome == Unchanged <==> !Stale(order, r.row))
      && (outcome == Upgraded <==> Stale(order, r.row) && stands)
      && (outcome == Failed <==> Stale(order, r.row) && !stands)
      && after == if outcome == Upgraded then rows[r.key := ScrubRow(order, r.row)] else rows
  {
  }

  class SqliteDao {
    var rows: Rows

    constructor ()
      ensures rows == map[]
    {
      rows := map[];
    }

    method Save(key: string, row: Row)
      modifies this
      ensures rows == Saved(old(rows), key, row)
      ensures rows == old(rows)[key := Row(row.fields, row.stamp, row.revision + 1)]
    {
      rows := rows[key := row.(revision := row.revision + 1)];
    }

    /** `ok` is false for the "optimistic concurrency conflict" error: no row was updated. */
    method SaveConditional(key: string, row: Row, expectedRevision: int) returns (ok: bool)
      modifies this
      ensures ok <==> RevisionIs(old(rows), key, expectedRevision)
      ensures rows == SavedIf(old(rows), key, row, expectedRevision)
      ensures ok <==> key in old(rows) && old(rows)[key].revision == expectedRevision
      ensures ok ==> rows == old(rows)[key := Row(row.fields, row.stamp, expectedRevision + 1)]
      ensures !ok ==> rows == old(rows)
    {
      ok := key in rows && rows[key].revision == expectedRevision;
      if ok {
        rows := rows[key := row.(revision := expectedRevision + 1)];
      }
    }

    method Get(key: string) returns (row: Option<Row>)
      ensures row == if key in rows then Some(rows[key]) else None
    {
      row := if key in rows then Some(rows[key]) else None;
    }

    method Delete(key: string)
      modifies this
      ensures rows == old(rows) - {key}
    {
      rows := rows - {key};
    }

    method List(offset: nat, limit: nat) returns (page: seq<Entry>)
      ensures page == Listed(rows, offset, limit)
    {
      var ks := SortedKeys(rows.Keys);
      page := Page(EntriesAt(rows, ks), offset, limit);
    }
  }
}
