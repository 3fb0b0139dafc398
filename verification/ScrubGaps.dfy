/**
 What the guarantees about scrubbing rest on: that revisions do not identify contents, and
 runs that break a guarantee when a record is inserted over an old one, when the latest
 version has a fractional date, or when a listing filters on a migrated field.
 */
module ScrubGaps {
  import opened Wrappers
  import opened Ordering
  import opened Evolution
  import opened RowStore
  import opened Filters
  import opened ScrubProtocol
  import opened ScrubView

  // ----- Revisions repeat -----

  /** Two updaters read the only row, and the first of them saves. */
  lemma FirstRacer(order: seq<Version>, key: string, row: Row, x: Fields) returns (s: State)
    ensures s == Run(order, Start(map[key := row]), [Begin(1, key), Begin(2, key), Finish(1, _ => x)])
    ensures s.rows == map[key := Row(x, EvolveStamp(order, row.stamp), row.revision + 1)]
    ensures s.clients == map[1 := Idle, 2 := Holding(Seen(key, row, 0))] && s.scrubbers == map[]
    ensures WritesTo(s, key) == 1
  {
    var start := Start(map[key := row]);
    RunThree(order, start, Begin(1, key), Begin(2, key), Finish(1, _ => x));
    var s1 := BeginStep(start, 1, key);
    assert Step(order, start, Begin(1, key)) == s1 && s1.clients == map[1 := Holding(Seen(key, row, 0))];
    var s2 := BeginStep(s1, 2, key);
    assert Step(order, s1, Begin(2, key)) == s2;
    s := FinishStep(order, s2, 1, _ => x);
    assert s.rows == map[key := Row(x, EvolveStamp(order, row.stamp), row.revision + 1)];
  }

  /** Once the row is saved again, the older holder puts its revision back. */
  lemma SecondRacer(order: seq<Version>, s: State, key: string, row: Row, x: Fields, y: Fields)
    requires s.rows.Keys == {key} && s.clients == map[1 := Idle, 2 := Holding(Seen(key, row, 0))]
    ensures
      var t := Run(order, s, [Begin(3, key), Finish(3, _ => x), Finish(2, _ => y)]);
      && t.rows == map[key := Row(y, EvolveStamp(order, row.stamp), row.revision + 1)]
      && t.scrubbers == s.scrubbers && WritesTo(t, key) == WritesTo(s, key) + 2
  {
    RunThree(order, s, Begin(3, key), Finish(3, _ => x), Finish(2, _ => y));
    MiddleRacer(order, s, key, x);
    LastRacer(order, Step(order, Step(order, s, Begin(3, key)), Finish(3, _ => x)), key, row, y);
  }

  lemma MiddleRacer(order: seq<Version>, s: State, key: string, x: Fields)
    requires s.rows.Keys == {key} && 2 in s.clients && 3 !in s.clients
    ensures
      var t := Step(order, Step(order, s, Begin(3, key)), Finish(3, _ => x));
      && t.rows.Keys == {key} && 2 in t.clients && t.clients[2] == s.clients[2]
      && t.scrubbers == s.scrubbers && WritesTo(t, key) == WritesTo(s, key) + 1
  {
    var s1 := BeginStep(s, 3, key);
    assert Step(order, s, Begin(3, key)) == s1;
    assert Step(order, s1, Finish(3, _ => x)) == FinishStep(order, s1, 3, _ => x);
  }

  lemma LastRacer(order: seq<Version>, s: State, key: string, row: Row, y: Fields)
    requires s.rows.Keys == {key} && 2 in s.clients && s.clients[2] == Holding(Seen(key, row, 0))
    ensures
      var t := Step(order, s, Finish(2, _ => y));
      && t.rows == map[key := Row(y, EvolveStamp(order, row.stamp), row.revision + 1)]
      && t.scrubbers == s.scrubbers && WritesTo(t, key) == WritesTo(s, key) + 1
  {
    assert Step(order, s, Finish(2, _ => y)) == FinishStep(order, s, 2, _ => y);
  }

  /**
   Revisions alone do not tell: for every timeline and every row, two racing updaters bring
   the stored revision back to an earlier number, over different contents.
   */
  lemma RevisionsRepeat(order: seq<Version>, key: string, row: Row, x: Fields, y: Fields)
    returns (before: seq<Event>, after: seq<Event>)
    ensures
      var s := Run(order, Start(map[key := row]), before);
      var t := Run(order, s, after);
      var stamp := EvolveStamp(order, row.stamp);
      && s.rows == map[key := Row(x, stamp, row.revision + 1)] && WritesTo(s, key) == 1
      && t.rows == map[key := Row(y, stamp, row.revision + 1)] && WritesTo(t, key) == 3
  {
    before := [Begin(1, key), Begin(2, key), Finish(1, _ => x)];
    after := [Begin(3, key), Finish(3, _ => x), Finish(2, _ => y)];
    var s := FirstRacer(order, key, row, x);
    SecondRacer(order, s, key, row, x, y);
  }

  // ----- A scrubber on a store with one row -----

  lemma PageOfOne(s: State, key: string)
    requires s.rows.Keys == {key}
    ensures PageOf(s, 0, 1) == [Seen(key, s.rows[key], WritesTo(s, key))]
  {
    SortKeysIncreasing({key});
    IncreasingUnique(SortKeys({key}), [key]);
    ListedAt(s.rows, 0, 1, 0);
  }

  lemma ReadsOne(order: seq<Version>, s: State, key: string)
    requires s.rows.Keys == {key} && s.scrubbers == map[]
    ensures
      var t := Run(order, s, [StartScrub(0, 1), ListPage(0)]);
      && t == s.(scrubbers := t.scrubbers) && Walks(t, 0)
      && Visited(t, 0) == Seen(key, s.rows[key], WritesTo(s, key))
  {
    RunTwo(order, s, StartScrub(0, 1), ListPage(0));
    var s1 := StartStep(s, 0, 1);
    assert Step(order, s, StartScrub(0, 1)) == s1 && Step(order, s1, ListPage(0)) == ListStep(s1, 0);
    PageOfOne(s1, key);
  }

  // ----- Inserting over a row in use -----

  /**
   An insert over a row that a scrubber holds as stale is lost exactly if the scrubber read
   revision one, which is also what the insert leaves behind.
   */
  lemma ReinsertOverwritten(order: seq<Version>, s: State, id: int, fields: Fields)
    requires Walks(s, id) && Stale(order, Visited(s, id).row)
    ensures
      var seen := Visited(s, id);
      var t := VisitStep(order, InsertStep(s, seen.key, fields), id);
      seen.key in t.rows
      && t.rows[seen.key] == if seen.row.revision == 1 then ScrubRow(order, seen.row) else Row(fields, NO_STAMP, 1)
  {
    var seen, mid := Visited(s, id), InsertStep(s, Visited(s, id).key, fields);
    assert mid.rows[seen.key] == Row(fields, NO_STAMP, 1) && Walks(mid, id) && Visited(mid, id) == seen;
  }

  /** A run of that kind: the inserted record is replaced by the migration of the one before it. */
  lemma ReinsertLosesUpdate(order: seq<Version>, key: string, f: Fields, g: Fields) returns (es: seq<Event>)
    requires Stale(order, Row(f, NO_STAMP, 1))
    ensures
      var rows := map[key := Row(f, NO_STAMP, 1)];
      var s := Run(order, Start(rows), es);
      && !Fresh(rows.Keys, es) && s.rows == map[key := Row(g, NO_STAMP, 1)]
      && VisitStep(order, s, 0).rows == map[key := ScrubRow(order, Row(f, NO_STAMP, 1))]
  {
    var rows: Rows := map[key := Row(f, NO_STAMP, 1)];
    var scan := [StartScrub(0, 1), ListPage(0)];
    es := scan + [Insert(key, g)];
    ReadsOne(order, Start(rows), key);
    RunConcat(order, Start(rows), scan, [Insert(key, g)]);
    var mid := Run(order, Start(rows), scan);
    RunOne(order, mid, Insert(key, g));
    var t := InsertStep(mid, key, g);
    assert t.rows == map[key := Row(g, NO_STAMP, 1)] && Visited(t, 0) == Visited(mid, 0);
    OverwritesOne(order, t, key);
    NotFresh({key}, scan, key, g);
  }

  lemma {:induction false} NotFresh(used: set<string>, before: seq<Event>, key: string, fields: Fields)
    requires key in used
    ensures !Fresh(used, before + [Insert(key, fields)])
    decreases |before|
  {
    if before != [] {
      assert (before + [Insert(key, fields)])[1..] == before[1..] + [Insert(key, fields)];
      NotFresh(UsedAfter(used, before[0]), before[1..], key, fields);
    }
  }

  /** A number of undisturbed updates of the only row, each raising its revision by one. */
  lemma {:induction false} UpdatesOfOne(order: seq<Version>, s: State, key: string, y: Fields, count: nat)
    returns (es: seq<Event>)
    requires s.rows.Keys == {key} && (1 in s.clients ==> s.clients[1].Idle?)
    ensures |es| == 2 * count && forall i :: 0 <= i < |es| ==> es[i].Begin? || es[i].Finish?
    ensures
      var t := Run(order, s, es);
      && t.rows.Keys == {key} && t.scrubbers == s.scrubbers
      && t.rows[key].revision == s.rows[key].revision + count
      && t.rows[key].fields == if count == 0 then s.rows[key].fields else y
    decreases count
  {
    if count == 0 {
      es := [];
    } else {
      var t := UpdateOfOne(order, s, key, y);
      var rest := UpdatesOfOne(order, t, key, y, count - 1);
      es := [Begin(1, key), Finish(1, _ => y)] + rest;
      RunConcat(order, s, [Begin(1, key), Finish(1, _ => y)], rest);
    }
  }

  lemma UpdateOfOne(order: seq<Version>, s: State, key: string, y: Fields) returns (t: State)
    requires s.rows.Keys == {key} && (1 in s.clients ==> s.clients[1].Idle?)
    ensures t == Run(order, s, [Begin(1, key), Finish(1, _ => y)])
    ensures t.rows.Keys == {key} && t.scrubbers == s.scrubbers && 1 in t.clients && t.clients[1].Idle?
    ensures t.rows[key].revision == s.rows[key].revision + 1 && t.rows[key].fields == y
  {
    RunTwo(order, s, Begin(1, key), Finish(1, _ => y));
    var mid := BeginStep(s, 1, key);
    assert Step(order, s, Begin(1, key)) == mid;
    assert mid.clients[1] == Holding(Seen(key, s.rows[key], WritesTo(s, key)));
    t := FinishStep(order, mid, 1, _ => y);
    assert Step(order, mid, Finish(1, _ => y)) == t;
  }

  /**
   The revision read does not matter: for every stale row of revision one or more, a single
   insert over it and as many updates as bring its revision back end in the same loss, of
   the last of those writes.
   */
  lemma ReinsertThenUpdatesLost(order: seq<Version>, key: string, row: Row, g: Fields, y: Fields)
    returns (es: seq<Event>)
    requires Stale(order, row) && row.revision >= 1
    ensures |es| == 3 + 2 * (row.revision - 1)
    ensures
      var s := Run(order, Start(map[key := row]), es);
      && Walks(s, 0) && Visited(s, 0) == Seen(key, row, 0) && s.rows.Keys == {key}
      && s.rows[key].fields == (if row.revision == 1 then g else y) && s.rows[key].revision == row.revision
      && VisitStep(order, s, 0).rows == map[key := ScrubRow(order, row)]
  {
    var start := Start(map[key := row]);
    var scan := [StartScrub(0, 1), ListPage(0)];
    ReadsOne(order, start, key);
    var mid := Run(order, start, scan);
    var t := InsertStep(mid, key, g);
    RunConcat(order, start, scan, [Insert(key, g)]);
    RunOne(order, mid, Insert(key, g));
    assert t.rows == map[key := Row(g, NO_STAMP, 1)] && t.clients == map[];
    var updates := UpdatesOfOne(order, t, key, y, row.revision - 1);
    RunConcat(order, start, scan + [Insert(key, g)], updates);
    es := (scan + [Insert(key, g)]) + updates;
    OverwritesOne(order, Run(order, t, updates), key);
  }

  // ----- A fractional latest date -----

  /**
   With a fractional latest date even written rows stay stale, so a repeated revision makes a
   scrubber overwrite an update made after it read the row.
   */
  lemma FractionalDateLosesUpdate(order: seq<Version>, key: string, row: Row, x: Fields, y: Fields)
    returns (es: seq<Event>)
    requires Sorted(order) && Stale(order, row) && order[|order| - 1].date % SECOND != 0
    ensures Fresh({key}, es)
    ensures
      var s := Run(order, Start(map[key := row]), es);
      var seen := Row(x, EvolveStamp(order, row.stamp), row.revision + 1);
      && Walks(s, 0) && Visited(s, 0) == Seen(key, seen, 1) && Stale(order, seen) && WritesTo(s, key) == 3
      && s.rows == map[key := seen.(fields := y)]
      && VisitStep(order, s, 0).rows == map[key := ScrubRow(order, seen)]
  {
    var start := Start(map[key := row]);
    var before := [Begin(1, key), Begin(2, key), Finish(1, _ => x)];
    var scan := [StartScrub(0, 1), ListPage(0)];
    var after := [Begin(3, key), Finish(3, _ => x), Finish(2, _ => y)];
    es := (before + scan) + after;
    var s1 := FirstRacer(order, key, row, x);
    ReadsOne(order, s1, key);
    var s2 := Run(order, s1, scan);
    SecondRacer(order, s2, key, row, x, y);
    RunConcat(order, start, before, scan);
    RunConcat(order, start, before + scan, after);
    SecondUpgradeIdle(order, row.stamp);
    WithoutInserts({key}, es);
    OverwritesOne(order, Run(order, s2, after), key);
  }

  lemma {:induction false} WithoutInserts(used: set<string>, es: seq<Event>)
    requires forall i :: 0 <= i < |es| ==> !es[i].Insert?
    ensures Fresh(used, es)
    decreases |es|
  {
    if es != [] {
      assert forall i :: 0 <= i < |es[1..]| ==> es[1..][i] == es[i + 1];
      WithoutInserts(used, es[1..]);
    }
  }

  /** A scrubber that holds a stale row can tell from the revision whether the row was written since. */
  ghost predicate RevisionTells(order: seq<Version>, s: State, id: int) {
    Walks(s, id) && Stale(order, Visited(s, id).row) ==>
      var seen := Visited(s, id);
      RevisionIs(s.rows, seen.key, seen.row.revision) <==> WritesTo(s, seen.key) == seen.writes
  }

  ghost predicate AlwaysTells(order: seq<Version>) {
    forall rows: Rows, es, id :: Fresh(rows.Keys, es) ==> RevisionTells(order, Run(order, Start(rows), es), id)
  }

  /**
   With fresh inserts, no update is lost in any run on any store if and only if the latest
   version date is a whole second.
   */
  lemma NoLostUpdateIff(order: seq<Version>)
    requires StrictlySorted(order)
    ensures AlwaysTells(order) <==> order == [] || order[|order| - 1].date % SECOND == 0
  {
    if order == [] || order[|order| - 1].date % SECOND == 0 {
      forall rows: Rows, es, id | Fresh(rows.Keys, es) ensures RevisionTells(order, Run(order, Start(rows), es), id) {
        var s := Run(order, Start(rows), es);
        if Walks(s, id) && Stale(order, Visited(s, id).row) { NoLostUpdate(order, rows, es, id); }
      }
    } else {
      var last := order[|order| - 1].date;
      var row := Row(map[], Stamp("", Rfc3339(last - 1)), 1);
      CurrentIff(order, last - 1);
      var rows: Rows := map["k" := row];
      var es := FractionalDateLosesUpdate(order, "k", row, map[], map[]);
      assert rows.Keys == {"k"};
      assert !RevisionTells(order, Run(order, Start(rows), es), 0);
    }
  }

  /** A visit that finds the revision it read replaces the only row. */
  lemma OverwritesOne(order: seq<Version>, s: State, key: string)
    requires Walks(s, 0) && Visited(s, 0).key == key && s.rows.Keys == {key}
    requires Stale(order, Visited(s, 0).row) && s.rows[key].revision == Visited(s, 0).row.revision
    ensures VisitStep(order, s, 0).rows == map[key := ScrubRow(order, Visited(s, 0).row)]
  {
  }

  // ----- Listings that notice -----

  /** With the scrub a listing reader finds one record, and without it none. */
  lemma ScrubbingVisibleRun(order: seq<Version>, key: string, row: Row, q: Query) returns (es: seq<Event>)
    requires Stale(order, row)
    requires !Matches(q.show, q.filters, row.fields) && Matches(q.show, q.filters, Upgrade(order, row).fields)
    ensures
      var with, without := Run(order, Start(map[key := row]), es), Run(order, Start(map[key := row]), Erase(es));
      && |with.replies| == |without.replies| == 1
      && with.replies[0].Records? && with.replies[0].total == 1
      && without.replies[0].Records? && without.replies[0].total == 0
  {
    var start := Start(map[key := row]);
    var scan := [StartScrub(0, 1), ListPage(0)];
    var rest := [Visit(0), ReadPage(q)];
    es := scan + rest;
    ReadsOne(order, start, key);
    var s := Run(order, start, scan);
    RunConcat(order, start, scan, rest);
    RunTwo(order, s, Visit(0), ReadPage(q));
    VisibleStep(order, s, key, q);
    EraseScan(q);
    RunOne(order, start, ReadPage(q));
    assert QueryMatches(q, start.rows) == {};
  }

  lemma VisibleStep(order: seq<Version>, s: State, key: string, q: Query)
    requires s.rows.Keys == {key} && s.replies == []
    requires Walks(s, 0) && Visited(s, 0).key == key && Visited(s, 0).row == s.rows[key]
    requires Stale(order, s.rows[key])
    requires !Matches(q.show, q.filters, s.rows[key].fields)
    requires Matches(q.show, q.filters, Upgrade(order, s.rows[key]).fields)
    ensures
      var replies := Step(order, Step(order, s, Visit(0)), ReadPage(q)).replies;
      |replies| == 1 && replies[0].Records? && replies[0].total == 1
  {
    assert Step(order, s, Visit(0)) == VisitStep(order, s, 0);
    ScrubbingVisible(order, s, 0, q);
    assert QueryMatches(q, s.rows) == {};
  }

  lemma EraseScan(q: Query)
    ensures Erase([StartScrub(0, 1), ListPage(0)] + [Visit(0), ReadPage(q)]) == [ReadPage(q)]
  {
    var es := [StartScrub(0, 1), ListPage(0)] + [Visit(0), ReadPage(q)];
    assert es[1..] == [ListPage(0), Visit(0), ReadPage(q)] && es[1..][1..] == [Visit(0), ReadPage(q)];
    assert [Visit(0), ReadPage(q)][1..] == [ReadPage(q)] && [ReadPage(q)][1..] == [];
    assert Erase([ReadPage(q)]) == [ReadPage(q)] + Erase([]);
    assert Erase([Visit(0), ReadPage(q)]) == Erase([ReadPage(q)]);
  }
}
