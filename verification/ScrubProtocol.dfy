/**
 Scrubbers and live traffic on one namespace, as a transition system. Any number of readers
 ask for single records and for pages, updaters read a row and later save it unconditionally,
 scrubbers read pages and write single rows by compare-and-set, and rows are inserted and
 removed. Every event is one atomic store operation, so a sequence of events is an
 interleaving.

 The state carries history that the store does not: how often each key was written, and
 the row each key held when it first appeared.
 */
module ScrubProtocol {
  import opened Wrappers
  import opened Ordering
  import opened Evolution
  import opened RowStore
  import opened Filters

  /** A row as some process read it, with the number of writes to the key before the read. */
  datatype Seen = Seen(key: string, row: Row, writes: nat)

  datatype Client = Idle | Holding(seen: Seen)

  datatype Phase = Listing | Walking(page: seq<Seen>, at: nat) | Finished | Aborted

  /**
   A running `ScrubEntity`. History: the keys present when it `begun`, those that a removal has
   `hidden` from it, and those whose write-back `errored`.
   */
  datatype Scrubber = Scrubber(
    batch: nat, offset: nat, phase: Phase, upgraded: nat, failed: nat,
    begun: set<string>, hidden: set<string>, errored: set<string>)

  /** The fields of one record, if there is one, or those of a page and the number of matches. */
  datatype Reply = Record(fields: Option<Fields>) | Records(page: seq<Fields>, total: nat)

  datatype State = State(
    rows: Rows, clients: map<int, Client>, scrubbers: map<int, Scrubber>, replies: seq<Reply>,
    origin: Rows, writes: map<string, nat>)

  datatype Event =
    | Read(key: string)
    | ReadPage(query: Query)
    | Begin(client: int, key: string)
    | Finish(client: int, patch: Fields -> Fields)
    | Insert(key: string, fields: Fields)
    | Remove(key: string)
    | StartScrub(id: int, batch: nat)
    | ListPage(id: int)
    | ListFails(id: int)
    | Visit(id: int)
    | SaveFails(id: int)

  predicate IsScrub(e: Event) {
    e.StartScrub? || e.ListPage? || e.ListFails? || e.Visit? || e.SaveFails?
  }

  ghost function Start(rows: Rows): State {
    State(rows, map[], map[], [], rows, map k | k in rows :: 0)
  }

  function Bump(writes: map<string, nat>, key: string): map<string, nat> {
    writes[key := (if key in writes then writes[key] else 0) + 1]
  }

  function WritesTo(s: State, key: string): nat {
    if key in s.writes then s.writes[key] else 0
  }

  // ----- Steps of live traffic -----

  function ReadStep(order: seq<Version>, s: State, key: string): State {
    var reply := if key in s.rows then Some(Upgrade(order, s.rows[key]).fields) else None;
    s.(replies := s.replies + [Record(reply)])
  }

  function FieldsAt(rows: Rows, keys: seq<string>): seq<Fields> {
    seq(|keys|, i requires 0 <= i < |keys| => if keys[i] in rows then rows[keys[i]].fields else map[])
  }

  /** A listing: the store filters and pages what it stores, the reader evolves what it gets. */
  ghost function ReadPageStep(order: seq<Version>, s: State, q: Query): State {
    var page := FieldsAt(UpgradeAll(order, s.rows), QueryKeys(q, s.rows));
    s.(replies := s.replies + [Records(page, |QueryMatches(q, s.rows)|)])
  }

  /** The read of an update: a missing row is an error, reported like a failed read. */
  function BeginStep(s: State, client: int, key: string): State {
    if client in s.clients && s.clients[client].Holding? then s
    else if key in s.rows then
      s.(clients := s.clients[client := Holding(Seen(key, s.rows[key], WritesTo(s, key)))])
    else s.(replies := s.replies + [Record(None)])
  }

  /** The write of an update: the held row, evolved and patched, saved unconditionally. */
  function FinishStep(order: seq<Version>, s: State, client: int, patch: Fields -> Fields): State {
    if client in s.clients && s.clients[client].Holding? then
      var seen := s.clients[client].seen;
      var evolved := Upgrade(order, seen.row);
      s.(rows := Saved(s.rows, seen.key, evolved.(fields := patch(evolved.fields))),
         clients := s.clients[client := Idle],
         writes := Bump(s.writes, seen.key))
    else s
  }

  /**
   The write of an insert: unconditional, and without any version stamp. It is meant for a
   fresh key, but a key in use is overwritten and its revision starts again at one.
   */
  function InsertStep(s: State, key: string, fields: Fields): State {
    var rows := Saved(s.rows, key, Row(fields, NO_STAMP, 0));
    if key in s.origin then s.(rows := rows, writes := Bump(s.writes, key))
    else s.(rows := rows, origin := s.origin[key := rows[key]], writes := s.writes[key := 0])
  }

  /** How many rows of the listing a scrubber has behind it or on its page. */
  function Frontier(sc: Scrubber): nat {
    match sc.phase
    case Listing => sc.offset
    case Walking(_, _) => sc.offset + sc.batch
    case Finished => 0
    case Aborted => 0
  }

  /** On the current page, not visited yet. */
  ghost predicate InRest(sc: Scrubber, x: string) {
    sc.phase.Walking? && exists j :: sc.phase.at <= j < |sc.phase.page| && sc.phase.page[j].key == x
  }

  /** The stale record that a scrubber reads first on its next page. */
  ghost function NextToRead(order: seq<Version>, rows: Rows, sc: Scrubber): set<string> {
    set y | y in rows && |Below(rows.Keys, y)| == Frontier(sc) && Stale(order, rows[y]) && !InRest(sc, y)
  }

  /** A removal behind the frontier moves the record next to be read behind it too. */
  ghost function NoteRemoval(order: seq<Version>, rows: Rows, key: string, sc: Scrubber): Scrubber {
    if |Below(rows.Keys, key)| < Frontier(sc) then sc.(hidden := sc.hidden + NextToRead(order, rows, sc)) else sc
  }

  ghost function RemoveStep(order: seq<Version>, s: State, key: string): State {
    if key in s.rows then
      s.(rows := s.rows - {key},
         writes := Bump(s.writes, key),
         scrubbers := map id | id in s.scrubbers :: NoteRemoval(order, s.rows, key, s.scrubbers[id]))
    else s
  }

  // ----- Steps of a scrubber -----

  function StartStep(s: State, id: int, batch: nat): State {
    if id in s.scrubbers || batch == 0 then s
    else s.(scrubbers := s.scrubbers[id := Scrubber(batch, 0, Listing, 0, 0, s.rows.Keys, {}, {})])
  }

  ghost function PageOf(s: State, offset: nat, limit: nat): (page: seq<Seen>)
    ensures |page| == |Listed(s.rows, offset, limit)|
  {
    var entries := Listed(s.rows, offset, limit);
    seq(|entries|, i requires 0 <= i < |entries| =>
      Seen(entries[i].key, entries[i].row, WritesTo(s, entries[i].key)))
  }

  ghost function ListStep(s: State, id: int): State {
    if id in s.scrubbers && s.scrubbers[id].phase.Listing? then
      var sc := s.scrubbers[id];
      var page := PageOf(s, sc.offset, sc.batch);
      s.(scrubbers := s.scrubbers[id := sc.(phase := if page == [] then Finished else Walking(page, 0))])
    else s
  }

  function ListFailsStep(s: State, id: int): State {
    if id in s.scrubbers && s.scrubbers[id].phase.Listing? then
      s.(scrubbers := s.scrubbers[id := s.scrubbers[id].(phase := Aborted)])
    else s
  }

  /** To the next record, the next page after a full one, or the end after a short one. */
  function Advance(sc: Scrubber): Scrubber
    requires sc.phase.Walking?
  {
    var page, at := sc.phase.page, sc.phase.at;
    if at + 1 < |page| then sc.(phase := Walking(page, at + 1))
    else if |page| < sc.batch then sc.(phase := Finished)
    else sc.(phase := Listing, offset := sc.offset + sc.batch)
  }

  predicate Walks(s: State, id: int) {
    id in s.scrubbers && s.scrubbers[id].phase.Walking? && s.scrubbers[id].phase.at < |s.scrubbers[id].phase.page|
  }

  function Visited(s: State, id: int): Seen
    requires Walks(s, id)
  {
    s.scrubbers[id].phase.page[s.scrubbers[id].phase.at]
  }

  function EntryOf(seen: Seen): Entry {
    Entry(seen.key, seen.row)
  }

  /** One record: evolve it, and if that changed it try to write it back. */
  ghost function VisitStep(order: seq<Version>, s: State, id: int): State {
    if !Walks(s, id) then s
    else
      var sc, seen := s.scrubbers[id], Visited(s, id);
      var outcome := OutcomeOf(order, s.rows, EntryOf(seen));
      var sc' := sc.(upgraded := sc.upgraded + if outcome.Upgraded? then 1 else 0,
                     failed := sc.failed + if outcome.Failed? then 1 else 0);
      s.(rows := AfterRecord(order, s.rows, EntryOf(seen)),
         writes := if outcome.Upgraded? then Bump(s.writes, seen.key) else s.writes,
         scrubbers := s.scrubbers[id := Advance(sc')])
  }

  /** The write-back fails for another reason than a conflict: counted, and passed over. */
  function SaveFailsStep(order: seq<Version>, s: State, id: int): State {
    if !Walks(s, id) || !Stale(order, Visited(s, id).row) then s
    else
      var sc := s.scrubbers[id];
      s.(scrubbers := s.scrubbers[id :=
        Advance(sc.(failed := sc.failed + 1, errored := sc.errored + {Visited(s, id).key}))])
  }

  ghost function Step(order: seq<Version>, s: State, e: Event): State {
    match e
    case Read(key) => ReadStep(order, s, key)
    case ReadPage(q) => ReadPageStep(order, s, q)
    case Begin(client, key) => BeginStep(s, client, key)
    case Finish(client, patch) => FinishStep(order, s, client, patch)
    case Insert(key, fields) => InsertStep(s, key, fields)
    case Remove(key) => RemoveStep(order, s, key)
    case StartScrub(id, batch) => StartStep(s, id, batch)
    case ListPage(id) => ListStep(s, id)
    case ListFails(id) => ListFailsStep(s, id)
    case Visit(id) => VisitStep(order, s, id)
    case SaveFails(id) => SaveFailsStep(order, s, id)
  }

  ghost function Run(order: seq<Version>, s: State, es: seq<Event>): State
    decreases |es|
  {
    if es == [] then s else Run(order, Step(order, s, es[0]), es[1..])
  }

  /** Inserts are fresh: under keys that are neither `used` already nor inserted before. */
  predicate Fresh(used: set<string>, es: seq<Event>)
    decreases |es|
  {
    es == [] || (FreshEvent(used, es[0]) && Fresh(UsedAfter(used, es[0]), es[1..]))
  }

  predicate FreshEvent(used: set<string>, e: Event) {
    e.Insert? ==> e.key !in used
  }

  function UsedAfter(used: set<string>, e: Event): set<string> {
    if e.Insert? then used + {e.key} else used
  }

  lemma RunOne(order: seq<Version>, s: State, e: Event)
    ensures Run(order, s, [e]) == Step(order, s, e)
  {
    assert [e][1..] == [] && Run(order, Step(order, s, e), []) == Step(order, s, e);
  }

  lemma RunTwo(order: seq<Version>, s: State, a: Event, b: Event)
    ensures Run(order, s, [a, b]) == Step(order, Step(order, s, a), b)
  {
    assert [a, b][1..] == [b] && [b][1..] == [];
    assert Run(order, Step(order, s, a), [b]) == Run(order, Step(order, Step(order, s, a), b), []);
  }

  lemma RunThree(order: seq<Version>, s: State, a: Event, b: Event, c: Event)
    ensures Run(order, s, [a, b, c]) == Step(order, Step(order, Step(order, s, a), b), c)
  {
    assert [a, b, c][1..] == [b, c];
    RunTwo(order, Step(order, s, a), b, c);
  }

  lemma {:induction false} RunConcat(order: seq<Version>, s: State, a: seq<Event>, b: seq<Event>)
    ensures Run(order, s, a + b) == Run(order, Run(order, s, a), b)
    decreases |a|
  {
    if a == [] {
      assert a + b == b;
    } else {
      assert (a + b)[1..] == a[1..] + b;
      RunConcat(order, Step(order, s, a[0]), a[1..], b);
    }
  }

  // ----- What every interleaving keeps -----

  /**
   A row read or stored after `writes` writes to its key: the unwritten original, or an
   up-to-date row whose revision is past the original's.
   */
  ghost predicate Explained(order: seq<Version>, origin: Rows, key: string, row: Row, writes: nat) {
    && key in origin
    && (writes == 0 ==> row == origin[key])
    && (writes > 0 ==> !Stale(order, row) && row.revision > origin[key].revision)
  }

  ghost predicate SeenOk(order: seq<Version>, s: State, seen: Seen) {
    Explained(order, s.origin, seen.key, seen.row, seen.writes) && seen.writes <= WritesTo(s, seen.key)
  }

  ghost predicate ScrubberOk(order: seq<Version>, s: State, sc: Scrubber) {
    && sc.batch > 0
    && sc.begun <= s.origin.Keys
    && (sc.phase.Walking? ==>
          && sc.phase.at < |sc.phase.page|
          && |sc.phase.page| <= sc.batch
          && forall i :: 0 <= i < |sc.phase.page| ==> SeenOk(order, s, sc.phase.page[i]))
  }

  ghost predicate Inv(order: seq<Version>, s: State) {
    && s.rows.Keys <= s.origin.Keys == s.writes.Keys
    && (forall k :: k in s.rows ==> Explained(order, s.origin, k, s.rows[k], WritesTo(s, k)))
    && (forall k :: k in s.origin && k !in s.rows ==> WritesTo(s, k) > 0)
    && (forall c :: c in s.clients && s.clients[c].Holding? ==> SeenOk(order, s, s.clients[c].seen))
    && (forall id :: id in s.scrubbers ==> ScrubberOk(order, s, s.scrubbers[id]))
  }

  /** Later states still explain what was seen earlier. */
  ghost predicate Extends(s: State, t: State) {
    && (forall k :: k in s.origin ==> k in t.origin && t.origin[k] == s.origin[k])
    && (forall k :: WritesTo(s, k) <= WritesTo(t, k))
  }

  lemma ExtendsKeepsScrubber(order: seq<Version>, s: State, t: State, sc: Scrubber)
    requires ScrubberOk(order, s, sc) && Extends(s, t)
    ensures ScrubberOk(order, t, sc)
  {
    if sc.phase.Walking? {
      forall i | 0 <= i < |sc.phase.page| ensures SeenOk(order, t, sc.phase.page[i]) {
        assert SeenOk(order, s, sc.phase.page[i]);
      }
    }
  }

  /** At most the row of `key` changes, and what it becomes is explained. */
  ghost predicate WritesOnly(order: seq<Version>, s: State, t: State, key: string) {
    && Extends(s, t)
    && t.rows.Keys <= t.origin.Keys == t.writes.Keys && t.origin.Keys <= s.origin.Keys + {key}
    && (forall k :: k != key ==>
          && (k in t.rows <==> k in s.rows) && (k in t.rows ==> t.rows[k] == s.rows[k])
          && WritesTo(t, k) == WritesTo(s, k))
    && (key in t.rows ==> Explained(order, t.origin, key, t.rows[key], WritesTo(t, key)))
    && (key in t.origin && key !in t.rows ==> WritesTo(t, key) > 0)
  }

  /** Rows, clients and scrubbers survive any step that only adds history. */
  lemma InvAfterWrite(order: seq<Version>, s: State, t: State, key: string)
    requires Inv(order, s) && WritesOnly(order, s, t, key)
    requires forall c :: c in t.clients && t.clients[c].Holding? ==> c in s.clients && t.clients[c] == s.clients[c]
    requires forall id :: id in t.scrubbers ==> ScrubberOk(order, s, t.scrubbers[id])
    ensures Inv(order, t)
  {
    forall id | id in t.scrubbers ensures ScrubberOk(order, t, t.scrubbers[id]) {
      ExtendsKeepsScrubber(order, s, t, t.scrubbers[id]);
    }
    forall k | k in t.rows ensures Explained(order, t.origin, k, t.rows[k], WritesTo(t, k)) {
      if k != key { assert Explained(order, s.origin, k, s.rows[k], WritesTo(s, k)); }
    }
    forall c | c in t.clients && t.clients[c].Holding? ensures SeenOk(order, t, t.clients[c].seen) {
      assert SeenOk(order, s, s.clients[c].seen);
    }
  }

  /** A write to a known key, which leaves an up-to-date row past the original's revision, or none. */
  lemma WriteIsOnly(order: seq<Version>, s: State, t: State, key: string)
    requires Inv(order, s) && key in s.origin && t.origin == s.origin && t.writes == Bump(s.writes, key)
    requires forall k :: k != key ==> (k in t.rows <==> k in s.rows) && (k in t.rows ==> t.rows[k] == s.rows[k])
    requires key in t.rows ==> !Stale(order, t.rows[key]) && t.rows[key].revision > s.origin[key].revision
    ensures WritesOnly(order, s, t, key)
  {
  }

  lemma InvStart(order: seq<Version>, rows: Rows)
    ensures Inv(order, Start(rows))
  {
  }

  lemma InvFinish(order: seq<Version>, s: State, client: int, patch: Fields -> Fields)
    requires Inv(order, s) && GoodTimeline(order)
    ensures Inv(order, FinishStep(order, s, client, patch))
  {
    if client in s.clients && s.clients[client].Holding? {
      var seen := s.clients[client].seen;
      assert SeenOk(order, s, seen);
      UpgradeSettles(order, seen.row);
      WriteIsOnly(order, s, FinishStep(order, s, client, patch), seen.key);
      InvAfterWrite(order, s, FinishStep(order, s, client, patch), seen.key);
    }
  }

  lemma InvRemove(order: seq<Version>, s: State, key: string)
    requires Inv(order, s)
    ensures Inv(order, RemoveStep(order, s, key))
  {
    if key in s.rows {
      var t := RemoveStep(order, s, key);
      forall id | id in t.scrubbers ensures ScrubberOk(order, s, t.scrubbers[id]) {
        assert ScrubberOk(order, s, s.scrubbers[id]);
      }
      WriteIsOnly(order, s, t, key);
      InvAfterWrite(order, s, t, key);
    }
  }

  lemma InvInsert(order: seq<Version>, s: State, key: string, fields: Fields)
    requires Inv(order, s) && key !in s.origin
    ensures Inv(order, InsertStep(s, key, fields))
  {
    InsertIsOnly(order, s, key, fields);
    InvAfterWrite(order, s, InsertStep(s, key, fields), key);
  }

  lemma InsertIsOnly(order: seq<Version>, s: State, key: string, fields: Fields)
    requires Inv(order, s) && key !in s.origin
    ensures WritesOnly(order, s, InsertStep(s, key, fields), key)
  {
    var row := Row(fields, NO_STAMP, 1);
    assert InsertStep(s, key, fields)
        == s.(rows := s.rows[key := row], origin := s.origin[key := row], writes := s.writes[key := 0]);
    FreshIsOnly(order, s, key, row);
  }

  lemma FreshIsOnly(order: seq<Version>, s: State, key: string, row: Row)
    requires Inv(order, s) && key !in s.origin
    ensures WritesOnly(order, s, s.(rows := s.rows[key := row], origin := s.origin[key := row],
                                    writes := s.writes[key := 0]), key)
  {
    assert key !in s.rows && key !in s.writes;
    assert Explained(order, s.origin[key := row], key, row, 0);
  }

  lemma InvBegin(order: seq<Version>, s: State, client: int, key: string)
    requires Inv(order, s)
    ensures Inv(order, BeginStep(s, client, key))
  {
    if key in s.rows { assert Explained(order, s.origin, key, s.rows[key], WritesTo(s, key)); }
    InvReads(order, s, BeginStep(s, client, key));
  }

  lemma AdvanceOk(order: seq<Version>, s: State, sc: Scrubber)
    requires ScrubberOk(order, s, sc) && sc.phase.Walking?
    ensures ScrubberOk(order, s, Advance(sc))
  {
  }

  /**
   The heart of the matter. A scrubber that found a row stale still finds the revision it
   read exactly when nobody wrote the key in between: the row must be the unwritten
   original, and every write since then moved the revision past the original's.
   */
  lemma RevisionTellsWrites(order: seq<Version>, s: State, seen: Seen)
    requires Inv(order, s) && SeenOk(order, s, seen) && Stale(order, seen.row)
    ensures RevisionIs(s.rows, seen.key, seen.row.revision) <==> WritesTo(s, seen.key) == seen.writes
    ensures RevisionIs(s.rows, seen.key, seen.row.revision) ==> s.rows[seen.key] == seen.row
  {
    var k := seen.key;
    assert seen.writes == 0;
    if k in s.rows {
      assert Explained(order, s.origin, k, s.rows[k], WritesTo(s, k));
    }
  }

  lemma VisitWrites(order: seq<Version>, s: State, id: int)
    requires Inv(order, s) && GoodTimeline(order) && Walks(s, id)
    ensures WritesOnly(order, s, VisitStep(order, s, id), Visited(s, id).key)
  {
    var seen := Visited(s, id);
    assert ScrubberOk(order, s, s.scrubbers[id]) && SeenOk(order, s, seen);
    if OutcomeOf(order, s.rows, EntryOf(seen)).Upgraded? {
      RevisionTellsWrites(order, s, seen);
      UpgradeSettles(order, seen.row);
      WriteIsOnly(order, s, VisitStep(order, s, id), seen.key);
    }
  }

  lemma InvVisit(order: seq<Version>, s: State, id: int)
    requires Inv(order, s) && GoodTimeline(order)
    ensures Inv(order, VisitStep(order, s, id))
  {
    if Walks(s, id) {
      var t, sc := VisitStep(order, s, id), s.scrubbers[id];
      VisitWrites(order, s, id);
      forall i | i in t.scrubbers ensures ScrubberOk(order, s, t.scrubbers[i]) {
        assert ScrubberOk(order, s, s.scrubbers[i]);
        if i == id {
          AdvanceOk(order, s, sc.(upgraded := t.scrubbers[id].upgraded, failed := t.scrubbers[id].failed));
        }
      }
      InvAfterWrite(order, s, t, Visited(s, id).key);
    }
  }

  lemma InvSaveFails(order: seq<Version>, s: State, id: int)
    requires Inv(order, s)
    ensures Inv(order, SaveFailsStep(order, s, id))
  {
    if Walks(s, id) && Stale(order, Visited(s, id).row) {
      var t, sc := SaveFailsStep(order, s, id), s.scrubbers[id];
      assert ScrubberOk(order, s, sc);
      AdvanceOk(order, s, sc.(failed := sc.failed + 1, errored := sc.errored + {Visited(s, id).key}));
      InvScrubbersOnly(order, s, t);
    }
  }

  lemma PageOk(order: seq<Version>, s: State, offset: nat, limit: nat)
    requires Inv(order, s)
    ensures forall i :: 0 <= i < |PageOf(s, offset, limit)| ==> SeenOk(order, s, PageOf(s, offset, limit)[i])
  {
    forall i | 0 <= i < |PageOf(s, offset, limit)| ensures SeenOk(order, s, PageOf(s, offset, limit)[i]) {
      ListedAt(s.rows, offset, limit, i);
    }
  }

  lemma InvList(order: seq<Version>, s: State, id: int)
    requires Inv(order, s)
    ensures Inv(order, ListStep(s, id))
  {
    var t := ListStep(s, id);
    if id in s.scrubbers && s.scrubbers[id].phase.Listing? {
      var sc := s.scrubbers[id];
      assert ScrubberOk(order, s, sc);
      PageOk(order, s, sc.offset, sc.batch);
      assert ScrubberOk(order, s, t.scrubbers[id]);
      InvScrubbersOnly(order, s, t);
    }
  }

  /** Steps that touch only the scrubbers. */
  lemma InvScrubbersOnly(order: seq<Version>, s: State, t: State)
    requires Inv(order, s) && t == s.(scrubbers := t.scrubbers)
    requires forall i :: i in t.scrubbers ==> ScrubberOk(order, s, t.scrubbers[i])
    ensures Inv(order, t)
  {
    forall i | i in t.scrubbers ensures ScrubberOk(order, t, t.scrubbers[i]) {
      ExtendsKeepsScrubber(order, s, t, t.scrubbers[i]);
    }
  }

  lemma InvStartScrub(order: seq<Version>, s: State, id: int, batch: nat)
    requires Inv(order, s)
    ensures Inv(order, StartStep(s, id, batch))
  {
    InvScrubbersOnly(order, s, StartStep(s, id, batch));
  }

  lemma InvListFails(order: seq<Version>, s: State, id: int)
    requires Inv(order, s)
    ensures Inv(order, ListFailsStep(s, id))
  {
    InvScrubbersOnly(order, s, ListFailsStep(s, id));
  }

  lemma InvStep(order: seq<Version>, s: State, e: Event)
    requires Inv(order, s) && GoodTimeline(order) && FreshEvent(s.origin.Keys, e)
    ensures Inv(order, Step(order, s, e))
  {
    match e
    case Read(_) => InvReads(order, s, Step(order, s, e));
    case ReadPage(_) => InvReads(order, s, Step(order, s, e));
    case Begin(client, key) => InvBegin(order, s, client, key);
    case Finish(client, patch) => InvFinish(order, s, client, patch);
    case Insert(key, fields) => InvInsert(order, s, key, fields);
    case Remove(key) => InvRemove(order, s, key);
    case StartScrub(id, batch) => InvStartScrub(order, s, id, batch);
    case ListPage(id) => InvList(order, s, id);
    case ListFails(id) => InvListFails(order, s, id);
    case Visit(id) => InvVisit(order, s, id);
    case SaveFails(id) => InvSaveFails(order, s, id);
  }

  lemma InvReads(order: seq<Version>, s: State, t: State)
    requires Inv(order, s) && t == s.(clients := t.clients, replies := t.replies)
    requires forall c :: c in t.clients && t.clients[c].Holding? ==> SeenOk(order, s, t.clients[c].seen)
    ensures Inv(order, t)
  {
    forall c | c in t.clients && t.clients[c].Holding? ensures SeenOk(order, t, t.clients[c].seen) {
      assert SeenOk(order, s, t.clients[c].seen);
    }
    forall id | id in t.scrubbers ensures ScrubberOk(order, t, t.scrubbers[id]) {
      ExtendsKeepsScrubber(order, s, t, t.scrubbers[id]);
    }
  }

  lemma UsedKeys(order: seq<Version>, s: State, e: Event)
    ensures Step(order, s, e).origin.Keys == UsedAfter(s.origin.Keys, e)
  {
    match e
    case Insert(key, fields) => assert InsertStep(s, key, fields).origin.Keys == s.origin.Keys + {key};
    case _ => OriginKept(order, s, e);
  }

  lemma OriginKept(order: seq<Version>, s: State, e: Event)
    requires !e.Insert?
    ensures Step(order, s, e).origin == s.origin
  {
    match e
    case Read(key) =>
    case ReadPage(q) =>
    case Begin(client, key) => assert BeginStep(s, client, key).origin == s.origin;
    case Finish(client, patch) => assert FinishStep(order, s, client, patch).origin == s.origin;
    case Remove(key) => assert RemoveStep(order, s, key).origin == s.origin;
    case StartScrub(id, batch) => assert StartStep(s, id, batch).origin == s.origin;
    case ListPage(id) => ListKeepsOrigin(s, id);
    case ListFails(id) =>
    case Visit(id) => assert VisitStep(order, s, id).origin == s.origin;
    case SaveFails(id) => assert SaveFailsStep(order, s, id).origin == s.origin;
  }

  lemma ListKeepsOrigin(s: State, id: int)
    ensures ListStep(s, id).origin == s.origin
  {
  }

  lemma {:induction false} InvRun(order: seq<Version>, s: State, es: seq<Event>)
    requires Inv(order, s) && GoodTimeline(order) && Fresh(s.origin.Keys, es)
    ensures Inv(order, Run(order, s, es))
    decreases |es|
  {
    if es != [] {
      InvStep(order, s, es[0]);
      UsedKeys(order, s, es[0]);
      InvRun(order, Step(order, s, es[0]), es[1..]);
    }
  }

  // ----- A scrubber never overwrites a live update -----

  /**
   In every interleaving, a scrubber's compare-and-set succeeds exactly when nobody has
   written or removed the row since the scrubber read it.
   */
  lemma NoLostUpdate(order: seq<Version>, rows: Rows, es: seq<Event>, id: int)
    requires GoodTimeline(order) && Fresh(rows.Keys, es)
    requires Walks(Run(order, Start(rows), es), id)
    requires Stale(order, Visited(Run(order, Start(rows), es), id).row)
    ensures
      var s := Run(order, Start(rows), es);
      var seen := Visited(s, id);
      && (RevisionIs(s.rows, seen.key, seen.row.revision) <==> WritesTo(s, seen.key) == seen.writes)
      && (RevisionIs(s.rows, seen.key, seen.row.revision) ==> s.rows[seen.key] == seen.row)
  {
    InvStart(order, rows);
    InvRun(order, Start(rows), es);
    var s := Run(order, Start(rows), es);
    assert ScrubberOk(order, s, s.scrubbers[id]);
    RevisionTellsWrites(order, s, Visited(s, id));
  }

  /** A scrub step leaves each row as it is, or upgrades it from stale to up to date. */
  lemma ScrubStepKeepsRows(order: seq<Version>, s: State, e: Event, k: string)
    requires Inv(order, s) && IsScrub(e) && k in s.rows
    ensures
      var t := Step(order, s, e);
      k in t.rows && (t.rows[k] == s.rows[k] || t.rows[k] == ScrubRow(order, s.rows[k]))
  {
    if e.Visit? {
      if Walks(s, e.id) && Stale(order, Visited(s, e.id).row) {
        assert ScrubberOk(order, s, s.scrubbers[e.id]);
        RevisionTellsWrites(order, s, Visited(s, e.id));
      }
    } else {
      QuietStep(order, s, e);
    }
  }

  /**
   However long scrubbers run alone, from any reachable state: a row that was written since
   its last migration keeps its contents and revision, and any other is upgraded at most once.
   */
  lemma {:induction false} ScrubsKeepUpdates(order: seq<Version>, s: State, es: seq<Event>, k: string)
    requires Inv(order, s) && GoodTimeline(order) && k in s.rows
    requires forall i :: 0 <= i < |es| ==> IsScrub(es[i])
    ensures
      var t := Run(order, s, es);
      && k in t.rows
      && (t.rows[k] == s.rows[k] || t.rows[k] == ScrubRow(order, s.rows[k]))
      && (!Stale(order, s.rows[k]) ==> t.rows[k] == s.rows[k])
    decreases |es|
  {
    if es != [] {
      var mid := Step(order, s, es[0]);
      ScrubStepKeepsRows(order, s, es[0], k);
      InvStep(order, s, es[0]);
      ScrubsKeepUpdates(order, mid, es[1..], k);
      UpgradeSettles(order, s.rows[k]);
    }
  }

  /** The write count misses nothing: a row that changes has its count raised. */
  ghost predicate SameRow(s: State, t: State, k: string) {
    (k in t.rows <==> k in s.rows) && (k in s.rows && k in t.rows ==> t.rows[k] == s.rows[k])
  }

  /** The write count of `k` does not fall, and stays only if the row does. */
  ghost predicate Counted(s: State, t: State, k: string) {
    && WritesTo(s, k) <= WritesTo(t, k)
    && (WritesTo(s, k) == WritesTo(t, k) && k in s.origin ==> SameRow(s, t, k))
  }

  lemma VisitCounted(order: seq<Version>, s: State, id: int, k: string)
    ensures Counted(s, VisitStep(order, s, id), k)
  {
  }

  lemma FinishCounted(order: seq<Version>, s: State, client: int, patch: Fields -> Fields, k: string)
    ensures Counted(s, FinishStep(order, s, client, patch), k)
  {
  }

  lemma InsertCounted(s: State, key: string, fields: Fields, k: string)
    requires s.origin.Keys == s.writes.Keys
    ensures Counted(s, InsertStep(s, key, fields), k)
  {
  }

  lemma RemoveCounted(order: seq<Version>, s: State, key: string, k: string)
    ensures Counted(s, RemoveStep(order, s, key), k)
  {
  }

  lemma WritesCountChanges(order: seq<Version>, s: State, e: Event, k: string)
    requires s.origin.Keys == s.writes.Keys
    ensures Counted(s, Step(order, s, e), k)
  {
    match e
    case Finish(client, patch) => FinishCounted(order, s, client, patch, k);
    case Insert(key, fields) => InsertCounted(s, key, fields, k);
    case Remove(key) => RemoveCounted(order, s, key, k);
    case Visit(id) => VisitCounted(order, s, id, k);
    case _ => QuietStep(order, s, e);
  }

  lemma QuietStep(order: seq<Version>, s: State, e: Event)
    requires !e.Finish? && !e.Insert? && !e.Remove? && !e.Visit?
    ensures Step(order, s, e).rows == s.rows && Step(order, s, e).writes == s.writes
  {
    match e
    case Read(key) => assert Step(order, s, e) == ReadStep(order, s, key);
    case ReadPage(q) => ReadPageQuiet(order, s, q);
    case Begin(client, key) => assert Step(order, s, e) == BeginStep(s, client, key);
    case StartScrub(id, batch) => assert Step(order, s, e) == StartStep(s, id, batch);
    case ListPage(id) => ListQuiet(s, id);
    case ListFails(id) => assert Step(order, s, e) == ListFailsStep(s, id);
    case SaveFails(id) => assert Step(order, s, e) == SaveFailsStep(order, s, id);
  }

  lemma ReadPageQuiet(order: seq<Version>, s: State, q: Query)
    ensures ReadPageStep(order, s, q).rows == s.rows && ReadPageStep(order, s, q).writes == s.writes
  {
  }

  lemma ListQuiet(s: State, id: int)
    ensures ListStep(s, id).rows == s.rows && ListStep(s, id).writes == s.writes
  {
  }
}
