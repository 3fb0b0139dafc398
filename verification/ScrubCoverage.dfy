/** Scrubs are complete: what every scrubber still covers in every interleaving. */
module ScrubCoverage {
  import opened Wrappers
  import opened Ordering
  import opened Evolution
  import opened RowStore
  import opened ScrubProtocol

  ghost predicate UpToDate(order: seq<Version>, s: State, x: string) {
    x in s.rows ==> !Stale(order, s.rows[x])
  }

  /** Still to come: on a page this scrubber has not read yet. */
  ghost predicate Ahead(s: State, sc: Scrubber, x: string) {
    match sc.phase
    case Listing => |Below(s.rows.Keys, x)| >= sc.offset
    case Walking(page, _) => |page| == sc.batch && |Below(s.rows.Keys, x)| >= sc.offset + sc.batch
    case Finished => false
    case Aborted => true
  }

  /** The keys a scrubber answers for: present at its start, not hidden, and without a failed write-back. */
  ghost predicate Owed(sc: Scrubber, x: string) {
    x in sc.begun && x !in sc.hidden && x !in sc.errored
  }

  ghost predicate Covers(order: seq<Version>, s: State, sc: Scrubber) {
    forall x :: Owed(sc, x) ==> UpToDate(order, s, x) || InRest(sc, x) || Ahead(s, sc, x)
  }

  ghost predicate AllCovered(order: seq<Version>, s: State) {
    forall id :: id in s.scrubbers ==> Covers(order, s, s.scrubbers[id])
  }

  /** A step of somebody else: up-to-date rows stay so, and ranks do not fall. */
  lemma CoverageKept(order: seq<Version>, s: State, t: State, sc: Scrubber, x: string)
    requires UpToDate(order, s, x) || InRest(sc, x) || Ahead(s, sc, x)
    requires UpToDate(order, s, x) ==> UpToDate(order, t, x)
    requires Below(s.rows.Keys, x) <= Below(t.rows.Keys, x)
    ensures UpToDate(order, t, x) || InRest(sc, x) || Ahead(t, sc, x)
  {
    SubsetSize(Below(s.rows.Keys, x), Below(t.rows.Keys, x));
  }

  lemma UpToDateStays(order: seq<Version>, s: State, e: Event, x: string)
    requires Inv(order, s) && GoodTimeline(order) && FreshEvent(s.origin.Keys, e)
    requires x in s.origin && UpToDate(order, s, x)
    ensures UpToDate(order, Step(order, s, e), x)
  {
    InvStep(order, s, e);
    var t := Step(order, s, e);
    WritesCountChanges(order, s, e, x);
    if x in t.rows && WritesTo(t, x) > 0 {
      assert Explained(order, t.origin, x, t.rows[x], WritesTo(t, x));
    }
  }

  lemma RanksDoNotFall(order: seq<Version>, s: State, e: Event, x: string)
    requires e.Remove? ==> e.key !in s.rows
    ensures Below(s.rows.Keys, x) <= Below(Step(order, s, e).rows.Keys, x)
  {
    if !e.Remove? { RowsStay(order, s, e); }
  }

  lemma RowsStay(order: seq<Version>, s: State, e: Event)
    requires !e.Remove?
    ensures s.rows.Keys <= Step(order, s, e).rows.Keys
  {
    match e
    case Finish(client, patch) => assert s.rows.Keys <= FinishStep(order, s, client, patch).rows.Keys;
    case Insert(key, fields) => assert s.rows.Keys <= InsertStep(s, key, fields).rows.Keys;
    case Visit(id) => assert s.rows.Keys <= VisitStep(order, s, id).rows.Keys;
    case _ => QuietStep(order, s, e);
  }

  /** Removing a key lowers the ranks of the keys above it by one, and no others. */
  lemma RankAfterRemoval(keys: set<string>, d: string, x: string)
    requires d in keys
    ensures |Below(keys - {d}, x)| == |Below(keys, x)| - if Less(d, x) then 1 else 0
    ensures Less(d, x) ==> |Below(keys, d)| < |Below(keys, x)|
  {
    if Less(d, x) {
      assert Below(keys, x) == Below(keys - {d}, x) + {d};
      forall k | k in Below(keys, d) ensures k in Below(keys - {d}, x) {
        LessTransitive(k, d, x);
        LessIrreflexive(d);
      }
      SubsetSize(Below(keys, d), Below(keys - {d}, x));
    } else {
      assert Below(keys, x) == Below(keys - {d}, x);
    }
  }

  /** What is ahead stays ahead of a removal, except the record next to be read. */
  lemma AheadAfterRemoval(order: seq<Version>, s: State, d: string, sc: Scrubber, x: string)
    requires d in s.rows && Ahead(s, sc, x) && !UpToDate(order, s, x) && !InRest(sc, x)
    requires x !in NoteRemoval(order, s.rows, d, sc).hidden
    ensures UpToDate(order, RemoveStep(order, s, d), x)
            || Ahead(RemoveStep(order, s, d), NoteRemoval(order, s.rows, d, sc), x)
  {
    assert RemoveStep(order, s, d).rows.Keys == s.rows.Keys - {d};
    RankAfterRemoval(s.rows.Keys, d, x);
  }

  /** Scrubbers other than the one stepping keep their coverage. */
  lemma OthersKeepCoverage(order: seq<Version>, s: State, e: Event, sc: Scrubber, sc': Scrubber)
    requires Inv(order, s) && GoodTimeline(order) && FreshEvent(s.origin.Keys, e)
    requires ScrubberOk(order, s, sc) && Covers(order, s, sc)
    requires sc' == if e.Remove? && e.key in s.rows then NoteRemoval(order, s.rows, e.key, sc) else sc
    ensures Covers(order, Step(order, s, e), sc')
  {
    var t := Step(order, s, e);
    forall x | Owed(sc', x) ensures UpToDate(order, t, x) || InRest(sc', x) || Ahead(t, sc', x) {
      assert Owed(sc, x);
      if UpToDate(order, s, x) {
        UpToDateStays(order, s, e, x);
      } else if e.Remove? && e.key in s.rows {
        if !InRest(sc, x) { AheadAfterRemoval(order, s, e.key, sc, x); }
      } else {
        RanksDoNotFall(order, s, e, x);
        CoverageKept(order, s, t, sc, x);
      }
    }
  }

  /** A page read covers every owed key of that page; a full page leaves the rest ahead. */
  lemma ListCovers(order: seq<Version>, s: State, id: int, x: string)
    requires Inv(order, s) && id in s.scrubbers && s.scrubbers[id].phase.Listing?
    requires UpToDate(order, s, x) || Ahead(s, s.scrubbers[id], x)
    ensures
      var t := ListStep(s, id);
      UpToDate(order, t, x) || InRest(t.scrubbers[id], x) || Ahead(t, t.scrubbers[id], x)
  {
    if !UpToDate(order, s, x) {
      var sc := s.scrubbers[id];
      assert sc.batch > 0 by { assert ScrubberOk(order, s, sc); }
      AheadIsListed(s, id, x);
    }
  }

  lemma AheadIsListed(s: State, id: int, x: string)
    requires id in s.scrubbers && s.scrubbers[id].phase.Listing? && s.scrubbers[id].batch > 0
    requires x in s.rows && Ahead(s, s.scrubbers[id], x)
    ensures
      var t := ListStep(s, id);
      InRest(t.scrubbers[id], x) || Ahead(t, t.scrubbers[id], x)
  {
    var sc := s.scrubbers[id];
    PageHolds(s, sc.offset, sc.batch, x);
    var page := PageOf(s, sc.offset, sc.batch);
    assert ListStep(s, id).scrubbers[id] == sc.(phase := Walking(page, 0));
    if j :| 0 <= j < |page| && page[j].key == x {
      assert InRest(ListStep(s, id).scrubbers[id], x);
    }
  }

  /** A page read from `offset` holds `x`, or is full and ends before it. */
  lemma PageHolds(s: State, offset: nat, batch: nat, x: string)
    requires x in s.rows && offset <= |Below(s.rows.Keys, x)| && batch > 0
    ensures
      var page := PageOf(s, offset, batch);
      && page != []
      && ((exists j :: 0 <= j < |page| && page[j].key == x)
          || (|page| == batch && offset + batch <= |Below(s.rows.Keys, x)|))
  {
    var rank := |Below(s.rows.Keys, x)|;
    RankListed(s.rows, offset, batch, x);
    if rank < offset + batch {
      assert PageOf(s, offset, batch)[rank - offset].key == x;
    }
  }

  /** The record just visited is up to date afterwards, written by this scrubber or another. */
  lemma VisitedIsUpToDate(order: seq<Version>, s: State, id: int)
    requires Inv(order, s) && GoodTimeline(order) && Walks(s, id)
    ensures UpToDate(order, VisitStep(order, s, id), Visited(s, id).key)
  {
    var seen := Visited(s, id);
    assert ScrubberOk(order, s, s.scrubbers[id]) && SeenOk(order, s, seen);
    if seen.key in s.rows { assert Explained(order, s.origin, seen.key, s.rows[seen.key], WritesTo(s, seen.key)); }
    if Stale(order, seen.row) {
      RevisionTellsWrites(order, s, seen);
      UpgradeSettles(order, seen.row);
    }
  }

  /** Moving on drops only the record just visited from what is still to come. */
  lemma AdvanceCovers(s: State, sc: Scrubber, x: string)
    requires sc.phase.Walking? && sc.phase.at < |sc.phase.page|
    requires InRest(sc, x) || Ahead(s, sc, x)
    requires x != sc.phase.page[sc.phase.at].key
    ensures InRest(Advance(sc), x) || Ahead(s, Advance(sc), x)
  {
    if j :| sc.phase.at <= j < |sc.phase.page| && sc.phase.page[j].key == x {
      assert sc.phase.at < j;
      assert InRest(Advance(sc), x);
    }
  }

  lemma VisitKeepsCoverage(order: seq<Version>, s: State, id: int)
    requires Inv(order, s) && GoodTimeline(order) && Walks(s, id) && Covers(order, s, s.scrubbers[id])
    ensures Covers(order, VisitStep(order, s, id), VisitStep(order, s, id).scrubbers[id])
  {
    var t, sc := VisitStep(order, s, id), s.scrubbers[id];
    assert ScrubberOk(order, s, sc);
    forall x | Owed(t.scrubbers[id], x)
      ensures UpToDate(order, t, x) || InRest(t.scrubbers[id], x) || Ahead(t, t.scrubbers[id], x)
    {
      assert Owed(sc, x);
      if x == Visited(s, id).key {
        VisitedIsUpToDate(order, s, id);
      } else if UpToDate(order, s, x) {
        UpToDateStays(order, s, Visit(id), x);
      } else {
        assert t.rows.Keys == s.rows.Keys;
        AdvanceCovers(s, sc.(upgraded := t.scrubbers[id].upgraded, failed := t.scrubbers[id].failed), x);
      }
    }
  }

  lemma SaveFailsKeepsCoverage(order: seq<Version>, s: State, id: int)
    requires Inv(order, s) && Walks(s, id) && Stale(order, Visited(s, id).row) && Covers(order, s, s.scrubbers[id])
    ensures Covers(order, SaveFailsStep(order, s, id), SaveFailsStep(order, s, id).scrubbers[id])
  {
    var t, sc := SaveFailsStep(order, s, id), s.scrubbers[id];
    forall x | Owed(t.scrubbers[id], x)
      ensures UpToDate(order, t, x) || InRest(t.scrubbers[id], x) || Ahead(t, t.scrubbers[id], x)
    {
      assert Owed(sc, x);
      if !UpToDate(order, s, x) {
        AdvanceCovers(s, sc.(failed := sc.failed + 1, errored := sc.errored + {Visited(s, id).key}), x);
      }
    }
  }

  lemma ListKeepsCoverage(order: seq<Version>, s: State, id: int)
    requires Inv(order, s) && id in s.scrubbers && s.scrubbers[id].phase.Listing? && Covers(order, s, s.scrubbers[id])
    ensures Covers(order, ListStep(s, id), ListStep(s, id).scrubbers[id])
  {
    var t := ListStep(s, id);
    forall x | Owed(t.scrubbers[id], x)
      ensures UpToDate(order, t, x) || InRest(t.scrubbers[id], x) || Ahead(t, t.scrubbers[id], x)
    {
      assert Owed(s.scrubbers[id], x);
      ListCovers(order, s, id, x);
    }
  }

  /** Does `e` make the scrubber `id` itself take a step? */
  ghost predicate Moves(order: seq<Version>, s: State, e: Event, id: int)
    requires id in s.scrubbers
  {
    match e
    case ListPage(i) => i == id && s.scrubbers[id].phase.Listing?
    case ListFails(i) => i == id && s.scrubbers[id].phase.Listing?
    case Visit(i) => i == id && Walks(s, id)
    case SaveFails(i) => i == id && Walks(s, id) && Stale(order, Visited(s, id).row)
    case _ => false
  }

  /** A scrubber that takes no step at most notes a removal. */
  lemma RestingScrubber(order: seq<Version>, s: State, e: Event, id: int)
    requires id in s.scrubbers && !Moves(order, s, e, id)
    ensures
      var sc, t := s.scrubbers[id], Step(order, s, e);
      id in t.scrubbers
      && t.scrubbers[id] == if e.Remove? && e.key in s.rows then NoteRemoval(order, s.rows, e.key, sc) else sc
  {
    if e.Remove? {
      assert Step(order, s, e) == RemoveStep(order, s, e.key);
    } else if IsScrub(e) {
      RestingAmongScrubs(order, s, e, id);
    } else {
      TrafficKeepsScrubbers(order, s, e);
    }
  }

  lemma RestingAmongScrubs(order: seq<Version>, s: State, e: Event, id: int)
    requires id in s.scrubbers && IsScrub(e) && !Moves(order, s, e, id)
    ensures id in Step(order, s, e).scrubbers && Step(order, s, e).scrubbers[id] == s.scrubbers[id]
  {
  }

  lemma TrafficKeepsScrubbers(order: seq<Version>, s: State, e: Event)
    requires !e.Remove? && !IsScrub(e)
    ensures Step(order, s, e).scrubbers == s.scrubbers
  {
  }

  lemma ScrubberCovers(order: seq<Version>, s: State, e: Event, id: int)
    requires Inv(order, s) && GoodTimeline(order) && FreshEvent(s.origin.Keys, e)
    requires id in s.scrubbers && Covers(order, s, s.scrubbers[id])
    ensures id in Step(order, s, e).scrubbers
    ensures Covers(order, Step(order, s, e), Step(order, s, e).scrubbers[id])
  {
    if !Moves(order, s, e, id) {
      RestingScrubber(order, s, e, id);
      OthersKeepCoverage(order, s, e, s.scrubbers[id], Step(order, s, e).scrubbers[id]);
    } else if e.ListPage? {
      ListKeepsCoverage(order, s, id);
    } else if e.Visit? {
      VisitKeepsCoverage(order, s, id);
    } else if e.SaveFails? {
      SaveFailsKeepsCoverage(order, s, id);
    } else {
      assert Step(order, s, e).scrubbers[id].phase.Aborted?;
    }
  }

  lemma NewScrubberCovers(order: seq<Version>, s: State, e: Event, id: int)
    requires id in Step(order, s, e).scrubbers && id !in s.scrubbers
    ensures Covers(order, Step(order, s, e), Step(order, s, e).scrubbers[id])
  {
    var sc := Step(order, s, e).scrubbers[id];
    assert e.StartScrub? && sc.phase.Listing? && sc.offset == 0;
  }

  lemma CoverageStep(order: seq<Version>, s: State, e: Event)
    requires Inv(order, s) && GoodTimeline(order) && FreshEvent(s.origin.Keys, e) && AllCovered(order, s)
    ensures AllCovered(order, Step(order, s, e))
  {
    var t := Step(order, s, e);
    forall id | id in t.scrubbers ensures Covers(order, t, t.scrubbers[id]) {
      if id in s.scrubbers {
        ScrubberCovers(order, s, e, id);
      } else {
        NewScrubberCovers(order, s, e, id);
      }
    }
  }

  lemma {:induction false} CoverageRun(order: seq<Version>, s: State, es: seq<Event>)
    requires Inv(order, s) && GoodTimeline(order) && Fresh(s.origin.Keys, es) && AllCovered(order, s)
    ensures AllCovered(order, Run(order, s, es))
    decreases |es|
  {
    if es != [] {
      CoverageStep(order, s, es[0]);
      InvStep(order, s, es[0]);
      UsedKeys(order, s, es[0]);
      CoverageRun(order, Step(order, s, es[0]), es[1..]);
    }
  }

  /**
   When a scrub returns without error, every record present at its start is at the latest
   version or gone, in every interleaving with updates, inserts, removals and other scrubs,
   provided that no write-back of it failed in the store, and that no removal of a record the
   scrubber had already passed found it, still stale, as the next one to be read.
   */
  lemma ScrubCompletes(order: seq<Version>, rows: Rows, es: seq<Event>, id: int, x: string)
    requires GoodTimeline(order) && Fresh(rows.Keys, es)
    requires
      var s := Run(order, Start(rows), es);
      && id in s.scrubbers && s.scrubbers[id].phase.Finished?
      && x in s.scrubbers[id].begun && x !in s.scrubbers[id].errored && x !in s.scrubbers[id].hidden
    ensures
      var s := Run(order, Start(rows), es);
      x in s.rows ==> !Stale(order, s.rows[x])
  {
    InvStart(order, rows);
    CoverageRun(order, Start(rows), es);
    var s := Run(order, Start(rows), es);
    assert Covers(order, s, s.scrubbers[id]);
    assert Owed(s.scrubbers[id], x);
  }

  // ----- How much a scrub can miss -----

  /** A removal hides at most one record. */
  lemma HidesAtMostOne(order: seq<Version>, rows: Rows, sc: Scrubber)
    ensures |NextToRead(order, rows, sc)| <= 1
  {
    var next := NextToRead(order, rows, sc);
    if next != {} {
      var y := Any(next);
      forall z | z in next ensures z == y {
        PositionOf(rows.Keys, y);
        PositionOf(rows.Keys, z);
      }
      assert next == {y};
    }
  }

  function Removals(es: seq<Event>): nat
    decreases |es|
  {
    if es == [] then 0 else (if es[0].Remove? then 1 else 0) + Removals(es[1..])
  }

  /** At most `n` hidden records, and no more failed write-backs than reported failures. */
  ghost predicate Bounded(sc: Scrubber, n: nat) {
    |sc.hidden| <= n && |sc.errored| <= sc.failed
  }

  lemma UnionSize<T>(a: set<T>, b: set<T>)
    ensures |a + b| <= |a| + |b|
  {
    assert a + b == a + (b - a);
    SubsetSize(b - a, b);
  }

  lemma MovedBounded(order: seq<Version>, s: State, e: Event, id: int, n: nat)
    requires id in s.scrubbers && Moves(order, s, e, id) && Bounded(s.scrubbers[id], n)
    ensures id in Step(order, s, e).scrubbers && Bounded(Step(order, s, e).scrubbers[id], n)
  {
    if e.SaveFails? {
      assert Step(order, s, e) == SaveFailsStep(order, s, id);
      UnionSize(s.scrubbers[id].errored, {Visited(s, id).key});
    }
  }

  lemma StepBounded(order: seq<Version>, s: State, e: Event, id: int, n: nat)
    requires id in Step(order, s, e).scrubbers && (id in s.scrubbers ==> Bounded(s.scrubbers[id], n))
    ensures Bounded(Step(order, s, e).scrubbers[id], n + if e.Remove? then 1 else 0)
  {
    if id !in s.scrubbers {
      assert e.StartScrub?;
    } else if Moves(order, s, e, id) {
      MovedBounded(order, s, e, id, n);
    } else {
      RestingScrubber(order, s, e, id);
      HidesAtMostOne(order, s.rows, s.scrubbers[id]);
      UnionSize(s.scrubbers[id].hidden, NextToRead(order, s.rows, s.scrubbers[id]));
    }
  }

  lemma {:induction false} RunBounded(order: seq<Version>, s: State, es: seq<Event>, id: int, n: nat)
    requires id in Run(order, s, es).scrubbers && (id in s.scrubbers ==> Bounded(s.scrubbers[id], n))
    ensures Bounded(Run(order, s, es).scrubbers[id], n + Removals(es))
    decreases |es|
  {
    if es != [] {
      var t := Step(order, s, es[0]);
      if id in t.scrubbers { StepBounded(order, s, es[0], id, n); }
      RunBounded(order, t, es[1..], id, n + if es[0].Remove? then 1 else 0);
    }
  }

  /** The records present at the start of a scrub that are still stale. */
  ghost function Missed(order: seq<Version>, s: State, sc: Scrubber): set<string> {
    set x | x in sc.begun && x in s.rows && Stale(order, s.rows[x])
  }

  /** A finished scrub misses at most one record per removal and one per failure it reports. */
  lemma MissesAtMost(order: seq<Version>, rows: Rows, es: seq<Event>, id: int)
    requires GoodTimeline(order) && Fresh(rows.Keys, es)
    requires
      var s := Run(order, Start(rows), es);
      id in s.scrubbers && s.scrubbers[id].phase.Finished?
    ensures
      var s := Run(order, Start(rows), es);
      |Missed(order, s, s.scrubbers[id])| <= Removals(es) + s.scrubbers[id].failed
  {
    var s := Run(order, Start(rows), es);
    var sc := s.scrubbers[id];
    RunBounded(order, Start(rows), es, id, 0);
    forall x | x in Missed(order, s, sc) ensures x in sc.hidden + sc.errored {
      if x !in sc.hidden + sc.errored { ScrubCompletes(order, rows, es, id, x); }
    }
    SubsetSize(Missed(order, s, sc), sc.hidden + sc.errored);
    UnionSize(sc.hidden, sc.errored);
  }

  // ----- What a scrub counts -----

  /** A visit, or a failing save, of a stale record. */
  ghost predicate Attempts(order: seq<Version>, s: State, e: Event, id: int) {
    (e == Visit(id) || e == SaveFails(id)) && Walks(s, id) && Stale(order, Visited(s, id).row)
  }

  ghost function AttemptsIn(order: seq<Version>, s: State, es: seq<Event>, id: int): nat
    decreases |es|
  {
    if es == [] then 0
    else (if Attempts(order, s, es[0], id) then 1 else 0) + AttemptsIn(order, Step(order, s, es[0]), es[1..], id)
  }

  ghost function Counted(s: State, id: int): nat {
    if id in s.scrubbers then s.scrubbers[id].upgraded + s.scrubbers[id].failed else 0
  }

  /** A visit of a stale record counts as upgraded if its revision stands, and else as failed. */
  lemma VisitCounts(order: seq<Version>, s: State, id: int)
    requires Attempts(order, s, Visit(id), id)
    ensures
      var seen, before, after := Visited(s, id), s.scrubbers[id], VisitStep(order, s, id).scrubbers[id];
      var stands := seen.key in s.rows && s.rows[seen.key].revision == seen.row.revision;
      && after.upgraded == before.upgraded + (if stands then 1 else 0)
      && after.failed == before.failed + (if stands then 0 else 1)
  {
  }

  lemma StepCounts(order: seq<Version>, s: State, e: Event, id: int)
    ensures Counted(Step(order, s, e), id) == Counted(s, id) + if Attempts(order, s, e, id) then 1 else 0
  {
    if id !in s.scrubbers {
      NewScrubberCounts(order, s, e, id);
    } else if Moves(order, s, e, id) {
      MoveCounts(order, s, e, id);
    } else {
      RestingScrubber(order, s, e, id);
    }
  }

  lemma NewScrubberCounts(order: seq<Version>, s: State, e: Event, id: int)
    requires id !in s.scrubbers
    ensures Counted(Step(order, s, e), id) == 0
  {
    if id in Step(order, s, e).scrubbers {
      assert e.StartScrub?;
      assert Step(order, s, e) == StartStep(s, e.id, e.batch);
    }
  }

  lemma MoveCounts(order: seq<Version>, s: State, e: Event, id: int)
    requires id in s.scrubbers && Moves(order, s, e, id)
    ensures Counted(Step(order, s, e), id) == Counted(s, id) + if Attempts(order, s, e, id) then 1 else 0
  {
    match e
    case ListPage(_) => assert Step(order, s, e) == ListStep(s, id);
    case ListFails(_) => assert Step(order, s, e) == ListFailsStep(s, id);
    case Visit(_) =>
      assert Step(order, s, e) == VisitStep(order, s, id);
      if Attempts(order, s, e, id) { VisitCounts(order, s, id); }
    case SaveFails(_) => assert Step(order, s, e) == SaveFailsStep(order, s, id);
  }

  /** Over any run: what a scrubber reports, upgraded and failed, is the number of stale records it tried. */
  lemma {:induction false} ReportsAttempts(order: seq<Version>, s: State, es: seq<Event>, id: int)
    ensures Counted(Run(order, s, es), id) == Counted(s, id) + AttemptsIn(order, s, es, id)
    decreases |es|
  {
    if es != [] {
      StepCounts(order, s, es[0], id);
      ReportsAttempts(order, Step(order, s, es[0]), es[1..], id);
    }
  }
}
