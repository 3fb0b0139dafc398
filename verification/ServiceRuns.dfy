/**
 The operations of the services as runs of the protocol: what each method does to the rows
 is what its events do, so statements about all interleavings are statements about them.
 */
module ServiceRuns {
  import opened Wrappers
  import opened Ordering
  import opened Evolution
  import opened RowStore
  import opened Filters
  import opened EvolutionService
  import opened EntityService
  import opened Permissions
  import opened ScrubProtocol
  import opened ScrubCoverage

  /** An undisturbed update is its read followed by its write. */
  lemma UpdateIsTwoSteps(order: seq<Version>, s: State, client: int, key: string, perms: Perms, data: Fields,
                         now: Value)
    requires client in s.clients ==> s.clients[client].Idle?
    ensures
      var patch := fields => Patched(perms, fields, data, now);
      Run(order, s, [Begin(client, key), Finish(client, patch)]).rows
      == UpdatedRows(order, s.rows, key, perms, data, now)
  {
    var patch := fields => Patched(perms, fields, data, now);
    RunTwo(order, s, Begin(client, key), Finish(client, patch));
    var mid := BeginStep(s, client, key);
    assert Step(order, s, Begin(client, key)) == mid;
    assert Step(order, mid, Finish(client, patch)) == FinishStep(order, mid, client, patch);
    BeginThenFinish(order, s, client, key, perms, data, now);
  }

  lemma BeginThenFinish(order: seq<Version>, s: State, client: int, key: string, perms: Perms, data: Fields, now: Value)
    requires client in s.clients ==> s.clients[client].Idle?
    ensures FinishStep(order, BeginStep(s, client, key), client, fields => Patched(perms, fields, data, now)).rows
            == UpdatedRows(order, s.rows, key, perms, data, now)
  {
    var mid := BeginStep(s, client, key);
    assert mid.rows == s.rows;
    if key in s.rows { HeldIsSaved(order, mid, client, perms, data, now); }
  }

  lemma HeldIsSaved(order: seq<Version>, s: State, client: int, perms: Perms, data: Fields, now: Value)
    requires client in s.clients && s.clients[client].Holding?
    ensures
      var seen := s.clients[client].seen;
      FinishStep(order, s, client, fields => Patched(perms, fields, data, now)).rows
      == Saved(s.rows, seen.key, UpdatedRow(order, seen.row, perms, data, now))
  {
  }

  /** A single read returns the readable part of the reply to its step. */
  lemma SingleIsRead(order: seq<Version>, s: State, key: string, perms: Perms)
    ensures
      var t := Step(order, s, Read(key));
      && t.rows == s.rows && |t.replies| == |s.replies| + 1
      && t.replies[|s.replies|].Record?
      && SingleOf(order, s.rows, key, perms)
         == match t.replies[|s.replies|].fields
            case Some(fields) => Ok(ReadableView(perms, fields))
            case None => Err("record not found")
  {
    assert Step(order, s, Read(key)) == ReadStep(order, s, key);
  }

  /** A listing returns the readable parts of the page that its step replies, and its total. */
  lemma ListIsReadPage(order: seq<Version>, s: State, q: Query, perms: Perms, i: nat)
    requires i < |QueryKeys(q, s.rows)| && QueryKeys(q, s.rows)[i] in s.rows
    ensures
      var t, key := Step(order, s, ReadPage(q)), QueryKeys(q, s.rows)[i];
      && t.rows == s.rows && |t.replies| == |s.replies| + 1
      && var reply := t.replies[|s.replies|];
         && reply.Records? && reply.total == |Matching(q.show, q.filters, s.rows)|
         && |reply.page| == |QueryKeys(q, s.rows)|
         && ListedView(order, perms, s.rows[key]) == ReadableView(perms, reply.page[i])
  {
    assert Step(order, s, ReadPage(q)) == ReadPageStep(order, s, q);
  }

  /** An insert, whether or not its key is fresh. */
  lemma InsertIsOneStep(order: seq<Version>, s: State, key: string, perms: Perms, data: Fields, now: Value,
                        later: Value)
    ensures
      var row := InsertedRow(perms, data, now, later);
      Step(order, s, Insert(key, row.fields)).rows == Saved(s.rows, key, row)
  {
    var row := InsertedRow(perms, data, now, later);
    assert Step(order, s, Insert(key, row.fields)) == InsertStep(s, key, row.fields);
  }

  // ----- An undisturbed scrub -----

  /** The scrubber `id` is past the first `n` rows of the plan, without a failure. */
  ghost predicate HasVisited(plan: seq<Stage>, n: nat, s: State, id: int)
    requires n < |plan|
  {
    && id in s.scrubbers && s.scrubbers[id].batch > 0
    && Stage(s.rows, s.scrubbers[id].upgraded) == plan[n] && s.scrubbers[id].failed == 0
  }

  ghost predicate OnlyScrubs(es: seq<Event>) {
    forall i :: 0 <= i < |es| ==> IsScrub(es[i])
  }

  ghost predicate SameHistory(sc: Scrubber, sc': Scrubber) {
    sc'.batch == sc.batch && sc'.begun == sc.begun && sc'.hidden == sc.hidden && sc'.errored == sc.errored
  }

  /** The page ahead of a scrubber that is walking it, as the plan lists it. */
  ghost predicate WalksPlan(order: seq<Version>, plan: seq<Stage>, listing: seq<Entry>, s: State, id: int,
                            page: seq<Seen>, i: nat) {
    && i < |page| && id in s.scrubbers && s.scrubbers[id].phase == Walking(page, i)
    && var n := s.scrubbers[id].offset;
       && n + |page| <= |listing| && IsPlan(order, plan, listing, n) && HasVisited(plan, n + i, s, id)
       && forall j :: 0 <= j < |page| ==> EntryOf(page[j]) == listing[n + j]
  }

  lemma VisitAdvances(order: seq<Version>, plan: seq<Stage>, listing: seq<Entry>, s: State, id: int,
                      page: seq<Seen>, i: nat)
    requires WalksPlan(order, plan, listing, s, id, page, i)
    ensures
      var t, sc := Step(order, s, Visit(id)), s.scrubbers[id];
      && HasVisited(plan, sc.offset + i + 1, t, id)
      && t.scrubbers[id] == Advance(sc.(upgraded := t.scrubbers[id].upgraded))
  {
    assert PlanAdvances(order, plan, listing, s.scrubbers[id].offset + i);
    assert Step(order, s, Visit(id)) == VisitStep(order, s, id);
  }

  /** The scrubber, `sc` before, has walked a page of that length, and asks for the next if it was full. */
  ghost predicate PastPage(plan: seq<Stage>, sc: Scrubber, length: nat, t: State, id: int) {
    && sc.offset + length < |plan| && HasVisited(plan, sc.offset + length, t, id) && SameHistory(sc, t.scrubbers[id])
    && (if length < sc.batch then t.scrubbers[id].phase.Finished?
        else t.scrubbers[id].phase.Listing? && t.scrubbers[id].offset == sc.offset + sc.batch)
  }

  /** The rest of a page, starting at its `i`-th record. */
  lemma {:induction false} WalkPage(order: seq<Version>, plan: seq<Stage>, listing: seq<Entry>, s: State, id: int,
                                    page: seq<Seen>, i: nat)
    returns (es: seq<Event>)
    requires WalksPlan(order, plan, listing, s, id, page, i)
    ensures OnlyScrubs(es) && PastPage(plan, s.scrubbers[id], |page|, Run(order, s, es), id)
    decreases |page| - i
  {
    var mid := Step(order, s, Visit(id));
    VisitAdvances(order, plan, listing, s, id, page, i);
    if i + 1 < |page| {
      var rest := WalkPage(order, plan, listing, mid, id, page, i + 1);
      es := [Visit(id)] + rest;
      assert es[1..] == rest;
    } else {
      es := [Visit(id)];
      RunOne(order, s, Visit(id));
    }
  }

  ghost predicate AsksFor(order: seq<Version>, plan: seq<Stage>, listing: seq<Entry>, s: State, id: int) {
    && id in s.scrubbers && s.scrubbers[id].phase.Listing? && s.scrubbers[id].offset <= |listing|
    && IsPlan(order, plan, listing, s.scrubbers[id].offset) && HasVisited(plan, s.scrubbers[id].offset, s, id)
  }

  /** Asking for a page gives one that the plan lists, full unless the listing ends in it. */
  lemma ListAdvances(order: seq<Version>, plan: seq<Stage>, listing: seq<Entry>, s: State, id: int)
    requires AsksFor(order, plan, listing, s, id)
    ensures
      var sc, t := s.scrubbers[id], Step(order, s, ListPage(id));
      var page := PageOf(s, sc.offset, sc.batch);
      && SameHistory(sc, t.scrubbers[id]) && t.scrubbers[id].offset == sc.offset
      && |page| == (if sc.offset + sc.batch <= |listing| then sc.batch else |listing| - sc.offset)
      && (if page == [] then t.scrubbers[id].phase.Finished? && HasVisited(plan, |listing|, t, id)
          else WalksPlan(order, plan, listing, t, id, page, 0))
  {
    var sc := s.scrubbers[id];
    PlannedPage(order, plan, listing, s, sc.offset, sc.batch);
    PageListed(order, s, id);
  }

  lemma PageListed(order: seq<Version>, s: State, id: int)
    requires id in s.scrubbers && s.scrubbers[id].phase.Listing?
    ensures
      var sc, t := s.scrubbers[id], Step(order, s, ListPage(id));
      var page := PageOf(s, sc.offset, sc.batch);
      && t.rows == s.rows && id in t.scrubbers
      && t.scrubbers[id] == sc.(phase := if page == [] then Finished else Walking(page, 0))
  {
    assert Step(order, s, ListPage(id)) == ListStep(s, id);
  }

  lemma PlannedPage(order: seq<Version>, plan: seq<Stage>, listing: seq<Entry>, s: State, n: nat, batch: nat)
    requires n <= |listing| && IsPlan(order, plan, listing, n) && s.rows == plan[n].rows
    ensures
      var page := PageOf(s, n, batch);
      && |page| == (if n + batch <= |listing| then batch else |listing| - n)
      && forall j :: 0 <= j < |page| ==> EntryOf(page[j]) == listing[n + j]
  {
    PageOfPlan(order, plan, listing, n, n, batch);
    var entries := Listed(s.rows, n, batch);
    assert forall j :: 0 <= j < |entries| ==> entries[j] == listing[n..n + |entries|][j];
  }

  /** One page after `s`: after a full one the scrubber asks for the next, after any other it is done. */
  ghost predicate PageDone(order: seq<Version>, plan: seq<Stage>, listing: seq<Entry>, s: State, id: int, t: State)
    requires AsksFor(order, plan, listing, s, id)
  {
    var sc := s.scrubbers[id];
    && id in t.scrubbers && SameHistory(sc, t.scrubbers[id])
    && (if sc.offset + sc.batch <= |listing|
        then t.scrubbers[id].offset == sc.offset + sc.batch && AsksFor(order, plan, listing, t, id)
        else t.scrubbers[id].phase.Finished? && HasVisited(plan, |listing|, t, id))
  }

  lemma PageRun(order: seq<Version>, plan: seq<Stage>, listing: seq<Entry>, s: State, id: int) returns (es: seq<Event>)
    requires AsksFor(order, plan, listing, s, id)
    ensures OnlyScrubs(es) && PageDone(order, plan, listing, s, id, Run(order, s, es))
  {
    var sc, mid := s.scrubbers[id], Step(order, s, ListPage(id));
    var page := PageOf(s, sc.offset, sc.batch);
    ListAdvances(order, plan, listing, s, id);
    if page == [] {
      es := [ListPage(id)];
      RunOne(order, s, ListPage(id));
    } else {
      var walk := WalkPage(order, plan, listing, mid, id, page, 0);
      es := [ListPage(id)] + walk;
      assert es[1..] == walk && Run(order, s, es) == Run(order, mid, walk);
      PageWalked(order, plan, listing, s, mid.scrubbers[id], id, |page|, Run(order, mid, walk));
    }
  }

  lemma PageWalked(order: seq<Version>, plan: seq<Stage>, listing: seq<Entry>, s: State, sc: Scrubber, id: int,
                   length: nat, t: State)
    requires AsksFor(order, plan, listing, s, id)
    requires SameHistory(s.scrubbers[id], sc) && sc.offset == s.scrubbers[id].offset
    requires length == (if sc.offset + sc.batch <= |listing| then sc.batch else |listing| - sc.offset)
    requires PastPage(plan, sc, length, t, id)
    ensures PageDone(order, plan, listing, s, id, t)
  {
    if sc.offset + sc.batch <= |listing| { PlanFromLater(order, plan, listing, sc.offset, sc.offset + sc.batch); }
  }

  lemma PlanFromLater(order: seq<Version>, plan: seq<Stage>, listing: seq<Entry>, from: nat, later: nat)
    requires IsPlan(order, plan, listing, from) && from <= later
    ensures IsPlan(order, plan, listing, later)
  {
  }

  /** All pages from the current offset on. */
  lemma {:induction false} ScrubFrom(order: seq<Version>, plan: seq<Stage>, listing: seq<Entry>, s: State, id: int)
    returns (es: seq<Event>)
    requires AsksFor(order, plan, listing, s, id)
    ensures
      var t := Run(order, s, es);
      && OnlyScrubs(es) && HasVisited(plan, |listing|, t, id) && t.scrubbers[id].phase.Finished?
      && SameHistory(s.scrubbers[id], t.scrubbers[id])
    decreases |listing| - s.scrubbers[id].offset
  {
    es := PageRun(order, plan, listing, s, id);
    if s.scrubbers[id].offset + s.scrubbers[id].batch <= |listing| {
      var mid := Run(order, s, es);
      var rest := ScrubFrom(order, plan, listing, mid, id);
      RunConcat(order, s, es, rest);
      es := es + rest;
    }
  }

  /**
   From any state, a scrubber that is not interrupted takes steps that do what `ScrubEntity`
   does: the same rows, the same count, no failure.
   */
  lemma ScrubEntityIsRun(order: seq<Version>, s: State, id: int, batch: nat) returns (es: seq<Event>)
    requires id !in s.scrubbers && batch > 0
    ensures OnlyScrubs(es)
    ensures
      var t := Run(order, s, es);
      && id in t.scrubbers && t.scrubbers[id].phase.Finished?
      && t.rows == AllScrubbed(order, s.rows)
      && t.scrubbers[id].upgraded == |StaleKeys(order, s.rows)| && t.scrubbers[id].failed == 0
  {
    var plan, listing := StartsAsking(order, s, id, batch);
    var rest := ScrubFrom(order, plan, listing, StartStep(s, id, batch), id);
    es := RunFromStart(order, s, id, batch, rest);
  }

  /** A scrubber that starts has the plan of a whole scrub before it. */
  lemma StartsAsking(order: seq<Version>, s: State, id: int, batch: nat)
    returns (plan: seq<Stage>, listing: seq<Entry>)
    requires id !in s.scrubbers && batch > 0
    ensures plan == Stages(order, s.rows, 0, 0) && |listing| == |s.rows|
    ensures AsksFor(order, plan, listing, StartStep(s, id, batch), id)
    ensures plan[|listing|] == Stage(AllScrubbed(order, s.rows), |StaleKeys(order, s.rows)|)
  {
    plan := ScrubPlan(order, s.rows);
    listing := RowStore.Listing(s.rows);
  }

  lemma RunFromStart(order: seq<Version>, s: State, id: int, batch: nat, rest: seq<Event>) returns (es: seq<Event>)
    requires OnlyScrubs(rest)
    ensures OnlyScrubs(es) && Run(order, s, es) == Run(order, StartStep(s, id, batch), rest)
  {
    es := [StartScrub(id, batch)] + rest;
    assert es[1..] == rest && Step(order, s, es[0]) == StartStep(s, id, batch);
  }

  // ----- A removal behind the frontier -----

  /** The scrubber has read the page before `x`, which is next in the listing. */
  ghost predicate StopsBefore(order: seq<Version>, rows: Rows, x: string, s: State) {
    && 0 in s.scrubbers
    && var sc, rank := s.scrubbers[0], |Below(rows.Keys, x)|;
       && sc.phase.Listing? && sc.batch > 0 && sc.offset == rank
       && sc.failed == 0 && sc.begun == rows.Keys && sc.hidden == {} && sc.errored == {}
       && s.rows.Keys == rows.Keys && x in s.rows && s.rows[x] == rows[x]
  }

  lemma ReadUpTo(order: seq<Version>, rows: Rows, x: string) returns (es: seq<Event>)
    requires x in rows && Below(rows.Keys, x) != {}
    ensures OnlyScrubs(es) && StopsBefore(order, rows, x, Run(order, Start(rows), es))
  {
    var rank := |Below(rows.Keys, x)|;
    var start := StartStep(Start(rows), 0, rank);
    var plan, listing := StartsAsking(order, Start(rows), 0, rank);
    RankInside(rows, x);
    var page := PageRun(order, plan, listing, start, 0);
    StopsThere(order, rows, plan, listing, x, start, Run(order, start, page));
    es := RunFromStart(order, Start(rows), 0, rank, page);
  }

  /** A scrubber whose first page is as long as `x` is far stops right before it. */
  lemma StopsThere(order: seq<Version>, rows: Rows, plan: seq<Stage>, listing: seq<Entry>, x: string, start: State,
                   s: State)
    requires x in rows && Below(rows.Keys, x) != {}
    requires start == StartStep(Start(rows), 0, |Below(rows.Keys, x)|)
    requires plan == Stages(order, rows, 0, 0) && AsksFor(order, plan, listing, s, 0)
    requires SameHistory(start.scrubbers[0], s.scrubbers[0]) && s.scrubbers[0].offset == |Below(rows.Keys, x)|
    ensures StopsBefore(order, rows, x, s)
  {
    RankKept(order, rows, x);
  }

  lemma RankInside(rows: Rows, x: string)
    requires x in rows
    ensures |Below(rows.Keys, x)| < |rows|
  {
    PositionOf(rows.Keys, x);
  }

  lemma RankKept(order: seq<Version>, rows: Rows, x: string)
    requires x in rows
    ensures
      var rank := |Below(rows.Keys, x)|;
      rank < |rows|
      && var now := Stages(order, rows, 0, 0)[rank].rows;
         now.Keys == rows.Keys && x in now && now[x] == rows[x]
  {
    PositionOf(rows.Keys, x);
    StageKeeps(order, rows, 0, 0, |Below(rows.Keys, x)|, |Below(rows.Keys, x)|);
  }

  /** A row outside the scrubbed positions is as it was. */
  lemma StageKeeps(order: seq<Version>, rows: Rows, from: nat, base: nat, n: nat, i: nat)
    requires from <= n <= |rows| && i < |rows| && (i < from || n <= i)
    ensures
      var key, now := SortKeys(rows.Keys)[i], StageAt(order, rows, from, base, n).rows;
      now.Keys == rows.Keys && key in rows && now[key] == rows[key]
  {
    Unvisited(rows, from, n, i);
  }

  /** Once a smaller key is removed, the rest of the scrub passes `x` by. */
  lemma PassesBy(order: seq<Version>, rows: Rows, d: string, x: string, s: State) returns (es: seq<Event>)
    requires d in rows && x in rows && Less(d, x) && Stale(order, rows[x]) && StopsBefore(order, rows, x, s)
    ensures OnlyScrubs(es)
    ensures
      var t := Run(order, RemoveStep(order, s, d), es);
      && 0 in t.scrubbers && t.scrubbers[0].phase.Finished? && t.scrubbers[0].failed == 0
      && t.scrubbers[0].begun == rows.Keys && t.scrubbers[0].hidden == {x} && t.scrubbers[0].errored == {}
      && x in t.rows && t.rows[x] == rows[x]
  {
    var mid, rank := RemoveStep(order, s, d), |Below(rows.Keys, x)|;
    RemovalNotedFirst(order, rows, d, x, s);
    PositionOf(mid.rows.Keys, x);
    var base := mid.scrubbers[0].upgraded;
    var plan, listing := ResumesAt(order, mid.rows, rank, base);
    es := ScrubFrom(order, plan, listing, mid, 0);
    StageKeeps(order, mid.rows, rank, base, |mid.rows|, rank - 1);
  }

  lemma ResumesAt(order: seq<Version>, rows: Rows, from: nat, base: nat)
    returns (plan: seq<Stage>, listing: seq<Entry>)
    requires from <= |rows|
    ensures |listing| == |rows| && IsPlan(order, plan, listing, from) && plan[from] == Stage(rows, base)
    ensures plan[|listing|] == StageAt(order, rows, from, base, |rows|)
  {
    plan := ScrubPlanFrom(order, rows, from, base);
    listing := RowStore.Listing(rows);
  }

  lemma RemovalNotedFirst(order: seq<Version>, rows: Rows, d: string, x: string, s: State)
    requires d in rows && x in rows && Less(d, x)
    requires 0 in s.scrubbers && s.scrubbers[0].phase.Listing? && s.scrubbers[0].offset == |Below(rows.Keys, x)|
    requires s.rows.Keys == rows.Keys && x in s.rows && s.rows[x] == rows[x] && Stale(order, rows[x])
    ensures
      var mid := RemoveStep(order, s, d);
      && mid.scrubbers.Keys == s.scrubbers.Keys
      && mid.scrubbers[0] == s.scrubbers[0].(hidden := s.scrubbers[0].hidden + {x})
      && x in mid.rows && mid.rows[x] == rows[x]
      && |Below(rows.Keys, x)| == |Below(mid.rows.Keys, x)| + 1 <= |mid.rows|
  {
    RankDrops(rows.Keys, d, x);
    var sc := s.scrubbers[0];
    assert NextToRead(order, s.rows, sc) == {x} by {
      HidesAtMostOne(order, s.rows, sc);
      assert x in NextToRead(order, s.rows, sc);
      SubsetSize({x}, NextToRead(order, s.rows, sc));
    }
    var left := RemoveStep(order, s, d).rows;
    assert left.Keys == rows.Keys - {d} && |left| == |left.Keys|;
  }

  lemma RankDrops(keys: set<string>, d: string, x: string)
    requires d in keys && x in keys && Less(d, x)
    ensures |Below(keys, d)| < |Below(keys, x)| == |Below(keys - {d}, x)| + 1 <= |keys - {d}|
  {
    RankAfterRemoval(keys, d, x);
    LessIrreflexive(x);
    SubsetSize(Below(keys - {d}, x) + {x}, keys - {d});
  }

  /** Besides scrub steps the run holds removals of `key` only. */
  ghost predicate OnlyRemoves(es: seq<Event>, key: string) {
    forall i :: 0 <= i < |es| ==> IsScrub(es[i]) || es[i] == Remove(key)
  }

  /**
   The condition on removals is needed in every store, and the bound of one record per removal
   is met: for any stale record and any smaller key there is a run, with the removal of that
   key as its only traffic, in which a scrub finishes without a failure and misses the record.
   */
  lemma RemovalHidesRecord(order: seq<Version>, rows: Rows, d: string, x: string) returns (es: seq<Event>)
    requires d in rows && x in rows && Less(d, x) && Stale(order, rows[x])
    ensures OnlyRemoves(es, d)
    ensures
      var t := Run(order, Start(rows), es);
      && 0 in t.scrubbers && t.scrubbers[0].phase.Finished? && t.scrubbers[0].failed == 0
      && x in t.scrubbers[0].begun && t.scrubbers[0].hidden == {x} && t.scrubbers[0].errored == {}
      && x in t.rows && Stale(order, t.rows[x])
  {
    assert d in Below(rows.Keys, x);
    var before := ReadUpTo(order, rows, x);
    var s := Run(order, Start(rows), before);
    var after := PassesBy(order, rows, d, x, s);
    RunConcat(order, Start(rows), before, [Remove(d)] + after);
    assert ([Remove(d)] + after)[1..] == after;
    assert Step(order, s, Remove(d)) == RemoveStep(order, s, d);
    es := before + ([Remove(d)] + after);
  }
}
