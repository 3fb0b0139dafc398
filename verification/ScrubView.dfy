/**
 Scrubbing is invisible: every interleaving refines the same traffic on a store without
 versions, revisions and scrubbers.
 */
module ScrubView {
  import opened Wrappers
  import opened Ordering
  import opened Evolution
  import opened RowStore
  import opened Filters
  import opened ScrubProtocol

  datatype ViewClient = Out | In(key: string, row: Row)

  datatype View = View(rows: Rows, clients: map<int, ViewClient>, replies: seq<Reply>)

  /** A row as every reader sees it: evolved, and without its revision. */
  function RowView(order: seq<Version>, row: Row): Row {
    Upgrade(order, row).(revision := 0)
  }

  function ClientView(order: seq<Version>, client: Client): ViewClient {
    if client.Idle? then Out else In(client.seen.key, RowView(order, client.seen.row))
  }

  function RowsView(order: seq<Version>, rows: Rows): Rows {
    map k | k in rows :: RowView(order, rows[k])
  }

  function ClientsView(order: seq<Version>, clients: map<int, Client>): map<int, ViewClient> {
    map c | c in clients :: ClientView(order, clients[c])
  }

  function ViewOf(order: seq<Version>, s: State): View {
    View(RowsView(order, s.rows), ClientsView(order, s.clients), s.replies)
  }

  lemma RowsViewUpdate(order: seq<Version>, rows: Rows, k: string, row: Row)
    ensures RowsView(order, rows[k := row]) == RowsView(order, rows)[k := RowView(order, row)]
  {
  }

  lemma ClientsViewUpdate(order: seq<Version>, clients: map<int, Client>, c: int, client: Client)
    ensures ClientsView(order, clients[c := client]) == ClientsView(order, clients)[c := ClientView(order, client)]
  {
  }

  /**
   A store without versions, revisions or scrubbers: rows are always up to date, a listing
   filters what it returns, an update reads a row and later writes back its patch, and scrub
   events do nothing.
   */
  ghost function ViewStep(order: seq<Version>, v: View, e: Event): View {
    match e
    case Read(key) =>
      v.(replies := v.replies + [Record(if key in v.rows then Some(v.rows[key].fields) else None)])
    case ReadPage(q) =>
      v.(replies := v.replies + [Records(FieldsAt(v.rows, QueryKeys(q, v.rows)), |QueryMatches(q, v.rows)|)])
    case Begin(client, key) =>
      if client in v.clients && v.clients[client].In? then v
      else if key in v.rows then v.(clients := v.clients[client := In(key, v.rows[key])])
      else v.(replies := v.replies + [Record(None)])
    case Finish(client, patch) =>
      if client in v.clients && v.clients[client].In? then
        var held := v.clients[client];
        v.(rows := v.rows[held.key := held.row.(fields := patch(held.row.fields))],
           clients := v.clients[client := Out])
      else v
    case Insert(key, fields) => v.(rows := v.rows[key := RowView(order, Row(fields, NO_STAMP, 0))])
    case Remove(key) => v.(rows := v.rows - {key})
    case StartScrub(_, _) => v
    case ListPage(_) => v
    case ListFails(_) => v
    case Visit(_) => v
    case SaveFails(_) => v
  }

  ghost function ViewRun(order: seq<Version>, v: View, es: seq<Event>): View
    decreases |es|
  {
    if es == [] then v else ViewRun(order, ViewStep(order, v, es[0]), es[1..])
  }

  function Erase(es: seq<Event>): seq<Event>
    decreases |es|
  {
    if es == [] then []
    else if IsScrub(es[0]) then Erase(es[1..])
    else [es[0]] + Erase(es[1..])
  }

  lemma ViewIgnoresRevision(order: seq<Version>, a: Row, b: Row)
    requires GoodTimeline(order) && b.fields == Upgrade(order, a).fields && b.stamp == Upgrade(order, a).stamp
    ensures RowView(order, b) == RowView(order, a)
  {
    UpgradeSettles(order, a);
    UpgradeSettles(order, b);
  }

  /** An up-to-date row looks as it is stored. */
  lemma CurrentRowView(order: seq<Version>, row: Row)
    requires GoodTimeline(order) && !Stale(order, row)
    ensures RowView(order, row) == row.(revision := 0)
  {
    UpgradeSettles(order, row);
  }

  lemma FinishRefines(order: seq<Version>, s: State, client: int, patch: Fields -> Fields)
    requires Inv(order, s) && GoodTimeline(order)
    ensures ViewOf(order, FinishStep(order, s, client, patch))
            == ViewStep(order, ViewOf(order, s), Finish(client, patch))
  {
    if client in s.clients && s.clients[client].Holding? {
      var seen := s.clients[client].seen;
      var evolved := Upgrade(order, seen.row);
      UpgradeSettles(order, seen.row);
      var saved := evolved.(fields := patch(evolved.fields), revision := evolved.revision + 1);
      var t, v := FinishStep(order, s, client, patch), ViewOf(order, s);
      CurrentRowView(order, saved);
      RowsViewUpdate(order, s.rows, seen.key, saved);
      ClientsViewUpdate(order, s.clients, client, Idle);
      assert t.rows == s.rows[seen.key := saved] && t.clients == s.clients[client := Idle];
      assert t.origin == s.origin && t.replies == s.replies;
      var held := RowView(order, seen.row);
      assert v.clients[client] == In(seen.key, held);
      assert RowView(order, saved) == held.(fields := patch(held.fields));
    }
  }

  lemma VisitRefines(order: seq<Version>, s: State, id: int)
    requires Inv(order, s) && GoodTimeline(order)
    ensures ViewOf(order, VisitStep(order, s, id)) == ViewOf(order, s)
  {
    if Walks(s, id) {
      var seen := Visited(s, id);
      assert ScrubberOk(order, s, s.scrubbers[id]);
      if Stale(order, seen.row) {
        RevisionTellsWrites(order, s, seen);
        WriteBackKeepsView(order, s.rows, seen.key, seen.row);
      }
      assert VisitStep(order, s, id).rows == AfterRecord(order, s.rows, EntryOf(seen));
    }
  }

  /** Writing back the upgrade of the very row stored changes no reader's view. */
  lemma WriteBackKeepsView(order: seq<Version>, rows: Rows, k: string, row: Row)
    requires GoodTimeline(order) && (RevisionIs(rows, k, row.revision) ==> rows[k] == row)
    ensures RowsView(order, AfterRecord(order, rows, Entry(k, row))) == RowsView(order, rows)
  {
    if Stale(order, row) && RevisionIs(rows, k, row.revision) {
      var upgraded := Upgrade(order, row).(revision := row.revision + 1);
      ViewIgnoresRevision(order, row, upgraded);
      RowsViewUpdate(order, rows, k, upgraded);
      assert RowsView(order, rows)[k] == RowView(order, row);
    }
  }

  lemma BeginRefines(order: seq<Version>, s: State, client: int, key: string)
    ensures ViewOf(order, BeginStep(s, client, key)) == ViewStep(order, ViewOf(order, s), Begin(client, key))
  {
    var before := ViewOf(order, s);
    assert (client in s.clients && s.clients[client].Holding?)
           <==> (client in before.clients && before.clients[client].In?);
    if !(client in s.clients && s.clients[client].Holding?) && key in s.rows {
      var seen := Seen(key, s.rows[key], WritesTo(s, key));
      ClientsViewUpdate(order, s.clients, client, Holding(seen));
    }
  }

  lemma InsertRefines(order: seq<Version>, s: State, key: string, fields: Fields)
    ensures ViewOf(order, InsertStep(s, key, fields)) == ViewStep(order, ViewOf(order, s), Insert(key, fields))
  {
    RowsViewUpdate(order, s.rows, key, Row(fields, NO_STAMP, 1));
    assert RowView(order, Row(fields, NO_STAMP, 1)) == RowView(order, Row(fields, NO_STAMP, 0));
  }

  /** Readers of a page see the same when no filtered field is touched by a pending action. */
  lemma ReadPageRefines(order: seq<Version>, s: State, q: Query)
    requires FiltersUntouched(order, q.filters, s.rows)
    ensures ViewOf(order, ReadPageStep(order, s, q)) == ViewStep(order, ViewOf(order, s), ReadPage(q))
  {
    PageInView(order, s.rows, q);
  }

  /** The stored rows are matched, listed and evolved into the page and the total of the evolved ones. */
  lemma PageInView(order: seq<Version>, rows: Rows, q: Query)
    requires FiltersUntouched(order, q.filters, rows)
    ensures
      var view := RowsView(order, rows);
      && FieldsAt(view, QueryKeys(q, view)) == FieldsAt(UpgradeAll(order, rows), QueryKeys(q, rows))
      && |QueryMatches(q, view)| == |QueryMatches(q, rows)|
  {
    FilterPushdown(order, q.show, q.filters, rows, q.offset, q.limit);
    MatchesIgnoreRevisions(order, rows, q);
    FieldsIgnoreRevisions(order, rows, QueryKeys(q, rows));
  }

  lemma MatchesIgnoreRevisions(order: seq<Version>, rows: Rows, q: Query)
    ensures QueryMatches(q, RowsView(order, rows)) == QueryMatches(q, UpgradeAll(order, rows))
    ensures QueryKeys(q, RowsView(order, rows)) == QueryKeys(q, UpgradeAll(order, rows))
  {
    assert QueryMatches(q, RowsView(order, rows)) == QueryMatches(q, UpgradeAll(order, rows));
  }

  lemma FieldsIgnoreRevisions(order: seq<Version>, rows: Rows, keys: seq<string>)
    ensures FieldsAt(RowsView(order, rows), keys) == FieldsAt(UpgradeAll(order, rows), keys)
  {
  }

  lemma RemoveRefines(order: seq<Version>, s: State, key: string)
    ensures ViewOf(order, RemoveStep(order, s, key)) == ViewStep(order, ViewOf(order, s), Remove(key))
  {
    assert ViewOf(order, RemoveStep(order, s, key)).rows == ViewStep(order, ViewOf(order, s), Remove(key)).rows;
  }

  /** The condition under which a listing reader cannot tell evolved from stored data. */
  ghost predicate HonestEvent(order: seq<Version>, s: State, e: Event) {
    e.ReadPage? ==> FiltersUntouched(order, e.query.filters, s.rows)
  }

  ghost predicate Honest(order: seq<Version>, s: State, es: seq<Event>)
    decreases |es|
  {
    es == [] || (HonestEvent(order, s, es[0]) && Honest(order, Step(order, s, es[0]), es[1..]))
  }

  lemma StepRefines(order: seq<Version>, s: State, e: Event)
    requires Inv(order, s) && GoodTimeline(order) && HonestEvent(order, s, e)
    ensures ViewOf(order, Step(order, s, e)) == ViewStep(order, ViewOf(order, s), e)
  {
    match e
    case Read(key) =>
    case ReadPage(q) => ReadPageRefines(order, s, q);
    case Begin(client, key) => BeginRefines(order, s, client, key);
    case Finish(client, patch) => FinishRefines(order, s, client, patch);
    case Insert(key, fields) => InsertRefines(order, s, key, fields);
    case Remove(key) => RemoveRefines(order, s, key);
    case StartScrub(id, batch) =>
    case ListPage(id) =>
    case ListFails(id) =>
    case Visit(id) => VisitRefines(order, s, id);
    case SaveFails(id) =>
  }

  /** Every run looks, to all readers and updaters, like a run of the scrub-free store. */
  lemma {:induction false} RunRefines(order: seq<Version>, s: State, es: seq<Event>)
    requires Inv(order, s) && GoodTimeline(order) && Fresh(s.origin.Keys, es) && Honest(order, s, es)
    ensures ViewOf(order, Run(order, s, es)) == ViewRun(order, ViewOf(order, s), es)
    decreases |es|
  {
    if es != [] {
      StepRefines(order, s, es[0]);
      InvStep(order, s, es[0]);
      UsedKeys(order, s, es[0]);
      RunRefines(order, Step(order, s, es[0]), es[1..]);
    }
  }

  lemma {:induction false} EraseKeepsView(order: seq<Version>, v: View, es: seq<Event>)
    ensures ViewRun(order, v, Erase(es)) == ViewRun(order, v, es)
    decreases |es|
  {
    if es != [] {
      EraseKeepsView(order, ViewStep(order, v, es[0]), es[1..]);
      if !IsScrub(es[0]) { assert ([es[0]] + Erase(es[1..]))[1..] == Erase(es[1..]); }
    }
  }

  lemma {:induction false} EraseKeepsFresh(used: set<string>, es: seq<Event>)
    requires Fresh(used, es)
    ensures Fresh(used, Erase(es))
    decreases |es|
  {
    if es != [] {
      EraseKeepsFresh(UsedAfter(used, es[0]), es[1..]);
      if !IsScrub(es[0]) { assert ([es[0]] + Erase(es[1..]))[1..] == Erase(es[1..]); }
    }
  }

  // ----- The run with scrubs beside the run without -----

  /** Both look the same, and no key was written more often without the scrubs than with them. */
  ghost predicate Beside(order: seq<Version>, s: State, u: State) {
    && Inv(order, s) && Inv(order, u) && ViewOf(order, s) == ViewOf(order, u) && s.origin == u.origin
    && forall k :: WritesTo(u, k) <= WritesTo(s, k)
  }

  lemma SameKeys(order: seq<Version>, s: State, u: State)
    requires ViewOf(order, s) == ViewOf(order, u)
    ensures s.rows.Keys == u.rows.Keys
  {
    assert s.rows.Keys == RowsView(order, s.rows).Keys == RowsView(order, u.rows).Keys == u.rows.Keys;
  }

  lemma SameHolding(order: seq<Version>, s: State, u: State, c: int)
    requires ViewOf(order, s) == ViewOf(order, u)
    ensures (c in s.clients && s.clients[c].Holding?) <==> (c in u.clients && u.clients[c].Holding?)
    ensures c in s.clients && s.clients[c].Holding? ==> s.clients[c].seen.key == u.clients[c].seen.key
  {
    var v, w := ClientsView(order, s.clients), ClientsView(order, u.clients);
    assert c in v <==> c in w;
    assert c in s.clients <==> c in v;
    assert c in u.clients <==> c in w;
    if c in v { assert v[c] == w[c]; }
  }

  /** A row that is still stale after scrubs is the unwritten original, and so it is without them. */
  lemma StaleInBoth(order: seq<Version>, s: State, u: State, k: string)
    requires Beside(order, s, u) && k in s.rows && Stale(order, s.rows[k])
    ensures k in u.rows && u.rows[k] == s.rows[k]
  {
    SameKeys(order, s, u);
    assert Explained(order, s.origin, k, s.rows[k], WritesTo(s, k));
    assert Explained(order, u.origin, k, u.rows[k], WritesTo(u, k));
  }

  lemma HonestInBoth(order: seq<Version>, s: State, u: State, e: Event)
    requires Beside(order, s, u) && HonestEvent(order, u, e)
    ensures HonestEvent(order, s, e)
  {
    if e.ReadPage? {
      var filters := e.query.filters;
      forall k, i | k in s.rows && 0 <= i < |filters|
        ensures filters[i].field !in Touched(Flatten(Missing(order, s.rows[k].stamp)))
      {
        if Stale(order, s.rows[k]) { StaleInBoth(order, s, u, k); }
      }
    }
  }

  lemma FinishInBoth(order: seq<Version>, s: State, u: State, client: int, patch: Fields -> Fields, k: string)
    requires Beside(order, s, u)
    ensures WritesTo(FinishStep(order, u, client, patch), k) <= WritesTo(FinishStep(order, s, client, patch), k)
  {
    SameHolding(order, s, u, client);
    if client in s.clients && s.clients[client].Holding? {
      BumpInBoth(s.writes, u.writes, s.clients[client].seen.key, k);
    }
    assert WritesTo(u, k) <= WritesTo(s, k);
  }

  lemma RemoveInBoth(order: seq<Version>, s: State, u: State, key: string, k: string)
    requires Beside(order, s, u)
    ensures WritesTo(RemoveStep(order, u, key), k) <= WritesTo(RemoveStep(order, s, key), k)
  {
    SameKeys(order, s, u);
    if key in s.rows { BumpInBoth(s.writes, u.writes, key, k); }
    assert WritesTo(u, k) <= WritesTo(s, k);
  }

  lemma BumpInBoth(a: map<string, nat>, b: map<string, nat>, key: string, k: string)
    ensures Bump(a, key)[key] == (if key in a then a[key] else 0) + 1
    ensures k != key ==> (k in Bump(a, key) <==> k in a) && (k in a ==> Bump(a, key)[k] == a[k])
    ensures Bump(b, key)[key] == (if key in b then b[key] else 0) + 1
    ensures k != key ==> (k in Bump(b, key) <==> k in b) && (k in b ==> Bump(b, key)[k] == b[k])
  {
  }

  lemma InsertInBoth(s: State, u: State, key: string, fields: Fields, k: string)
    requires s.origin == u.origin && WritesTo(u, k) <= WritesTo(s, k)
    ensures WritesTo(InsertStep(u, key, fields), k) <= WritesTo(InsertStep(s, key, fields), k)
  {
  }

  lemma QuietInBoth(order: seq<Version>, s: State, u: State, e: Event, k: string)
    requires !e.Finish? && !e.Insert? && !e.Remove? && !e.Visit? && WritesTo(u, k) <= WritesTo(s, k)
    ensures WritesTo(Step(order, u, e), k) <= WritesTo(Step(order, s, e), k)
  {
    QuietStep(order, s, e);
    QuietStep(order, u, e);
  }

  lemma WrittenInBoth(order: seq<Version>, s: State, u: State, e: Event, k: string)
    requires Beside(order, s, u) && !IsScrub(e)
    ensures WritesTo(Step(order, u, e), k) <= WritesTo(Step(order, s, e), k)
  {
    if e.Finish? {
      FinishInBoth(order, s, u, e.client, e.patch, k);
    } else if e.Insert? {
      InsertInBoth(s, u, e.key, e.fields, k);
    } else if e.Remove? {
      RemoveInBoth(order, s, u, e.key, k);
    } else {
      QuietInBoth(order, s, u, e, k);
    }
  }

  lemma SameOrigins(order: seq<Version>, s: State, u: State, e: Event)
    requires s.origin == u.origin && FreshEvent(s.origin.Keys, e)
    ensures Step(order, s, e).origin == Step(order, u, e).origin
  {
    match e
    case Insert(key, fields) => assert InsertStep(s, key, fields).origin == InsertStep(u, key, fields).origin;
    case _ =>
      OriginKept(order, s, e);
      OriginKept(order, u, e);
  }

  lemma TrafficBeside(order: seq<Version>, s: State, u: State, e: Event)
    requires Beside(order, s, u) && GoodTimeline(order) && FreshEvent(s.origin.Keys, e)
    requires !IsScrub(e) && HonestEvent(order, u, e)
    ensures Beside(order, Step(order, s, e), Step(order, u, e))
  {
    HonestInBoth(order, s, u, e);
    StepRefines(order, s, e);
    StepRefines(order, u, e);
    InvStep(order, s, e);
    InvStep(order, u, e);
    SameOrigins(order, s, u, e);
    forall k ensures WritesTo(Step(order, u, e), k) <= WritesTo(Step(order, s, e), k) {
      WrittenInBoth(order, s, u, e, k);
    }
  }

  lemma ScrubBeside(order: seq<Version>, s: State, u: State, e: Event)
    requires Beside(order, s, u) && GoodTimeline(order) && IsScrub(e)
    ensures Beside(order, Step(order, s, e), u)
  {
    StepRefines(order, s, e);
    InvStep(order, s, e);
    OriginKept(order, s, e);
    forall k ensures WritesTo(u, k) <= WritesTo(Step(order, s, e), k) {
      WritesCountChanges(order, s, e, k);
    }
  }

  /** Listings that cannot tell without scrubs cannot tell with them either. */
  lemma {:induction false} HonestBeside(order: seq<Version>, s: State, u: State, es: seq<Event>)
    requires Beside(order, s, u) && GoodTimeline(order) && Fresh(s.origin.Keys, es)
    requires Honest(order, u, Erase(es))
    ensures Honest(order, s, es)
    decreases |es|
  {
    if es != [] {
      UsedKeys(order, s, es[0]);
      if IsScrub(es[0]) {
        ScrubBeside(order, s, u, es[0]);
        HonestBeside(order, Step(order, s, es[0]), u, es[1..]);
      } else {
        assert Erase(es)[0] == es[0] && Erase(es)[1..] == Erase(es[1..]);
        HonestInBoth(order, s, u, es[0]);
        TrafficBeside(order, s, u, es[0]);
        HonestBeside(order, Step(order, s, es[0]), Step(order, u, es[0]), es[1..]);
      }
    }
  }

  /**
   Erasing all scrub steps from an interleaving changes nothing that readers and updaters
   see, provided that without the scrubs listings filter only on fields without a pending
   action.
   */
  lemma ScrubbingInvisible(order: seq<Version>, rows: Rows, es: seq<Event>)
    requires GoodTimeline(order) && Fresh(rows.Keys, es) && Honest(order, Start(rows), Erase(es))
    ensures ViewOf(order, Run(order, Start(rows), es)) == ViewOf(order, Run(order, Start(rows), Erase(es)))
  {
    InvStart(order, rows);
    HonestBeside(order, Start(rows), Start(rows), es);
    EraseKeepsFresh(rows.Keys, es);
    RunRefines(order, Start(rows), es);
    RunRefines(order, Start(rows), Erase(es));
    EraseKeepsView(order, ViewOf(order, Start(rows)), es);
  }

  // ----- Which listings cannot tell -----

  /** The query filters on no field that the timeline touches at all; without filters it is safe. */
  ghost predicate Safe(order: seq<Version>, q: Query) {
    forall i :: 0 <= i < |q.filters| ==> q.filters[i].field !in Touched(Flatten(order))
  }

  ghost predicate AllSafe(order: seq<Version>, es: seq<Event>) {
    forall i :: 0 <= i < |es| && es[i].ReadPage? ==> Safe(order, es[i].query)
  }

  lemma {:induction false} PendingTouches(order: seq<Version>, since: int)
    ensures Touched(Flatten(Pending(order, since))) <= Touched(Flatten(order))
  {
    if order != [] {
      var v, rest := order[0], order[1..];
      PendingTouches(rest, since);
      TouchedConcat(v.actions, Flatten(rest));
      TouchedConcat(v.actions, Flatten(Pending(rest, since)));
      if v.date > since { assert ([v] + Pending(rest, since))[1..] == Pending(rest, since); }
    }
  }

  lemma TouchedConcat(a: seq<Action>, b: seq<Action>)
    ensures Touched(a + b) == Touched(a) + Touched(b)
  {
    forall f ensures f in Touched(a + b) <==> f in Touched(a) + Touched(b) {
      if f in Touched(a) {
        var i :| 0 <= i < |a| && f in Removes(a[i]) + Introduces(a[i]);
        assert (a + b)[i] == a[i];
      }
      if f in Touched(b) {
        var i :| 0 <= i < |b| && f in Removes(b[i]) + Introduces(b[i]);
        assert (a + b)[|a| + i] == b[i];
      }
    }
  }

  lemma SafeIsUntouched(order: seq<Version>, q: Query, rows: Rows)
    requires Safe(order, q)
    ensures FiltersUntouched(order, q.filters, rows)
  {
    forall k, i | k in rows && 0 <= i < |q.filters|
      ensures q.filters[i].field !in Touched(Flatten(Missing(order, rows[k].stamp)))
    {
      PendingTouches(order, Since(rows[k].stamp));
    }
  }

  lemma {:induction false} SafeIsHonest(order: seq<Version>, s: State, es: seq<Event>)
    requires AllSafe(order, es)
    ensures Honest(order, s, es)
    decreases |es|
  {
    if es != [] {
      if es[0].ReadPage? { SafeIsUntouched(order, es[0].query, s.rows); }
      forall i | 0 <= i < |es[1..]| && es[1..][i].ReadPage? ensures Safe(order, es[1..][i].query) {
        assert es[1..][i] == es[i + 1];
      }
      SafeIsHonest(order, Step(order, s, es[0]), es[1..]);
    }
  }

  lemma {:induction false} EraseKeepsSafe(order: seq<Version>, es: seq<Event>)
    requires AllSafe(order, es)
    ensures AllSafe(order, Erase(es))
    decreases |es|
  {
    if es != [] {
      assert forall i :: 0 <= i < |es[1..]| ==> es[1..][i] == es[i + 1];
      EraseKeepsSafe(order, es[1..]);
    }
  }

  /** So with unfiltered listings, or filters on fields the timeline never touches, no run can tell. */
  lemma SafeRunsInvisible(order: seq<Version>, rows: Rows, es: seq<Event>)
    requires GoodTimeline(order) && Fresh(rows.Keys, es) && AllSafe(order, es)
    ensures ViewOf(order, Run(order, Start(rows), es)) == ViewOf(order, Run(order, Start(rows), Erase(es)))
  {
    EraseKeepsSafe(order, es);
    SafeIsHonest(order, Start(rows), Erase(es));
    ScrubbingInvisible(order, rows, es);
  }

  /** In particular when no listing filters at all. */
  lemma UnfilteredRunsInvisible(order: seq<Version>, rows: Rows, es: seq<Event>)
    requires GoodTimeline(order) && Fresh(rows.Keys, es)
    requires forall i :: 0 <= i < |es| && es[i].ReadPage? ==> es[i].query.filters == []
    ensures ViewOf(order, Run(order, Start(rows), es)) == ViewOf(order, Run(order, Start(rows), Erase(es)))
  {
    SafeRunsInvisible(order, rows, es);
  }

  /**
   Other listings do notice: a visit that writes back a row whose stored data failed the
   filters and whose evolved data passes them adds one to the total that a reader gets.
   */
  lemma ScrubbingVisible(order: seq<Version>, s: State, id: int, q: Query)
    requires Walks(s, id)
    requires
      var seen := Visited(s, id);
      && Stale(order, seen.row) && RevisionIs(s.rows, seen.key, seen.row.revision)
      && !Matches(q.show, q.filters, s.rows[seen.key].fields)
      && Matches(q.show, q.filters, Upgrade(order, seen.row).fields)
    ensures
      |QueryMatches(q, VisitStep(order, s, id).rows)| == |QueryMatches(q, s.rows)| + 1
  {
    var key, t := Visited(s, id).key, VisitStep(order, s, id);
    assert QueryMatches(q, t.rows) == QueryMatches(q, s.rows) + {key};
  }
}
