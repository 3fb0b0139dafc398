/**
 The evolution service: in-place migration of one record, and the paged scrub that
 migrates a whole namespace with compare-and-set writes.
 */
module EvolutionService {
  import opened Wrappers
  import opened Ordering
  import opened Evolution
  import opened RowStore

  datatype EntityVersion = EntityVersion(date: int, actions: seq<Action>)

  /** Entity name to version name to version. */
  type Manifest = map<string, map<string, EntityVersion>>

  /** A Go map of fields: passed by reference and changed in place. */
  class RecordMap {
    var fields: Fields

    constructor (fields: Fields)
      ensures this.fields == fields
    {
      this.fields := fields;
    }
  }

  class MetaData {
    var stamp: Stamp
    var revision: int

    constructor (stamp: Stamp, revision: int)
      ensures this.stamp == stamp && this.revision == revision
    {
      this.stamp := stamp;
      this.revision := revision;
    }
  }

  ghost function Versions(timeline: map<string, EntityVersion>): set<Version> {
    set ver | ver in timeline :: Version(ver, timeline[ver].date, timeline[ver].actions)
  }

  lemma VersionsGrow(timeline: map<string, EntityVersion>, taken: map<string, EntityVersion>, ver: string)
    requires ver in timeline && ver !in taken
    ensures
      var v := Version(ver, timeline[ver].date, timeline[ver].actions);
      v !in Versions(taken) && Versions(taken[ver := timeline[ver]]) == Versions(taken) + {v}
  {
    var v := Version(ver, timeline[ver].date, timeline[ver].actions);
    var more := taken[ver := timeline[ver]];
    forall w | w in Versions(more) ensures w in Versions(taken) + {v} {
      assert w.name in more && w == Version(w.name, more[w.name].date, more[w.name].actions);
      if w.name != ver { assert w.name in taken; }
    }
    forall w | w in Versions(taken) + {v} ensures w in Versions(more) {
      assert w.name in more && w == Version(w.name, more[w.name].date, more[w.name].actions);
    }
  }

  /** Some registered manifest for the entity has `order` as its date-ordered timeline. */
  ghost predicate TimelineFor(manifests: map<string, Manifest>, entity: string, order: seq<Version>) {
    if exists b :: b in manifests && entity in manifests[b] then
      exists b :: b in manifests && entity in manifests[b] && IsTimeline(order, Versions(manifests[b][entity]))
    else
      order == []
  }

  /** One manifest at most mentions the entity, and its version dates are pairwise distinct. */
  ghost predicate Unambiguous(manifests: map<string, Manifest>, entity: string) {
    && (forall b, c :: b in manifests && entity in manifests[b] && c in manifests && entity in manifests[c] ==> b == c)
    && (forall b :: b in manifests && entity in manifests[b] ==> DistinctDates(Versions(manifests[b][entity])))
  }

  /** Neither the manifest lookup nor the timeline depends on map iteration order. */
  lemma TimelineForUnique(manifests: map<string, Manifest>, entity: string, a: seq<Version>, b: seq<Version>)
    requires Unambiguous(manifests, entity)
    requires TimelineFor(manifests, entity, a) && TimelineFor(manifests, entity, b)
    ensures a == b && StrictlySorted(a)
  {
    if m :| m in manifests && entity in manifests[m] {
      TimelineUnique(a, b, Versions(manifests[m][entity]));
    }
  }

  /**
   The timeline of an entity that one manifest mentions: every version of that manifest with
   its date and its actions, nothing else, each once, by date; and empty if none mentions it.
   */
  lemma TimelineHolds(manifests: map<string, Manifest>, entity: string, order: seq<Version>, b: string)
    requires Unambiguous(manifests, entity) && TimelineFor(manifests, entity, order)
    ensures Sorted(order)
    ensures (forall m :: m in manifests ==> entity !in manifests[m]) ==> order == []
    ensures
      b in manifests && entity in manifests[b] ==>
        var timeline := manifests[b][entity];
        && |order| == |timeline|
        && (forall v :: v in order ==>
              v.name in timeline && timeline[v.name].date == v.date && timeline[v.name].actions == v.actions)
        && (forall name {:trigger name in timeline} :: name in timeline ==>
              Version(name, timeline[name].date, timeline[name].actions) in order)
  {
    if b in manifests && entity in manifests[b] {
      var timeline := manifests[b][entity];
      TimelineSize(order, Versions(timeline));
      VersionsSize(timeline);
      forall v | v in order
        ensures v.name in timeline && timeline[v.name].date == v.date && timeline[v.name].actions == v.actions
      {
        assert v in multiset(order);
      }
      forall name {:trigger name in timeline} | name in timeline
        ensures Version(name, timeline[name].date, timeline[name].actions) in order
      {
        var v := Version(name, timeline[name].date, timeline[name].actions);
        assert v in Versions(timeline);
        assert v in multiset(order);
      }
    }
  }

  lemma {:induction false} VersionsSize(timeline: map<string, EntityVersion>)
    ensures |Versions(timeline)| == |timeline|
    decreases |timeline|
  {
    if timeline == map[] {
      assert Versions(timeline) == {};
    } else {
      var ver := Any(timeline.Keys);
      var rest := timeline - {ver};
      assert |rest.Keys| == |timeline.Keys - {ver}|;
      VersionsSize(rest);
      VersionsGrow(timeline, rest, ver);
      assert rest[ver := timeline[ver]] == timeline;
    }
  }

  /** Registering a manifest changes nothing for entities that neither it nor its predecessor mentions. */
  lemma RegisteringKeepsOthers(manifests: map<string, Manifest>, bizdef: string, manifest: Manifest,
                               entity: string, order: seq<Version>)
    requires entity !in manifest && (bizdef in manifests ==> entity !in manifests[bizdef])
    ensures TimelineFor(manifests[bizdef := manifest], entity, order) <==> TimelineFor(manifests, entity, order)
  {
    var after := manifests[bizdef := manifest];
    forall b ensures b in after && entity in after[b] <==> b in manifests && entity in manifests[b]
             ensures b in manifests && entity in manifests[b] ==> after[b] == manifests[b]
    {
    }
  }

  // ----- The exchange sort -----

  ghost predicate LeastFrom(s: seq<Version>, i: nat, j: nat)
    requires i < |s| && j <= |s|
  {
    forall k :: i < k < j ==> s[i].date <= s[k].date
  }

  /** The first `i` elements are in place: sorted and no later than all the others. */
  ghost predicate PlacedUpTo(s: seq<Version>, i: nat)
    requires i <= |s|
  {
    forall k, l :: 0 <= k < i && k < l < |s| ==> s[k].date <= s[l].date
  }

  function Swap(s: seq<Version>, i: nat, j: nat): seq<Version>
    requires i < j < |s|
  {
    s[i := s[j]][j := s[i]]
  }

  lemma SwapKeeps(s: seq<Version>, i: nat, j: nat)
    requires i < j < |s| && PlacedUpTo(s, i) && LeastFrom(s, i, j) && s[i].date > s[j].date
    ensures PlacedUpTo(Swap(s, i, j), i) && LeastFrom(Swap(s, i, j), i, j + 1)
    ensures multiset(Swap(s, i, j)) == multiset(s)
  {
  }

  /** A least element of the rest is in place. */
  lemma PlacesOne(s: seq<Version>, i: nat)
    requires i < |s| && PlacedUpTo(s, i) && LeastFrom(s, i, |s|)
    ensures PlacedUpTo(s, i + 1)
  {
  }

  method SortByDate(timeline: array<Version>)
    modifies timeline
    ensures Sorted(timeline[..])
    ensures multiset(timeline[..]) == multiset(old(timeline[..]))
  {
    ghost var now := timeline[..];
    var i := 0;
    while i < timeline.Length
      invariant i <= timeline.Length && timeline[..] == now && PlacedUpTo(now, i)
      invariant multiset(now) == multiset(old(timeline[..]))
    {
      var j := i + 1;
      while j < timeline.Length
        invariant i < j <= timeline.Length && timeline[..] == now
        invariant PlacedUpTo(now, i) && LeastFrom(now, i, j)
        invariant multiset(now) == multiset(old(timeline[..]))
      {
        if timeline[i].date > timeline[j].date {
          SwapKeeps(now, i, j);
          timeline[i], timeline[j] := timeline[j], timeline[i];
          now := Swap(now, i, j);
        }
        j := j + 1;
      }
      PlacesOne(now, i);
      i := i + 1;
    }
  }

  // ----- Counting stale rows -----

  ghost function StaleKeys(order: seq<Version>, rows: Rows): set<string> {
    set k | k in rows && Stale(order, rows[k])
  }

  /** What a scrub without competing writers leaves behind once the keys in `done` are visited. */
  ghost function Scrubbed(order: seq<Version>, rows: Rows, done: set<string>): Rows {
    map k | k in rows :: if k in done then ScrubRow(order, rows[k]) else rows[k]
  }

  /** A fully scrubbed namespace. */
  ghost function AllScrubbed(order: seq<Version>, rows: Rows): Rows {
    map k | k in rows :: ScrubRow(order, rows[k])
  }

  /** Scrubbing again finds nothing to do and changes nothing. */
  lemma SecondScrubIdle(order: seq<Version>, rows: Rows)
    requires GoodTimeline(order)
    ensures StaleKeys(order, AllScrubbed(order, rows)) == {}
    ensures AllScrubbed(order, AllScrubbed(order, rows)) == AllScrubbed(order, rows)
  {
    forall k | k in rows ensures !Stale(order, AllScrubbed(order, rows)[k]) {
      UpgradeSettles(order, rows[k]);
    }
  }

  class EvolutionService {
    var manifests: map<string, Manifest>

    constructor ()
      ensures manifests == map[]
    {
      manifests := map[];
    }

    method RegisterManifest(bizdef: string, manifest: Manifest)
      modifies this
      ensures manifests == old(manifests)[bizdef := manifest]
    {
      manifests := manifests[bizdef := manifest];
    }

    /** Finds the timeline in the first manifest, in map order, that has the entity. */
    method FindTimeline(entity: string) returns (timeline: map<string, EntityVersion>)
      ensures forall order :: IsTimeline(order, Versions(timeline)) ==> TimelineFor(manifests, entity, order)
    {
      var rest := manifests.Keys;
      while rest != {}
        invariant rest <= manifests.Keys
        invariant forall b :: b in manifests && entity in manifests[b] ==> b in rest
        decreases rest
      {
        var b :| b in rest;
        if entity in manifests[b] {
          return manifests[b][entity];
        }
        rest := rest - {b};
      }
      timeline := map[];
      forall order | IsTimeline(order, Versions(timeline)) ensures order == [] {
        assert Versions(timeline) == {};
        TimelineSize(order, {});
      }
    }

    /** The versions of a timeline, collected in map order and sorted by date in place. */
    method OrderedVersions(timeline: map<string, EntityVersion>) returns (order: seq<Version>)
      ensures IsTimeline(order, Versions(timeline))
    {
      var collected: seq<Version> := [];
      var rest := timeline.Keys;
      ghost var taken: map<string, EntityVersion> := map[];
      while rest != {}
        invariant rest <= timeline.Keys
        invariant taken == timeline - rest
        invariant multiset(collected) == multiset(Versions(taken))
        decreases rest
      {
        var ver :| ver in rest;
        var v := Version(ver, timeline[ver].date, timeline[ver].actions);
        ghost var taken' := taken[ver := timeline[ver]];
        VersionsGrow(timeline, taken, ver);
        collected := collected + [v];
        rest := rest - {ver};
        taken := taken';
      }
      assert taken == timeline;
      var sorted := new Version[|collected|](i requires 0 <= i < |collected| => collected[i]);
      assert sorted[..] == collected;
      SortByDate(sorted);
      order := sorted[..];
    }

    method ApplyActions(rec: RecordMap, actions: seq<Action>)
      modifies rec
      ensures rec.fields == ApplyAll(actions, old(rec.fields))
    {
      var i := 0;
      while i < |actions|
        invariant i <= |actions|
        invariant ApplyAll(actions[i..], rec.fields) == ApplyAll(actions, old(rec.fields))
      {
        match actions[i] {
          case Rename(from, to) =>
            if from in rec.fields {
              rec.fields := rec.fields[to := rec.fields[from]];
              rec.fields := rec.fields - {from};
            }
          case Add(field, default) =>
            if field !in rec.fields {
              rec.fields := rec.fields[field := default];
            }
          case Drop(field) =>
            rec.fields := rec.fields - {field};
          case Other(_) =>
        }
        i := i + 1;
      }
    }

    /** Brings a record and its metadata to the latest version, in place. */
    method EvolveRecord(entity: string, rec: RecordMap, meta: MetaData)
      returns (modified: bool, ghost order: seq<Version>)
      modifies rec, meta`stamp
      ensures TimelineFor(manifests, entity, order)
      ensures rec.fields == Evolve(order, old(rec.fields), old(meta.stamp))
      ensures meta.stamp == EvolveStamp(order, old(meta.stamp))
      ensures modified <==> !Current(order, old(meta.stamp))
    {
      var found := FindTimeline(entity);
      var timeline := OrderedVersions(found);
      order := timeline;
      modified := false;
      var recordVersionDate := Since(meta.stamp);
      ghost var goal := Completed(order, 0, recordVersionDate, Progress(rec.fields, meta.stamp, false));
      CompletedFromStart(order, rec.fields, meta.stamp);
      var i := 0;
      while i < |timeline|
        invariant i <= |timeline|
        invariant Completed(order, i, recordVersionDate, Progress(rec.fields, meta.stamp, modified)) == goal
      {
        var v := timeline[i];
        CompletedNext(order, i, recordVersionDate, Progress(rec.fields, meta.stamp, modified));
        if v.date > recordVersionDate {
          ApplyActions(rec, v.actions);
          meta.stamp := Stamp(v.name, Format(v.date));
          modified := true;
        }
        i := i + 1;
      }
    }

    /** One record of a page: upgraded, left alone, or failed on a revision conflict. */
    method ScrubRecord(dao: SqliteDao, entity: string, r: Entry, ghost order: seq<Version>) returns (outcome: Outcome)
      requires Unambiguous(manifests, entity) && TimelineFor(manifests, entity, order)
      modifies dao
      ensures outcome == OutcomeOf(order, old(dao.rows), r)
      ensures dao.rows == AfterRecord(order, old(dao.rows), r)
    {
      var recData := new RecordMap(r.row.fields);
      var metaCopy := new MetaData(r.row.stamp, r.row.revision);
      var modified, used := EvolveRecord(entity, recData, metaCopy);
      TimelineForUnique(manifests, entity, order, used);
      outcome := Unchanged;
      if modified {
        var upgraded := Row(recData.fields, metaCopy.stamp, metaCopy.revision);
        var ok := dao.SaveConditional(r.key, upgraded, metaCopy.revision);
        outcome := if ok then Upgraded else Failed;
      }
    }

    /** All records of one page, none of them written since the page was read. */
    method ScrubPage(dao: SqliteDao, entity: string, recs: seq<Entry>, ghost order: seq<Version>,
                     ghost plan: seq<Stage>, ghost listing: seq<Entry>, ghost offset: nat)
      returns (upgraded: nat, failed: nat)
      requires Unambiguous(manifests, entity) && TimelineFor(manifests, entity, order)
      requires IsPlan(order, plan, listing, 0)
      requires offset + |recs| <= |listing| && recs == listing[offset..offset + |recs|]
      requires dao.rows == plan[offset].rows
      modifies dao
      ensures dao.rows == plan[offset + |recs|].rows
      ensures upgraded == plan[offset + |recs|].count - plan[offset].count
      ensures failed == 0
    {
      upgraded, failed := 0, 0;
      var i := 0;
      while i < |recs|
        invariant i <= |recs|
        invariant dao.rows == plan[offset + i].rows
        invariant upgraded == plan[offset + i].count - plan[offset].count
        invariant failed == 0
      {
        assert PlanAdvances(order, plan, listing, offset + i);
        var outcome := ScrubRecord(dao, entity, recs[i], order);
        upgraded := upgraded + (if outcome.Upgraded? then 1 else 0);
        failed := failed + (if outcome.Failed? then 1 else 0);
        i := i + 1;
      }
    }

    /** One page, while the store is at the stage of its first record. */
    method NextPage(dao: SqliteDao, offset: nat, batchSize: nat, ghost order: seq<Version>,
                    ghost plan: seq<Stage>, ghost listing: seq<Entry>)
      returns (recs: seq<Entry>)
      requires IsPlan(order, plan, listing, 0) && offset <= |listing| && dao.rows == plan[offset].rows
      ensures |recs| <= batchSize && offset + |recs| <= |listing| && recs == listing[offset..offset + |recs|]
      ensures |recs| < batchSize ==> offset + |recs| == |listing|
    {
      recs := dao.List(offset, batchSize);
      PageOfPlan(order, plan, listing, 0, offset, batchSize);
    }

    /** The page loop: reads pages until one is empty or short. */
    method ScrubPages(dao: SqliteDao, entity: string, batchSize: nat, ghost order: seq<Version>,
                      ghost plan: seq<Stage>, ghost listing: seq<Entry>)
      returns (totalUpgraded: nat, totalFailed: nat, ghost visited: seq<Entry>)
      requires Unambiguous(manifests, entity) && TimelineFor(manifests, entity, order)
      requires IsPlan(order, plan, listing, 0) && plan[0] == Stage(dao.rows, 0)
      modifies dao
      ensures visited == if batchSize > 0 then listing else []
      ensures Stage(dao.rows, totalUpgraded) == plan[|visited|]
      ensures totalFailed == 0
    {
      ghost var last := if batchSize > 0 then |listing| else 0;
      var offset := 0;
      totalUpgraded := 0;
      totalFailed := 0;
      visited := [];
      ghost var seen := 0;
      while true
        invariant seen == offset <= |listing| && (batchSize == 0 ==> seen == 0) && visited == listing[..seen]
        invariant Stage(dao.rows, totalUpgraded) == plan[seen] && totalFailed == 0
        decreases |listing| - offset
      {
        var recs := NextPage(dao, offset, batchSize, order, plan, listing);
        if |recs| == 0 {
          assert seen == last;
          break;
        }
        var upgraded, failed := ScrubPage(dao, entity, recs, order, plan, listing, offset);
        totalUpgraded := totalUpgraded + upgraded;
        totalFailed := totalFailed + failed;
        OnePageOn(listing, seen, recs);
        visited := visited + recs;
        seen := offset + |recs|;
        if |recs| < batchSize {
          assert seen == last;
          break;
        }
        offset := offset + batchSize;
      }
      AllOrNothing(listing, last);
    }

    /**
     Migrates every record of the namespace, page by page. With no competing writer each
     record is visited exactly once and in key order, every stale row is upgraded and nothing
     else is touched; a batch size of zero lists nothing.
     */
    method ScrubEntity(dao: SqliteDao, entity: string, batchSize: nat, ghost order: seq<Version>)
      returns (totalUpgraded: nat, totalFailed: nat, ghost visited: seq<Entry>)
      requires Unambiguous(manifests, entity) && TimelineFor(manifests, entity, order)
      modifies dao
      ensures visited == if batchSize > 0 then Listing(old(dao.rows)) else []
      ensures batchSize > 0 ==> dao.rows == AllScrubbed(order, old(dao.rows))
      ensures batchSize > 0 ==> totalUpgraded == |StaleKeys(order, old(dao.rows))|
      ensures batchSize == 0 ==> dao.rows == old(dao.rows) && totalUpgraded == 0
      ensures totalFailed == 0
    {
      ghost var plan := ScrubPlan(order, dao.rows);
      totalUpgraded, totalFailed, visited := ScrubPages(dao, entity, batchSize, order, plan, Listing(dao.rows));
    }
  }

  // ----- The course of a scrub without competing writers -----

  /** The store once some rows are visited, and how many of those were stale. */
  datatype Stage = Stage(rows: Rows, count: nat)

  ghost predicate Advances(order: seq<Version>, before: Stage, r: Entry, after: Stage) {
    && after.rows == AfterRecord(order, before.rows, r)
    && OutcomeOf(order, before.rows, r) == (if Stale(order, r.row) then Upgraded else Unchanged)
    && after.count == before.count + if Stale(order, r.row) then 1 else 0
  }

  ghost predicate PlanAdvances(order: seq<Version>, plan: seq<Stage>, listing: seq<Entry>, n: nat) {
    n < |listing| < |plan| && Advances(order, plan[n], listing[n], plan[n + 1])
  }

  ghost predicate PlanShows(plan: seq<Stage>, listing: seq<Entry>, n: nat) {
    n < |plan| && ShowsRest(plan[n].rows, n, listing)
  }

  /** From stage `from` on, one stage per visited row, each listing the unvisited rows as `listing` does. */
  ghost predicate IsPlan(order: seq<Version>, plan: seq<Stage>, listing: seq<Entry>, from: nat) {
    && |plan| == |listing| + 1
    && (forall n {:trigger PlanAdvances(order, plan, listing, n)} ::
          from <= n < |listing| ==> PlanAdvances(order, plan, listing, n))
    && (forall n {:trigger PlanShows(plan, listing, n)} :: from <= n <= |listing| ==> PlanShows(plan, listing, n))
  }

  /** The page read at stage `n` starts at the `n`-th row, and is short only at the end. */
  lemma PageOfPlan(order: seq<Version>, plan: seq<Stage>, listing: seq<Entry>, from: nat, n: nat, batch: nat)
    requires IsPlan(order, plan, listing, from) && from <= n <= |listing|
    ensures
      var page := Listed(plan[n].rows, n, batch);
      && |page| <= batch && n + |page| <= |listing| && page == listing[n..n + |page|]
      && (|page| < batch ==> n + |page| == |listing|)
  {
    assert PlanShows(plan, listing, n);
  }

  lemma OnePageOn<T>(listing: seq<T>, n: nat, page: seq<T>)
    requires n + |page| <= |listing| && page == listing[n..n + |page|]
    ensures listing[..n] + page == listing[..n + |page|]
  {
  }

  lemma AllOrNothing<T>(listing: seq<T>, n: nat)
    requires n == 0 || n == |listing|
    ensures listing[..n] == if n == 0 then [] else listing
  {
  }

  ghost function Range<T(!new)>(xs: seq<T>, from: nat, n: nat): set<T>
    requires from <= n <= |xs|
  {
    set x | x in xs[from..n]
  }

  lemma RangeGrows<T(!new)>(xs: seq<T>, from: nat, n: nat)
    requires Distinct(xs) && from <= n < |xs|
    ensures xs[n] !in Range(xs, from, n) && Range(xs, from, n + 1) == Range(xs, from, n) + {xs[n]}
  {
    assert xs[from..n + 1] == xs[from..n] + [xs[n]];
  }

  /** The keys from position `from` up to position `n` in listing order. */
  ghost function Between(rows: Rows, from: nat, n: nat): set<string>
    requires from <= n <= |rows|
  {
    Range(SortKeys(rows.Keys), from, n)
  }

  /** A scrub that starts at position `from`, after `base` upgrades, and has come to position `n`. */
  ghost function StageAt(order: seq<Version>, rows: Rows, from: nat, base: nat, n: nat): Stage
    requires from <= n <= |rows|
  {
    var done := Between(rows, from, n);
    Stage(Scrubbed(order, rows, done), base + |StaleKeys(order, rows) * done|)
  }

  /** Visiting one more row, which is unvisited so far. */
  lemma VisitNext(order: seq<Version>, rows: Rows, from: nat, base: nat, n: nat)
    requires from <= n < |rows|
    ensures
      Advances(order, StageAt(order, rows, from, base, n), Listing(rows)[n], StageAt(order, rows, from, base, n + 1))
  {
    var r, done := Listing(rows)[n], Between(rows, from, n);
    assert EntryAt(rows, n, r);
    SortedDistinct(rows.Keys);
    RangeGrows(SortKeys(rows.Keys), from, n);
    ScrubStep(order, rows, done, r.key);
    RecordScrubbed(order, Scrubbed(order, rows, done), r.key);
  }

  lemma ScrubStep(order: seq<Version>, rows: Rows, done: set<string>, k: string)
    requires k in rows && k !in done
    ensures Scrubbed(order, rows, done)[k] == rows[k]
    ensures Scrubbed(order, rows, done + {k}) == Scrubbed(order, rows, done)[k := ScrubRow(order, rows[k])]
    ensures |StaleKeys(order, rows) * (done + {k})|
            == |StaleKeys(order, rows) * done| + if Stale(order, rows[k]) then 1 else 0
  {
    assert k in StaleKeys(order, rows) <==> Stale(order, rows[k]);
    OneMoreCounted(StaleKeys(order, rows), done, k);
  }

  lemma OneMoreCounted<K>(counted: set<K>, done: set<K>, k: K)
    requires k !in done
    ensures |counted * (done + {k})| == |counted * done| + if k in counted then 1 else 0
  {
    assert counted * (done + {k}) == if k in counted then counted * done + {k} else counted * done;
  }

  lemma RecordScrubbed(order: seq<Version>, rows: Rows, k: string)
    requires k in rows
    ensures AfterRecord(order, rows, Entry(k, rows[k])) == rows[k := ScrubRow(order, rows[k])]
    ensures OutcomeOf(order, rows, Entry(k, rows[k])) == if Stale(order, rows[k]) then Upgraded else Unchanged
  {
    assert rows == rows[k := rows[k]];
  }

  /**
   The stages of a scrub from position `from` on. At stage `n` the listing from the `n`-th
   row on still shows the rows as they were at the start.
   */
  lemma ScrubPlanFrom(order: seq<Version>, rows: Rows, from: nat, base: nat) returns (plan: seq<Stage>)
    requires from <= |rows|
    ensures IsPlan(order, plan, Listing(rows), from)
    ensures plan == Stages(order, rows, from, base)
    ensures plan[from] == Stage(rows, base)
  {
    plan := Stages(order, rows, from, base);
    var listing := Listing(rows);
    forall n | from <= n < |listing| ensures PlanAdvances(order, plan, listing, n) {
      VisitNext(order, rows, from, base, n);
    }
    forall n | from <= n <= |listing| ensures PlanShows(plan, listing, n) {
      StageShows(order, rows, from, base, n);
    }
    assert Between(rows, from, from) == {};
    assert Scrubbed(order, rows, {}) == rows;
  }

  ghost function Stages(order: seq<Version>, rows: Rows, from: nat, base: nat): (plan: seq<Stage>)
    requires from <= |rows|
    ensures |plan| == |rows| + 1
    ensures forall n {:trigger plan[n]} :: from <= n <= |rows| ==> plan[n] == StageAt(order, rows, from, base, n)
  {
    seq(|rows| + 1, n requires 0 <= n <= |rows| => StageAt(order, rows, from, base, if n < from then from else n))
  }

  /** The stages of a whole scrub. */
  lemma ScrubPlan(order: seq<Version>, rows: Rows) returns (plan: seq<Stage>)
    ensures IsPlan(order, plan, Listing(rows), 0)
    ensures plan == Stages(order, rows, 0, 0)
    ensures plan[0] == Stage(rows, 0)
    ensures plan[|rows|] == Stage(AllScrubbed(order, rows), |StaleKeys(order, rows)|)
  {
    plan := ScrubPlanFrom(order, rows, 0, 0);
    LastStage(order, rows);
  }

  lemma LastStage(order: seq<Version>, rows: Rows)
    ensures StageAt(order, rows, 0, 0, |rows|) == Stage(AllScrubbed(order, rows), |StaleKeys(order, rows)|)
  {
    RangeAll(SortKeys(rows.Keys), rows.Keys);
    ScrubbedAll(order, rows);
  }

  lemma ScrubbedAll(order: seq<Version>, rows: Rows)
    ensures Scrubbed(order, rows, rows.Keys) == AllScrubbed(order, rows)
    ensures StaleKeys(order, rows) * rows.Keys == StaleKeys(order, rows)
  {
  }

  lemma RangeAll<T(!new)>(xs: seq<T>, s: set<T>)
    requires forall x :: x in xs <==> x in s
    ensures Range(xs, 0, |xs|) == s
  {
    assert xs[0..|xs|] == xs;
  }

  /** From the `n`-th row on, `rows` lists what `listing` says, whatever the page size. */
  ghost predicate ShowsRest(rows: Rows, n: nat, listing: seq<Entry>) {
    |rows| == |listing| && forall limit: nat :: Listed(rows, n, limit) == Page(listing, n, limit)
  }

  lemma RestUnchanged(rows: Rows, now: Rows, from: nat, n: nat)
    requires from <= n <= |rows| && now.Keys == rows.Keys
    requires forall k :: k in rows && k !in Between(rows, from, n) ==> now[k] == rows[k]
    ensures ShowsRest(now, n, Listing(rows))
  {
    assert |now.Keys| == |rows.Keys|;
    var before, after := Listing(rows), Listing(now);
    forall i | n <= i < |rows| ensures after[i] == before[i] {
      Unvisited(rows, from, n, i);
      assert EntryAt(rows, i, before[i]) && EntryAt(now, i, after[i]);
    }
    forall limit: nat ensures Listed(now, n, limit) == Page(before, n, limit) {
      PageOfSuffix(after, before, n, limit);
    }
  }

  lemma StageShows(order: seq<Version>, rows: Rows, from: nat, base: nat, n: nat)
    requires from <= n <= |rows|
    ensures ShowsRest(StageAt(order, rows, from, base, n).rows, n, Listing(rows))
  {
    RestUnchanged(rows, Scrubbed(order, rows, Between(rows, from, n)), from, n);
  }

  lemma Unvisited(rows: Rows, from: nat, n: nat, i: nat)
    requires from <= n <= |rows| && i < |rows| && (i < from || n <= i)
    ensures SortKeys(rows.Keys)[i] in rows && SortKeys(rows.Keys)[i] !in Between(rows, from, n)
  {
    var keys := SortKeys(rows.Keys);
    SortedDistinct(rows.Keys);
    assert keys[i] in keys;
  }
}
