/**
 Schema evolution of one record: the action language of an evolution manifest, the
 date-ordered timeline, and what bringing a record up to date means for its data and for
 the version stamp in its metadata.
 */
module Evolution {

  /** A decoded JSON value. */
  datatype Value = Null | Bool(b: bool) | Num(n: int) | Text(s: string) | List(items: seq<Value>)

  type Fields = map<string, Value>

  /** Reading a missing field of a decoded record gives nil. */
  function Lookup(rec: Fields, name: string): Value {
    if name in rec then rec[name] else Null
  }

  /** The text of a value under the format `%v`. */
  type Show = Value -> string

  /** The text of a string is the string itself. */
  ghost predicate ShowsText(show: Show) {
    forall s: string :: show(Text(s)) == s
  }

  /** `Other` stands for "transform" and for every unknown action name: they do nothing. */
  datatype Action =
    | Rename(from: string, to: string)
    | Add(field: string, default: Value)
    | Drop(field: string)
    | Other(name: string)

  /** A named manifest version; `date` is in nanoseconds since Go's zero time. */
  datatype Version = Version(name: string, date: int, actions: seq<Action>)

  /** The metadata text holding a version date: empty, unparsable, or an RFC 3339 instant. */
  datatype DateText = Blank | Malformed(text: string) | Rfc3339(instant: int)

  datatype Stamp = Stamp(version: string, date: DateText)

  /** The metadata of a record that was never evolved. */
  const NO_STAMP := Stamp("", Blank)

  const SECOND := 1_000_000_000
  const ZERO_TIME := 0

  /** The last whole second not after `t`. */
  function CutToSecond(t: int): (cut: int)
    ensures cut <= t < cut + SECOND && cut % SECOND == 0
    ensures cut == t <==> t % SECOND == 0
  {
    t - t % SECOND
  }

  /** RFC 3339 without fractions (section 5.6): the instant is cut to its whole second. */
  function Format(t: int): DateText {
    Rfc3339(CutToSecond(t))
  }

  /** The date a record counts as being at; a blank or unparsable text is the zero time. */
  function Since(stamp: Stamp): int {
    if stamp.date.Rfc3339? then stamp.date.instant else ZERO_TIME
  }

  // ----- Actions -----

  function Apply(action: Action, rec: Fields): Fields {
    match action
    case Rename(from, to) => if from in rec then rec[to := rec[from]] - {from} else rec
    case Add(field, default) => if field in rec then rec else rec[field := default]
    case Drop(field) => rec - {field}
    case Other(_) => rec
  }

  function ApplyAll(actions: seq<Action>, rec: Fields): Fields {
    if actions == [] then rec else ApplyAll(actions[1..], Apply(actions[0], rec))
  }

  /** Renaming a field to itself deletes it: the new name is written before the old one goes. */
  lemma RenameToItself(f: string, rec: Fields)
    ensures Apply(Rename(f, f), rec) == rec - {f}
  {
  }

  lemma ApplyTwo(a: Action, b: Action, rec: Fields)
    ensures ApplyAll([a, b], rec) == Apply(b, Apply(a, rec))
  {
    assert [a, b][1..] == [b] && [b][1..] == [];
    assert ApplyAll([b], Apply(a, rec)) == Apply(b, Apply(a, rec));
  }

  function Removes(action: Action): set<string> {
    match action
    case Rename(from, _) => {from}
    case Drop(field) => {field}
    case Add(_, _) => {}
    case Other(_) => {}
  }

  function Introduces(action: Action): set<string> {
    match action
    case Rename(_, to) => {to}
    case Add(field, _) => {field}
    case Drop(_) => {}
    case Other(_) => {}
  }

  lemma {:induction false} ApplyAllConcat(a: seq<Action>, b: seq<Action>, rec: Fields)
    ensures ApplyAll(a + b, rec) == ApplyAll(b, ApplyAll(a, rec))
  {
    if a == [] {
      assert a + b == b;
    } else {
      assert (a + b)[1..] == a[1..] + b;
      ApplyAllConcat(a[1..], b, Apply(a[0], rec));
    }
  }

  /** A field no action mentions keeps its value, present or absent. */
  lemma {:induction false} UntouchedField(actions: seq<Action>, rec: Fields, f: string)
    requires forall i :: 0 <= i < |actions| ==> f !in Removes(actions[i]) + Introduces(actions[i])
    ensures f in ApplyAll(actions, rec) <==> f in rec
    ensures f in rec ==> ApplyAll(actions, rec)[f] == rec[f]
  {
    if actions != [] {
      assert f !in Removes(actions[0]) + Introduces(actions[0]);
      UntouchedField(actions[1..], Apply(actions[0], rec), f);
    }
  }

  // ----- Timelines -----

  ghost predicate Sorted(order: seq<Version>) {
    forall i, j :: 0 <= i < j < |order| ==> order[i].date <= order[j].date
  }

  ghost predicate StrictlySorted(order: seq<Version>) {
    forall i, j :: 0 <= i < j < |order| ==> order[i].date < order[j].date
  }

  /** The versions still to be applied to a record dated `since`, in timeline order. */
  function Pending(order: seq<Version>, since: int): seq<Version> {
    if order == [] then []
    else if order[0].date > since then [order[0]] + Pending(order[1..], since)
    else Pending(order[1..], since)
  }

  function Flatten(order: seq<Version>): seq<Action> {
    if order == [] then [] else order[0].actions + Flatten(order[1..])
  }

  /** The stamp left by applying `applied` in sequence to a record stamped `stamp`. */
  function Restamp(applied: seq<Version>, stamp: Stamp): Stamp {
    if applied == [] then stamp
    else var v := applied[|applied| - 1]; Stamp(v.name, Format(v.date))
  }

  function Missing(order: seq<Version>, stamp: Stamp): seq<Version> {
    Pending(order, Since(stamp))
  }

  function Evolve(order: seq<Version>, rec: Fields, stamp: Stamp): Fields {
    ApplyAll(Flatten(Missing(order, stamp)), rec)
  }

  function EvolveStamp(order: seq<Version>, stamp: Stamp): Stamp {
    Restamp(Missing(order, stamp), stamp)
  }

  predicate Current(order: seq<Version>, stamp: Stamp) {
    Missing(order, stamp) == []
  }

  lemma PendingStep(order: seq<Version>, i: nat, since: int)
    requires i < |order|
    ensures Pending(order[i..], since)
            == (if order[i].date > since then [order[i]] else []) + Pending(order[i + 1..], since)
  {
    assert order[i..][1..] == order[i + 1..];
  }

  /** A record in the course of an upgrade: its data, its stamp, and whether it was changed. */
  datatype Progress = Progress(fields: Fields, stamp: Stamp, modified: bool)

  /** What an upgrade that has come to the `i`-th version ends with. */
  function Completed(order: seq<Version>, i: nat, since: int, p: Progress): Progress
    requires i <= |order|
  {
    var rest := Pending(order[i..], since);
    Progress(ApplyAll(Flatten(rest), p.fields), Restamp(rest, p.stamp), p.modified || rest != [])
  }

  function Applied(v: Version, p: Progress): Progress {
    Progress(ApplyAll(v.actions, p.fields), Stamp(v.name, Format(v.date)), true)
  }

  lemma CompletedNext(order: seq<Version>, i: nat, since: int, p: Progress)
    requires i < |order|
    ensures Completed(order, i, since, p)
            == Completed(order, i + 1, since, if order[i].date > since then Applied(order[i], p) else p)
  {
    var v, rest := order[i], Pending(order[i + 1..], since);
    PendingStep(order, i, since);
    if v.date > since {
      assert ([v] + rest)[1..] == rest;
      ApplyAllConcat(v.actions, Flatten(rest), p.fields);
    }
  }

  lemma CompletedFromStart(order: seq<Version>, rec: Fields, stamp: Stamp)
    ensures Completed(order, 0, Since(stamp), Progress(rec, stamp, false))
            == Progress(Evolve(order, rec, stamp), EvolveStamp(order, stamp), !Current(order, stamp))
  {
    assert order[0..] == order;
  }

  lemma {:induction false} PendingConcat(a: seq<Version>, b: seq<Version>, since: int)
    ensures Pending(a + b, since) == Pending(a, since) + Pending(b, since)
  {
    if a == [] {
      assert a + b == b;
    } else {
      assert (a + b)[1..] == a[1..] + b;
      PendingConcat(a[1..], b, since);
    }
  }

  /** Pending are exactly the versions dated after the record, as often as the timeline has them. */
  lemma {:induction false} PendingExactly(order: seq<Version>, since: int, v: Version)
    ensures multiset(Pending(order, since))[v] == if v.date > since then multiset(order)[v] else 0
  {
    if order != [] {
      PendingExactly(order[1..], since, v);
      assert order == [order[0]] + order[1..];
    }
  }

  /**
   In terms of the metadata: a version is applied if it is dated after the record's date, and
   a record without a readable date counts as dated zero.
   */
  lemma MissingExactly(order: seq<Version>, stamp: Stamp, v: Version)
    ensures multiset(Missing(order, stamp))[v]
            == match stamp.date
               case Rfc3339(t) => (if v.date > t then multiset(order)[v] else 0)
               case Blank => (if v.date > 0 then multiset(order)[v] else 0)
               case Malformed(_) => (if v.date > 0 then multiset(order)[v] else 0)
  {
    PendingExactly(order, Since(stamp), v);
  }

  /** They are applied in timeline order. */
  lemma {:induction false} PendingSorted(order: seq<Version>, since: int)
    requires StrictlySorted(order)
    ensures StrictlySorted(Pending(order, since))
    ensures forall i :: 0 <= i < |Pending(order, since)| ==> Pending(order, since)[i] in order
  {
    if order != [] {
      var tail := order[1..];
      PendingSorted(tail, since);
      forall i | 0 <= i < |Pending(tail, since)|
        ensures Pending(tail, since)[i] in order && order[0].date < Pending(tail, since)[i].date
      {
        var j :| 0 <= j < |tail| && tail[j] == Pending(tail, since)[i];
        assert order[j + 1] == tail[j];
      }
    }
  }

  lemma {:induction false} PendingAll(order: seq<Version>, since: int)
    requires forall i :: 0 <= i < |order| ==> order[i].date > since
    ensures Pending(order, since) == order
  {
    if order != [] { PendingAll(order[1..], since); }
  }

  lemma {:induction false} PendingNone(order: seq<Version>, since: int)
    requires forall i :: 0 <= i < |order| ==> order[i].date <= since
    ensures Pending(order, since) == []
  {
    if order != [] { PendingNone(order[1..], since); }
  }

  /** Only the latest version decides whether a sorted timeline has anything pending. */
  lemma CurrentIff(order: seq<Version>, since: int)
    requires Sorted(order)
    ensures Pending(order, since) == [] <==> order == [] || order[|order| - 1].date <= since
  {
    if order != [] {
      if order[|order| - 1].date <= since {
        PendingNone(order, since);
      } else {
        LastIsPending(order, since);
      }
    }
  }

  /** After an upgrade the stamp is the latest version of the timeline, cut to a second. */
  lemma StampAfterUpgrade(order: seq<Version>, stamp: Stamp)
    requires Sorted(order) && !Current(order, stamp)
    ensures order != []
    ensures EvolveStamp(order, stamp)
            == Stamp(order[|order| - 1].name, Format(order[|order| - 1].date))
    ensures
      var last, date := order[|order| - 1], EvolveStamp(order, stamp).date;
      date.Rfc3339? && date.instant <= last.date < date.instant + 1_000_000_000 && date.instant % 1_000_000_000 == 0
  {
    CurrentIff(order, Since(stamp));
    LastIsPending(order, Since(stamp));
  }

  lemma LastIsPending(order: seq<Version>, since: int)
    requires order != [] && order[|order| - 1].date > since
    ensures Pending(order, since) != []
    ensures Pending(order, since)[|Pending(order, since)| - 1] == order[|order| - 1]
  {
    var n := |order| - 1;
    PendingConcat(order[..n], [order[n]], since);
    assert order == order[..n] + [order[n]];
  }

  // ----- Independence of map iteration order -----

  ghost predicate DistinctDates(s: set<Version>) {
    forall v, w :: v in s && w in s && v != w ==> v.date != w.date
  }

  /** `order` lists exactly the versions `s`, once each, by date. */
  ghost predicate IsTimeline(order: seq<Version>, s: set<Version>) {
    Sorted(order) && multiset(order) == multiset(s)
  }

  lemma TimelineHead(a: seq<Version>, s: set<Version>)
    requires IsTimeline(a, s) && a != []
    ensures a[0] in s && IsTimeline(a[1..], s - {a[0]})
    ensures forall x :: x in s ==> a[0].date <= x.date
  {
    assert a == [a[0]] + a[1..];
    assert a[0] in multiset(a);
    assert a[0] in s;
    assert multiset(s) == multiset{a[0]} + multiset(s - {a[0]});
    assert multiset(a) == multiset{a[0]} + multiset(a[1..]);
    assert multiset(a[1..]) == multiset(a) - multiset{a[0]};
    assert multiset(s - {a[0]}) == multiset(s) - multiset{a[0]};
    forall x | x in s ensures a[0].date <= x.date {
      assert x in multiset(a);
      var i :| 0 <= i < |a| && a[i] == x;
    }
  }

  lemma TimelineSize(a: seq<Version>, s: set<Version>)
    requires IsTimeline(a, s)
    ensures |a| == |s|
  {
    assert |a| == |multiset(a)|;
  }

  lemma SameHead(a: seq<Version>, b: seq<Version>, s: set<Version>)
    requires IsTimeline(a, s) && IsTimeline(b, s) && DistinctDates(s)
    ensures |a| == |b|
    ensures a != [] ==> a[0] == b[0] && IsTimeline(a[1..], s - {a[0]}) && IsTimeline(b[1..], s - {a[0]})
  {
    TimelineSize(a, s);
    TimelineSize(b, s);
    if a != [] {
      TimelineHead(a, s);
      TimelineHead(b, s);
    }
  }

  /** With pairwise distinct dates there is one date-ordered arrangement, strictly sorted. */
  lemma {:induction false} TimelineUnique(a: seq<Version>, b: seq<Version>, s: set<Version>)
    requires IsTimeline(a, s) && IsTimeline(b, s) && DistinctDates(s)
    ensures a == b && StrictlySorted(a)
  {
    SameHead(a, b, s);
    if a != [] {
      TimelineUnique(a[1..], b[1..], s - {a[0]});
      assert a == [a[0]] + a[1..] && b == [b[0]] + b[1..];
      HeadIsStrict(a, s);
    }
  }

  lemma HeadIsStrict(a: seq<Version>, s: set<Version>)
    requires IsTimeline(a, s) && DistinctDates(s) && a != [] && StrictlySorted(a[1..])
    ensures StrictlySorted(a)
  {
    TimelineHead(a, s);
    forall i, j | 0 <= i < j < |a| ensures a[i].date < a[j].date {
      if i == 0 {
        assert a[j] == a[1..][j - 1];
        assert a[j] in multiset(a[1..]);
        assert a[j] in s - {a[0]};
      } else {
        assert a[1..][i - 1].date < a[1..][j - 1].date;
      }
    }
  }

  // ----- Repeating and staging upgrades -----

  /**
   A second upgrade finds nothing to do exactly when the first had nothing to do or the
   latest version date has no fraction of a second; a fractional latest date is found
   pending again by every later upgrade.
   */
  lemma SecondUpgradeIdle(order: seq<Version>, stamp: Stamp)
    requires Sorted(order)
    ensures Current(order, EvolveStamp(order, stamp))
            <==> Current(order, stamp) || order[|order| - 1].date % SECOND == 0
  {
    CurrentIff(order, Since(stamp));
    if !Current(order, stamp) {
      StampAfterUpgrade(order, stamp);
      CurrentIff(order, Since(EvolveStamp(order, stamp)));
    }
  }

  /** The fractional case never settles: each further upgrade is again incomplete. */
  lemma {:induction false} FractionReappliedForever(order: seq<Version>, stamp: Stamp, times: nat)
    requires Sorted(order) && !Current(order, stamp) && order[|order| - 1].date % SECOND != 0
    ensures !Current(order, StampAfter(order, stamp, times))
  {
    if times > 0 {
      FractionReappliedForever(order, stamp, times - 1);
      SecondUpgradeIdle(order, StampAfter(order, stamp, times - 1));
    }
  }

  function StampAfter(order: seq<Version>, stamp: Stamp, times: nat): Stamp {
    if times == 0 then stamp else EvolveStamp(order, StampAfter(order, stamp, times - 1))
  }

  lemma {:induction false} FlattenConcat(a: seq<Version>, b: seq<Version>)
    ensures Flatten(a + b) == Flatten(a) + Flatten(b)
  {
    if a == [] {
      assert a + b == b;
    } else {
      assert (a + b)[1..] == a[1..] + b;
      FlattenConcat(a[1..], b);
    }
  }

  /**
   Upgrading under a timeline and later under an extension of it replays, in the second
   stage, exactly the extension preceded by the versions of the last, fractional second.
   */
  lemma StagedReplay(order: seq<Version>, ext: seq<Version>, stamp: Stamp)
    requires StrictlySorted(order + ext) && !Current(order, stamp)
    ensures order != []
    ensures Missing(order + ext, EvolveStamp(order, stamp))
            == Pending(order, CutToSecond(order[|order| - 1].date)) + ext
    ensures Missing(order + ext, stamp) == Missing(order, stamp) + ext
  {
    PrefixSorted(order, ext);
    StampAfterUpgrade(order, stamp);
    CurrentIff(order, Since(stamp));
    var last := order[|order| - 1];
    PendingAll(ext, Since(stamp));
    PendingAll(ext, CutToSecond(last.date));
    PendingConcat(order, ext, Since(stamp));
    PendingConcat(order, ext, CutToSecond(last.date));
  }

  lemma PrefixSorted(order: seq<Version>, ext: seq<Version>)
    requires StrictlySorted(order + ext)
    ensures StrictlySorted(order) && Sorted(order)
    ensures forall i, j :: 0 <= i < |order| && 0 <= j < |ext| ==> order[i].date < ext[j].date
  {
    var whole := order + ext;
    assert forall i :: 0 <= i < |order| ==> order[i] == whole[i];
    assert forall j :: 0 <= j < |ext| ==> ext[j] == whole[|order| + j];
  }

  /** With a whole-second latest date, upgrading in two stages equals upgrading once. */
  lemma StagedUpgrade(order: seq<Version>, ext: seq<Version>, rec: Fields, stamp: Stamp)
    requires StrictlySorted(order + ext)
    requires Current(order, stamp) || order[|order| - 1].date % SECOND == 0
    ensures Evolve(order + ext, Evolve(order, rec, stamp), EvolveStamp(order, stamp))
            == Evolve(order + ext, rec, stamp)
    ensures EvolveStamp(order + ext, EvolveStamp(order, stamp)) == EvolveStamp(order + ext, stamp)
  {
    if !Current(order, stamp) {
      PrefixSorted(order, ext);
      StagedReplay(order, ext, stamp);
      CurrentIff(order, order[|order| - 1].date);
      var first := Missing(order, stamp);
      assert [] + ext == ext;
      FlattenConcat(first, ext);
      ApplyAllConcat(Flatten(first), Flatten(ext), rec);
      if ext == [] { assert first + ext == first; }
    }
  }

  /** A fractional latest date breaks staging: here the second stage destroys a field. */
  lemma StagedUpgradeNeedsWholeSeconds()
    ensures
      var order := [Version("v2", 1, [Rename("a", "b"), Rename("c", "a")])];
      var ext := [Version("v3", 2 * SECOND, [])];
      var rec: Fields := map["a" := Num(1), "c" := Num(2)];
      && StrictlySorted(order + ext)
      && Evolve(order + ext, Evolve(order, rec, NO_STAMP), EvolveStamp(order, NO_STAMP))
         != Evolve(order + ext, rec, NO_STAMP)
  {
    var order := [Version("v2", 1, [Rename("a", "b"), Rename("c", "a")])];
    var ext := [Version("v3", 2 * SECOND, [])];
    var rec: Fields := map["a" := Num(1), "c" := Num(2)];
    StagedReplay(order, ext, NO_STAMP);
    assert order[1..] == [] && ext[1..] == [] && (order + ext)[1..] == ext;
    assert Missing(order, NO_STAMP) == order;
    var acts := order[0].actions;
    assert Flatten(order) == acts && Flatten(order + ext) == acts by {
      FlattenConcat(order, ext);
    }
    var once := ApplyAll(acts, rec);
    ApplyTwo(acts[0], acts[1], rec);
    ApplyTwo(acts[0], acts[1], once);
    assert once["b"] == Num(1);
    assert Pending(order, 0) == order;
    assert ApplyAll(acts, once)["b"] == Num(2);
  }

  // ----- Settled action lists -----

  ghost predicate ActsOn(action: Action, f: string) {
    match action
    case Rename(from, to) => f == from || f == to
    case Add(field, _) => f == field
    case Drop(field) => f == field
    case Other(_) => false
  }

  /** No field is introduced after being removed, and no added field is later renamed. */
  ghost predicate Settled(actions: seq<Action>) {
    && (forall i, j :: 0 <= i < j < |actions| ==> Removes(actions[i]) !! Introduces(actions[j]))
    && (forall i, j :: 0 <= i < j < |actions| && actions[i].Add? && actions[j].Rename? ==>
          actions[i].field != actions[j].from)
  }

  lemma {:induction false} StaysAbsent(actions: seq<Action>, rec: Fields, f: string)
    requires f !in rec
    requires forall i :: 0 <= i < |actions| ==> f !in Introduces(actions[i])
    ensures f !in ApplyAll(actions, rec)
  {
    if actions != [] {
      assert f !in Introduces(actions[0]);
      StaysAbsent(actions[1..], Apply(actions[0], rec), f);
    }
  }

  lemma {:induction false} StaysPresent(actions: seq<Action>, rec: Fields, f: string)
    requires f in rec
    requires forall i :: 0 <= i < |actions| ==> f !in Removes(actions[i])
    ensures f in ApplyAll(actions, rec)
  {
    if actions != [] {
      assert f !in Removes(actions[0]);
      StaysPresent(actions[1..], Apply(actions[0], rec), f);
    }
  }

  lemma SplitAt(actions: seq<Action>, rec: Fields, i: nat)
    requires i < |actions|
    ensures ApplyAll(actions[..i + 1], rec) == Apply(actions[i], ApplyAll(actions[..i], rec))
    ensures ApplyAll(actions, rec) == ApplyAll(actions[i + 1..], ApplyAll(actions[..i + 1], rec))
  {
    assert actions[..i + 1] == actions[..i] + [actions[i]];
    assert actions == actions[..i + 1] + actions[i + 1..];
    ApplyAllConcat(actions[..i], [actions[i]], rec);
    ApplyAllConcat(actions[..i + 1], actions[i + 1..], rec);
    assert [actions[i]][1..] == [];
  }

  /** Whatever a settled list removes is absent from its result. */
  lemma RemovedIsGone(actions: seq<Action>, rec: Fields, i: nat, f: string)
    requires Settled(actions) && i < |actions| && f in Removes(actions[i])
    ensures f !in ApplyAll(actions, rec)
  {
    SplitAt(actions, rec, i);
    var rest := actions[i + 1..];
    forall j | 0 <= j < |rest| ensures f !in Introduces(rest[j]) {
      assert rest[j] == actions[i + 1 + j];
    }
    StaysAbsent(rest, ApplyAll(actions[..i + 1], rec), f);
  }

  /** An added field missing from the result was dropped later on. */
  lemma AddedThenDropped(actions: seq<Action>, rec: Fields, i: nat) returns (j: nat)
    requires Settled(actions) && i < |actions| && actions[i].Add?
    requires actions[i].field !in ApplyAll(actions, rec)
    ensures i < j < |actions| && actions[j] == Drop(actions[i].field)
  {
    var f := actions[i].field;
    SplitAt(actions, rec, i);
    var rest := actions[i + 1..];
    if k :| 0 <= k < |rest| && f in Removes(rest[k]) {
      j := i + 1 + k;
      assert rest[k] == actions[j];
    } else {
      StaysPresent(rest, ApplyAll(actions[..i + 1], rec), f);
      assert false;
    }
  }

  /** Half way through a second run, only fields added and not yet dropped again differ. */
  ghost predicate MidSecondRun(actions: seq<Action>, k: nat, done: Fields, rec: Fields)
    requires k <= |actions|
  {
    && (forall f :: f in done ==> f in rec && rec[f] == done[f])
    && (forall f :: f in rec && f !in done ==>
          exists i :: 0 <= i < k && actions[i].Add? && actions[i].field == f && KeptFrom(actions, i, k, f))
  }

  ghost predicate KeptFrom(actions: seq<Action>, i: nat, k: nat, f: string)
    requires i <= k <= |actions|
  {
    forall j :: i < j < k ==> actions[j] != Drop(f)
  }

  lemma SecondRunStep(actions: seq<Action>, k: nat, done: Fields, rec: Fields)
    requires k < |actions| && Settled(actions) && MidSecondRun(actions, k, done, rec)
    requires Removes(actions[k]) !! done.Keys
    ensures MidSecondRun(actions, k + 1, done, Apply(actions[k], rec))
  {
    var a := actions[k];
    assert a.Rename? ==> a.from !in rec;
    var after := Apply(a, rec);
    assert forall f :: f in done ==> f in after && after[f] == done[f];
    forall f | f in after && f !in done
      ensures exists i :: 0 <= i < k + 1 && actions[i].Add? && actions[i].field == f && KeptFrom(actions, i, k + 1, f)
    {
      if f in rec {
        var i :| 0 <= i < k && actions[i].Add? && actions[i].field == f && KeptFrom(actions, i, k, f);
        assert a != Drop(f);
        assert KeptFrom(actions, i, k + 1, f);
      } else {
        assert KeptFrom(actions, k, k + 1, f);
      }
    }
  }

  lemma {:induction false} SecondRun(actions: seq<Action>, rec: Fields, k: nat)
    requires Settled(actions) && k <= |actions|
    ensures MidSecondRun(actions, k, ApplyAll(actions, rec), ApplyAll(actions[..k], ApplyAll(actions, rec)))
  {
    var done := ApplyAll(actions, rec);
    if k > 0 {
      SecondRun(actions, rec, k - 1);
      SplitAt(actions, done, k - 1);
      forall f | f in Removes(actions[k - 1]) ensures f !in done { RemovedIsGone(actions, rec, k - 1, f); }
      SecondRunStep(actions, k - 1, done, ApplyAll(actions[..k - 1], done));
    }
  }

  /** Running a settled action list on its own result changes nothing. */
  lemma SettledIdempotent(actions: seq<Action>, rec: Fields)
    requires Settled(actions)
    ensures ApplyAll(actions, ApplyAll(actions, rec)) == ApplyAll(actions, rec)
  {
    var done := ApplyAll(actions, rec);
    var again := ApplyAll(actions, done);
    SecondRun(actions, rec, |actions|);
    assert actions[..|actions|] == actions;
    forall f | f in again ensures f in done {
      if f !in done {
        var i :| 0 <= i < |actions| && actions[i].Add? && actions[i].field == f
                 && KeptFrom(actions, i, |actions|, f);
        var j := AddedThenDropped(actions, rec, i);
        assert false;
      }
    }
    assert again == done;
  }

  /** In particular any list is settled whose actions mention pairwise different fields. */
  lemma DifferentFieldsSettled(actions: seq<Action>)
    requires forall i, j, f :: 0 <= i < j < |actions| && ActsOn(actions[i], f) ==> !ActsOn(actions[j], f)
    ensures Settled(actions)
  {
    forall i, j | 0 <= i < j < |actions| ensures Removes(actions[i]) !! Introduces(actions[j]) {
      forall f | f in Removes(actions[i]) ensures f !in Introduces(actions[j]) {
        assert ActsOn(actions[i], f);
      }
    }
    forall i, j | 0 <= i < j < |actions| && actions[i].Add? && actions[j].Rename?
      ensures actions[i].field != actions[j].from
    {
      assert ActsOn(actions[i], actions[i].field);
    }
  }

  /** Both halves of the condition are needed. */
  lemma SettledConditionsNeeded()
    ensures
      var swap := [Rename("a", "b"), Rename("c", "a")];
      var rec: Fields := map["a" := Num(1), "c" := Num(2)];
      ApplyAll(swap, ApplyAll(swap, rec)) != ApplyAll(swap, rec)
    ensures
      var move := [Add("a", Num(0)), Rename("a", "b")];
      var rec: Fields := map["a" := Num(7)];
      ApplyAll(move, ApplyAll(move, rec)) != ApplyAll(move, rec)
  {
    var swap := [Rename("a", "b"), Rename("c", "a")];
    var rec: Fields := map["a" := Num(1), "c" := Num(2)];
    var once := ApplyAll(swap, rec);
    ApplyTwo(swap[0], swap[1], rec);
    ApplyTwo(swap[0], swap[1], once);
    assert once["b"] == Num(1);
    assert ApplyAll(swap, once)["b"] == Num(2);

    var move := [Add("a", Num(0)), Rename("a", "b")];
    var rec': Fields := map["a" := Num(7)];
    var moved := ApplyAll(move, rec');
    ApplyTwo(move[0], move[1], rec');
    ApplyTwo(move[0], move[1], moved);
    assert moved["b"] == Num(7);
    assert ApplyAll(move, moved)["b"] == Num(0);
  }

  // ----- Staging with a fractional latest date -----

  /** The versions of the last, fractional second are the end of what the first stage applies. */
  lemma ReplayIsSuffix(order: seq<Version>, stamp: Stamp) returns (front: seq<Version>)
    requires StrictlySorted(order) && !Current(order, stamp) && Since(stamp) % SECOND == 0
    ensures order != []
    ensures Missing(order, stamp) == front + Pending(order, CutToSecond(order[|order| - 1].date))
  {
    CurrentIff(order, Since(stamp));
    var cut := CutToSecond(order[|order| - 1].date);
    assert Since(stamp) <= cut;
    front := SplitPending(order, Since(stamp), cut);
  }

  lemma {:induction false} SplitPending(order: seq<Version>, since: int, later: int) returns (front: seq<Version>)
    requires StrictlySorted(order) && since <= later
    ensures Pending(order, since) == front + Pending(order, later)
  {
    if order == [] {
      front := [];
    } else {
      var rest := SplitPending(order[1..], since, later);
      if order[0].date > later {
        PendingAll(order, since);
        PendingAll(order, later);
        front := [];
      } else {
        front := (if order[0].date > since then [order[0]] else []) + rest;
      }
    }
  }

  /**
   Staging also works with a fractional latest date, for a record stamped on a whole second as
   all stamps written here are, if the replayed versions are settled: the replay is absorbed.
   */
  lemma StagedUpgradeSettled(order: seq<Version>, ext: seq<Version>, rec: Fields, stamp: Stamp)
    requires StrictlySorted(order + ext) && !Current(order, stamp) && Since(stamp) % SECOND == 0
    requires order != [] ==> Settled(Flatten(Pending(order, CutToSecond(order[|order| - 1].date))))
    ensures Evolve(order + ext, Evolve(order, rec, stamp), EvolveStamp(order, stamp)) == Evolve(order + ext, rec, stamp)
    ensures EvolveStamp(order + ext, EvolveStamp(order, stamp)) == EvolveStamp(order + ext, stamp)
  {
    PrefixSorted(order, ext);
    StagedReplay(order, ext, stamp);
    var front := ReplayIsSuffix(order, stamp);
    var replay := Pending(order, CutToSecond(order[|order| - 1].date));
    var early := ApplyAll(Flatten(front), rec);
    FlattenConcat(front, replay);
    FlattenConcat(front + replay, ext);
    FlattenConcat(replay, ext);
    ApplyAllConcat(Flatten(front), Flatten(replay), rec);
    ApplyAllConcat(Flatten(front + replay), Flatten(ext), rec);
    var once := ApplyAll(Flatten(replay), early);
    ApplyAllConcat(Flatten(replay), Flatten(ext), once);
    SettledIdempotent(Flatten(replay), early);
    StagedStamps(order, ext, stamp);
  }

  /** The stamp after two stages is that after one, whatever the dates. */
  lemma StagedStamps(order: seq<Version>, ext: seq<Version>, stamp: Stamp)
    requires StrictlySorted(order + ext) && !Current(order, stamp)
    ensures EvolveStamp(order + ext, EvolveStamp(order, stamp)) == EvolveStamp(order + ext, stamp)
  {
    PrefixSorted(order, ext);
    var whole, first := order + ext, EvolveStamp(order, stamp);
    CurrentIff(order, Since(stamp));
    CurrentIff(whole, Since(stamp));
    StampAfterUpgrade(order, stamp);
    StampAfterUpgrade(whole, stamp);
    if !Current(whole, first) {
      StampAfterUpgrade(whole, first);
    } else {
      CurrentIff(whole, Since(first));
      if ext == [] { assert whole == order; }
    }
  }
}
