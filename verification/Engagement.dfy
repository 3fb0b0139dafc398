/**
 Engagement tracking: a bounded channel, a worker that buffers and flushes in batches, and
 counters that are kept in the record store, whose operations may fail.
 */
module Engagement {

  datatype Status = Status(entityName: string, recordId: string, kind: string, userId: string, isActive: bool)

  datatype Store = Store(statuses: map<string, Status>, counts: map<string, int>)

  /**
   How the store answers while one status is flushed: whether the earlier status could be
   looked up, whether the status was saved, and whether its counter was read and saved.
   */
  datatype Fate = Fate(lookedUp: bool, saved: bool, counted: bool)

  datatype Event = Event(status: Status, fate: Fate)

  const CHANNEL := 100
  const BATCH := 50
  const VISIT := "visit"

  function CountKey(s: Status): string {
    s.entityName + "_" + s.recordId + "_" + s.kind
  }

  function StatusKey(s: Status): string {
    s.entityName + "_" + s.recordId + "_" + s.kind + "_" + s.userId
  }

  function Delta(s: Status): int {
    if s.isActive then 1 else -1
  }

  function CountAt(store: Store, key: string): int {
    if key in store.counts then store.counts[key] else 0
  }

  /** Flushing one status: a status that is not saved is dropped, a known visit is not counted again. */
  function FlushOne(store: Store, e: Event): Store {
    var s := e.status;
    if !e.fate.saved then store
    else
      var saved := store.(statuses := store.statuses[StatusKey(s) := s]);
      var inserted := !e.fate.lookedUp || StatusKey(s) !in store.statuses;
      if (s.kind != VISIT || inserted) && e.fate.counted then
        saved.(counts := store.counts[CountKey(s) := CountAt(store, CountKey(s)) + Delta(s)])
      else saved
  }

  function FlushAll(store: Store, es: seq<Event>): Store {
    if es == [] then store else FlushOne(FlushAll(store, es[..|es| - 1]), es[|es| - 1])
  }

  lemma FlushAllSnoc(store: Store, es: seq<Event>, e: Event)
    ensures FlushAll(store, es + [e]) == FlushOne(FlushAll(store, es), e)
  {
    assert (es + [e])[..|es + [e]| - 1] == es;
  }

  /** How a stream of statuses is cut into batches does not matter. */
  lemma {:induction false} BatchesDoNotMatter(store: Store, a: seq<Event>, b: seq<Event>)
    ensures FlushAll(FlushAll(store, a), b) == FlushAll(store, a + b)
  {
    if b == [] {
      assert a + b == a;
    } else {
      assert (a + b)[..|a + b| - 1] == a + b[..|b| - 1];
      BatchesDoNotMatter(store, a, b[..|b| - 1]);
    }
  }

  function Statuses(es: seq<Event>): (statuses: seq<Status>)
    ensures |statuses| == |es| && forall i :: 0 <= i < |es| ==> statuses[i] == es[i].status
  {
    seq(|es|, i requires 0 <= i < |es| => es[i].status)
  }

  /** What happens when a batch is flushed and the store answers with `fates`. */
  function Batch(statuses: seq<Status>, fates: seq<Fate>): (es: seq<Event>)
    requires |statuses| == |fates|
    ensures Statuses(es) == statuses && forall i :: 0 <= i < |es| ==> es[i].fate == fates[i]
  {
    seq(|statuses|, i requires 0 <= i < |statuses| => Event(statuses[i], fates[i]))
  }

  lemma StatusesConcat(a: seq<Event>, b: seq<Event>)
    ensures Statuses(a + b) == Statuses(a) + Statuses(b)
  {
  }

  lemma FlushedBatch(store: Store, flushed: seq<Event>, batch: seq<Event>)
    ensures FlushAll(FlushAll(store, flushed), batch) == FlushAll(store, flushed + batch)
    ensures Statuses(flushed + batch) == Statuses(flushed) + Statuses(batch)
  {
    BatchesDoNotMatter(store, flushed, batch);
    StatusesConcat(flushed, batch);
  }

  class EngagementService {
    var ch: seq<Status>
    var buffer: seq<Status>
    var statuses: map<string, Status>
    var counts: map<string, int>
    ghost var tracked: seq<Status>
    ghost var flushed: seq<Event>
    ghost const initial: Store

    constructor (statuses: map<string, Status>, counts: map<string, int>)
      ensures Valid() && Contents() == initial == Store(statuses, counts)
      ensures tracked == [] && ch == [] && buffer == []
    {
      ch, buffer := [], [];
      this.statuses, this.counts := statuses, counts;
      tracked, flushed := [], [];
      initial := Store(statuses, counts);
    }

    ghost function Contents(): Store
      reads this
    {
      Store(statuses, counts)
    }

    /**
     Between two steps of the worker: every tracked status is flushed, buffered or still in
     the channel, in that order, and the store is the flush of the flushed ones.
     */
    ghost predicate Valid()
      reads this
    {
      && tracked == Statuses(flushed) + buffer + ch
      && |buffer| < BATCH && |ch| <= CHANNEL
      && Contents() == FlushAll(initial, flushed)
    }

    /** A sender blocks while the channel is full. */
    method Track(status: Status)
      requires Valid() && |ch| < 100
      modifies this
      ensures Valid() && tracked == old(tracked) + [status] && flushed == old(flushed)
      ensures ch == old(ch) + [status] && buffer == old(buffer) && Contents() == old(Contents())
    {
      ch := ch + [status];
      tracked := tracked + [status];
      assert tracked == Statuses(flushed) + buffer + ch;
    }

    /** The worker takes one status and flushes a full buffer; `fates` are the answers to that flush. */
    method Receive(fates: seq<Fate>)
      requires Valid() && ch != [] && |fates| == BATCH
      modifies this
      ensures Valid() && tracked == old(tracked) && ch == old(ch)[1..]
      ensures
        var more := old(buffer) + [old(ch)[0]];
        if |more| >= 50 then buffer == [] && flushed == old(flushed) + Batch(more, fates)
        else buffer == more && flushed == old(flushed)
    {
      buffer := buffer + [ch[0]];
      ch := ch[1..];
      assert tracked == Statuses(flushed) + buffer + ch;
      if |buffer| >= BATCH {
        FlushedBatch(initial, flushed, Batch(buffer, fates));
        Flush(fates);
      }
    }

    /** Every five seconds a non-empty buffer is flushed. */
    method Tick(fates: seq<Fate>)
      requires Valid() && |fates| == |buffer|
      modifies this
      ensures Valid() && tracked == old(tracked) && ch == old(ch)
      ensures buffer == [] && flushed == old(flushed) + Batch(old(buffer), fates)
    {
      if |buffer| > 0 {
        FlushedBatch(initial, flushed, Batch(buffer, fates));
        Flush(fates);
      }
    }

    method Flush(fates: seq<Fate>)
      requires |fates| == |buffer|
      modifies this`buffer, this`statuses, this`counts, this`flushed
      ensures buffer == [] && flushed == old(flushed) + Batch(old(buffer), fates)
      ensures Contents() == FlushAll(old(Contents()), Batch(old(buffer), fates))
    {
      ghost var batch := Batch(buffer, fates);
      var i := 0;
      while i < |buffer|
        invariant i <= |buffer| && buffer == old(buffer) && flushed == old(flushed)
        invariant Contents() == FlushAll(old(Contents()), batch[..i])
      {
        FlushAllSnoc(old(Contents()), batch[..i], batch[i]);
        assert batch[..i + 1] == batch[..i] + [batch[i]];
        FlushStatus(buffer[i], fates[i]);
        i := i + 1;
      }
      assert batch[..i] == batch;
      flushed := flushed + batch;
      buffer := [];
    }

    /** One status of the batch. */
    method FlushStatus(status: Status, fate: Fate)
      modifies this`statuses, this`counts
      ensures Contents() == FlushOne(old(Contents()), Event(status, fate))
    {
      var inserted := !fate.lookedUp || StatusKey(status) !in statuses;
      if !fate.saved {
        return;
      }
      statuses := statuses[StatusKey(status) := status];
      if status.kind != VISIT || inserted {
        FlushCounts(status, Delta(status), fate.counted);
      }
    }

    method FlushCounts(status: Status, delta: int, works: bool)
      modifies this`counts
      ensures
        var key := CountKey(status);
        counts == if works then old(counts)[key := CountAt(old(Contents()), key) + delta] else old(counts)
    {
      if !works {
        return;
      }
      var key := CountKey(status);
      var count := if key in counts then counts[key] else 0;
      count := count + delta;
      counts := counts[key := count];
    }
  }

  // ----- What the counters hold -----

  /** No earlier status with this key was saved. */
  ghost predicate FirstSaved(store: Store, es: seq<Event>, i: nat)
    requires i < |es|
  {
    var key := StatusKey(es[i].status);
    key !in store.statuses && forall j :: 0 <= j < i && es[j].fate.saved ==> StatusKey(es[j].status) != key
  }

  /** Does the `i`-th flushed status change its counter? */
  ghost predicate Counts(store: Store, es: seq<Event>, i: nat)
    requires i < |es|
  {
    && es[i].fate.saved && es[i].fate.counted
    && (es[i].status.kind != VISIT || !es[i].fate.lookedUp || FirstSaved(store, es, i))
  }

  /** The sum of the deltas that count towards `key`. */
  ghost function Total(store: Store, es: seq<Event>, key: string): int {
    if es == [] then 0
    else
      var n := |es| - 1;
      Total(store, es[..n], key)
      + if CountKey(es[n].status) == key && Counts(store, es, n) then Delta(es[n].status) else 0
  }

  lemma {:induction false} SavedStatuses(store: Store, es: seq<Event>, key: string)
    ensures
      key in FlushAll(store, es).statuses
      <==> key in store.statuses || exists i :: 0 <= i < |es| && es[i].fate.saved && StatusKey(es[i].status) == key
  {
    if es != [] {
      var n := |es| - 1;
      var front := es[..n];
      SavedStatuses(store, front, key);
      if i :| 0 <= i < n && es[i].fate.saved && StatusKey(es[i].status) == key {
        assert front[i].fate.saved && StatusKey(front[i].status) == key;
      }
      if i :| 0 <= i < n && front[i].fate.saved && StatusKey(front[i].status) == key {
        assert es[i].fate.saved && StatusKey(es[i].status) == key;
      }
    }
  }

  /** The stored status under a key is the last one saved there. */
  lemma {:induction false} LastSaved(store: Store, es: seq<Event>, i: nat)
    requires i < |es| && es[i].fate.saved
    requires forall j :: i < j < |es| && es[j].fate.saved ==> StatusKey(es[j].status) != StatusKey(es[i].status)
    ensures
      var s, after := es[i].status, FlushAll(store, es).statuses;
      var key := s.entityName + "_" + s.recordId + "_" + s.kind + "_" + s.userId;
      key in after && after[key] == s
    decreases |es|
  {
    var n := |es| - 1;
    if i < n {
      var front := es[..n];
      assert front[i] == es[i] && forall j :: i < j < n ==> front[j] == es[j];
      LastSaved(store, front, i);
    }
  }

  lemma KnownOrFirst(store: Store, es: seq<Event>, n: nat)
    requires n < |es|
    ensures FirstSaved(store, es, n) <==> StatusKey(es[n].status) !in FlushAll(store, es[..n]).statuses
  {
    var front, key := es[..n], StatusKey(es[n].status);
    SavedStatuses(store, front, key);
    if j :| 0 <= j < n && es[j].fate.saved && StatusKey(es[j].status) == key {
      assert front[j].fate.saved && StatusKey(front[j].status) == key;
    }
    if j :| 0 <= j < n && front[j].fate.saved && StatusKey(front[j].status) == key {
      assert es[j].fate.saved && StatusKey(es[j].status) == key;
    }
  }

  /** Each counter is its initial value plus the deltas that count towards its key. */
  lemma {:induction false} CounterIsTotal(store: Store, es: seq<Event>, key: string)
    ensures CountAt(FlushAll(store, es), key) == CountAt(store, key) + Total(store, es, key)
  {
    if es != [] {
      CounterIsTotal(store, es[..|es| - 1], key);
      KnownOrFirst(store, es, |es| - 1);
    }
  }

  // ----- Keys tell records apart -----

  predicate Plain(s: string) {
    '_' !in s
  }

  /** The record identifier may hold anything. */
  predicate CountPlain(s: Status) {
    Plain(s.entityName) && Plain(s.kind)
  }

  predicate StatusPlain(s: Status) {
    CountPlain(s) && Plain(s.userId)
  }

  lemma {:induction false} FirstPart(a: string, x: string, b: string, y: string)
    requires Plain(a) && Plain(b) && a + "_" + x == b + "_" + y
    ensures a == b && x == y
  {
    var s, t := a + "_" + x, b + "_" + y;
    assert s[0] == if a == [] then '_' else a[0];
    assert t[0] == if b == [] then '_' else b[0];
    if a == [] {
      assert b == [];
      assert x == s[1..] && y == t[1..];
    } else {
      assert b != [];
      assert s[1..] == a[1..] + "_" + x && t[1..] == b[1..] + "_" + y;
      FirstPart(a[1..], x, b[1..], y);
      assert a == [s[0]] + a[1..] && b == [t[0]] + b[1..];
    }
  }

  lemma {:induction false} LastPart(a: string, x: string, b: string, y: string)
    requires Plain(x) && Plain(y) && a + "_" + x == b + "_" + y
    ensures a == b && x == y
    decreases |x|
  {
    var s, t := a + "_" + x, b + "_" + y;
    var n := |s| - 1;
    assert s[n] == if x == [] then '_' else x[|x| - 1];
    assert t[n] == if y == [] then '_' else y[|y| - 1];
    if x == [] {
      assert y == [];
      assert a == s[..n] && b == t[..n];
    } else {
      assert y != [];
      var x', y' := x[..|x| - 1], y[..|y| - 1];
      assert s[..n] == a + "_" + x' && t[..n] == b + "_" + y';
      LastPart(a, x', b, y');
      assert x == x' + [s[n]] && y == y' + [t[n]];
    }
  }

  /**
   Counter keys are equal only for equal parts if entity name and kind have no underscore,
   and status keys if the user has none either, whatever the record identifiers hold.
   */
  lemma KeysInjective(s: Status, t: Status)
    ensures CountPlain(s) && CountPlain(t) ==> (CountKey(s) == CountKey(t) <==> On(s, t))
    ensures StatusPlain(s) && StatusPlain(t) ==>
              (StatusKey(s) == StatusKey(t) <==> On(s, t) && s.userId == t.userId)
  {
    if CountPlain(s) && CountPlain(t) && CountKey(s) == CountKey(t) { CountKeyParts(s, t); }
    if StatusPlain(s) && StatusPlain(t) && StatusKey(s) == StatusKey(t) {
      assert StatusKey(s) == CountKey(s) + "_" + s.userId && StatusKey(t) == CountKey(t) + "_" + t.userId;
      LastPart(CountKey(s), s.userId, CountKey(t), t.userId);
      CountKeyParts(s, t);
    }
  }

  lemma CountKeyParts(s: Status, t: Status)
    requires CountPlain(s) && CountPlain(t) && CountKey(s) == CountKey(t)
    ensures On(s, t)
  {
    var x, y := s.recordId + "_" + s.kind, t.recordId + "_" + t.kind;
    assert CountKey(s) == s.entityName + "_" + x && CountKey(t) == t.entityName + "_" + y;
    FirstPart(s.entityName, x, t.entityName, y);
    LastPart(s.recordId, s.kind, t.recordId, t.kind);
  }

  /** With an underscore in the entity name or in the kind, different records can share a counter. */
  lemma KeysCollide(kind: string, user: string)
    ensures CountKey(Status("a_b", "c", kind, user, true)) == CountKey(Status("a", "b_c", kind, user, true))
    ensures CountKey(Status("a", "b", "c_d", user, true)) == CountKey(Status("a", "b_c", "d", user, true))
  {
    assert "a_b" + "_" + "c" == "a" + "_" + "b_c";
    assert "a" + "_" + "b" + "_" + "c_d" == "a" + "_" + "b_c" + "_" + "d";
  }

  predicate On(s: Status, like: Status) {
    s.entityName == like.entityName && s.recordId == like.recordId && s.kind == like.kind
  }

  /** For the record and kind of `like`, the active statuses saved and counted less the inactive ones. */
  function SumOfDeltas(es: seq<Event>, like: Status): int {
    if es == [] then 0
    else
      var e := es[|es| - 1];
      SumOfDeltas(es[..|es| - 1], like)
      + if !(On(e.status, like) && e.fate.saved && e.fate.counted) then 0
        else if e.status.isActive then 1 else -1
  }

  /** The first saved status of its user for its record and kind. */
  ghost predicate FirstOfUser(es: seq<Event>, i: nat)
    requires i < |es|
  {
    forall j :: 0 <= j < i && es[j].fate.saved ==>
      !(On(es[j].status, es[i].status) && es[j].status.userId == es[i].status.userId)
  }

  /**
   For the record and kind of `like`, the active statuses less the inactive ones, of those that
   are the first saved of their user, or whose predecessor could not be looked up, and counted.
   */
  ghost function SumOfFirsts(es: seq<Event>, like: Status): int {
    if es == [] then 0
    else
      var n := |es| - 1;
      var e := es[n];
      SumOfFirsts(es[..n], like)
      + if !(On(e.status, like) && e.fate.saved && e.fate.counted && (!e.fate.lookedUp || FirstOfUser(es, n))) then 0
        else if e.status.isActive then 1 else -1
  }

  const EMPTY := Store(map[], map[])

  /** A counter other than a visit counter is the sum of the deltas of its record and kind. */
  lemma {:induction false} NonVisitCounter(es: seq<Event>, like: Status)
    requires CountPlain(like) && like.kind != "visit" && forall i :: 0 <= i < |es| ==> CountPlain(es[i].status)
    ensures CountAt(FlushAll(EMPTY, es), like.entityName + "_" + like.recordId + "_" + like.kind)
            == SumOfDeltas(es, like)
  {
    CounterIsTotal(EMPTY, es, CountKey(like));
    if es != [] {
      var n := |es| - 1;
      NonVisitCounter(es[..n], like);
      CounterIsTotal(EMPTY, es[..n], CountKey(like));
      KeysInjective(es[n].status, like);
    }
  }

  lemma FirstIsFirstOfUser(es: seq<Event>, n: nat)
    requires n < |es| && forall i :: 0 <= i < |es| ==> StatusPlain(es[i].status)
    ensures FirstSaved(EMPTY, es, n) <==> FirstOfUser(es, n)
  {
    forall j | 0 <= j < n
      ensures StatusKey(es[j].status) == StatusKey(es[n].status)
              <==> On(es[j].status, es[n].status) && es[j].status.userId == es[n].status.userId
    {
      KeysInjective(es[j].status, es[n].status);
    }
  }

  /** A visit counter is the sum of the first delta of each user. */
  lemma {:induction false} VisitCounter(es: seq<Event>, like: Status)
    requires CountPlain(like) && like.kind == "visit" && forall i :: 0 <= i < |es| ==> StatusPlain(es[i].status)
    ensures CountAt(FlushAll(EMPTY, es), like.entityName + "_" + like.recordId + "_" + like.kind)
            == SumOfFirsts(es, like)
  {
    CounterIsTotal(EMPTY, es, CountKey(like));
    if es != [] {
      var n := |es| - 1;
      VisitCounter(es[..n], like);
      CounterIsTotal(EMPTY, es[..n], CountKey(like));
      KeysInjective(es[n].status, like);
      FirstIsFirstOfUser(es, n);
    }
  }
}
