/**
 Assembling a file from chunks that arrive in any order: in memory, keyed by number, and
 on the local disk, keyed by zero-padded file name.
 */
module ChunkedUpload {
  import opened Wrappers
  import opened Bytes
  import opened Ordering
  import opened ChunkNames

  /** The chunks of one path. */
  type ChunkMap = map<int, ByteString>

  // ----- Ascending chunk numbers -----

  ghost predicate Ascending(ns: seq<int>) {
    forall i, j :: 0 <= i < j < |ns| ==> ns[i] < ns[j]
  }

  ghost function LeastNumber(s: set<int>): (m: int)
    requires s != {}
    ensures m in s && forall n :: n in s ==> m <= n
  {
    var n := Any(s);
    if s == {n} then n
    else
      var m := LeastNumber(s - {n});
      assert forall x :: x in s && x != n ==> x in s - {n};
      if n < m then n else m
  }

  ghost function SortNumbers(s: set<int>): (ns: seq<int>)
    ensures |ns| == |s| && forall n :: n in ns <==> n in s
  {
    if s == {} then [] else [LeastNumber(s)] + SortNumbers(s - {LeastNumber(s)})
  }

  lemma {:induction false} SortNumbersAscending(s: set<int>)
    ensures Ascending(SortNumbers(s))
  {
    if s != {} {
      var rest := SortNumbers(s - {LeastNumber(s)});
      SortNumbersAscending(s - {LeastNumber(s)});
      forall j | 0 <= j < |rest| ensures LeastNumber(s) < rest[j] { assert rest[j] in rest; }
    }
  }

  lemma {:induction false} AscendingUnique(a: seq<int>, b: seq<int>)
    requires Ascending(a) && Ascending(b) && forall n :: n in a <==> n in b
    ensures a == b
  {
    assert a != [] ==> a[0] in a && a[0] in b;
    assert b != [] ==> b[0] in b && b[0] in a;
    if a != [] {
      forall n ensures n in a[1..] <==> n in b[1..] {
        AscendingTail(a, n);
        AscendingTail(b, n);
      }
      AscendingUnique(a[1..], b[1..]);
      assert a == [a[0]] + a[1..] && b == [b[0]] + b[1..];
    }
  }

  lemma AscendingTail(a: seq<int>, n: int)
    requires a != [] && Ascending(a)
    ensures n in a[1..] <==> n in a && n != a[0]
  {
    if n in a && n != a[0] {
      var i :| 0 <= i < |a| && a[i] == n;
      assert a[1..][i - 1] == n;
    }
  }

  lemma InsertAscending(ns: seq<int>, n: int, i: nat)
    requires Ascending(ns) && n !in ns && i <= |ns|
    requires forall j :: 0 <= j < i ==> ns[j] < n
    requires i < |ns| ==> n <= ns[i]
    ensures Ascending(ns[..i] + [n] + ns[i..])
    ensures forall x :: x in ns[..i] + [n] + ns[i..] <==> x in ns || x == n
  {
    assert i < |ns| ==> ns[i] in ns;
    InsertMembers(ns, n, i);
  }

  lemma InsertMembers(ns: seq<int>, n: int, i: nat)
    requires i <= |ns|
    ensures forall x :: x in ns[..i] + [n] + ns[i..] <==> x in ns || x == n
  {
    assert ns == ns[..i] + ns[i..];
  }

  /** Collects the numbers in map order and sorts them. */
  method SortedNumbers(s: set<int>) returns (ns: seq<int>)
    ensures ns == SortNumbers(s)
  {
    ns := [];
    var rest := s;
    while rest != {}
      invariant rest <= s && Ascending(ns) && forall n :: n in ns <==> n in s - rest
      decreases rest
    {
      var n := Next(rest);
      var i := 0;
      while i < |ns| && ns[i] < n
        invariant i <= |ns| && forall j :: 0 <= j < i ==> ns[j] < n
      {
        i := i + 1;
      }
      InsertAscending(ns, n, i);
      ns := ns[..i] + [n] + ns[i..];
      rest := rest - {n};
    }
    SortNumbersAscending(s);
    AscendingUnique(ns, SortNumbers(s));
  }

  // ----- Assembly -----

  function Join(parts: seq<ByteString>): ByteString {
    if parts == [] then [] else parts[0] + Join(parts[1..])
  }

  lemma {:induction false} JoinAppend(parts: seq<ByteString>, last: ByteString)
    ensures Join(parts + [last]) == Join(parts) + last
  {
    if parts != [] {
      assert (parts + [last])[1..] == parts[1..] + [last];
      JoinAppend(parts[1..], last);
    }
  }

  function PartsAt<K>(chunks: map<K, ByteString>, ks: seq<K>): (parts: seq<ByteString>)
    requires forall i :: 0 <= i < |ks| ==> ks[i] in chunks
    ensures |parts| == |ks| && forall i :: 0 <= i < |ks| ==> parts[i] == chunks[ks[i]]
  {
    seq(|ks|, i requires 0 <= i < |ks| => chunks[ks[i]])
  }

  /** The chunks in ascending number, joined. */
  ghost function Assembled(chunks: ChunkMap): ByteString {
    Join(PartsAt(chunks, SortNumbers(chunks.Keys)))
  }

  lemma GreatestIsLast(keys: set<int>, n: int)
    requires n in keys && forall m :: m in keys ==> m <= n
    ensures SortNumbers(keys) == SortNumbers(keys - {n}) + [n]
  {
    SortNumbersAscending(keys - {n});
    SortNumbersAscending(keys);
    AppendGreatest(SortNumbers(keys - {n}), SortNumbers(keys), keys, n);
  }

  lemma AppendGreatest(ns: seq<int>, all: seq<int>, keys: set<int>, n: int)
    requires Ascending(ns) && Ascending(all) && n in keys && forall m :: m in keys ==> m <= n
    requires (forall m :: m in all <==> m in keys) && (forall m :: m in ns <==> m in keys - {n})
    ensures all == ns + [n]
  {
    forall i | 0 <= i < |ns| ensures ns[i] < n { assert ns[i] in ns; }
    AscendingUnique(all, ns + [n]);
  }

  /** The chunk of the greatest number comes last in the file, behind the others assembled. */
  lemma AssembledLast(chunks: ChunkMap, n: int)
    requires n in chunks && forall m :: m in chunks ==> m <= n
    ensures Assembled(chunks) == Assembled(chunks - {n}) + chunks[n]
  {
    GreatestIsLast(chunks.Keys, n);
    assert (chunks - {n}).Keys == chunks.Keys - {n};
    PartsWithout(chunks, SortNumbers(chunks.Keys - {n}), n);
    JoinAppend(PartsAt(chunks - {n}, SortNumbers(chunks.Keys - {n})), chunks[n]);
  }

  lemma PartsWithout(chunks: ChunkMap, ns: seq<int>, n: int)
    requires n in chunks && forall m :: m in ns <==> m in chunks && m != n
    ensures forall i :: 0 <= i < |ns| ==> ns[i] in chunks - {n}
    ensures PartsAt(chunks, ns + [n]) == PartsAt(chunks - {n}, ns) + [chunks[n]]
  {
    var rest := chunks - {n};
    forall i | 0 <= i < |ns| ensures ns[i] in rest && rest[ns[i]] == chunks[ns[i]] {
      var m := ns[i];
      assert m in ns && m in chunks && m != n;
      assert m in rest.Keys;
    }
    assert PartsAt(chunks, ns + [n]) == PartsAt(rest, ns) + [chunks[n]];
  }

  method Append<K>(chunks: map<K, ByteString>, ks: seq<K>) returns (buffer: ByteString)
    requires forall i :: 0 <= i < |ks| ==> ks[i] in chunks
    ensures buffer == Join(PartsAt(chunks, ks))
  {
    buffer := [];
    var i := 0;
    while i < |ks|
      invariant i <= |ks| && buffer == Join(PartsAt(chunks, ks[..i]))
    {
      assert PartsAt(chunks, ks[..i + 1]) == PartsAt(chunks, ks[..i]) + [chunks[ks[i]]];
      JoinAppend(PartsAt(chunks, ks[..i]), chunks[ks[i]]);
      buffer := buffer + chunks[ks[i]];
      i := i + 1;
    }
    assert ks[..i] == ks;
  }

  // ----- The in-memory chunk store -----

  function ChunksOf(chunks: map<string, ChunkMap>, path: string): ChunkMap {
    if path in chunks then chunks[path] else map[]
  }

  function Received(chunks: map<string, ChunkMap>, path: string, n: int, data: ByteString): map<string, ChunkMap> {
    chunks[path := ChunksOf(chunks, path)[n := data]]
  }

  /** `names` are the unpadded names of `ns`, all different. */
  ghost predicate NamesOf(names: set<string>, ns: set<int>) {
    && |names| == |ns|
    && (forall name :: name in names <==> exists n :: n in ns && Itoa(n) == name)
    && (forall n :: Itoa(n) in names <==> n in ns)
  }

  /** `names` lists the unpadded names of `ns` in string order, each once. */
  ghost predicate ListsNames(names: seq<string>, ns: set<int>) {
    && Increasing(names) && |names| == |ns|
    && (forall name :: name in names <==> exists n :: n in ns && Itoa(n) == name)
    && (forall n :: Itoa(n) in names <==> n in ns)
  }

  lemma SortedNames(names: set<string>, ns: set<int>)
    requires NamesOf(names, ns)
    ensures ListsNames(SortKeys(names), ns)
  {
    SortKeysIncreasing(names);
  }

  lemma OneMoreName(names: set<string>, ns: set<int>, n: int)
    requires NamesOf(names, ns) && n !in ns
    ensures NamesOf(names + {Itoa(n)}, ns + {n})
  {
    forall m ensures Itoa(m) in names + {Itoa(n)} <==> m in ns + {n} {
      if Itoa(m) == Itoa(n) { ItoaInjective(m, n); }
    }
    forall name ensures name in names + {Itoa(n)} <==> exists m :: m in ns + {n} && Itoa(m) == name {
      if m :| m in ns && Itoa(m) == name { assert m in ns + {n}; }
      if name == Itoa(n) { assert n in ns + {n}; }
    }
  }

  /** `CommitChunks` holds the mutex twice, around assembling and around clearing. */
  class P2PFileStore {
    var chunks: map<string, ChunkMap>
    var files: map<string, ByteString>

    constructor ()
      ensures chunks == map[] && files == map[]
    {
      chunks := map[];
      files := map[];
    }

    method UploadChunk(path: string, n: int, data: ByteString) returns (chunkName: string)
      modifies this`chunks
      ensures chunkName == Itoa(n)
      ensures chunks == Received(old(chunks), path, n, data)
    {
      if path !in chunks {
        chunks := chunks[path := map[]];
      }
      chunks := chunks[path := chunks[path][n := data]];
      chunkName := Itoa(n);
    }

    /** The unpadded names of the chunks, sorted as strings: one per chunk. */
    method GetUploadedChunks(path: string) returns (names: seq<string>)
      ensures ListsNames(names, ChunksOf(chunks, path).Keys)
    {
      if path !in chunks {
        SortedNames({}, {});
        assert SortKeys({}) == [];
        return [];
      }
      var found := NamesOfChunks(chunks[path]);
      names := SortedKeys(found);
      SortedNames(found, chunks[path].Keys);
    }

    method NamesOfChunks(chunkMap: ChunkMap) returns (found: set<string>)
      ensures NamesOf(found, chunkMap.Keys)
    {
      found := {};
      var rest := chunkMap.Keys;
      ghost var done: set<int> := {};
      while rest != {}
        invariant rest == chunkMap.Keys - done && done <= chunkMap.Keys
        invariant NamesOf(found, done)
        decreases rest
      {
        var n := Next(rest);
        OneMoreName(found, done, n);
        found := found + {Itoa(n)};
        done := done + {n};
        rest := rest - {n};
      }
      assert done == chunkMap.Keys;
    }

    /** The first locked section. */
    method Assemble(path: string) returns (r: Result<ByteString>)
      ensures r == if ChunksOf(chunks, path) == map[] then Err("no chunks found to commit")
                   else Ok(Assembled(ChunksOf(chunks, path)))
    {
      if path !in chunks || |chunks[path]| == 0 {
        assert |ChunksOf(chunks, path)| == 0;
        return Err("no chunks found to commit");
      }
      assert chunks[path] != map[];
      var ks := SortedNumbers(chunks[path].Keys);
      var buffer := Append(chunks[path], ks);
      return Ok(buffer);
    }

    /** The last locked section. */
    method Clear(path: string)
      modifies this`chunks
      ensures chunks == old(chunks) - {path}
    {
      chunks := chunks - {path};
    }

    method CommitChunks(path: string) returns (r: Result<ByteString>)
      modifies this
      ensures r == if ChunksOf(old(chunks), path) == map[] then Err("no chunks found to commit")
                   else Ok(Assembled(ChunksOf(old(chunks), path)))
      ensures r.Err? ==> chunks == old(chunks) && files == old(files)
      ensures r.Ok? ==> chunks == old(chunks) - {path} && files == old(files)[path := r.value]
    {
      r := Assemble(path);
      if r.Ok? {
        files := files[path := r.value];
        Clear(path);
      }
    }
  }

  // ----- Commits racing with uploads -----

  /** A commit between its two locked sections; `arrivals` counts uploads seen before the first. */
  datatype Commit = Commit(path: string, snapshot: ChunkMap, arrivals: nat, written: bool)

  datatype Event =
    | Upload(path: string, n: int, data: ByteString)
    | Lock(id: int, path: string)
    | Write(id: int)
    | Unlock(id: int)

  /** `arrivals` is history: the number of uploads per path. */
  datatype State = State(
    chunks: map<string, ChunkMap>, files: map<string, ByteString>,
    commits: map<int, Commit>, arrivals: map<string, nat>)

  function Arrivals(s: State, path: string): nat {
    if path in s.arrivals then s.arrivals[path] else 0
  }

  function UploadStep(s: State, path: string, n: int, data: ByteString): State {
    s.(chunks := Received(s.chunks, path, n, data), arrivals := s.arrivals[path := Arrivals(s, path) + 1])
  }

  function LockStep(s: State, id: int, path: string): State {
    if id in s.commits || ChunksOf(s.chunks, path) == map[] then s
    else s.(commits := s.commits[id := Commit(path, s.chunks[path], Arrivals(s, path), false)])
  }

  predicate IsWritten(s: State, id: int) {
    id in s.commits && s.commits[id].written
  }

  ghost function WriteStep(s: State, id: int): State {
    if id in s.commits && !s.commits[id].written then
      var c := s.commits[id];
      s.(files := s.files[c.path := Assembled(c.snapshot)], commits := s.commits[id := c.(written := true)])
    else s
  }

  function UnlockStep(s: State, id: int): State {
    if IsWritten(s, id) then
      s.(chunks := s.chunks - {s.commits[id].path}, commits := s.commits - {id})
    else s
  }

  ghost function Step(s: State, e: Event): State {
    match e
    case Upload(path, n, data) => UploadStep(s, path, n, data)
    case Lock(id, path) => LockStep(s, id, path)
    case Write(id) => WriteStep(s, id)
    case Unlock(id) => UnlockStep(s, id)
  }

  ghost function Run(s: State, es: seq<Event>): State
    decreases |es|
  {
    if es == [] then s else Run(Step(s, es[0]), es[1..])
  }

  const EMPTY := State(map[], map[], map[], map[])

  /**
   As long as no chunk of its path arrived since its first lock: what is left of the chunks
   is what a commit took, and if it has written, the file holds what some commit that is
   still between its locks took.
   */
  ghost predicate CommitOk(s: State, id: int)
    requires id in s.commits
  {
    var c := s.commits[id];
    && c.arrivals <= Arrivals(s, c.path)
    && (c.arrivals == Arrivals(s, c.path) && c.path in s.chunks ==>
          s.chunks[c.path] == c.snapshot && (c.written ==> WrittenByOne(s, c.path)))
  }

  ghost predicate Inv(s: State) {
    forall id {:trigger CommitOk(s, id)} :: id in s.commits ==> CommitOk(s, id)
  }

  /** The file holds the chunks of some commit that has written but not yet cleared. */
  ghost predicate WrittenByOne(s: State, path: string) {
    path in s.files
    && exists id :: IsWritten(s, id) && s.commits[id].path == path && s.files[path] == Assembled(s.commits[id].snapshot)
  }

  lemma WrittenByOneStays(s: State, e: Event, path: string)
    requires WrittenByOne(s, path) && path in s.chunks && path in Step(s, e).chunks
    ensures WrittenByOne(Step(s, e), path)
  {
    var t := Step(s, e);
    if e.Write? && e.id in s.commits && !s.commits[e.id].written && s.commits[e.id].path == path {
      assert IsWritten(t, e.id) && t.files[path] == Assembled(t.commits[e.id].snapshot);
    } else {
      var id :| IsWritten(s, id) && s.commits[id].path == path && s.files[path] == Assembled(s.commits[id].snapshot);
      WrittenStays(s, e, id);
      assert IsWritten(t, id) && t.files[path] == s.files[path];
    }
  }

  /** A commit that has written stays, with its file, until it clears or another one writes. */
  lemma WrittenStays(s: State, e: Event, id: int)
    requires IsWritten(s, id) && s.commits[id].path in s.files && e != Unlock(id)
    requires e.Write? && e.id in s.commits && !s.commits[e.id].written ==> s.commits[e.id].path != s.commits[id].path
    ensures
      var t, path := Step(s, e), s.commits[id].path;
      IsWritten(t, id) && t.commits[id] == s.commits[id] && path in t.files && t.files[path] == s.files[path]
  {
  }

  lemma CommitStaysOk(s: State, e: Event, id: int)
    requires Inv(s) && id in s.commits && id in Step(s, e).commits && Step(s, e).commits[id] == s.commits[id]
    ensures CommitOk(Step(s, e), id)
  {
    var c, t := s.commits[id], Step(s, e);
    assert CommitOk(s, id);
    assert Arrivals(s, c.path) <= Arrivals(t, c.path);
    if c.arrivals == Arrivals(t, c.path) && c.path in t.chunks {
      assert !(e.Upload? && e.path == c.path) && c.path in s.chunks && t.chunks[c.path] == s.chunks[c.path];
      if c.written { WrittenByOneStays(s, e, c.path); }
    }
  }

  lemma NewCommitOk(s: State, id: int, path: string)
    requires id !in s.commits && id in LockStep(s, id, path).commits
    ensures CommitOk(LockStep(s, id, path), id)
  {
  }

  lemma WriterOk(s: State, id: int)
    requires Inv(s) && id in s.commits && !s.commits[id].written
    ensures CommitOk(WriteStep(s, id), id)
  {
    var c, t := s.commits[id], WriteStep(s, id);
    assert CommitOk(s, id);
    assert IsWritten(t, id) && t.files[c.path] == Assembled(t.commits[id].snapshot);
  }

  lemma InvStep(s: State, e: Event)
    requires Inv(s)
    ensures Inv(Step(s, e))
  {
    var t := Step(s, e);
    forall id | id in t.commits ensures CommitOk(t, id) {
      if id !in s.commits {
        NewCommitOk(s, id, e.path);
      } else if t.commits[id] == s.commits[id] {
        CommitStaysOk(s, e, id);
      } else {
        WriterOk(s, id);
      }
    }
  }

  lemma {:induction false} InvRun(s: State, es: seq<Event>)
    requires Inv(s)
    ensures Inv(Run(s, es))
    decreases |es|
  {
    if es != [] {
      InvStep(s, es[0]);
      InvRun(Step(s, es[0]), es[1..]);
    }
  }

  // ----- What a commit writes -----

  /** Does the event clear the chunks of `path`? */
  predicate Clears(s: State, e: Event, path: string) {
    e.Unlock? && IsWritten(s, e.id) && s.commits[e.id].path == path
  }

  /** The data of the last upload of chunk `n` to `path` since the path was last cleared. */
  ghost function LastUpload(es: seq<Event>, path: string, n: int): Option<ByteString>
    decreases |es|
  {
    if es == [] then None
    else
      var front, e := es[..|es| - 1], es[|es| - 1];
      if e.Upload? && e.path == path && e.n == n then Some(e.data)
      else if Clears(Run(EMPTY, front), e, path) then None
      else LastUpload(front, path, n)
  }

  lemma {:induction false} RunSnoc(s: State, es: seq<Event>, e: Event)
    ensures Run(s, es + [e]) == Step(Run(s, es), e)
    decreases |es|
  {
    if es == [] {
      assert [] + [e] == [e] && [e][1..] == [];
      assert Run(s, [e]) == Run(Step(s, e), []);
    } else {
      assert (es + [e])[1..] == es[1..] + [e];
      RunSnoc(Step(s, es[0]), es[1..], e);
    }
  }

  /**
   After any run, a path holds per number the last data uploaded since it was cleared,
   whatever the order, repetition and interleaving of uploads and commits on all paths.
   */
  lemma {:induction false} HoldsLastUploads(es: seq<Event>, path: string, n: int)
    ensures
      var held := ChunksOf(Run(EMPTY, es).chunks, path);
      (n in held <==> LastUpload(es, path, n).Some?) && (n in held ==> LastUpload(es, path, n) == Some(held[n]))
    decreases |es|
  {
    if es != [] {
      var front, e := es[..|es| - 1], es[|es| - 1];
      assert es == front + [e];
      RunSnoc(EMPTY, front, e);
      HoldsLastUploads(front, path, n);
    }
  }

  /** A commit waits unchanged until its own write. */
  lemma {:induction false} CommitWaits(s: State, es: seq<Event>, id: int)
    requires id in s.commits && !s.commits[id].written && forall i :: 0 <= i < |es| ==> es[i] != Write(id)
    ensures id in Run(s, es).commits && Run(s, es).commits[id] == s.commits[id]
    decreases |es|
  {
    if es != [] { CommitWaits(Step(s, es[0]), es[1..], id); }
  }

  /** `chunks` are the last uploads to the path since it was last cleared. */
  ghost predicate AreLastUploads(es: seq<Event>, path: string, chunks: ChunkMap) {
    forall n ::
      && (n in chunks <==> LastUpload(es, path, n).Some?)
      && (n in chunks ==> LastUpload(es, path, n) == Some(chunks[n]))
  }

  /**
   Whatever ran before the first lock and whatever happens until the write, a commit writes
   the last uploads before its lock, joined in ascending number.
   */
  lemma CommitWritesLastUploads(before: seq<Event>, between: seq<Event>, id: int, path: string, chunks: ChunkMap)
    requires id !in Run(EMPTY, before).commits && chunks != map[] && AreLastUploads(before, path, chunks)
    requires forall i :: 0 <= i < |between| ==> between[i] != Write(id)
    ensures
      var t := Run(Step(Run(EMPTY, before), Lock(id, path)), between);
      Step(t, Write(id)).files == t.files[path := Assembled(chunks)]
  {
    var s := Run(EMPTY, before);
    var held := ChunksOf(s.chunks, path);
    forall n ensures (n in held <==> n in chunks) && (n in held && n in chunks ==> held[n] == chunks[n]) {
      HoldsLastUploads(before, path, n);
    }
    assert held == chunks;
    CommitWaits(Step(s, Lock(id, path)), between, id);
  }

  /** A commit whose three steps follow each other does to chunks and files what `CommitChunks` does. */
  lemma CommitIsThreeSteps(s: State, id: int, path: string)
    requires id !in s.commits
    ensures
      var held, t := ChunksOf(s.chunks, path), Step(Step(Step(s, Lock(id, path)), Write(id)), Unlock(id));
      if held == map[] then t.chunks == s.chunks && t.files == s.files
      else t.chunks == s.chunks - {path} && t.files == s.files[path := Assembled(held)]
  {
    var locked := LockStep(s, id, path);
    assert Step(s, Lock(id, path)) == locked;
    if ChunksOf(s.chunks, path) != map[] {
      WriteEffect(locked, id);
      var written := Step(locked, Write(id));
      assert Step(written, Unlock(id)) == UnlockStep(written, id);
    }
  }

  /** The path an event works on. */
  function PathOf(s: State, e: Event): Option<string> {
    match e
    case Upload(path, _, _) => Some(path)
    case Lock(_, path) => Some(path)
    case Write(id) => if id in s.commits then Some(s.commits[id].path) else None
    case Unlock(id) => if id in s.commits then Some(s.commits[id].path) else None
  }

  ghost predicate SameAt(s: State, t: State, path: string) {
    && ChunksOf(t.chunks, path) == ChunksOf(s.chunks, path)
    && (path in t.files <==> path in s.files)
    && (path in s.files && path in t.files ==> t.files[path] == s.files[path])
  }

  /** No event touches the chunks or the file of another path. */
  lemma OtherPathsUntouched(s: State, e: Event, path: string)
    requires PathOf(s, e) != Some(path)
    ensures SameAt(s, Step(s, e), path)
  {
    match e
    case Upload(p, n, data) => assert SameAt(s, UploadStep(s, p, n, data), path);
    case Lock(id, p) => assert SameAt(s, LockStep(s, id, p), path);
    case Write(id) => WriteTouchesOnePath(s, id, path);
    case Unlock(id) => assert SameAt(s, UnlockStep(s, id), path);
  }

  lemma WriteTouchesOnePath(s: State, id: int, path: string)
    requires id in s.commits ==> s.commits[id].path != path
    ensures SameAt(s, WriteStep(s, id), path)
  {
  }

  // ----- What clearing loses -----

  ghost predicate FileIs(s: State, path: string, bytes: ByteString) {
    path in s.files && s.files[path] == bytes
  }

  ghost predicate NoUploadTo(es: seq<Event>, path: string) {
    forall i :: 0 <= i < |es| ==> !(es[i].Upload? && es[i].path == path)
  }

  /** Whatever happens next short of a new upload to the path, its file stays. */
  ghost predicate KeepsFile(s: State, path: string, bytes: ByteString) {
    forall es :: NoUploadTo(es, path) ==> FileIs(Run(s, es), path, bytes)
  }

  /** The commits of the path that have yet to write took chunks that join to the same bytes. */
  ghost predicate WritesToCome(s: State, path: string, bytes: ByteString) {
    forall j :: j in s.commits && s.commits[j].path == path && !s.commits[j].written ==>
      Assembled(s.commits[j].snapshot) == bytes
  }

  ghost predicate FileSettled(s: State, path: string, bytes: ByteString) {
    path !in s.chunks && FileIs(s, path, bytes) && WritesToCome(s, path, bytes)
  }

  lemma SettledAfterLock(s: State, id: int, p: string, path: string, bytes: ByteString)
    requires FileSettled(s, path, bytes)
    ensures FileSettled(LockStep(s, id, p), path, bytes)
  {
    if p == path { assert ChunksOf(s.chunks, path) == map[]; }
  }

  lemma SettledAfterWrite(s: State, id: int, path: string, bytes: ByteString)
    requires FileSettled(s, path, bytes)
    ensures FileSettled(WriteStep(s, id), path, bytes)
  {
    if id in s.commits && !s.commits[id].written {
      var t := WriteStep(s, id);
      assert t.files == s.files[s.commits[id].path := Assembled(s.commits[id].snapshot)];
      forall j | j in t.commits && t.commits[j].path == path && !t.commits[j].written
        ensures Assembled(t.commits[j].snapshot) == bytes
      {
        assert j != id && t.commits[j] == s.commits[j];
      }
    }
  }

  lemma SettledStep(s: State, e: Event, path: string, bytes: ByteString)
    requires FileSettled(s, path, bytes) && !(e.Upload? && e.path == path)
    ensures FileSettled(Step(s, e), path, bytes)
  {
    match e
    case Upload(p, n, data) => assert FileSettled(UploadStep(s, p, n, data), path, bytes);
    case Lock(id, p) => SettledAfterLock(s, id, p, path, bytes);
    case Write(id) => SettledAfterWrite(s, id, path, bytes);
    case Unlock(id) => assert FileSettled(UnlockStep(s, id), path, bytes);
  }

  lemma {:induction false} FileStays(s: State, es: seq<Event>, path: string, bytes: ByteString)
    requires FileSettled(s, path, bytes) && NoUploadTo(es, path)
    ensures FileIs(Run(s, es), path, bytes)
    decreases |es|
  {
    if es != [] {
      SettledStep(s, es[0], path, bytes);
      assert forall i :: 0 <= i < |es[1..]| ==> es[1..][i] == es[i + 1];
      FileStays(Step(s, es[0]), es[1..], path, bytes);
    }
  }

  lemma RunOne(s: State, e: Event)
    ensures Run(s, [e]) == Step(s, e)
  {
    assert [e][1..] == [] && Run(Step(s, e), []) == Step(s, e);
  }

  /**
   Exactly when clearing loses nothing: what it deletes is in the file for good if and only
   if it is there now and every commit of the path that has yet to write will write the same.
   */
  lemma ClearKeepsFileIff(s: State, id: int)
    requires IsWritten(s, id) && s.commits[id].path in s.chunks
    ensures
      var path := s.commits[id].path;
      var bytes := Assembled(s.chunks[path]);
      KeepsFile(Step(s, Unlock(id)), path, bytes) <==> FileIs(s, path, bytes) && WritesToCome(s, path, bytes)
  {
    var path, t := s.commits[id].path, Step(s, Unlock(id));
    var bytes := Assembled(s.chunks[path]);
    assert t == UnlockStep(s, id) && t.files == s.files && path !in t.chunks;
    assert forall j :: j in t.commits <==> j in s.commits && j != id;
    assert WritesToCome(s, path, bytes) <==> WritesToCome(t, path, bytes);
    if KeepsFile(t, path, bytes) { KeepsFileNow(t, path, bytes); }
    if FileIs(s, path, bytes) && WritesToCome(s, path, bytes) {
      forall es | NoUploadTo(es, path) ensures FileIs(Run(t, es), path, bytes) {
        FileStays(t, es, path, bytes);
      }
    }
  }

  lemma KeepsFileNow(t: State, path: string, bytes: ByteString)
    requires KeepsFile(t, path, bytes)
    ensures FileIs(t, path, bytes) && WritesToCome(t, path, bytes)
  {
    assert NoUploadTo([], path) && FileIs(Run(t, []), path, bytes);
    forall j | j in t.commits && t.commits[j].path == path && !t.commits[j].written
      ensures Assembled(t.commits[j].snapshot) == bytes
    {
      assert NoUploadTo([Write(j)], path) && FileIs(Run(t, [Write(j)]), path, bytes);
      RunOne(t, Write(j));
    }
  }

  /** All commits of the path that have written took the same chunks. */
  ghost predicate SameWriters(s: State, id: int)
    requires id in s.commits
  {
    forall j :: IsWritten(s, j) && s.commits[j].path == s.commits[id].path ==>
      s.commits[j].snapshot == s.commits[id].snapshot
  }

  /**
   In particular, in every run: when no chunk of the path arrived since the first lock and no
   other commit of the path has written other chunks, the file holds all that clearing
   deletes, and goes on to hold it exactly if no commit of the path will write anything else.
   */
  lemma ClearLosesNothing(es: seq<Event>, id: int)
    requires
      var s := Run(EMPTY, es);
      IsWritten(s, id) && Arrivals(s, s.commits[id].path) == s.commits[id].arrivals && SameWriters(s, id)
    ensures
      var s := Run(EMPTY, es);
      var t, path := Step(s, Unlock(id)), s.commits[id].path;
      path !in t.chunks
      && (path in s.chunks ==>
            var bytes := Assembled(s.chunks[path]);
            FileIs(t, path, bytes) && (KeepsFile(t, path, bytes) <==> WritesToCome(s, path, bytes)))
  {
    InvRun(EMPTY, es);
    var s := Run(EMPTY, es);
    var path := s.commits[id].path;
    assert CommitOk(s, id);
    if path in s.chunks {
      assert WrittenByOne(s, path);
      ClearKeepsFileIff(s, id);
    }
  }

  /**
   Two commits of one path that took different chunks: when the one that locked first writes
   last, the other then clears chunks that are in no file, although none arrived since its lock.
   */
  lemma TwoCommitsLose(path: string, m: int, n: int, a: ByteString, b: ByteString)
    returns (es: seq<Event>)
    requires m != n
    ensures
      var s := Run(EMPTY, es);
      && IsWritten(s, 1) && s.commits[1].path == path && Arrivals(s, path) == s.commits[1].arrivals
      && s.chunks == map[path := map[m := a, n := b]]
      && Step(s, Unlock(1)).files == map[path := a] && Step(s, Unlock(1)).chunks == map[]
  {
    var locks := [Upload(path, m, a), Lock(0, path), Upload(path, n, b), Lock(1, path)];
    es := locks + [Write(1), Write(0)];
    var s := BothLocked(path, m, n, a, b);
    RunThen(EMPTY, locks, Write(1), Write(0));
    OlderWriteWins(s, path, m, n, a, b);
  }

  lemma OlderWriteWins(s: State, path: string, m: int, n: int, a: ByteString, b: ByteString)
    requires s.chunks == map[path := map[m := a, n := b]] && s.files == map[] && Arrivals(s, path) == 2
    requires
      s.commits == map[0 := Commit(path, map[m := a], 1, false), 1 := Commit(path, map[m := a, n := b], 2, false)]
    ensures
      var t := Step(Step(s, Write(1)), Write(0));
      && IsWritten(t, 1) && t.commits[1].path == path && Arrivals(t, path) == t.commits[1].arrivals
      && t.chunks == s.chunks
      && Step(t, Unlock(1)).files == map[path := a] && Step(t, Unlock(1)).chunks == map[]
  {
    OneNumber(m, a);
    WriteTwice(s, path);
    var t := Step(Step(s, Write(1)), Write(0));
    assert t.files == map[path := a];
    ClearsAll(t, path);
  }

  lemma WriteTwice(s: State, path: string)
    requires 0 in s.commits && 1 in s.commits && !s.commits[0].written && !s.commits[1].written
    requires s.commits[0].path == s.commits[1].path == path
    ensures
      var t := Step(Step(s, Write(1)), Write(0));
      && t.files == s.files[path := Assembled(s.commits[0].snapshot)]
      && t.chunks == s.chunks && t.arrivals == s.arrivals && IsWritten(t, 1)
      && t.commits[1].path == path && t.commits[1].arrivals == s.commits[1].arrivals
  {
    WriteEffect(s, 1);
    WriteEffect(Step(s, Write(1)), 0);
    LastPutWins(s.files, path, Assembled(s.commits[1].snapshot), Assembled(s.commits[0].snapshot));
  }

  lemma LastPutWins(files: map<string, ByteString>, path: string, first: ByteString, second: ByteString)
    ensures files[path := first][path := second] == files[path := second]
  {
  }

  lemma WriteEffect(s: State, id: int)
    requires id in s.commits && !s.commits[id].written
    ensures
      var c, t := s.commits[id], Step(s, Write(id));
      && t.files == s.files[c.path := Assembled(c.snapshot)] && t.chunks == s.chunks && t.arrivals == s.arrivals
      && t.commits == s.commits[id := c.(written := true)]
  {
    assert Step(s, Write(id)) == WriteStep(s, id);
  }

  lemma ClearsAll(t: State, path: string)
    requires IsWritten(t, 1) && t.commits[1].path == path && t.chunks.Keys == {path}
    ensures Step(t, Unlock(1)).files == t.files && Step(t, Unlock(1)).chunks == map[]
  {
  }

  lemma BothLocked(path: string, m: int, n: int, a: ByteString, b: ByteString) returns (s: State)
    requires m != n
    ensures s == Run(EMPTY, [Upload(path, m, a), Lock(0, path), Upload(path, n, b), Lock(1, path)])
    ensures s.chunks == map[path := map[m := a, n := b]] && s.files == map[] && Arrivals(s, path) == 2
    ensures s.commits == map[0 := Commit(path, map[m := a], 1, false), 1 := Commit(path, map[m := a, n := b], 2, false)]
  {
    var e1, e2, e3, e4 := Upload(path, m, a), Lock(0, path), Upload(path, n, b), Lock(1, path);
    var s1 := Step(EMPTY, e1);
    assert s1.chunks[path] == map[m := a] && m in s1.chunks[path];
    var s2 := Step(s1, e2);
    assert s2.chunks == map[path := map[m := a]] && s2.commits == map[0 := Commit(path, map[m := a], 1, false)];
    var s3 := Step(s2, e3);
    assert s3.chunks[path] == map[m := a, n := b] && m in s3.chunks[path];
    s := Step(s3, e4);
    RunThen(EMPTY, [], e1, e2);
    RunThen(EMPTY, [e1, e2], e3, e4);
    assert [] + [e1, e2] == [e1, e2] && [e1, e2] + [e3, e4] == [e1, e2, e3, e4];
  }

  lemma RunThen(s: State, es: seq<Event>, d: Event, e: Event)
    ensures Run(s, es + [d, e]) == Step(Step(Run(s, es), d), e)
  {
    assert es + [d, e] == (es + [d]) + [e];
    RunSnoc(s, es, d);
    RunSnoc(s, es + [d], e);
  }

  /** No event of the run clears the path. */
  ghost predicate Uncleared(s: State, es: seq<Event>, path: string)
    decreases |es|
  {
    es == [] || (!Clears(s, es[0], path) && Uncleared(Step(s, es[0]), es[1..], path))
  }

  /** The data of the last upload of chunk `n` to `path` among the events. */
  function UploadIn(es: seq<Event>, path: string, n: int): Option<ByteString>
    decreases |es|
  {
    if es == [] then None
    else
      var later := UploadIn(es[1..], path, n);
      if later.None? && es[0].Upload? && es[0].path == path && es[0].n == n then Some(es[0].data) else later
  }

  lemma {:induction false} WindowHolds(s: State, es: seq<Event>, path: string, n: int)
    requires Uncleared(s, es, path)
    ensures
      var before, after, last := ChunksOf(s.chunks, path), ChunksOf(Run(s, es).chunks, path), UploadIn(es, path, n);
      (n in after <==> last.Some? || n in before)
      && (n in after ==> after[n] == if last.Some? then last.value else before[n])
    decreases |es|
  {
    if es != [] { WindowHolds(Step(s, es[0]), es[1..], path, n); }
  }

  lemma {:induction false} SnapshotStays(s: State, es: seq<Event>, id: int)
    requires id in s.commits && Uncleared(s, es, s.commits[id].path)
    ensures id in Run(s, es).commits && Run(s, es).commits[id].snapshot == s.commits[id].snapshot
    decreases |es|
  {
    if es != [] { SnapshotStays(Step(s, es[0]), es[1..], id); }
  }

  /**
   The window of a commit, exactly: what it took is what its path holds at the end if and
   only if, per number, the last upload in the window is absent or the chunk it took.
   */
  lemma WindowKeepsSnapshot(s: State, id: int, path: string, es: seq<Event>)
    requires id !in s.commits && ChunksOf(s.chunks, path) != map[]
    requires Uncleared(Step(s, Lock(id, path)), es, path)
    ensures
      var held, t := ChunksOf(s.chunks, path), Run(Step(s, Lock(id, path)), es);
      && id in t.commits
      && (t.commits[id].snapshot == ChunksOf(t.chunks, path) <==> NothingNew(es, path, held))
  {
    var held, start := ChunksOf(s.chunks, path), Step(s, Lock(id, path));
    var after := ChunksOf(Run(start, es).chunks, path);
    SnapshotStays(start, es, id);
    forall n ensures
      (n in after <==> UploadIn(es, path, n).Some? || n in held)
      && (n in after ==> after[n] == if UploadIn(es, path, n).Some? then UploadIn(es, path, n).value else held[n])
    {
      WindowHolds(start, es, path, n);
    }
    if held == after {
      forall n | UploadIn(es, path, n).Some? ensures n in held && UploadIn(es, path, n) == Some(held[n]) {
        assert n in after;
      }
    }
    if NothingNew(es, path, held) {
      forall n ensures (n in held <==> n in after) && (n in held && n in after ==> after[n] == held[n]) {
        assert UploadIn(es, path, n).Some? ==> n in held && UploadIn(es, path, n) == Some(held[n]);
      }
      assert held == after;
    }
  }

  /** Does the event write the file of `path`? */
  predicate Writes(s: State, e: Event, path: string) {
    e.Write? && e.id in s.commits && !s.commits[e.id].written && s.commits[e.id].path == path
  }

  ghost predicate Unwritten(s: State, es: seq<Event>, path: string)
    decreases |es|
  {
    es == [] || (!Writes(s, es[0], path) && Unwritten(Step(s, es[0]), es[1..], path))
  }

  lemma {:induction false} UnwrittenFile(s: State, es: seq<Event>, path: string, bytes: ByteString)
    requires Unwritten(s, es, path) && FileIs(s, path, bytes)
    ensures FileIs(Run(s, es), path, bytes)
    decreases |es|
  {
    if es != [] { UnwrittenFile(Step(s, es[0]), es[1..], path, bytes); }
  }

  lemma {:induction false} RunConcat(s: State, a: seq<Event>, b: seq<Event>)
    ensures Run(s, a + b) == Run(Run(s, a), b)
    decreases |a|
  {
    if a == [] {
      assert a + b == b;
    } else {
      assert (a + b)[1..] == a[1..] + b;
      RunConcat(Step(s, a[0]), a[1..], b);
    }
  }

  /** Per number, the last upload among the events is absent or the chunk held before. */
  ghost predicate NothingNew(es: seq<Event>, path: string, held: ChunkMap) {
    forall n :: UploadIn(es, path, n).Some? ==> n in held && UploadIn(es, path, n) == Some(held[n])
  }

  /**
   Whether the file holds the chunks now is decided by the last commit that wrote it: it holds
   what that commit took, which are the chunks now if and only if nothing new was uploaded
   since its lock.
   */
  lemma LastWriterDecides(s: State, id: int, path: string, window: seq<Event>, rest: seq<Event>)
    requires id !in s.commits && ChunksOf(s.chunks, path) != map[]
    requires forall i :: 0 <= i < |window| ==> window[i] != Write(id)
    requires Uncleared(Step(s, Lock(id, path)), window + ([Write(id)] + rest), path)
    requires Unwritten(Step(Run(Step(s, Lock(id, path)), window), Write(id)), rest, path)
    ensures
      var held, es := ChunksOf(s.chunks, path), window + ([Write(id)] + rest);
      var t := Run(Step(s, Lock(id, path)), es);
      && FileIs(t, path, Assembled(held))
      && (held == ChunksOf(t.chunks, path) <==> NothingNew(es, path, held))
      && (NothingNew(es, path, held) ==> FileIs(t, path, Assembled(ChunksOf(t.chunks, path))))
  {
    var held, start, es := ChunksOf(s.chunks, path), Step(s, Lock(id, path)), window + ([Write(id)] + rest);
    var mid := Run(start, window);
    CommitWaits(start, window, id);
    WindowKeepsSnapshot(s, id, path, es);
    SnapshotStays(start, es, id);
    RunConcat(start, window, [Write(id)] + rest);
    assert ([Write(id)] + rest)[1..] == rest;
    UnwrittenFile(Step(mid, Write(id)), rest, path, Assembled(held));
  }

  /** A chunk that arrives in the window, new or changed, ends up in neither file nor chunk map. */
  lemma WindowLosesChunk(s: State, id: int, n: int, data: ByteString)
    requires id in s.commits && !s.commits[id].written
    requires n in s.commits[id].snapshot ==> s.commits[id].snapshot[n] != data
    ensures
      var c := s.commits[id];
      var arrived := Step(s, Upload(c.path, n, data));
      var end := Step(Step(arrived, Write(id)), Unlock(id));
      && arrived.chunks[c.path][n] == data && arrived.chunks[c.path] != c.snapshot
      && c.path in end.files && end.files[c.path] == Assembled(c.snapshot)
      && c.path !in end.chunks
  {
  }

  // ----- The local store -----

  /** Chunk files are named by zero-padded number in one directory per path. */
  class LocalFileStore {
    var chunkDirs: map<string, map<string, ByteString>>
    var files: map<string, ByteString>

    constructor ()
      ensures chunkDirs == map[] && files == map[]
    {
      chunkDirs := map[];
      files := map[];
    }

    method UploadChunk(path: string, n: int, data: ByteString) returns (chunkName: string)
      modifies this`chunkDirs
      ensures chunkName == ChunkName(n)
      ensures chunkDirs == old(chunkDirs)[path := DirOf(old(chunkDirs), path)[ChunkName(n) := data]]
    {
      if path !in chunkDirs {
        chunkDirs := chunkDirs[path := map[]];
      }
      chunkName := ChunkName(n);
      chunkDirs := chunkDirs[path := chunkDirs[path][chunkName := data]];
    }

    method GetUploadedChunks(path: string) returns (names: seq<string>)
      ensures names == SortKeys(DirOf(chunkDirs, path).Keys)
    {
      if path !in chunkDirs {
        assert DirOf(chunkDirs, path).Keys == {};
        return [];
      }
      names := SortedKeys(chunkDirs[path].Keys);
    }

    /** Joins the chunk files in name order; without chunks the file is created empty. */
    method CommitChunks(path: string)
      modifies this
      ensures files == old(files)[path := AssembledByName(DirOf(old(chunkDirs), path))]
      ensures chunkDirs == old(chunkDirs) - {path}
    {
      var names := GetUploadedChunks(path);
      var dest := Append(DirOf(chunkDirs, path), names);
      files := files[path := dest];
      chunkDirs := chunkDirs - {path};
    }
  }

  function DirOf(dirs: map<string, map<string, ByteString>>, path: string): map<string, ByteString> {
    if path in dirs then dirs[path] else map[]
  }

  ghost function AssembledByName(dir: map<string, ByteString>): ByteString {
    Join(PartsAt(dir, SortKeys(dir.Keys)))
  }

  // ----- Both stores commit the same bytes -----

  datatype Chunk = Chunk(n: int, data: ByteString)

  ghost predicate InRange(chunks: ChunkMap) {
    forall n :: n in chunks ==> 0 <= n < LIMIT
  }

  /** The directory `dir` holds the chunks of `chunks` under their names. */
  ghost predicate Mirrors(chunks: ChunkMap, dir: map<string, ByteString>) {
    && (forall n :: n in chunks ==> ChunkName(n) in dir && dir[ChunkName(n)] == chunks[n])
    && (forall name :: name in dir ==> exists n :: n in chunks && ChunkName(n) == name)
  }

  lemma UploadMirrors(chunks: ChunkMap, dir: map<string, ByteString>, n: int, data: ByteString)
    requires InRange(chunks) && Mirrors(chunks, dir) && 0 <= n < LIMIT
    ensures InRange(chunks[n := data]) && Mirrors(chunks[n := data], dir[ChunkName(n) := data])
  {
    var more, named := chunks[n := data], dir[ChunkName(n) := data];
    forall m | m in more ensures ChunkName(m) in named && named[ChunkName(m)] == more[m] {
      if m != n { NamesDiffer(m, n); }
    }
    forall name | name in named ensures exists m :: m in more && ChunkName(m) == name {
      if name == ChunkName(n) {
        assert n in more;
      } else {
        var m :| m in chunks && ChunkName(m) == name;
        assert m in more;
      }
    }
  }

  lemma NamesDiffer(a: int, b: int)
    requires 0 <= a < LIMIT && 0 <= b < LIMIT && a != b
    ensures ChunkName(a) != ChunkName(b)
  {
    NameOrder(a, b);
    NameOrder(b, a);
    LessIrreflexive(ChunkName(a));
  }

  function Names(ns: seq<int>): (names: seq<string>)
    ensures |names| == |ns| && forall i :: 0 <= i < |ns| ==> names[i] == ChunkName(ns[i])
  {
    seq(|ns|, i requires 0 <= i < |ns| => ChunkName(ns[i]))
  }

  lemma NamesIncrease(ns: seq<int>)
    requires Ascending(ns) && forall i :: 0 <= i < |ns| ==> 0 <= ns[i] < LIMIT
    ensures Increasing(Names(ns))
  {
    var names := Names(ns);
    forall i, j | 0 <= i < j < |names| ensures Less(names[i], names[j]) { NameOrder(ns[i], ns[j]); }
  }

  lemma NamesListed(chunks: ChunkMap, dir: map<string, ByteString>, ns: seq<int>, k: string)
    requires Mirrors(chunks, dir) && forall n :: n in ns <==> n in chunks
    ensures k in Names(ns) <==> k in dir
  {
    if k in dir {
      var n :| n in chunks && ChunkName(n) == k;
      assert n in ns;
      var i :| 0 <= i < |ns| && ns[i] == n;
      assert Names(ns)[i] == k;
    }
    if k in Names(ns) {
      var i :| 0 <= i < |ns| && Names(ns)[i] == k;
      assert ns[i] in ns;
    }
  }

  /** In name order the directory lists exactly the names of the ascending numbers. */
  lemma NamesAscend(chunks: ChunkMap, dir: map<string, ByteString>, ns: seq<int>)
    requires InRange(chunks) && Mirrors(chunks, dir)
    requires Ascending(ns) && forall n :: n in ns <==> n in chunks
    ensures SortKeys(dir.Keys) == Names(ns)
  {
    forall i | 0 <= i < |ns| ensures 0 <= ns[i] < LIMIT { assert ns[i] in ns; }
    NamesIncrease(ns);
    SortKeysIncreasing(dir.Keys);
    forall k ensures k in Names(ns) <==> k in SortKeys(dir.Keys) {
      NamesListed(chunks, dir, ns, k);
    }
    IncreasingUnique(Names(ns), SortKeys(dir.Keys));
  }

  lemma NamesMatch(chunks: ChunkMap, dir: map<string, ByteString>)
    requires InRange(chunks) && Mirrors(chunks, dir)
    ensures SortKeys(dir.Keys) == Names(SortNumbers(chunks.Keys))
  {
    SortNumbersAscending(chunks.Keys);
    NamesAscend(chunks, dir, SortNumbers(chunks.Keys));
  }

  /** Below chunk number one million, a mirrored directory joins to the same bytes. */
  lemma SameBytes(chunks: ChunkMap, dir: map<string, ByteString>)
    requires InRange(chunks) && Mirrors(chunks, dir)
    ensures AssembledByName(dir) == Assembled(chunks)
  {
    NamesMatch(chunks, dir);
    MirroredParts(chunks, dir, SortNumbers(chunks.Keys));
  }

  /** The stores hold the same chunks of the path. */
  ghost predicate Agree(p2p: P2PFileStore, local: LocalFileStore, path: string)
    reads p2p, local
  {
    var chunks, dir := ChunksOf(p2p.chunks, path), DirOf(local.chunkDirs, path);
    InRange(chunks) && Mirrors(chunks, dir)
  }

  /** The same uploads, in any order and with any repetition, to both stores. */
  method UploadToBoth(p2p: P2PFileStore, local: LocalFileStore, path: string, us: seq<Chunk>)
    requires Agree(p2p, local, path) && forall i :: 0 <= i < |us| ==> 0 <= us[i].n < LIMIT
    modifies p2p`chunks, local`chunkDirs
    ensures Agree(p2p, local, path)
    ensures ChunksOf(p2p.chunks, path) == map[] <==> us == [] && ChunksOf(old(p2p.chunks), path) == map[]
  {
    var i := 0;
    while i < |us|
      invariant i <= |us| && Agree(p2p, local, path)
      invariant ChunksOf(p2p.chunks, path) == map[] <==> i == 0 && ChunksOf(old(p2p.chunks), path) == map[]
    {
      UploadMirrors(ChunksOf(p2p.chunks, path), DirOf(local.chunkDirs, path), us[i].n, us[i].data);
      var a := p2p.UploadChunk(path, us[i].n, us[i].data);
      var b := local.UploadChunk(path, us[i].n, us[i].data);
      assert us[i].n in ChunksOf(p2p.chunks, path);
      i := i + 1;
    }
  }

  /**
   Both stores then commit identical bytes, except when there are no chunks at all: the
   in-memory store reports an error and the local one writes an empty file.
   */
  method CommitBoth(p2p: P2PFileStore, local: LocalFileStore, path: string, us: seq<Chunk>)
    returns (r: Result<ByteString>)
    requires Agree(p2p, local, path) && forall i :: 0 <= i < |us| ==> 0 <= us[i].n < LIMIT
    modifies p2p, local
    ensures path in local.files && path !in local.chunkDirs
    ensures
      if us == [] && ChunksOf(old(p2p.chunks), path) == map[] then
        r.Err? && p2p.files == old(p2p.files) && local.files[path] == []
      else
        r.Ok? && path in p2p.files && p2p.files[path] == local.files[path] == r.value && path !in p2p.chunks
  {
    UploadToBoth(p2p, local, path, us);
    ghost var chunks, dir := ChunksOf(p2p.chunks, path), DirOf(local.chunkDirs, path);
    SameBytes(chunks, dir);
    if chunks == map[] { NothingToJoin(); }
    r := p2p.CommitChunks(path);
    local.CommitChunks(path);
  }

  lemma NothingToJoin()
    ensures Assembled(map[]) == []
  {
    var none: ChunkMap := map[];
    assert none.Keys == {};
  }

  lemma MirroredParts(chunks: ChunkMap, dir: map<string, ByteString>, ns: seq<int>)
    requires Mirrors(chunks, dir) && forall n :: n in ns ==> n in chunks
    ensures forall i :: 0 <= i < |ns| ==> ns[i] in chunks && Names(ns)[i] in dir
    ensures PartsAt(dir, Names(ns)) == PartsAt(chunks, ns)
  {
    forall i | 0 <= i < |ns| ensures ns[i] in chunks && Names(ns)[i] in dir && dir[Names(ns)[i]] == chunks[ns[i]] {
      assert ns[i] in ns;
      assert Names(ns)[i] == ChunkName(ns[i]);
    }
  }

  /** Chunks whose names sort the other way round come out swapped. */
  lemma SwappedOnDisk(u: Chunk, v: Chunk)
    requires u.n < v.n && Less(ChunkName(v.n), ChunkName(u.n))
    ensures
      var chunks, dir := map[u.n := u.data][v.n := v.data], map[ChunkName(u.n) := u.data][ChunkName(v.n) := v.data];
      Mirrors(chunks, dir) && Assembled(chunks) == u.data + v.data && AssembledByName(dir) == v.data + u.data
  {
    var a, b := ChunkName(u.n), ChunkName(v.n);
    LessAsymmetric(b, a);
    TwoMirrored(u, v);
    TwoNumbers(u.n, v.n, u.data, v.data);
    TwoNames(b, a, v.data, u.data);
    EitherOrder(a, u.data, b, v.data);
  }

  lemma TwoMirrored(u: Chunk, v: Chunk)
    requires u.n != v.n && ChunkName(u.n) != ChunkName(v.n)
    ensures Mirrors(map[u.n := u.data][v.n := v.data], map[ChunkName(u.n) := u.data][ChunkName(v.n) := v.data])
  {
    var chunks, dir := map[u.n := u.data][v.n := v.data], map[ChunkName(u.n) := u.data][ChunkName(v.n) := v.data];
    assert u.n in chunks && v.n in chunks;
    forall name | name in dir ensures exists n :: n in chunks && ChunkName(n) == name {
      assert name == ChunkName(u.n) || name == ChunkName(v.n);
    }
  }

  lemma EitherOrder<K, V>(a: K, x: V, b: K, y: V)
    requires a != b
    ensures map[a := x][b := y] == map[b := y][a := x]
  {
  }

  /** One past the range the stores differ: chunk 1000000 comes first on disk. */
  lemma BytesDifferBeyondRange(u: Chunk, v: Chunk)
    requires u.n == LIMIT - 1 && v.n == LIMIT
    ensures
      var chunks, dir := map[u.n := u.data][v.n := v.data], map[ChunkName(u.n) := u.data][ChunkName(v.n) := v.data];
      Mirrors(chunks, dir) && Assembled(chunks) == u.data + v.data && AssembledByName(dir) == v.data + u.data
  {
    NameOrderEnds(v.n);
    SwappedOnDisk(u, v);
  }

  lemma OneNumber(n: int, x: ByteString)
    ensures Assembled(map[n := x]) == x
  {
    var chunks: ChunkMap := map[n := x];
    SortNumbersAscending(chunks.Keys);
    AscendingUnique(SortNumbers(chunks.Keys), [n]);
    assert PartsAt(chunks, [n]) == [x];
    assert [x][1..] == [] && Join([x]) == x + Join([]);
  }

  lemma TwoNumbers(m: int, n: int, x: ByteString, y: ByteString)
    requires m < n
    ensures Assembled(map[m := x][n := y]) == x + y
  {
    var chunks := map[m := x][n := y];
    SortNumbersAscending(chunks.Keys);
    AscendingUnique(SortNumbers(chunks.Keys), [m, n]);
    assert PartsAt(chunks, [m, n]) == [x, y];
    JoinTwo(x, y);
  }

  lemma TwoNames(a: string, b: string, x: ByteString, y: ByteString)
    requires Less(a, b)
    ensures AssembledByName(map[a := x][b := y]) == x + y
  {
    LessAsymmetric(a, b);
    var dir := map[a := x][b := y];
    SortKeysIncreasing(dir.Keys);
    IncreasingUnique(SortKeys(dir.Keys), [a, b]);
    assert PartsAt(dir, [a, b]) == [x, y];
    JoinTwo(x, y);
  }

  lemma JoinTwo(a: ByteString, b: ByteString)
    ensures Join([a, b]) == a + b
  {
    assert [a, b][1..] == [b] && [b][1..] == [];
    assert Join([b]) == b + Join([]) == b;
  }
}
