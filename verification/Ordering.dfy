/**
 The order in which record keys are listed: Go's byte-wise string order, the sorted
 enumeration of a finite set of keys, and the rank of a key in that enumeration.
 */
module Ordering {

  /** Go's `<` on strings; a `char` stands for one byte. */
  predicate Less(a: string, b: string) {
    if b == [] then false
    else if a == [] then true
    else a[0] < b[0] || (a[0] == b[0] && Less(a[1..], b[1..]))
  }

  lemma {:induction false} LessIrreflexive(a: string)
    ensures !Less(a, a)
  {
    if a != [] { LessIrreflexive(a[1..]); }
  }

  lemma {:induction false} LessTotal(a: string, b: string)
    ensures a != b ==> Less(a, b) || Less(b, a)
  {
    if a != [] && b != [] && a[0] == b[0] {
      LessTotal(a[1..], b[1..]);
      assert a == [a[0]] + a[1..] && b == [b[0]] + b[1..];
    }
  }

  lemma {:induction false} LessTransitive(a: string, b: string, c: string)
    requires Less(a, b) && Less(b, c)
    ensures Less(a, c)
  {
    if a != [] && a[0] == b[0] == c[0] { LessTransitive(a[1..], b[1..], c[1..]); }
  }

  lemma LessAsymmetric(a: string, b: string)
    requires Less(a, b)
    ensures !Less(b, a) && a != b
  {
    LessIrreflexive(a);
    if Less(b, a) { LessTransitive(a, b, a); }
  }

  /** After `n` equal bytes, `a` ends first or has the smaller byte. */
  ghost predicate LessAfter(a: string, b: string, n: nat) {
    n <= |a| && n < |b| && a[..n] == b[..n] && (n < |a| ==> a[n] < b[n])
  }

  lemma {:induction false} LessIff(a: string, b: string)
    ensures Less(a, b) <==> exists n: nat :: LessAfter(a, b, n)
  {
    if b != [] && a != [] && a[0] == b[0] {
      var a', b' := a[1..], b[1..];
      LessIff(a', b');
      if m: nat :| LessAfter(a', b', m) {
        assert a[..m + 1] == [a[0]] + a'[..m] && b[..m + 1] == [b[0]] + b'[..m];
        assert LessAfter(a, b, m + 1);
      }
      if n: nat :| LessAfter(a, b, n) { LessAfterTail(a, b, n); }
    } else if Less(a, b) {
      assert LessAfter(a, b, 0);
    } else if n: nat :| LessAfter(a, b, n) {
      LessAfterTail(a, b, n);
    }
  }

  lemma LessAfterTail(a: string, b: string, n: nat)
    requires LessAfter(a, b, n)
    ensures n == 0 ==> a == [] || a[0] < b[0]
    ensures n > 0 ==> a != [] && a[0] == b[0] && LessAfter(a[1..], b[1..], n - 1)
  {
    if n > 0 {
      assert a[0] == a[..n][0] == b[..n][0];
      assert a[1..][..n - 1] == a[..n][1..] && b[1..][..n - 1] == b[..n][1..];
    }
  }

  // ----- The sorted enumeration of a set of keys -----

  ghost predicate Increasing(ks: seq<string>) {
    forall i, j :: 0 <= i < j < |ks| ==> Less(ks[i], ks[j])
  }

  ghost predicate Enumerates(ks: seq<string>, s: set<string>) {
    forall k :: k in ks <==> k in s
  }

  /** The least key of a non-empty set. */
  ghost function Least(s: set<string>): (m: string)
    requires s != {}
    ensures m in s && forall k :: k in s && k != m ==> Less(m, k)
  {
    var k :| k in s;
    if s == {k} then k
    else
      var m := Least(s - {k});
      LessTotal(k, m);
      assert forall x :: x in s && x != k ==> x in s - {k};
      assert Less(k, m) ==> forall x :: x in s && x != k ==> Less(k, x) by {
        forall x | Less(k, m) && x in s && x != k ensures Less(k, x) {
          if x != m { LessTransitive(k, m, x); }
        }
      }
      if Less(k, m) then k else m
  }

  /** The keys of `s`, each once, in increasing order. */
  ghost function SortKeys(s: set<string>): (ks: seq<string>)
    ensures |ks| == |s| && Enumerates(ks, s)
  {
    if s == {} then [] else [Least(s)] + SortKeys(s - {Least(s)})
  }

  lemma {:induction false} SortKeysIncreasing(s: set<string>)
    ensures Increasing(SortKeys(s))
  {
    if s != {} {
      var rest := SortKeys(s - {Least(s)});
      SortKeysIncreasing(s - {Least(s)});
      forall j | 0 <= j < |rest| ensures Less(Least(s), rest[j]) { assert rest[j] in rest; }
    }
  }

  /** Two increasing sequences with the same elements are the same sequence. */
  lemma {:induction false} IncreasingUnique(a: seq<string>, b: seq<string>)
    requires Increasing(a) && Increasing(b)
    requires forall k :: k in a <==> k in b
    ensures a == b
  {
    assert a != [] ==> a[0] in b;
    assert b != [] ==> b[0] in a;
    if a != [] {
      if a[0] != b[0] {
        var i :| 0 <= i < |b| && b[i] == a[0];
        var j :| 0 <= j < |a| && a[j] == b[0];
        LessAsymmetric(a[0], b[0]);
      }
      forall k ensures k in a[1..] <==> k in b[1..] {
        TailMembers(a, k);
        TailMembers(b, k);
      }
      IncreasingUnique(a[1..], b[1..]);
      assert a == [a[0]] + a[1..] && b == [b[0]] + b[1..];
    }
  }

  lemma IncreasingDistinct(ks: seq<string>, i: nat, j: nat)
    requires Increasing(ks) && i < j < |ks|
    ensures ks[i] != ks[j]
  {
    assert Less(ks[i], ks[j]);
    LessIrreflexive(ks[i]);
  }

  ghost predicate Distinct<T(!new)>(xs: seq<T>) {
    forall i, j :: 0 <= i < j < |xs| ==> xs[i] != xs[j]
  }

  lemma SortedDistinct(s: set<string>)
    ensures Distinct(SortKeys(s))
  {
    SortKeysIncreasing(s);
    forall i, j | 0 <= i < j < |SortKeys(s)| ensures SortKeys(s)[i] != SortKeys(s)[j] {
      IncreasingDistinct(SortKeys(s), i, j);
    }
  }

  lemma TailMembers(a: seq<string>, k: string)
    requires a != [] && Increasing(a)
    ensures k in a[1..] <==> k in a && k != a[0]
  {
    if k in a[1..] {
      var i :| 0 <= i < |a[1..]| && a[1..][i] == k;
      LessAsymmetric(a[0], a[i + 1]);
    }
    if k in a && k != a[0] {
      var i :| 0 <= i < |a| && a[i] == k;
      assert a[1..][i - 1] == k;
    }
  }

  lemma InsertKeepsIncreasing(ks: seq<string>, k: string, i: nat)
    requires Increasing(ks) && k !in ks && i <= |ks|
    requires forall j :: 0 <= j < i ==> Less(ks[j], k)
    requires i < |ks| ==> !Less(ks[i], k)
    ensures Increasing(ks[..i] + [k] + ks[i..])
  {
    forall j | i <= j < |ks| ensures Less(k, ks[j]) {
      LessTotal(ks[i], k);
      if j > i { LessTransitive(k, ks[i], ks[j]); }
    }
  }

  /** Collects the keys in map order and sorts them. */
  method SortedKeys(keys: set<string>) returns (ks: seq<string>)
    ensures ks == SortKeys(keys)
  {
    ks := [];
    var rest := keys;
    while rest != {}
      invariant rest <= keys && Increasing(ks) && Enumerates(ks, keys - rest)
      decreases rest
    {
      var k :| k in rest;
      var i := 0;
      while i < |ks| && Less(ks[i], k)
        invariant i <= |ks|
        invariant forall j :: 0 <= j < i ==> Less(ks[j], k)
      {
        i := i + 1;
      }
      InsertKeepsIncreasing(ks, k, i);
      assert ks == ks[..i] + ks[i..];
      ghost var before := ks;
      ks := ks[..i] + [k] + ks[i..];
      assert forall x :: x in ks <==> x in before || x == k;
      rest := rest - {k};
    }
    SortKeysIncreasing(keys);
    IncreasingUnique(ks, SortKeys(keys));
  }

  ghost function Any<T>(s: set<T>): (x: T)
    requires s != {}
    ensures x in s
  {
    var y :| y in s;
    y
  }

  /** The next element in map order. */
  method Next<T(==)>(s: set<T>) returns (x: T)
    requires s != {}
    ensures x in s
  {
    x :| x in s;
  }

  // ----- Ranks -----

  ghost function Below(s: set<string>, k: string): set<string> {
    set x | x in s && Less(x, k)
  }

  lemma SubsetSize<T>(a: set<T>, b: set<T>)
    requires a <= b
    ensures |a| <= |b|
    ensures |a| == |b| ==> a == b
  {
    assert b == a + (b - a);
  }

  lemma BelowLeast(s: set<string>)
    requires s != {}
    ensures Below(s, Least(s)) == {}
  {
    var m := Least(s);
    forall x | x in s ensures !Less(x, m) {
      if x == m { LessIrreflexive(m); } else { LessAsymmetric(m, x); }
    }
  }

  lemma BelowOther(s: set<string>, k: string)
    requires k in s && k != Least(s)
    ensures |Below(s, k)| == 1 + |Below(s - {Least(s)}, k)|
  {
    var m := Least(s);
    assert Below(s, k) == {m} + Below(s - {m}, k);
  }

  /** The position of a key in the sorted enumeration is the number of smaller keys. */
  lemma {:induction false} RankIsPosition(s: set<string>, i: nat)
    requires i < |SortKeys(s)|
    ensures |Below(s, SortKeys(s)[i])| == i
  {
    var m := Least(s);
    var rest := SortKeys(s - {m});
    assert SortKeys(s) == [m] + rest;
    if i == 0 {
      BelowLeast(s);
    } else {
      RankIsPosition(s - {m}, i - 1);
      assert rest[i - 1] in rest;
      BelowOther(s, rest[i - 1]);
    }
  }

  lemma PositionOf(s: set<string>, k: string)
    requires k in s
    ensures |Below(s, k)| < |SortKeys(s)| && SortKeys(s)[|Below(s, k)|] == k
  {
    assert k in SortKeys(s);
    var i :| 0 <= i < |SortKeys(s)| && SortKeys(s)[i] == k;
    RankIsPosition(s, i);
  }

  // ----- Pages -----

  /** `results[offset:]` then `[:limit]`, empty when the offset is past the end. */
  function Page<T>(xs: seq<T>, offset: nat, limit: nat): (page: seq<T>)
    ensures |page| == if offset > |xs| then 0 else if limit < |xs| - offset then limit else |xs| - offset
    ensures forall i :: 0 <= i < |page| ==> page[i] == xs[offset + i]
  {
    if offset > |xs| then []
    else if limit < |xs| - offset then xs[offset..offset + limit]
    else xs[offset..]
  }

  /** A page depends only on what comes after its offset. */
  lemma PageOfSuffix<T>(a: seq<T>, b: seq<T>, offset: nat, limit: nat)
    requires |a| == |b| && forall i :: offset <= i < |a| ==> a[i] == b[i]
    ensures Page(a, offset, limit) == Page(b, offset, limit)
  {
  }
}
