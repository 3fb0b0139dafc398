/** Go's `strings.Split` with a one-character separator. */
module Splitting {

  function Split(s: string, sep: char): (parts: seq<string>)
    ensures |parts| > 0
  {
    if s == [] then [[]]
    else
      var rest := Split(s[1..], sep);
      if s[0] == sep then [[]] + rest else [[s[0]] + rest[0]] + rest[1..]
  }

  /** The parts with the separator in between. */
  function Joined(parts: seq<string>, sep: char): string
    requires parts != []
  {
    if |parts| == 1 then parts[0] else parts[0] + [sep] + Joined(parts[1..], sep)
  }

  ghost predicate Apart(parts: seq<string>, sep: char) {
    parts != [] && forall i :: 0 <= i < |parts| ==> sep !in parts[i]
  }

  /** Splitting loses nothing, and leaves no separator in a part. */
  lemma {:induction false} SplitJoins(s: string, sep: char)
    ensures Apart(Split(s, sep), sep) && Joined(Split(s, sep), sep) == s
  {
    if s != [] {
      var rest, parts := Split(s[1..], sep), Split(s, sep);
      SplitJoins(s[1..], sep);
      if s[0] == sep {
        assert parts[1..] == rest;
        assert Joined(parts, sep) == [sep] + s[1..];
      } else {
        assert parts[1..] == rest[1..];
        assert Joined(parts, sep) == [s[0]] + Joined(rest, sep);
      }
    }
  }

  lemma {:induction false} SplitFirst(a: string, rest: string, sep: char)
    requires sep !in a
    ensures Split(a, sep) == [a]
    ensures Split(a + [sep] + rest, sep) == [a] + Split(rest, sep)
  {
    var s := a + [sep] + rest;
    if a == [] {
      assert s[0] == sep && s[1..] == rest;
    } else {
      SplitFirst(a[1..], rest, sep);
      assert s[0] == a[0] && s[1..] == a[1..] + [sep] + rest;
      assert a == [a[0]] + a[1..];
    }
  }

  /** There is no other way to cut a string into parts without the separator. */
  lemma {:induction false} SplitUnique(parts: seq<string>, sep: char)
    requires Apart(parts, sep)
    ensures Split(Joined(parts, sep), sep) == parts
  {
    if |parts| == 1 {
      SplitFirst(parts[0], [], sep);
    } else {
      SplitUnique(parts[1..], sep);
      SplitFirst(parts[0], Joined(parts[1..], sep), sep);
      assert parts == [parts[0]] + parts[1..];
    }
  }

  /** There is one part more than there are separators. */
  lemma {:induction false} SplitCount(s: string, sep: char)
    ensures |Split(s, sep)| == multiset(s)[sep] + 1
  {
    if s != [] {
      SplitCount(s[1..], sep);
      assert s == [s[0]] + s[1..];
    }
  }

  lemma SplitTwo(a: string, b: string, sep: char)
    requires sep !in a && sep !in b
    ensures Split(a + [sep] + b, sep) == [a, b]
  {
    SplitFirst(a, b, sep);
    SplitFirst(b, [], sep);
  }

  lemma SplitFour(a: string, b: string, c: string, d: string, sep: char)
    requires sep !in a && sep !in b && sep !in c && sep !in d
    ensures Split(a + [sep] + (b + [sep] + (c + [sep] + d)), sep) == [a, b, c, d]
  {
    SplitFirst(a, b + [sep] + (c + [sep] + d), sep);
    SplitFirst(b, c + [sep] + d, sep);
    SplitTwo(c, d, sep);
  }
}
