/** Decimal chunk names padded with zeros to six digits, and how they sort as strings. */
module ChunkNames {
  import opened Ordering

  function Digit(d: nat): char
    requires d < 10
  {
    ['0', '1', '2', '3', '4', '5', '6', '7', '8', '9'][d]
  }

  /** The usual decimal form of a natural number. */
  function Decimal(n: nat): (s: string)
    ensures s != []
  {
    if n < 10 then [Digit(n)] else Decimal(n / 10) + [Digit(n % 10)]
  }

  /** The decimal form of an integer. */
  function Itoa(n: int): string {
    if n < 0 then "-" + Decimal(-n) else Decimal(n)
  }

  function Zeros(n: nat): (s: string)
    ensures |s| == n
  {
    if n == 0 then [] else ['0'] + Zeros(n - 1)
  }

  /** The format `%06d`; the sign of a negative number counts towards the width. */
  function ChunkName(n: int): string {
    var sign := if n < 0 then "-" else "";
    var digits := Decimal(if n < 0 then -n else n);
    sign + Zeros(if |sign| + |digits| < 6 then 6 - |sign| - |digits| else 0) + digits
  }

  function Pow10(w: nat): nat {
    if w == 0 then 1 else 10 * Pow10(w - 1)
  }

  /** Exactly `w` digits, the most significant ones possibly zero. */
  function Fixed(n: nat, w: nat): (s: string)
    ensures |s| == w
  {
    if w == 0 then [] else Fixed(n / 10, w - 1) + [Digit(n % 10)]
  }

  lemma DigitOrder(a: nat, b: nat)
    requires a < 10 && b < 10
    ensures Digit(a) < Digit(b) <==> a < b
  {
  }

  /** For strings of equal length only the last characters remain to compare. */
  lemma {:induction false} LessAppend(a: string, b: string, c: char, d: char)
    requires |a| == |b|
    ensures Less(a + [c], b + [d]) <==> Less(a, b) || (a == b && c < d)
  {
    if a != [] {
      assert (a + [c])[1..] == a[1..] + [c] && (b + [d])[1..] == b[1..] + [d];
      LessAppend(a[1..], b[1..], c, d);
      assert a == [a[0]] + a[1..] && b == [b[0]] + b[1..];
    }
  }

  lemma {:induction false} FixedInjective(a: nat, b: nat, w: nat)
    requires a < Pow10(w) && b < Pow10(w)
    ensures Fixed(a, w) == Fixed(b, w) ==> a == b
  {
    if w > 0 && Fixed(a, w) == Fixed(b, w) {
      assert Fixed(a, w)[..w - 1] == Fixed(a / 10, w - 1) && Fixed(b, w)[..w - 1] == Fixed(b / 10, w - 1);
      assert Fixed(a, w)[w - 1] == Digit(a % 10) && Fixed(b, w)[w - 1] == Digit(b % 10);
      FixedInjective(a / 10, b / 10, w - 1);
      DigitOrder(a % 10, b % 10);
      DigitOrder(b % 10, a % 10);
    }
  }

  /** Fixed-width decimal strings sort like the numbers. */
  lemma {:induction false} FixedOrder(a: nat, b: nat, w: nat)
    requires a < Pow10(w) && b < Pow10(w)
    ensures Less(Fixed(a, w), Fixed(b, w)) <==> a < b
  {
    if w > 0 {
      FixedOrder(a / 10, b / 10, w - 1);
      FixedInjective(a / 10, b / 10, w - 1);
      DigitOrder(a % 10, b % 10);
      LessAppend(Fixed(a / 10, w - 1), Fixed(b / 10, w - 1), Digit(a % 10), Digit(b % 10));
    }
  }

  lemma {:induction false} DecimalIsFixed(n: nat, w: nat)
    requires 0 < w && n < Pow10(w)
    ensures |Decimal(n)| <= w && Fixed(n, w) == Zeros(w - |Decimal(n)|) + Decimal(n)
  {
    assert Pow10(1) == 10 * Pow10(0);
    if n < 10 {
      FixedZero(w - 1);
      assert n / 10 == 0 && n % 10 == n;
    } else {
      DecimalIsFixed(n / 10, w - 1);
      var zeros, front, last := Zeros(w - |Decimal(n)|), Decimal(n / 10), [Digit(n % 10)];
      assert (zeros + front) + last == zeros + (front + last);
    }
  }

  lemma {:induction false} FixedZero(w: nat)
    ensures Fixed(0, w) == Zeros(w)
  {
    if w > 0 {
      FixedZero(w - 1);
      ZerosEnd(w - 1);
    }
  }

  lemma {:induction false} ZerosEnd(w: nat)
    ensures Zeros(w) + ['0'] == ['0'] + Zeros(w)
  {
    if w > 0 { ZerosEnd(w - 1); }
  }

  // ----- Reading names back -----

  predicate IsDigits(s: string) {
    forall i :: 0 <= i < |s| ==> '0' <= s[i] <= '9'
  }

  /** The number that decimal digits stand for. */
  function NumberOf(s: string): nat
    requires IsDigits(s)
  {
    if s == [] then 0 else 10 * NumberOf(s[..|s| - 1]) + (s[|s| - 1] as int - '0' as int)
  }

  lemma {:induction false} DecimalReads(n: nat)
    ensures IsDigits(Decimal(n)) && NumberOf(Decimal(n)) == n
    ensures |Decimal(n)| > 1 ==> Decimal(n)[0] != '0'
  {
    var s := Decimal(n);
    if n < 10 {
      assert s[..0] == [];
    } else {
      DecimalReads(n / 10);
      assert s[..|s| - 1] == Decimal(n / 10);
      assert s[0] == Decimal(n / 10)[0];
      FirstOfDecimal(n / 10);
    }
  }

  lemma {:induction false} FirstOfDecimal(n: nat)
    requires n > 0
    ensures Decimal(n)[0] != '0'
  {
    if n >= 10 { FirstOfDecimal(n / 10); }
  }

  lemma {:induction false} PaddingReads(zeros: nat, digits: string)
    requires IsDigits(digits)
    ensures IsDigits(Zeros(zeros) + digits) && NumberOf(Zeros(zeros) + digits) == NumberOf(digits)
    decreases |digits|
  {
    var s := Zeros(zeros) + digits;
    ZerosRead(zeros);
    if digits == [] {
      assert s == Zeros(zeros);
    } else {
      var n := |digits| - 1;
      PaddingReads(zeros, digits[..n]);
      assert s[..|s| - 1] == Zeros(zeros) + digits[..n];
    }
  }

  lemma {:induction false} ZerosRead(n: nat)
    ensures IsDigits(Zeros(n)) && NumberOf(Zeros(n)) == 0
  {
    if n > 0 {
      ZerosRead(n - 1);
      ZerosEnd(n - 1);
      assert Zeros(n) == Zeros(n - 1) + ['0'];
      assert Zeros(n)[..n - 1] == Zeros(n - 1);
    }
  }

  /** A name is the sign of a negative number, and digits of that number; `%d` pads with nothing. */
  lemma ItoaReads(n: int)
    ensures
      var name, size := Itoa(n), if n < 0 then -n else n;
      var digits := if n < 0 then name[1..] else name;
      && (n < 0 ==> name[0] == '-') && digits != [] && IsDigits(digits) && NumberOf(digits) == size
      && (|digits| > 1 ==> digits[0] != '0')
  {
    ItoaParts(n);
    DecimalReads(if n < 0 then -n else n);
  }

  /** `%06d` pads with zeros behind the sign up to six characters, and no further. */
  lemma ChunkNameReads(n: int)
    ensures
      var name, size := ChunkName(n), if n < 0 then -n else n;
      var digits := if n < 0 then name[1..] else name;
      && |name| >= 6 && (n < 0 ==> name[0] == '-') && IsDigits(digits) && NumberOf(digits) == size
      && (|name| > 6 ==> digits[0] != '0')
  {
    var size := if n < 0 then -n else n;
    var zeros := PadOf(|Decimal(size)| + if n < 0 then 1 else 0);
    DecimalReads(size);
    PaddingReads(zeros, Decimal(size));
    ChunkNameParts(n);
  }

  function PadOf(width: nat): nat {
    if width < 6 then 6 - width else 0
  }

  lemma ChunkNameParts(n: int)
    ensures
      var name, plain := ChunkName(n), Decimal(if n < 0 then -n else n);
      var zeros := PadOf(|plain| + if n < 0 then 1 else 0);
      && |name| == (if n < 0 then 1 else 0) + zeros + |plain|
      && (n < 0 ==> name[0] == '-')
      && (if n < 0 then name[1..] else name) == Zeros(zeros) + plain
      && (zeros == 0 ==> Zeros(zeros) + plain == plain)
  {
  }

  const LIMIT := 1_000_000

  lemma SixDigits()
    ensures Pow10(6) == LIMIT
  {
    assert Pow10(3) == 10 * Pow10(2) == 100 * Pow10(1) == 1000 * Pow10(0);
    assert Pow10(6) == 10 * Pow10(5) == 100 * Pow10(4) == 1000 * Pow10(3);
  }

  lemma NamePads(n: nat)
    ensures |Decimal(n)| <= 6 ==> ChunkName(n) == Zeros(6 - |Decimal(n)|) + Decimal(n)
    ensures |Decimal(n)| >= 6 ==> ChunkName(n) == Decimal(n)
  {
    var digits := Decimal(n);
    var zeros := Zeros(if |digits| < 6 then 6 - |digits| else 0);
    assert ChunkName(n) == "" + zeros + digits;
    assert "" + zeros + digits == zeros + digits;
    if |digits| >= 6 {
      assert zeros == [];
      assert zeros + digits == digits;
    }
  }

  lemma NameIsFixed(n: int)
    requires 0 <= n < LIMIT
    ensures ChunkName(n) == Fixed(n, 6)
  {
    SixDigits();
    DecimalIsFixed(n, 6);
    NamePads(n);
  }

  /** Chunk names sort as the chunk numbers do, from 0 up to 999999. */
  lemma NameOrder(a: int, b: int)
    requires 0 <= a < LIMIT && 0 <= b < LIMIT
    ensures Less(ChunkName(a), ChunkName(b)) <==> a < b
  {
    SixDigits();
    NameIsFixed(a);
    NameIsFixed(b);
    FixedOrder(a, b, 6);
  }

  /** The bound is tight: the first seven-digit name sorts before the last six-digit one. */
  lemma NameOrderEnds(n: nat)
    requires n == LIMIT
    ensures Less(ChunkName(n), ChunkName(n - 1))
  {
    SixDigits();
    NameIsFixed(n - 1);
    FirstDigit(n - 1, 6);
    DecimalOfPower(6);
    NamePads(n);
  }

  lemma {:induction false} DecimalOfPower(w: nat)
    ensures |Decimal(Pow10(w))| == w + 1 && Decimal(Pow10(w))[0] == '1'
  {
    if w > 0 {
      DecimalOfPower(w - 1);
      assert Pow10(w) / 10 == Pow10(w - 1) && Pow10(w) % 10 == 0;
      assert Pow10(w) >= 10 by { PowPositive(w - 1); }
    }
  }

  lemma {:induction false} PowPositive(w: nat)
    ensures Pow10(w) >= 1
  {
    if w > 0 { PowPositive(w - 1); }
  }

  lemma {:induction false} FirstDigit(n: nat, w: nat)
    requires 0 < w && n == Pow10(w) - 1
    ensures Fixed(n, w)[0] == '9'
  {
    if w > 1 {
      assert n / 10 == Pow10(w - 1) - 1;
      FirstDigit(n / 10, w - 1);
    } else {
      assert Pow10(1) == 10 * Pow10(0);
      assert Fixed(n, 1) == Fixed(n / 10, 0) + [Digit(9)];
    }
  }

  // ----- Unpadded names -----

  lemma {:induction false} BelowPower(n: nat)
    ensures n < Pow10(n)
  {
    if n > 0 { BelowPower(n - 1); }
  }

  lemma {:induction false} PowerGrows(a: nat, b: nat)
    requires a <= b
    ensures Pow10(a) <= Pow10(b)
    decreases b
  {
    if a < b { PowerGrows(a, b - 1); }
  }

  lemma DecimalInjective(a: nat, b: nat)
    ensures Decimal(a) == Decimal(b) ==> a == b
  {
    var w := a + b + 1;
    BelowPower(a);
    BelowPower(b);
    PowerGrows(a, w);
    PowerGrows(b, w);
    DecimalInjectiveUpTo(a, b, w);
  }

  lemma DecimalInjectiveUpTo(a: nat, b: nat, w: nat)
    requires 0 < w && a < Pow10(w) && b < Pow10(w)
    ensures Decimal(a) == Decimal(b) ==> a == b
  {
    DecimalIsFixed(a, w);
    DecimalIsFixed(b, w);
    FixedInjective(a, b, w);
  }

  lemma {:induction false} DecimalHasNoSign(n: nat)
    ensures Decimal(n)[0] != '-'
  {
    if n >= 10 { DecimalHasNoSign(n / 10); }
  }

  /** Different integers have different decimal forms. */
  lemma ItoaInjective(a: int, b: int)
    ensures Itoa(a) == Itoa(b) ==> a == b
  {
    ItoaParts(a);
    ItoaParts(b);
    if Itoa(a) == Itoa(b) {
      assert a < 0 <==> b < 0;
      DecimalInjective(if a < 0 then -a else a, if b < 0 then -b else b);
    }
  }

  lemma ItoaParts(n: int)
    ensures n < 0 <==> Itoa(n)[0] == '-'
    ensures Decimal(if n < 0 then -n else n) == if n < 0 then Itoa(n)[1..] else Itoa(n)
  {
    if n < 0 {
      assert Itoa(n)[1..] == Decimal(-n);
    } else {
      DecimalHasNoSign(n);
    }
  }

  /** Without padding, names do not sort as numbers: ten comes before two. */
  lemma TenBeforeTwo()
    ensures Less(Itoa(10), Itoa(2))
  {
    assert Itoa(10) == Decimal(1) + ['0'];
  }
}
