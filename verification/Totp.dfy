/**
 Time-based one-time passwords: the message that is authenticated, the truncation of the
 authentication code (section 5.3 of RFC 4226), and the time window (section 5.2 of RFC 6238).
 */
module Totp {
  import opened Wrappers
  import opened Bytes

  const WORD := 0x1_0000_0000_0000_0000
  const STEP := 30
  const SPACE := 32 + 128 + 128 + 8

  /** HMAC-SHA-256 of a message under a secret; any function to 32 bytes will do. */
  type Mac = (ByteString, ByteString) -> ByteString

  ghost predicate IsMac(mac: Mac) {
    forall secret, message :: |mac(secret, message)| == 32
  }

  /** The value of bytes read most significant first. */
  function BigEndian(bs: ByteString): nat {
    if bs == [] then 0 else 256 * BigEndian(bs[..|bs| - 1]) + bs[|bs| - 1] as nat
  }

  function PutBigEndian(v: nat, width: nat): (bs: ByteString)
    ensures |bs| == width
  {
    if width == 0 then [] else PutBigEndian(v / 256, width - 1) + [(v % 256) as byte]
  }

  function Pow256(w: nat): nat {
    if w == 0 then 1 else 256 * Pow256(w - 1)
  }

  lemma {:induction false} BigEndianRoundTrip(v: nat, width: nat)
    requires v < Pow256(width)
    ensures BigEndian(PutBigEndian(v, width)) == v
  {
    if width > 0 {
      BigEndianRoundTrip(v / 256, width - 1);
      assert PutBigEndian(v, width)[..width - 1] == PutBigEndian(v / 256, width - 1);
    }
  }

  lemma FourBytes(bs: ByteString)
    requires |bs| == 4
    ensures BigEndian(bs)
            == bs[0] as int * 0x100_0000 + bs[1] as int * 0x1_0000 + bs[2] as int * 0x100 + bs[3] as int
  {
    assert bs[..3][..2] == bs[..2] && bs[..2][..1] == bs[..1] && bs[..1][..0] == [];
    assert BigEndian(bs[..1]) == 256 * BigEndian([]) + bs[0] as nat;
    assert BigEndian(bs[..2]) == 256 * BigEndian(bs[..1]) + bs[1] as nat;
    assert BigEndian(bs[..3]) == 256 * BigEndian(bs[..2]) + bs[2] as nat;
  }

  lemma EightBytes(bs: ByteString)
    requires |bs| == 8
    ensures BigEndian(bs) == 0x1_0000_0000 * BigEndian(bs[..4]) + BigEndian(bs[4..])
  {
    assert bs[..7][..6] == bs[..6] && bs[..6][..5] == bs[..5] && bs[..5][..4] == bs[..4];
    assert BigEndian(bs[..5]) == 256 * BigEndian(bs[..4]) + bs[4] as nat;
    assert BigEndian(bs[..6]) == 256 * BigEndian(bs[..5]) + bs[5] as nat;
    assert BigEndian(bs[..7]) == 256 * BigEndian(bs[..6]) + bs[6] as nat;
    FourBytes(bs[4..]);
  }

  /** The eight counter bytes, most significant first, determine the counter. */
  lemma CounterBytes(counter: nat)
    requires counter < 0x1_0000_0000_0000_0000
    ensures
      var bs := PutBigEndian(counter, 8);
      counter == bs[0] as int * 0x100_0000_0000_0000 + bs[1] as int * 0x1_0000_0000_0000
                 + bs[2] as int * 0x100_0000_0000 + bs[3] as int * 0x1_0000_0000
                 + bs[4] as int * 0x100_0000 + bs[5] as int * 0x1_0000 + bs[6] as int * 0x100 + bs[7] as int
  {
    var bs := PutBigEndian(counter, 8);
    CounterReadBack(counter);
    EightBytes(bs);
    FourBytes(bs[..4]);
    FourBytes(bs[4..]);
  }

  lemma CounterReadBack(counter: nat)
    requires counter < WORD
    ensures BigEndian(PutBigEndian(counter, 8)) == counter
  {
    assert Pow256(8) == 256 * Pow256(7) == 65536 * Pow256(6) == 16777216 * Pow256(5);
    assert Pow256(5) == 256 * Pow256(4) == 65536 * Pow256(3) == 16777216 * Pow256(2);
    assert Pow256(2) == 256 * Pow256(1) == 65536 * Pow256(0) == 65536;
    BigEndianRoundTrip(counter, 8);
  }

  /** Go's `copy`: as much as fits. Returns the number of bytes copied. */
  method CopyInto(buf: array<byte>, at: nat, src: ByteString) returns (n: nat)
    requires at <= buf.Length
    modifies buf
    ensures n == if |src| <= buf.Length - at then |src| else buf.Length - at
    ensures buf[..at + n] == old(buf[..at]) + src[..n]
    ensures buf[at + n..] == old(buf[at + n..])
  {
    n := if |src| <= buf.Length - at then |src| else buf.Length - at;
    var i := 0;
    while i < n
      invariant i <= n
      invariant buf[..at + i] == old(buf[..at]) + src[..i]
      invariant buf[at + i..] == old(buf[at + i..])
    {
      buf[at + i] := src[i];
      i := i + 1;
    }
  }

  function Identity(pubKey: ByteString, userId: ByteString, appId: ByteString): ByteString {
    pubKey + userId + appId
  }

  /** The identity parts one after the other; what does not fit is cut off. */
  method CopyParts(buf: array<byte>, pubKey: ByteString, userId: ByteString, appId: ByteString) returns (n: nat)
    modifies buf
    ensures
      var identity := Identity(pubKey, userId, appId);
      if |identity| <= buf.Length then n == |identity| && buf[..n] == identity else n == buf.Length
  {
    n := CopyInto(buf, 0, pubKey);
    assert buf[..n] == pubKey[..n];
    var m := CopyInto(buf, n, userId);
    n := n + m;
    m := CopyInto(buf, n, appId);
    n := n + m;
    assert |Identity(pubKey, userId, appId)| <= buf.Length ==> buf[..n] == Identity(pubKey, userId, appId);
  }

  /** Dynamic truncation to a six-digit code. */
  function Truncate(hash: ByteString): (code: nat)
    requires |hash| == 32
    ensures code < 1_000_000
  {
    var offset := hash[31] as int % 16;
    (BigEndian(hash[offset..offset + 4]) % 0x8000_0000) % 1_000_000
  }

  /**
   The code is the last six decimal digits of the four bytes at the offset that the low half of
   byte 31 gives, most significant first and without their top bit.
   */
  lemma TruncateReads(hash: ByteString)
    requires |hash| == 32
    ensures
      var o := hash[31] as int % 16;
      Truncate(hash)
      == ((hash[o] as int % 128) * 0x100_0000 + hash[o + 1] as int * 0x1_0000 + hash[o + 2] as int * 0x100
          + hash[o + 3] as int) % 1_000_000
  {
    var o := hash[31] as int % 16;
    FourBytes(hash[o..o + 4]);
    var rest := hash[o + 1] as int * 0x1_0000 + hash[o + 2] as int * 0x100 + hash[o + 3] as int;
    TopBit(hash[o] as int, rest);
  }

  lemma TopBit(first: int, rest: int)
    requires 0 <= first < 256 && 0 <= rest < 0x100_0000
    ensures (first * 0x100_0000 + rest) % 0x8000_0000 == (first % 128) * 0x100_0000 + rest
  {
  }

  function Code(mac: Mac, secret: ByteString, identity: ByteString, counter: nat): nat
    requires |mac(secret, identity + PutBigEndian(counter, 8))| == 32
  {
    Truncate(mac(secret, identity + PutBigEndian(counter, 8)))
  }

  /**
   The code for a timestamp. The message is exactly the identity parts and the big-endian
   counter; if the parts leave less than eight bytes for the counter the write panics.
   */
  method GenerateAtTime(mac: Mac, secret: ByteString, pubKey: ByteString, userId: ByteString, appId: ByteString,
                        timestamp: nat)
    returns (code: Result<nat>)
    requires IsMac(mac) && timestamp < WORD
    ensures
      var identity := Identity(pubKey, userId, appId);
      code == if |identity| <= SPACE - 8 then Ok(Code(mac, secret, identity, timestamp / STEP))
              else Err("index out of range")
    ensures
      |pubKey| + |userId| + |appId| <= 288 ==>
        code == Ok(Truncate(mac(secret, pubKey + userId + appId + PutBigEndian(timestamp / 30, 8))))
    ensures |pubKey| + |userId| + |appId| > 288 ==> code.Err?
  {
    var counter := timestamp / STEP;
    var buf := new byte[SPACE](_ => 0);
    var n := CopyParts(buf, pubKey, userId, appId);
    if buf.Length - n < 8 {
      return Err("index out of range");
    }
    var m := CopyInto(buf, n, PutBigEndian(counter, 8));
    assert PutBigEndian(counter, 8)[..m] == PutBigEndian(counter, 8);
    var hash := mac(secret, buf[..n + 8]);
    code := Ok(Truncate(hash));
  }

  /** `now + uint64(i*30)`: the offset is converted to 64 bits before it is added. */
  function Shifted(now: nat, i: int): nat {
    (now + (i * STEP) % WORD) % WORD
  }

  ghost predicate AcceptedAt(mac: Mac, secret: ByteString, identity: ByteString, now: nat, i: int, code: nat)
    requires IsMac(mac)
  {
    Code(mac, secret, identity, Shifted(now, i) / STEP) == code
  }

  /** Tries the offsets -1, 0 and 1. */
  method Verify(mac: Mac, secret: ByteString, pubKey: ByteString, userId: ByteString, appId: ByteString, now: nat,
                code: nat)
    returns (ok: Result<bool>)
    requires IsMac(mac) && now < WORD
    ensures |Identity(pubKey, userId, appId)| > SPACE - 8 ==> ok.Err?
    ensures
      var identity := Identity(pubKey, userId, appId);
      |identity| <= SPACE - 8 ==>
        ok.Ok? && (ok.value <==> exists i :: -1 <= i <= 1 && AcceptedAt(mac, secret, identity, now, i, code))
  {
    ghost var identity := Identity(pubKey, userId, appId);
    var i := -1;
    while i <= 1
      invariant -1 <= i <= 2
      invariant i > -1 ==> |identity| <= SPACE - 8
      invariant |identity| <= SPACE - 8 ==>
                  forall j :: -1 <= j < i ==> !AcceptedAt(mac, secret, identity, now, j, code)
    {
      var ts := Shifted(now, i);
      var generated := GenerateAtTime(mac, secret, pubKey, userId, appId, ts);
      if generated.Err? {
        return Err(generated.message);
      }
      if generated.value == code {
        assert AcceptedAt(mac, secret, identity, now, i, code);
        return Ok(true);
      }
      i := i + 1;
    }
    return Ok(false);
  }

  /** Away from the ends of the 64-bit range the offsets hit the three steps around now. */
  lemma WindowSteps(now: nat)
    requires STEP <= now && now + STEP < WORD
    ensures Shifted(now, -1) / STEP == now / STEP - 1
    ensures Shifted(now, 0) / STEP == now / STEP
    ensures Shifted(now, 1) / STEP == now / STEP + 1
  {
    assert (-1 * STEP) % WORD == WORD - STEP;
    assert Shifted(now, -1) == now - STEP;
  }

  /**
   A code generated at `t` is accepted at every `now` whose step differs from that of `t`
   by at most one.
   */
  lemma AcceptedInWindow(mac: Mac, secret: ByteString, identity: ByteString, t: nat, now: nat)
    requires IsMac(mac) && STEP <= now && now + STEP < WORD
    requires -1 <= t / STEP - now / STEP <= 1
    ensures exists i :: -1 <= i <= 1 && AcceptedAt(mac, secret, identity, now, i, Code(mac, secret, identity, t / STEP))
  {
    WindowSteps(now);
    assert AcceptedAt(mac, secret, identity, now, t / STEP - now / STEP, Code(mac, secret, identity, t / STEP));
  }

  /** A code is accepted exactly when it is the code of one of the three steps around now. */
  lemma WindowIsThreeSteps(mac: Mac, secret: ByteString, identity: ByteString, now: nat, code: nat)
    requires IsMac(mac) && 30 <= now < 0x1_0000_0000_0000_0000 - 30
    ensures (exists i :: -1 <= i <= 1 && AcceptedAt(mac, secret, identity, now, i, code))
            <==> exists step: nat :: now / 30 - 1 <= step <= now / 30 + 1 && Code(mac, secret, identity, step) == code
  {
    var c := now / STEP;
    if i :| -1 <= i <= 1 && AcceptedAt(mac, secret, identity, now, i, code) {
      AcceptedIsStep(mac, secret, identity, now, c + i, code);
    }
    if step: nat :| c - 1 <= step <= c + 1 && Code(mac, secret, identity, step) == code {
      AcceptedIsStep(mac, secret, identity, now, step, code);
    }
  }

  lemma AcceptedIsStep(mac: Mac, secret: ByteString, identity: ByteString, now: nat, step: nat, code: nat)
    requires IsMac(mac) && STEP <= now && now + STEP < WORD && -1 <= step - now / STEP <= 1
    ensures AcceptedAt(mac, secret, identity, now, step - now / STEP, code)
            <==> Code(mac, secret, identity, step) == code
  {
    WindowStep(now, step - now / STEP);
  }

  lemma WindowStep(now: nat, i: int)
    requires STEP <= now && now + STEP < WORD && -1 <= i <= 1
    ensures Shifted(now, i) / STEP == now / STEP + i
  {
    WindowSteps(now);
  }

  /** In the first thirty seconds the previous step wraps to the end of the 64-bit range. */
  lemma FirstStepWraps(now: nat)
    requires now < STEP
    ensures Shifted(now, -1) == WORD - STEP + now
  {
    assert (-1 * STEP) % WORD == WORD - STEP;
  }
}
