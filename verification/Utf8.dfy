/**
 UTF-8 as in RFC 3629, and Go's conversion from bytes to runes, which turns every
 byte that starts no well-formed sequence into one U+FFFD and resumes at the next byte.
 */
module Utf8 {
  import opened Basics

  const REPLACEMENT := 0xFFFD

  predicate IsScalar(r: int) {
    0 <= r < 0xD800 || 0xE000 <= r <= 0x10FFFF
  }

  predicate IsScalars(rs: seq<int>) {
    forall r :: r in rs ==> IsScalar(r)
  }

  predicate IsContinuation(b: byte) {
    0x80 <= b <= 0xBF
  }

  /** RFC 3629 section 4: which second bytes may follow a lead byte of a 3 or 4 byte sequence. */
  predicate SecondFits(lead: byte, second: byte) {
    IsContinuation(second) &&
    (lead == 0xE0 ==> 0xA0 <= second) && (lead == 0xED ==> second <= 0x9F) &&
    (lead == 0xF0 ==> 0x90 <= second) && (lead == 0xF4 ==> second <= 0x8F)
  }

  /** Length of the well-formed sequence at the front of s; 0 if there is none. */
  function FrontLength(s: Bytes): (n: nat)
    ensures n <= |s|
  {
    if s == [] then 0
    else if s[0] < 0x80 then 1
    else if 0xC2 <= s[0] <= 0xDF then
      if |s| >= 2 && IsContinuation(s[1]) then 2 else 0
    else if 0xE0 <= s[0] <= 0xEF then
      if |s| >= 3 && SecondFits(s[0], s[1]) && IsContinuation(s[2]) then 3 else 0
    else if 0xF0 <= s[0] <= 0xF4 then
      if |s| >= 4 && SecondFits(s[0], s[1]) && IsContinuation(s[2]) && IsContinuation(s[3]) then 4 else 0
    else 0
  }

  function FrontRune(s: Bytes): int
    requires s != []
  {
    match FrontLength(s)
    case 1 => s[0]
    case 2 => s[0] % 0x20 * 0x40 + s[1] % 0x40
    case 3 => s[0] % 0x10 * 0x1000 + s[1] % 0x40 * 0x40 + s[2] % 0x40
    case 4 => s[0] % 0x08 * 0x40000 + s[1] % 0x40 * 0x1000 + s[2] % 0x40 * 0x40 + s[3] % 0x40
    case _ => REPLACEMENT
  }

  function FrontWidth(s: Bytes): (w: nat)
    requires s != []
    ensures 1 <= w <= |s|
  {
    if FrontLength(s) == 0 then 1 else FrontLength(s)
  }

  /** Go's []rune(string(s)). */
  function DecodeRunes(s: Bytes): (rs: seq<int>)
    decreases |s|
  {
    if s == [] then [] else [FrontRune(s)] + DecodeRunes(s[FrontWidth(s)..])
  }

  /** RFC 3629 section 3. */
  function EncodeRune(r: int): (e: Bytes)
    requires IsScalar(r)
    ensures 1 <= |e| <= 4
  {
    if r < 0x80 then [r]
    else if r < 0x800 then [0xC0 + r / 0x40, 0x80 + r % 0x40]
    else if r < 0x10000 then [0xE0 + r / 0x1000, 0x80 + r / 0x40 % 0x40, 0x80 + r % 0x40]
    else [0xF0 + r / 0x40000, 0x80 + r / 0x1000 % 0x40, 0x80 + r / 0x40 % 0x40, 0x80 + r % 0x40]
  }

  function EncodeRunes(rs: seq<int>): (s: Bytes)
    requires IsScalars(rs)
  {
    if rs == [] then [] else EncodeRune(rs[0]) + EncodeRunes(rs[1..])
  }

  /** A byte sequence is well-formed iff it is what RFC 3629 writes for some scalar values. */
  ghost predicate IsUtf8(s: Bytes) {
    exists rs :: IsScalars(rs) && EncodeRunes(rs) == s
  }

  lemma {:induction false} FrontOfEncoding(r: int, rest: Bytes)
    requires IsScalar(r)
    ensures FrontLength(EncodeRune(r) + rest) == |EncodeRune(r)|
    ensures FrontRune(EncodeRune(r) + rest) == r
  {
    var e := EncodeRune(r);
    var s := e + rest;
    forall i | 0 <= i < |e| ensures s[i] == e[i] {}
    if r < 0x80 {
    } else if r < 0x800 {
      FrontOfTwo(r, s);
    } else if r < 0x10000 {
      FrontOfThree(r, s);
    } else {
      FrontOfFour(r, s);
    }
  }

  lemma {:induction false} FrontOfTwo(r: int, s: Bytes)
    requires 0x80 <= r < 0x800
    requires |s| >= 2 && s[0] == 0xC0 + r / 0x40 && s[1] == 0x80 + r % 0x40
    ensures FrontLength(s) == 2 && FrontRune(s) == r
  {
  }

  lemma {:induction false} FrontOfThree(r: int, s: Bytes)
    requires IsScalar(r) && 0x800 <= r < 0x10000
    requires |s| >= 3 && s[0] == 0xE0 + r / 0x1000 && s[1] == 0x80 + r / 0x40 % 0x40 && s[2] == 0x80 + r % 0x40
    ensures FrontLength(s) == 3 && FrontRune(s) == r
  {
    var x, y, z := r / 0x1000, r / 0x40 % 0x40, r % 0x40;
    assert r == x * 0x1000 + y * 0x40 + z;
    assert s[0] % 0x10 == x && s[1] % 0x40 == y && s[2] % 0x40 == z;
    assert FrontLength(s) == 3;
  }

  lemma {:induction false} FrontOfFour(r: int, s: Bytes)
    requires 0x10000 <= r <= 0x10FFFF
    requires |s| >= 4 && s[0] == 0xF0 + r / 0x40000 && s[1] == 0x80 + r / 0x1000 % 0x40
    requires s[2] == 0x80 + r / 0x40 % 0x40 && s[3] == 0x80 + r % 0x40
    ensures FrontLength(s) == 4 && FrontRune(s) == r
  {
    var w, x, y, z := r / 0x40000, r / 0x1000 % 0x40, r / 0x40 % 0x40, r % 0x40;
    RadixFour(r);
    assert s[0] % 0x08 == w && s[1] % 0x40 == x && s[2] % 0x40 == y && s[3] % 0x40 == z;
    assert FrontLength(s) == 4;
  }

  lemma {:induction false} RadixFour(r: nat)
    ensures r == r / 0x40000 * 0x40000 + r / 0x1000 % 0x40 * 0x1000 + r / 0x40 % 0x40 * 0x40 + r % 0x40
  {
    assert r / 0x1000 / 0x40 == r / 0x40000;
    assert r / 0x40 / 0x40 == r / 0x1000;
  }

  lemma {:induction false} FrontIsEncoding(s: Bytes)
    requires FrontLength(s) > 0
    ensures IsScalar(FrontRune(s))
    ensures EncodeRune(FrontRune(s)) == s[..FrontLength(s)]
  {
    match FrontLength(s)
    case 1 =>
    case 2 =>
    case 3 => EncodingOfThree(s);
    case 4 => EncodingOfFour(s);
  }

  lemma {:induction false} EncodingOfThree(s: Bytes)
    requires FrontLength(s) == 3
    ensures IsScalar(FrontRune(s))
    ensures EncodeRune(FrontRune(s)) == s[..3]
  {
    var x: int, y: int, z: int := s[0] - 0xE0, s[1] - 0x80, s[2] - 0x80;
    var r := FrontRune(s);
    assert r == x * 0x1000 + y * 0x40 + z;
    RadixThreeUnique(x, y, z);
    assert s[..3] == [s[0], s[1], s[2]];
  }

  lemma {:induction false} RadixThreeUnique(x: nat, y: nat, z: nat)
    requires y < 0x40 && z < 0x40
    ensures var r := x * 0x1000 + y * 0x40 + z;
            r / 0x1000 == x && r / 0x40 % 0x40 == y && r % 0x40 == z
  {
    var r := x * 0x1000 + y * 0x40 + z;
    Divide64(r, x * 0x40 + y, z);
    Divide64(x * 0x40 + y, x, y);
    assert r / 0x1000 == r / 0x40 / 0x40;
  }

  lemma {:induction false} EncodingOfFour(s: Bytes)
    requires FrontLength(s) == 4
    ensures IsScalar(FrontRune(s))
    ensures EncodeRune(FrontRune(s)) == s[..4]
  {
    var w: int, x: int, y: int, z: int := s[0] - 0xF0, s[1] - 0x80, s[2] - 0x80, s[3] - 0x80;
    var r := FrontRune(s);
    assert r == w * 0x40000 + x * 0x1000 + y * 0x40 + z;
    RadixFourUnique(w, x, y, z);
    assert s[..4] == [s[0], s[1], s[2], s[3]];
  }

  lemma {:induction false} Divide64(a: nat, q: nat, r: nat)
    requires a == 0x40 * q + r && r < 0x40
    ensures a / 0x40 == q && a % 0x40 == r
  {
  }

  lemma {:induction false} RadixFourUnique(w: nat, x: nat, y: nat, z: nat)
    requires x < 0x40 && y < 0x40 && z < 0x40
    ensures var r := w * 0x40000 + x * 0x1000 + y * 0x40 + z;
            r / 0x40000 == w && r / 0x1000 % 0x40 == x && r / 0x40 % 0x40 == y && r % 0x40 == z
  {
    var r := w * 0x40000 + x * 0x1000 + y * 0x40 + z;
    var r1 := w * 0x1000 + x * 0x40 + y;
    Divide64(r, r1, z);
    Divide64(r1, w * 0x40 + x, y);
    Divide64(w * 0x40 + x, w, x);
    assert r / 0x1000 == r / 0x40 / 0x40 && r / 0x40000 == r / 0x1000 / 0x40;
  }

  /** Decoding undoes encoding, supplementary planes included. */
  lemma {:induction false} DecodeOfEncode(rs: seq<int>)
    requires IsScalars(rs)
    ensures DecodeRunes(EncodeRunes(rs)) == rs
  {
    if rs != [] {
      var rest := EncodeRunes(rs[1..]);
      FrontOfEncoding(rs[0], rest);
      assert EncodeRunes(rs)[|EncodeRune(rs[0])|..] == rest;
      DecodeOfEncode(rs[1..]);
    }
  }

  lemma {:induction false} DecodedAreScalars(s: Bytes)
    ensures IsScalars(DecodeRunes(s))
    decreases |s|
  {
    if s != [] {
      if FrontLength(s) > 0 { FrontIsEncoding(s); }
      DecodedAreScalars(s[FrontWidth(s)..]);
    }
  }

  /** Re-encoding the decoded runes restores the bytes exactly when the bytes were UTF-8. */
  lemma {:induction false} EncodeOfDecode(s: Bytes)
    ensures IsScalars(DecodeRunes(s))
    ensures IsUtf8(s) <==> EncodeRunes(DecodeRunes(s)) == s
  {
    DecodedAreScalars(s);
    forall rs | IsScalars(rs) && EncodeRunes(rs) == s
      ensures EncodeRunes(DecodeRunes(s)) == s
    {
      DecodeOfEncode(rs);
    }
  }

  // ----- Go's rule, without the decoder

  /** The encoding of some scalar value stands at the front of s. */
  ghost predicate BeginsWithScalar(s: Bytes) {
    exists r :: IsScalar(r) && EncodeRune(r) <= s
  }

  /**
   What []rune(string(s)) is to yield: the scalar value encoded at the front, and the reading of
   what follows its encoding; or, where none is encoded, U+FFFD and the reading from the next byte on.
   */
  ghost predicate IsReading(s: Bytes, rs: seq<int>)
    decreases |s|
  {
    if s == [] then rs == []
    else
      rs != [] &&
      if BeginsWithScalar(s)
      then IsScalar(rs[0]) && EncodeRune(rs[0]) <= s && IsReading(s[|EncodeRune(rs[0])|..], rs[1..])
      else rs[0] == 0xFFFD && IsReading(s[1..], rs[1..])
  }

  /** Only one scalar value is encoded at the front, and it is the decoder's. */
  lemma {:induction false} FrontScalar(s: Bytes, r: int)
    requires IsScalar(r) && EncodeRune(r) <= s
    ensures r == FrontRune(s) && |EncodeRune(r)| == FrontWidth(s) == FrontLength(s)
  {
    assert s == EncodeRune(r) + s[|EncodeRune(r)|..];
    FrontOfEncoding(r, s[|EncodeRune(r)|..]);
  }

  lemma {:induction false} FrontIsRead(s: Bytes)
    requires s != []
    ensures BeginsWithScalar(s) <==> FrontLength(s) > 0
    ensures BeginsWithScalar(s) ==> IsScalar(FrontRune(s)) && EncodeRune(FrontRune(s)) == s[..FrontWidth(s)]
    ensures !BeginsWithScalar(s) ==> FrontRune(s) == 0xFFFD && FrontWidth(s) == 1
  {
    forall r | IsScalar(r) && EncodeRune(r) <= s ensures FrontLength(s) > 0 {
      FrontScalar(s, r);
    }
    if FrontLength(s) > 0 {
      FrontIsEncoding(s);
      assert EncodeRune(FrontRune(s)) <= s;
    }
  }

  /** The decoder's result is the one reading, for all bytes. */
  lemma {:induction false} DecodeIsTheReading(s: Bytes, rs: seq<int>)
    ensures IsReading(s, rs) <==> rs == DecodeRunes(s)
    decreases |s|
  {
    if s != [] {
      var w := FrontWidth(s);
      FrontIsRead(s);
      if rs != [] {
        DecodeIsTheReading(s[w..], rs[1..]);
        assert rs == [rs[0]] + rs[1..];
        if BeginsWithScalar(s) && IsScalar(rs[0]) && EncodeRune(rs[0]) <= s {
          FrontScalar(s, rs[0]);
        }
      }
    }
  }

  lemma {:induction false} FrontStable(a: Bytes, b: Bytes)
    requires a != []
    requires b != [] ==> !IsContinuation(b[0])
    ensures FrontLength(a + b) == FrontLength(a)
    ensures FrontRune(a + b) == FrontRune(a)
  {
    if b == [] {
      assert a + b == a;
    } else {
      assert (a + b)[|a|] == b[0];
    }
  }

  lemma {:induction false} DecodeDistributesFrom(a: Bytes, b: Bytes)
    requires b != [] ==> !IsContinuation(b[0])
    ensures DecodeRunes(a + b) == DecodeRunes(a) + DecodeRunes(b)
    decreases |a|
  {
    if a == [] {
      assert a + b == b;
    } else {
      FrontStable(a, b);
      var w := FrontWidth(a);
      DropOfAppend(a, b, w);
      DecodeDistributesFrom(a[w..], b);
    }
  }

  lemma {:induction false} DropOfAppend(a: Bytes, b: Bytes, w: nat)
    requires w <= |a|
    ensures (a + b)[w..] == a[w..] + b
  {
  }

  /**
   Decoding resynchronises at a boundary, whatever precedes it, exactly when what follows
   does not begin with a continuation byte.
   */
  lemma {:induction false} DecodeDistributes(b: Bytes)
    ensures (forall a: Bytes :: DecodeRunes(a + b) == DecodeRunes(a) + DecodeRunes(b))
       <==> (b == [] || !IsContinuation(b[0]))
  {
    if b == [] || !IsContinuation(b[0]) {
      forall a: Bytes
        ensures DecodeRunes(a + b) == DecodeRunes(a) + DecodeRunes(b)
      {
        DecodeDistributesFrom(a, b);
      }
    } else {
      // A lead byte before b swallows b's first byte.
      var a: Bytes := [0xC2];
      assert (a + b)[1] == b[0];
      assert FrontRune(a + b) == 0x80 + b[0] % 0x40 != REPLACEMENT;
      assert DecodeRunes(a)[0] == REPLACEMENT;
      assert DecodeRunes(a + b)[0] != (DecodeRunes(a) + DecodeRunes(b))[0];
    }
  }
}
