/**
 UTF-16: Go's utf16.Encode (RFC 2781 section 2.1), its inverse (section 2.2), and the
 little-endian byte order of the units.
 */
module Utf16 {
  import opened Basics
  import opened Utf8

  type unit16 = n: int | 0 <= n < 0x10000

  /** The units of one rune; a surrogate or out-of-range rune becomes U+FFFD. */
  function EncodeUnit(r: int): (us: seq<unit16>)
    ensures 1 <= |us| <= 2
  {
    if 0 <= r < 0xD800 || 0xE000 <= r < 0x10000 then [r]
    else if 0x10000 <= r <= 0x10FFFF then
      [0xD800 + (r - 0x10000) / 0x400, 0xDC00 + (r - 0x10000) % 0x400]
    else [REPLACEMENT]
  }

  function Encode(rs: seq<int>): (us: seq<unit16>) {
    if rs == [] then [] else EncodeUnit(rs[0]) + Encode(rs[1..])
  }

  predicate IsHigh(u: unit16) { 0xD800 <= u < 0xDC00 }

  predicate IsLow(u: unit16) { 0xDC00 <= u < 0xE000 }

  /** Strict decoder: None when a surrogate is unpaired. */
  function Decode(us: seq<unit16>): (rs: Option<seq<int>>) {
    if us == [] then Some([])
    else if IsLow(us[0]) then None
    else if !IsHigh(us[0]) then Prepend(us[0] as int, Decode(us[1..]))
    else if |us| < 2 || !IsLow(us[1]) then None
    else
      var high, low := us[0] as int - 0xD800, us[1] as int - 0xDC00;
      Prepend(0x10000 + high * 0x400 + low, Decode(us[2..]))
  }

  function Prepend<T>(x: T, xs: Option<seq<T>>): Option<seq<T>> {
    match xs
    case Some(v) => Some([x] + v)
    case None => None
  }

  /** The rune itself, or U+FFFD for a surrogate or a number out of range. */
  function Replaced(r: int): (s: int)
    ensures IsScalar(s)
  {
    if 0 <= r < 0xD800 || 0xE000 <= r <= 0x10FFFF then r else 0xFFFD
  }

  lemma {:induction false} DecodeFront(r: int, rest: seq<unit16>)
    ensures Decode(EncodeUnit(r) + rest) == Prepend(Replaced(r), Decode(rest))
  {
    var front := EncodeUnit(r);
    var us := front + rest;
    assert us[|front|..] == rest;
    if 0x10000 <= r <= 0x10FFFF {
      var d := r - 0x10000;
      assert d == d / 0x400 * 0x400 + d % 0x400;
      assert us[0] == 0xD800 + d / 0x400 && us[1] == 0xDC00 + d % 0x400;
    } else {
      assert us[0] == Replaced(r);
    }
  }

  function ReplacedAll(rs: seq<int>): (ss: seq<int>)
    ensures |ss| == |rs| && forall i :: 0 <= i < |rs| ==> ss[i] == Replaced(rs[i])
  {
    if rs == [] then [] else [Replaced(rs[0])] + ReplacedAll(rs[1..])
  }

  lemma {:induction false} DecodeReplaces(rs: seq<int>)
    ensures Decode(Encode(rs)) == Some(ReplacedAll(rs))
  {
    if rs != [] {
      var rest := Encode(rs[1..]);
      assert Decode(rest) == Some(ReplacedAll(rs[1..])) by { DecodeReplaces(rs[1..]); }
      assert Decode(EncodeUnit(rs[0]) + rest) == Prepend(Replaced(rs[0]), Decode(rest)) by { DecodeFront(rs[0], rest); }
    }
  }

  /** For all numbers: decoding gives them back, with U+FFFD for those that are no scalar values. */
  lemma {:induction false} DecodeOfEncode(rs: seq<int>)
    ensures var decoded := Decode(Encode(rs));
            && decoded.Some? && |decoded.value| == |rs|
            && (forall i :: 0 <= i < |rs| ==> decoded.value[i] == if IsScalar(rs[i]) then rs[i] else 0xFFFD)
            && (IsScalars(rs) ==> decoded == Some(rs))
  {
    DecodeReplaces(rs);
    if IsScalars(rs) {
      forall i | 0 <= i < |rs| ensures ReplacedAll(rs)[i] == rs[i] {
        assert rs[i] in rs;
      }
      assert ReplacedAll(rs) == rs;
    }
  }

  function LittleEndian(us: seq<unit16>): (bs: Bytes)
    ensures |bs| == 2 * |us|
  {
    if us == [] then [] else [us[0] % 0x100, us[0] / 0x100] + LittleEndian(us[1..])
  }

  lemma {:induction false} LittleEndianSnoc(us: seq<unit16>, u: unit16)
    ensures LittleEndian(us + [u]) == LittleEndian(us) + [u % 0x100, u / 0x100]
  {
    if us == [] {
      assert us + [u] == [u];
    } else {
      assert (us + [u])[1..] == us[1..] + [u];
      LittleEndianSnoc(us[1..], u);
    }
  }

  /** Pairs bytes back into units; None for an odd number of bytes. */
  function PairUnits(bs: Bytes): (us: Option<seq<unit16>>) {
    if bs == [] then Some([])
    else if |bs| == 1 then None
    else
      var low, high := bs[0] as int, bs[1] as int;
      Prepend((low + 0x100 * high) as unit16, PairUnits(bs[2..]))
  }

  lemma {:induction false} PairOfLittleEndian(us: seq<unit16>)
    ensures PairUnits(LittleEndian(us)) == Some(us)
  {
    if us != [] {
      var bs := LittleEndian(us);
      assert bs[2..] == LittleEndian(us[1..]);
      assert bs[0] == us[0] % 0x100 && bs[1] == us[0] / 0x100;
      assert us == [us[0]] + us[1..];
      PairOfLittleEndian(us[1..]);
    }
  }
}
