/** The padded standard encoding of RFC 4648 section 4, and its strict inverse. */
module Base64 {
  import opened Basics

  type sextet = n: int | 0 <= n < 64

  function Symbol(v: sextet): (c: char) {
    if v < 26 then ('A' as int + v) as char
    else if v < 52 then ('a' as int + (v - 26)) as char
    else if v < 62 then ('0' as int + (v - 52)) as char
    else if v == 62 then '+' else '/'
  }

  function SymbolValue(c: char): (v: Option<sextet>) {
    if 'A' <= c <= 'Z' then Some(c as int - 'A' as int)
    else if 'a' <= c <= 'z' then Some(c as int - 'a' as int + 26)
    else if '0' <= c <= '9' then Some(c as int - '0' as int + 52)
    else if c == '+' then Some(62)
    else if c == '/' then Some(63)
    else None
  }

  lemma {:induction false} SymbolInverse(c: char, v: sextet)
    ensures SymbolValue(c) == Some(v) <==> c == Symbol(v)
  {
  }

  /** Regroups octets into sextets; a final partial group is filled with zero bits. */
  function Sextets(bs: Bytes): (vs: seq<sextet>)
    ensures |vs| == CeilDiv(4 * |bs|, 3)
  {
    if |bs| == 0 then []
    else if |bs| == 1 then [bs[0] / 4, bs[0] % 4 * 16]
    else if |bs| == 2 then [bs[0] / 4, bs[0] % 4 * 16 + bs[1] / 16, bs[1] % 16 * 4]
    else [bs[0] / 4, bs[0] % 4 * 16 + bs[1] / 16, bs[1] % 16 * 4 + bs[2] / 64, bs[2] % 64] + Sextets(bs[3..])
  }

  function First(a: sextet, b: sextet): byte { 4 * a as int + b / 16 }

  function Second(b: sextet, c: sextet): byte { 16 * (b as int % 16) + c / 4 }

  function Third(c: sextet, d: sextet): byte { 64 * (c as int % 4) + d }

  /** Regroups sextets into octets; None if bits are missing or fill bits are not zero (RFC 4648 section 3.5). */
  function Octets(vs: seq<sextet>): (bs: Option<Bytes>) {
    if |vs| == 0 then Some([])
    else if |vs| == 1 then None
    else if |vs| == 2 then
      if vs[1] % 16 == 0 then Some([First(vs[0], vs[1])]) else None
    else if |vs| == 3 then
      if vs[2] % 4 == 0 then Some([First(vs[0], vs[1]), Second(vs[1], vs[2])]) else None
    else
      match Octets(vs[4..])
      case Some(rest) => Some([First(vs[0], vs[1]), Second(vs[1], vs[2]), Third(vs[2], vs[3])] + rest)
      case None => None
  }

  function Symbols(vs: seq<sextet>): (s: string)
    ensures |s| == |vs|
  {
    seq(|vs|, i requires 0 <= i < |vs| => Symbol(vs[i]))
  }

  function Padding(k: nat): string {
    seq(k, _ => '=')
  }

  function Encode(bs: Bytes): (s: string) {
    Symbols(Sextets(bs)) + Padding((3 - |bs| % 3) % 3)
  }

  predicate AllSymbols(s: string) {
    forall c :: c in s ==> SymbolValue(c).Some?
  }

  function Values(s: string): (vs: seq<sextet>)
    requires AllSymbols(s)
    ensures |vs| == |s|
  {
    seq(|s|, i requires 0 <= i < |s| => SymbolValue(s[i]).value)
  }

  function PadCount(s: string): (k: nat)
    ensures k <= |s|
  {
    if |s| == 0 || s[|s| - 1] != '=' then 0
    else if |s| == 1 || s[|s| - 2] != '=' then 1
    else 2
  }

  /** Refuses anything but whole groups of four, '=' elsewhere than at the end, and nonzero fill bits. */
  function Decode(s: string): (bs: Option<Bytes>) {
    var body := s[..|s| - PadCount(s)];
    if |s| % 4 == 0 && AllSymbols(body) then Octets(Values(body)) else None
  }

  lemma {:induction false} GroupOfBytes(x: byte, y: byte, z: byte)
    ensures First(x / 4, x % 4 * 16 + y / 16) == x
    ensures Second(x % 4 * 16 + y / 16, y % 16 * 4 + z / 64) == y
    ensures Third(y % 16 * 4 + z / 64, z % 64) == z
  {
    assert (x % 4 * 16 + y / 16) / 16 == x % 4 && (x % 4 * 16 + y / 16) % 16 == y / 16;
    assert (y % 16 * 4 + z / 64) / 4 == y % 16 && (y % 16 * 4 + z / 64) % 4 == z / 64;
  }

  lemma {:induction false} GroupOfSextets(a: sextet, b: sextet, c: sextet, d: sextet)
    ensures First(a, b) / 4 == a && First(a, b) % 4 * 16 + Second(b, c) / 16 == b
    ensures Second(b, c) % 16 * 4 + Third(c, d) / 64 == c && Third(c, d) % 64 == d
  {
    assert First(a, b) % 4 == b / 16 && Second(b, c) / 16 == b % 16;
    assert Second(b, c) % 16 == c / 4 && Third(c, d) / 64 == c % 4;
  }

  lemma {:induction false} OctetsOfTail(a: sextet, b: sextet, c: sextet)
    ensures Octets([a, b]) == if b % 16 == 0 then Some([First(a, b)]) else None
    ensures Octets([a, b, c]) == if c % 4 == 0 then Some([First(a, b), Second(b, c)]) else None
  {
  }

  lemma {:induction false} OctetsOfGroup(a: sextet, b: sextet, c: sextet, d: sextet, vs: seq<sextet>)
    ensures Octets([a, b, c, d] + vs) ==
            match Octets(vs)
            case Some(rest) => Some([First(a, b), Second(b, c), Third(c, d)] + rest)
            case None => None
  {
    assert ([a, b, c, d] + vs)[4..] == vs;
  }

  lemma {:induction false} OctetsOfSextets(bs: Bytes)
    ensures Octets(Sextets(bs)) == Some(bs)
  {
    if |bs| == 0 {
    } else if |bs| == 1 {
      OneByte(bs[0]);
      assert bs == [bs[0]];
    } else if |bs| == 2 {
      TwoBytes(bs[0], bs[1]);
      assert bs == [bs[0], bs[1]];
    } else {
      OctetsOfSextets(bs[3..]);
      assert bs == [bs[0], bs[1], bs[2]] + bs[3..];
      SextetsOfGroup(bs[0], bs[1], bs[2], bs[3..]);
      ThreeBytes(bs[0], bs[1], bs[2], Sextets(bs[3..]), bs[3..]);
    }
  }

  lemma {:induction false} OneByte(x: byte)
    ensures Octets([x / 4, x % 4 * 16]) == Some([x])
  {
    assert x % 4 * 16 / 16 == x % 4 && x % 4 * 16 % 16 == 0;
    OctetsOfTail(x / 4, x % 4 * 16, 0);
  }

  lemma {:induction false} TwoBytes(x: byte, y: byte)
    ensures Octets([x / 4, x % 4 * 16 + y / 16, y % 16 * 4]) == Some([x, y])
  {
    GroupOfBytes(x, y, 0);
    OctetsOfTail(x / 4, x % 4 * 16 + y / 16, y % 16 * 4);
  }

  lemma {:induction false} ThreeBytes(x: byte, y: byte, z: byte, vs: seq<sextet>, rest: Bytes)
    requires Octets(vs) == Some(rest)
    ensures Octets([x / 4, x % 4 * 16 + y / 16, y % 16 * 4 + z / 64, z % 64] + vs) == Some([x, y, z] + rest)
  {
    GroupOfBytes(x, y, z);
    OctetsOfGroup(x / 4, x % 4 * 16 + y / 16, y % 16 * 4 + z / 64, z % 64, vs);
  }

  lemma {:induction false} SextetsOfTail(x: byte, y: byte)
    ensures Sextets([x]) == [x / 4, x % 4 * 16]
    ensures Sextets([x, y]) == [x / 4, x % 4 * 16 + y / 16, y % 16 * 4]
  {
  }

  lemma {:induction false} SextetsOfGroup(x: byte, y: byte, z: byte, bs: Bytes)
    ensures Sextets([x, y, z] + bs) == [x / 4, x % 4 * 16 + y / 16, y % 16 * 4 + z / 64, z % 64] + Sextets(bs)
  {
    assert ([x, y, z] + bs)[3..] == bs;
  }

  lemma {:induction false} SextetsOfOctets(vs: seq<sextet>)
    requires Octets(vs).Some?
    ensures Sextets(Octets(vs).value) == vs
  {
    if |vs| == 2 {
      GroupOfSextets(vs[0], vs[1], 0, 0);
      SextetsOfTail(First(vs[0], vs[1]), 0);
      assert vs == [vs[0], vs[1]];
    } else if |vs| == 3 {
      GroupOfSextets(vs[0], vs[1], vs[2], 0);
      SextetsOfTail(First(vs[0], vs[1]), Second(vs[1], vs[2]));
      assert vs == [vs[0], vs[1], vs[2]];
    } else if |vs| >= 4 {
      SextetsOfOctets(vs[4..]);
      FourSextets(vs[0], vs[1], vs[2], vs[3], vs[4..]);
      assert vs == [vs[0], vs[1], vs[2], vs[3]] + vs[4..];
    }
  }

  lemma {:induction false} FourSextets(a: sextet, b: sextet, c: sextet, d: sextet, vs: seq<sextet>)
    requires Octets(vs).Some? && Sextets(Octets(vs).value) == vs
    ensures Sextets([First(a, b), Second(b, c), Third(c, d)] + Octets(vs).value) == [a, b, c, d] + vs
  {
    GroupOfSextets(a, b, c, d);
    SextetsOfGroup(First(a, b), Second(b, c), Third(c, d), Octets(vs).value);
  }

  lemma {:induction false} ValuesOfSymbols(vs: seq<sextet>)
    ensures AllSymbols(Symbols(vs)) && Values(Symbols(vs)) == vs
  {
    forall i | 0 <= i < |vs|
      ensures SymbolValue(Symbols(vs)[i]) == Some(vs[i])
    {
      SymbolInverse(Symbols(vs)[i], vs[i]);
    }
  }

  lemma {:induction false} SymbolsOfValues(s: string)
    requires AllSymbols(s)
    ensures Symbols(Values(s)) == s
  {
    forall i | 0 <= i < |s|
      ensures Symbol(Values(s)[i]) == s[i]
    {
      SymbolInverse(s[i], Values(s)[i]);
    }
  }

  /** Length, and exactly which positions hold '='. */
  lemma {:induction false} EncodeShape(bs: Bytes)
    ensures |Encode(bs)| == 4 * CeilDiv(|bs|, 3)
    ensures forall i :: 0 <= i < |Encode(bs)| ==>
                          (Encode(bs)[i] == '=' <==> i >= |Encode(bs)| - (3 - |bs| % 3) % 3)
  {
    var vs := Sextets(bs);
    PadToGroup(|bs|);
    forall i | 0 <= i < |vs|
      ensures Symbols(vs)[i] != '='
    {
      SymbolInverse('=', vs[i]);
    }
  }

  lemma {:induction false} DecodeOfParts(vs: seq<sextet>, k: nat)
    requires k < 3 && (|vs| + k) % 4 == 0
    ensures Decode(Symbols(vs) + Padding(k)) == Octets(vs)
  {
    var s := Symbols(vs) + Padding(k);
    ValuesOfSymbols(vs);
    forall i | 0 <= i < |vs|
      ensures s[i] != '='
    {
      SymbolInverse('=', vs[i]);
    }
    assert PadCount(s) == k;
    assert s[..|s| - k] == Symbols(vs);
  }

  lemma {:induction false} DecodeOfEncode(bs: Bytes)
    ensures Decode(Encode(bs)) == Some(bs)
  {
    PadToGroup(|bs|);
    DecodeOfParts(Sextets(bs), (3 - |bs| % 3) % 3);
    OctetsOfSextets(bs);
  }

  lemma {:induction false} DivideBy3(a: nat, q: nat, r: nat)
    requires a == 3 * q + r && r < 3
    ensures a / 3 == q && a % 3 == r
  {
  }

  /** The two ways to count the padding agree. */
  lemma {:induction false} PadToGroup(n: nat)
    ensures CeilDiv(4 * n, 3) + (3 - n % 3) % 3 == 4 * CeilDiv(n, 3)
  {
    var q, r := n / 3, n % 3;
    if r == 0 {
      DivideBy3(4 * n + 2, 4 * q, 2);
      DivideBy3(n + 2, q, 2);
    } else if r == 1 {
      DivideBy3(4 * n + 2, 4 * q + 2, 0);
      DivideBy3(n + 2, q + 1, 0);
    } else {
      DivideBy3(4 * n + 2, 4 * q + 3, 1);
      DivideBy3(n + 2, q + 1, 1);
    }
  }

  lemma {:induction false} PadFromLength(n: nat, sextets: nat, pad: nat)
    requires sextets == CeilDiv(4 * n, 3) && pad < 3 && (sextets + pad) % 4 == 0
    ensures pad == (3 - n % 3) % 3
  {
    PadToGroup(n);
    var m := 4 * CeilDiv(n, 3) - (3 - n % 3) % 3;
    assert (m + (3 - n % 3) % 3) % 4 == 0;
  }

  lemma {:induction false} PadFacts(s: string)
    ensures PadCount(s) < 3
    ensures forall i :: |s| - PadCount(s) <= i < |s| ==> s[i] == '='
  {
  }

  lemma {:induction false} CanonicalParts(s: string, vs: seq<sextet>, k: nat, bs: Bytes)
    requires k < 3 && k <= |s| && |s| % 4 == 0 && Symbols(vs) == s[..|s| - k] && Sextets(bs) == vs
    requires forall i :: |s| - k <= i < |s| ==> s[i] == '='
    ensures Encode(bs) == s
  {
    PadFromLength(|bs|, |vs|, k);
    assert s == s[..|s| - k] + Padding(k);
  }

  lemma {:induction false} CanonicalBody(body: string)
    requires AllSymbols(body) && Octets(Values(body)).Some?
    ensures Symbols(Values(body)) == body && Sextets(Octets(Values(body)).value) == Values(body)
  {
    SymbolsOfValues(body);
    SextetsOfOctets(Values(body));
  }

  /** Only one text decodes to given bytes: the one the encoder writes. */
  lemma {:induction false} DecodeIsCanonical(s: string)
    requires Decode(s).Some?
    ensures Encode(Decode(s).value) == s
  {
    var k := PadCount(s);
    var body := s[..|s| - k];
    PadFacts(s);
    CanonicalBody(body);
    CanonicalParts(s, Values(body), k, Octets(Values(body)).value);
  }
}
