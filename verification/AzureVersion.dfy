/**
 lib/stemcell/manifest.rb: Azure.format_version, which packs patch and build numbers of
 "a.b.p-build.c" into the third component of an Azure image version.
 */
module AzureVersion {
  import opened Basics

  // ----- decimal text

  predicate IsDigit(c: char) {
    '0' <= c <= '9'
  }

  predicate AllDigits(s: string) {
    forall i :: 0 <= i < |s| ==> IsDigit(s[i])
  }

  function DigitValue(c: char): nat
    requires IsDigit(c)
  {
    c as int - '0' as int
  }

  function DigitChar(d: nat): (c: char)
    requires d < 10
    ensures IsDigit(c) && DigitValue(c) == d
  {
    (d + '0' as int) as char
  }

  function Pow(base: nat, n: nat): nat {
    if n == 0 then 1 else base * Pow(base, n - 1)
  }

  function Value(s: string, base: nat): nat
    requires AllDigits(s)
  {
    if s == "" then 0 else base * Value(s[..|s| - 1], base) + DigitValue(s[|s| - 1])
  }

  /** %d */
  function Decimal(n: nat): (s: string)
    ensures AllDigits(s) && s != ""
  {
    if n < 10 then [DigitChar(n)] else Decimal(n / 10) + [DigitChar(n % 10)]
  }

  /** %03d */
  function Padded(n: nat): (s: string)
    ensures AllDigits(s)
  {
    var d := Decimal(n);
    if |d| == 1 then "00" + d else if |d| == 2 then "0" + d else d
  }

  // ----- the match

  function DigitRun(s: string): (n: nat)
    ensures n <= |s| && AllDigits(s[..n]) && (n < |s| ==> !IsDigit(s[n]))
  {
    if s == "" || !IsDigit(s[0]) then 0 else 1 + DigitRun(s[1..])
  }

  datatype Parts = Parts(release: string, patch: string, build: string)

  const BUILD := "-build."

  /** \d+, always the whole run, since what follows it in the expression is not a digit. */
  function TakeNumber(s: string): (r: Option<(string, string)>)
    ensures r.Some? ==> AllDigits(r.value.0) && r.value.0 != ""
  {
    if DigitRun(s) == 0 then None else Some((s[..DigitRun(s)], s[DigitRun(s)..]))
  }

  function Skip(s: string, text: string): Option<string> {
    if text <= s then Some(s[|text|..]) else None
  }

  function NumberThen(s: string, text: string): (r: Option<(string, string)>)
    ensures r.Some? ==> AllDigits(r.value.0) && r.value.0 != ""
  {
    match TakeNumber(s)
    case None => None
    case Some(n) =>
      match Skip(n.1, text)
      case None => None
      case Some(rest) => Some((n.0, rest))
  }

  /** p-build.c */
  function PatchAndBuild(s: string): (r: Option<(string, string)>)
    ensures r.Some? ==> AllDigits(r.value.0) && r.value.0 != "" && AllDigits(r.value.1) && r.value.1 != ""
  {
    match NumberThen(s, BUILD)
    case None => None
    case Some(p) =>
      match TakeNumber(p.1)
      case None => None
      case Some(c) => Some((p.0, c.0))
  }

  /** The regular expression at the front of s. */
  function MatchAt(s: string): (m: Option<Parts>)
    ensures m.Some? ==> AllDigits(m.value.patch) && AllDigits(m.value.build)
    ensures m.Some? ==> m.value.patch != "" && m.value.build != ""
  {
    match NumberThen(s, ".")
    case None => None
    case Some(a) =>
      match NumberThen(a.1, ".")
      case None => None
      case Some(b) =>
        match PatchAndBuild(b.1)
        case None => None
        case Some(r) => Some(Parts(a.0 + "." + b.0, r.0, r.1))
  }

  /** The leftmost match. */
  function Match(s: string): (m: Option<Parts>)
    ensures m.Some? ==> AllDigits(m.value.patch) && AllDigits(m.value.build)
    ensures m.Some? ==> m.value.patch != "" && m.value.build != ""
  {
    if MatchAt(s).Some? then MatchAt(s) else if s == "" then None else Match(s[1..])
  }

  /** Ruby's Integer() on digits, which sprintf applies to text: a leading zero makes it octal. */
  function RubyInteger(s: string): Option<nat>
    requires AllDigits(s) && s != ""
  {
    if s[0] != '0' || |s| == 1 then Some(Value(s, 10))
    else if exists i :: 0 <= i < |s| && s[i] > '7' then None
    else Some(Value(s, 8))
  }

  datatype Formatted = Ok(text: string) | NoMatch | NotAnInteger

  function Packed(patch: nat, build: nat): (s: string)
    ensures AllDigits(s)
  {
    Padded(patch) + Padded(build)
  }

  /** format_version; the failures are Ruby's NoMethodError on nil and ArgumentError. */
  function FormatVersion(version: string): Formatted {
    match Match(version)
    case None => NoMatch
    case Some(m) =>
      match (RubyInteger(m.patch), RubyInteger(m.build))
      case (Some(p), Some(c)) => Ok(m.release + "." + Packed(p, c))
      case _ => NotAnInteger
  }

  // ----- what the text means

  lemma {:induction false} DigitRunOf(d: string, rest: string)
    requires AllDigits(d) && (rest == "" || !IsDigit(rest[0]))
    ensures DigitRun(d + rest) == |d|
  {
    if d == "" {
      assert d + rest == rest;
    } else {
      assert (d + rest)[1..] == d[1..] + rest;
      DigitRunOf(d[1..], rest);
    }
  }

  lemma {:induction false} ValueAppend(a: string, b: string)
    requires AllDigits(a) && AllDigits(b)
    ensures AllDigits(a + b) && Value(a + b, 10) == Value(a, 10) * Pow(10, |b|) + Value(b, 10)
  {
    if b == "" {
      assert a + b == a;
    } else {
      var init := b[..|b| - 1];
      assert (a + b)[..|a + b| - 1] == a + init;
      ValueAppend(a, init);
      TimesTen(Value(a, 10), Pow(10, |init|));
    }
  }

  lemma {:induction false} TimesTen(v: nat, p: nat)
    ensures 10 * (v * p) == v * (10 * p)
  {
  }

  lemma {:induction false} ValueOfDecimal(n: nat)
    ensures Value(Decimal(n), 10) == n
  {
    if n >= 10 {
      ValueOfDecimal(n / 10);
      assert Decimal(n)[..|Decimal(n)| - 1] == Decimal(n / 10);
    }
  }

  /** Decimal writes no leading zero, so reading it back is decimal. */
  lemma {:induction false} DecimalStart(n: nat)
    ensures n > 0 ==> Decimal(n)[0] != '0'
    ensures n < 10 <==> |Decimal(n)| == 1
    ensures n < 100 <==> |Decimal(n)| <= 2
    ensures n < 1000 <==> |Decimal(n)| <= 3
  {
    if n >= 10 {
      DecimalStart(n / 10);
    }
  }

  lemma {:induction false} IntegerOfDecimal(n: nat)
    ensures RubyInteger(Decimal(n)) == Some(n)
  {
    DecimalStart(n);
    ValueOfDecimal(n);
  }

  lemma {:induction false} PaddedFacts(n: nat)
    ensures Value(Padded(n), 10) == n
    ensures |Padded(n)| >= 3 && (n < 1000 <==> |Padded(n)| == 3)
    ensures n >= 100 ==> Padded(n) == Decimal(n)
  {
    DecimalStart(n);
    ValueOfDecimal(n);
    var d := Decimal(n);
    if |d| == 1 {
      ValueAppend("00", d);
      assert Value("00", 10) == 0;
    } else if |d| == 2 {
      ValueAppend("0", d);
      assert Value("0", 10) == 0;
    }
  }

  function VersionText(a: string, b: string, patch: string, build: string): string {
    a + ("." + (b + ("." + (patch + ("-build." + build)))))
  }

  predicate IsNumber(s: string) {
    s != "" && AllDigits(s)
  }

  /** Text of the form "a.b.p-build.c" stands at the front of s. */
  ghost predicate BeginsWithVersion(s: string) {
    exists a, b, patch, build ::
      IsNumber(a) && IsNumber(b) && IsNumber(patch) && IsNumber(build) && VersionText(a, b, patch, build) <= s
  }

  /** The last number is taken as long as it is. */
  lemma {:induction false} LastNumbers(patch: string, build: string, rest: string)
    requires IsNumber(patch) && IsNumber(build)
    ensures PatchAndBuild(patch + (BUILD + (build + rest))).Some?
    ensures rest == "" || !IsDigit(rest[0]) ==>
              PatchAndBuild(patch + (BUILD + (build + rest))) == Some((patch, build))
  {
    NumberThenOf(patch, BUILD, build + rest);
    assert IsDigit((build + rest)[0]);
    if rest == "" || !IsDigit(rest[0]) {
      DigitRunOf(build, rest);
      assert (build + rest)[..|build|] == build;
    }
  }

  lemma {:induction false} MatchAtVersion(a: string, b: string, patch: string, build: string, rest: string)
    requires IsNumber(a) && IsNumber(b) && IsNumber(patch) && IsNumber(build)
    ensures MatchAt(VersionText(a, b, patch, build + rest)).Some?
    ensures rest == "" || !IsDigit(rest[0]) ==>
              MatchAt(VersionText(a, b, patch, build + rest)) == Some(Parts(a + "." + b, patch, build))
  {
    var afterB := patch + (BUILD + (build + rest));
    NumberThenOf(a, ".", b + ("." + afterB));
    NumberThenOf(b, ".", afterB);
    LastNumbers(patch, build, rest);
  }

  lemma {:induction false} TextAppend(a: string, b: string, patch: string, build: string, rest: string)
    ensures VersionText(a, b, patch, build) + rest == VersionText(a, b, patch, build + rest)
  {
    AppendInside(patch, BUILD, build, rest);
    AppendInside(b, ".", patch + (BUILD + build), rest);
    AppendInside(a, ".", b + ("." + (patch + (BUILD + build))), rest);
  }

  lemma {:induction false} AppendInside(x: string, dot: string, y: string, rest: string)
    ensures (x + (dot + y)) + rest == x + (dot + (y + rest))
  {
  }

  lemma {:induction false} NumberThenParts(s: string, text: string)
    requires NumberThen(s, text).Some?
    ensures var (d, rest) := NumberThen(s, text).value; IsNumber(d) && s == d + (text + rest)
  {
    var d, tail := s[..DigitRun(s)], s[DigitRun(s)..];
    assert s == d + tail && tail == text + tail[|text|..];
  }

  lemma {:induction false} LastParts(s: string)
    returns (patch: string, tail: string, build: string, rest: string)
    requires PatchAndBuild(s).Some?
    ensures IsNumber(patch) && IsNumber(build) && s == patch + (BUILD + tail) && tail == build + rest
  {
    patch, tail := NumberThen(s, BUILD).value.0, NumberThen(s, BUILD).value.1;
    NumberThenParts(s, BUILD);
    build, rest := TakeNumber(tail).value.0, TakeNumber(tail).value.1;
  }

  lemma {:induction false} MatchAtParts(s: string)
    requires MatchAt(s).Some?
    ensures BeginsWithVersion(s)
  {
    var x := NumberThen(s, ".").value;
    var y := NumberThen(x.1, ".").value;
    NumberThenParts(s, ".");
    NumberThenParts(x.1, ".");
    var patch, tail, build, rest := LastParts(y.1);
    JoinParts(s, x.0, x.1, y.0, y.1, patch, tail, build, rest);
  }

  lemma {:induction false} JoinParts(s: string, a: string, s1: string, b: string, s2: string, patch: string,
                                     s3: string, build: string, s4: string)
    requires IsNumber(a) && IsNumber(b) && IsNumber(patch) && IsNumber(build)
    requires s == a + ("." + s1) && s1 == b + ("." + s2) && s2 == patch + (BUILD + s3) && s3 == build + s4
    ensures BeginsWithVersion(s)
  {
    TextAppend(a, b, patch, build, s4);
    assert VersionText(a, b, patch, build) <= s;
  }

  lemma {:induction false} MatchAtExactly(s: string)
    ensures MatchAt(s).Some? <==> BeginsWithVersion(s)
  {
    forall a, b, patch, build |
      IsNumber(a) && IsNumber(b) && IsNumber(patch) && IsNumber(build) && VersionText(a, b, patch, build) <= s
      ensures MatchAt(s).Some?
    {
      var rest := s[|VersionText(a, b, patch, build)|..];
      TextAppend(a, b, patch, build, rest);
      assert s == VersionText(a, b, patch, build) + rest;
      MatchAtVersion(a, b, patch, build, rest);
    }
    if MatchAt(s).Some? {
      MatchAtParts(s);
    }
  }

  /** Nothing of the form begins before position n. */
  ghost predicate NoneBefore(s: string, n: nat) {
    forall i :: 0 <= i < n && i <= |s| ==> !BeginsWithVersion(s[i..])
  }

  lemma {:induction false} MatchSkips(s: string, n: nat)
    requires n <= |s| && NoneBefore(s, n)
    ensures Match(s) == Match(s[n..])
    decreases |s|
  {
    if n == 0 {
      assert s[0..] == s;
    } else {
      assert s[0..] == s && !BeginsWithVersion(s[0..]);
      MatchAtExactly(s);
      forall i | 0 <= i < n - 1 && i <= |s[1..]| ensures !BeginsWithVersion(s[1..][i..]) {
        assert s[1..][i..] == s[i + 1..];
      }
      MatchSkips(s[1..], n - 1);
      assert s[1..][n - 1..] == s[n..];
    }
  }

  /** The match is the leftmost text of the form "a.b.p-build.c", with all the digits of c, wherever that stands. */
  lemma {:induction false} MatchOfVersion(before: string, a: string, b: string, patch: string, build: string,
                                          rest: string)
    requires IsNumber(a) && IsNumber(b) && IsNumber(patch) && IsNumber(build) && (rest == "" || !IsDigit(rest[0]))
    requires NoneBefore(before + (VersionText(a, b, patch, build) + rest), |before|)
    ensures Match(before + (VersionText(a, b, patch, build) + rest)) == Some(Parts(a + "." + b, patch, build))
  {
    var s := before + (VersionText(a, b, patch, build) + rest);
    MatchSkips(s, |before|);
    assert s[|before|..] == VersionText(a, b, patch, build) + rest;
    TextAppend(a, b, patch, build, rest);
    MatchAtVersion(a, b, patch, build, rest);
  }

  /** There is no match exactly if no such text stands anywhere. */
  lemma {:induction false} NoMatchExactly(s: string)
    ensures FormatVersion(s) == NoMatch <==> NoneBefore(s, |s| + 1)
  {
    if NoneBefore(s, |s| + 1) {
      assert NoneBefore(s, |s|);
      MatchSkips(s, |s|);
      assert s[|s|..] == "" && !BeginsWithVersion(s[|s|..]);
      MatchAtExactly("");
    } else {
      var i :| 0 <= i <= |s| && BeginsWithVersion(s[i..]);
      MatchLater(s, i);
    }
  }

  lemma {:induction false} MatchLater(s: string, i: nat)
    requires i <= |s| && BeginsWithVersion(s[i..])
    ensures Match(s).Some?
    decreases i
  {
    MatchAtExactly(s);
    if i == 0 {
      assert s[0..] == s;
    } else if MatchAt(s).None? {
      assert s[1..][i - 1..] == s[i..];
      MatchLater(s[1..], i - 1);
    }
  }

  /** A version alone. */
  lemma {:induction false} MatchOfText(a: string, b: string, patch: string, build: string)
    requires IsNumber(a) && IsNumber(b) && IsNumber(patch) && IsNumber(build)
    ensures Match(VersionText(a, b, patch, build)) == Some(Parts(a + "." + b, patch, build))
  {
    var s := VersionText(a, b, patch, build);
    assert "" + (s + "") == s;
    MatchOfVersion("", a, b, patch, build, "");
  }

  lemma {:induction false} NumberThenOf(d: string, text: string, rest: string)
    requires AllDigits(d) && d != "" && text != "" && !IsDigit(text[0])
    ensures NumberThen(d + (text + rest), text) == Some((d, rest))
  {
    var s := d + (text + rest);
    DigitRunOf(d, text + rest);
    assert s[..|d|] == d && s[|d|..] == text + rest;
    assert (text + rest)[|text|..] == rest;
  }

  /** Decimal digits for n, with leading zeros exactly up to the third. */
  predicate IsPadded(s: string, n: nat) {
    AllDigits(s) && Value(s, 10) == n && |s| >= 3 && (|s| > 3 ==> s[0] != '0')
  }

  lemma {:induction false} PaddedIs(n: nat)
    ensures IsPadded(Padded(n), n)
  {
    PaddedFacts(n);
    DecimalStart(n);
  }

  /** The packed component is patch and build, each padded to three digits. */
  lemma {:induction false} PackedText(p: nat, c: nat)
    ensures exists u, v :: IsPadded(u, p) && IsPadded(v, c) && Packed(p, c) == u + v
  {
    PaddedIs(p);
    PaddedIs(c);
    assert Packed(p, c) == Padded(p) + Padded(c);
  }

  /** Versions without leading zeros are packed as they read. */
  lemma {:induction false} FormatOfVersion(a: string, b: string, p: nat, c: nat)
    requires IsNumber(a) && IsNumber(b)
    ensures FormatVersion(VersionText(a, b, Decimal(p), Decimal(c))) == Ok(a + "." + b + "." + Packed(p, c))
    ensures exists u, v :: IsPadded(u, p) && IsPadded(v, c) && Packed(p, c) == u + v
  {
    PackedText(p, c);
    MatchOfText(a, b, Decimal(p), Decimal(c));
    IntegerOfDecimal(p);
    IntegerOfDecimal(c);
  }

  /** A build below 1000 takes the last three digits; the patch needs no bound. */
  lemma {:induction false} PackedValue(p: nat, c: nat)
    ensures c < 1000 ==> Value(Packed(p, c), 10) == 1000 * p + c
  {
    PaddedFacts(p);
    PaddedFacts(c);
    ValueAppend(Padded(p), Padded(c));
    assert Pow(10, 3) == 1000;
  }

  /** Numeric order of the third component is the order of (patch, build). */
  lemma {:induction false} PackedOrder(p: nat, c: nat, p': nat, c': nat)
    requires c < 1000 && c' < 1000
    ensures Value(Packed(p, c), 10) < Value(Packed(p', c'), 10) <==> p < p' || (p == p' && c < c')
    ensures Packed(p, c) == Packed(p', c') <==> p == p' && c == c'
  {
    PackedValue(p, c);
    PackedValue(p', c');
  }

  /** Two different versions whose builds stay below the bound share a packed component. */
  ghost predicate Collides(bound: nat) {
    exists p: nat, c: nat, p': nat, c': nat ::
      c < bound && c' < bound && (p, c) != (p', c') && Packed(p, c) == Packed(p', c')
  }

  lemma {:induction false} TightCollision()
    ensures Packed(100, 1000) == "1001000" == Packed(1001, 0)
  {
    assert Decimal(1) == "1" && Decimal(10) == "10" && Decimal(100) == "100" && Decimal(1000) == "1000";
    assert Decimal(1001) == Decimal(100) + "1" == "1001";
    assert Decimal(0) == "0";
    assert Padded(100) == "100" && Padded(1000) == "1000" && Padded(1001) == "1001" && Padded(0) == "000";
  }

  /** Packing is injective on the builds below a bound exactly when the bound is at most 1000. */
  lemma {:induction false} InjectiveExactlyBelow1000(bound: nat)
    ensures !Collides(bound) <==> bound <= 1000
  {
    if bound > 1000 {
      TightCollision();
      assert Packed(100, 1000) == Packed(1001, 0);
    } else {
      forall p: nat, c: nat, p': nat, c': nat | c < bound && c' < bound && Packed(p, c) == Packed(p', c')
        ensures (p, c) == (p', c')
      {
        PackedOrder(p, c, p', c');
      }
    }
  }

  // ----- leading zeros

  predicate AllZeros(s: string) {
    forall i :: 0 <= i < |s| ==> s[i] == '0'
  }

  /** No leading zero, or zeros and one digit below 8: exactly the texts that Integer() reads as decimal. */
  predicate ReadsDecimal(s: string)
    requires s != ""
  {
    s[0] != '0' || (AllZeros(s[..|s| - 1]) && s[|s| - 1] < '8')
  }

  /** A leading zero, and a digit that octal does not have. */
  predicate Refused(s: string)
    requires s != ""
  {
    s[0] == '0' && |s| > 1 && exists i :: 0 <= i < |s| && s[i] > '7'
  }

  lemma {:induction false} ZeroValue(s: string)
    requires AllDigits(s)
    ensures Value(s, 10) == 0 <==> AllZeros(s)
  {
    if s != "" {
      var init := s[..|s| - 1];
      ZeroValue(init);
      assert AllZeros(s) <==> AllZeros(init) && s[|s| - 1] == '0' by {
        assert forall i :: 0 <= i < |init| ==> init[i] == s[i];
      }
    }
  }

  /** Octal reads less than decimal as soon as there is anything but zeros before the last digit. */
  lemma {:induction false} OctalBelowDecimal(s: string)
    requires AllDigits(s)
    ensures Value(s, 8) <= Value(s, 10)
    ensures s != "" ==> (Value(s, 8) == Value(s, 10) <==> AllZeros(s[..|s| - 1]))
  {
    if s != "" {
      var init := s[..|s| - 1];
      OctalBelowDecimal(init);
      ZeroValue(init);
    }
  }

  lemma {:induction false} IntegerIsDecimal(s: string)
    requires AllDigits(s) && s != ""
    ensures RubyInteger(s).None? <==> Refused(s)
    ensures RubyInteger(s) == Some(Value(s, 10)) <==> ReadsDecimal(s)
    ensures RubyInteger(s).Some? ==> RubyInteger(s).value <= Value(s, 10)
  {
    OctalBelowDecimal(s);
    if s[0] == '0' && |s| > 1 && AllZeros(s[..|s| - 1]) {
      assert forall i :: 0 <= i < |s| - 1 ==> s[i] == s[..|s| - 1][i] == '0';
    }
  }

  lemma {:induction false} PowGrows(m: nat, n: nat)
    requires m <= n
    ensures 1 <= Pow(10, m) <= Pow(10, n)
  {
    if m < n {
      PowGrows(m, n - 1);
    } else if m > 0 {
      PowGrows(m - 1, m - 1);
    }
  }

  lemma {:induction false} DecimalGrows(m: nat, n: nat)
    requires m <= n
    ensures |Decimal(m)| <= |Decimal(n)|
  {
    if m >= 10 {
      DecimalGrows(m / 10, n / 10);
    }
  }

  lemma {:induction false} ProductGrows(p: nat, p': nat, b: nat, b': nat)
    requires p <= p' && 1 <= b <= b'
    ensures p * b <= p' * b' && (p < p' ==> p * b < p' * b')
  {
    assert p * b <= p' * b <= p' * b';
    assert p < p' ==> p * b < p' * b;
  }

  /** Smaller numbers pack to smaller text, whatever their lengths. */
  lemma {:induction false} PackedGrows(p: nat, c: nat, p': nat, c': nat)
    requires p <= p' && c <= c'
    ensures Packed(p, c) == Packed(p', c') <==> p == p' && c == c'
  {
    PaddedFacts(p);
    PaddedFacts(c);
    PaddedFacts(p');
    PaddedFacts(c');
    ValueAppend(Padded(p), Padded(c));
    ValueAppend(Padded(p'), Padded(c'));
    DecimalGrows(c, c');
    PowGrows(|Padded(c)|, |Padded(c')|);
    ProductGrows(p, p', Pow(10, |Padded(c)|), Pow(10, |Padded(c')|));
  }

  /**
   For all digits in patch and build: both are packed as decimal numbers exactly when both
   read as decimal, and the version is refused exactly when one of them is.
   */
  lemma {:induction false} LeadingZeros(a: string, b: string, patch: string, build: string)
    requires IsNumber(a) && IsNumber(b) && IsNumber(patch) && IsNumber(build)
    ensures var formatted := FormatVersion(VersionText(a, b, patch, build));
            && (formatted == Ok(a + "." + b + "." + Packed(Value(patch, 10), Value(build, 10)))
                <==> ReadsDecimal(patch) && ReadsDecimal(build))
            && (formatted == NotAnInteger <==> Refused(patch) || Refused(build))
  {
    MatchOfText(a, b, patch, build);
    IntegerIsDecimal(patch);
    IntegerIsDecimal(build);
    var release := a + "." + b + ".";
    if !Refused(patch) && !Refused(build) {
      var p, c := RubyInteger(patch).value, RubyInteger(build).value;
      PackedGrows(p, c, Value(patch, 10), Value(build, 10));
      SameTail(release, Packed(p, c), Packed(Value(patch, 10), Value(build, 10)));
    }
  }

  /** What is not refused is packed as octal with a leading zero, and as decimal without. */
  lemma {:induction false} OctalOrDecimal(a: string, b: string, patch: string, build: string)
    requires IsNumber(a) && IsNumber(b) && IsNumber(patch) && IsNumber(build)
    requires !Refused(patch) && !Refused(build)
    ensures FormatVersion(VersionText(a, b, patch, build)) ==
            Ok(a + "." + b + "." + Packed(Value(patch, if patch[0] == '0' then 8 else 10),
                                          Value(build, if build[0] == '0' then 8 else 10)))
  {
    MatchOfText(a, b, patch, build);
    ReadsInBase(patch);
    ReadsInBase(build);
  }

  lemma {:induction false} ReadsInBase(s: string)
    requires IsNumber(s) && !Refused(s)
    ensures RubyInteger(s) == Some(Value(s, if s[0] == '0' then 8 else 10))
  {
    assert |s| == 1 ==> Value(s[..0], 8) == 0 == Value(s[..0], 10);
  }
}
