/**
 ci/common-scripts/partner-center.sh: pc_redact_sas, the two sed substitutions that hide
 SAS signatures, on one line of text.
 */
module RedactSas {

  /** The first substitution looks for sig=, the second for sig%3D or sig%3d. */
  datatype Pattern = Plain | Encoded

  const REDACTED := "REDACTED"

  predicate IsStop(c: char) {
    c in {'&', '"', '\\', '\'', ' ', '<'}
  }

  /** Length of the key the pattern finds at the front of s; 0 if there is none. */
  function KeyLength(p: Pattern, s: string): (k: nat)
    ensures k <= |s|
  {
    if p.Plain? then
      if |s| >= 4 && s[0] == 's' && s[1] == 'i' && s[2] == 'g' && s[3] == '=' then 4 else 0
    else
      if |s| >= 6 && s[0] == 's' && s[1] == 'i' && s[2] == 'g' && s[3] == '%' && s[4] == '3'
         && (s[5] == 'D' || s[5] == 'd')
      then 6 else 0
  }

  /**
   Length of what one round of the pattern's repetition matches at the front of s; 0 if
   nothing.  The alternatives exclude each other, so the longest match takes rounds greedily.
   */
  function RoundLength(p: Pattern, s: string): (k: nat)
    ensures k <= |s|
  {
    if s == "" || IsStop(s[0]) then 0
    else if p.Plain? || s[0] != '%' then 1
    else if |s| >= 2 && s[1] != '2' && !IsStop(s[1]) then 2
    else if |s| >= 3 && s[1] == '2' && s[2] != '6' && !IsStop(s[2]) then 3
    else 0
  }

  predicate StopsAt(p: Pattern, s: string) {
    RoundLength(p, s) == 0
  }

  function BodyLength(p: Pattern, s: string): (n: nat)
    ensures n <= |s|
  {
    var k := RoundLength(p, s);
    if k == 0 then 0 else k + BodyLength(p, s[k..])
  }

  lemma {:induction false} BodyStops(p: Pattern, s: string)
    ensures StopsAt(p, s[BodyLength(p, s)..])
  {
    var k := RoundLength(p, s);
    if k > 0 {
      BodyStops(p, s[k..]);
      assert s[k..][BodyLength(p, s[k..])..] == s[BodyLength(p, s)..];
    } else {
      assert s[0..] == s;
    }
  }

  /** s/<key><body>/<key>REDACTED/g */
  function Substitute(p: Pattern, s: string): string
    decreases |s|
  {
    if s == "" then ""
    else
      var k := KeyLength(p, s);
      if k == 0 then [s[0]] + Substitute(p, s[1..])
      else s[..k] + REDACTED + Substitute(p, s[k + BodyLength(p, s[k..])..])
  }

  function PcRedactSas(line: string): string {
    Substitute(Encoded, Substitute(Plain, line))
  }

  /** Every key is followed by REDACTED and then a stop position. */
  predicate Clean(p: Pattern, s: string) {
    forall i :: 0 <= i <= |s| ==> CleanAt(p, s[i..])
  }

  predicate CleanAt(p: Pattern, s: string) {
    var k := KeyLength(p, s);
    k > 0 ==> REDACTED <= s[k..] && StopsAt(p, s[k + |REDACTED|..])
  }

  lemma {:induction false} CleanSuffix(p: Pattern, s: string, k: nat)
    requires Clean(p, s) && k <= |s|
    ensures Clean(p, s[k..])
  {
    forall i | 0 <= i <= |s[k..]|
      ensures CleanAt(p, s[k..][i..])
    {
      assert s[k..][i..] == s[k + i..];
    }
  }

  lemma {:induction false} CleanCons(p: Pattern, s: string)
    requires s != "" && CleanAt(p, s) && Clean(p, s[1..])
    ensures Clean(p, s)
  {
    forall i | 0 <= i <= |s|
      ensures CleanAt(p, s[i..])
    {
      if i == 0 {
        assert s[0..] == s;
      } else {
        assert s[i..] == s[1..][i - 1..];
      }
    }
  }

  predicate NoKeyStart(s: string) {
    's' !in s
  }

  /** Text in which no key can start passes through. */
  lemma {:induction false} PassesThrough(p: Pattern, w: string, u: string)
    requires NoKeyStart(w)
    ensures Substitute(p, w + u) == w + Substitute(p, u)
  {
    if w == "" {
      assert w + u == u;
    } else {
      assert (w + u)[0] == w[0] != 's' && (w + u)[1..] == w[1..] + u;
      PassesThrough(p, w[1..], u);
      assert [w[0]] + (w[1..] + Substitute(p, u)) == w + Substitute(p, u);
    }
  }

  /** A key at the front of the output, its first letter aside, was there in the input. */
  lemma {:induction false} FrontWasThere(p: Pattern, s: string, n: nat)
    requires n <= |Substitute(p, s)| && NoKeyStart(Substitute(p, s)[..n])
    ensures n <= |s| && s[..n] == Substitute(p, s)[..n]
  {
    var t := Substitute(p, s);
    if n > 0 {
      assert t[0] == t[..n][0] != 's';
      assert t[1..] == Substitute(p, s[1..]);
      assert t[1..][..n - 1] == t[..n][1..];
      FrontWasThere(p, s[1..], n - 1);
      assert s[..n] == [s[0]] + s[1..][..n - 1];
      assert t[..n] == [t[0]] + t[1..][..n - 1];
    }
  }

  /** A substitution moves no stop position of either pattern. */
  lemma {:induction false} StopSurvives(p: Pattern, q: Pattern, s: string)
    requires StopsAt(p, s)
    ensures StopsAt(p, Substitute(q, s))
  {
    var n := if s == "" then 0 else if IsStop(s[0]) then 1 else if |s| < 3 then |s| else 3;
    if n == 3 && !(s[0] == '%' && s[1] == '2') {
      n := 2;
    }
    assert s == s[..n] + s[n..];
    PassesThrough(q, s[..n], s[n..]);
    assert |s| == n ==> Substitute(q, s[n..]) == "";
  }

  /** The key a substitution of one pattern leaves in place is not disturbed by what follows it. */
  lemma {:induction false} NoKeyAppears(p: Pattern, q: Pattern, s: string)
    requires s != "" && KeyLength(q, s) == 0 && KeyLength(p, Substitute(q, s)) > 0
    ensures KeyLength(p, s) == KeyLength(p, Substitute(q, s))
    ensures s[..KeyLength(p, s)] == Substitute(q, s)[..KeyLength(p, s)]
  {
    var t := Substitute(q, s);
    var k := KeyLength(p, t);
    assert t[1..] == Substitute(q, s[1..]);
    assert NoKeyStart(t[1..][..k - 1]);
    FrontWasThere(q, s[1..], k - 1);
    assert s[..k] == [s[0]] + s[1..][..k - 1];
    assert t[..k] == [t[0]] + t[1..][..k - 1];
    forall i | 0 <= i < k ensures s[i] == t[i] {
      assert s[i] == s[..k][i] == t[..k][i];
    }
  }

  /** The replacement text holds no key but the one it begins with, and that one is clean if what follows stops. */
  lemma {:induction false} ReplacementIsClean(p: Pattern, q: Pattern, key: string, t: string)
    requires KeyLength(q, key) == |key| > 0
    requires Clean(p, t) && (p == q ==> StopsAt(p, t))
    ensures Clean(p, key + REDACTED + t)
  {
    var head := key + REDACTED;
    forall i | 0 <= i <= |head + t|
      ensures CleanAt(p, (head + t)[i..])
    {
      if i >= |head| {
        assert (head + t)[i..] == t[i - |head|..];
      } else if i == 0 {
        assert (head + t)[0..] == head + t;
        assert (head + t)[|key|..] == REDACTED + t;
        assert (head + t)[|key| + |REDACTED|..] == t;
      } else {
        assert (head + t)[i..][0] == head[i] != 's';
      }
    }
  }

  /** After its own substitution every key is followed by REDACTED and a stop position. */
  lemma {:induction false} SubstituteCleans(p: Pattern, s: string)
    ensures Clean(p, Substitute(p, s))
    decreases |s|
  {
    if s != "" {
      var k := KeyLength(p, s);
      var t := Substitute(p, s);
      if k == 0 {
        SubstituteCleans(p, s[1..]);
        if KeyLength(p, t) > 0 {
          NoKeyAppears(p, p, s);
        }
        assert t[1..] == Substitute(p, s[1..]);
        CleanCons(p, t);
      } else {
        var n := k + BodyLength(p, s[k..]);
        BodyStops(p, s[k..]);
        assert s[k..][n - k..] == s[n..];
        SubstituteCleans(p, s[n..]);
        StopSurvives(p, p, s[n..]);
        ReplacementIsClean(p, p, s[..k], Substitute(p, s[n..]));
      }
    }
  }

  /** The second substitution keeps what the first achieved. */
  lemma {:induction false} EncodedKeepsPlain(s: string)
    requires Clean(Plain, s)
    ensures Clean(Plain, Substitute(Encoded, s))
    decreases |s|
  {
    if s != "" {
      var k := KeyLength(Encoded, s);
      var t := Substitute(Encoded, s);
      if k == 0 {
        CleanSuffix(Plain, s, 1);
        EncodedKeepsPlain(s[1..]);
        assert t[1..] == Substitute(Encoded, s[1..]);
        if KeyLength(Plain, t) > 0 {
          PlainKeyStaysClean(s);
        }
        CleanCons(Plain, t);
      } else {
        var n := k + BodyLength(Encoded, s[k..]);
        CleanSuffix(Plain, s, n);
        EncodedKeepsPlain(s[n..]);
        ReplacementIsClean(Plain, Encoded, s[..k], Substitute(Encoded, s[n..]));
      }
    }
  }

  lemma {:induction false} HeadPasses(c: char, w: string, u: string)
    requires KeyLength(Encoded, [c] + (w + u)) == 0 && NoKeyStart(w)
    ensures Substitute(Encoded, [c] + (w + u)) == [c] + (w + Substitute(Encoded, u))
  {
    assert ([c] + (w + u))[1..] == w + u;
    PassesThrough(Encoded, w, u);
  }

  lemma {:induction false} CleanHead(s: string)
    requires KeyLength(Plain, s) > 0 && CleanAt(Plain, s)
    ensures 12 <= |s| && NoKeyStart(s[1..12]) && StopsAt(Plain, s[12..]) && s[4..12] == REDACTED
  {
    assert s[4..12] == s[4..][..8] == REDACTED;
    forall i | 1 <= i < 12 ensures s[i] != 's' {
      assert i >= 4 ==> s[i] == s[4..12][i - 4];
    }
  }

  lemma {:induction false} PlainKeyStaysClean(s: string)
    requires s != "" && Clean(Plain, s) && KeyLength(Encoded, s) == 0 && KeyLength(Plain, Substitute(Encoded, s)) > 0
    ensures CleanAt(Plain, Substitute(Encoded, s))
  {
    NoKeyAppears(Plain, Encoded, s);
    assert s[0..] == s;
    assert CleanAt(Plain, s);
    CleanHead(s);
    assert s == [s[0]] + (s[1..12] + s[12..]);
    HeadPasses(s[0], s[1..12], s[12..]);
    StopSurvives(Plain, Encoded, s[12..]);
    var t := Substitute(Encoded, s);
    assert t[12..] == Substitute(Encoded, s[12..]) && t[4..12] == s[4..12];
    assert t[4..][..8] == t[4..12];
  }

  /** Characters that are a round of their own in both patterns. */
  predicate IsPlainText(w: string) {
    forall i :: 0 <= i < |w| ==> w[i] !in "&%\"\\' <"
  }

  lemma {:induction false} BodyOfPlainText(p: Pattern, w: string, t: string)
    requires IsPlainText(w)
    ensures BodyLength(p, w + t) == |w| + BodyLength(p, t)
  {
    if w == "" {
      assert w + t == t;
    } else {
      assert (w + t)[0] == w[0] && (w + t)[1..] == w[1..] + t;
      BodyOfPlainText(p, w[1..], t);
    }
  }

  lemma {:induction false} BodyOfRedacted(p: Pattern, t: string)
    requires StopsAt(p, t)
    ensures BodyLength(p, REDACTED + t) == |REDACTED|
  {
    BodyOfPlainText(p, REDACTED, t);
  }

  lemma {:induction false} HitIsFixed(p: Pattern, s: string, k: nat, u: string)
    requires k == KeyLength(p, s) > 0 && s[k..] == REDACTED + u
    requires StopsAt(p, u) && Substitute(p, u) == u
    ensures Substitute(p, s) == s
  {
    BodyOfRedacted(p, u);
    assert s[k + |REDACTED|..] == s[k..][|REDACTED|..] == u;
    assert s == s[..k] + s[k..] == s[..k] + REDACTED + u;
  }

  lemma {:induction false} BehindPrefix(s: string, k: nat, t: string)
    requires k <= |s| && t <= s[k..]
    ensures k + |t| <= |s| && s[k..] == t + s[k + |t|..]
  {
    assert s[k..] == s[k..][..|t|] + s[k..][|t|..];
  }

  /** Clean text is left alone. */
  lemma {:induction false} CleanIsFixed(p: Pattern, s: string)
    requires Clean(p, s)
    ensures Substitute(p, s) == s
    decreases |s|
  {
    if s != "" {
      var k := KeyLength(p, s);
      assert s[0..] == s;
      assert CleanAt(p, s);
      if k == 0 {
        CleanSuffix(p, s, 1);
        CleanIsFixed(p, s[1..]);
      } else {
        var u := s[k + |REDACTED|..];
        BehindPrefix(s, k, REDACTED);
        CleanSuffix(p, s, k + |REDACTED|);
        CleanIsFixed(p, u);
        HitIsFixed(p, s, k, u);
      }
    }
  }

  // ----- clean text, spelled out

  /** The end of the line, or a character at which sig=[^...]* stops. */
  predicate EndsPlain(s: string) {
    s == "" || s[0] in "&\"\\' <"
  }

  /** The end of the line, or text at which the repetition of the second expression stops. */
  predicate EndsEncoded(s: string) {
    || EndsPlain(s)
    || (s[0] == '%' && (EndsPlain(s[1..]) || (s[1] == '2' && (EndsPlain(s[2..]) || s[2] == '6'))))
  }

  /** If a key stands at the front, REDACTED follows at once, and then an end of that key's expression. */
  predicate RedactedHere(s: string) {
    && ("sig=" <= s ==> "sig=REDACTED" <= s && EndsPlain(s[12..]))
    && ("sig%3D" <= s ==> "sig%3DREDACTED" <= s && EndsEncoded(s[14..]))
    && ("sig%3d" <= s ==> "sig%3dREDACTED" <= s && EndsEncoded(s[14..]))
  }

  predicate RedactedThroughout(line: string) {
    forall i :: 0 <= i <= |line| ==> RedactedHere(line[i..])
  }

  lemma {:induction false} KeyTexts(s: string)
    ensures KeyLength(Plain, s) == if "sig=" <= s then 4 else 0
    ensures KeyLength(Encoded, s) == if "sig%3D" <= s || "sig%3d" <= s then 6 else 0
  {
    assert |s| >= 4 ==> s[..4] == [s[0], s[1], s[2], s[3]];
    assert |s| >= 6 ==> s[..6] == [s[0], s[1], s[2], s[3], s[4], s[5]];
  }

  lemma {:induction false} EndTexts(s: string)
    ensures StopsAt(Plain, s) <==> EndsPlain(s)
    ensures StopsAt(Encoded, s) <==> EndsEncoded(s)
  {
  }

  /** After a key of length k: REDACTED at once, and the rest of the text. */
  lemma {:induction false} RedactedAfter(s: string, key: string)
    requires key <= s
    ensures REDACTED <= s[|key|..] <==> key + "REDACTED" <= s
    ensures REDACTED <= s[|key|..] ==> s[|key|..][|REDACTED|..] == s[|key| + 8..]
  {
    if REDACTED <= s[|key|..] {
      assert s == key + s[|key|..];
    }
    if key + "REDACTED" <= s {
      assert s[|key|..][..8] == (key + "REDACTED")[|key|..] == REDACTED;
    }
  }

  lemma {:induction false} CleanAtKey(p: Pattern, s: string, key: string)
    requires key <= s && KeyLength(p, s) == |key| > 0
    ensures CleanAt(p, s) <==> key + "REDACTED" <= s && StopsAt(p, s[|key| + 8..])
  {
    RedactedAfter(s, key);
  }

  lemma {:induction false} CleanPlain(s: string)
    ensures CleanAt(Plain, s) <==> ("sig=" <= s ==> "sig=REDACTED" <= s && EndsPlain(s[12..]))
  {
    KeyTexts(s);
    if "sig=" <= s {
      CleanAtKey(Plain, s, "sig=");
      assert "sig=" + "REDACTED" == "sig=REDACTED";
    }
  }

  lemma {:induction false} CleanEncoded(s: string, key: string)
    requires key == "sig%3D" || key == "sig%3d"
    ensures key <= s ==> (CleanAt(Encoded, s) <==> key + "REDACTED" <= s && EndsEncoded(s[14..]))
    ensures !("sig%3D" <= s) && !("sig%3d" <= s) ==> CleanAt(Encoded, s)
  {
    KeyTexts(s);
    if key <= s {
      CleanAtKey(Encoded, s, key);
      if key + "REDACTED" <= s {
        EndTexts(s[14..]);
      }
    }
  }

  lemma {:induction false} CleanHere(s: string)
    ensures CleanAt(Plain, s) && CleanAt(Encoded, s) <==> RedactedHere(s)
  {
    CleanPlain(s);
    CleanEncoded(s, "sig%3D");
    CleanEncoded(s, "sig%3d");
    assert "sig%3D" + "REDACTED" == "sig%3DREDACTED" && "sig%3d" + "REDACTED" == "sig%3dREDACTED";
  }

  lemma {:induction false} CleanThroughout(line: string)
    ensures Clean(Plain, line) && Clean(Encoded, line) <==> RedactedThroughout(line)
  {
    forall i | 0 <= i <= |line|
      ensures CleanAt(Plain, line[i..]) && CleanAt(Encoded, line[i..]) <==> RedactedHere(line[i..])
    {
      CleanHere(line[i..]);
    }
    if RedactedThroughout(line) {
      forall i | 0 <= i <= |line| ensures CleanAt(Plain, line[i..]) && CleanAt(Encoded, line[i..]) {
        assert RedactedHere(line[i..]);
      }
    }
  }

  /** In every output each sig=, sig%3D and sig%3d is followed by REDACTED and an end of its expression. */
  lemma {:induction false} RedactedIsClean(line: string)
    ensures RedactedThroughout(PcRedactSas(line))
  {
    SubstituteCleans(Plain, line);
    EncodedKeepsPlain(Substitute(Plain, line));
    SubstituteCleans(Encoded, Substitute(Plain, line));
    CleanThroughout(PcRedactSas(line));
  }

  /** The lines left alone are exactly the clean ones; in particular redaction is idempotent. */
  lemma {:induction false} RedactIsIdempotent(line: string)
    ensures PcRedactSas(PcRedactSas(line)) == PcRedactSas(line)
    ensures PcRedactSas(line) == line <==> RedactedThroughout(line)
  {
    RedactedIsClean(line);
    var t := PcRedactSas(line);
    CleanThroughout(t);
    CleanThroughout(line);
    CleanIsFixed(Plain, t);
    CleanIsFixed(Encoded, t);
    if Clean(Plain, line) && Clean(Encoded, line) {
      CleanIsFixed(Plain, line);
      CleanIsFixed(Encoded, line);
    }
  }

  // ----- what sed's regular expressions match

  /** One round of the repetition: one of the alternatives of the bracketed group. */
  predicate IsRound(p: Pattern, r: string) {
    match p
    case Plain => |r| == 1 && r[0] !in "&\"\\' <"
    case Encoded =>
      || (|r| == 1 && r[0] !in "&%\"\\' <")
      || (|r| == 2 && r[0] == '%' && r[1] !in "2&\"\\' <")
      || (|r| == 3 && r[0] == '%' && r[1] == '2' && r[2] !in "6&\"\\' <")
  }

  /** Any number of rounds, in whichever way they can be told apart. */
  predicate IsRounds(p: Pattern, w: string) {
    w == "" || exists k :: 1 <= k <= |w| && IsRound(p, w[..k]) && IsRounds(p, w[k..])
  }

  /** A match at the front of text that no other match exceeds, as POSIX asks. */
  ghost predicate IsLongestMatch(p: Pattern, body: string, text: string) {
    body <= text && IsRounds(p, body) && forall w: string :: w <= text && IsRounds(p, w) ==> |w| <= |body|
  }

  lemma {:induction false} RoundIsDetermined(p: Pattern, s: string, r: string)
    requires r <= s && IsRound(p, r)
    ensures RoundLength(p, s) == |r|
  {
    assert forall i :: 0 <= i < |r| ==> s[i] == r[i];
  }

  lemma {:induction false} TakeSplit(s: string, k: nat, m: nat)
    requires k <= m <= |s|
    ensures s[..m][..k] == s[..k] && s[..m][k..] == s[k..][..m - k]
  {
  }

  lemma {:induction false} BodyIsMatch(p: Pattern, s: string)
    ensures IsRounds(p, s[..BodyLength(p, s)])
    decreases |s|
  {
    var k := RoundLength(p, s);
    if k > 0 {
      var m := BodyLength(p, s);
      BodyIsMatch(p, s[k..]);
      TakeSplit(s, k, m);
      assert IsRound(p, s[..m][..k]);
    }
  }

  lemma {:induction false} NoLongerMatch(p: Pattern, s: string, w: string)
    requires w <= s && IsRounds(p, w)
    ensures |w| <= BodyLength(p, s)
    decreases |s|
  {
    if w != "" {
      var k :| 1 <= k <= |w| && IsRound(p, w[..k]) && IsRounds(p, w[k..]);
      RoundIsDetermined(p, s, w[..k]);
      NoLongerMatch(p, s[k..], w[k..]);
    }
  }

  /** The greedy scan finds the longest match of the repetition. */
  lemma {:induction false} BodyIsLongestMatch(p: Pattern, s: string)
    ensures IsLongestMatch(p, s[..BodyLength(p, s)], s)
  {
    BodyIsMatch(p, s);
    forall w: string | w <= s && IsRounds(p, w)
      ensures |w| <= BodyLength(p, s)
    {
      NoLongerMatch(p, s, w);
    }
  }

  datatype Piece = Kept(c: char) | Hit(key: string, body: string)

  function Original(ps: seq<Piece>): string {
    if ps == [] then ""
    else (match ps[0] case Kept(c) => [c] case Hit(key, body) => key + body) + Original(ps[1..])
  }

  function Rewritten(ps: seq<Piece>): string {
    if ps == [] then ""
    else (match ps[0] case Kept(c) => [c] case Hit(key, body) => key + "REDACTED") + Rewritten(ps[1..])
  }

  predicate IsKey(p: Pattern, key: string) {
    match p
    case Plain => key == "sig="
    case Encoded => key == "sig%3D" || key == "sig%3d"
  }

  predicate BeginsWithKey(p: Pattern, s: string) {
    match p
    case Plain => "sig=" <= s
    case Encoded => "sig%3D" <= s || "sig%3d" <= s
  }

  /** A character is kept only where no key starts; a hit is a key with the longest body. */
  ghost predicate LeftmostLongest(p: Pattern, ps: seq<Piece>) {
    ps != [] ==>
      && LeftmostLongest(p, ps[1..])
      && (match ps[0]
          case Kept(_) => !BeginsWithKey(p, Original(ps))
          case Hit(key, body) => IsKey(p, key) && IsLongestMatch(p, body, body + Original(ps[1..])))
  }

  lemma {:induction false} HitPiece(p: Pattern, key: string, body: string, rest: seq<Piece>)
    requires LeftmostLongest(p, rest) && IsLongestMatch(p, body, body + Original(rest))
    requires IsKey(p, key)
    ensures var ps := [Hit(key, body)] + rest;
            && Original(ps) == key + (body + Original(rest))
            && Rewritten(ps) == key + REDACTED + Rewritten(rest)
            && LeftmostLongest(p, ps)
  {
    var ps := [Hit(key, body)] + rest;
    assert ps[1..] == rest;
    HitText(key, body, rest);
  }

  lemma {:induction false} HitText(key: string, body: string, rest: seq<Piece>)
    ensures var ps := [Hit(key, body)] + rest;
            Original(ps) == key + (body + Original(rest)) && Rewritten(ps) == key + REDACTED + Rewritten(rest)
  {
    assert ([Hit(key, body)] + rest)[1..] == rest;
    assert (key + body) + Original(rest) == key + (body + Original(rest));
  }

  lemma {:induction false} Resplit(s: string, k: nat, m: nat)
    requires k + m <= |s|
    ensures s[k..] == s[k..][..m] + s[k + m..] && s == s[..k] + (s[k..][..m] + s[k + m..])
  {
    assert s[k..][m..] == s[k + m..];
  }

  lemma {:induction false} AddHit(p: Pattern, s: string, k: nat, m: nat, rest: seq<Piece>)
    requires k == KeyLength(p, s) > 0 && m == BodyLength(p, s[k..])
    requires Original(rest) == s[k + m..] && Rewritten(rest) == Substitute(p, s[k + m..]) && LeftmostLongest(p, rest)
    ensures var ps := [Hit(s[..k], s[k..][..m])] + rest;
            Original(ps) == s && Rewritten(ps) == Substitute(p, s) && LeftmostLongest(p, ps)
  {
    Resplit(s, k, m);
    KeyTexts(s);
    assert IsKey(p, s[..k]);
    BodyIsLongestMatch(p, s[k..]);
    HitPiece(p, s[..k], s[k..][..m], rest);
  }

  lemma {:induction false} AddKept(p: Pattern, s: string, rest: seq<Piece>)
    requires s != "" && KeyLength(p, s) == 0
    requires Original(rest) == s[1..] && Rewritten(rest) == Substitute(p, s[1..]) && LeftmostLongest(p, rest)
    ensures var ps := [Kept(s[0])] + rest;
            Original(ps) == s && Rewritten(ps) == Substitute(p, s) && LeftmostLongest(p, ps)
  {
    KeyTexts(s);
    assert ([Kept(s[0])] + rest)[1..] == rest && s == [s[0]] + s[1..];
  }

  /** The output is the input with each leftmost longest match rewritten and everything else kept, in order. */
  lemma {:induction false} SubstituteRewritesMatches(p: Pattern, s: string) returns (ps: seq<Piece>)
    ensures Original(ps) == s && Rewritten(ps) == Substitute(p, s) && LeftmostLongest(p, ps)
    decreases |s|
  {
    ps := [];
    if s != "" {
      var k := KeyLength(p, s);
      KeyTexts(s);
      if k == 0 {
        var rest := SubstituteRewritesMatches(p, s[1..]);
        ps := [Kept(s[0])] + rest;
        AddKept(p, s, rest);
      } else {
        var m := BodyLength(p, s[k..]);
        var rest := SubstituteRewritesMatches(p, s[k + m..]);
        AddHit(p, s, k, m, rest);
        ps := [Hit(s[..k], s[k..][..m])] + rest;
      }
    }
  }
}
