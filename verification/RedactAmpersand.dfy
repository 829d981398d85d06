/**
 ci/common-scripts/partner-center.sh: whether pc_redact_sas redacts an encoded signature up to
 the next %26, as the comment above it says.
 */
module RedactAmpersand {
  import opened Basics
  import opened RedactSas

  // ----- the encoded signature and the next %26

  const AMPERSAND := "%26"

  /** The text ends inside a round: in a % or %2 that needs a further character. */
  predicate EndsInsideRound(w: string) {
    EndsIn(w, "%") || EndsIn(w, "%2")
  }

  /** Whole rounds, then the tail. */
  predicate EndsIn(w: string, tail: string) {
    |tail| <= |w| && w[|w| - |tail|..] == tail && IsRounds(Encoded, w[..|w| - |tail|])
  }

  lemma {:induction false} RoundsCons(w: string, k: nat)
    requires k <= |w| && IsRound(Encoded, w[..k])
    ensures IsRounds(Encoded, w) <==> IsRounds(Encoded, w[k..])
  {
    if IsRounds(Encoded, w) {
      var j :| 1 <= j <= |w| && IsRound(Encoded, w[..j]) && IsRounds(Encoded, w[j..]);
      RoundIsDetermined(Encoded, w, w[..j]);
      RoundIsDetermined(Encoded, w, w[..k]);
    }
  }

  lemma {:induction false} InsideRound(r: string, j: nat)
    requires IsRound(Encoded, r) && 1 <= j < |r|
    ensures r[..j] == "%" || r[..j] == "%2"
    ensures !IsRounds(Encoded, r[..j])
  {
    NotRounds(r[..j]);
  }

  /** Cutting off m characters behind the first round, or inside it. */
  lemma {:induction false} ChopCons(w: string, k: nat, m: nat)
    requires k <= |w| && IsRound(Encoded, w[..k]) && m < |w|
    ensures IsRounds(Encoded, w[..|w| - m]) <==> k + m <= |w| && IsRounds(Encoded, w[k..][..|w[k..]| - m])
  {
    var v := w[..|w| - m];
    if k + m <= |w| {
      TakeSplit(w, k, |w| - m);
      RoundsCons(v, k);
    } else {
      assert v == w[..k][..|w| - m];
      InsideRound(w[..k], |w| - m);
    }
  }

  lemma {:induction false} SuffixOfRest(w: string, k: nat, n: nat)
    requires k + n <= |w|
    ensures w[k..][|w[k..]| - n..] == w[|w| - n..]
  {
  }

  /** The tail cannot begin inside the first round. */
  lemma {:induction false} TailBehindRound(w: string, k: nat, tail: string)
    requires k <= |w| && IsRound(Encoded, w[..k]) && (tail == "%" || tail == "%2") && EndsIn(w, tail)
    ensures k + |tail| <= |w|
  {
    if |tail| < |w| {
      ChopCons(w, k, |tail|);
    }
  }

  lemma {:induction false} EndsInCons(w: string, k: nat, tail: string)
    requires k <= |w| && IsRound(Encoded, w[..k]) && (tail == "%" || tail == "%2")
    ensures EndsIn(w, tail) <==> EndsIn(w[k..], tail)
  {
    if k + |tail| <= |w| {
      SuffixOfRest(w, k, |tail|);
      ChopCons(w, k, |tail|);
    } else if EndsIn(w, tail) {
      TailBehindRound(w, k, tail);
    }
  }

  /** Where the scan of text followed by %26 stands after its first round. */
  lemma {:induction false} FirstRound(w: string, t: string)
    requires w != ""
    ensures var s, k := w + (AMPERSAND + t), RoundLength(Encoded, w + (AMPERSAND + t));
            && (k > |w| <==> w == "%" || w == "%2")
            && (k <= |w| ==> s[k..] == w[k..] + (AMPERSAND + t))
            && (1 <= k <= |w| ==> IsRound(Encoded, w[..k]))
  {
    var s := w + (AMPERSAND + t);
    assert s[|w|] == '%' && s[|w| + 1] == '2' && s[|w| + 2] == '6';
    assert s[0] == w[0] && (|w| >= 2 ==> s[1] == w[1]) && (|w| >= 3 ==> s[2] == w[2]);
  }

  /**
   Where the second expression's match ends before a %26: there exactly when the text before is
   made of whole rounds; behind it, and then wherever the text behind it lets it end, exactly
   when that text ends inside a round; in all other cases earlier.
   */
  lemma {:induction false} EndsAtAmpersand(w: string, t: string)
    ensures var n := BodyLength(Encoded, w + ("%26" + t));
            && (n == |w| <==> IsRounds(Encoded, w)) && (n > |w| <==> EndsInsideRound(w))
            && (n > |w| ==> n == |w| + 3 + BodyLength(Encoded, t))
    decreases |w|
  {
    var s := w + (AMPERSAND + t);
    if w == "" {
      assert s == AMPERSAND + t && RoundLength(Encoded, s) == 0;
    } else {
      FirstRound(w, t);
      var k := RoundLength(Encoded, s);
      if k > |w| {
        assert w == "%" || w == "%2";
        NotRounds(w);
        assert w[..0] == "" && IsRounds(Encoded, "");
        PastAmpersand(w, t);
      } else if k == 0 {
        NoFirstRound(w, t);
      } else {
        EndsAtAmpersand(w[k..], t);
        RoundsCons(w, k);
        EndsInCons(w, k, "%");
        EndsInCons(w, k, "%2");
      }
    }
  }

  /** The round that takes the % of the %26 leaves 26, which is scanned like any text. */
  lemma {:induction false} PastAmpersand(w: string, t: string)
    requires w == "%" || w == "%2"
    ensures BodyLength(Encoded, w + (AMPERSAND + t)) == |w| + 3 + BodyLength(Encoded, t)
  {
    var s := w + (AMPERSAND + t);
    var n := |w|;
    assert s[0] == '%' && s[n] == '%' && s[n + 1] == '2' && s[n + 2] == '6' && s[n + 3..] == t;
    assert RoundLength(Encoded, s) == n + 1;
    OnePlain(s[n + 1..]);
    assert s[n + 1..][1..] == s[n + 2..];
    OnePlain(s[n + 2..]);
    assert s[n + 2..][1..] == s[n + 3..];
  }

  lemma {:induction false} NotRounds(w: string)
    requires w == "%" || w == "%2"
    ensures !IsRounds(Encoded, w)
  {
    forall k | 1 <= k <= |w| ensures !IsRound(Encoded, w[..k]) {
      assert w[..k][0] == '%';
    }
  }

  lemma {:induction false} NoRoundsHere(w: string, t: string, n: nat)
    requires RoundLength(Encoded, w + (AMPERSAND + t)) == 0 && n <= |w|
    ensures IsRounds(Encoded, w[..n]) ==> n == 0
  {
    if IsRounds(Encoded, w[..n]) {
      assert w[..n] <= w + (AMPERSAND + t);
      NoLongerMatch(Encoded, w + (AMPERSAND + t), w[..n]);
    }
  }

  lemma {:induction false} NoTail(w: string, t: string, tail: string)
    requires RoundLength(Encoded, w + (AMPERSAND + t)) == 0 && EndsIn(w, tail)
    ensures w == tail
  {
    NoRoundsHere(w, t, |w| - |tail|);
    assert w[0..] == w;
  }

  lemma {:induction false} NoFirstRound(w: string, t: string)
    requires w != "" && w != "%" && w != "%2" && RoundLength(Encoded, w + (AMPERSAND + t)) == 0
    ensures !IsRounds(Encoded, w) && !EndsInsideRound(w)
  {
    NoRoundsHere(w, t, |w|);
    assert w[..|w|] == w;
    forall tail | EndsIn(w, tail) ensures w == tail {
      NoTail(w, t, tail);
    }
  }

  lemma {:induction false} OnePlain(s: string)
    requires s != "" && s[0] != '%' && !IsStop(s[0])
    ensures BodyLength(Encoded, s) == 1 + BodyLength(Encoded, s[1..])
  {
  }

  lemma {:induction false} DoublePercent(s: string)
    requires |s| >= 2 && s[0] == s[1] == '%'
    ensures BodyLength(Encoded, s) == 2 + BodyLength(Encoded, s[2..])
  {
  }

  lemma {:induction false} SwallowedBody(s: string)
    requires |s| >= 4 && s[0] == s[1] == '%' && s[2] == '2' && s[3] == '6' && IsPlainText(s[4..])
    ensures BodyLength(Encoded, s) == |s|
  {
    forall j | 4 <= j < |s| ensures s[j] != '%' && !IsStop(s[j]) {
      assert s[j] == s[4..][j - 4];
    }
    DoublePercent(s);
    PlainToEnd(s, 2);
  }

  lemma {:induction false} PlainToEnd(s: string, i: nat)
    requires i <= |s| && forall j :: i <= j < |s| ==> s[j] != '%' && !IsStop(s[j])
    ensures BodyLength(Encoded, s[i..]) == |s| - i
    decreases |s| - i
  {
    if i < |s| {
      OnePlain(s[i..]);
      assert s[i..][1..] == s[i + 1..];
      PlainToEnd(s, i + 1);
    }
  }

  // ----- the whole redaction and the next %26

  /** What the second expression's match leaves. */
  function Tail(u: string): string
    decreases |u|
  {
    var r := RoundLength(Encoded, u);
    if r == 0 then u else Tail(u[r..])
  }

  lemma {:induction false} DropTwice(u: string, r: nat, m: nat)
    requires r + m <= |u|
    ensures u[r..][m..] == u[r + m..]
  {
  }

  lemma {:induction false} TailIsDrop(u: string)
    ensures Tail(u) == u[BodyLength(Encoded, u)..]
    decreases |u|
  {
    var r := RoundLength(Encoded, u);
    if r == 0 {
      assert u[0..] == u;
    } else {
      TailIsDrop(u[r..]);
      DropTwice(u, r, BodyLength(Encoded, u[r..]));
    }
  }

  /** sig= occurs. */
  predicate HasPlainKey(w: string) {
    exists i :: 0 <= i <= |w| && "sig=" <= w[i..]
  }

  predicate AmpersandAt(w: string, i: nat) {
    i + 3 <= |w| && w[i] == '%' && w[i + 1] == '2' && w[i + 2] == '6'
  }

  /** %26 occurs. */
  predicate HasAmpersand(w: string) {
    exists i :: 0 <= i <= |w| && AmpersandAt(w, i)
  }

  lemma {:induction false} KeptPrefix(a: string, u: string)
    requires forall i :: 0 <= i < |a| ==> KeyLength(Plain, (a + u)[i..]) == 0
    ensures Substitute(Plain, a + u) == a + Substitute(Plain, u)
  {
    if a == "" {
      assert a + u == u;
    } else {
      assert (a + u)[0..] == a + u && (a + u)[1..] == a[1..] + u;
      forall i | 0 <= i < |a| - 1 ensures KeyLength(Plain, (a[1..] + u)[i..]) == 0 {
        assert (a[1..] + u)[i..] == (a + u)[i + 1..];
      }
      KeptPrefix(a[1..], u);
      assert [a[0]] + (a[1..] + Substitute(Plain, u)) == a + Substitute(Plain, u);
    }
  }

  /** Without a sig= before it, the first substitution leaves everything up to the %26 alone. */
  lemma {:induction false} PlainLeavesFront(w: string, t: string)
    requires !HasPlainKey(w)
    ensures Substitute(Plain, w + (AMPERSAND + t)) == w + (AMPERSAND + Substitute(Plain, t))
  {
    var u := AMPERSAND + t;
    forall i | 0 <= i < |w| ensures KeyLength(Plain, (w + u)[i..]) == 0 {
      var r := (w + u)[i..];
      assert !("sig=" <= w[i..]);
      KeyTexts(r);
      assert forall j :: 0 <= j < 4 && i + j < |w| ==> r[j] == w[i..][j];
      assert i + 4 > |w| ==> r[|w| - i] == '%';
    }
    KeptPrefix(w, u);
    PassesThrough(Plain, AMPERSAND, t);
  }

  lemma {:induction false} PlainKeyWithin(w: string, s: string, j: nat)
    requires w <= s && j <= |w| && KeyLength(Plain, w[j..]) > 0
    ensures j + 4 <= |w| && KeyLength(Plain, s[j..]) == 4
  {
    assert forall k :: 0 <= k < 4 ==> w[j..][k] == w[j + k] == s[j + k] == s[j..][k];
  }

  /** The first substitution rewrites the first sig= and swallows what follows it up to a stop character. */
  lemma {:induction false} PlainSwallows(s: string, j: nat) returns (i: nat, z: string)
    requires j <= |s| && KeyLength(Plain, s[j..]) > 0
    ensures i <= j && i + 4 <= |s| && KeyLength(Plain, s[i..]) == 4
    ensures Substitute(Plain, s) == s[..i] + (s[i..i + 4] + (REDACTED + z)) && (z == "" || IsStop(z[0]))
    decreases |s|
  {
    assert s[0..] == s;
    if KeyLength(Plain, s) > 0 {
      i := 0;
      z := SwallowedAtFront(s);
      assert s[0..4] == s[..4] && s[..0] + (s[..4] + (REDACTED + z)) == s[..4] + (REDACTED + z);
    } else {
      assert s[1..][j - 1..] == s[j..];
      var i', z' := PlainSwallows(s[1..], j - 1);
      i, z := i' + 1, z';
      SliceOfRest(s, i', 4);
      KeepFirst(s, i, s[i..i + 4] + (REDACTED + z));
    }
  }

  lemma {:induction false} SliceOfRest(s: string, i: nat, n: nat)
    requires 1 + i + n <= |s|
    ensures s[1..][i..] == s[i + 1..] && s[1..][i..i + n] == s[i + 1..i + 1 + n]
  {
  }

  lemma {:induction false} KeepFirst(s: string, i: nat, tail: string)
    requires 1 <= i <= |s| && KeyLength(Plain, s) == 0 && Substitute(Plain, s[1..]) == s[1..][..i - 1] + tail
    ensures Substitute(Plain, s) == s[..i] + tail
  {
    assert s[..i] == [s[0]] + s[1..][..i - 1];
  }

  lemma {:induction false} SwallowedAtFront(s: string) returns (z: string)
    requires KeyLength(Plain, s) > 0
    ensures Substitute(Plain, s) == s[..4] + (REDACTED + z) && (z == "" || IsStop(z[0]))
  {
    var n := BodyLength(Plain, s[4..]);
    var rest := s[4 + n..];
    BodyStops(Plain, s[4..]);
    assert s[4..][n..] == rest;
    z := Substitute(Plain, rest);
    assert s[..4] + REDACTED + z == s[..4] + (REDACTED + z);
  }

  /** No match runs over a stop character or the end. */
  lemma {:induction false} BodyBeforeStop(p: Pattern, s: string, k: nat)
    requires k <= |s| && (k < |s| ==> IsStop(s[k]))
    ensures BodyLength(p, s) <= k
    decreases |s|
  {
    var r := RoundLength(p, s);
    if r > 0 {
      assert forall i :: 0 <= i < r ==> !IsStop(s[i]);
      assert k < |s| ==> s[r..][k - r] == s[k];
      BodyBeforeStop(p, s[r..], k - r);
    }
  }

  /** The key survives the first substitution, and the second rewrites what is left of its body. */
  lemma {:induction false} RedactAtKey(key: string, y: string)
    requires IsKey(Encoded, key)
    ensures var z := Substitute(Plain, y);
            PcRedactSas(key + y) == key + REDACTED + Substitute(Encoded, Tail(z))
  {
    var z := Substitute(Plain, y);
    forall i | 0 <= i < 6 ensures KeyLength(Plain, (key + y)[i..]) == 0 {
      assert (key + y)[i..][0] == key[i] && (i == 0 ==> (key + y)[i..][3] == key[3]);
    }
    KeptPrefix(key, y);
    TailIsDrop(z);
    KeyTexts(key);
    EncodedAtKey(key, z, BodyLength(Encoded, z));
  }

  lemma {:induction false} EncodedAtKey(key: string, z: string, n: nat)
    requires KeyLength(Encoded, key) == |key| == 6 && n == BodyLength(Encoded, z)
    ensures Substitute(Encoded, key + z) == key + REDACTED + Substitute(Encoded, z[n..])
  {
    var line := key + z;
    assert line[..6] == key && line[6..] == z && line[6 + n..] == z[n..];
  }

  /** Only text that begins with %26 is rewritten to text that does. */
  lemma {:induction false} AmpersandWasThere(y: string, n: nat, u: string)
    requires n <= |y|
    ensures Substitute(Encoded, y[n..]) == AMPERSAND + u ==> AmpersandAt(y, n)
  {
    var r := y[n..];
    if Substitute(Encoded, r) == AMPERSAND + u {
      assert Substitute(Encoded, r)[..3] == AMPERSAND;
      FrontWasThere(Encoded, r, 3);
      assert r[0] == r[..3][0] && r[1] == r[..3][1] && r[2] == r[..3][2];
    }
  }

  /** Text in which the first sig= and its body have been rewritten. */
  predicate IsSwallowed(y: string, w: string, i: nat, z: string) {
    && i + 4 <= |w| && (z == "" || IsStop(z[0]))
    && |y| == i + 12 + |z| && y[..i] == w[..i] && y[i..i + 12] == "sig=REDACTED" && y[i + 12..] == z
  }

  lemma {:induction false} RewritesKey(w: string, t: string) returns (i: nat, z: string)
    requires HasPlainKey(w)
    ensures IsSwallowed(Substitute(Plain, w + (AMPERSAND + t)), w, i, z)
  {
    var s := w + (AMPERSAND + t);
    var j :| 0 <= j <= |w| && "sig=" <= w[j..];
    KeyTexts(w[j..]);
    PlainKeyWithin(w, s, j);
    i, z := PlainSwallows(s, j);
    KeyText(s, i);
    SwallowedParts(s, w, i, z);
  }

  lemma {:induction false} SwallowedParts(s: string, w: string, i: nat, z: string)
    requires i + 4 <= |w| && w <= s && (z == "" || IsStop(z[0])) && s[i..i + 4] + REDACTED == "sig=REDACTED"
    requires Substitute(Plain, s) == s[..i] + (s[i..i + 4] + (REDACTED + z))
    ensures IsSwallowed(Substitute(Plain, s), w, i, z)
  {
    assert s[..i] == w[..i];
    assert s[..i] + (s[i..i + 4] + (REDACTED + z)) == (s[..i] + (s[i..i + 4] + REDACTED)) + z;
  }

  /** Behind a swallowed sig= the match does not end at a %26. */
  lemma {:induction false} SwallowedKey(y: string, w: string, i: nat, z: string, n: nat)
    requires IsSwallowed(y, w, i, z) && !HasAmpersand(w) && n <= i + 12
    ensures !AmpersandAt(y, n)
  {
    assert forall k :: 0 <= k < i ==> y[k] == y[..i][k] == w[k];
    assert forall k :: i <= k < i + 12 ==> y[k] == y[i..i + 12][k - i];
    assert n == i + 12 && z != "" ==> y[n] == z[0];
    assert n < i ==> !AmpersandAt(w, n);
  }

  /** If sig= occurs before the %26, what the second expression leaves does not begin with %26. */
  lemma {:induction false} NotWithPlainKey(w: string, t: string, u: string)
    requires HasPlainKey(w) && !HasAmpersand(w)
    ensures var y := Substitute(Plain, w + (AMPERSAND + t));
            Substitute(Encoded, Tail(y)) != AMPERSAND + u
  {
    var i, z := RewritesKey(w, t);
    var y := Substitute(Plain, w + (AMPERSAND + t));
    AfterSwallowed(y, w, i, z);
    AmpersandWasThere(y, BodyLength(Encoded, y), u);
    TailIsDrop(y);
  }

  lemma {:induction false} AfterSwallowed(y: string, w: string, i: nat, z: string)
    requires IsSwallowed(y, w, i, z) && !HasAmpersand(w)
    ensures !AmpersandAt(y, BodyLength(Encoded, y))
  {
    assert z != "" ==> y[i + 12] == z[0];
    BodyBeforeStop(Encoded, y, i + 12);
    SwallowedKey(y, w, i, z, BodyLength(Encoded, y));
  }

  lemma {:induction false} KeyText(s: string, i: nat)
    requires i + 4 <= |s| && KeyLength(Plain, s[i..]) == 4
    ensures s[i..i + 4] + REDACTED == "sig=REDACTED"
  {
    assert s[i..i + 4] == s[i..][..4] == "sig=";
  }

  // ----- what the match leaves is rewritten to nothing longer than the whole

  lemma {:induction false} TailOfPlain(u: string)
    requires u != "" && u[0] != '%' && !IsStop(u[0])
    ensures Tail(u) == Tail(u[1..])
  {
  }

  lemma {:induction false} TailOfPercent(u: string)
    requires |u| >= 2 && u[0] == '%' && u[1] != '2' && !IsStop(u[1])
    ensures Tail(u) == Tail(u[2..])
  {
  }

  /** The rest of a key is four rounds, wherever its first letter belongs. */
  lemma {:induction false} TailOfKey(v: string)
    requires KeyLength(Encoded, v) == 6
    ensures Tail(v[1..]) == Tail(v[6..])
  {
    DropTwice(v, 1, 1);
    DropTwice(v, 2, 1);
    DropTwice(v, 3, 2);
    DropTwice(v, 5, 1);
    TailOfPlain(v[1..]);
    TailOfPlain(v[2..]);
    TailOfPercent(v[3..]);
    TailOfPlain(v[5..]);
  }

  lemma {:induction false} SubstituteAtKey(v: string)
    requires KeyLength(Encoded, v) == 6
    ensures |Substitute(Encoded, v)| == 14 + |Substitute(Encoded, Tail(v[6..]))|
  {
    TailIsDrop(v[6..]);
    DropTwice(v, 6, BodyLength(Encoded, v[6..]));
  }

  /** Only the last character of a round can begin a key. */
  lemma {:induction false} RoundFront(u: string, r: nat)
    requires r == RoundLength(Encoded, u) > 0
    ensures |Substitute(Encoded, u)| == r - 1 + |Substitute(Encoded, u[r - 1..])|
  {
    assert u == u[..r - 1] + u[r - 1..];
    assert forall i :: 0 <= i < r - 1 ==> u[i] == '%' || u[i] == '2';
    PassesThrough(Encoded, u[..r - 1], u[r - 1..]);
  }

  lemma {:induction false} TailIsNotLonger(u: string)
    ensures |Substitute(Encoded, Tail(u))| <= |Substitute(Encoded, u)|
    decreases |u|
  {
    var r := RoundLength(Encoded, u);
    if r > 0 {
      var v := u[r - 1..];
      RoundFront(u, r);
      DropTwice(u, r - 1, 1);
      if KeyLength(Encoded, v) > 0 {
        TailOfKey(v);
        SubstituteAtKey(v);
      } else {
        TailIsNotLonger(v[1..]);
      }
    }
  }

  /** A match that runs over the %26 leaves what a match from there on would leave. */
  lemma {:induction false} TailPastAmpersand(w: string, u: string)
    requires BodyLength(Encoded, w + (AMPERSAND + u)) > |w|
    ensures Tail(w + (AMPERSAND + u)) == Tail(u)
  {
    EndsAtAmpersand(w, u);
    DropParts(w, u, BodyLength(Encoded, u));
    TailIsDrop(w + (AMPERSAND + u));
    TailIsDrop(u);
  }

  lemma {:induction false} DropParts(w: string, u: string, m: nat)
    requires m <= |u|
    ensures (w + (AMPERSAND + u))[|w| + 3 + m..] == u[m..]
  {
  }

  lemma {:induction false} NotBeforeAmpersand(w: string, u: string, n: nat)
    requires !HasAmpersand(w) && n < |w|
    ensures !AmpersandAt(w + (AMPERSAND + u), n)
  {
    assert (w + (AMPERSAND + u))[|w|] == '%' && !AmpersandAt(w, n);
  }

  lemma {:induction false} TailEarlier(w: string, u: string, v: string)
    requires !HasAmpersand(w) && BodyLength(Encoded, w + (AMPERSAND + u)) < |w|
    ensures Substitute(Encoded, Tail(w + (AMPERSAND + u))) != AMPERSAND + v
  {
    var y := w + (AMPERSAND + u);
    var n := BodyLength(Encoded, y);
    NotBeforeAmpersand(w, u, n);
    AmpersandWasThere(y, n, v);
    TailIsDrop(y);
  }

  lemma {:induction false} TailAtAmpersand(w: string, u: string)
    requires BodyLength(Encoded, w + (AMPERSAND + u)) == |w|
    ensures Substitute(Encoded, Tail(w + (AMPERSAND + u))) == AMPERSAND + Substitute(Encoded, u)
  {
    var y := w + (AMPERSAND + u);
    TailIsDrop(y);
    assert y[|w|..] == AMPERSAND + u;
    PassesThrough(Encoded, AMPERSAND, u);
  }

  /** The second substitution goes on with the %26 exactly if whole rounds precede it. */
  lemma {:induction false} EncodedAtAmpersand(w: string, u: string)
    requires !HasAmpersand(w)
    ensures Substitute(Encoded, Tail(w + (AMPERSAND + u))) == AMPERSAND + Substitute(Encoded, u) <==>
              IsRounds(Encoded, w)
  {
    var n := BodyLength(Encoded, w + (AMPERSAND + u));
    EndsAtAmpersand(w, u);
    if n < |w| {
      TailEarlier(w, u, Substitute(Encoded, u));
    } else if n == |w| {
      TailAtAmpersand(w, u);
    } else {
      TailPastAmpersand(w, u);
      TailIsNotLonger(u);
    }
  }

  /** Without a sig= before it, the signature is redacted up to the %26 exactly if whole rounds precede that. */
  lemma {:induction false} WithoutPlainKey(w: string, t: string)
    requires !HasPlainKey(w) && !HasAmpersand(w)
    ensures var y := Substitute(Plain, w + (AMPERSAND + t));
            Substitute(Encoded, Tail(y)) == AMPERSAND + Substitute(Encoded, Substitute(Plain, t)) <==>
            IsRounds(Encoded, w)
  {
    PlainLeavesFront(w, t);
    EncodedAtAmpersand(w, Substitute(Plain, t));
  }

  /**
   The script's comment says that an encoded signature is redacted up to the next %26.  With
   the text w before that %26 this holds exactly if w is made of whole rounds of the second
   expression and no plain sig= occurs in it.
   */
  lemma {:induction false} RedactedUpToAmpersand(key: string, w: string, t: string)
    requires IsKey(Encoded, key) && !HasAmpersand(w)
    ensures PcRedactSas(key + (w + ("%26" + t))) == key + "REDACTED" + PcRedactSas("%26" + t) <==>
              IsRounds(Encoded, w) && !HasPlainKey(w)
  {
    var y := Substitute(Plain, w + (AMPERSAND + t));
    var rest := Substitute(Encoded, Tail(y));
    RedactAtKey(key, w + (AMPERSAND + t));
    FromAmpersand(t);
    SameTail(key + REDACTED, rest, PcRedactSas(AMPERSAND + t));
    if HasPlainKey(w) {
      NotWithPlainKey(w, t, Substitute(Encoded, Substitute(Plain, t)));
    } else {
      WithoutPlainKey(w, t);
    }
  }

  lemma {:induction false} FromAmpersand(t: string)
    ensures PcRedactSas(AMPERSAND + t) == AMPERSAND + Substitute(Encoded, Substitute(Plain, t))
  {
    PassesThrough(Plain, AMPERSAND, t);
    PassesThrough(Encoded, AMPERSAND, Substitute(Plain, t));
  }

  predicate HasNoStop(w: string) {
    forall i :: 0 <= i < |w| ==> w[i] !in "&\"\\' <"
  }

  lemma {:induction false} PlainTakesAll(s: string)
    requires HasNoStop(s)
    ensures BodyLength(Plain, s) == |s|
  {
    if s != "" {
      PlainTakesAll(s[1..]);
    }
  }

  lemma {:induction false} RedactedText()
    ensures BodyLength(Encoded, "sig=REDACTED") == 12
  {
    var z := "sig=REDACTED";
    assert IsPlainText(z) && z + "" == z;
    BodyOfPlainText(Encoded, z, "");
  }

  lemma {:induction false} PlainKeyTakesAll(tail: string)
    requires HasNoStop(tail)
    ensures Substitute(Plain, "sig=" + tail) == "sig=REDACTED"
  {
    var y := "sig=" + tail;
    PlainTakesAll(tail);
    assert y[..4] == "sig=" && y[4..] == tail && y[4 + |tail|..] == "";
  }

  lemma {:induction false} RedactAll(key: string, y: string)
    requires IsKey(Encoded, key)
    requires var z := Substitute(Plain, y); BodyLength(Encoded, z) == |z|
    ensures PcRedactSas(key + y) == key + REDACTED
  {
    RedactAtKey(key, y);
    var z := Substitute(Plain, y);
    TailIsDrop(z);
    assert z[|z|..] == "" && key + REDACTED + "" == key + REDACTED;
  }

  /** Lines on which a plain sig= makes the first expression swallow all that follows, any %26 included. */
  lemma {:induction false} PlainKeySwallowsAmpersand(key: string, tail: string)
    requires IsKey(Encoded, key) && HasNoStop(tail)
    ensures PcRedactSas(key + ("sig=" + tail)) == key + "REDACTED"
  {
    PlainKeyTakesAll(tail);
    RedactedText();
    RedactAll(key, "sig=" + tail);
  }

  /** Lines on which a stray % makes the second expression do so, such as sig%3D%%26name=value. */
  lemma {:induction false} StrayPercentSwallowsAmpersand(key: string, t: string)
    requires IsKey(Encoded, key) && IsPlainText(t) && NoKeyStart(t)
    ensures PcRedactSas(key + ("%" + ("%26" + t))) == key + "REDACTED"
  {
    var tail := "%" + (AMPERSAND + t);
    assert tail[4..] == t && tail + "" == tail;
    PassesThrough(Plain, tail, "");
    SwallowedBody(tail);
    RedactAll(key, tail);
  }
}
