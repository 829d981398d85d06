/** How long pc_wait_job can take when the token endpoint gives out empty tokens. */
module SlowEndpoint {
  import opened Basics
  import opened PartnerCenter

  /** The calls of a round of 24 that succeed: the last of each refresh, and the fourth GET. */
  predicate Answers(j: int) {
    j in {3, 7, 12, 17, 22, 23}
  }

  /** An empty token and a running job, whichever is asked for. */
  function Nothing(took: seconds): Answer {
    Answer(took, 0, 200, Some(""), "", Running)
  }

  const FAILURE := Answer(120.0, 0, 503, None, "", NoStatus)

  function RoundAnswer(j: int): Answer {
    if Answers(j) then Nothing(120.0) else FAILURE
  }

  /** From this call on the endpoint takes two minutes for each of 24 calls, and fails as often as it can. */
  ghost predicate IsRound(e: Endpoint, base: nat) {
    forall j :: 0 <= j < 24 ==> e(base + j) == RoundAnswer(j)
  }

  /** Each refresh takes four calls and leaves no token. */
  lemma {:induction false} SlowAttempts(e: Endpoint, base: nat, j: nat, c: Clock, left: nat)
    requires IsRound(e, base) && left > 0 && c.calls == base + j
    requires j + left <= 24 && Answers(j + left - 1) && forall i :: j <= i < j + left - 1 ==> !Answers(i)
    ensures Attempts(e, c, left) == Clock(c.now + left as real * ATTEMPT_MAX - RETRY_PAUSE, c.calls + left)
    decreases left
  {
    assert e(base + j) == RoundAnswer(j);
    if left > 1 {
      SlowAttempts(e, base, j + 1, Sleep(Curl(e, c), RETRY_PAUSE), left - 1);
    }
  }

  lemma {:induction false} SlowToken(e: Endpoint, base: nat, j: nat, s: State)
    requires IsRound(e, base) && s.clock.calls == base + j && j in {0, 4, 9, 14, 19}
    ensures var (t, ok) := TokenRun(e, s);
            ok && t.cache.token == "" && t.clock == Clock(s.clock.now + REQUEST_MAX, s.clock.calls + 4)
  {
    SlowAttempts(e, base, j, s.clock, ATTEMPTS);
    assert e(base + (j + 3)) == RoundAnswer(j + 3);
  }

  lemma {:induction false} GetGoesOn(e: Endpoint, s: State, left: nat, t: State)
    requires left > 0 && EnsureRun(e, s) == (t, true)
    ensures left > 1 && !Is2xx(e(t.clock.calls)) && Retryable(e(t.clock.calls)) ==>
              GetRun(e, s, left) == GetRun(e, Pause(Send(e, t), RETRY_PAUSE), left - 1)
    ensures Is2xx(e(t.clock.calls)) ==> GetRun(e, s, left) == (Send(e, t), Some(e(t.clock.calls)))
  {
  }

  /** A turn of pc_get's loop: a refresh and a GET that fails. */
  lemma {:induction false} SlowTurn(e: Endpoint, base: nat, s: State, left: nat) returns (w: State)
    requires IsRound(e, base) && 1 < left <= 4 && s.clock.calls == base + 24 - 5 * left && s.cache.token == ""
    ensures GetRun(e, s, left) == GetRun(e, w, left - 1)
    ensures w.clock == Clock(s.clock.now + 720.0, s.clock.calls + 5) && w.cache.token == ""
  {
    SlowToken(e, base, 24 - 5 * left, s);
    var t := EnsureRun(e, s).0;
    assert e(base + (28 - 5 * left)) == RoundAnswer(28 - 5 * left);
    GetGoesOn(e, s, left, t);
    w := Pause(Send(e, t), RETRY_PAUSE);
  }

  /** The fourth: the GET succeeds. */
  lemma {:induction false} SlowLast(e: Endpoint, base: nat, s: State)
    requires IsRound(e, base) && s.clock.calls == base + 19 && s.cache.token == ""
    ensures var (t, body) := GetRun(e, s, 1);
            body == Some(Nothing(120.0)) && t.clock == Clock(s.clock.now + 690.0, s.clock.calls + 5)
  {
    SlowToken(e, base, 19, s);
    assert e(base + 23) == RoundAnswer(23);
    GetGoesOn(e, s, 1, EnsureRun(e, s).0);
  }

  lemma {:induction false} SlowGet(e: Endpoint, base: nat, s: State)
    requires IsRound(e, base) && s.clock.calls == base + 4 && s.cache.token == ""
    ensures var (t, body) := GetRun(e, s, ATTEMPTS);
            body == Some(Nothing(120.0)) && t.clock == Clock(s.clock.now + 2850.0, s.clock.calls + 20)
  {
    var s3 := SlowTurn(e, base, s, 4);
    var s2 := SlowTurn(e, base, s3, 3);
    var s1 := SlowTurn(e, base, s2, 2);
    SlowLast(e, base, s1);
  }

  /** An iteration of pc_wait_job takes all 24 calls and 57 minutes. */
  lemma {:induction false} SlowIteration(e: Endpoint, base: nat, s: State)
    requires IsRound(e, base) && s.clock.calls == base && s.cache.token == ""
    ensures var (t, status) := IterationRun(e, s);
            status == Some(Nothing(120.0)) && t.cache.token == ""
            && t.clock == Clock(s.clock.now + 3420.0, s.clock.calls + 24)
  {
    SlowToken(e, base, 0, s);
    SlowGet(e, base, EnsureRun(e, s).0);
  }

  /** Three calls in a row answered at once, as a token, a token and a status. */
  ghost predicate IsQuick(e: Endpoint, base: nat, took: seconds) {
    e(base) == e(base + 1) == e(base + 2) == Nothing(took)
  }

  lemma {:induction false} QuickToken(e: Endpoint, s: State, took: seconds)
    requires e(s.clock.calls) == Nothing(took)
    ensures var (t, ok) := TokenRun(e, s);
            ok && t.cache.token == "" && t.clock == Clock(s.clock.now + took, s.clock.calls + 1)
  {
    assert Attempts(e, s.clock, ATTEMPTS) == Curl(e, s.clock);
  }

  lemma {:induction false} QuickIteration(e: Endpoint, s: State, took: seconds)
    requires IsQuick(e, s.clock.calls, took) && s.cache.token == ""
    ensures var (t, status) := IterationRun(e, s);
            status == Some(Nothing(took)) && t.cache.token == ""
            && t.clock == Clock(s.clock.now + took + took + took, s.clock.calls + 3)
  {
    QuickToken(e, s, took);
    var t := EnsureRun(e, s).0;
    QuickToken(e, t, took);
    GetGoesOn(e, t, ATTEMPTS, EnsureRun(e, t).0);
  }

  /** A slow iteration, one that ends just before the deadline, and another slow one. */
  ghost predicate IsSlow(e: Endpoint, took: seconds) {
    IsRound(e, 0) && IsQuick(e, 24, took) && IsRound(e, 27)
  }

  lemma {:induction false} SlowJob(e: Endpoint, s: State, took: seconds)
    requires IsSlow(e, took) && 39.0 <= took < 40.0 && s.clock == Clock(0.0, 0) && s.cache.token == ""
    ensures WaitRun(e, s, JOB_LIMIT).0.clock == Clock(6960.0 + took + took + took, 51)
  {
    SlowIteration(e, 0, s);
    var (t, status) := IterationRun(e, s);
    WaitStep(e, s, JOB_LIMIT, t, status);
    SlowSecond(e, Pause(t, JOB_PAUSE), took);
  }

  lemma {:induction false} SlowSecond(e: Endpoint, s: State, took: seconds)
    requires IsSlow(e, took) && 39.0 <= took < 40.0 && s.clock == Clock(3480.0, 24) && s.cache.token == ""
    ensures WaitRun(e, s, JOB_LIMIT).0.clock == Clock(6960.0 + took + took + took, 51)
  {
    QuickIteration(e, s, took);
    var (t, status) := IterationRun(e, s);
    WaitStep(e, s, JOB_LIMIT, t, status);
    SlowThird(e, Pause(t, JOB_PAUSE));
  }

  lemma {:induction false} SlowThird(e: Endpoint, s: State)
    requires IsRound(e, 27) && s.clock.calls == 27 && s.clock.now >= 3600.0 && s.cache.token == ""
    ensures WaitRun(e, s, JOB_LIMIT).0.clock == Clock(s.clock.now + 3420.0, 51)
  {
    SlowIteration(e, 27, s);
    var (t, status) := IterationRun(e, s);
    WaitStep(e, s, JOB_LIMIT, t, status);
  }

  function SlowAnswer(took: seconds, i: nat): Answer {
    if 24 <= i < 27 then Nothing(took) else RoundAnswer(if i < 24 then i else i - 27)
  }

  /** Such an endpoint, and a fresh shell at midnight. */
  lemma {:induction false} SlowStart(took: seconds) returns (e: Endpoint, s: State)
    ensures IsSlow(e, took) && s.clock == Clock(0.0, 0) && s.cache.token == ""
    ensures forall i :: e(i).accessToken == None || e(i).accessToken == Some("")
  {
    e := (i: nat) => SlowAnswer(took, i);
    s := State(Clock(0.0, 0), false, Cache("", 0), {}, [], 0);
  }

  /** pc_wait_job ends within the bound. */
  predicate EndsWithin(e: Endpoint, s: State, bound: real) {
    WaitRun(e, s, s.clock.now.Floor + 3600).0.clock.now <= s.clock.now + bound
  }

  /** For every shorter bound there is a run that exceeds it. */
  lemma {:induction false} ExceedsBound(bound: real) returns (e: Endpoint, s: State)
    requires bound < 7080.0
    ensures !EndsWithin(e, s, bound)
    ensures forall i :: e(i).accessToken == None || e(i).accessToken == Some("")
  {
    var gap := if bound < 7078.0 then 1.0 else (7080.0 - bound) / 2.0;
    var took: seconds := 40.0 - gap / 3.0;
    e, s := SlowStart(took);
    SlowJob(e, s, took);
    assert Date(s) + JOB_LIMIT == JOB_LIMIT;
  }

  /** 7080 s is the least bound on pc_wait_job over all endpoints and states. */
  lemma {:induction false} LeastBound(bound: real)
    ensures (forall e: Endpoint, s :: EndsWithin(e, s, bound)) <==> bound >= 7080.0
  {
    if bound < 7080.0 {
      var e, s := ExceedsBound(bound);
    } else {
      forall e: Endpoint, s ensures EndsWithin(e, s, bound) {
        JobBounds(e, s, Date(s) + JOB_LIMIT);
      }
    }
  }

  /** The tokens an endpoint gives out all belong to a set. */
  ghost predicate IssuesFrom(e: Endpoint, tokens: iset<string>) {
    forall i :: e(i).accessToken.Some? ==> e(i).accessToken.value in tokens
  }

  /**
   pc_wait_job takes at most 4800 s on every endpoint that gives out tokens of a set, from
   every state, exactly if the empty token is not among them.
   */
  lemma {:induction false} InTimeExactlyWithoutEmptyToken(tokens: iset<string>)
    ensures (forall e: Endpoint, s :: IssuesFrom(e, tokens) ==> EndsWithin(e, s, 4800.0)) <==> "" !in tokens
  {
    if "" in tokens {
      var e, s := ExceedsBound(4800.0);
      assert IssuesFrom(e, tokens);
    } else {
      forall e: Endpoint, s: State | IssuesFrom(e, tokens)
        ensures EndsWithin(e, s, 4800.0)
      {
        JobBounds(e, s, Date(s) + JOB_LIMIT);
      }
    }
  }
}
