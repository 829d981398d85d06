/**
 ci/common-scripts/partner-center.sh: the token cache, the retried requests and the wait for
 a configure job.  Only curl (at most 120 s) and sleep advance the clock; date shows its
 whole seconds.
 */
module PartnerCenter {
  import opened Basics

  type seconds = s: real | 0.0 <= s <= 120.0

  /** The three digits curl prints: 000 without a response. */
  type httpCode = n: int | 0 <= n < 1000

  datatype Job = NoStatus | Running | Completed(succeeded: bool)

  /**
   One curl call: how long it took, its exit status and HTTP code, and what jq finds in the
   body: the access token, or what it prints for want of one, and how a job stands.
   */
  datatype Answer = Answer(took: seconds, rc: int, code: httpCode, accessToken: Option<string>, otherToken: string,
                           job: Job)

  /** What each curl call will be answered, by its number. */
  type Endpoint = nat -> Answer

  /** PC_TOKEN and PC_TOKEN_FETCHED_AT. */
  datatype Cache = Cache(token: string, fetchedAt: int)

  /**
   A GET as it was sent: the number of its curl call, the cache whose token it carries, whether
   the endpoint had issued that token at that date, and the date of the check.
   */
  datatype Sent = Sent(call: nat, cache: Cache, issued: bool, checkedAt: int)

  /** The time, and how often curl was called. */
  datatype Clock = Clock(now: real, calls: nat)

  /**
   wasGet: the last curl call was a GET and not a token request.  issued: what the endpoint
   gave out so far, with the dates.  polls: how often pc_wait_job has asked for the status.
   */
  datatype State = State(clock: Clock, wasGet: bool, cache: Cache, issued: set<Cache>, sent: seq<Sent>, polls: nat)

  datatype JobEnd = JobSucceeded | JobFailed | RequestFailed | TimedOut

  const ATTEMPTS: nat := 4
  const RETRY_PAUSE := 30.0
  const JOB_PAUSE := 60.0
  const JOB_LIMIT := 3600
  const TOKEN_LIFE := 3000

  /** The longest four attempts with their pauses can take, and one attempt with its pause. */
  const REQUEST_MAX := 570.0
  const ATTEMPT_MAX := 150.0

  predicate Is2xx(a: Answer) {
    a.rc == 0 && 200 <= a.code < 300
  }

  predicate Retryable(a: Answer) {
    a.rc != 0 || a.code == 0 || a.code == 429 || 500 <= a.code < 600
  }

  // ----- what the functions of the script do

  function Date(s: State): int {
    s.clock.now.Floor
  }

  predicate Stale(s: State) {
    s.cache.token == "" || Date(s) - s.cache.fetchedAt >= TOKEN_LIFE
  }

  function Curl(e: Endpoint, c: Clock): Clock {
    Clock(c.now + e(c.calls).took, c.calls + 1)
  }

  function Sleep(c: Clock, d: real): Clock {
    c.(now := c.now + d)
  }

  function Pause(s: State, d: real): State {
    s.(clock := Sleep(s.clock, d))
  }

  /** The curl calls of a request with so many attempts left. */
  function Attempts(e: Endpoint, c: Clock, left: nat): (r: Clock)
    requires left > 0
    ensures c.now <= r.now && c.calls < r.calls
    decreases left, c
  {
    var a, d := e(c.calls), Curl(e, c);
    if !Is2xx(a) && Retryable(a) && left > 1 then Attempts(e, Sleep(d, RETRY_PAUSE), left - 1) else d
  }

  /**
   A 2xx answer to a token request: its token is cached with the present date; without one,
   what jq printed replaces the cached token but not its date.
   */
  function Accept(a: Answer, s: State): (State, bool) {
    match a.accessToken
    case None => (s.(cache := s.cache.(token := a.otherToken)), false)
    case Some(token) =>
      var cache := Cache(token, Date(s));
      (s.(cache := cache, issued := s.issued + {cache}), true)
  }

  /** pc_token. */
  function TokenRun(e: Endpoint, s: State): (State, bool) {
    var c := Attempts(e, s.clock, ATTEMPTS);
    var a, t := e(c.calls - 1), s.(clock := c, wasGet := false);
    if Is2xx(a) then Accept(a, t) else (t, false)
  }

  /** _pc_ensure_token. */
  function EnsureRun(e: Endpoint, s: State): (State, bool) {
    if Stale(s) then TokenRun(e, s) else (s, true)
  }

  function Send(e: Endpoint, s: State): State {
    var request := Sent(s.clock.calls, s.cache, s.cache in s.issued, Date(s));
    State(Curl(e, s.clock), true, s.cache, s.issued, s.sent + [request], s.polls)
  }

  /** pc_get with so many attempts left; the body it prints, if it succeeds. */
  function GetRun(e: Endpoint, s: State, left: nat): (r: (State, Option<Answer>))
    requires left > 0
    ensures s.clock.now <= r.0.clock.now
    decreases left, s
  {
    var (t, ok) := EnsureRun(e, s);
    if !ok then (t, None)
    else
      var a, u := e(t.clock.calls), Send(e, t);
      if Is2xx(a) then (u, Some(a))
      else if !Retryable(a) || left == 1 then (u, None)
      else GetRun(e, Pause(u, RETRY_PAUSE), left - 1)
  }

  /** status=$(pc_get ...): a subshell, whose changes to the token cache are lost. */
  function StatusRun(e: Endpoint, s: State): (State, Option<Answer>) {
    var (t, status) := GetRun(e, s, ATTEMPTS);
    (t.(cache := s.cache), status)
  }

  /** The part of an iteration of pc_wait_job that uses the network. */
  function IterationRun(e: Endpoint, s: State): (State, Option<Answer>) {
    var (t, ok) := EnsureRun(e, s);
    if !ok then (t, None)
    else
      var (u, status) := StatusRun(e, t);
      (u.(polls := u.polls + 1), status)
  }

  /** How pc_wait_job ends on a status, if it does; expired: the deadline has passed. */
  function Verdict(status: Option<Answer>, expired: bool): Option<JobEnd> {
    if status.None? then Some(RequestFailed)
    else if status.value.job.Completed? then Some(if status.value.job.succeeded then JobSucceeded else JobFailed)
    else if expired then Some(TimedOut)
    else None
  }

  /** pc_wait_job without done_fn, from an iteration on. */
  function WaitRun(e: Endpoint, s: State, deadline: int): (State, JobEnd)
    decreases deadline - Date(s)
  {
    var (t, status) := IterationRun(e, s);
    var verdict := Verdict(status, Date(t) >= deadline);
    if verdict.Some? then (t, verdict.value) else WaitRun(e, Pause(t, JOB_PAUSE), deadline)
  }

  // ----- the answers, spelled out

  /** curl failed, there was no response, or the code is 429 or 5xx. */
  predicate IsTransient(a: Answer) {
    a.rc != 0 || a.code == 0 || a.code == 429 || 500 <= a.code <= 599
  }

  /** curl exited 0, and the code is 2xx. */
  predicate IsSuccess(a: Answer) {
    a.rc == 0 && 200 <= a.code <= 299
  }

  lemma {:induction false} RetriesTransient(a: Answer)
    ensures !Is2xx(a) && Retryable(a) <==> IsTransient(a)
    ensures Is2xx(a) <==> IsSuccess(a)
  {
  }

  // ----- pc_token

  /** Time of n curl calls from the i-th on with a pause between any two. */
  function Elapsed(e: Endpoint, i: nat, n: nat): real
    decreases n
  {
    if n == 0 then 0.0
    else if n == 1 then e(i).took
    else e(i).took + 30.0 + Elapsed(e, i + 1, n - 1)
  }

  /** A request makes calls up to the first answer that is final, with the pauses between them. */
  lemma {:induction false} AttemptsMade(e: Endpoint, c: Clock, left: nat)
    requires left > 0
    ensures var d := Attempts(e, c, left);
            var n := d.calls - c.calls;
            && 1 <= n <= left && d.now == c.now + Elapsed(e, c.calls, n)
            && (forall i :: c.calls <= i < d.calls - 1 ==> IsTransient(e(i)))
            && (IsTransient(e(d.calls - 1)) ==> n == left)
    decreases left
  {
    RetriesTransient(e(c.calls));
    var a := e(c.calls);
    if !Is2xx(a) && Retryable(a) && left > 1 {
      AttemptsMade(e, Sleep(Curl(e, c), RETRY_PAUSE), left - 1);
    }
  }

  lemma {:induction false} AttemptsTime(e: Endpoint, c: Clock, left: nat)
    requires left > 0
    ensures Attempts(e, c, left).now <= c.now + left as real * ATTEMPT_MAX - RETRY_PAUSE
    decreases left
  {
    var a := e(c.calls);
    if !Is2xx(a) && Retryable(a) && left > 1 {
      AttemptsTime(e, Sleep(Curl(e, c), RETRY_PAUSE), left - 1);
    }
  }

  /** How pc_token's result and the cache it leaves depend on its last answer. */
  lemma {:induction false} TokenOutcome(e: Endpoint, s: State)
    ensures var (t, ok) := TokenRun(e, s);
            var last := e(t.clock.calls - 1);
            && t.sent == s.sent && !t.wasGet && s.clock.calls < t.clock.calls <= s.clock.calls + 4
            && s.clock.now <= t.clock.now <= s.clock.now + 570.0
            && (ok <==> IsSuccess(last) && last.accessToken.Some?)
            && (ok ==> t.cache == Cache(last.accessToken.value, t.clock.now.Floor))
            && t.issued == (if ok then s.issued + {t.cache} else s.issued)
            && (!ok ==> t.cache == if IsSuccess(last) then s.cache.(token := last.otherToken) else s.cache)
  {
    RetriesTransient(e(TokenRun(e, s).0.clock.calls - 1));
    AttemptsMade(e, s.clock, ATTEMPTS);
    AttemptsTime(e, s.clock, ATTEMPTS);
  }

  // ----- _pc_ensure_token

  /** The next request will carry a token that the endpoint issued. */
  predicate Sound(s: State) {
    s.cache.token == "" || s.clock.now.Floor - s.cache.fetchedAt >= 3000 || s.cache in s.issued
  }

  /** The endpoint never answers with an empty token, which would count as no token at all. */
  ghost predicate NoEmptyTokens(e: Endpoint) {
    forall i :: e(i).accessToken != Some("")
  }

  /**
   Afterwards the token is under 3000 seconds old, and it is an issued one exactly if it was to
   be renewed or was issued before.  A token is requested exactly if there is none or it is older.
   */
  lemma {:induction false} EnsureOutcome(e: Endpoint, s: State)
    ensures var (t, ok) := EnsureRun(e, s);
            var renew := s.cache.token == "" || s.clock.now.Floor - s.cache.fetchedAt >= 3000;
            && t.sent == s.sent && s.issued <= t.issued && t.polls == s.polls
            && (if renew then s.clock.calls < t.clock.calls <= s.clock.calls + 4 else ok && t == s)
            && s.clock.now <= t.clock.now <= s.clock.now + (if renew then 570.0 else 0.0)
            && (renew && ok ==> t.cache.fetchedAt == t.clock.now.Floor)
            && (ok ==> t.clock.now.Floor - t.cache.fetchedAt < 3000 && (t.cache in t.issued <==> Sound(s)))
            && (ok && NoEmptyTokens(e) ==> t.cache.token != "")
            && (!ok ==> !t.wasGet)
            && (!ok ==> !(IsSuccess(e(t.clock.calls - 1)) && e(t.clock.calls - 1).accessToken.Some?))
  {
    if Stale(s) {
      TokenOutcome(e, s);
    }
  }

  /**
   A failed pc_token can leave a token that was never issued but looks fresh: exactly after a
   2xx answer without a token, if what replaces the token is not empty, the old date is still
   recent, and no such token was issued at that date.
   */
  lemma {:induction false} UnsoundExactlyAfter(e: Endpoint, s: State)
    requires Sound(s)
    ensures var (t, ok) := TokenRun(e, s);
            var last := e(t.clock.calls - 1);
            !Sound(t) <==>
              && !ok && IsSuccess(last) && last.otherToken != ""
              && t.clock.now.Floor - s.cache.fetchedAt < 3000 && Cache(last.otherToken, s.cache.fetchedAt) !in s.issued
  {
    TokenOutcome(e, s);
  }

  // ----- pc_get

  predicate AllFresh(sent: seq<Sent>, from: nat) {
    forall i :: from <= i < |sent| ==> sent[i].checkedAt - sent[i].cache.fetchedAt < 3000
  }

  predicate AllIssued(sent: seq<Sent>, from: nat) {
    forall i :: from <= i < |sent| ==> sent[i].issued
  }


  /** Every request carries a fresh token, and all carry issued ones exactly if the cache was sound at the start. */
  lemma {:induction false} GetSends(e: Endpoint, s: State, left: nat)
    requires left > 0
    ensures var t := GetRun(e, s, left).0;
            && s.sent <= t.sent && |t.sent| <= |s.sent| + left && s.issued <= t.issued && t.polls == s.polls
            && AllFresh(t.sent, |s.sent|)
            && (AllIssued(t.sent, |s.sent|) <==> Sound(s))
    decreases left
  {
    EnsureOutcome(e, s);
    var (t, ok) := EnsureRun(e, s);
    if ok {
      var u := Send(e, t);
      var sent := u.sent[|s.sent|];
      assert sent == Sent(t.clock.calls, t.cache, Sound(s), Date(t));
      var a := e(t.clock.calls);
      if !Is2xx(a) && Retryable(a) && left > 1 {
        var w := Pause(u, RETRY_PAUSE);
        GetSends(e, w, left - 1);
        assert GetRun(e, s, left).0.sent[|s.sent|] == sent;
      }
    }
  }

  /** The last answer, if it is a 2xx one to a GET. */
  function LastGet(e: Endpoint, t: State): Option<Answer>
    requires t.clock.calls > 0
  {
    if t.wasGet && IsSuccess(e(t.clock.calls - 1)) then Some(e(t.clock.calls - 1)) else None
  }

  /** pc_get prints the answer to the last call, exactly if that was a GET answered with 2xx. */
  lemma {:induction false} GetPrints(e: Endpoint, s: State, left: nat)
    requires left > 0
    ensures var (t, body) := GetRun(e, s, left);
            s.clock.calls < t.clock.calls && body == LastGet(e, t)
    decreases left
  {
    EnsureOutcome(e, s);
    var (t, ok) := EnsureRun(e, s);
    var a := e(t.clock.calls);
    RetriesTransient(a);
    if ok && !Is2xx(a) && Retryable(a) && left > 1 {
      GetPrints(e, Pause(Send(e, t), RETRY_PAUSE), left - 1);
    }
  }

  /**
   A GET is followed by another one, after the pause and the token check, exactly if its answer
   is transient and it was not the last allowed.
   */
  lemma {:induction false} GetRetries(e: Endpoint, s: State, left: nat)
    requires left > 0
    ensures var t := GetRun(e, s, left).0;
            && s.sent <= t.sent && |t.sent| <= |s.sent| + left && s.clock.calls < t.clock.calls
            && (t.wasGet ==> |t.sent| > |s.sent| && t.sent[|t.sent| - 1].call == t.clock.calls - 1)
            && (forall i :: |s.sent| <= i < |t.sent| && !(t.wasGet && i == |t.sent| - 1) ==>
                              IsTransient(e(t.sent[i].call)))
            && (t.wasGet && IsTransient(e(t.clock.calls - 1)) ==> |t.sent| == |s.sent| + left)
    decreases left
  {
    EnsureOutcome(e, s);
    var (t, ok) := EnsureRun(e, s);
    var a := e(t.clock.calls);
    RetriesTransient(a);
    if ok && !Is2xx(a) && Retryable(a) && left > 1 {
      var w := Pause(Send(e, t), RETRY_PAUSE);
      GetRetries(e, w, left - 1);
      OneMoreRetried(e, s.sent, w.sent, GetRun(e, w, left - 1).0.sent);
    }
  }

  lemma {:induction false} OneMoreRetried(e: Endpoint, before: seq<Sent>, first: seq<Sent>, all: seq<Sent>)
    requires before <= first <= all && |first| == |before| + 1 && IsTransient(e(first[|before|].call))
    ensures IsTransient(e(all[|before|].call))
  {
    assert all[|before|] == first[|before|];
  }

  /** It fails on a refused GET, on a fourth failed one, or on a failed token request. */
  lemma {:induction false} GetFails(e: Endpoint, s: State, left: nat)
    requires left > 0
    ensures var (t, body) := GetRun(e, s, left);
            s.clock.calls < t.clock.calls &&
            var last := e(t.clock.calls - 1);
            (body.None? ==>
               if t.wasGet then !IsSuccess(last) && (IsTransient(last) ==> |t.sent| == |s.sent| + left)
               else !(IsSuccess(last) && last.accessToken.Some?))
    decreases left
  {
    EnsureOutcome(e, s);
    var (t, ok) := EnsureRun(e, s);
    var a := e(t.clock.calls);
    RetriesTransient(a);
    if ok && !Is2xx(a) && Retryable(a) && left > 1 {
      GetFails(e, Pause(Send(e, t), RETRY_PAUSE), left - 1);
    }
  }

  /** The longest pc_get can take, with four token refreshes. */
  lemma {:induction false} GetTime(e: Endpoint, s: State, left: nat)
    requires left > 0
    ensures GetRun(e, s, left).0.clock.now
         <= s.clock.now + left as real * (ATTEMPT_MAX + REQUEST_MAX) - RETRY_PAUSE
    decreases left
  {
    EnsureOutcome(e, s);
    var (t, ok) := EnsureRun(e, s);
    var a := e(t.clock.calls);
    if ok && !Is2xx(a) && Retryable(a) && left > 1 {
      GetTime(e, Pause(Send(e, t), RETRY_PAUSE), left - 1);
    }
  }

  /** No refresh happens while a recent token's request is retried. */
  lemma {:induction false} GetTimeRecent(e: Endpoint, s: State, left: nat)
    requires left > 0 && s.cache.token != ""
    requires Date(s) - s.cache.fetchedAt + 150 * (left - 1) < TOKEN_LIFE
    ensures GetRun(e, s, left).0.clock.now <= s.clock.now + left as real * ATTEMPT_MAX - RETRY_PAUSE
    decreases left
  {
    var a := e(s.clock.calls);
    if !Is2xx(a) && Retryable(a) && left > 1 {
      GetTimeRecent(e, Pause(Send(e, s), RETRY_PAUSE), left - 1);
    }
  }

  /** With non-empty tokens one refresh at most is needed. */
  lemma {:induction false} GetTimeNonEmpty(e: Endpoint, s: State, left: nat)
    requires 0 < left <= 4 && NoEmptyTokens(e)
    ensures GetRun(e, s, left).0.clock.now <= s.clock.now + left as real * 150.0 - 30.0 + 570.0
    decreases left
  {
    EnsureOutcome(e, s);
    var (t, ok) := EnsureRun(e, s);
    var a := e(t.clock.calls);
    if ok && !Is2xx(a) && Retryable(a) && left > 1 {
      var w := Pause(Send(e, t), RETRY_PAUSE);
      if Stale(s) {
        GetTimeRecent(e, w, left - 1);
      } else {
        GetTimeNonEmpty(e, w, left - 1);
      }
    }
  }

  /** So on a fresh shell: a token, a 2xx answer without one, and a GET that sends what jq printed instead. */
  lemma {:induction false} NullTokenIsSent(e: Endpoint, now: real)
    requires Is2xx(e(0)) && e(0).accessToken == Some("good")
    requires Is2xx(e(1)) && e(1).accessToken == None && e(1).otherToken == "null"
    ensures var s := TokenRun(e, State(Clock(now, 0), false, Cache("", 0), {}, [], 0)).0;
            var t := TokenRun(e, s).0;
            var u := GetRun(e, t, ATTEMPTS).0;
            u.sent != [] && u.sent[0].cache.token == "null" && !u.sent[0].issued
  {
    var start := State(Clock(now, 0), false, Cache("", 0), {}, [], 0);
    var s := TokenRun(e, start).0;
    assert s.cache == Cache("good", Date(s)) && s.issued == {s.cache} && s.clock.calls == 1;
    var t := TokenRun(e, s).0;
    assert t.cache == Cache("null", Date(s)) && !Stale(t) && t.cache !in t.issued;
    FirstRequest(e, t, ATTEMPTS);
  }

  /** A cache that is not stale is used as it is. */
  lemma {:induction false} FirstRequest(e: Endpoint, s: State, left: nat)
    requires left > 0 && !Stale(s) && s.sent == []
    ensures var t := GetRun(e, s, left).0;
            t.sent != [] && t.sent[0] == Sent(s.clock.calls, s.cache, s.cache in s.issued, Date(s))
  {
    var a := e(s.clock.calls);
    if !Is2xx(a) && Retryable(a) && left > 1 {
      GetSends(e, Pause(Send(e, s), RETRY_PAUSE), left - 1);
    }
  }

  // ----- pc_wait_job

  /** The longest one iteration of pc_wait_job can take before its sleep. */
  function IterationMax(nonEmpty: bool): real {
    if nonEmpty then 2.0 * REQUEST_MAX else 6.0 * REQUEST_MAX
  }

  lemma {:induction false} IterationTime(e: Endpoint, s: State)
    ensures var t := IterationRun(e, s).0;
            && s.clock.now <= t.clock.now <= s.clock.now + IterationMax(false)
            && (NoEmptyTokens(e) ==> t.clock.now <= s.clock.now + IterationMax(true))
  {
    EnsureOutcome(e, s);
    var (t, ok) := EnsureRun(e, s);
    if ok {
      GetTime(e, t, ATTEMPTS);
      if NoEmptyTokens(e) {
        if Stale(s) {
          GetTimeRecent(e, t, ATTEMPTS);
        } else {
          GetTimeNonEmpty(e, t, ATTEMPTS);
        }
      }
    }
  }

  /** The subshell's cache is lost, and the cache the loop goes on with is sound exactly if it was before. */
  lemma {:induction false} IterationSends(e: Endpoint, s: State)
    ensures var (t, status) := IterationRun(e, s);
            && s.polls <= t.polls && |t.sent| <= |s.sent| + (t.polls - s.polls) * ATTEMPTS
            && s.sent <= t.sent && s.issued <= t.issued
            && AllFresh(t.sent, |s.sent|)
            && (AllIssued(t.sent, |s.sent|) <==> Sound(s))
            && (status.Some? && Sound(s) ==> t.cache in t.issued)
  {
    EnsureOutcome(e, s);
    var (t, ok) := EnsureRun(e, s);
    if ok {
      GetSends(e, t, ATTEMPTS);
    }
  }

  /** A status is seen exactly if the last call was a GET answered with 2xx. */
  lemma {:induction false} IterationStatus(e: Endpoint, s: State)
    ensures var (t, status) := IterationRun(e, s);
            s.clock.calls < t.clock.calls && status == LastGet(e, t)
  {
    EnsureOutcome(e, s);
    var (t, ok) := EnsureRun(e, s);
    if ok {
      GetPrints(e, t, ATTEMPTS);
    }
  }

  lemma {:induction false} AllIssuedSplit(a: seq<Sent>, b: seq<Sent>, from: nat)
    requires from <= |a| && a <= b
    ensures AllIssued(b, from) <==> AllIssued(a, from) && AllIssued(b, |a|)
    ensures AllFresh(b, from) <==> AllFresh(a, from) && AllFresh(b, |a|)
  {
    assert forall i :: 0 <= i < |a| ==> a[i] == b[i];
  }

  /**
   Every request of pc_wait_job carries a fresh token, and all carry issued ones exactly if the
   cache was sound at the start.
   */
  lemma {:induction false} WaitSends(e: Endpoint, s: State, deadline: int)
    ensures var (t, end) := WaitRun(e, s, deadline);
            && s.polls <= t.polls && |t.sent| <= |s.sent| + (t.polls - s.polls) * ATTEMPTS
            && s.sent <= t.sent && s.issued <= t.issued
            && AllFresh(t.sent, |s.sent|)
            && (AllIssued(t.sent, |s.sent|) <==> Sound(s))
    decreases deadline - Date(s)
  {
    IterationSends(e, s);
    var (t, status) := IterationRun(e, s);
    if Verdict(status, Date(t) >= deadline).None? {
      var w := Pause(t, JOB_PAUSE);
      WaitSends(e, w, deadline);
      AllIssuedSplit(t.sent, WaitRun(e, s, deadline).0.sent, |s.sent|);
    }
  }

  lemma {:induction false} IterationPolls(e: Endpoint, s: State)
    ensures var (t, status) := IterationRun(e, s);
            s.polls <= t.polls <= s.polls + 1
  {
    EnsureOutcome(e, s);
    GetSends(e, EnsureRun(e, s).0, ATTEMPTS);
  }

  /** Polls are a minute apart, and the last iteration begins at most a minute after the deadline. */
  lemma {:induction false} WaitTime(e: Endpoint, s: State, deadline: int)
    ensures var (t, end) := WaitRun(e, s, deadline);
            var latest := if s.clock.now > (deadline + 60) as real then s.clock.now else (deadline + 60) as real;
            && s.clock.now <= t.clock.now <= latest + IterationMax(false)
            && (NoEmptyTokens(e) ==> t.clock.now <= latest + IterationMax(true))
            && s.polls <= t.polls
            && (t.polls - s.polls >= 2 ==> 60 * (t.polls - s.polls - 1) < deadline - Date(s) + 60)
    decreases deadline - Date(s)
  {
    IterationTime(e, s);
    IterationPolls(e, s);
    var (t, status) := IterationRun(e, s);
    if Verdict(status, Date(t) >= deadline).None? {
      WaitTime(e, Pause(t, JOB_PAUSE), deadline);
    }
  }

  /** The state after iteration n of the loop, counted from 0, if the wait goes that far. */
  function AfterIteration(e: Endpoint, s: State, n: nat): State
    decreases n
  {
    if n == 0 then IterationRun(e, s).0 else AfterIteration(e, Pause(IterationRun(e, s).0, 60.0), n - 1)
  }

  /** The last answer was a 2xx one to a GET, its job was not completed, and the deadline had not passed. */
  predicate GoesOn(e: Endpoint, t: State, deadline: int) {
    && t.clock.calls > 0 && t.wasGet && IsSuccess(e(t.clock.calls - 1))
    && !e(t.clock.calls - 1).job.Completed? && t.clock.now.Floor < deadline
  }

  /** After the first iteration the wait is over or goes on a minute later. */
  lemma {:induction false} WaitStep(e: Endpoint, s: State, deadline: int, t: State, status: Option<Answer>)
    requires IterationRun(e, s) == (t, status)
    ensures s.clock.now <= t.clock.now
    ensures var verdict := Verdict(status, Date(t) >= deadline);
            WaitRun(e, s, deadline) ==
            if verdict.Some? then (t, verdict.value) else WaitRun(e, Pause(t, JOB_PAUSE), deadline)
  {
    IterationTime(e, s);
  }

  /** What an iteration that ends in t makes of the last answer. */
  lemma {:induction false} VerdictMeans(e: Endpoint, t: State, deadline: int)
    requires t.clock.calls > 0
    ensures var verdict := Verdict(LastGet(e, t), Date(t) >= deadline);
            var got, job := t.wasGet && IsSuccess(e(t.clock.calls - 1)), e(t.clock.calls - 1).job;
            && (verdict.None? <==> GoesOn(e, t, deadline))
            && (verdict == Some(JobSucceeded) <==> got && job == Completed(true))
            && (verdict == Some(JobFailed) <==> got && job == Completed(false))
            && (verdict == Some(TimedOut) <==> got && !job.Completed? && t.clock.now.Floor >= deadline)
            && (verdict == Some(RequestFailed) <==> !got)
  {
  }

  /** The first iteration, and whether the wait goes on after it. */
  lemma {:induction false} FirstIteration(e: Endpoint, s: State, deadline: int)
    ensures var t := IterationRun(e, s).0;
            && s.clock.calls < t.clock.calls
            && if GoesOn(e, t, deadline) then
                 && WaitRun(e, s, deadline) == WaitRun(e, Pause(t, 60.0), deadline)
                 && Date(s) < deadline && Date(s) < Date(Pause(t, 60.0))
               else
                 var verdict := Verdict(LastGet(e, t), Date(t) >= deadline);
                 verdict.Some? && WaitRun(e, s, deadline) == (t, verdict.value)
  {
    IterationStatus(e, s);
    var (t, status) := IterationRun(e, s);
    WaitStep(e, s, deadline, t, status);
    VerdictMeans(e, t, deadline);
  }

  /** The wait is over after the first iteration that does not let it go on. */
  lemma {:induction false} WaitPath(e: Endpoint, s: State, deadline: int) returns (n: nat)
    ensures var (t, end) := WaitRun(e, s, deadline);
            && t == AfterIteration(e, s, n) && s.clock.calls < t.clock.calls
            && (forall k: nat :: k < n ==> GoesOn(e, AfterIteration(e, s, k), deadline))
            && Verdict(LastGet(e, t), Date(t) >= deadline) == Some(end)
    decreases deadline - Date(s), 1
  {
    FirstIteration(e, s, deadline);
    var t := IterationRun(e, s).0;
    n := 0;
    if GoesOn(e, t, deadline) {
      n := LaterPath(e, s, t, Pause(t, 60.0), deadline);
    }
  }

  lemma {:induction false} LaterPath(e: Endpoint, s: State, t: State, w: State, deadline: int) returns (n: nat)
    requires t == IterationRun(e, s).0 && w == Pause(t, 60.0) && GoesOn(e, t, deadline)
    requires WaitRun(e, s, deadline) == WaitRun(e, w, deadline)
    requires s.clock.calls < t.clock.calls && Date(s) < deadline && Date(s) < Date(w)
    ensures var (u, end) := WaitRun(e, s, deadline);
            && u == AfterIteration(e, s, n) && s.clock.calls < u.clock.calls
            && (forall k: nat :: k < n ==> GoesOn(e, AfterIteration(e, s, k), deadline))
            && Verdict(LastGet(e, u), Date(u) >= deadline) == Some(end)
    decreases deadline - Date(s), 0
  {
    var m := WaitPath(e, w, deadline);
    n := m + 1;
    PathGrows(e, s, w, deadline, m);
  }

  lemma {:induction false} PathGrows(e: Endpoint, s: State, w: State, deadline: int, m: nat)
    requires w == Pause(IterationRun(e, s).0, 60.0) && GoesOn(e, IterationRun(e, s).0, deadline)
    requires forall k: nat :: k < m ==> GoesOn(e, AfterIteration(e, w, k), deadline)
    ensures forall k: nat :: k < m + 1 ==> GoesOn(e, AfterIteration(e, s, k), deadline)
    ensures AfterIteration(e, s, m + 1) == AfterIteration(e, w, m)
  {
    forall k: nat | k < m + 1 ensures GoesOn(e, AfterIteration(e, s, k), deadline) {
      assert k > 0 ==> AfterIteration(e, s, k) == AfterIteration(e, w, k - 1);
    }
  }

  /**
   pc_wait_job ends after the first iteration that leaves nothing to wait for, and how it ends
   is decided by the answer to the last call.
   */
  lemma {:induction false} WaitEnds(e: Endpoint, s: State, deadline: int) returns (n: nat)
    ensures var (t, end) := WaitRun(e, s, deadline);
            && t == AfterIteration(e, s, n) && s.clock.calls < t.clock.calls
            && (forall k: nat :: k < n ==> GoesOn(e, AfterIteration(e, s, k), deadline))
            && var last := e(t.clock.calls - 1);
               var got := t.wasGet && IsSuccess(last);
               && (end.JobSucceeded? <==> got && last.job == Completed(true))
               && (end.JobFailed? <==> got && last.job == Completed(false))
               && (end.TimedOut? <==> got && !last.job.Completed? && t.clock.now.Floor >= deadline)
               && (end.RequestFailed? <==> !got)
  {
    n := WaitPath(e, s, deadline);
    VerdictMeans(e, WaitRun(e, s, deadline).0, deadline);
  }

  /** pc_wait_job as a whole. */
  lemma {:induction false} JobBounds(e: Endpoint, s: State, deadline: int)
    requires deadline == s.clock.now.Floor + 3600
    ensures var (t, end) := WaitRun(e, s, deadline);
            && t.polls <= s.polls + 61 && |t.sent| <= |s.sent| + 244
            && t.clock.now <= s.clock.now + 7080.0 && (NoEmptyTokens(e) ==> t.clock.now <= s.clock.now + 4800.0)
  {
    WaitTime(e, s, deadline);
    WaitSends(e, s, deadline);
  }

  // ----- the script

  class Shell {
    const answers: Endpoint
    var now: real
    var calls: nat
    var token: string
    var fetchedAt: int
    ghost var wasGet: bool
    ghost var issued: set<Cache>
    ghost var sent: seq<Sent>
    ghost var polls: nat

    constructor (answers: Endpoint, now: real)
      ensures this.answers == answers && Value() == State(Clock(now, 0), false, Cache("", 0), {}, [], 0)
    {
      this.answers, this.now, calls := answers, now, 0;
      token, fetchedAt := "", 0;
      wasGet, issued, sent, polls := false, {}, [], 0;
    }

    ghost function Time(): Clock
      reads this
    {
      Clock(now, calls)
    }

    ghost function Value(): State
      reads this
    {
      State(Time(), wasGet, Cache(token, fetchedAt), issued, sent, polls)
    }

    method RunCurl() returns (a: Answer)
      modifies this`now, this`calls
      ensures a == answers(old(calls)) && Time() == Curl(answers, old(Time()))
    {
      a := answers(calls);
      calls := calls + 1;
      now := now + a.took;
    }

    method AcceptToken(a: Answer) returns (ok: bool)
      modifies this`token, this`fetchedAt, this`issued
      ensures (Value(), ok) == Accept(a, old(Value()))
    {
      if a.accessToken.None? {
        token := a.otherToken;
        return false;
      }
      token, fetchedAt := a.accessToken.value, now.Floor;
      issued := issued + {Cache(token, fetchedAt)};
      return true;
    }

    /** pc_token: retryable failures are retried up to three times. */
    method PcToken() returns (ok: bool)
      modifies this
      ensures (Value(), ok) == TokenRun(answers, old(Value()))
    {
      wasGet := false;
      var attempt := 1;
      while attempt <= ATTEMPTS
        invariant 1 <= attempt <= ATTEMPTS + 1 && calls >= old(calls)
        invariant token == old(token) && fetchedAt == old(fetchedAt) && issued == old(issued)
        invariant !wasGet && sent == old(sent) && polls == old(polls)
        invariant attempt <= ATTEMPTS ==>
                    Attempts(answers, old(Time()), ATTEMPTS) == Attempts(answers, Time(), ATTEMPTS + 1 - attempt)
        invariant attempt > ATTEMPTS ==>
                    Attempts(answers, old(Time()), ATTEMPTS) == Time() && calls > 0 && !Is2xx(answers(calls - 1))
      {
        var a := RunCurl();
        if Is2xx(a) {
          ok := AcceptToken(a);
          return;
        }
        if !Retryable(a) {
          return false;
        }
        if attempt != ATTEMPTS {
          now := now + RETRY_PAUSE;
        }
        attempt := attempt + 1;
      }
      return false;
    }

    /** _pc_ensure_token. */
    method EnsureToken() returns (ok: bool)
      modifies this
      ensures (Value(), ok) == EnsureRun(answers, old(Value()))
    {
      ok := true;
      if token == "" || now.Floor - fetchedAt >= TOKEN_LIFE {
        ok := PcToken();
      }
    }

    /** pc_get: prints the body of the first 2xx answer; other answers are retried up to three times if retryable. */
    method PcGet() returns (body: Option<Answer>)
      modifies this
      ensures (Value(), body) == GetRun(answers, old(Value()), ATTEMPTS)
    {
      var attempt := 1;
      while attempt <= ATTEMPTS
        invariant 1 <= attempt <= ATTEMPTS + 1
        invariant attempt <= ATTEMPTS ==>
                    GetRun(answers, old(Value()), ATTEMPTS) == GetRun(answers, Value(), ATTEMPTS + 1 - attempt)
        invariant attempt > ATTEMPTS ==> GetRun(answers, old(Value()), ATTEMPTS) == (Value(), None)
      {
        var ok := EnsureToken();
        if !ok {
          return None;
        }
        sent := sent + [Sent(calls, Cache(token, fetchedAt), Cache(token, fetchedAt) in issued, now.Floor)];
        wasGet := true;
        var a := RunCurl();
        if Is2xx(a) {
          return Some(a);
        }
        if !Retryable(a) {
          return None;
        }
        if attempt != ATTEMPTS {
          now := now + RETRY_PAUSE;
        }
        attempt := attempt + 1;
      }
      return None;
    }

    /** status=$(pc_get ...) */
    method PollStatus() returns (status: Option<Answer>)
      modifies this
      ensures (Value(), status) == StatusRun(answers, old(Value()))
    {
      var savedToken, savedFetchedAt := token, fetchedAt;
      status := PcGet();
      token, fetchedAt := savedToken, savedFetchedAt;
    }

    method RefreshAndPoll() returns (status: Option<Answer>)
      modifies this
      ensures (Value(), status) == IterationRun(answers, old(Value()))
    {
      var ok := EnsureToken();
      if !ok {
        return None;
      }
      status := PollStatus();
      polls := polls + 1;
    }

    /** What an iteration of pc_wait_job makes of a status: how the wait ends, or None after the sleep. */
    method Judge(status: Option<Answer>, deadline: int) returns (end: Option<JobEnd>)
      modifies this`now
      ensures end == Verdict(status, old(now).Floor >= deadline)
      ensures now == if end.Some? then old(now) else old(now) + JOB_PAUSE
    {
      if status.None? {
        return Some(RequestFailed);
      }
      if status.value.job.Completed? {
        return Some(if status.value.job.succeeded then JobSucceeded else JobFailed);
      }
      if now.Floor >= deadline {
        return Some(TimedOut);
      }
      now := now + JOB_PAUSE;
      return None;
    }

    /** An iteration of pc_wait_job. */
    method JobIteration(deadline: int) returns (end: Option<JobEnd>)
      modifies this
      ensures WaitRun(answers, old(Value()), deadline) ==
              if end.Some? then (Value(), end.value) else WaitRun(answers, Value(), deadline)
      ensures end.None? ==> old(now).Floor < now.Floor && old(now).Floor < deadline
    {
      ghost var before := Value();
      var status := RefreshAndPoll();
      ghost var after := Value();
      WaitStep(answers, before, deadline, after, status);
      end := Judge(status, deadline);
      assert Value() == if end.Some? then after else Pause(after, JOB_PAUSE);
    }

    /** pc_wait_job without done_fn. */
    method PcWaitJob() returns (end: JobEnd)
      modifies this
      ensures (Value(), end) == WaitRun(answers, old(Value()), old(now).Floor + 3600)
    {
      var deadline := now.Floor + JOB_LIMIT;
      while true
        invariant WaitRun(answers, old(Value()), deadline) == WaitRun(answers, Value(), deadline)
        decreases deadline - now.Floor
      {
        var ended := JobIteration(deadline);
        if ended.Some? {
          return ended.value;
        }
      }
    }
  }
}
