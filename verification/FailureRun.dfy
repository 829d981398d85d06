/**
 ci/common-scripts/partner-center.sh: pc_poll_failed and pc_poll_succeeded, which bound a run
 of failing polls in a wait of days.
 */
module FailureRun {
  import opened Basics

  const GIVE_UP_AFTER := 3600
  const POLL_PAUSE := 600.0

  function FirstFailure(recorded: Option<int>, date: int): int {
    if recorded.None? then date else recorded.value
  }

  /** A poll that ended at some time, well or not. */
  datatype Poll = Poll(at: real, failed: bool)

  /** PC_POLL_FIRST_FAILURE after the polls. */
  function Recorded(polls: seq<Poll>): Option<int> {
    if polls == [] then None
    else
      var last := polls[|polls| - 1];
      if last.failed then Some(FirstFailure(Recorded(polls[..|polls| - 1]), last.at.Floor)) else None
  }

  /** pc_poll_failed gives up after the last of the polls. */
  predicate GivesUp(polls: seq<Poll>) {
    polls != [] && polls[|polls| - 1].failed && polls[|polls| - 1].at.Floor - Recorded(polls).value >= GIVE_UP_AFTER
  }

  /** Time moves on, and by ten minutes after a failure that was not given up on. */
  predicate Timed(polls: seq<Poll>) {
    forall i :: 0 <= i < |polls| - 1 ==> polls[i].at + (if polls[i].failed then 600.0 else 0.0) <= polls[i + 1].at
  }

  /** k is the first failure since the last success. */
  predicate StartsRun(polls: seq<Poll>, k: nat) {
    k < |polls| && (k == 0 || !polls[k - 1].failed) && forall i :: k <= i < |polls| ==> polls[i].failed
  }

  lemma {:induction false} RecordedIsRunStart(polls: seq<Poll>, k: nat)
    requires StartsRun(polls, k)
    ensures Recorded(polls) == Some(polls[k].at.Floor)
  {
    var init := polls[..|polls| - 1];
    if k < |init| {
      assert StartsRun(init, k) by { assert forall i :: 0 <= i < |init| ==> init[i] == polls[i]; }
      RecordedIsRunStart(init, k);
    } else if k > 0 {
      assert init[|init| - 1] == polls[k - 1];
    }
  }

  /** Polling is given up exactly when an hour has passed since the first failure after the last success. */
  lemma {:induction false} GivesUpAfterAnHour(polls: seq<Poll>, k: nat)
    requires StartsRun(polls, k)
    ensures GivesUp(polls) <==> polls[|polls| - 1].at.Floor - polls[k].at.Floor >= 3600
  {
    RecordedIsRunStart(polls, k);
  }

  lemma {:induction false} PausesAddUp(polls: seq<Poll>, k: nat, n: nat)
    requires Timed(polls) && k + n < |polls| && forall i :: k <= i < |polls| ==> polls[i].failed
    ensures polls[k + n].at >= polls[k].at + n as real * 600.0
  {
    if n > 0 {
      PausesAddUp(polls, k, n - 1);
      assert polls[k + n - 1].at + 600.0 <= polls[k + n].at;
    }
  }

  lemma {:induction false} SevenAreTooMany(polls: seq<Poll>, k: nat)
    requires Timed(polls) && StartsRun(polls, k) && |polls| - k >= 7
    ensures GivesUp(polls)
  {
    PausesAddUp(polls, k, |polls| - 1 - k);
    GivesUpAfterAnHour(polls, k);
  }

  /** Failures ten minutes apart. */
  function FailuresFrom(start: real, n: nat): (polls: seq<Poll>)
    ensures |polls| == n && Timed(polls) && (n > 0 ==> StartsRun(polls, 0))
  {
    seq(n, i requires 0 <= i < n => Poll(start + i as real * 600.0, true))
  }

  /** n consecutive failures always make the caller give up. */
  ghost predicate AlwaysGivesUp(n: nat) {
    forall polls, k :: Timed(polls) && StartsRun(polls, k) && |polls| - k == n ==> GivesUp(polls)
  }

  /** Hence at the latest with the seventh consecutive failure: six can still go on. */
  lemma {:induction false} SeventhFailureGivesUp(n: nat)
    requires n > 0
    ensures AlwaysGivesUp(n) <==> n >= 7
  {
    if n >= 7 {
      forall polls, k | Timed(polls) && StartsRun(polls, k) && |polls| - k == n
        ensures GivesUp(polls)
      {
        SevenAreTooMany(polls, k);
      }
    } else {
      var polls := FailuresFrom(0.0, n);
      GivesUpAfterAnHour(polls, 0);
      assert polls[n - 1].at.Floor <= 3000;
      assert Timed(polls) && StartsRun(polls, 0) && |polls| - 0 == n && !GivesUp(polls);
    }
  }

  type duration = d: real | 0.0 <= d

  /** How long the next poll will take, and whether it will fail. */
  datatype Attempt = Attempt(took: duration, failed: bool)

  /** When the next poll can begin. */
  function NextFrom(polls: seq<Poll>): real
    requires polls != []
  {
    var last := polls[|polls| - 1];
    last.at + (if last.failed then POLL_PAUSE else 0.0)
  }

  lemma {:induction false} AddPoll(polls: seq<Poll>, x: Poll)
    ensures Recorded(polls + [x]) == if x.failed then Some(FirstFailure(Recorded(polls), x.at.Floor)) else None
    ensures Timed(polls) && (polls != [] ==> NextFrom(polls) <= x.at) ==> Timed(polls + [x])
  {
    assert (polls + [x])[..|polls|] == polls;
  }

  class PollRun {
    var now: real
    var firstFailure: Option<int>  // PC_POLL_FIRST_FAILURE
    ghost var polls: seq<Poll>

    constructor (now: real)
      ensures this.now == now && polls == [] && Valid()
    {
      this.now, firstFailure, polls := now, None, [];
    }

    ghost predicate Valid()
      reads this
    {
      firstFailure == Recorded(polls) && Timed(polls) && (polls != [] ==> NextFrom(polls) <= now)
    }

    /** Gives up once the current run of failures is an hour old; otherwise waits ten minutes. */
    method PcPollFailed() returns (goOn: bool)
      requires Valid()
      modifies this
      ensures polls == old(polls) + [Poll(old(now), true)] && Timed(polls)
      ensures goOn <==> !GivesUp(polls)
      ensures goOn ==> Valid()
      ensures now == if goOn then old(now) + 600.0 else old(now)
    {
      AddPoll(polls, Poll(now, true));
      polls := polls + [Poll(now, true)];
      var date := now.Floor;
      firstFailure := Some(if firstFailure.None? then date else firstFailure.value);
      if date - firstFailure.value >= GIVE_UP_AFTER {
        return false;
      }
      now := now + POLL_PAUSE;
      return true;
    }

    method PcPollSucceeded()
      requires Valid()
      modifies this
      ensures Valid() && polls == old(polls) + [Poll(now, false)] && now == old(now)
    {
      AddPoll(polls, Poll(now, false));
      polls := polls + [Poll(now, false)];
      firstFailure := None;
    }

    method Follow(attempt: Attempt) returns (goOn: bool)
      requires Valid() && !GivesUp(polls)
      modifies this
      ensures |polls| == |old(polls)| + 1 && polls[..|old(polls)|] == old(polls) && Timed(polls)
      ensures polls[|old(polls)|].failed == attempt.failed
      ensures goOn <==> !GivesUp(polls)
      ensures goOn ==> Valid()
    {
      now := now + attempt.took;
      goOn := true;
      if attempt.failed {
        goOn := PcPollFailed();
      } else {
        PcPollSucceeded();
      }
    }

    /** A caller's loop over polls that take so long and end so: it stops with the first that is given up on. */
    method FollowPolls(attempts: seq<Attempt>) returns (gaveUp: bool)
      requires Valid() && polls == []
      modifies this
      ensures |polls| <= |attempts| && Timed(polls) && SameEnds(polls, attempts)
      ensures WentOn(polls) && (gaveUp <==> GivesUp(polls))
      ensures !gaveUp ==> |polls| == |attempts|
    {
      for i := 0 to |attempts|
        invariant Valid() && |polls| == i && !GivesUp(polls) && WentOn(polls) && SameEnds(polls, attempts)
      {
        ghost var before := polls;
        var goOn := Follow(attempts[i]);
        OneMore(before, polls, attempts);
        if !goOn {
          return true;
        }
      }
      return false;
    }
  }

  predicate SameEnds(polls: seq<Poll>, attempts: seq<Attempt>) {
    |polls| <= |attempts| && forall i :: 0 <= i < |polls| ==> polls[i].failed == attempts[i].failed
  }

  /** No poll but the last can have been given up on. */
  predicate WentOn(polls: seq<Poll>) {
    forall i :: 0 <= i < |polls| ==> !GivesUp(polls[..i])
  }

  lemma {:induction false} OneMore(before: seq<Poll>, polls: seq<Poll>, attempts: seq<Attempt>)
    requires |polls| == |before| + 1 <= |attempts| && polls[..|before|] == before
    requires WentOn(before) && !GivesUp(before) && SameEnds(before, attempts)
    requires polls[|before|].failed == attempts[|before|].failed
    ensures WentOn(polls) && SameEnds(polls, attempts)
  {
    forall i | 0 <= i < |polls| ensures !GivesUp(polls[..i]) {
      assert i < |before| ==> polls[..i] == before[..i];
    }
    forall i | 0 <= i < |before| ensures polls[i].failed == attempts[i].failed {
      assert polls[i] == before[i];
    }
  }
}
