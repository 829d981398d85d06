/** What the construct protocol's traces look like, and what they mean for the VM. */
module ConstructRuns {
  import opened Basics
  import opened WinRM
  import opened Construct

  // ----- the calls and their replies, spelled out

  /** The place of a call in the one sequence PrepareVM goes through. */
  function Rank(call: Call): nat {
    match call
    case MakeProvisionDir => 0
    case UploadLgpo => 1
    case UploadAutomation => 2
    case UnzipModules => 3
    case UnzipScript => 4
    case StartWinRm => 5
    case WinRmExit => 6
    case ReachVm => 7
    case LoginVm => 8
    case ExtractArchive => 9
    case LogOutUsers => 10
    case SetupScript => 11
    case ScheduleReboot => 12
    case AbortReboot => 13
    case PostRebootScript => 14
    case PowerState => 15
  }

  /** A remote command that was carried out and exited 0. */
  predicate IsAccepted(x: Exchange, call: Call) {
    x.call == call && x.reply.exit == 0 && x.reply.err.None?
  }

  predicate IsFailed(x: Exchange, call: Call) {
    x.call == call && (x.reply.exit != 0 || x.reply.err.Some?)
  }

  /** The calls to govc are known by their exit code alone, some others by their error alone. */
  predicate ReplyOk(x: Exchange) {
    && (x.call !in {UnzipModules, UnzipScript, StartWinRm, ReachVm, LoginVm} ==> x.reply.exit == 0)
    && (x.call !in {MakeProvisionDir, UploadLgpo, UploadAutomation} ==> x.reply.err.None?)
  }

  /** The post-reboot script failed, and not by losing the connection. */
  predicate ScriptFailed(reply: Reply) {
    if reply.err.None? then reply.exit != 0 && !Contains(reply.out, "winrm connection event")
    else
      Contains(reply.err.value, "powershell encountered an issue")
      && !Contains(reply.err.value, "winrm connection event")
  }

  /** vm.info succeeded, and off says whether it named the state poweredOff. */
  predicate Observed(x: Exchange, off: bool) {
    x.call == PowerState && x.reply.exit == 0 && x.reply.err.None? && (Contains(x.reply.out, "poweredOff") <==> off)
  }

  lemma {:induction false} RepliesDecide(x: Exchange)
    ensures StepOk(x.call, x.reply) <==> ReplyOk(x)
    ensures FatalPostReboot(x.reply) <==> ScriptFailed(x.reply)
    ensures x.call == PowerState ==> (PowerSeen(x.reply) == Off <==> Observed(x, true))
    ensures x.call == PowerState ==> (PowerSeen(x.reply) == On <==> Observed(x, false))
  {
    PostRebootClassification(x.reply);
  }

  // ----- the wait for the reboot

  /** f failed schedules, an accepted one, then n failed aborts. */
  predicate AbortingTrace(xs: seq<Exchange>, f: nat, n: nat) {
    && |xs| == f + 1 + n && n <= 4
    && (forall i :: 0 <= i < f ==> IsFailed(xs[i], ScheduleReboot))
    && IsAccepted(xs[f], ScheduleReboot)
    && (forall i :: f < i < |xs| ==> IsFailed(xs[i], AbortReboot))
  }

  /** ... and then one abort that exits 0. */
  predicate RebootTrace(xs: seq<Exchange>, f: nat, n: nat) {
    |xs| > 0 && AbortingTrace(xs[..|xs| - 1], f, n) && IsAccepted(xs[|xs| - 1], AbortReboot)
  }

  lemma {:induction false} SchedulingShape(xs: seq<Exchange>)
    ensures Follow(Scheduling, xs) == Some(Scheduling) <==>
              forall i :: 0 <= i < |xs| ==> IsFailed(xs[i], ScheduleReboot)
    ensures Follow(Scheduling, xs).Some? ==> !Follow(Scheduling, xs).value.Fixed?
  {
    if xs != [] {
      var init, last := xs[..|xs| - 1], xs[|xs| - 1];
      SchedulingShape(init);
      assert xs == init + [last];
      FollowSnoc(Scheduling, init, last);
    }
  }

  lemma {:induction false} AbortingShape(xs: seq<Exchange>, n: nat)
    ensures Follow(Scheduling, xs) == Some(Aborting(n)) <==> |xs| > n && AbortingTrace(xs, |xs| - n - 1, n)
  {
    if xs != [] {
      var init, last := xs[..|xs| - 1], xs[|xs| - 1];
      assert xs == init + [last];
      FollowSnoc(Scheduling, init, last);
      if n == 0 {
        SchedulingShape(init);
      } else {
        AbortingShape(init, n - 1);
      }
    }
  }

  /** WaitForRebootFinished succeeds exactly on these traces. */
  lemma {:induction false} RebootShape(xs: seq<Exchange>)
    ensures Follow(Scheduling, xs) == Some(PostScript) <==> exists f, n :: RebootTrace(xs, f, n)
  {
    if xs != [] {
      var init, last := xs[..|xs| - 1], xs[|xs| - 1];
      assert xs == init + [last];
      FollowSnoc(Scheduling, init, last);
      if Follow(Scheduling, xs) == Some(PostScript) {
        var n := Follow(Scheduling, init).value.failures;
        AbortingShape(init, n);
        assert RebootTrace(xs, |init| - n - 1, n);
      }
      forall f, n | RebootTrace(xs, f, n)
        ensures Follow(Scheduling, xs) == Some(PostScript)
      {
        AbortingShape(init, n);
      }
    }
  }

  // ----- what the wait leaves scheduled

  /**
   What befalls one command on the VM: a pending restart or shutdown may first run its course,
   the command may not arrive, it may be refused, and its reply may be lost after it took effect.
   schedules: the script got as far as its last line, which restarts the computer (the setup
   script) or shuts it down (the post-reboot script).
   */
  datatype Fate = Fate(reboots: bool, delivered: bool, refused: bool, replied: bool, schedules: bool)

  /** Windows aborts only what is scheduled; whether it refuses to schedule a second shutdown is left open. */
  predicate TakesEffect(pending: bool, call: Call, fate: Fate) {
    fate.delivered && !fate.refused && (call.AbortReboot? ==> pending && !fate.reboots)
  }

  /** The command leaves a restart or shutdown scheduled. */
  predicate Schedules(pending: bool, call: Call, fate: Fate) {
    TakesEffect(pending, call, fate) &&
    (call.ScheduleReboot? || ((call.SetupScript? || call.PostRebootScript?) && fate.schedules))
  }

  /** What was scheduled has run, or is aborted. */
  predicate Clears(pending: bool, call: Call, fate: Fate) {
    fate.reboots || (call.AbortReboot? && TakesEffect(pending, call, fate))
  }

  /** Is a restart or shutdown scheduled after the commands? */
  function Pending(before: bool, xs: seq<Exchange>, fates: seq<Fate>): bool
    requires |xs| == |fates|
  {
    if xs == [] then before
    else
      var i := |xs| - 1;
      var p := Pending(before, xs[..i], fates[..i]);
      Schedules(p, xs[i].call, fates[i]) || (p && !Clears(p, xs[i].call, fates[i]))
  }

  predicate EffectAt(before: bool, xs: seq<Exchange>, fates: seq<Fate>, i: nat)
    requires i < |xs| == |fates|
  {
    TakesEffect(Pending(before, xs[..i], fates[..i]), xs[i].call, fates[i])
  }

  predicate SchedulesAt(before: bool, xs: seq<Exchange>, fates: seq<Fate>, i: nat)
    requires i < |xs| == |fates|
  {
    Schedules(Pending(before, xs[..i], fates[..i]), xs[i].call, fates[i])
  }

  predicate ClearsAt(before: bool, xs: seq<Exchange>, fates: seq<Fate>, i: nat)
    requires i < |xs| == |fates|
  {
    Clears(Pending(before, xs[..i], fates[..i]), xs[i].call, fates[i])
  }

  /** The replies are those of such a VM: success is seen exactly when there was an effect and its reply arrived. */
  ghost predicate Consistent(before: bool, xs: seq<Exchange>, fates: seq<Fate>) {
    |xs| == |fates| &&
    forall i :: 0 <= i < |xs| && (xs[i].call.ScheduleReboot? || xs[i].call.AbortReboot?) ==>
                  (IsAccepted(xs[i], xs[i].call) <==> fates[i].replied && EffectAt(before, xs, fates, i))
  }

  lemma {:induction false} PendingSnoc(before: bool, xs: seq<Exchange>, fates: seq<Fate>, i: nat)
    requires i < |xs| == |fates|
    ensures Pending(before, xs[..i + 1], fates[..i + 1]) <==>
              || SchedulesAt(before, xs, fates, i)
              || (Pending(before, xs[..i], fates[..i]) && !ClearsAt(before, xs, fates, i))
  {
    assert xs[..i + 1][..i] == xs[..i] && fates[..i + 1][..i] == fates[..i];
  }

  /** As long as nothing is scheduled, what was pending stays so exactly until it runs or is aborted. */
  lemma {:induction false} PendingSince(before: bool, xs: seq<Exchange>, fates: seq<Fate>, k: nat, m: nat)
    requires |xs| == |fates| && k <= m <= |xs| && forall i :: k <= i < m ==> !SchedulesAt(before, xs, fates, i)
    ensures Pending(before, xs[..m], fates[..m]) <==>
              Pending(before, xs[..k], fates[..k]) && forall i :: k <= i < m ==> !ClearsAt(before, xs, fates, i)
  {
    if k < m {
      PendingSince(before, xs, fates, k, m - 1);
      PendingSnoc(before, xs, fates, m - 1);
    }
  }

  /** Right after an accepted schedule a reboot is pending, right after an accepted abort none is. */
  lemma {:induction false} PendingAfter(before: bool, xs: seq<Exchange>, fates: seq<Fate>, i: nat)
    requires Consistent(before, xs, fates) && i < |xs| && IsAccepted(xs[i], xs[i].call)
    ensures xs[i].call.ScheduleReboot? ==> Pending(before, xs[..i + 1], fates[..i + 1])
    ensures xs[i].call.AbortReboot? ==> !Pending(before, xs[..i + 1], fates[..i + 1])
  {
    PendingSnoc(before, xs, fates, i);
    assert (xs[i].call.ScheduleReboot? || xs[i].call.AbortReboot?) ==> EffectAt(before, xs, fates, i);
  }

  /** The wait gave up: after an accepted schedule the fifth abort failed too. */
  predicate WaitFailed(xs: seq<Exchange>) {
    xs != [] && Follow(Scheduling, xs[..|xs| - 1]) == Some(Aborting(4)) && Follow(Scheduling, xs) == Some(Failed)
  }

  /** The five aborts after an accepted schedule, however they were answered. */
  lemma {:induction false} AfterFiveAborts(before: bool, xs: seq<Exchange>, fates: seq<Fate>)
    requires |xs| > 5 && Consistent(before, xs, fates) && IsAccepted(xs[|xs| - 6], ScheduleReboot)
    requires forall i :: |xs| - 5 <= i < |xs| ==> xs[i].call == AbortReboot
    ensures Pending(before, xs, fates) <==>
              forall i :: |xs| - 5 <= i < |xs| ==> !fates[i].reboots && !(fates[i].delivered && !fates[i].refused)
  {
    PendingAfter(before, xs, fates, |xs| - 6);
    Unaborted(before, xs, fates, |xs| - 5, |xs|);
    assert xs[..|xs|] == xs && fates[..|fates|] == fates;
  }

  /** A scheduled reboot outlasts aborts exactly if it does not run and each of them is lost or refused. */
  lemma {:induction false} Unaborted(before: bool, xs: seq<Exchange>, fates: seq<Fate>, k: nat, m: nat)
    requires |xs| == |fates| && k <= m <= |xs| && Pending(before, xs[..k], fates[..k])
    requires forall i :: k <= i < m ==> xs[i].call == AbortReboot
    ensures Pending(before, xs[..m], fates[..m]) <==>
              forall i :: k <= i < m ==> !fates[i].reboots && !(fates[i].delivered && !fates[i].refused)
  {
    if k < m {
      Unaborted(before, xs, fates, k, m - 1);
      PendingSnoc(before, xs, fates, m - 1);
    }
  }

  /**
   What the wait leaves scheduled, whichever commands and replies were lost: nothing if it
   succeeds; if it fails, the reboot, exactly if that has not run since it was scheduled and
   each of the five aborts was lost on its way or refused.
   */
  lemma {:induction false} PendingAfterTheWait(before: bool, xs: seq<Exchange>, fates: seq<Fate>)
    requires Follow(Scheduling, xs) == Some(PostScript) || WaitFailed(xs)
    requires Consistent(before, xs, fates)
    ensures Pending(before, xs, fates) <==>
              && WaitFailed(xs)
              && forall i: nat :: |xs| - 5 <= i < |xs| ==>
                                    !fates[i].reboots && !(fates[i].delivered && !fates[i].refused)
  {
    if WaitFailed(xs) {
      var init, last := xs[..|xs| - 1], xs[|xs| - 1];
      assert xs == init + [last];
      FollowSnoc(Scheduling, init, last);
      AbortingShape(init, 4);
      assert forall i :: 0 <= i < |init| ==> xs[i] == init[i];
      AfterFiveAborts(before, xs, fates);
    } else {
      RebootShape(xs);
      PendingAfter(before, xs, fates, |xs| - 1);
      assert xs[..|xs|] == xs && fates[..|fates|] == fates;
    }
  }

  /**
   Once an abort has taken effect and its reply is lost, or the reboot has run instead, the
   wait cannot succeed any more.
   */
  lemma {:induction false} LostAbortIsFatal(before: bool, xs: seq<Exchange>, fates: seq<Fate>, k: nat)
    requires Consistent(before, xs, fates) && k < |xs| && xs[k].call == AbortReboot
    requires
      || fates[k].reboots
      || (Pending(before, xs[..k], fates[..k]) && fates[k].delivered && !fates[k].refused && !fates[k].replied)
    ensures Follow(Scheduling, xs) != Some(PostScript)
  {
    RebootShape(xs);
    assert ClearsAt(before, xs, fates, k);
    if Follow(Scheduling, xs) == Some(PostScript) {
      var f, n :| RebootTrace(xs, f, n);
      var init, last := xs[..|xs| - 1], |xs| - 1;
      assert forall i :: 0 <= i < |init| ==> xs[i] == init[i];
      assert IsAccepted(xs[last], AbortReboot) && EffectAt(before, xs, fates, last);
      PendingSince(before, xs, fates, k, last);
    }
  }

  // ----- the whole of PrepareVM

  predicate StepsDone(xs: seq<Exchange>, k: nat) {
    k <= |xs| && k <= 12 && forall i :: 0 <= i < k ==> Rank(xs[i].call) == i && ReplyOk(xs[i])
  }

  lemma {:induction false} StepRank(k: nat, call: Call)
    requires k < STEP_COUNT
    ensures Rank(call) == k <==> call == StepAt(k)
  {
  }

  lemma {:induction false} StepsDoneSnoc(xs: seq<Exchange>, x: Exchange)
    requires |xs| < STEP_COUNT
    ensures StepsDone(xs + [x], |xs| + 1) <==> StepsDone(xs, |xs|) && x.call == StepAt(|xs|) && StepOk(x.call, x.reply)
  {
    StepRank(|xs|, x.call);
    RepliesDecide(x);
    assert forall i :: 0 <= i < |xs| ==> (xs + [x])[i] == xs[i];
    assert (xs + [x])[|xs|] == x;
  }

  lemma {:induction false} FixedShape(xs: seq<Exchange>, k: nat)
    requires k < STEP_COUNT
    ensures Follow(Fixed(0), xs) == Some(Fixed(k)) <==> |xs| == k && StepsDone(xs, k)
  {
    if xs != [] {
      var init, last := xs[..|xs| - 1], xs[|xs| - 1];
      assert xs == init + [last];
      FollowSnoc(Fixed(0), init, last);
      if k > 0 {
        FixedShape(init, k - 1);
        if |init| == k - 1 {
          StepsDoneSnoc(init, last);
        }
      }
    }
  }

  predicate AfterSteps(p: Phase) {
    p.Scheduling? || p.Aborting? || p.PostScript?
  }

  /** The wait for the reboot begins right after the fixed steps. */
  lemma {:induction false} StepsThenReboot(xs: seq<Exchange>, p: Phase)
    requires Follow(Fixed(0), xs) == Some(p) && AfterSteps(p)
    ensures StepsDone(xs, STEP_COUNT) && Follow(Scheduling, xs[STEP_COUNT..]) == Some(p)
  {
    var init, last := xs[..|xs| - 1], xs[|xs| - 1];
    assert xs == init + [last];
    FollowSnoc(Fixed(0), init, last);
    var q := Follow(Fixed(0), init).value;
    if q.Fixed? {
      StepsAreOver(init, last, q.k);
    } else {
      StepsThenReboot(init, q);
      assert xs[STEP_COUNT..] == init[STEP_COUNT..] + [last];
      FollowSnoc(Scheduling, init[STEP_COUNT..], last);
    }
  }

  lemma {:induction false} StepsAreOver(init: seq<Exchange>, last: Exchange, k: nat)
    requires Follow(Fixed(0), init) == Some(Fixed(k)) && Follow(Fixed(0), init + [last]).Some?
    requires AfterSteps(Follow(Fixed(0), init + [last]).value)
    ensures StepsDone(init + [last], STEP_COUNT) && (init + [last])[STEP_COUNT..] == []
    ensures Follow(Fixed(0), init + [last]) == Some(Scheduling)
  {
    FollowSnoc(Fixed(0), init, last);
    FixedShape(init, STEP_COUNT - 1);
    StepsDoneSnoc(init, last);
  }

  predicate PoweringTrace(xs: seq<Exchange>) {
    forall i :: 0 <= i < |xs| ==> Observed(xs[i], false)
  }

  lemma {:induction false} PoweringShape(xs: seq<Exchange>)
    ensures Follow(Powering, xs) == Some(Powering) <==> PoweringTrace(xs)
    ensures Follow(Powering, xs).Some? ==> var p := Follow(Powering, xs).value; p.Powering? || p.Done? || p.Failed?
  {
    if xs != [] {
      var init, last := xs[..|xs| - 1], xs[|xs| - 1];
      PoweringShape(init);
      assert xs == init + [last];
      FollowSnoc(Powering, init, last);
      RepliesDecide(last);
    }
  }

  /** Where the post-reboot script ran, if the automaton is past it. */
  lemma {:induction false} FindPostScript(xs: seq<Exchange>) returns (j: nat)
    requires Follow(Fixed(0), xs) == Some(Powering)
    ensures j < |xs| && Follow(Fixed(0), xs[..j]) == Some(PostScript)
    ensures xs[j].call == PostRebootScript && !ScriptFailed(xs[j].reply) && PoweringTrace(xs[j + 1..])
  {
    var init, last := xs[..|xs| - 1], xs[|xs| - 1];
    assert xs == init + [last];
    FollowSnoc(Fixed(0), init, last);
    RepliesDecide(last);
    if Follow(Fixed(0), init) == Some(PostScript) {
      j := |init|;
    } else {
      j := FindPostScript(init);
      assert xs[..j] == init[..j] && xs[j + 1..] == init[j + 1..] + [last];
    }
  }

  /**
   A successful run: the twelve steps, a reboot trace up to j, a tolerable post-reboot script
   at j, then power observations of which only the last is powered off.
   */
  ghost predicate Prepared(xs: seq<Exchange>, j: nat) {
    && 12 <= j < |xs| - 1
    && StepsDone(xs, 12)
    && (exists f, n :: RebootTrace(xs[12..j], f, n))
    && xs[j].call == PostRebootScript && !ScriptFailed(xs[j].reply)
    && PoweringTrace(xs[j + 1..|xs| - 1])
    && Observed(xs[|xs| - 1], true)
  }

  /** PrepareVM returns nil exactly on these traces. */
  lemma {:induction false} PrepareShape(xs: seq<Exchange>)
    ensures Follow(Fixed(0), xs) == Some(Done) <==> exists j :: Prepared(xs, j)
  {
    if Follow(Fixed(0), xs) == Some(Done) {
      var j := DoneIsPrepared(xs);
    }
    forall j | Prepared(xs, j)
      ensures Follow(Fixed(0), xs) == Some(Done)
    {
      PreparedIsDone(xs, j);
    }
  }

  lemma {:induction false} DoneIsPrepared(xs: seq<Exchange>) returns (j: nat)
    requires Follow(Fixed(0), xs) == Some(Done)
    ensures Prepared(xs, j)
  {
    var init, last := xs[..|xs| - 1], xs[|xs| - 1];
    assert xs == init + [last];
    FollowSnoc(Fixed(0), init, last);
    j := FindPostScript(init);
    RepliesDecide(last);
    assert init[..j] == xs[..j] && init[j + 1..] == xs[j + 1..|xs| - 1];
    StepsThenReboot(xs[..j], PostScript);
    assert xs[..j][STEP_COUNT..] == xs[STEP_COUNT..j];
    RebootShape(xs[STEP_COUNT..j]);
    StepsDonePrefix(xs, j);
  }

  lemma {:induction false} StepsDonePrefix(xs: seq<Exchange>, j: nat)
    requires j <= |xs| && StepsDone(xs[..j], STEP_COUNT)
    ensures StepsDone(xs, STEP_COUNT)
  {
    assert forall i :: 0 <= i < j ==> xs[..j][i] == xs[i];
  }

  lemma {:induction false} PreparedIsDone(xs: seq<Exchange>, j: nat)
    requires Prepared(xs, j)
    ensures Follow(Fixed(0), xs) == Some(Done)
  {
    RebootIsReached(xs, j);
    ScriptPasses(xs, j);
    PowerToDone(xs, j + 1);
  }

  lemma {:induction false} ScriptPasses(xs: seq<Exchange>, j: nat)
    requires j < |xs| && Follow(Fixed(0), xs[..j]) == Some(PostScript)
    requires xs[j].call == PostRebootScript && !ScriptFailed(xs[j].reply)
    ensures Follow(Fixed(0), xs[..j + 1]) == Some(Powering)
  {
    RepliesDecide(xs[j]);
    assert xs[..j] + [xs[j]] == xs[..j + 1];
    FollowSnoc(Fixed(0), xs[..j], xs[j]);
  }

  lemma {:induction false} PowerToDone(xs: seq<Exchange>, k: nat)
    requires k < |xs| && Follow(Fixed(0), xs[..k]) == Some(Powering) && PoweringTrace(xs[k..|xs| - 1])
    requires Observed(xs[|xs| - 1], true)
    ensures Follow(Fixed(0), xs) == Some(Done)
  {
    var last := |xs| - 1;
    PoweringShape(xs[k..last]);
    assert xs[..k] + xs[k..last] == xs[..last];
    FollowSplit(Fixed(0), xs[..k], xs[k..last]);
    RepliesDecide(xs[last]);
    assert xs[..last] + [xs[last]] == xs;
    FollowSnoc(Fixed(0), xs[..last], xs[last]);
  }

  lemma {:induction false} RebootIsReached(xs: seq<Exchange>, j: nat)
    requires STEP_COUNT <= j <= |xs| && StepsDone(xs, STEP_COUNT)
    requires exists f, n :: RebootTrace(xs[STEP_COUNT..j], f, n)
    ensures Follow(Fixed(0), xs[..j]) == Some(PostScript)
  {
    var m := STEP_COUNT;
    FixedShape(xs[..m - 1], m - 1);
    assert xs[..m] == xs[..m - 1] + [xs[m - 1]];
    FollowSnoc(Fixed(0), xs[..m - 1], xs[m - 1]);
    RebootShape(xs[m..j]);
    assert xs[..m] + xs[m..j] == xs[..j];
    FollowSplit(Fixed(0), xs[..m], xs[m..j]);
  }

  predicate FatalReply(x: Exchange) {
    match x.call
    case ScheduleReboot => false
    case AbortReboot => false
    case PostRebootScript => ScriptFailed(x.reply)
    case _ => !ReplyOk(x)
  }

  predicate FiveFailedAborts(xs: seq<Exchange>) {
    |xs| >= 5 && forall i :: |xs| - 5 <= i < |xs| ==> IsFailed(xs[i], AbortReboot)
  }

  predicate StopsHere(xs: seq<Exchange>)
    requires xs != []
  {
    FatalReply(xs[|xs| - 1]) || FiveFailedAborts(xs)
  }

  predicate Succeeds(call: Call, next: Call) {
    Rank(next) == Rank(call) + 1 || (next == call && call in {ScheduleReboot, AbortReboot, PowerState})
  }

  lemma {:induction false} NextSucceeds(p: Phase, reply: Reply)
    requires !Final(p) && !Final(After(p, reply))
    ensures Succeeds(CallAt(p), CallAt(After(p, reply)))
  {
    if p.Fixed? {
      StepRank(p.k, StepAt(p.k));
      if p.k + 1 < STEP_COUNT {
        StepRank(p.k + 1, StepAt(p.k + 1));
      }
    }
  }

  lemma {:induction false} FixedBound(xs: seq<Exchange>)
    requires Follow(Fixed(0), xs).Some?
    ensures Follow(Fixed(0), xs).value.Fixed? ==> Follow(Fixed(0), xs).value.k < STEP_COUNT
  {
    if xs != [] {
      var init, last := xs[..|xs| - 1], xs[|xs| - 1];
      assert xs == init + [last];
      FollowSnoc(Fixed(0), init, last);
    }
  }

  /** While aborting, exactly the last n exchanges are failed aborts. */
  lemma {:induction false} AbortsSoFar(xs: seq<Exchange>, n: nat)
    requires Follow(Fixed(0), xs) == Some(Aborting(n))
    ensures n <= 4 && n < |xs| && xs[|xs| - n - 1].call == ScheduleReboot
    ensures forall i :: |xs| - n <= i < |xs| ==> IsFailed(xs[i], AbortReboot)
  {
    var init, last := xs[..|xs| - 1], xs[|xs| - 1];
    assert xs == init + [last];
    FollowSnoc(Fixed(0), init, last);
    if n > 0 {
      AbortsSoFar(init, n - 1);
    }
  }

  lemma {:induction false} FifthAbort(xs: seq<Exchange>, x: Exchange)
    requires Follow(Fixed(0), xs).Some? && Follow(Fixed(0), xs + [x]).Some?
    ensures FiveFailedAborts(xs + [x]) <==> Follow(Fixed(0), xs) == Some(Aborting(4)) && !CommandOk(x.reply)
  {
    FollowSnoc(Fixed(0), xs, x);
    var p, ys := Follow(Fixed(0), xs).value, xs + [x];
    if p.Aborting? {
      var n := p.failures;
      AbortsSoFar(xs, n);
      assert ys[|ys| - n - 2].call == ScheduleReboot;
    }
    if FiveFailedAborts(ys) {
      assert IsFailed(ys[|ys| - 1], AbortReboot);
      FixedBound(xs);
    }
  }

  lemma {:induction false} FailsOnFatal(p: Phase, x: Exchange)
    requires !Final(p) && x.call == CallAt(p)
    ensures After(p, x.reply) == Failed <==>
              FatalReply(x) || (p.Aborting? && p.failures >= 4 && !CommandOk(x.reply))
  {
    RepliesDecide(x);
  }

  /** Each call is the next of one fixed sequence, or repeats the one before where the code polls. */
  lemma {:induction false} CallsInSequence(xs: seq<Exchange>)
    requires Follow(Fixed(0), xs).Some?
    ensures xs != [] ==> Rank(xs[0].call) == 0
    ensures forall i :: 0 <= i < |xs| - 1 ==> Succeeds(xs[i].call, xs[i + 1].call)
  {
    if xs != [] {
      var init, last := xs[..|xs| - 1], xs[|xs| - 1];
      assert xs == init + [last];
      FollowSnoc(Fixed(0), init, last);
      CallsInSequence(init);
      if init != [] {
        var init', last' := init[..|init| - 1], init[|init| - 1];
        assert init == init' + [last'];
        FollowSnoc(Fixed(0), init', last');
        NextSucceeds(Follow(Fixed(0), init').value, last'.reply);
      }
    }
  }

  /** The calls stop exactly at the first fatal reply or the fifth failed abort in a row. */
  lemma {:induction false} CutAtFirstFatal(xs: seq<Exchange>)
    requires Follow(Fixed(0), xs).Some?
    ensures forall i :: 0 < i < |xs| ==> !StopsHere(xs[..i])
    ensures Follow(Fixed(0), xs) == Some(Failed) <==> xs != [] && StopsHere(xs)
  {
    if xs != [] {
      var init, last := xs[..|xs| - 1], xs[|xs| - 1];
      assert xs == init + [last];
      FollowSnoc(Fixed(0), init, last);
      CutAtFirstFatal(init);
      var p := Follow(Fixed(0), init).value;
      FailsOnFatal(p, last);
      FifthAbort(init, last);
      if p.Aborting? {
        AbortsSoFar(init, p.failures);
      }
      forall i | 0 < i < |xs|
        ensures !StopsHere(xs[..i])
      {
        assert xs[..i] == init[..i] && init[..|init|] == init;
      }
    }
  }

  // ----- what PrepareVM leaves scheduled

  lemma {:induction false} RankBound(xs: seq<Exchange>, n: nat)
    requires Follow(Fixed(0), xs).Some? && n <= |xs|
    ensures forall i :: 0 <= i < n ==> Rank(xs[i].call) <= i
  {
    CallsInSequence(xs);
    if n > 0 {
      RankBound(xs, n - 1);
      if n > 1 {
        assert Succeeds(xs[n - 2].call, xs[n - 1].call);
      }
    }
  }

  /** The run has come past the wait. */
  predicate PastTheWait(xs: seq<Exchange>) {
    xs != [] && Rank(xs[|xs| - 1].call) >= Rank(PostRebootScript)
  }

  /** Where the post-reboot script ran, in a run that has come past the wait: after the successful abort. */
  lemma {:induction false} ScriptRan(xs: seq<Exchange>) returns (j: nat)
    requires Follow(Fixed(0), xs).Some? && PastTheWait(xs)
    ensures 0 < j < |xs| && IsAccepted(xs[j - 1], AbortReboot) && xs[j].call == PostRebootScript
    ensures forall i :: j < i < |xs| ==> xs[i].call == PowerState
  {
    var init, last := xs[..|xs| - 1], xs[|xs| - 1];
    assert xs == init + [last];
    FollowSnoc(Fixed(0), init, last);
    if PastTheWait(init) {
      j := ScriptRan(init);
      OnlyPowerFollows(init);
    } else {
      j := |init|;
      ScriptFollowsAbort(init, last);
    }
  }

  lemma {:induction false} OnlyPowerFollows(xs: seq<Exchange>)
    requires Follow(Fixed(0), xs).Some? && PastTheWait(xs)
    ensures var p := Follow(Fixed(0), xs).value; Final(p) || p.Powering?
  {
    var init, last := xs[..|xs| - 1], xs[|xs| - 1];
    assert xs == init + [last];
    FollowSnoc(Fixed(0), init, last);
    FixedBound(init);
    var p := Follow(Fixed(0), init).value;
    if p.Fixed? {
      StepRank(p.k, StepAt(p.k));
    }
  }

  lemma {:induction false} ScriptFollowsAbort(init: seq<Exchange>, last: Exchange)
    requires Follow(Fixed(0), init + [last]).Some? && !PastTheWait(init)
    requires Rank(last.call) >= Rank(PostRebootScript)
    ensures init != [] && IsAccepted(init[|init| - 1], AbortReboot) && last.call == PostRebootScript
  {
    FollowSnoc(Fixed(0), init, last);
    FixedBound(init);
    var p := Follow(Fixed(0), init).value;
    if p.Fixed? {
      StepRank(p.k, StepAt(p.k));
    }
    if init != [] {
      var before, x := init[..|init| - 1], init[|init| - 1];
      assert init == before + [x];
      FollowSnoc(Fixed(0), before, x);
    }
  }

  lemma {:induction false} AcceptedSchedule(xs: seq<Exchange>, n: nat)
    requires Follow(Fixed(0), xs) == Some(Aborting(n))
    ensures n < |xs| && IsAccepted(xs[|xs| - n - 1], ScheduleReboot)
  {
    var init, last := xs[..|xs| - 1], xs[|xs| - 1];
    assert xs == init + [last];
    FollowSnoc(Fixed(0), init, last);
    if n > 0 {
      AcceptedSchedule(init, n - 1);
    }
  }

  /** A run that ends before the wait's success other than by a fifth failed abort ends in a fixed step. */
  lemma {:induction false} EndsInFixed(xs: seq<Exchange>)
    requires Finished(xs) && !FiveFailedAborts(xs) && !PastTheWait(xs)
    ensures |xs| <= STEP_COUNT
  {
    var init, last := xs[..|xs| - 1], xs[|xs| - 1];
    assert xs == init + [last];
    FollowSnoc(Fixed(0), init, last);
    FixedBound(init);
    FifthAbort(init, last);
    var p := Follow(Fixed(0), init).value;
    if p.Aborting? {
      AbortsSoFar(init, p.failures);
    }
    if p.Fixed? {
      FixedShape(init, p.k);
    }
  }

  /** In a fixed step only the setup script, which is the last of them, schedules anything. */
  lemma {:induction false} StepCalls(xs: seq<Exchange>, i: nat)
    requires Follow(Fixed(0), xs).Some? && i < |xs| <= STEP_COUNT
    ensures xs[i].call != ScheduleReboot && xs[i].call != AbortReboot && xs[i].call != PostRebootScript
    ensures i < |xs| - 1 ==> xs[i].call != SetupScript
  {
    RankBound(xs, i + 1);
  }

  lemma {:induction false} StepEffect(before: bool, xs: seq<Exchange>, fates: seq<Fate>, i: nat)
    requires Follow(Fixed(0), xs).Some? && i < |xs| == |fates| <= STEP_COUNT
    ensures SchedulesAt(before, xs, fates, i) <==> xs[i].call == SetupScript && ScriptSchedules(fates[i])
    ensures ClearsAt(before, xs, fates, i) <==> fates[i].reboots
    ensures i < |xs| - 1 ==> !SchedulesAt(before, xs, fates, i)
  {
    StepCalls(xs, i);
  }

  /** If only the last command can schedule, and nothing is aborted. */
  lemma {:induction false} OnlyLastSchedules(before: bool, xs: seq<Exchange>, fates: seq<Fate>, m: nat)
    requires |xs| == |fates| == m + 1
    requires forall i :: 0 <= i <= m ==> (ClearsAt(before, xs, fates, i) <==> fates[i].reboots)
    requires forall i :: 0 <= i < m ==> !SchedulesAt(before, xs, fates, i)
    ensures Pending(before, xs, fates) <==>
              SchedulesAt(before, xs, fates, m) || (before && forall i :: 0 <= i <= m ==> !fates[i].reboots)
  {
    PendingSince(before, xs, fates, 0, m);
    PendingSnoc(before, xs, fates, m);
    assert xs[..m + 1] == xs && fates[..m + 1] == fates && xs[..0] == [];
  }

  lemma {:induction false} AfterAStep(before: bool, xs: seq<Exchange>, fates: seq<Fate>)
    requires Follow(Fixed(0), xs).Some? && 0 < |xs| == |fates| <= STEP_COUNT
    ensures Pending(before, xs, fates) <==>
              || (xs[|xs| - 1].call == SetupScript && ScriptSchedules(fates[|xs| - 1]))
              || (before && forall i :: 0 <= i < |xs| ==> !fates[i].reboots)
  {
    forall i: nat | i < |xs|
      ensures ClearsAt(before, xs, fates, i) <==> fates[i].reboots
      ensures i < |xs| - 1 ==> !SchedulesAt(before, xs, fates, i)
    {
      StepEffect(before, xs, fates, i);
    }
    StepEffect(before, xs, fates, |xs| - 1);
    OnlyLastSchedules(before, xs, fates, |xs| - 1);
  }

  /** The script was delivered, was not refused, and came to its last line. */
  predicate ScriptSchedules(fate: Fate) {
    fate.delivered && !fate.refused && fate.schedules
  }

  /** After the wait only the post-reboot script schedules something. */
  lemma {:induction false} AfterTheScript(before: bool, xs: seq<Exchange>, fates: seq<Fate>, j: nat)
    requires Consistent(before, xs, fates) && 0 < j < |xs|
    requires IsAccepted(xs[j - 1], AbortReboot) && xs[j].call == PostRebootScript
    requires forall i :: j < i < |xs| ==> xs[i].call == PowerState
    ensures Pending(before, xs, fates) <==>
              ScriptSchedules(fates[j]) && forall i :: j < i < |xs| ==> !fates[i].reboots
  {
    PendingAfter(before, xs, fates, j - 1);
    PendingSnoc(before, xs, fates, j);
    PendingSince(before, xs, fates, j + 1, |xs|);
    assert xs[..|xs|] == xs && fates[..|fates|] == fates;
    assert forall i :: j < i < |xs| ==> (ClearsAt(before, xs, fates, i) <==> fates[i].reboots);
  }

  /** The post-reboot script scheduled the shutdown, and that has not run since. */
  predicate ShutdownWaits(xs: seq<Exchange>, fates: seq<Fate>)
    requires |xs| == |fates|
  {
    exists j :: 0 <= j < |xs| && xs[j].call == PostRebootScript && ScriptSchedules(fates[j])
                && forall i :: j < i < |xs| ==> !fates[i].reboots
  }

  predicate Finished(xs: seq<Exchange>) {
    Follow(Fixed(0), xs) == Some(Done) || Follow(Fixed(0), xs) == Some(Failed)
  }

  lemma {:induction false} FiveAbortsShape(xs: seq<Exchange>)
    requires Finished(xs) && FiveFailedAborts(xs)
    ensures |xs| > 5 && IsAccepted(xs[|xs| - 6], ScheduleReboot)
  {
    var init, last := xs[..|xs| - 1], xs[|xs| - 1];
    assert xs == init + [last];
    FollowSnoc(Fixed(0), init, last);
    FifthAbort(init, last);
    AcceptedSchedule(init, 4);
  }

  /**
   What a finished PrepareVM leaves scheduled.  After five failed aborts: the reboot it
   scheduled, exactly if that has not run since and each abort was lost or refused.  Past the
   wait: the shutdown of the post-reboot script, exactly if that was scheduled and has not run.
   After a failed step: the restart that the setup script scheduled although the step failed,
   or what was scheduled before and has not run.
   */
  lemma {:induction false} PendingAtTheEnd(before: bool, xs: seq<Exchange>, fates: seq<Fate>)
    requires Finished(xs) && Consistent(before, xs, fates)
    ensures Pending(before, xs, fates) <==>
              if FiveFailedAborts(xs) then
                forall i :: |xs| - 5 <= i < |xs| ==> !fates[i].reboots && !(fates[i].delivered && !fates[i].refused)
              else if PastTheWait(xs) then ShutdownWaits(xs, fates)
              else
                || (xs[|xs| - 1].call == SetupScript && ScriptSchedules(fates[|xs| - 1]))
                || (before && forall i :: 0 <= i < |xs| ==> !fates[i].reboots)
  {
    if FiveFailedAborts(xs) {
      FiveAbortsShape(xs);
      AfterFiveAborts(before, xs, fates);
    } else if PastTheWait(xs) {
      var j := ScriptRan(xs);
      AfterTheScript(before, xs, fates, j);
      OneScript(xs, j);
    } else {
      EndsInFixed(xs);
      AfterAStep(before, xs, fates);
    }
  }

  /** Before the wait ends no post-reboot script runs, and after it the other calls are not one. */
  lemma {:induction false} OneScript(xs: seq<Exchange>, j: nat)
    requires Follow(Fixed(0), xs).Some? && j < |xs|
    requires forall i :: j < i < |xs| ==> xs[i].call == PowerState
    requires j > 0 && xs[j - 1].call == AbortReboot
    ensures forall i :: 0 <= i < |xs| && xs[i].call == PostRebootScript ==> i == j
  {
    forall i | 0 <= i < j ensures xs[i].call != PostRebootScript {
      RankGrows(xs, i, j - 1);
    }
  }

  lemma {:induction false} RankGrows(xs: seq<Exchange>, i: nat, k: nat)
    requires Follow(Fixed(0), xs).Some? && i <= k < |xs|
    ensures Rank(xs[i].call) <= Rank(xs[k].call)
  {
    CallsInSequence(xs);
    if i < k {
      RankGrows(xs, i, k - 1);
      assert Succeeds(xs[k - 1].call, xs[k].call);
    }
  }
}
