/**
 stembuild/construct/vmconstruct.go with the reboot checker and the pollers: PrepareVM
 against a VM that may answer every call in any way.
 */
module Construct {
  import opened Basics
  import opened WinRM

  /** Everything PrepareVM asks of its collaborators. */
  datatype Call =
    | MakeProvisionDir | UploadLgpo | UploadAutomation
    | UnzipModules | UnzipScript | StartWinRm | WinRmExit
    | ReachVm | LoginVm | ExtractArchive | LogOutUsers | SetupScript
    | ScheduleReboot | AbortReboot | PostRebootScript | PowerState

  datatype Exchange = Exchange(call: Call, reply: Reply)

  /** The calls made once each, in order, before the reboot. */
  function StepAt(k: nat): Call
    requires k < STEP_COUNT
  {
    match k
    case 0 => MakeProvisionDir
    case 1 => UploadLgpo
    case 2 => UploadAutomation
    case 3 => UnzipModules
    case 4 => UnzipScript
    case 5 => StartWinRm
    case 6 => WinRmExit
    case 7 => ReachVm
    case 8 => LoginVm
    case 9 => ExtractArchive
    case 10 => LogOutUsers
    case _ => SetupScript
  }

  const STEP_COUNT: nat := 12

  predicate CommandOk(reply: Reply) {
    CommandError(reply).None?
  }

  /** Does the step succeed?  govc reports only an exit code, the other local and network calls only an error. */
  predicate StepOk(call: Call, reply: Reply) {
    match call
    case MakeProvisionDir => reply.exit == 0
    case UploadLgpo => reply.exit == 0
    case UploadAutomation => reply.exit == 0
    case UnzipModules => reply.err.None?
    case UnzipScript => reply.err.None?
    case StartWinRm => reply.err.None?
    case ReachVm => reply.err.None?
    case LoginVm => reply.err.None?
    case _ => CommandOk(reply)
  }

  datatype Power = On | Off | Unknown

  const POWERED_OFF := "poweredOff"

  /** IsPoweredOff. */
  function PowerSeen(reply: Reply): Power {
    if reply.exit != 0 || reply.err.Some? then Unknown
    else if Contains(reply.out, POWERED_OFF) then Off else On
  }

  // ----- the protocol as an automaton

  datatype Phase = Fixed(k: nat) | Scheduling | Aborting(failures: nat) | PostScript | Powering | Done | Failed

  predicate Final(p: Phase) {
    p.Done? || p.Failed? || (p.Fixed? && p.k >= STEP_COUNT)
  }

  function CallAt(p: Phase): Call
    requires !Final(p)
  {
    match p
    case Fixed(k) => StepAt(k)
    case Scheduling => ScheduleReboot
    case Aborting(_) => AbortReboot
    case PostScript => PostRebootScript
    case Powering => PowerState
  }

  function After(p: Phase, reply: Reply): Phase
    requires !Final(p)
  {
    match p
    case Fixed(k) =>
      if !StepOk(StepAt(k), reply) then Failed
      else if k + 1 < STEP_COUNT then Fixed(k + 1)
      else Scheduling
    case Scheduling => if CommandOk(reply) then Aborting(0) else Scheduling
    case Aborting(n) => if CommandOk(reply) then PostScript else if n < 4 then Aborting(n + 1) else Failed
    case PostScript => if FatalPostReboot(reply) then Failed else Powering
    case Powering =>
      match PowerSeen(reply)
      case Off => Done
      case On => Powering
      case Unknown => Failed
  }

  /** Where the automaton is after the exchanges; None if one of them is not the call it expects. */
  function Follow(start: Phase, xs: seq<Exchange>): Option<Phase> {
    if xs == [] then Some(start)
    else
      match Follow(start, xs[..|xs| - 1])
      case None => None
      case Some(p) =>
        if !Final(p) && xs[|xs| - 1].call == CallAt(p) then Some(After(p, xs[|xs| - 1].reply)) else None
  }

  lemma {:induction false} FollowSnoc(start: Phase, xs: seq<Exchange>, x: Exchange)
    ensures Follow(start, xs + [x]) ==
            match Follow(start, xs)
            case None => None
            case Some(p) => if !Final(p) && x.call == CallAt(p) then Some(After(p, x.reply)) else None
  {
    assert (xs + [x])[..|xs|] == xs;
  }

  lemma {:induction false} FollowSplit(start: Phase, xs: seq<Exchange>, ys: seq<Exchange>)
    ensures Follow(start, xs + ys) ==
            match Follow(start, xs)
            case None => None
            case Some(p) => Follow(p, ys)
    decreases |ys|
  {
    if ys == [] {
      assert xs + ys == xs;
    } else {
      var init, last := ys[..|ys| - 1], ys[|ys| - 1];
      FollowSplit(start, xs, init);
      assert xs + ys == (xs + init) + [last];
      FollowSnoc(start, xs + init, last);
      match Follow(start, xs)
      case None =>
      case Some(p) => FollowSnoc(p, init, last); assert ys == init + [last];
    }
  }

  function Replies(xs: seq<Exchange>): (rs: seq<Reply>)
    ensures |rs| == |xs|
  {
    seq(|xs|, i requires 0 <= i < |xs| => xs[i].reply)
  }

  // ----- the code

  /** Waiting: the answers given so far leave the code polling or blocked. */
  datatype Outcome = Finished | Error | Waiting

  class Session {
    ghost const start: Phase
    var answers: seq<Reply>  // what the collaborators will answer, in call order
    var trace: seq<Exchange>

    constructor (ghost start: Phase, answers: seq<Reply>)
      ensures this.start == start && this.answers == answers && trace == []
    {
      this.start := start;
      this.answers, trace := answers, [];
    }

    ghost predicate At(p: Phase)
      reads this
    {
      Follow(start, trace) == Some(p)
    }

    /** The automaton expects a further call. */
    ghost predicate InProgress()
      reads this
    {
      Follow(start, trace).Some? && !Final(Follow(start, trace).value)
    }

    /** What was answered and what is still to be answered. */
    ghost function AllAnswers(): seq<Reply>
      reads this
    {
      Replies(trace) + answers
    }

    method Ask(call: Call, ghost p: Phase) returns (reply: Option<Reply>)
      requires At(p) && !Final(p) && call == CallAt(p)
      modifies this
      ensures AllAnswers() == old(AllAnswers())
      ensures reply.None? ==> answers == [] && trace == old(trace)
      ensures reply.Some? ==> trace == old(trace) + [Exchange(call, reply.value)] && At(After(p, reply.value))
    {
      if answers == [] {
        return None;
      }
      reply := Some(answers[0]);
      FollowSnoc(start, trace, Exchange(call, answers[0]));
      trace := trace + [Exchange(call, answers[0])];
      answers := answers[1..];
    }

    /** One call whose failure ends PrepareVM. */
    method Perform(k: nat) returns (outcome: Outcome)
      requires k < STEP_COUNT && At(Fixed(k))
      modifies this
      ensures AllAnswers() == old(AllAnswers())
      ensures outcome.Finished? ==> At(if k + 1 < STEP_COUNT then Fixed(k + 1) else Scheduling)
      ensures outcome.Error? ==> At(Failed)
      ensures outcome.Waiting? ==> answers == [] && InProgress()
    {
      var reply := Ask(StepAt(k), Fixed(k));
      if reply.None? {
        return Waiting;
      }
      return if StepOk(StepAt(k), reply.value) then Finished else Error;
    }

    method UploadArtifacts() returns (outcome: Outcome)
      requires At(Fixed(1))
      modifies this
      ensures AllAnswers() == old(AllAnswers())
      ensures outcome.Finished? ==> At(Fixed(3))
      ensures outcome.Error? ==> At(Failed)
      ensures outcome.Waiting? ==> answers == [] && InProgress()
    {
      outcome := Perform(1);
      if outcome.Finished? {
        outcome := Perform(2);
      }
    }

    /** The calls of WinRMManager.Enable: unzip the module, then run it on the guest. */
    method EnableWinRm() returns (outcome: Outcome)
      requires At(Fixed(3))
      modifies this
      ensures AllAnswers() == old(AllAnswers())
      ensures outcome.Finished? ==> At(Fixed(7))
      ensures outcome.Error? ==> At(Failed)
      ensures outcome.Waiting? ==> answers == [] && InProgress()
    {
      outcome := UnzipModule();
      if !outcome.Finished? { return; }
      outcome := Perform(5);
      if !outcome.Finished? { return; }
      outcome := Perform(6);
    }

    method UnzipModule() returns (outcome: Outcome)
      requires At(Fixed(3))
      modifies this
      ensures AllAnswers() == old(AllAnswers())
      ensures outcome.Finished? ==> At(Fixed(5))
      ensures outcome.Error? ==> At(Failed)
      ensures outcome.Waiting? ==> answers == [] && InProgress()
    {
      outcome := Perform(3);
      if outcome.Finished? {
        outcome := Perform(4);
      }
    }

    method ValidateConnection() returns (outcome: Outcome)
      requires At(Fixed(7))
      modifies this
      ensures AllAnswers() == old(AllAnswers())
      ensures outcome.Finished? ==> At(Fixed(9))
      ensures outcome.Error? ==> At(Failed)
      ensures outcome.Waiting? ==> answers == [] && InProgress()
    {
      outcome := Perform(7);
      if outcome.Finished? {
        outcome := Perform(8);
      }
    }

    /** extractArchive, logOutUsers and the first setup script. */
    method RunGuestCommands() returns (outcome: Outcome)
      requires At(Fixed(9))
      modifies this
      ensures AllAnswers() == old(AllAnswers())
      ensures outcome.Finished? ==> At(Scheduling)
      ensures outcome.Error? ==> At(Failed)
      ensures outcome.Waiting? ==> answers == [] && InProgress()
    {
      outcome := Perform(9);
      if !outcome.Finished? { return; }
      outcome := Perform(10);
      if !outcome.Finished? { return; }
      outcome := Perform(11);
    }

    /** RebootHasFinished: schedule a reboot; if that is accepted, abort it, trying at most five times. */
    method RebootHasFinished() returns (outcome: Outcome, finished: bool)
      requires At(Scheduling)
      modifies this
      ensures AllAnswers() == old(AllAnswers())
      ensures outcome.Finished? ==> At(if finished then PostScript else Scheduling) && |answers| < |old(answers)|
      ensures outcome.Error? ==> At(Failed)
      ensures outcome.Waiting? ==> answers == [] && InProgress()
    {
      var reply := Ask(ScheduleReboot, Scheduling);
      if reply.None? {
        return Waiting, false;
      }
      var exitCode, err := ExecuteCommandWithTimeout(reply.value);
      if err.Some? {
        return Finished, false;
      }
      var abortExitCode: int := 0;
      var abortErr: Option<string> := None;
      var i := 0;
      while i < 5
        invariant 0 <= i <= 5
        invariant AllAnswers() == old(AllAnswers()) && |answers| < |old(answers)|
        invariant i < 5 ==> At(Aborting(i))
        invariant i == 5 ==> At(Failed) && abortErr.Some?
      {
        reply := Ask(AbortReboot, Aborting(i));
        if reply.None? {
          return Waiting, false;
        }
        abortExitCode, abortErr := ExecuteCommandWithTimeout(reply.value);
        if abortErr.None? {
          break;
        }
        i := i + 1;
      }
      if abortErr.Some? {
        return Error, false;
      }
      if abortExitCode == 0 {
        return Finished, true;
      } else {
        return Error, false;
      }
    }

    /** WaitForRebootFinished, with Poll. */
    method WaitForRebootFinished() returns (outcome: Outcome)
      requires At(Scheduling)
      modifies this
      ensures AllAnswers() == old(AllAnswers())
      ensures outcome.Finished? ==> At(PostScript)
      ensures outcome.Error? ==> At(Failed)
      ensures outcome.Waiting? ==> answers == [] && InProgress()
    {
      var poll := true;
      while poll
        invariant AllAnswers() == old(AllAnswers())
        invariant At(if poll then Scheduling else PostScript)
        decreases poll, |answers|
      {
        var out;
        outcome, out := RebootHasFinished();
        if !outcome.Finished? {
          return;
        }
        poll := !out;
      }
      return Finished;
    }

    /**
     isPoweredOff, with Poll: it asks as long as vm.info succeeds without naming the state
     poweredOff, ends well once it is named, and fails once vm.info does.
     */
    method WaitForPowerOff() returns (outcome: Outcome)
      requires At(Powering)
      modifies this
      ensures AllAnswers() == old(AllAnswers())
      ensures outcome.Finished? ==> At(Done)
      ensures outcome.Error? ==> At(Failed)
      ensures outcome.Waiting? ==> answers == [] && InProgress()
      ensures old(trace) <= trace && (!outcome.Waiting? ==> trace != old(trace))
      ensures forall i :: |old(trace)| <= i < |trace| ==> trace[i].call == PowerState
      ensures forall i :: |old(trace)| <= i < |trace| && (i < |trace| - 1 || outcome.Waiting?) ==>
                            && trace[i].reply.exit == 0 && trace[i].reply.err.None?
                            && !Contains(trace[i].reply.out, "poweredOff")
      ensures !outcome.Waiting? ==>
                var last := trace[|trace| - 1].reply;
                if outcome.Error? then last.exit != 0 || last.err.Some?
                else last.exit == 0 && last.err.None? && Contains(last.out, "poweredOff")
    {
      var poll := true;
      while poll
        invariant AllAnswers() == old(AllAnswers())
        invariant At(if poll then Powering else Done)
        invariant old(trace) <= trace && (!poll ==> trace != old(trace))
        invariant forall i :: |old(trace)| <= i < |trace| ==>
                                && trace[i].call == PowerState && trace[i].reply.exit == 0 && trace[i].reply.err.None?
                                && (Contains(trace[i].reply.out, "poweredOff") <==> !poll && i == |trace| - 1)
        decreases poll, |answers|
      {
        var reply := Ask(PowerState, Powering);
        if reply.None? {
          return Waiting;
        }
        var power := PowerSeen(reply.value);
        if power.Unknown? {
          return Error;
        }
        poll := power.On?;
      }
      return Finished;
    }

    /** PrepareVM up to the reboot. */
    method RunSetup() returns (outcome: Outcome)
      requires At(Fixed(0))
      modifies this
      ensures AllAnswers() == old(AllAnswers())
      ensures outcome.Finished? ==> At(Scheduling)
      ensures outcome.Error? ==> At(Failed)
      ensures outcome.Waiting? ==> answers == [] && InProgress()
    {
      outcome := Perform(0);
      if !outcome.Finished? { return; }
      outcome := UploadArtifacts();
      if !outcome.Finished? { return; }
      outcome := EnableWinRm();
      if !outcome.Finished? { return; }
      outcome := ValidateConnection();
      if !outcome.Finished? { return; }
      outcome := RunGuestCommands();
    }

    /** The last thing asked was vm.info, which succeeded and named the state poweredOff. */
    predicate SeenOff()
      reads this
    {
      trace != [] && trace[|trace| - 1].call == PowerState
      && var last := trace[|trace| - 1].reply;
         last.exit == 0 && last.err.None? && Contains(last.out, "poweredOff")
    }

    /** PrepareVM from the post-reboot script on. */
    method RunPostReboot() returns (outcome: Outcome)
      requires At(PostScript)
      modifies this
      ensures AllAnswers() == old(AllAnswers())
      ensures outcome.Finished? ==> SeenOff()
      ensures outcome.Finished? ==> At(Done)
      ensures outcome.Error? ==> At(Failed)
      ensures outcome.Waiting? ==> answers == [] && InProgress()
    {
      var reply := Ask(PostRebootScript, PostScript);
      if reply.None? {
        return Waiting;
      }
      var err := ExecutePostRebootScript(reply.value);
      if err.Some? && !Contains(err.value, EVENT) {
        return Error;
      }
      outcome := WaitForPowerOff();
    }

    /**
     PrepareVM: it succeeds exactly when the automaton is done, fails exactly when it has
     failed, and asks nothing beyond that.
     */
    method PrepareVM() returns (outcome: Outcome)
      requires trace == [] && start == Fixed(0)
      modifies this
      ensures AllAnswers() == old(answers)
      ensures outcome.Finished? <==> At(Done)
      ensures outcome.Finished? ==> SeenOff()
      ensures outcome.Error? <==> At(Failed)
      ensures outcome.Waiting? ==> answers == [] && InProgress()
    {
      outcome := RunSetup();
      if !outcome.Finished? {
        return;
      }
      outcome := WaitForRebootFinished();
      if !outcome.Finished? {
        return;
      }
      outcome := RunPostReboot();
    }
  }
}
