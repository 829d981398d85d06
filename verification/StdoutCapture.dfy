/**
 stembuild/iaas_cli/govc_cli.go: RunWithOutput.  The caller runs govc with os.Stdout
 pointing at a bounded pipe while a goroutine copies the pipe into a buffer; the two meet
 on unbuffered channels.
 */
module StdoutCapture {
  import opened Basics

  /** What a run does not change.  capacity is the pipe's; the flags say which errors can happen. */
  datatype Config = Config(capacity: nat, readsFail: bool, closeFails: bool)

  datatype Result = Captured(out: Bytes) | ReadError | CloseError

  datatype Caller = Running | Closing | Restoring | Awaiting | Returned(result: Result)

  /** Sending: blocked on a channel until the caller receives. */
  datatype Copier = Copying | Sending(failed: bool) | Exited

  datatype State = State(unwritten: Bytes, pipe: Bytes, writeEndOpen: bool, buf: Bytes, stdoutIsPipe: bool,
                         caller: Caller, copier: Copier)

  function Init(output: Bytes): State {
    State(output, [], true, [], true, Running, Copying)
  }

  /** n bounds how much one system call moves. */
  datatype Event = CallerStep(n: nat) | CopierStep(n: nat, fails: bool)

  function Min(a: nat, b: nat): nat {
    if a < b then a else b
  }

  /** r.Run writes as the pipe has room; then Close, restore stdout, and wait for the copier. */
  function StepCaller(c: Config, s: State, n: nat): State {
    match s.caller
    case Running =>
      if s.unwritten == [] then s.(caller := Closing)
      else
        var k := Min(Min(n, |s.unwritten|), if |s.pipe| <= c.capacity then c.capacity - |s.pipe| else 0);
        s.(pipe := s.pipe + s.unwritten[..k], unwritten := s.unwritten[k..])
    case Closing => s.(writeEndOpen := false, caller := Restoring)
    case Restoring => s.(stdoutIsPipe := false, caller := if c.closeFails then Returned(CloseError) else Awaiting)
    case Awaiting =>
      if !s.copier.Sending? then s
      else s.(copier := Exited, caller := Returned(if s.copier.failed then ReadError else Captured(s.buf)))
    case Returned(_) => s
  }

  /** io.Copy: read what is there; at end of file, or on an error, send the outcome. */
  function StepCopier(c: Config, s: State, n: nat, fails: bool): State {
    if !s.copier.Copying? then s
    else if fails && c.readsFail then s.(copier := Sending(true))
    else if s.pipe == [] then (if s.writeEndOpen then s else s.(copier := Sending(false)))
    else
      var k := Min(n, |s.pipe|);
      s.(buf := s.buf + s.pipe[..k], pipe := s.pipe[k..])
  }

  function Step(c: Config, s: State, e: Event): State {
    match e
    case CallerStep(n) => StepCaller(c, s, n)
    case CopierStep(n, fails) => StepCopier(c, s, n, fails)
  }

  function Run(c: Config, s: State, events: seq<Event>): State
    decreases |events|
  {
    if events == [] then s else Run(c, Step(c, s, events[0]), events[1..])
  }

  /** Bytes are neither lost nor reordered, and the flags follow the caller. */
  predicate Inv(c: Config, output: Bytes, s: State) {
    && s.buf + s.pipe + s.unwritten == output
    && |s.pipe| <= c.capacity
    && (!s.caller.Running? ==> s.unwritten == [])
    && (s.writeEndOpen <==> s.caller.Running? || s.caller.Closing?)
    && (s.stdoutIsPipe <==> s.caller.Running? || s.caller.Closing? || s.caller.Restoring?)
    && (s.copier == Sending(false) ==> s.pipe == [] && !s.writeEndOpen)
    && (s.copier == Sending(true) ==> c.readsFail)
    && (c.closeFails ==> !s.caller.Awaiting?)
    && (s.copier.Exited? ==> s.caller.Returned? && s.caller.result != CloseError)
    && (s.caller.Returned? ==>
          match s.caller.result
          case Captured(out) => out == output && s.copier.Exited? && !c.closeFails
          case ReadError => c.readsFail && s.copier.Exited? && !c.closeFails
          case CloseError => c.closeFails)
  }

  lemma {:induction false} MovePreserves(buf: Bytes, pipe: Bytes, unwritten: Bytes, k: nat)
    ensures k <= |unwritten| ==> buf + (pipe + unwritten[..k]) + unwritten[k..] == buf + pipe + unwritten
    ensures k <= |pipe| ==> (buf + pipe[..k]) + pipe[k..] + unwritten == buf + pipe + unwritten
    ensures k <= |unwritten| ==> |pipe + unwritten[..k]| == |pipe| + k
  {
  }

  lemma {:induction false} CallerKeepsInv(c: Config, output: Bytes, s: State, n: nat)
    requires Inv(c, output, s)
    ensures Inv(c, output, StepCaller(c, s, n))
  {
    if s.caller.Running? && s.unwritten != [] {
      MovePreserves(s.buf, s.pipe, s.unwritten, Min(Min(n, |s.unwritten|), c.capacity - |s.pipe|));
    } else if s.caller.Awaiting? && s.copier == Sending(false) {
      assert s.buf + [] + [] == s.buf;
    }
  }

  lemma {:induction false} CopierKeepsInv(c: Config, output: Bytes, s: State, n: nat, fails: bool)
    requires Inv(c, output, s)
    ensures Inv(c, output, StepCopier(c, s, n, fails))
  {
    if s.copier.Copying? && s.pipe != [] {
      MovePreserves(s.buf, s.pipe, s.unwritten, Min(n, |s.pipe|));
    }
  }

  lemma {:induction false} StepKeepsInv(c: Config, output: Bytes, s: State, e: Event)
    requires Inv(c, output, s)
    ensures Inv(c, output, Step(c, s, e))
  {
    match e
    case CallerStep(n) => CallerKeepsInv(c, output, s, n);
    case CopierStep(n, fails) => CopierKeepsInv(c, output, s, n, fails);
  }

  lemma {:induction false} RunKeepsInv(c: Config, output: Bytes, s: State, events: seq<Event>)
    requires Inv(c, output, s)
    ensures Inv(c, output, Run(c, s, events))
    decreases |events|
  {
    if events != [] {
      StepKeepsInv(c, output, s, events[0]);
      RunKeepsInv(c, output, Step(c, s, events[0]), events[1..]);
    }
  }

  lemma {:induction false} Reachable(c: Config, output: Bytes, events: seq<Event>)
    ensures Inv(c, output, Run(c, Init(output), events))
  {
    assert [] + [] + output == output;
    RunKeepsInv(c, output, Init(output), events);
  }

  /** What is still to happen; every effective step lowers it. */
  function Measure(s: State): nat {
    2 * |s.unwritten| + |s.pipe|
    + (match s.caller case Running => 4 case Closing => 3 case Restoring => 2 case Awaiting => 1 case Returned(_) => 0)
    + (if s.copier.Copying? then 1 else 0)
  }

  lemma {:induction false} MoveOfNothing(a: Bytes, b: Bytes)
    ensures a + b[..0] == a && b[0..] == b
  {
  }

  lemma {:induction false} EffectiveStepsShrink(c: Config, s: State, e: Event)
    ensures Step(c, s, e) == s || Measure(Step(c, s, e)) < Measure(s)
  {
    match e
    case CallerStep(n) =>
      MoveOfNothing(s.pipe, s.unwritten);
    case CopierStep(n, fails) =>
      MoveOfNothing(s.buf, s.pipe);
  }

  /** Every event of the list changes the state it happens in. */
  predicate AllEffective(c: Config, s: State, events: seq<Event>)
    decreases |events|
  {
    events != [] ==> Step(c, s, events[0]) != s && AllEffective(c, Step(c, s, events[0]), events[1..])
  }

  /** No schedule goes on for ever: the number of effective steps is bounded by the output. */
  lemma {:induction false} SchedulesEnd(c: Config, s: State, events: seq<Event>)
    requires AllEffective(c, s, events)
    ensures |events| + Measure(Run(c, s, events)) <= Measure(s)
    decreases |events|
  {
    if events != [] {
      EffectiveStepsShrink(c, s, events[0]);
      SchedulesEnd(c, Step(c, s, events[0]), events[1..]);
    }
  }

  /** Neither goroutine can move. */
  ghost predicate Stuck(c: Config, s: State) {
    forall e :: Step(c, s, e) == s
  }

  predicate Deadlocked(c: Config, s: State) {
    s.copier == Sending(true) && s.caller.Running? && s.unwritten != [] && |s.pipe| == c.capacity
  }

  lemma {:induction false} SomeoneCanMove(c: Config, output: Bytes, s: State) returns (e: Event)
    requires Inv(c, output, s) && c.capacity >= 1 && !s.caller.Returned? && !Deadlocked(c, s)
    ensures Step(c, s, e) != s
  {
    if s.copier.Copying? && (s.pipe != [] || !s.writeEndOpen) {
      e := CopierStep(1, false);
      assert s.pipe != [] ==> |Step(c, s, e).pipe| == |s.pipe| - 1;
    } else {
      e := CallerStep(1);
      assert s.caller.Running? && s.unwritten != [] ==> |Step(c, s, e).unwritten| == |s.unwritten| - 1;
    }
  }

  lemma {:induction false} DeadlockIsStuck(c: Config, s: State, e: Event)
    requires Deadlocked(c, s)
    ensures Step(c, s, e) == s
  {
    MoveOfNothing(s.pipe, s.unwritten);
  }

  /** The only way to stop before returning: a read error while the caller is blocked on a full pipe. */
  lemma {:induction false} StuckMeansReturnedOrDeadlocked(c: Config, output: Bytes, s: State)
    requires Inv(c, output, s) && c.capacity >= 1
    ensures Stuck(c, s) && !s.caller.Returned? <==> Deadlocked(c, s)
  {
    if !s.caller.Returned? && !Deadlocked(c, s) {
      var e := SomeoneCanMove(c, output, s);
    }
    if Deadlocked(c, s) {
      forall e
        ensures Step(c, s, e) == s
      {
        DeadlockIsStuck(c, s, e);
      }
    }
  }

  /**
   Without read and close errors, whatever the capacity, the output and the schedule: a
   schedule that cannot go on has returned exactly the output, in order, with stdout restored.
   */
  lemma {:induction false} ReturnsTheOutput(c: Config, output: Bytes, events: seq<Event>)
    requires c.capacity >= 1 && !c.readsFail && !c.closeFails
    ensures var s := Run(c, Init(output), events);
            && (s.caller.Returned? <==> Stuck(c, s))
            && (s.caller.Returned? ==> s.caller.result == Captured(output) && !s.stdoutIsPipe)
  {
    var s := Run(c, Init(output), events);
    Reachable(c, output, events);
    StuckMeansReturnedOrDeadlocked(c, output, s);
  }

  /** The read fails: the copier has not finished, and pipes can fail. */
  predicate FailsRead(c: Config, s: State, e: Event) {
    e.CopierStep? && e.fails && c.readsFail && s.copier.Copying?
  }

  /** Some step of the schedule does. */
  predicate SomeReadFails(c: Config, s: State, events: seq<Event>)
    decreases |events|
  {
    events != [] && (FailsRead(c, s, events[0]) || SomeReadFails(c, Step(c, s, events[0]), events[1..]))
  }

  /** The copier's error is waiting for the caller, or has been returned by it. */
  predicate HasFailed(s: State) {
    s.copier == Sending(true) || s.caller == Returned(ReadError)
  }

  lemma {:induction false} FailureIsKept(c: Config, output: Bytes, s: State, events: seq<Event>)
    requires Inv(c, output, s)
    ensures HasFailed(Run(c, s, events)) <==> HasFailed(s) || SomeReadFails(c, s, events)
    decreases |events|
  {
    if events != [] {
      StepKeepsInv(c, output, s, events[0]);
      FailureIsKept(c, output, Step(c, s, events[0]), events[1..]);
    }
  }

  /**
   What a call returns with errors allowed: the error of Close if that failed, otherwise the
   read error exactly if a read failed, and the whole output if not.
   */
  lemma {:induction false} ReturnsTheErrors(c: Config, output: Bytes, events: seq<Event>)
    requires Run(c, Init(output), events).caller.Returned?
    ensures Run(c, Init(output), events).caller.result ==
            if c.closeFails then CloseError
            else if SomeReadFails(c, Init(output), events) then ReadError else Captured(output)
  {
    Reachable(c, output, events);
    FailureIsKept(c, output, Init(output), events);
  }

  /** With errors allowed, stdout is still restored whenever the call returns. */
  lemma {:induction false} StdoutIsRestored(c: Config, output: Bytes, events: seq<Event>)
    ensures var s := Run(c, Init(output), events); s.caller.Returned? ==> !s.stdoutIsPipe
  {
    Reachable(c, output, events);
  }

  /** Fill the pipe, then let the reader fail. */
  function FailingSchedule(c: Config): seq<Event> {
    [CallerStep(c.capacity), CopierStep(0, true)]
  }

  /**
   Some schedule blocks, as long as nobody closes the read end that the copier has abandoned,
   exactly when reads can fail and the output does not fit in the pipe.
   */
  lemma {:induction false} DeadlockExactlyWhen(c: Config, output: Bytes)
    requires c.capacity >= 1
    ensures (exists events :: Deadlocked(c, Run(c, Init(output), events))) <==> c.readsFail && |output| > c.capacity
  {
    if c.readsFail && |output| > c.capacity {
      var s1 := Step(c, Init(output), CallerStep(c.capacity));
      var s2 := Step(c, s1, CopierStep(0, true));
      assert |s1.pipe| == c.capacity && |s1.unwritten| == |output| - c.capacity;
      var events := FailingSchedule(c);
      assert events[1..] == [CopierStep(0, true)];
      assert Run(c, s1, events[1..]) == s2;
      assert Run(c, Init(output), events) == s2;
      assert Deadlocked(c, Run(c, Init(output), events));
    }
    forall events | Deadlocked(c, Run(c, Init(output), events))
      ensures c.readsFail && |output| > c.capacity
    {
      Reachable(c, output, events);
    }
  }
}
