/** When the temporary directory is gone after Package returns. */
module PackagingCleanup {
  import opened Basics
  import opened StemcellScript
  import opened Packaging

  /** The select in ConvertVMX2OVA can take its stop branch. */
  predicate CanStop(s: State) {
    s.alive && s.w.pc.AwaitTool? && s.stop.stopped
  }

  /** It takes that branch while ovftool runs. */
  predicate StopsTool(s: State, e: Event) {
    CanStop(s) && s.ovf.tool.Running? && e.Work? && e.fails
  }

  /** Some step of the run does. */
  predicate ToolStopped(c: Config, s: State, events: seq<Event>)
    decreases |events|
  {
    events != [] && (StopsTool(s, events[0]) || ToolStopped(c, Step(c, s, events[0]), events[1..]))
  }

  /** An I/O error in Package's own removal of the directory. */
  predicate SweepFails(e: Event) {
    e.WorkSweep? && e.fails
  }

  predicate SweepFailsIn(events: seq<Event>) {
    exists e :: e in events && SweepFails(e)
  }

  // ----- who kills ovftool

  lemma {:induction false} ImageKills(c: Config, s: State, fails: bool, cut: nat)
    requires !s.ovf.tool.Killed?
    ensures ImageStep(c, s, fails, cut).ovf.tool.Killed? <==>
              s.w.pc.AwaitTool? && s.stop.stopped && s.ovf.tool.Running? && fails
  {
  }

  lemma {:induction false} StemcellKillsNothing(c: Config, s: State, fails: bool, cut: nat)
    ensures StemcellStep(c, s, fails, cut).ovf == s.ovf
  {
  }

  lemma {:induction false} KillStep(c: Config, s: State, e: Event)
    requires !s.ovf.tool.Killed?
    ensures Step(c, s, e).ovf.tool.Killed? <==> StopsTool(s, e)
  {
    if e.Work? && s.alive {
      if MakingImage(s.w.pc) {
        ImageKills(c, s, e.fails, e.cut);
      } else {
        StemcellKillsNothing(c, s, e.fails, e.cut);
      }
    }
  }

  lemma {:induction false} KilledStays(c: Config, s: State, e: Event)
    requires Inv(c, s) && s.ovf.tool.Killed?
    ensures Step(c, s, e).ovf.tool.Killed?
  {
    if e.Work? && s.alive {
      assert !MakingImage(s.w.pc);
      StemcellKillsNothing(c, s, e.fails, e.cut);
    }
  }

  /** ovftool has been killed exactly if the stop branch was taken while it ran. */
  lemma {:induction false} KilledExactlyIf(c: Config, s: State, events: seq<Event>)
    requires Inv(c, s)
    ensures Run(c, s, events).ovf.tool.Killed? <==> s.ovf.tool.Killed? || ToolStopped(c, s, events)
    decreases |events|
  {
    if events != [] {
      var e := events[0];
      StepKeepsInv(c, s, e);
      if s.ovf.tool.Killed? {
        KilledStays(c, s, e);
      } else {
        KillStep(c, s, e);
      }
      KilledExactlyIf(c, Step(c, s, e), events[1..]);
    }
  }

  /** Without an interrupt nothing stops. */
  lemma {:induction false} UninterruptedStopsNothing(c: Config, s: State, events: seq<Event>)
    requires Interrupt !in events
    requires s.stop.signals == 0 && !s.stop.stopped && (s.stop.handler.NotListening? || s.stop.handler.Listening?)
    ensures !ToolStopped(c, s, events)
    decreases |events|
  {
    if events != [] {
      assert events[0] != Interrupt;
      if events[0].Work? {
        WorkKeepsStop(c, s, events[0].fails, events[0].cut);
      }
      UninterruptedStopsNothing(c, Step(c, s, events[0]), events[1..]);
    }
  }

  // ----- what Package's own Cleanup leaves

  /** Whatever is left in the directory is still to be unlinked. */
  predicate Tidy(d: Disk, pc: Pc) {
    && (pc.CleanUp? && pc.sweep.Unlinking? ==> d.names.Keys <= pc.sweep.left)
    && (pc.Returned? ==> !d.dir)
  }

  lemma {:induction false} TidySweep(s: State, name: Name, t: Targets)
    requires InvFor(s, t) && Tidy(s.disk, s.w.pc)
    ensures var s' := WorkSweepStep(s, name, false); Tidy(s'.disk, s'.w.pc)
  {
    if s.w.pc.CleanUp? {
      TidyUnlinking(s.disk, s.recorded, s.w.pc.sweep, name);
    }
  }

  lemma {:induction false} TidyUnlinking(d: Disk, recorded: bool, sweep: Sweep, name: Name)
    requires (d.dir ==> recorded) && (sweep.Unlinking? ==> d.names.Keys <= sweep.left)
    ensures var (d', sweep') := SweepStep(d, recorded, sweep, name, false);
            && (sweep'.None? ==> !d'.dir)
            && (sweep'.Some? && sweep'.value.Unlinking? ==> d'.names.Keys <= sweep'.value.left)
  {
    if sweep.Unlinking? && sweep.left == {} {
      assert d.names == map[];
    }
  }

  lemma {:induction false} TidyHandler(s: State, name: Name, fails: bool, t: Targets)
    requires InvFor(s, t) && Tidy(s.disk, s.w.pc)
    ensures var s' := HandlerSweepStep(s, name, fails); Tidy(s'.disk, s'.w.pc)
  {
    if s.stop.handler.Cleaning? {
      SweepShrinks(s.disk, s.recorded, s.stop.handler.sweep, name, fails);
    }
  }

  lemma {:induction false} ImageEnds(c: Config, s: State, fails: bool, cut: nat)
    requires MakingImage(s.w.pc)
    ensures var pc := ImageStep(c, s, fails, cut).w.pc; !pc.Returned? && (pc.CleanUp? ==> pc.sweep == Stat)
  {
  }

  lemma {:induction false} StemcellEnds(c: Config, s: State, fails: bool, cut: nat)
    requires !MakingImage(s.w.pc)
    ensures var s' := StemcellStep(c, s, fails, cut);
            s' == s || (!s'.w.pc.Returned? && (s'.w.pc.CleanUp? ==> s'.w.pc.sweep == Stat))
  {
  }

  lemma {:induction false} TidyWork(c: Config, s: State, fails: bool, cut: nat)
    requires Tidy(s.disk, s.w.pc)
    ensures var s' := WorkStep(c, s, fails, cut); Tidy(s'.disk, s'.w.pc)
  {
    if MakingImage(s.w.pc) {
      ImageEnds(c, s, fails, cut);
    } else {
      StemcellEnds(c, s, fails, cut);
    }
  }

  lemma {:induction false} TidyStep(c: Config, s: State, e: Event)
    requires Inv(c, s) && Tidy(s.disk, s.w.pc) && !s.ovf.tool.Killed? && !SweepFails(e)
    ensures var s' := Step(c, s, e); Tidy(s'.disk, s'.w.pc)
  {
    var t := TargetsFor(c, s.w.ova);
    match e
    case Work(fails, cut) => TidyWork(c, s, fails, cut);
    case WorkSweep(name, _) => TidySweep(s, name, t);
    case HandlerSweep(name, fails) => TidyHandler(s, name, fails, t);
    case _ =>
  }

  lemma {:induction false} TidyRun(c: Config, s: State, events: seq<Event>)
    requires Inv(c, s) && Tidy(s.disk, s.w.pc) && !s.ovf.tool.Killed?
    requires !ToolStopped(c, s, events) && !SweepFailsIn(events)
    ensures var s' := Run(c, s, events); Tidy(s'.disk, s'.w.pc)
    decreases |events|
  {
    if events != [] {
      var e := events[0];
      assert !SweepFails(e);
      TidyStep(c, s, e);
      StepKeepsInv(c, s, e);
      KillStep(c, s, e);
      assert forall x :: x in events[1..] ==> x in events;
      TidyRun(c, Step(c, s, e), events[1..]);
    }
  }

  lemma {:induction false} SuccessStopsNothing(c: Config, events: seq<Event>)
    requires Run(c, Init(), events).w.pc == Returned(true)
    ensures !ToolStopped(c, Init(), events)
  {
    InitInv(c);
    RunKeepsInv(c, Init(), events);
    KilledExactlyIf(c, Init(), events);
  }

  /**
   In every run, whatever is interleaved: Package returns without its directory unless the
   stop branch was taken while ovftool ran, or an I/O error hit the removal.  In particular
   it does so when it succeeds and when it is not interrupted.
   */
  lemma {:induction false} TempDirIsGone(c: Config, events: seq<Event>)
    requires Run(c, Init(), events).w.pc.Returned? && !SweepFailsIn(events)
    ensures Run(c, Init(), events).disk.dir ==> ToolStopped(c, Init(), events)
    ensures Run(c, Init(), events).w.pc.ok || Interrupt !in events ==> !Run(c, Init(), events).disk.dir
  {
    InitInv(c);
    if !ToolStopped(c, Init(), events) {
      TidyRun(c, Init(), events);
    }
    if Run(c, Init(), events).w.pc.ok {
      SuccessStopsNothing(c, events);
    }
    if Interrupt !in events {
      UninterruptedStopsNothing(c, Init(), events);
    }
  }

  // ----- how the directory stays

  /** Neither a further interrupt nor an I/O error in the removal. */
  predicate IsQuiet(e: Event) {
    !e.Interrupt? && !SweepFails(e)
  }

  /** Only ovftool's own link and the VMX file are in the directory while ovftool is awaited. */
  lemma {:induction false} FilesWhileAwaiting(s: State, t: Targets)
    requires InvFor(s, t) && s.w.pc.AwaitTool? && s.disk.dir
    ensures s.recorded && s.disk.names.Keys <= {Vmx, Ova}
  {
    forall n | n in s.disk.names
      ensures n in {Vmx, Ova}
    {
      assert n.Vmx? || n.Ova? || n.Image? || n.Manifest? || n.Stemcell?;
    }
  }

  /** The killed process creates its output after the directory was listed; then the removal ends in vain. */
  lemma {:induction false} WritesLate(c: Config, s: State, left: set<Name>) returns (t: State)
    requires s.alive && s.disk.dir && s.ovf.tool == Killed(false) && Ova !in s.disk.names
    requires s.w.pc == CleanUp(Unlinking(left), false) && left <= {Vmx}
    ensures Reaches(c, IsQuiet, s, t) && t.w.pc == Returned(false) && t.disk.dir
  {
    NoStep(c, IsQuiet, s);
    t := ThenStep(c, IsQuiet, s, s, ToolStep(Produce));
    assert Ova in t.disk.names && t.w.pc == s.w.pc && t.disk.dir && t.alive;
    if Vmx in left {
      t := ThenStep(c, IsQuiet, s, t, WorkSweep(Vmx, false));
      assert left - {Vmx} == {};
    } else {
      assert left == {};
    }
    assert t.w.pc == CleanUp(Unlinking({}), false) && Ova in t.disk.names && t.disk.dir;
    t := ThenStep(c, IsQuiet, s, t, WorkSweep(Vmx, false));
  }

  lemma {:induction false} DirectoryStays(c: Config, s: State) returns (t: State)
    requires Inv(c, s) && CanStop(s) && s.ovf.tool.Running? && s.disk.dir
    ensures Reaches(c, IsQuiet, s, t) && t.w.pc == Returned(false) && t.disk.dir
  {
    FilesWhileAwaiting(s, TargetsFor(c, s.w.ova));
    NoStep(c, IsQuiet, s);
    t := ThenStep(c, IsQuiet, s, s, Work(true, 0));
    assert t.w.pc == CleanUp(Stat, false) && t.ovf.tool == Killed(false) && t.disk == s.disk;
    t := ThenStep(c, IsQuiet, s, t, WorkSweep(Ova, false));
    t := ThenStep(c, IsQuiet, s, t, WorkSweep(Ova, false));
    var left := s.disk.names.Keys;
    assert t.w.pc == CleanUp(Unlinking(left), false) && t.disk == s.disk && t.ovf.tool == Killed(false) && t.alive;
    if Ova in left {
      t := ThenStep(c, IsQuiet, s, t, WorkSweep(Ova, false));
      left := left - {Ova};
    }
    var u := WritesLate(c, t, left);
    ReachesOn(c, IsQuiet, s, t, u);
    t := u;
  }

  /** Past its start, an ovftool that is not running is never killed. */
  lemma {:induction false} EndedToolIsNotStopped(c: Config, s: State, events: seq<Event>)
    requires Inv(c, s) && !s.ovf.tool.Running? && !s.ovf.tool.Killed?
    requires !s.w.pc.MakeDir? && !s.w.pc.RecordDir? && !s.w.pc.CreateVmx? && !s.w.pc.StartTool?
    ensures !ToolStopped(c, s, events)
    decreases |events|
  {
    if events != [] {
      KillStep(c, s, events[0]);
      StepKeepsInv(c, s, events[0]);
      EndedToolStep(c, s, events[0]);
      EndedToolIsNotStopped(c, Step(c, s, events[0]), events[1..]);
    }
  }

  lemma {:induction false} EndedToolStep(c: Config, s: State, e: Event)
    requires !s.ovf.tool.Running? && !s.ovf.tool.Killed?
    requires !s.w.pc.MakeDir? && !s.w.pc.RecordDir? && !s.w.pc.CreateVmx? && !s.w.pc.StartTool?
    ensures var s' := Step(c, s, e);
            && !s'.ovf.tool.Running?
            && !s'.w.pc.MakeDir? && !s'.w.pc.RecordDir? && !s'.w.pc.CreateVmx? && !s'.w.pc.StartTool?
  {
  }

  /** A directory that has been removed is not made again. */
  lemma {:induction false} RemovedStaysGone(c: Config, s: State, events: seq<Event>)
    requires !s.disk.dir && !s.w.pc.MakeDir?
    ensures !Run(c, s, events).disk.dir
    decreases |events|
  {
    if events != [] {
      RemovedStep(c, s, events[0]);
      RemovedStaysGone(c, Step(c, s, events[0]), events[1..]);
    }
  }

  lemma {:induction false} RemovedStep(c: Config, s: State, e: Event)
    requires !s.disk.dir && !s.w.pc.MakeDir?
    ensures var s' := Step(c, s, e); !s'.disk.dir && !s'.w.pc.MakeDir?
  {
  }

  /**
   The stop branch ends the packaging, and the guard of the failing case is exact.  In every
   reachable state in which the select can take its stop branch, Package can still return and
   leave its directory, without further interrupts and I/O errors, exactly if ovftool is running
   and the directory is still there.
   */
  lemma {:induction false} StopBranchDecides(c: Config, events: seq<Event>)
    requires CanStop(Run(c, Init(), events))
    ensures var s := Run(c, Init(), events);
            && Step(c, s, Work(true, 0)).w.pc == CleanUp(Stat, false)
            && ((exists t :: Reaches(c, IsQuiet, s, t) && t.w.pc.Returned? && t.disk.dir)
                <==> s.ovf.tool.Running? && s.disk.dir)
  {
    InitInv(c);
    RunKeepsInv(c, Init(), events);
    var s := Run(c, Init(), events);
    if s.ovf.tool.Running? && s.disk.dir {
      var t := DirectoryStays(c, s);
    } else {
      forall t | Reaches(c, IsQuiet, s, t) && t.w.pc.Returned?
        ensures !t.disk.dir
      {
        var more :| AllOf(more, IsQuiet) && Run(c, s, more) == t;
        if !s.disk.dir {
          RemovedStaysGone(c, s, more);
        } else {
          EndedToolIsNotStopped(c, s, more);
          TidyRun(c, s, more);
        }
      }
    }
  }

  /** The first interrupt closes Stop while ovftool runs. */
  lemma {:induction false} OneInterrupt(c: Config) returns (events: seq<Event>)
    ensures multiset(events)[Interrupt] == 1 && !SweepFailsIn(events)
    ensures var s := Run(c, Init(), events); CanStop(s) && s.ovf.tool.Running? && s.disk.dir
  {
    var s := ToolStarts(c, IsQuiet);
    var before :| AllOf(before, IsQuiet) && Run(c, Init(), before) == s;
    var close := [Handle, Interrupt, Handle, Handle];
    events := before + close;
    RunAppend(c, Init(), before, close);
    StopCloses(c, s, close);
    assert Interrupt !in before;
    assert multiset(events) == multiset(before) + multiset(close);
    forall e | e in events ensures !SweepFails(e) {
      assert e in before || e in close;
    }
  }

  lemma {:induction false} StopCloses(c: Config, s: State, close: seq<Event>)
    requires s.alive && s.stop == Init().stop && close == [Handle, Interrupt, Handle, Handle]
    ensures Run(c, s, close) == s.(stop := Stopper(true, 1, Cleaning(Stat, false), true, 0))
  {
    var s1 := Step(c, s, Handle);
    var s2 := Step(c, s1, Interrupt);
    var s3 := Step(c, s2, Handle);
    RunCons(c, s3, Handle, []);
    RunCons(c, s2, Handle, [Handle]);
    RunCons(c, s1, Interrupt, [Handle, Handle]);
    RunCons(c, s, Handle, [Interrupt, Handle, Handle]);
    assert close == [Handle] + [Interrupt, Handle, Handle] && [Handle, Handle] == [Handle] + [Handle];
    assert [Interrupt, Handle, Handle] == [Interrupt] + [Handle, Handle] && [Handle] == [Handle] + [];
  }

  /** Package leaves its directory behind in this run. */
  predicate Leaves(c: Config, events: seq<Event>) {
    !SweepFailsIn(events) && Run(c, Init(), events).w.pc.Returned? && Run(c, Init(), events).disk.dir
  }

  /**
   What a caller can rely on: if removing files does not fail, Package leaves no directory in
   any run with at most n interrupts exactly if n is 0.
   */
  lemma {:induction false} GoneExactlyUninterrupted(c: Config, n: nat)
    ensures (forall events :: multiset(events)[Interrupt] <= n ==> !Leaves(c, events)) <==> n == 0
  {
    if n == 0 {
      forall events | multiset(events)[Interrupt] == 0 && !SweepFailsIn(events)
        ensures !Leaves(c, events)
      {
        assert Interrupt !in events;
        if Run(c, Init(), events).w.pc.Returned? {
          TempDirIsGone(c, events);
        }
      }
    } else {
      var events := OneInterrupt(c);
      StopBranchDecides(c, events);
      var s := Run(c, Init(), events);
      var t :| Reaches(c, IsQuiet, s, t) && t.w.pc.Returned? && t.disk.dir;
      var more :| AllOf(more, IsQuiet) && Run(c, s, more) == t;
      RunAppend(c, Init(), events, more);
      assert Interrupt !in more && multiset(events + more) == multiset(events) + multiset(more);
      assert Leaves(c, events + more);
    }
  }

  // ----- what errors leave linked

  /** The removal of a half-written file fails. */
  predicate DiscardFails(s: State, e: Event) {
    s.alive && s.w.pc.Discard? && e.Work? && e.fails
  }

  predicate SomeDiscardFails(c: Config, s: State, events: seq<Event>)
    decreases |events|
  {
    events != [] && (DiscardFails(s, events[0]) || SomeDiscardFails(c, Step(c, s, events[0]), events[1..]))
  }

  /** Outside the steps that write or discard it, a linked manifest or stemcell is complete. */
  predicate NothingPartial(d: Disk, pc: Pc, t: Targets) {
    && (Stemcell in d.names && !pc.Archive? && pc != Discard(Stemcell) ==>
          Content(d, Some(d.names[Stemcell])) == t.stemcell)
    && (Manifest in d.names && !pc.WriteManifest? && pc != Discard(Manifest) ==>
          Content(d, Some(d.names[Manifest])) == t.manifest)
  }

  lemma {:induction false} PartialImage(c: Config, s: State, fails: bool, cut: nat, t: Targets, u: Targets)
    requires InvFor(s, t) && MakingImage(s.w.pc)
    ensures var s' := ImageStep(c, s, fails, cut); NothingPartial(s'.disk, s'.w.pc, u)
  {
    assert Stemcell !in s.disk.names && Manifest !in s.disk.names;
  }

  lemma {:induction false} PartialArchive(s: State, todo: seq<Action>, fails: bool, cut: nat, t: Targets)
    requires InvFor(s, t) && s.w.pc.Archive? && s.w.pc.todo == todo && NothingPartial(s.disk, s.w.pc, t)
    ensures var s' := ArchiveStep(s, todo, s.w.pc.passed, fails, cut); NothingPartial(s'.disk, s'.w.pc, t)
  {
    assert Content(s.disk, s.w.stemcell) + [] == Content(s.disk, s.w.stemcell);
  }

  lemma {:induction false} PartialStemcell(c: Config, s: State, fails: bool, cut: nat, t: Targets)
    requires InvFor(s, t) && !MakingImage(s.w.pc) && NothingPartial(s.disk, s.w.pc, t)
    requires c.manifestFor(t.image) == t.manifest && !(fails && s.w.pc.Discard?)
    ensures var s' := StemcellStep(c, s, fails, cut); NothingPartial(s'.disk, s'.w.pc, t)
  {
    if s.w.pc.Archive? {
      PartialArchive(s, s.w.pc.todo, fails, cut, t);
    }
  }

  /** Unlinking leaves nothing partial behind. */
  lemma {:induction false} PartialSweep(d: Disk, recorded: bool, sweep: Sweep, name: Name, fails: bool, pc: Pc,
                                        t: Targets)
    requires NothingPartial(d, pc, t)
    ensures NothingPartial(SweepStep(d, recorded, sweep, name, fails).0, pc, t)
  {
    SweepShrinks(d, recorded, sweep, name, fails);
  }

  lemma {:induction false} PartialTool(s: State, move: ToolMove, t: Targets)
    requires InvFor(s, t) && NothingPartial(s.disk, s.w.pc, t)
    ensures var s' := ToolMoveStep(s, move); NothingPartial(s'.disk, s'.w.pc, t)
  {
  }

  lemma {:induction false} PartialOthers(c: Config, s: State, e: Event, t: Targets)
    requires InvFor(s, t) && !e.Work? && NothingPartial(s.disk, s.w.pc, t)
    ensures var s' := Step(c, s, e); NothingPartial(s'.disk, s'.w.pc, t)
  {
    match e
    case WorkSweep(name, fails) =>
      if s.w.pc.CleanUp? { PartialSweep(s.disk, s.recorded, s.w.pc.sweep, name, fails, s.w.pc, t); }
    case HandlerSweep(name, fails) =>
      if s.stop.handler.Cleaning? { PartialSweep(s.disk, s.recorded, s.stop.handler.sweep, name, fails, s.w.pc, t); }
    case ToolStep(move) => PartialTool(s, move, t);
    case _ =>
  }

  lemma {:induction false} PartialStep(c: Config, s: State, e: Event)
    requires Inv(c, s) && NothingPartial(s.disk, s.w.pc, TargetsFor(c, s.w.ova)) && !DiscardFails(s, e)
    ensures var s' := Step(c, s, e); NothingPartial(s'.disk, s'.w.pc, TargetsFor(c, s'.w.ova))
  {
    var t, u := TargetsFor(c, s.w.ova), TargetsFor(c, Step(c, s, e).w.ova);
    if !e.Work? {
      PartialOthers(c, s, e, t);
      OthersReadNothing(c, s, e);
    } else if s.alive {
      if MakingImage(s.w.pc) {
        PartialImage(c, s, e.fails, e.cut, t, u);
      } else {
        OvaIsReadOnce(c, s, e.fails, e.cut);
        PartialStemcell(c, s, e.fails, e.cut, t);
      }
    }
  }

  lemma {:induction false} PartialRun(c: Config, s: State, events: seq<Event>)
    requires Inv(c, s) && NothingPartial(s.disk, s.w.pc, TargetsFor(c, s.w.ova)) && !SomeDiscardFails(c, s, events)
    ensures var s' := Run(c, s, events); NothingPartial(s'.disk, s'.w.pc, TargetsFor(c, s'.w.ova))
    decreases |events|
  {
    if events != [] {
      StepKeepsInv(c, s, events[0]);
      PartialStep(c, s, events[0]);
      PartialRun(c, Step(c, s, events[0]), events[1..]);
    }
  }

  /**
   Whatever fails or is interrupted, except for the removal of a half-written file: outside the
   steps that write or discard it a linked manifest or stemcell is complete.
   */
  lemma {:induction false} NoPartialIsLeft(c: Config, events: seq<Event>)
    requires !SomeDiscardFails(c, Init(), events)
    ensures var s := Run(c, Init(), events); NothingPartial(s.disk, s.w.pc, TargetsFor(c, s.w.ova))
  {
    InitInv(c);
    PartialRun(c, Init(), events);
  }
}
