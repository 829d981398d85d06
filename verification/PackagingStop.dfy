/** What an interrupt still allows: when Package can succeed after Stop is closed, and when the process exits. */
module PackagingStop {
  import opened Basics
  import opened Streams
  import opened StemcellScript
  import opened Packaging
  import opened PackagingProgress
  import PackagingSuccess

  // ----- success after Stop

  /** The copying ends with a read or a write. */
  predicate EndsChecked(actions: seq<Action>) {
    actions != [] && !actions[|actions| - 1].Open?
  }

  ghost predicate ScriptEndsChecked(c: Config) {
    forall image, manifest :: EndsChecked(c.script(image, manifest))
  }

  /** The stemcell has been renamed, or only that is left to do, apart from an operation that has passed its check. */
  predicate OnlyRenameLeft(s: State) {
    || Succeeded(s.w.pc)
    || (Stemcell in s.disk.names &&
        (s.w.pc.Rename? || (s.w.pc.Archive? && (s.w.pc.todo == [] || (|s.w.pc.todo| == 1 && s.w.pc.passed)))))
  }

  predicate TodoEndsChecked(pc: Pc) {
    pc.Archive? && pc.todo != [] ==> EndsChecked(pc.todo)
  }

  lemma {:induction false} RestEndsChecked(todo: seq<Action>)
    requires EndsChecked(todo)
    ensures todo[1..] == [] || EndsChecked(todo[1..])
    ensures todo[0].Open? ==> todo[1..] != []
  {
  }

  lemma {:induction false} TodoStep(c: Config, s: State, fails: bool, cut: nat)
    requires ScriptEndsChecked(c) && TodoEndsChecked(s.w.pc)
    ensures TodoEndsChecked(WorkStep(c, s, fails, cut).w.pc)
  {
    if s.w.pc.Archive? && s.w.pc.todo != [] {
      RestEndsChecked(s.w.pc.todo);
    }
  }

  lemma {:induction false} TodoRun(c: Config, s: State, events: seq<Event>)
    requires ScriptEndsChecked(c) && TodoEndsChecked(s.w.pc)
    ensures TodoEndsChecked(Run(c, s, events).w.pc)
    decreases |events|
  {
    if events != [] {
      if events[0].Work? {
        TodoStep(c, s, events[0].fails, events[0].cut);
      }
      TodoRun(c, Step(c, s, events[0]), events[1..]);
    }
  }

  lemma {:induction false} BlockedImage(c: Config, s: State, fails: bool, cut: nat)
    requires MakingImage(s.w.pc)
    ensures !OnlyRenameLeft(ImageStep(c, s, fails, cut))
  {
  }

  lemma {:induction false} BlockedArchive(s: State, todo: seq<Action>, fails: bool, cut: nat)
    requires s.stop.stopped && !OnlyRenameLeft(s) && s.w.pc.Archive? && s.w.pc.todo == todo
    requires todo != [] ==> EndsChecked(todo)
    ensures !OnlyRenameLeft(ArchiveStep(s, todo, s.w.pc.passed, fails, cut))
  {
    if todo != [] {
      RestEndsChecked(todo);
    }
  }

  lemma {:induction false} BlockedStemcell(c: Config, s: State, fails: bool, cut: nat)
    requires s.stop.stopped && !OnlyRenameLeft(s) && !MakingImage(s.w.pc)
    requires TodoEndsChecked(s.w.pc) && ScriptEndsChecked(c)
    ensures !OnlyRenameLeft(StemcellStep(c, s, fails, cut))
  {
    if s.w.pc.Archive? {
      BlockedArchive(s, s.w.pc.todo, fails, cut);
    }
  }

  /** Nobody else links the stemcell or moves the worker. */
  lemma {:induction false} BlockedOthers(c: Config, s: State, e: Event)
    requires !e.Work? && !OnlyRenameLeft(s)
    ensures !OnlyRenameLeft(Step(c, s, e))
  {
    match e
    case WorkSweep(name, fails) =>
      if s.w.pc.CleanUp? { SweepShrinks(s.disk, s.recorded, s.w.pc.sweep, name, fails); }
    case HandlerSweep(name, fails) =>
      if s.stop.handler.Cleaning? { SweepShrinks(s.disk, s.recorded, s.stop.handler.sweep, name, fails); }
    case _ =>
  }

  lemma {:induction false} StopStays(c: Config, s: State, e: Event)
    requires s.stop.stopped
    ensures Step(c, s, e).stop.stopped
  {
    if e.Work? {
      WorkKeepsStop(c, s, e.fails, e.cut);
    }
  }

  lemma {:induction false} BlockedRun(c: Config, s: State, events: seq<Event>)
    requires s.stop.stopped && !OnlyRenameLeft(s) && TodoEndsChecked(s.w.pc) && ScriptEndsChecked(c)
    ensures !OnlyRenameLeft(Run(c, s, events))
    decreases |events|
  {
    if events != [] {
      var e := events[0];
      StopStays(c, s, e);
      if !e.Work? {
        BlockedOthers(c, s, e);
      } else if s.alive {
        TodoStep(c, s, e.fails, e.cut);
        if MakingImage(s.w.pc) {
          BlockedImage(c, s, e.fails, e.cut);
        } else {
          BlockedStemcell(c, s, e.fails, e.cut);
        }
      }
      BlockedRun(c, Step(c, s, e), events[1..]);
    }
  }

  /** A removal comes to its end. */
  lemma {:induction false} SweepCanEnd(c: Config, s: State) returns (t: State)
    requires s.alive && s.w.pc.CleanUp?
    ensures Reaches(c, PackagingSuccess.IsSmooth, s, t) && t.w.pc == Returned(s.w.pc.ok)
    decreases SweepRank(s.w.pc.sweep)
  {
    var sweep, name := s.w.pc.sweep, Vmx;
    if sweep.Unlinking? && sweep.left != {} {
      name :| name in sweep.left;
    }
    PackagingSuccess.SweepMoves(s, name);
    SweepEnds(s.disk, s.recorded, sweep, name, false);
    NoStep(c, PackagingSuccess.IsSmooth, s);
    var u := ThenStep(c, PackagingSuccess.IsSmooth, s, s, WorkSweep(name, false));
    t := u;
    if !u.w.pc.Returned? {
      t := SweepCanEnd(c, u);
      ReachesOn(c, PackagingSuccess.IsSmooth, s, u, t);
    }
  }

  lemma {:induction false} RenameCanSucceed(c: Config, s: State) returns (t: State)
    requires s.alive && s.w.pc.Rename? && Stemcell in s.disk.names
    ensures Reaches(c, PackagingSuccess.IsSmooth, s, t) && t.w.pc == Returned(true)
  {
    NoStep(c, PackagingSuccess.IsSmooth, s);
    var u := ThenStep(c, PackagingSuccess.IsSmooth, s, s, Work(false, 0));
    t := SweepCanEnd(c, u);
    ReachesOn(c, PackagingSuccess.IsSmooth, s, u, t);
  }

  lemma {:induction false} ArchiveCanSucceed(c: Config, s: State) returns (t: State)
    requires s.alive && s.w.pc.Archive? && s.w.pc.todo == [] && Stemcell in s.disk.names
    ensures Reaches(c, PackagingSuccess.IsSmooth, s, t) && t.w.pc == Returned(true)
  {
    NoStep(c, PackagingSuccess.IsSmooth, s);
    var u := ThenStep(c, PackagingSuccess.IsSmooth, s, s, Work(false, 0));
    t := RenameCanSucceed(c, u);
    ReachesOn(c, PackagingSuccess.IsSmooth, s, u, t);
  }

  lemma {:induction false} LastCanSucceed(c: Config, s: State) returns (t: State)
    requires s.alive && s.w.pc.Archive? && |s.w.pc.todo| == 1 && s.w.pc.passed && Stemcell in s.disk.names
    requires EndsChecked(s.w.pc.todo)
    ensures Reaches(c, PackagingSuccess.IsSmooth, s, t) && t.w.pc == Returned(true)
  {
    NoStep(c, PackagingSuccess.IsSmooth, s);
    var u := ThenStep(c, PackagingSuccess.IsSmooth, s, s, Work(false, 0));
    assert u.w.pc == Archive([], false);
    t := ArchiveCanSucceed(c, u);
    ReachesOn(c, PackagingSuccess.IsSmooth, s, u, t);
  }

  lemma {:induction false} CanSucceed(c: Config, s: State) returns (t: State)
    requires s.alive && OnlyRenameLeft(s) && TodoEndsChecked(s.w.pc)
    ensures Reaches(c, PackagingSuccess.IsSmooth, s, t) && t.w.pc == Returned(true)
  {
    match s.w.pc
    case Rename => t := RenameCanSucceed(c, s);
    case Archive(todo, _) => if todo == [] { t := ArchiveCanSucceed(c, s); } else { t := LastCanSucceed(c, s); }
    case CleanUp(_, _) => t := SweepCanEnd(c, s);
    case Returned(_) => NoStep(c, PackagingSuccess.IsSmooth, s); t := s;
  }

  /** Package returns success in this run. */
  predicate EndsWell(c: Config, s: State, more: seq<Event>) {
    Run(c, s, more).w.pc == Returned(true)
  }

  /**
   Once Stop is closed, Package can still succeed exactly if every read and write of the copying
   has passed its stop check by then and no Cleanup has unlinked the stemcell; then it can do so
   without further disturbances.
   */
  lemma {:induction false} StopDecidesSuccess(c: Config, events: seq<Event>)
    requires ScriptEndsChecked(c)
    requires var s := Run(c, Init(), events); s.stop.stopped && s.alive
    ensures var s := Run(c, Init(), events);
            && ((exists more :: EndsWell(c, s, more)) <==> OnlyRenameLeft(s))
            && (OnlyRenameLeft(s) ==>
                  exists t :: Reaches(c, PackagingSuccess.IsSmooth, s, t) && t.w.pc == Returned(true))
  {
    var s := Run(c, Init(), events);
    TodoRun(c, Init(), events);
    if OnlyRenameLeft(s) {
      var t := CanSucceed(c, s);
      var more :| AllOf(more, PackagingSuccess.IsSmooth) && Run(c, s, more) == t;
      assert EndsWell(c, s, more);
    } else {
      forall more ensures !EndsWell(c, s, more) {
        BlockedRun(c, s, more);
      }
    }
  }

  /** The packager's copying does end so: with the read that meets the manifest's end, or what is flushed after it. */
  lemma {:induction false} PackagerEndsChecked(codecs: Codecs, sha1: Bytes -> string, manifestText: string -> Bytes)
    ensures ScriptEndsChecked(Packager(codecs, sha1, manifestText))
  {
    forall image, manifest ensures EndsChecked(Script(codecs, image, manifest)) {
      var inputs := ArchiveInputs(StemcellFiles(image, manifest));
      TarScriptEnds(codecs, inputs);
    }
  }

  lemma {:induction false} TarScriptEnds(c: Codecs, inputs: seq<TarInput>)
    requires inputs != [] && inputs[|inputs| - 1].CloseTar?
    ensures EndsChecked(TarScript(c, inputs))
  {
  }

  // ----- interrupts

  /** An interrupt arrives before the packager listens for it, which ends the process. */
  predicate ComesEarly(c: Config, s: State, events: seq<Event>)
    decreases |events|
  {
    events != [] &&
    ((events[0].Interrupt? && s.stop.handler.NotListening?) || ComesEarly(c, Step(c, s, events[0]), events[1..]))
  }

  /** Interrupts that have arrived: queued, taken as the first, and taken as the one that ends the process. */
  function Taken(t: Stopper): nat {
    t.signals + (if t.stopping then 1 else 0) + (if t.handler.Cleaning? && t.handler.exiting then 1 else 0)
  }

  predicate ExitsSecond(t: Stopper) {
    t.handler.Cleaning? && t.handler.exiting ==> t.stopping
  }

  lemma {:induction false} ExitStep(c: Config, s: State, e: Event)
    requires s.alive && ExitsSecond(s.stop) && !(e.Interrupt? && s.stop.handler.NotListening?)
    ensures var s' := Step(c, s, e);
            && (s'.alive ==> ExitsSecond(s'.stop) && Taken(s'.stop) <= Taken(s.stop) + (if e.Interrupt? then 1 else 0))
            && (!s'.alive ==> Taken(s.stop) >= 2)
  {
    if e.Work? {
      WorkKeepsStop(c, s, e.fails, e.cut);
      WorkStaysAlive(c, s, e.fails, e.cut);
    }
  }

  lemma {:induction false} WorkStaysAlive(c: Config, s: State, fails: bool, cut: nat)
    ensures WorkStep(c, s, fails, cut).alive == s.alive
  {
  }

  lemma {:induction false} ExitCount(c: Config, s: State, events: seq<Event>)
    requires s.alive && ExitsSecond(s.stop) && !ComesEarly(c, s, events)
    ensures Run(c, s, events).alive || Taken(s.stop) + multiset(events)[Interrupt] >= 2
    decreases |events|
  {
    if events != [] {
      var e := events[0];
      ExitStep(c, s, e);
      assert events == [e] + events[1..];
      var s1 := Step(c, s, e);
      if s1.alive {
        ExitCount(c, s1, events[1..]);
      }
    }
  }

  lemma {:induction false} EndedStays(c: Config, s: State, events: seq<Event>)
    requires !s.alive || ComesEarly(c, s, events)
    ensures !Run(c, s, events).alive
    decreases |events|
  {
    if events != [] {
      EndedStays(c, Step(c, s, events[0]), events[1..]);
    }
  }

  /** An interrupt before the packager listens ends the process, and otherwise it takes two. */
  lemma {:induction false} ExitTakesTwo(c: Config, events: seq<Event>)
    ensures ComesEarly(c, Init(), events) ==> !Run(c, Init(), events).alive
    ensures !ComesEarly(c, Init(), events) && multiset(events)[Interrupt] <= 1 ==> Run(c, Init(), events).alive
  {
    if ComesEarly(c, Init(), events) {
      EndedStays(c, Init(), events);
    } else {
      ExitCount(c, Init(), events);
    }
  }

  predicate IsHandler(e: Event) {
    e.Handle? || e.HandlerSweep?
  }

  lemma {:induction false} HandlerSweepCanEnd(c: Config, s: State) returns (t: State)
    requires s.alive && s.stop.handler.Cleaning? && s.stop.handler.exiting
    ensures Reaches(c, IsHandler, s, t) && !t.alive
    decreases SweepRank(s.stop.handler.sweep)
  {
    var sweep, name := s.stop.handler.sweep, Vmx;
    if sweep.Unlinking? && sweep.left != {} {
      name :| name in sweep.left;
    }
    SweepEnds(s.disk, s.recorded, sweep, name, false);
    NoStep(c, IsHandler, s);
    var u := ThenStep(c, IsHandler, s, s, HandlerSweep(name, false));
    t := u;
    if u.alive {
      t := HandlerSweepCanEnd(c, u);
      ReachesOn(c, IsHandler, s, u, t);
    }
  }

  /** A second interrupt, once taken up, lets the handler end the process, whatever the worker does. */
  lemma {:induction false} SecondInterruptExits(c: Config, s: State) returns (t: State)
    requires s.alive && s.stop.handler.Listening? && s.stop.stopping && s.stop.signals > 0
    ensures Reaches(c, IsHandler, s, t) && !t.alive && t.w == s.w
  {
    NoStep(c, IsHandler, s);
    var u := ThenStep(c, IsHandler, s, s, Handle);
    t := HandlerSweepCanEnd(c, u);
    ReachesOn(c, IsHandler, s, u, t);
    var events :| AllOf(events, IsHandler) && Run(c, s, events) == t;
    HandlersLeaveWorker(c, s, events);
  }

  lemma {:induction false} HandlersLeaveWorker(c: Config, s: State, events: seq<Event>)
    requires AllOf(events, IsHandler)
    ensures Run(c, s, events).w == s.w
    decreases |events|
  {
    if events != [] {
      assert IsHandler(events[0]);
      assert forall e :: e in events[1..] ==> e in events;
      HandlersLeaveWorker(c, Step(c, s, events[0]), events[1..]);
    }
  }
}
