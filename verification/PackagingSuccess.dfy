/** Packaging runs that nothing disturbs: they can always go on until Package returns, and how it returns. */
module PackagingSuccess {
  import opened Basics
  import opened Streams
  import opened StemcellScript
  import opened Packaging
  import opened PackagingProgress
  import PackagingCleanup

  /** No interrupt and no I/O error; ovftool may do anything. */
  predicate IsSmooth(e: Event) {
    match e
    case Work(fails, _) => !fails
    case WorkSweep(_, fails) => !fails
    case Handle => true
    case ToolStep(_) => true
    case _ => false
  }

  // ----- what holds as long as nothing disturbs

  predicate Ended(pc: Pc) {
    pc.CleanUp? || pc.Returned?
  }

  /** What is in the directory at each step; produced: ovftool has created its output. */
  function Links(pc: Pc, produced: bool): set<Name> {
    match pc
    case StartTool => {Vmx}
    case AwaitTool => if produced then {Vmx, Ova} else {Vmx}
    case OpenOva => if produced then {Vmx, Ova} else {Vmx}
    case CreateImage => {Vmx, Ova}
    case WriteImage(_) => {Vmx, Ova, Image}
    case CheckDir => {Vmx, Ova, Image}
    case CreateManifest => {Vmx, Ova, Image}
    case WriteManifest => {Vmx, Ova, Image, Manifest}
    case RecheckDir => {Vmx, Ova, Image, Manifest}
    case CreateStemcell => {Vmx, Ova, Image, Manifest}
    case Archive(_, _) => {Vmx, Ova, Image, Manifest, Stemcell}
    case Rename => {Vmx, Ova, Image, Manifest, Stemcell}
    case _ => {}
  }

  predicate Produced(ovf: Ovftool) {
    ovf.tool == Exited(true) && ovf.file.Some?
  }

  /** How far ovftool is at each step. */
  predicate ToolAt(pc: Pc, ovf: Ovftool) {
    if pc.MakeDir? || pc.RecordDir? || pc.CreateVmx? || pc.StartTool? then ovf == Ovftool(NotStarted, None)
    else if pc.AwaitTool? then ovf.tool.Running? || ovf.tool.Exited?
    else if pc.OpenOva? then ovf.tool == Exited(true)
    else if Ended(pc) then ovf.tool.Exited? && (pc.ok <==> Produced(ovf))
    else Produced(ovf)
  }

  predicate OpensInputs(todo: seq<Action>) {
    forall i :: 0 <= i < |todo| && todo[i].Open? ==> todo[i].name in {Image, Manifest}
  }

  ghost predicate ScriptOpensInputs(c: Config) {
    forall image, manifest :: OpensInputs(c.script(image, manifest))
  }

  predicate Quiet(t: Stopper) {
    !t.stopped && !t.stopping && t.signals == 0 && (t.handler.NotListening? || t.handler.Listening?)
  }

  /** The directory and its links, until the worker is done with them. */
  predicate DiskAt(pc: Pc, d: Disk, recorded: bool, produced: bool) {
    Ended(pc) || (
      && d.names.Keys == Links(pc, produced)
      && (d.dir <==> !pc.MakeDir?)
      && (recorded <==> !pc.MakeDir? && !pc.RecordDir?))
  }

  predicate Undisturbed(s: State) {
    && s.alive && Quiet(s.stop) && !s.w.pc.Discard?
    && DiskAt(s.w.pc, s.disk, s.recorded, s.ovf.file.Some?)
    && ToolAt(s.w.pc, s.ovf)
    && (s.w.pc.Archive? ==> OpensInputs(s.w.pc.todo))
  }

  lemma {:induction false} UndisturbedImage(c: Config, s: State, cut: nat)
    requires Undisturbed(s) && MakingImage(s.w.pc)
    ensures Undisturbed(ImageStep(c, s, false, cut))
  {
  }

  lemma {:induction false} UndisturbedArchive(s: State, todo: seq<Action>, cut: nat)
    requires Undisturbed(s) && s.w.pc.Archive? && s.w.pc.todo == todo
    ensures Undisturbed(ArchiveStep(s, todo, s.w.pc.passed, false, cut))
  {
    if todo != [] {
      assert OpensInputs(todo[1..]) by { assert forall i :: 0 <= i < |todo| - 1 ==> todo[1..][i] == todo[i + 1]; }
    }
  }

  lemma {:induction false} UndisturbedStemcell(c: Config, s: State, cut: nat)
    requires Undisturbed(s) && !MakingImage(s.w.pc) && ScriptOpensInputs(c)
    ensures Undisturbed(StemcellStep(c, s, false, cut))
  {
    if s.w.pc.Archive? {
      UndisturbedArchive(s, s.w.pc.todo, cut);
    }
  }

  lemma {:induction false} UndisturbedTool(s: State, move: ToolMove)
    requires Undisturbed(s)
    ensures Undisturbed(ToolMoveStep(s, move))
  {
  }

  lemma {:induction false} UndisturbedStep(c: Config, s: State, e: Event)
    requires Undisturbed(s) && IsSmooth(e) && ScriptOpensInputs(c)
    ensures Undisturbed(Step(c, s, e))
  {
    match e
    case Work(_, cut) =>
      if MakingImage(s.w.pc) { UndisturbedImage(c, s, cut); } else { UndisturbedStemcell(c, s, cut); }
    case ToolStep(move) => UndisturbedTool(s, move);
    case _ =>
  }

  lemma {:induction false} UndisturbedRun(c: Config, s: State, events: seq<Event>)
    requires Undisturbed(s) && AllOf(events, IsSmooth) && ScriptOpensInputs(c)
    ensures Undisturbed(Run(c, s, events))
    decreases |events|
  {
    if events != [] {
      UndisturbedStep(c, s, events[0]);
      UndisturbedRun(c, Step(c, s, events[0]), events[1..]);
    }
  }

  // ----- going on

  predicate Waits(s: State) {
    s.w.pc.AwaitTool? && s.ovf.tool.Running?
  }

  lemma {:induction false} ImageMoves(c: Config, s: State)
    requires Undisturbed(s) && MakingImage(s.w.pc) && !Waits(s)
    ensures ImageStep(c, s, false, 0).w.pc != s.w.pc
  {
  }

  lemma {:induction false} StemcellMoves(c: Config, s: State)
    requires Undisturbed(s) && !MakingImage(s.w.pc) && !Ended(s.w.pc)
    ensures StemcellStep(c, s, false, 0).w.pc != s.w.pc
  {
  }

  lemma {:induction false} SweepMoves(s: State, name: Name)
    requires s.w.pc.CleanUp? && (s.w.pc.sweep.Unlinking? && s.w.pc.sweep.left != {} ==> name in s.w.pc.sweep.left)
    ensures WorkSweepStep(s, name, false).w.pc != s.w.pc
  {
  }

  /** Unless it has returned or awaits a running ovftool, the worker can take a further step. */
  lemma {:induction false} WorkerMoves(c: Config, s: State) returns (e: Event)
    requires Undisturbed(s) && !s.w.pc.Returned? && !Waits(s)
    ensures IsSmooth(e) && IsWorker(e) && Step(c, s, e) != s
  {
    e := Work(false, 0);
    if s.w.pc.CleanUp? {
      var name := Vmx;
      if s.w.pc.sweep.Unlinking? && s.w.pc.sweep.left != {} {
        name :| name in s.w.pc.sweep.left;
      }
      SweepMoves(s, name);
      e := WorkSweep(name, false);
    } else if MakingImage(s.w.pc) {
      ImageMoves(c, s);
    } else {
      StemcellMoves(c, s);
    }
  }

  /**
   A run without interrupts and I/O errors in which the worker cannot go on has returned, with
   success exactly if ovftool succeeded and made its output, and without the directory; or
   ovftool is still running.
   */
  lemma {:induction false} StuckMeansReturned(c: Config, events: seq<Event>)
    requires ScriptOpensInputs(c) && AllOf(events, IsSmooth)
    requires var s := Run(c, Init(), events);
             forall e :: IsWorker(e) && IsSmooth(e) ==> Step(c, s, e) == s
    ensures var s := Run(c, Init(), events);
            Waits(s) || (s.w.pc.Returned? && (s.w.pc.ok <==> Produced(s.ovf)) && !s.disk.dir)
  {
    UndisturbedRun(c, Init(), events);
    var s := Run(c, Init(), events);
    if !s.w.pc.Returned? && !Waits(s) {
      var e := WorkerMoves(c, s);
    }
    if s.w.pc.Returned? {
      forall e | e in events ensures e != Interrupt && !PackagingCleanup.SweepFails(e) {
        assert IsSmooth(e);
      }
      PackagingCleanup.TempDirIsGone(c, events);
    }
  }

  // ----- a run for every OVA

  lemma {:induction false} WorkerLeavesTool(c: Config, s: State, e: Event)
    requires IsWorker(e) && IsSmooth(e) && s.ovf.tool.Exited? && !s.w.pc.StartTool?
    ensures Step(c, s, e).ovf == s.ovf
  {
  }

  /** Once the OVA is read, the worker can go on until it returns. */
  lemma {:induction false} CanReturn(c: Config, s: State) returns (t: State)
    requires Inv(c, s) && Undisturbed(s) && ScriptOpensInputs(c) && !NotYetRead(s.w.pc)
    ensures Reaches(c, IsSmooth, s, t) && t.w.pc.Returned? && t.w.ova == s.w.ova && t.ovf == s.ovf
    decreases RankFor(c, s.w.pc, s.w.ova)
  {
    NoStep(c, IsSmooth, s);
    t := s;
    if !s.w.pc.Returned? {
      var e := WorkerMoves(c, s);
      var u := ThenStep(c, IsSmooth, s, s, e);
      StepKeepsInv(c, s, e);
      UndisturbedStep(c, s, e);
      RunCons(c, s, e, []);
      RunRank(c, s, [e] + []);
      StepRank(c, s, e, s.w.ova);
      WorkerLeavesTool(c, s, e);
      t := CanReturn(c, u);
      ReachesOn(c, IsSmooth, s, u, t);
    }
  }

  /** From the start to an ovftool that has written the given bytes. */
  lemma {:induction false} ToolWrites(c: Config, ova: Bytes) returns (t: State)
    ensures Reaches(c, IsSmooth, Init(), t) && t.w.pc == OpenOva && Produced(t.ovf)
    ensures Ova in t.disk.names && Content(t.disk, Some(t.disk.names[Ova])) == ova && t.alive
  {
    t := ToolStarts(c, IsSmooth);
    t := ThenStep(c, IsSmooth, Init(), t, ToolStep(Produce));
    assert t.disk == Disk(true, map[Vmx := 0, Ova := 1], None, [[], []]) && t.ovf == Ovftool(Running, Some(1));
    t := ThenStep(c, IsSmooth, Init(), t, ToolStep(Emit(ova)));
    assert t.disk.files == [[], ova] by { assert [] + ova == ova; }
    t := ThenStep(c, IsSmooth, Init(), t, ToolStep(Finish(true)));
    t := ThenStep(c, IsSmooth, Init(), t, Work(false, 0));
  }

  lemma {:induction false} TarScriptOpens(c: Codecs, inputs: seq<TarInput>)
    ensures OpensInputs(TarScript(c, inputs))
  {
    if inputs != [] {
      var before, x := inputs[..|inputs| - 1], inputs[|inputs| - 1];
      TarScriptOpens(c, before);
    }
  }

  /** The worker has read the OVA. */
  lemma {:induction false} OvaIsRead(c: Config, ova: Bytes) returns (s: State)
    ensures Reaches(c, IsSmooth, Init(), s)
    ensures !NotYetRead(s.w.pc) && s.w.ova == ova && Produced(s.ovf)
  {
    s := ToolWrites(c, ova);
    s := ThenStep(c, IsSmooth, Init(), s, Work(false, 0));
  }

  lemma {:induction false} RunForOva(c: Config, ova: Bytes) returns (events: seq<Event>)
    requires ScriptOpensInputs(c)
    ensures AllOf(events, IsSmooth)
    ensures var t := Run(c, Init(), events); t.w.pc == Returned(true) && !t.disk.dir && t.w.ova == ova
  {
    var s := OvaIsRead(c, ova);
    var before :| AllOf(before, IsSmooth) && Run(c, Init(), before) == s;
    InitInv(c);
    RunKeepsInv(c, Init(), before);
    UndisturbedRun(c, Init(), before);
    var t := CanReturn(c, s);
    ReachesOn(c, IsSmooth, Init(), s, t);
    events :| AllOf(events, IsSmooth) && Run(c, Init(), events) == t;
    UndisturbedRun(c, Init(), events);
    ReturnedIsStuck(c, t);
    StuckMeansReturned(c, events);
  }

  lemma {:induction false} ReturnedIsStuck(c: Config, s: State)
    requires s.w.pc.Returned?
    ensures forall e :: IsWorker(e) ==> Step(c, s, e) == s
  {
  }

  /** For every OVA a run without disturbances returns success and leaves the complete stemcell and no directory. */
  lemma {:induction false} UndisturbedRunSucceeds(codecs: Codecs, sha1: Bytes -> string,
                                                  manifestText: string -> Bytes, ova: Bytes)
    ensures exists events ::
              && AllOf(events, IsSmooth)
              && var t := Run(Packager(codecs, sha1, manifestText), Init(), events);
                 var image := Content(t.disk, t.w.image);
                 t.w.pc == Returned(true) && !t.disk.dir && t.disk.final.Some? && IsGzipOf(codecs.gzip, ova, image)
                 && IsArchiveOf(codecs.tar, codecs.gzip,
                                [Stored("image", image), Stored("stemcell.MF", manifestText(sha1(image)))],
                                Content(t.disk, t.disk.final))
  {
    var c := Packager(codecs, sha1, manifestText);
    forall image, manifest ensures OpensInputs(c.script(image, manifest)) {
      TarScriptOpens(codecs, ArchiveInputs(StemcellFiles(image, manifest)));
    }
    var events := RunForOva(c, ova);
    FinalStemcellIsComplete(codecs, sha1, manifestText, events);
  }
}
