/** Packaging runs come to an end, and those that nothing disturbs succeed. */
module PackagingProgress {
  import opened Basics
  import opened StemcellScript
  import opened Packaging

  // ----- every run of the worker is bounded

  predicate IsWorker(e: Event) {
    e.Work? || e.WorkSweep?
  }

  /** How many events of the run were steps of the packaging goroutine that changed something. */
  function WorkerSteps(c: Config, s: State, events: seq<Event>): nat
    decreases |events|
  {
    if events == [] then 0
    else
      var s' := Step(c, s, events[0]);
      (if IsWorker(events[0]) && s' != s then 1 else 0) + WorkerSteps(c, s', events[1..])
  }

  function SweepRank(sweep: Sweep): nat {
    match sweep
    case Stat => 8
    case Listing => 7
    case Unlinking(left) => 1 + |left|
  }

  /** Steps left at most, if the image takes so many writes and the archive so many actions. */
  function Rank(pc: Pc, writes: nat, actions: nat): nat {
    match pc
    case MakeDir => 23 + 2 * actions + writes
    case RecordDir => 22 + 2 * actions + writes
    case CreateVmx => 21 + 2 * actions + writes
    case StartTool => 20 + 2 * actions + writes
    case AwaitTool => 19 + 2 * actions + writes
    case OpenOva => 18 + 2 * actions + writes
    case CreateImage => 17 + 2 * actions + writes
    case WriteImage(chunks) => 16 + 2 * actions + |chunks|
    case CheckDir => 15 + 2 * actions
    case CreateManifest => 14 + 2 * actions
    case WriteManifest => 13 + 2 * actions
    case RecheckDir => 12 + 2 * actions
    case CreateStemcell => 11 + 2 * actions
    case Archive(todo, passed) => if todo != [] && passed then 9 + 2 * |todo| else 10 + 2 * |todo|
    case Discard(_) => 9
    case Rename => 9
    case CleanUp(sweep, _) => SweepRank(sweep)
    case Returned(_) => 0
  }

  /** The bound for an OVA. */
  function RankFor(c: Config, pc: Pc, ova: Bytes): nat {
    var t := TargetsFor(c, ova);
    Rank(pc, |c.imageWrites(ova)|, |c.script(t.image, t.manifest)|)
  }

  lemma {:induction false} SubsetSize(a: set<Name>, b: set<Name>)
    requires a <= b
    ensures |a| <= |b|
    decreases b
  {
    if a != {} {
      var n :| n in a;
      SubsetSize(a - {n}, b - {n});
    }
  }

  lemma {:induction false} FiveNames(a: set<Name>)
    ensures |a| <= 5
  {
    forall n | n in a ensures n in {Vmx, Ova, Image, Manifest, Stemcell} {
      assert n.Vmx? || n.Ova? || n.Image? || n.Manifest? || n.Stemcell?;
    }
    SubsetSize(a, {Vmx, Ova, Image, Manifest, Stemcell});
  }

  lemma {:induction false} ImageRank(c: Config, s: State, fails: bool, cut: nat, actions: nat, ova: Bytes)
    requires MakingImage(s.w.pc) && (s.w.pc.CreateImage? ==> s.w.ova == ova)
    ensures var s' := ImageStep(c, s, fails, cut);
            s' == s || Rank(s'.w.pc, |c.imageWrites(ova)|, actions) < Rank(s.w.pc, |c.imageWrites(ova)|, actions)
  {
  }

  /** From the check of the directory to the creation of the stemcell. */
  predicate BeforeArchive(pc: Pc) {
    pc.CheckDir? || pc.CreateManifest? || pc.WriteManifest? || pc.RecheckDir? || pc.CreateStemcell?
  }

  lemma {:induction false} EndRank(c: Config, s: State, fails: bool, cut: nat, writes: nat, actions: nat)
    requires !MakingImage(s.w.pc) && !BeforeArchive(s.w.pc) && !s.w.pc.Archive?
    ensures var s' := StemcellStep(c, s, fails, cut);
            s' == s || Rank(s'.w.pc, writes, actions) < Rank(s.w.pc, writes, actions)
  {
  }

  lemma {:induction false} BeforeRank(c: Config, s: State, fails: bool, cut: nat, writes: nat, actions: nat)
    requires BeforeArchive(s.w.pc)
    requires s.w.pc.CreateStemcell? ==>
               |c.script(Content(s.disk, s.w.image), Content(s.disk, s.w.manifest))| == actions
    ensures Rank(StemcellStep(c, s, fails, cut).w.pc, writes, actions) < Rank(s.w.pc, writes, actions)
  {
  }

  lemma {:induction false} StemcellRank(c: Config, s: State, fails: bool, cut: nat, writes: nat, t: Targets)
    requires InvFor(s, t) && !MakingImage(s.w.pc)
    ensures var s', actions := StemcellStep(c, s, fails, cut), |c.script(t.image, t.manifest)|;
            s' == s || Rank(s'.w.pc, writes, actions) < Rank(s.w.pc, writes, actions)
  {
    var actions := |c.script(t.image, t.manifest)|;
    if s.w.pc.Archive? {
      ArchiveRank(s, s.w.pc.todo, fails, cut, writes, actions);
    } else if BeforeArchive(s.w.pc) {
      BeforeRank(c, s, fails, cut, writes, actions);
    } else {
      EndRank(c, s, fails, cut, writes, actions);
    }
  }

  lemma {:induction false} ArchiveRank(s: State, todo: seq<Action>, fails: bool, cut: nat, writes: nat, actions: nat)
    requires s.w.pc.Archive? && s.w.pc.todo == todo
    ensures Rank(ArchiveStep(s, todo, s.w.pc.passed, fails, cut).w.pc, writes, actions)
          < Rank(s.w.pc, writes, actions)
  {
  }

  lemma {:induction false} SweepEnds(d: Disk, recorded: bool, sweep: Sweep, name: Name, fails: bool)
    ensures var (d', sweep') := SweepStep(d, recorded, sweep, name, fails);
            sweep'.None? || SweepRank(sweep'.value) < SweepRank(sweep) || (d' == d && sweep'.value == sweep)
  {
    FiveNames(d.names.Keys);
  }

  lemma {:induction false} CleanUpRank(s: State, name: Name, fails: bool, writes: nat, actions: nat)
    ensures var s' := WorkSweepStep(s, name, fails);
            s' == s || Rank(s'.w.pc, writes, actions) < Rank(s.w.pc, writes, actions)
  {
    if s.w.pc.CleanUp? {
      SweepEnds(s.disk, s.recorded, s.w.pc.sweep, name, fails);
    }
  }

  /** The OVA is read at most once, so the last one of a run is the one that counts. */
  predicate NotYetRead(pc: Pc) {
    pc.MakeDir? || pc.RecordDir? || pc.CreateVmx? || pc.StartTool? || pc.AwaitTool? || pc.OpenOva?
  }

  lemma {:induction false} ImageReads(c: Config, s: State, fails: bool, cut: nat)
    requires MakingImage(s.w.pc) && !NotYetRead(s.w.pc)
    ensures var s' := ImageStep(c, s, fails, cut); s'.w.ova == s.w.ova && !NotYetRead(s'.w.pc)
  {
  }

  lemma {:induction false} ArchiveReads(s: State, todo: seq<Action>, fails: bool, cut: nat)
    requires s.w.pc.Archive?
    ensures var s' := ArchiveStep(s, todo, s.w.pc.passed, fails, cut);
            s'.w.ova == s.w.ova && !NotYetRead(s'.w.pc)
  {
  }

  lemma {:induction false} OtherReads(c: Config, s: State, fails: bool, cut: nat)
    requires !MakingImage(s.w.pc) && !s.w.pc.Archive?
    ensures var s' := StemcellStep(c, s, fails, cut); s'.w.ova == s.w.ova && !NotYetRead(s'.w.pc)
  {
  }

  lemma {:induction false} StemcellReads(c: Config, s: State, fails: bool, cut: nat)
    requires !MakingImage(s.w.pc)
    ensures var s' := StemcellStep(c, s, fails, cut); s'.w.ova == s.w.ova && !NotYetRead(s'.w.pc)
  {
    if s.w.pc.Archive? {
      ArchiveReads(s, s.w.pc.todo, fails, cut);
    } else {
      OtherReads(c, s, fails, cut);
    }
  }

  lemma {:induction false} WorkRank(c: Config, s: State, fails: bool, cut: nat, ova: Bytes)
    requires Inv(c, s)
    requires var s' := WorkStep(c, s, fails, cut); NotYetRead(s'.w.pc) || ova == s'.w.ova
    ensures var s' := WorkStep(c, s, fails, cut);
            && (NotYetRead(s.w.pc) || (s'.w.ova == s.w.ova && !NotYetRead(s'.w.pc)))
            && (s' == s || RankFor(c, s'.w.pc, ova) < RankFor(c, s.w.pc, ova))
  {
    var t := TargetsFor(c, ova);
    if MakingImage(s.w.pc) {
      if !NotYetRead(s.w.pc) {
        ImageReads(c, s, fails, cut);
      }
      ImageRank(c, s, fails, cut, |c.script(t.image, t.manifest)|, ova);
    } else {
      StemcellReads(c, s, fails, cut);
      StemcellRank(c, s, fails, cut, |c.imageWrites(ova)|, t);
    }
  }

  lemma {:induction false} StepRank(c: Config, s: State, e: Event, ova: Bytes)
    requires Inv(c, s)
    requires var s' := Step(c, s, e); NotYetRead(s'.w.pc) || ova == s'.w.ova
    ensures var s' := Step(c, s, e);
            && (NotYetRead(s.w.pc) || (s'.w.ova == s.w.ova && !NotYetRead(s'.w.pc)))
            && RankFor(c, s'.w.pc, ova) + (if IsWorker(e) && s' != s then 1 else 0) <= RankFor(c, s.w.pc, ova)
  {
    var t := TargetsFor(c, ova);
    match e
    case Work(fails, cut) => if s.alive { WorkRank(c, s, fails, cut, ova); }
    case WorkSweep(name, fails) =>
      CleanUpRank(s, name, fails, |c.imageWrites(ova)|, |c.script(t.image, t.manifest)|);
    case _ =>
  }

  lemma {:induction false} RunRank(c: Config, s: State, events: seq<Event>)
    requires Inv(c, s)
    ensures var s' := Run(c, s, events);
            && (NotYetRead(s.w.pc) || (s'.w.ova == s.w.ova && !NotYetRead(s'.w.pc)))
            && WorkerSteps(c, s, events) + RankFor(c, s'.w.pc, s'.w.ova) <= RankFor(c, s.w.pc, s'.w.ova)
    decreases |events|
  {
    if events != [] {
      var s1, rest := Step(c, s, events[0]), events[1..];
      StepKeepsInv(c, s, events[0]);
      RunRank(c, s1, rest);
      StepRank(c, s, events[0], Run(c, s1, rest).w.ova);
    }
  }

  /** Whatever is interleaved, Package takes a number of steps bounded by the writes that its OVA calls for. */
  lemma {:induction false} WorkerEnds(c: Config, events: seq<Event>)
    ensures WorkerSteps(c, Init(), events) <= RankFor(c, MakeDir, Run(c, Init(), events).w.ova)
  {
    InitInv(c);
    RunRank(c, Init(), events);
  }
}
