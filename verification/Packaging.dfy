/**
 stembuild/package_stemcell/packager/vmdk_packager.go: the packaging goroutine, the
 interrupt handler and the ovftool process, interleaved step by step over one file system.
 */
module Packaging {
  import opened Basics
  import opened Streams
  import opened StemcellScript

  /**
   What a run does not change: the writes that compress an OVA, the manifest text for the
   bytes that were hashed, and the actions that archive image and manifest.
   */
  datatype Config = Config(imageWrites: Bytes -> seq<Bytes>, manifestFor: Bytes -> Bytes,
                           script: (Bytes, Bytes) -> seq<Action>)

  /**
   How far a Cleanup has come: os.RemoveAll lists the directory, unlinks what it listed, and
   removes the directory.
   */
  datatype Sweep = Stat | Listing | Unlinking(left: set<Name>)

  datatype Pc =
    | MakeDir | RecordDir | CreateVmx | StartTool | AwaitTool | OpenOva
    | CreateImage | WriteImage(chunks: seq<Bytes>)
    | CheckDir | CreateManifest | WriteManifest | RecheckDir
    | CreateStemcell
    | Archive(todo: seq<Action>, passed: bool)  // passed: the next action's stop check is behind us
    | Discard(name: Name) | Rename
    | CleanUp(sweep: Sweep, ok: bool) | Returned(ok: bool)

  datatype Handler = NotListening | Listening | Closing | Cleaning(sweep: Sweep, exiting: bool)

  /** Killed: sent SIGKILL, which nobody waits for; gone: it has ended since. */
  datatype Tool = NotStarted | Running | Exited(ok: bool) | Killed(gone: bool)

  /** The temporary directory and its links, the final path, and file contents by number. */
  datatype Disk = Disk(dir: bool, names: map<Name, nat>, final: Option<nat>, files: seq<Bytes>)

  /**
   The packaging goroutine: next step, OVA bytes it has read, what the hash has seen, and the
   files it has created.
   */
  datatype Worker = Worker(pc: Pc, ova: Bytes, hashed: Bytes,
                           image: Option<nat>, manifest: Option<nat>, stemcell: Option<nat>)

  /** The Stop channel, how often it was closed, and the interrupt handler. */
  datatype Stopper = Stopper(stopped: bool, closes: nat, handler: Handler, stopping: bool, signals: nat)

  /** The ovftool process and the file it writes. */
  datatype Ovftool = Ovftool(tool: Tool, file: Option<nat>)

  /** recorded: the packager's tmpdir field is set. */
  datatype State = State(disk: Disk, recorded: bool, w: Worker, stop: Stopper, ovf: Ovftool, alive: bool)

  /** Nothing exists yet, in particular not the final path. */
  function Init(): State {
    State(Disk(false, map[], None, []), false, Worker(MakeDir, [], [], None, None, None),
          Stopper(false, 0, NotListening, false, 0), Ovftool(NotStarted, None), true)
  }

  datatype ToolMove = Produce | Emit(p: Bytes) | Finish(ok: bool)

  /**
   fails picks an I/O error, or the stop branch of the select that awaits ovftool; cut says
   how many bytes of a failing write still land; name is what a Cleanup unlinks next.
   */
  datatype Event =
    | Work(fails: bool, cut: nat)
    | WorkSweep(name: Name, fails: bool)
    | Interrupt
    | Handle
    | HandlerSweep(name: Name, fails: bool)
    | ToolStep(toolMove: ToolMove)

  predicate Lives(tool: Tool) {
    tool.Running? || tool == Killed(false)
  }

  function Goto(s: State, pc: Pc): State {
    s.(w := s.w.(pc := pc))
  }

  function Fail(s: State): State {
    Goto(s, CleanUp(Stat, false))
  }

  predicate CanCreate(d: Disk, name: Name) {
    d.dir && name !in d.names
  }

  /** Creates an empty file in the temporary directory (O_CREATE|O_EXCL). */
  function Create(d: Disk, name: Name): Disk {
    d.(names := d.names[name := |d.files|], files := d.files + [[]])
  }

  function Remove(d: Disk, name: Name): Disk {
    d.(names := d.names - {name})
  }

  function Append(d: Disk, file: Option<nat>, p: Bytes): Disk {
    if file.Some? && file.value < |d.files| then d.(files := d.files[file.value := d.files[file.value] + p]) else d
  }

  function Content(d: Disk, file: Option<nat>): Bytes {
    if file.Some? && file.value < |d.files| then d.files[file.value] else []
  }

  /** CreateImage. */
  function ImageStep(c: Config, s: State, fails: bool, cut: nat): State {
    var d, w := s.disk, s.w;
    match w.pc
    case MakeDir => if fails then Fail(s) else Goto(s.(disk := d.(dir := true)), RecordDir)
    case RecordDir => Goto(s.(recorded := true), CreateVmx)
    case CreateVmx =>
      if fails || !CanCreate(d, Vmx) then Fail(s) else Goto(s.(disk := Create(d, Vmx)), StartTool)
    case StartTool => if fails then Fail(s) else Goto(s.(ovf := s.ovf.(tool := Running)), AwaitTool)
    case AwaitTool =>
      var tool := s.ovf.tool;
      if fails then
        if !s.stop.stopped then s
        else if !tool.Running? then Fail(s)
        else Fail(s.(ovf := s.ovf.(tool := Killed(false))))
      else if !tool.Exited? then s
      else if tool.ok then Goto(s, OpenOva) else Fail(s)
    case OpenOva =>
      if fails || Ova !in d.names then Fail(s)
      else s.(w := w.(ova := Content(d, Some(d.names[Ova])), pc := CreateImage))
    case CreateImage =>
      if fails || !CanCreate(d, Image) then Fail(s)
      else s.(disk := Create(d, Image), w := w.(image := Some(|d.files|), pc := WriteImage(c.imageWrites(w.ova))))
    case WriteImage(chunks) =>
      if chunks == [] then Goto(s, CheckDir)
      else if fails then Fail(s.(disk := Append(d, w.image, Cut(chunks[0], cut))))
      else
        s.(disk := Append(d, w.image, chunks[0]),
           w := w.(hashed := w.hashed + chunks[0], pc := WriteImage(chunks[1..])))
    case _ => s
  }

  /** ConvertVMDK after CreateImage: the manifest, CreateStemcell, the rename. */
  function StemcellStep(c: Config, s: State, fails: bool, cut: nat): State {
    var d, w := s.disk, s.w;
    match w.pc
    case CheckDir => if fails || !d.dir then Fail(s) else Goto(s, CreateManifest)
    case CreateManifest =>
      if fails || !CanCreate(d, Manifest) then Fail(s)
      else s.(disk := Create(d, Manifest), w := w.(manifest := Some(|d.files|), pc := WriteManifest))
    case WriteManifest =>
      var text := c.manifestFor(w.hashed);
      if fails then Goto(s.(disk := Append(d, w.manifest, Cut(text, cut))), Discard(Manifest))
      else Goto(s.(disk := Append(d, w.manifest, text)), RecheckDir)
    case RecheckDir => if fails || !d.dir then Fail(s) else Goto(s, CreateStemcell)
    case CreateStemcell =>
      if fails || !CanCreate(d, Stemcell) then Fail(s)
      else s.(disk := Create(d, Stemcell),
              w := w.(stemcell := Some(|d.files|),
                      pc := Archive(c.script(Content(d, w.image), Content(d, w.manifest)), false)))
    case Archive(todo, passed) => ArchiveStep(s, todo, passed, fails, cut)
    case Discard(name) => Fail(if fails then s else s.(disk := Remove(d, name)))
    case Rename =>
      if fails || Stemcell !in d.names then Fail(s)
      else Goto(s.(disk := Remove(d, Stemcell).(final := Some(d.names[Stemcell]))), CleanUp(Stat, true))
    case _ => s
  }

  /** Reads and writes go through CancelReader and CancelWriter: a stop check, then the operation. */
  function ArchiveStep(s: State, todo: seq<Action>, passed: bool, fails: bool, cut: nat): State {
    if todo == [] then Goto(s, Rename)
    else
      match todo[0]
      case Open(name) =>
        if fails || name !in s.disk.names then Goto(s, Discard(Stemcell)) else Goto(s, Archive(todo[1..], false))
      case Read =>
        if !passed then Goto(s, if s.stop.stopped then Discard(Stemcell) else Archive(todo, true))
        else Goto(s, if fails then Discard(Stemcell) else Archive(todo[1..], false))
      case Push(p) =>
        if !passed then Goto(s, if s.stop.stopped then Discard(Stemcell) else Archive(todo, true))
        else if fails then Goto(s.(disk := Append(s.disk, s.w.stemcell, Cut(p, cut))), Discard(Stemcell))
        else Goto(s.(disk := Append(s.disk, s.w.stemcell, p)), Archive(todo[1..], false))
  }

  predicate MakingImage(pc: Pc) {
    pc.MakeDir? || pc.RecordDir? || pc.CreateVmx? || pc.StartTool? || pc.AwaitTool? || pc.OpenOva?
    || pc.CreateImage? || pc.WriteImage?
  }

  function WorkStep(c: Config, s: State, fails: bool, cut: nat): State {
    if MakingImage(s.w.pc) then ImageStep(c, s, fails, cut) else StemcellStep(c, s, fails, cut)
  }

  /**
   One step of a Cleanup.  None: it is done, with or without success; its errors are ignored.
   A file that cannot be unlinked is passed over, and the directory goes only if it is empty.
   */
  function SweepStep(d: Disk, recorded: bool, sweep: Sweep, name: Name, fails: bool): (Disk, Option<Sweep>) {
    match sweep
    case Stat => (d, if recorded && d.dir && !fails then Some(Listing) else None)
    case Listing => (d, if d.dir && !fails then Some(Unlinking(d.names.Keys)) else None)
    case Unlinking(left) =>
      if left == {} then (if fails || d.names != map[] then d else d.(dir := false), None)
      else if name !in left then (d, Some(sweep))
      else (if fails then d else Remove(d, name), Some(Unlinking(left - {name})))
  }

  /** Package's own Cleanup. */
  function WorkSweepStep(s: State, name: Name, fails: bool): State {
    if !s.w.pc.CleanUp? then s
    else
      var (d, sweep) := SweepStep(s.disk, s.recorded, s.w.pc.sweep, name, fails);
      Goto(s.(disk := d), if sweep.None? then Returned(s.w.pc.ok) else CleanUp(sweep.value, s.w.pc.ok))
  }

  /** Before signal.Notify an interrupt ends the process; afterwards it is queued. */
  function InterruptStep(s: State): State {
    if s.stop.handler.NotListening? then s.(alive := false) else s.(stop := s.stop.(signals := s.stop.signals + 1))
  }

  /** catchInterruptSignal: the first signal closes Stop and cleans up, the second cleans up and exits. */
  function HandleStep(t: Stopper): Stopper {
    match t.handler
    case NotListening => t.(handler := Listening)
    case Listening =>
      if t.signals == 0 then t
      else if t.stopping then t.(signals := t.signals - 1, handler := Cleaning(Stat, true))
      else t.(signals := t.signals - 1, stopping := true, handler := Closing)
    case Closing => t.(stopped := true, closes := t.closes + 1, handler := Cleaning(Stat, false))
    case Cleaning(_, _) => t
  }

  function HandlerSweepStep(s: State, name: Name, fails: bool): State {
    var h := s.stop.handler;
    if !h.Cleaning? then s
    else
      var (d, sweep) := SweepStep(s.disk, s.recorded, h.sweep, name, fails);
      if sweep.Some? then s.(disk := d, stop := s.stop.(handler := Cleaning(sweep.value, h.exiting)))
      else if h.exiting then s.(disk := d, alive := false)
      else s.(disk := d, stop := s.stop.(handler := Listening))
  }

  /** ovftool creates its output while the directory is there, writes to it, and ends. */
  function ToolMoveStep(s: State, move: ToolMove): State {
    if !Lives(s.ovf.tool) then s
    else
      match move
      case Produce =>
        if CanCreate(s.disk, Ova)
        then s.(disk := Create(s.disk, Ova), ovf := s.ovf.(file := Some(|s.disk.files|)))
        else s
      case Emit(p) => s.(disk := Append(s.disk, s.ovf.file, p))
      case Finish(ok) => s.(ovf := s.ovf.(tool := if s.ovf.tool.Running? then Exited(ok) else Killed(true)))
  }

  function Step(c: Config, s: State, e: Event): State {
    if e.ToolStep? then ToolMoveStep(s, e.toolMove)
    else if !s.alive then s
    else
      match e
      case Work(fails, cut) => WorkStep(c, s, fails, cut)
      case WorkSweep(name, fails) => WorkSweepStep(s, name, fails)
      case Interrupt => InterruptStep(s)
      case Handle => s.(stop := HandleStep(s.stop))
      case HandlerSweep(name, fails) => HandlerSweepStep(s, name, fails)
      case ToolStep(_) => s
  }

  /** Events that are not possible in a state change nothing, so every list of events is a run. */
  function Run(c: Config, s: State, events: seq<Event>): State
    decreases |events|
  {
    if events == [] then s else Run(c, Step(c, s, events[0]), events[1..])
  }

  // ----- what every reachable state satisfies

  /** The complete files of an undisturbed run. */
  datatype Targets = Targets(image: Bytes, manifest: Bytes, stemcell: Bytes)

  function TargetsFor(c: Config, ova: Bytes): Targets {
    var image := Flatten(c.imageWrites(ova));
    var manifest := c.manifestFor(image);
    Targets(image, manifest, Pushed(c.script(image, manifest)))
  }

  predicate IsFile(d: Disk, file: Option<nat>) {
    file.Some? && file.value < |d.files|
  }

  /** Links point to files, and to the files the packager created under those names. */
  predicate Layout(d: Disk, w: Worker, tool: Option<nat>) {
    && (forall n :: n in d.names ==> d.names[n] < |d.files|)
    && (!d.dir ==> d.names == map[])
    && (Image in d.names ==> w.image == Some(d.names[Image]))
    && (Manifest in d.names ==> w.manifest == Some(d.names[Manifest]))
    && (Stemcell in d.names ==> w.stemcell == Some(d.names[Stemcell]))
    && (w.image.Some? ==> IsFile(d, w.image))
    && (w.manifest.Some? ==> IsFile(d, w.manifest) && w.image.Some? && w.image.value < w.manifest.value)
    && (w.stemcell.Some? ==> IsFile(d, w.stemcell) && w.manifest.Some? && w.manifest.value < w.stemcell.value)
    && (tool.Some? ==> IsFile(d, tool) && tool != w.image && tool != w.manifest && tool != w.stemcell)
    && (d.final.Some? ==> d.final == w.stemcell && Stemcell !in d.names)
  }

  /**
   The directory is made once, recorded before anything is put into it, and not removed before
   it is recorded.
   */
  predicate Directory(s: State) {
    && (s.w.pc.MakeDir? ==> !s.disk.dir && !s.recorded)
    && (s.w.pc.RecordDir? ==> s.disk.dir && !s.recorded)
    && (s.stop.handler.Cleaning? && !s.stop.handler.sweep.Stat? ==> s.recorded)
    && (s.disk.dir && !s.w.pc.RecordDir? ==> s.recorded)
  }

  /** Stop is closed by the first interrupt and never again. */
  predicate Stops(t: Stopper) {
    && t.closes == (if t.stopped then 1 else 0)
    && (t.stopped ==> t.stopping)
    && (t.handler.NotListening? ==> !t.stopping)
    && (t.handler.Closing? ==> t.stopping && !t.stopped)
    && (t.handler.Cleaning? ==> t.stopped)
    && (t.stopping && !t.handler.Closing? ==> t.stopped)
  }

  /** ovftool outlives the wait for it only as a killed process. */
  predicate ToolState(pc: Pc, tool: Tool) {
    && (pc.MakeDir? || pc.RecordDir? || pc.CreateVmx? || pc.StartTool? ==> tool.NotStarted?)
    && (tool.Running? ==> pc.AwaitTool?)
    && (tool.Killed? ==> (pc.CleanUp? || pc.Returned?) && !pc.ok)
  }

  predicate Succeeded(pc: Pc) {
    (pc.CleanUp? || pc.Returned?) && pc.ok
  }

  /** Which files exist at which step, and how much of each is written. */
  predicate Contents(d: Disk, w: Worker, t: Targets) {
    && (w.pc.WriteImage? ==> w.image.Some? && w.manifest.None? && Content(d, w.image) + Flatten(w.pc.chunks) == t.image)
    && (w.pc.CheckDir? || w.pc.CreateManifest? ==> w.image.Some? && w.manifest.None? && Content(d, w.image) == t.image)
    && (w.pc.WriteManifest? ==> w.manifest.Some? && w.stemcell.None? && Content(d, w.manifest) == [])
    && (w.pc.RecheckDir? || w.pc.CreateStemcell? ==>
          w.manifest.Some? && w.stemcell.None? && Content(d, w.manifest) == t.manifest)
    && (w.pc.Archive? ==>
          && w.stemcell.Some? && (w.pc.passed ==> w.pc.todo != [])
          && Content(d, w.stemcell) + Pushed(w.pc.todo) == t.stemcell)
    && (w.pc.Rename? || Succeeded(w.pc) ==> w.stemcell.Some? && Content(d, w.stemcell) == t.stemcell)
    && (MakingImage(w.pc) && !w.pc.WriteImage? ==> w.image.None? && w.manifest.None?)
    && (w.manifest.Some? ==> w.image.Some? && Content(d, w.image) == t.image)
    && (w.stemcell.Some? ==>
          w.manifest.Some? && Content(d, w.manifest) == t.manifest && Content(d, w.stemcell) <= t.stemcell)
    && (d.final.Some? <==> Succeeded(w.pc))
  }

  /** Until the manifest is written the hash has seen exactly what is in the image file. */
  predicate Hashes(d: Disk, w: Worker) {
    && (MakingImage(w.pc) && !w.pc.WriteImage? ==> w.hashed == [])
    && (w.pc.WriteImage? || w.pc.CheckDir? || w.pc.CreateManifest? || w.pc.WriteManifest? ==>
          w.hashed == Content(d, w.image))
  }

  /** The invariant, for given complete files. */
  predicate InvFor(s: State, t: Targets) {
    && Layout(s.disk, s.w, s.ovf.file)
    && Directory(s)
    && Stops(s.stop)
    && ToolState(s.w.pc, s.ovf.tool)
    && Contents(s.disk, s.w, t)
    && Hashes(s.disk, s.w)
  }

  predicate Inv(c: Config, s: State) {
    InvFor(s, TargetsFor(c, s.w.ova))
  }

  lemma {:induction false} InitInv(c: Config)
    ensures Inv(c, Init())
  {
  }

  /** Leaving for an error path, whichever it is, keeps the invariant. */
  lemma {:induction false} FailKeepsInv(c: Config, s: State, t: Targets)
    requires InvFor(s, t) && !Succeeded(s.w.pc) && !s.w.pc.RecordDir? && !s.ovf.tool.Running?
    ensures InvFor(Fail(s), t)
    ensures s.w.pc.Archive? ==> InvFor(Goto(s, Discard(Stemcell)), t)
  {
  }

  lemma {:induction false} SetupKeepsInv(c: Config, s: State, fails: bool, cut: nat, t: Targets)
    requires InvFor(s, t) && (s.w.pc.MakeDir? || s.w.pc.RecordDir? || s.w.pc.CreateVmx? || s.w.pc.StartTool?)
    ensures InvFor(ImageStep(c, s, fails, cut), t)
  {
  }

  lemma {:induction false} AwaitKeepsInv(c: Config, s: State, fails: bool, cut: nat, t: Targets)
    requires InvFor(s, t) && s.w.pc.AwaitTool?
    ensures InvFor(ImageStep(c, s, fails, cut), t)
  {
  }

  lemma {:induction false} OpenOvaKeepsInv(c: Config, s: State, fails: bool, cut: nat, t: Targets)
    requires InvFor(s, t) && s.w.pc.OpenOva?
    ensures InvFor(ImageStep(c, s, fails, cut), t)
  {
  }

  lemma {:induction false} CreateImageKeepsInv(c: Config, s: State, fails: bool, cut: nat, t: Targets)
    requires InvFor(s, t) && s.w.pc.CreateImage? && Flatten(c.imageWrites(s.w.ova)) == t.image
    ensures InvFor(ImageStep(c, s, fails, cut), t)
  {
  }

  lemma {:induction false} ChunkKeepsInv(c: Config, s: State, p: Bytes, rest: seq<Bytes>, t: Targets)
    requires InvFor(s, t) && s.w.pc == WriteImage([p] + rest)
    ensures InvFor(s.(disk := Append(s.disk, s.w.image, p),
                      w := s.w.(hashed := s.w.hashed + p, pc := WriteImage(rest))), t)
  {
    var sofar := Content(s.disk, s.w.image);
    assert ([p] + rest)[1..] == rest;
    assert sofar + (p + Flatten(rest)) == (sofar + p) + Flatten(rest);
  }

  lemma {:induction false} CutChunkKeepsInv(c: Config, s: State, p: Bytes, t: Targets)
    requires InvFor(s, t) && s.w.pc.WriteImage?
    ensures InvFor(Fail(s.(disk := Append(s.disk, s.w.image, p))), t)
  {
  }

  lemma {:induction false} WriteImageKeepsInv(c: Config, s: State, fails: bool, cut: nat, t: Targets)
    requires InvFor(s, t) && s.w.pc.WriteImage?
    ensures InvFor(ImageStep(c, s, fails, cut), t)
  {
    var chunks := s.w.pc.chunks;
    if chunks == [] {
      assert Content(s.disk, s.w.image) + [] == Content(s.disk, s.w.image);
      assert InvFor(Goto(s, CheckDir), t);
    } else {
      assert chunks == [chunks[0]] + chunks[1..];
      ChunkKeepsInv(c, s, chunks[0], chunks[1..], t);
      CutChunkKeepsInv(c, s, Cut(chunks[0], cut), t);
    }
  }

  lemma {:induction false} CheckKeepsInv(c: Config, s: State, fails: bool, cut: nat, t: Targets)
    requires InvFor(s, t) && (s.w.pc.CheckDir? || s.w.pc.RecheckDir?)
    ensures InvFor(StemcellStep(c, s, fails, cut), t)
  {
    FailKeepsInv(c, s, t);
  }

  lemma {:induction false} CreateManifestKeepsInv(c: Config, s: State, fails: bool, cut: nat, t: Targets)
    requires InvFor(s, t) && s.w.pc.CreateManifest?
    ensures InvFor(StemcellStep(c, s, fails, cut), t)
  {
    FailKeepsInv(c, s, t);
  }

  lemma {:induction false} WriteManifestKeepsInv(c: Config, s: State, fails: bool, cut: nat, t: Targets)
    requires InvFor(s, t) && s.w.pc.WriteManifest? && c.manifestFor(t.image) == t.manifest
    ensures InvFor(StemcellStep(c, s, fails, cut), t)
  {
  }

  lemma {:induction false} CreateStemcellKeepsInv(c: Config, s: State, fails: bool, cut: nat, t: Targets)
    requires InvFor(s, t) && s.w.pc.CreateStemcell? && Pushed(c.script(t.image, t.manifest)) == t.stemcell
    ensures InvFor(StemcellStep(c, s, fails, cut), t)
  {
  }

  lemma {:induction false} CheckPasses(s: State, t: Targets)
    requires InvFor(s, t) && s.w.pc.Archive? && s.w.pc.todo != []
    ensures InvFor(Goto(s, Archive(s.w.pc.todo, true)), t)
  {
  }

  lemma {:induction false} ArchiveGoesOn(s: State, rest: seq<Action>, t: Targets)
    requires InvFor(s, t) && s.w.pc.Archive? && Pushed(s.w.pc.todo) == Pushed(rest)
    ensures InvFor(Goto(s, Archive(rest, false)), t)
  {
  }

  lemma {:induction false} PushKeepsInv(c: Config, s: State, cut: nat, t: Targets)
    requires InvFor(s, t) && s.w.pc.Archive? && s.w.pc.todo != [] && s.w.pc.todo[0].Push?
    ensures var p := s.w.pc.todo[0].p;
            && InvFor(Goto(s.(disk := Append(s.disk, s.w.stemcell, p)), Archive(s.w.pc.todo[1..], false)), t)
            && InvFor(Goto(s.(disk := Append(s.disk, s.w.stemcell, Cut(p, cut))), Discard(Stemcell)), t)
  {
    var sofar, todo := Content(s.disk, s.w.stemcell), s.w.pc.todo;
    var p := todo[0].p;
    assert sofar + (p + Pushed(todo[1..])) == (sofar + p) + Pushed(todo[1..]);
    assert Cut(p, cut) <= p;
  }

  lemma {:induction false} ArchiveKeepsInv(c: Config, s: State, fails: bool, cut: nat, t: Targets)
    requires InvFor(s, t) && s.w.pc.Archive?
    ensures InvFor(StemcellStep(c, s, fails, cut), t)
  {
    var todo := s.w.pc.todo;
    if todo == [] {
      assert InvFor(Goto(s, Rename), t);
    } else {
      FailKeepsInv(c, s, t);
      CheckPasses(s, t);
      if todo[0].Push? {
        PushKeepsInv(c, s, cut, t);
      } else {
        PushedSkip(todo);
        ArchiveGoesOn(s, todo[1..], t);
      }
    }
  }

  lemma {:induction false} RenameKeepsInv(c: Config, s: State, fails: bool, cut: nat, t: Targets)
    requires InvFor(s, t) && s.w.pc.Rename?
    ensures InvFor(StemcellStep(c, s, fails, cut), t)
  {
  }

  lemma {:induction false} DiscardKeepsInv(c: Config, s: State, fails: bool, cut: nat, t: Targets)
    requires InvFor(s, t) && s.w.pc.Discard?
    ensures InvFor(StemcellStep(c, s, fails, cut), t)
  {
    FailKeepsInv(c, s, t);
  }

  lemma {:induction false} ImageKeepsInv(c: Config, s: State, fails: bool, cut: nat, t: Targets)
    requires InvFor(s, t) && MakingImage(s.w.pc)
    requires s.w.pc.CreateImage? ==> Flatten(c.imageWrites(s.w.ova)) == t.image
    ensures InvFor(ImageStep(c, s, fails, cut), t)
  {
    match s.w.pc
    case AwaitTool => AwaitKeepsInv(c, s, fails, cut, t);
    case OpenOva => OpenOvaKeepsInv(c, s, fails, cut, t);
    case CreateImage => CreateImageKeepsInv(c, s, fails, cut, t);
    case WriteImage(_) => WriteImageKeepsInv(c, s, fails, cut, t);
    case _ => SetupKeepsInv(c, s, fails, cut, t);
  }

  lemma {:induction false} StemcellKeepsInv(c: Config, s: State, fails: bool, cut: nat, t: Targets)
    requires InvFor(s, t) && !MakingImage(s.w.pc)
    requires c.manifestFor(t.image) == t.manifest && Pushed(c.script(t.image, t.manifest)) == t.stemcell
    ensures InvFor(StemcellStep(c, s, fails, cut), t)
  {
    match s.w.pc
    case WriteManifest => WriteManifestKeepsInv(c, s, fails, cut, t);
    case CreateStemcell => CreateStemcellKeepsInv(c, s, fails, cut, t);
    case Archive(_, _) => ArchiveKeepsInv(c, s, fails, cut, t);
    case Discard(_) => DiscardKeepsInv(c, s, fails, cut, t);
    case Rename => RenameKeepsInv(c, s, fails, cut, t);
    case CleanUp(_, _) =>
    case Returned(_) =>
    case CreateManifest => CreateManifestKeepsInv(c, s, fails, cut, t);
    case _ => CheckKeepsInv(c, s, fails, cut, t);
  }

  /** Until the image exists the invariant does not depend on the complete files. */
  lemma {:induction false} AnyTargets(c: Config, s: State, t: Targets, u: Targets)
    requires InvFor(s, t) && MakingImage(s.w.pc) && !s.w.pc.WriteImage?
    ensures InvFor(s, u)
  {
  }

  lemma {:induction false} OvaIsReadOnce(c: Config, s: State, fails: bool, cut: nat)
    requires !s.w.pc.OpenOva?
    ensures WorkStep(c, s, fails, cut).w.ova == s.w.ova
  {
  }

  lemma {:induction false} WorkKeepsInv(c: Config, s: State, fails: bool, cut: nat)
    requires Inv(c, s)
    ensures Inv(c, WorkStep(c, s, fails, cut))
  {
    var s' := WorkStep(c, s, fails, cut);
    var t, u := TargetsFor(c, s.w.ova), TargetsFor(c, s'.w.ova);
    if s.w.pc.OpenOva? {
      AnyTargets(c, s, t, u);
    } else {
      OvaIsReadOnce(c, s, fails, cut);
    }
    if MakingImage(s.w.pc) {
      ImageKeepsInv(c, s, fails, cut, u);
    } else {
      StemcellKeepsInv(c, s, fails, cut, u);
    }
  }

  /** A Cleanup only unlinks, and removes the directory once it is empty. */
  lemma {:induction false} SweepShrinks(d: Disk, recorded: bool, sweep: Sweep, name: Name, fails: bool)
    ensures var d' := SweepStep(d, recorded, sweep, name, fails).0;
            d' == d || d' == Remove(d, name) || (d.names == map[] && d' == d.(dir := false))
  {
  }

  lemma {:induction false} RemoveKeeps(d: Disk, name: Name, w: Worker, tool: Option<nat>, t: Targets)
    requires Layout(d, w, tool) && Contents(d, w, t) && Hashes(d, w)
    ensures var d' := Remove(d, name); Layout(d', w, tool) && Contents(d', w, t) && Hashes(d', w)
  {
  }

  lemma {:induction false} SweepKeeps(d: Disk, recorded: bool, sweep: Sweep, name: Name, fails: bool,
                                      w: Worker, tool: Option<nat>, t: Targets)
    requires Layout(d, w, tool) && Contents(d, w, t) && Hashes(d, w)
    ensures var d' := SweepStep(d, recorded, sweep, name, fails).0;
            Layout(d', w, tool) && Contents(d', w, t) && Hashes(d', w) && (d'.dir ==> d.dir)
  {
    SweepShrinks(d, recorded, sweep, name, fails);
    RemoveKeeps(d, name, w, tool, t);
  }

  lemma {:induction false} WorkSweepKeepsInv(s: State, name: Name, fails: bool, t: Targets)
    requires InvFor(s, t)
    ensures InvFor(WorkSweepStep(s, name, fails), t)
  {
    if s.w.pc.CleanUp? {
      SweepKeeps(s.disk, s.recorded, s.w.pc.sweep, name, fails, s.w, s.ovf.file, t);
    }
  }

  lemma {:induction false} HandlerSweepKeepsInv(s: State, name: Name, fails: bool, t: Targets)
    requires InvFor(s, t)
    ensures InvFor(HandlerSweepStep(s, name, fails), t)
  {
    if s.stop.handler.Cleaning? {
      SweepKeeps(s.disk, s.recorded, s.stop.handler.sweep, name, fails, s.w, s.ovf.file, t);
    }
  }

  lemma {:induction false} HandlerKeepsInv(c: Config, s: State, t: Targets)
    requires InvFor(s, t)
    ensures InvFor(InterruptStep(s), t)
    ensures InvFor(s.(stop := HandleStep(s.stop)), t)
  {
  }

  lemma {:induction false} ProduceKeepsInv(s: State, t: Targets)
    requires InvFor(s, t)
    ensures InvFor(ToolMoveStep(s, Produce), t)
  {
  }

  lemma {:induction false} EmitKeepsInv(s: State, p: Bytes, t: Targets)
    requires InvFor(s, t)
    ensures InvFor(ToolMoveStep(s, Emit(p)), t)
  {
  }

  lemma {:induction false} ToolKeepsInv(s: State, move: ToolMove, t: Targets)
    requires InvFor(s, t)
    ensures InvFor(ToolMoveStep(s, move), t)
  {
    match move
    case Produce => ProduceKeepsInv(s, t);
    case Emit(p) => EmitKeepsInv(s, p, t);
    case Finish(_) =>
  }

  lemma {:induction false} OthersKeepInv(c: Config, s: State, e: Event, t: Targets)
    requires InvFor(s, t) && !e.Work?
    ensures InvFor(Step(c, s, e), t)
  {
    match e
    case WorkSweep(name, fails) => WorkSweepKeepsInv(s, name, fails, t);
    case HandlerSweep(name, fails) => HandlerSweepKeepsInv(s, name, fails, t);
    case ToolStep(move) => ToolKeepsInv(s, move, t);
    case Interrupt => HandlerKeepsInv(c, s, t);
    case Handle => HandlerKeepsInv(c, s, t);
  }

  lemma {:induction false} OthersReadNothing(c: Config, s: State, e: Event)
    requires !e.Work?
    ensures Step(c, s, e).w.ova == s.w.ova
  {
  }

  /** Every event keeps the invariant. */
  lemma {:induction false} StepKeepsInv(c: Config, s: State, e: Event)
    requires Inv(c, s)
    ensures Inv(c, Step(c, s, e))
  {
    if !e.Work? {
      OthersKeepInv(c, s, e, TargetsFor(c, s.w.ova));
      OthersReadNothing(c, s, e);
    } else if s.alive {
      WorkKeepsInv(c, s, e.fails, e.cut);
    }
  }

  lemma {:induction false} RunKeepsInv(c: Config, s: State, events: seq<Event>)
    requires Inv(c, s)
    ensures Inv(c, Run(c, s, events))
    decreases |events|
  {
    if events != [] {
      StepKeepsInv(c, s, events[0]);
      RunKeepsInv(c, Step(c, s, events[0]), events[1..]);
    }
  }

  // ----- results about whole runs

  /** The packager with given codecs, digest and manifest text. */
  function Packager(codecs: Codecs, sha1: Bytes -> string, manifestText: string -> Bytes): Config {
    Config(ova => ImageWrites(codecs.gzip, ova), image => manifestText(sha1(image)),
           (image, manifest) => Script(codecs, image, manifest))
  }

  /** The archive of the compressed OVA and of a manifest that holds its digest. */
  function CompleteStemcell(codecs: Codecs, sha1: Bytes -> string, manifestText: string -> Bytes, ova: Bytes): Bytes {
    var image := ImageStream(codecs.gzip, ova);
    StemcellStream(codecs, image, manifestText(sha1(image)))
  }

  /**
   In every interleaving with any interrupts, I/O errors and process exits: the final path
   is absent or holds a complete archive of two files, the image file, which is the OVA's whole
   compression, and a manifest with its digest; the temporary stemcell is a prefix of that
   archive; Package succeeds exactly when the final path was made.
   */
  lemma {:induction false} FinalStemcellIsComplete(codecs: Codecs, sha1: Bytes -> string, manifestText: string -> Bytes,
                                                   events: seq<Event>)
    ensures var s := Run(Packager(codecs, sha1, manifestText), Init(), events);
            var complete := CompleteStemcell(codecs, sha1, manifestText, s.w.ova);
            var image := Content(s.disk, s.w.image);
            && (s.disk.final.Some? ==>
                  && IsGzipOf(codecs.gzip, s.w.ova, image)
                  && IsArchiveOf(codecs.tar, codecs.gzip,
                                 [Stored("image", image), Stored("stemcell.MF", manifestText(sha1(image)))],
                                 Content(s.disk, s.disk.final))
                  && Content(s.disk, s.disk.final) == complete && Stemcell !in s.disk.names)
            && (Stemcell in s.disk.names ==> Content(s.disk, Some(s.disk.names[Stemcell])) <= complete)
            && (s.w.pc.Returned? ==> (s.w.pc.ok <==> s.disk.final.Some?))
  {
    var c := Packager(codecs, sha1, manifestText);
    InitInv(c);
    RunKeepsInv(c, Init(), events);
    var s := Run(c, Init(), events);
    var image := ImageStream(codecs.gzip, s.w.ova);
    var manifest := manifestText(sha1(image));
    assert TargetsFor(c, s.w.ova).stemcell == Pushed(Script(codecs, image, manifest));
    ScriptWritesTheArchive(codecs, image, manifest);
    StreamIsImage(codecs.gzip, s.w.ova);
  }

  /**
   So whatever programs undo the two codecs: the final path unpacks to the image and a manifest
   with the image's digest, and the image unpacks to the OVA.
   */
  lemma {:induction false} FinalStemcellUnpacks(codecs: Codecs, sha1: Bytes -> string, manifestText: string -> Bytes,
                                                gunzip: Bytes -> Option<Bytes>,
                                                untar: Bytes -> Option<seq<Stored>>, events: seq<Event>)
    requires Decompresses(gunzip, codecs.gzip) && Extracts(untar, codecs.tar, {"image", "stemcell.MF"})
    requires Run(Packager(codecs, sha1, manifestText), Init(), events).disk.final.Some?
    ensures var s := Run(Packager(codecs, sha1, manifestText), Init(), events);
            exists image :: 
              && gunzip(image) == Some(s.w.ova)
              && var tarred := gunzip(Content(s.disk, s.disk.final));
                 tarred.Some? && untar(tarred.value)
                 == Some([Stored("image", image), Stored("stemcell.MF", manifestText(sha1(image)))])
  {
    FinalStemcellIsComplete(codecs, sha1, manifestText, events);
    var s := Run(Packager(codecs, sha1, manifestText), Init(), events);
    var image := Content(s.disk, s.w.image);
    var files := [Stored("image", image), Stored("stemcell.MF", manifestText(sha1(image)))];
    GunzipGivesData(gunzip, codecs.gzip, s.w.ova, image);
    UnpackingGivesFiles(gunzip, untar, codecs.tar, codecs.gzip, files, Content(s.disk, s.disk.final),
                        {"image", "stemcell.MF"});
  }

  /** However many interrupts arrive, Stop is closed at most once, and never without an interrupt. */
  lemma {:induction false} StopIsClosedOnce(c: Config, events: seq<Event>)
    ensures Run(c, Init(), events).stop.closes <= 1
    ensures Interrupt !in events ==> !Run(c, Init(), events).stop.stopped
  {
    InitInv(c);
    RunKeepsInv(c, Init(), events);
    if Interrupt !in events {
      NoSignalNoStop(c, Init(), events);
    }
  }

  lemma {:induction false} NoSignalNoStop(c: Config, s: State, events: seq<Event>)
    requires Interrupt !in events
    requires s.stop.signals == 0 && !s.stop.stopped && (s.stop.handler.NotListening? || s.stop.handler.Listening?)
    ensures !Run(c, s, events).stop.stopped
    decreases |events|
  {
    if events != [] {
      assert events[0] != Interrupt;
      NoSignalNoStop(c, Step(c, s, events[0]), events[1..]);
    }
  }

  /** What reached the temporary stemcell. */
  function Written(s: State): Bytes {
    Content(s.disk, s.w.stemcell)
  }

  /** The write that has passed its stop check, if there is one. */
  function Passed(pc: Pc): Bytes {
    if pc.Archive? && pc.passed && pc.todo != [] && pc.todo[0].Push? then pc.todo[0].p else []
  }

  lemma {:induction false} StoppedImage(c: Config, s: State, fails: bool, cut: nat, t: Targets)
    requires InvFor(s, t) && MakingImage(s.w.pc)
    ensures var s' := ImageStep(c, s, fails, cut);
            Written(s) == Written(s') == [] && Passed(s.w.pc) == Passed(s'.w.pc) == []
  {
    assert s.w.stemcell.None?;
  }

  lemma {:induction false} StoppedOther(c: Config, s: State, fails: bool, cut: nat, t: Targets)
    requires InvFor(s, t) && !MakingImage(s.w.pc) && !(s.w.pc.Archive? && s.w.pc.todo != [])
    ensures var s' := StemcellStep(c, s, fails, cut);
            Written(s') == Written(s) && Passed(s.w.pc) == Passed(s'.w.pc) == []
  {
  }

  lemma {:induction false} StoppedWork(c: Config, s: State, fails: bool, cut: nat, t: Targets)
    requires InvFor(s, t) && s.stop.stopped
    ensures var s' := WorkStep(c, s, fails, cut);
            Written(s) <= Written(s') && Written(s') + Passed(s'.w.pc) <= Written(s) + Passed(s.w.pc)
  {
    if MakingImage(s.w.pc) {
      StoppedImage(c, s, fails, cut, t);
    } else if s.w.pc.Archive? && s.w.pc.todo != [] {
      StoppedArchive(s, s.w.pc.todo, fails, cut);
    } else {
      StoppedOther(c, s, fails, cut, t);
    }
  }

  lemma {:induction false} StoppedArchive(s: State, todo: seq<Action>, fails: bool, cut: nat)
    requires s.stop.stopped && s.w.pc.Archive? && s.w.pc.todo == todo != [] && IsFile(s.disk, s.w.stemcell)
    ensures var s' := ArchiveStep(s, todo, s.w.pc.passed, fails, cut);
            Written(s) <= Written(s') && Written(s') + Passed(s'.w.pc) <= Written(s) + Passed(s.w.pc)
  {
    assert Written(s) + [] == Written(s);
    if todo[0].Push? {
      var p := todo[0].p;
      assert Cut(p, cut) <= p && Written(s) + Cut(p, cut) + [] == Written(s) + Cut(p, cut) <= Written(s) + p;
      assert Written(s) + p + [] == Written(s) + p;
    }
  }

  /** Cleanups and ovftool write nothing to it. */
  lemma {:induction false} SweepWritesNothing(s: State, name: Name, fails: bool)
    ensures var s' := WorkSweepStep(s, name, fails);
            s'.stop == s.stop && Written(s') == Written(s) && Passed(s'.w.pc) == Passed(s.w.pc)
  {
    if s.w.pc.CleanUp? {
      SweepShrinks(s.disk, s.recorded, s.w.pc.sweep, name, fails);
    }
  }

  lemma {:induction false} HandlerWritesNothing(s: State, name: Name, fails: bool)
    ensures var s' := HandlerSweepStep(s, name, fails);
            s'.stop.stopped == s.stop.stopped && Written(s') == Written(s) && s'.w == s.w
  {
    if s.stop.handler.Cleaning? {
      SweepShrinks(s.disk, s.recorded, s.stop.handler.sweep, name, fails);
    }
  }

  lemma {:induction false} ToolWritesItsFile(s: State, move: ToolMove, t: Targets)
    requires InvFor(s, t)
    ensures var s' := ToolMoveStep(s, move); s'.w == s.w && s'.stop == s.stop && Written(s') == Written(s)
  {
  }

  lemma {:induction false} OthersWriteNothing(c: Config, s: State, e: Event)
    requires Inv(c, s) && s.stop.stopped && !e.Work?
    ensures var s' := Step(c, s, e);
            s'.stop.stopped && Written(s') == Written(s) && Passed(s'.w.pc) == Passed(s.w.pc)
  {
    match e
    case ToolStep(move) => ToolWritesItsFile(s, move, TargetsFor(c, s.w.ova));
    case WorkSweep(name, fails) => SweepWritesNothing(s, name, fails);
    case HandlerSweep(name, fails) => HandlerWritesNothing(s, name, fails);
    case _ =>
  }

  lemma {:induction false} WorkKeepsStop(c: Config, s: State, fails: bool, cut: nat)
    ensures WorkStep(c, s, fails, cut).stop == s.stop
  {
  }

  lemma {:induction false} StoppedStep(c: Config, s: State, e: Event)
    requires Inv(c, s) && s.stop.stopped
    ensures var s' := Step(c, s, e);
            s'.stop.stopped && Written(s) <= Written(s') && Written(s') + Passed(s'.w.pc) <= Written(s) + Passed(s.w.pc)
  {
    if !e.Work? {
      OthersWriteNothing(c, s, e);
    } else if s.alive {
      WorkKeepsStop(c, s, e.fails, e.cut);
      StoppedWork(c, s, e.fails, e.cut, TargetsFor(c, s.w.ova));
    }
  }

  lemma {:induction false} StoppedRun(c: Config, s: State, events: seq<Event>)
    requires Inv(c, s) && s.stop.stopped
    ensures var s' := Run(c, s, events);
            Written(s) <= Written(s') && Written(s') + Passed(s'.w.pc) <= Written(s) + Passed(s.w.pc)
    decreases |events|
  {
    if events != [] {
      StoppedStep(c, s, events[0]);
      StepKeepsInv(c, s, events[0]);
      StoppedRun(c, Step(c, s, events[0]), events[1..]);
    }
  }

  /**
   After Stop is closed at most one more write reaches the temporary stemcell in any
   interleaving, whole or in part: the one that had passed its stop check by then.
   */
  lemma {:induction false} StopFreezesTheStemcell(c: Config, before: seq<Event>, after: seq<Event>)
    requires Run(c, Init(), before).stop.stopped
    ensures var s, s' := Run(c, Init(), before), Run(c, Init(), before + after);
            Written(s) <= Written(s') <= Written(s) + Passed(s.w.pc)
  {
    InitInv(c);
    RunKeepsInv(c, Init(), before);
    RunAppend(c, Init(), before, after);
    StoppedRun(c, Run(c, Init(), before), after);
  }

  lemma {:induction false} RunAppend(c: Config, s: State, a: seq<Event>, b: seq<Event>)
    ensures Run(c, s, a + b) == Run(c, Run(c, s, a), b)
    decreases |a|
  {
    if a == [] {
      assert a + b == b;
    } else {
      assert (a + b)[1..] == a[1..] + b;
      RunAppend(c, Step(c, s, a[0]), a[1..], b);
    }
  }

  lemma {:induction false} RunCons(c: Config, s: State, e: Event, es: seq<Event>)
    ensures Run(c, s, [e] + es) == Run(c, Step(c, s, e), es)
  {
    assert ([e] + es)[1..] == es;
  }

  // ----- runs made of certain events

  ghost predicate AllOf(events: seq<Event>, allowed: Event -> bool) {
    forall e :: e in events ==> allowed(e)
  }

  ghost predicate Reaches(c: Config, allowed: Event -> bool, s: State, t: State) {
    exists events :: AllOf(events, allowed) && Run(c, s, events) == t
  }

  lemma {:induction false} NoStep(c: Config, allowed: Event -> bool, s: State)
    ensures Reaches(c, allowed, s, s)
  {
    assert AllOf([], allowed) && Run(c, s, []) == s;
  }

  lemma {:induction false} ReachesOn(c: Config, allowed: Event -> bool, s: State, t: State, u: State)
    requires Reaches(c, allowed, s, t) && Reaches(c, allowed, t, u)
    ensures Reaches(c, allowed, s, u)
  {
    var a :| AllOf(a, allowed) && Run(c, s, a) == t;
    var b :| AllOf(b, allowed) && Run(c, t, b) == u;
    RunAppend(c, s, a, b);
    assert AllOf(a + b, allowed);
  }

  lemma {:induction false} ThenStep(c: Config, allowed: Event -> bool, s: State, t: State, e: Event) returns (u: State)
    requires Reaches(c, allowed, s, t) && allowed(e)
    ensures u == Step(c, t, e) && Reaches(c, allowed, s, u)
  {
    u := Step(c, t, e);
    RunCons(c, t, e, []);
    assert [e] + [] == [e] && AllOf([e], allowed) && Run(c, t, [e]) == u;
    ReachesOn(c, allowed, s, t, u);
  }

  /** ovftool is started by the packager's first four steps. */
  lemma {:induction false} ToolStarts(c: Config, allowed: Event -> bool) returns (t: State)
    requires allowed(Work(false, 0))
    ensures Reaches(c, allowed, Init(), t)
    ensures t == State(Disk(true, map[Vmx := 0], None, [[]]), true, Worker(AwaitTool, [], [], None, None, None),
                       Init().stop, Ovftool(Running, None), true)
  {
    NoStep(c, allowed, Init());
    t := ThenStep(c, allowed, Init(), Init(), Work(false, 0));
    t := ThenStep(c, allowed, Init(), t, Work(false, 0));
    assert t.w.pc == CreateVmx && t.recorded && t.disk == Disk(true, map[], None, []);
    t := ThenStep(c, allowed, Init(), t, Work(false, 0));
    assert t.w.pc == StartTool && t.disk == Disk(true, map[Vmx := 0], None, [[]]);
    t := ThenStep(c, allowed, Init(), t, Work(false, 0));
  }
}
