/**
 The reads and writes CreateStemcell performs on its way through tar and gzip, as one
 list of actions, and the proof that they write the archive.
 */
module StemcellScript {
  import opened Basics
  import opened Streams

  /** Files of the temporary directory. */
  datatype Name = Vmx | Ova | Image | Manifest | Stemcell

  datatype Codecs = Codecs(tar: Stage<TarInput>, gzip: Stage<GzipInput>)

  /** Open an input file, read from it, or write to the stemcell. */
  datatype Action = Open(name: Name) | Read | Push(p: Bytes)

  function Pushes(ws: seq<Bytes>): (actions: seq<Action>)
    ensures |actions| == |ws|
  {
    seq(|ws|, i requires 0 <= i < |ws| => Push(ws[i]))
  }

  /** What gzip writes for further input, after given input. */
  function More(gzip: Stage<GzipInput>, before: seq<GzipInput>, ws: seq<Bytes>): seq<Bytes>
    decreases |ws|
  {
    if ws == [] then []
    else gzip.emit(before, Compress(ws[0])) + More(gzip, before + [Compress(ws[0])], ws[1..])
  }

  /**
   What the copying code does before tar gets its next input; the Read before a later header is
   the one that meets end of file.
   */
  function Guard(x: TarInput): seq<Action> {
    match x
    case Header(name, _) => if name == "image" then [Open(Image)] else [Read, Open(Manifest)]
    case Data(_) => [Read]
    case CloseTar => [Read]
  }

  function TarScript(c: Codecs, inputs: seq<TarInput>): seq<Action> {
    if inputs == [] then []
    else
      var before, x := inputs[..|inputs| - 1], inputs[|inputs| - 1];
      TarScript(c, before) + (Guard(x) + Pushes(More(c.gzip, ToGzip(Writes(c.tar, before)), c.tar.emit(before, x))))
  }

  function StemcellFiles(image: Bytes, manifest: Bytes): seq<Entry> {
    [Entry("image", false, |image|, Some(image)), Entry("stemcell.MF", false, |manifest|, Some(manifest))]
  }

  /** The actions of CreateStemcell's copying when nothing fails. */
  function Script(c: Codecs, image: Bytes, manifest: Bytes): seq<Action> {
    var inputs := ArchiveInputs(StemcellFiles(image, manifest));
    TarScript(c, inputs) + Pushes(c.gzip.emit(ToGzip(Writes(c.tar, inputs)), CloseGzip))
  }

  function StemcellStream(c: Codecs, image: Bytes, manifest: Bytes): Bytes {
    ArchiveStream(c.tar, c.gzip, StemcellFiles(image, manifest))
  }

  /** The bytes a list of actions writes. */
  function Pushed(actions: seq<Action>): Bytes {
    if actions == [] then []
    else (if actions[0].Push? then actions[0].p else []) + Pushed(actions[1..])
  }

  lemma {:induction false} PushedSkip(actions: seq<Action>)
    requires actions != [] && !actions[0].Push?
    ensures Pushed(actions) == Pushed(actions[1..])
  {
  }

  lemma {:induction false} PushedAppend(a: seq<Action>, b: seq<Action>)
    ensures Pushed(a + b) == Pushed(a) + Pushed(b)
  {
    if a == [] {
      assert a + b == b;
    } else {
      assert (a + b)[1..] == a[1..] + b;
      PushedAppend(a[1..], b);
    }
  }

  lemma {:induction false} PushedPushes(ws: seq<Bytes>)
    ensures Pushed(Pushes(ws)) == Flatten(ws)
  {
    if ws != [] {
      assert Pushes(ws)[1..] == Pushes(ws[1..]);
      PushedPushes(ws[1..]);
    }
  }

  lemma {:induction false} MoreWrites(gzip: Stage<GzipInput>, before: seq<GzipInput>, ws: seq<Bytes>)
    ensures Writes(gzip, before + ToGzip(ws)) == Writes(gzip, before) + More(gzip, before, ws)
    decreases |ws|
  {
    if ws == [] {
      assert before + ToGzip(ws) == before;
    } else {
      var x := Compress(ws[0]);
      var emitted, later := gzip.emit(before, x), More(gzip, before + [x], ws[1..]);
      WritesSnoc(gzip, before, x);
      MoreWrites(gzip, before + [x], ws[1..]);
      ToGzipCons(before, ws);
      assert Writes(gzip, before) + emitted + later == Writes(gzip, before) + (emitted + later);
    }
  }

  lemma {:induction false} ToGzipCons(before: seq<GzipInput>, ws: seq<Bytes>)
    requires ws != []
    ensures before + [Compress(ws[0])] + ToGzip(ws[1..]) == before + ToGzip(ws)
  {
  }

  lemma {:induction false} PushedAll(a: seq<Action>, x: TarInput, ws: seq<Bytes>)
    ensures Pushed(a + (Guard(x) + Pushes(ws))) == Pushed(a) + Flatten(ws)
  {
    PushedAppend(a, Guard(x) + Pushes(ws));
    PushedAppend(Guard(x), Pushes(ws));
    PushedPushes(ws);
    assert Pushed(Guard(x)) == [];
  }

  lemma {:induction false} CompressedMore(gzip: Stage<GzipInput>, before: seq<Bytes>, ws: seq<Bytes>)
    ensures Compressed(gzip, ToGzip(before + ws))
         == Compressed(gzip, ToGzip(before)) + Flatten(More(gzip, ToGzip(before), ws))
  {
    assert ToGzip(before + ws) == ToGzip(before) + ToGzip(ws);
    MoreWrites(gzip, ToGzip(before), ws);
    FlattenAppend(Writes(gzip, ToGzip(before)), More(gzip, ToGzip(before), ws));
  }

  lemma {:induction false} PushedTar(c: Codecs, inputs: seq<TarInput>)
    ensures Pushed(TarScript(c, inputs)) == Compressed(c.gzip, ToGzip(Writes(c.tar, inputs)))
  {
    if inputs != [] {
      var before, x := inputs[..|inputs| - 1], inputs[|inputs| - 1];
      var ws := c.tar.emit(before, x);
      PushedTar(c, before);
      PushedAll(TarScript(c, before), x, More(c.gzip, ToGzip(Writes(c.tar, before)), ws));
      CompressedMore(c.gzip, Writes(c.tar, before), ws);
    }
  }

  lemma {:induction false} StreamReads(c: Codecs, image: Bytes, manifest: Bytes)
    ensures IsArchiveOf(c.tar, c.gzip, [Stored("image", image), Stored("stemcell.MF", manifest)],
                        StemcellStream(c, image, manifest))
  {
    var files := StemcellFiles(image, manifest);
    assert files[..1] == [files[0]] && [files[0]][..0] == [];
    assert Listed([files[0]]) == [Stored("image", image)];
    assert Listed(files) == [Stored("image", image), Stored("stemcell.MF", manifest)];
    StreamIsArchive(c.tar, c.gzip, files);
  }

  /**
   The reads and writes of CreateStemcell write exactly the archive stream, a complete archive
   of the image and the manifest under their names.
   */
  lemma {:induction false} ScriptWritesTheArchive(c: Codecs, image: Bytes, manifest: Bytes)
    ensures Pushed(Script(c, image, manifest)) == StemcellStream(c, image, manifest)
    ensures IsArchiveOf(c.tar, c.gzip, [Stored("image", image), Stored("stemcell.MF", manifest)],
                        Pushed(Script(c, image, manifest)))
  {
    StreamReads(c, image, manifest);
    var inputs := ArchiveInputs(StemcellFiles(image, manifest));
    var zipped := ToGzip(Writes(c.tar, inputs));
    var last := c.gzip.emit(zipped, CloseGzip);
    PushedTar(c, inputs);
    PushedAppend(TarScript(c, inputs), Pushes(last));
    PushedPushes(last);
    WritesSnoc(c.gzip, zipped, CloseGzip);
    FlattenAppend(Writes(c.gzip, zipped), last);
  }

  // ----- which files it reads

  function Opened(actions: seq<Action>): seq<Name> {
    if actions == [] then []
    else (if actions[0].Open? then [actions[0].name] else []) + Opened(actions[1..])
  }

  function ReadCount(actions: seq<Action>): nat {
    if actions == [] then 0 else (if actions[0].Read? then 1 else 0) + ReadCount(actions[1..])
  }

  lemma {:induction false} OpenedAppend(a: seq<Action>, b: seq<Action>)
    ensures Opened(a + b) == Opened(a) + Opened(b)
  {
    if a == [] {
      assert a + b == b;
    } else {
      assert (a + b)[1..] == a[1..] + b;
      OpenedAppend(a[1..], b);
    }
  }

  lemma {:induction false} ReadsAppend(a: seq<Action>, b: seq<Action>)
    ensures ReadCount(a + b) == ReadCount(a) + ReadCount(b)
  {
    if a == [] {
      assert a + b == b;
    } else {
      assert (a + b)[1..] == a[1..] + b;
      ReadsAppend(a[1..], b);
    }
  }

  lemma {:induction false} InputsAppend(a: seq<Action>, b: seq<Action>)
    ensures Opened(a + b) == Opened(a) + Opened(b) && ReadCount(a + b) == ReadCount(a) + ReadCount(b)
  {
    OpenedAppend(a, b);
    ReadsAppend(a, b);
  }

  lemma {:induction false} PushesReadNothing(ws: seq<Bytes>)
    ensures Opened(Pushes(ws)) == [] && ReadCount(Pushes(ws)) == 0
  {
    if ws != [] {
      assert Pushes(ws)[1..] == Pushes(ws[1..]);
      PushesReadNothing(ws[1..]);
    }
  }

  lemma {:induction false} TarScriptSnoc(c: Codecs, inputs: seq<TarInput>, x: TarInput)
    ensures Opened(TarScript(c, inputs + [x])) == Opened(TarScript(c, inputs)) + Opened(Guard(x))
    ensures ReadCount(TarScript(c, inputs + [x])) == ReadCount(TarScript(c, inputs)) + ReadCount(Guard(x))
  {
    assert (inputs + [x])[..|inputs|] == inputs;
    var ws := More(c.gzip, ToGzip(Writes(c.tar, inputs)), c.tar.emit(inputs, x));
    InputsAppend(TarScript(c, inputs), Guard(x) + Pushes(ws));
    InputsAppend(Guard(x), Pushes(ws));
    PushesReadNothing(ws);
  }

  /** Every piece of a file is read before it is handed to tar. */
  lemma {:induction false} TarScriptData(c: Codecs, inputs: seq<TarInput>, ws: seq<Bytes>)
    ensures Opened(TarScript(c, inputs + ToTar(ws))) == Opened(TarScript(c, inputs))
    ensures ReadCount(TarScript(c, inputs + ToTar(ws))) == ReadCount(TarScript(c, inputs)) + |ws|
  {
    if ws == [] {
      assert inputs + ToTar(ws) == inputs;
    } else {
      var init, last := ws[..|ws| - 1], ws[|ws| - 1];
      assert inputs + ToTar(ws) == (inputs + ToTar(init)) + [Data(last)];
      TarScriptData(c, inputs, init);
      TarScriptSnoc(c, inputs + ToTar(init), Data(last));
      assert Opened(Guard(Data(last))) == [] && ReadCount(Guard(Data(last))) == 1;
    }
  }

  lemma {:induction false} TwoFiles(image: Bytes, manifest: Bytes)
    ensures ArchiveInputs(StemcellFiles(image, manifest)) ==
            ((([Header("image", |image|)] + ToTar(Chunks(image))) + [Header("stemcell.MF", |manifest|)])
             + ToTar(Chunks(manifest))) + [CloseTar]
  {
    var files := StemcellFiles(image, manifest);
    assert files[..1] == [files[0]] && [files[0]][..0] == [];
    assert EntriesInputs([files[0]]) == EntryInputs(files[0]);
    assert EntriesInputs(files) == EntryInputs(files[0]) + EntryInputs(files[1]);
  }

  lemma {:induction false} TarScriptFile(c: Codecs, before: seq<TarInput>, x: TarInput, ws: seq<Bytes>)
    ensures Opened(TarScript(c, (before + [x]) + ToTar(ws))) == Opened(TarScript(c, before)) + Opened(Guard(x))
    ensures ReadCount(TarScript(c, (before + [x]) + ToTar(ws)))
         == ReadCount(TarScript(c, before)) + ReadCount(Guard(x)) + |ws|
  {
    TarScriptSnoc(c, before, x);
    TarScriptData(c, before + [x], ws);
  }

  lemma {:induction false} TwoFilesRead(c: Codecs, n: nat, ws: seq<Bytes>, m: nat, vs: seq<Bytes>,
                                        first: seq<TarInput>, both: seq<TarInput>)
    requires first == [Header("image", n)] + ToTar(ws)
    requires both == (first + [Header("stemcell.MF", m)]) + ToTar(vs)
    ensures Opened(TarScript(c, both + [CloseTar])) == [Image, Manifest]
    ensures ReadCount(TarScript(c, both + [CloseTar])) == |ws| + 1 + |vs| + 1
  {
    OpensOfGuards(n, m);
    FirstFileRead(c, n, ws, first);
    TarScriptFile(c, first, Header("stemcell.MF", m), vs);
    TarScriptSnoc(c, both, CloseTar);
  }

  lemma {:induction false} FirstFileRead(c: Codecs, n: nat, ws: seq<Bytes>, first: seq<TarInput>)
    requires first == [Header("image", n)] + ToTar(ws)
    ensures Opened(TarScript(c, first)) == [Image] && ReadCount(TarScript(c, first)) == |ws|
  {
    OpensOfGuards(n, 0);
    assert [] + [Header("image", n)] == [Header("image", n)];
    TarScriptFile(c, [], Header("image", n), ws);
  }

  /** The image is opened, then the manifest, and each is read in its pieces and up to its end. */
  lemma {:induction false} ScriptReadsBothFiles(c: Codecs, image: Bytes, manifest: Bytes)
    ensures Opened(Script(c, image, manifest)) == [Image, Manifest]
    ensures ReadCount(Script(c, image, manifest)) == |Chunks(image)| + 1 + |Chunks(manifest)| + 1
  {
    TwoFiles(image, manifest);
    var first := [Header("image", |image|)] + ToTar(Chunks(image));
    var both := (first + [Header("stemcell.MF", |manifest|)]) + ToTar(Chunks(manifest));
    TwoFilesRead(c, |image|, Chunks(image), |manifest|, Chunks(manifest), first, both);
    var inputs := ArchiveInputs(StemcellFiles(image, manifest));
    var last := c.gzip.emit(ToGzip(Writes(c.tar, inputs)), CloseGzip);
    InputsAppend(TarScript(c, inputs), Pushes(last));
    PushesReadNothing(last);
  }

  lemma {:induction false} OpensOfGuards(n: nat, m: nat)
    ensures Opened(Guard(Header("image", n))) == [Image] && ReadCount(Guard(Header("image", n))) == 0
    ensures Opened(Guard(Header("stemcell.MF", m))) == [Manifest] && ReadCount(Guard(Header("stemcell.MF", m))) == 1
    ensures Opened(Guard(CloseTar)) == [] && ReadCount(Guard(CloseTar)) == 1
  {
    assert "stemcell.MF"[0] != "image"[0];
    assert [Read, Open(Manifest)][1..] == [Open(Manifest)];
  }
}
