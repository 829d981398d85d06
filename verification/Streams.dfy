/**
 What reaches the bottom of a writer stack.  Gzip and tar are arbitrary deterministic
 stages: each input makes the stage pass zero or more writes down, depending on
 everything it was given before, so buffering and flushing are part of the stage.
 */
module Streams {
  import opened Basics

  datatype Stage<!I> = Stage(emit: (seq<I>, I) -> seq<Bytes>)

  datatype GzipInput = Compress(p: Bytes) | CloseGzip

  datatype TarInput = Header(name: string, size: nat) | Data(p: Bytes) | CloseTar

  /** All writes a stage has passed down after the given inputs. */
  function Writes<I>(stage: Stage<I>, inputs: seq<I>): (ws: seq<Bytes>) {
    if inputs == [] then []
    else
      var before, last := inputs[..|inputs| - 1], inputs[|inputs| - 1];
      Writes(stage, before) + stage.emit(before, last)
  }

  lemma {:induction false} WritesSnoc<I>(stage: Stage<I>, inputs: seq<I>, x: I)
    ensures Writes(stage, inputs + [x]) == Writes(stage, inputs) + stage.emit(inputs, x)
  {
    assert (inputs + [x])[..|inputs|] == inputs;
  }

  lemma {:induction false} WritesPrefix<I>(stage: Stage<I>, a: seq<I>, b: seq<I>)
    requires a <= b
    ensures Writes(stage, a) <= Writes(stage, b)
    decreases |b|
  {
    if a == b {
    } else {
      var before := b[..|b| - 1];
      assert a <= before;
      WritesPrefix(stage, a, before);
    }
  }

  lemma {:induction false} FlattenPrefix(a: seq<Bytes>, b: seq<Bytes>)
    requires a <= b
    ensures Flatten(a) <= Flatten(b)
  {
    assert b == a + b[|a|..];
    FlattenAppend(a, b[|a|..]);
  }

  function ToGzip(ws: seq<Bytes>): (inputs: seq<GzipInput>)
    ensures |inputs| == |ws|
  {
    seq(|ws|, i requires 0 <= i < |ws| => Compress(ws[i]))
  }

  /** The bytes below gzip after the given inputs. */
  function Compressed(gzip: Stage<GzipInput>, inputs: seq<GzipInput>): Bytes {
    Flatten(Writes(gzip, inputs))
  }

  lemma {:induction false} CompressedPrefix(gzip: Stage<GzipInput>, a: seq<GzipInput>, b: seq<GzipInput>)
    requires a <= b
    ensures Compressed(gzip, a) <= Compressed(gzip, b)
  {
    WritesPrefix(gzip, a, b);
    FlattenPrefix(Writes(gzip, a), Writes(gzip, b));
  }

  const CHUNK := 32 * 1024

  /** The pieces in which io.Copy moves a file. */
  function Chunks(content: Bytes): (cs: seq<Bytes>) {
    if content == [] then []
    else if |content| <= CHUNK then [content]
    else [content[..CHUNK]] + Chunks(content[CHUNK..])
  }

  lemma {:induction false} ChunksFlatten(content: Bytes)
    ensures Flatten(Chunks(content)) == content
    ensures forall c :: c in Chunks(content) ==> 0 < |c| <= 32768
    ensures |Chunks(content)| == CeilDiv(|content|, 32768)
  {
    if content == [] {
    } else if |content| <= CHUNK {
      assert Flatten([content]) == content + [];
    } else {
      ChunksFlatten(content[CHUNK..]);
      assert content == content[..CHUNK] + content[CHUNK..];
    }
  }

  /** A file listed for archiving: its listed size, and its content if it can be opened. */
  datatype Entry = Entry(name: string, isDir: bool, size: nat, content: Option<Bytes>)

  predicate Intact(e: Entry) {
    e.isDir || (e.content.Some? && |e.content.value| == e.size)
  }

  predicate AllIntact(files: seq<Entry>) {
    forall e :: e in files ==> Intact(e)
  }

  function ToTar(ws: seq<Bytes>): (inputs: seq<TarInput>)
    ensures |inputs| == |ws|
  {
    seq(|ws|, i requires 0 <= i < |ws| => Data(ws[i]))
  }

  function EntryInputs(e: Entry): seq<TarInput> {
    if e.isDir || e.content.None? then []
    else [Header(e.name, e.size)] + ToTar(Chunks(e.content.value))
  }

  function EntriesInputs(files: seq<Entry>): seq<TarInput> {
    if files == [] then []
    else EntriesInputs(files[..|files| - 1]) + EntryInputs(files[|files| - 1])
  }

  lemma {:induction false} EntriesPrefix(a: seq<Entry>, b: seq<Entry>)
    requires a <= b
    ensures EntriesInputs(a) <= EntriesInputs(b)
    decreases |b|
  {
    if a != b {
      assert a <= b[..|b| - 1];
      EntriesPrefix(a, b[..|b| - 1]);
    }
  }

  /** What tar hands to gzip for a whole archive, and what gzip then writes. */
  function ArchiveInputs(files: seq<Entry>): seq<TarInput> {
    EntriesInputs(files) + [CloseTar]
  }

  function ArchiveWrites(tar: Stage<TarInput>, gzip: Stage<GzipInput>, files: seq<Entry>): seq<Bytes> {
    Writes(gzip, ToGzip(Writes(tar, ArchiveInputs(files))) + [CloseGzip])
  }

  function ArchiveStream(tar: Stage<TarInput>, gzip: Stage<GzipInput>, files: seq<Entry>): Bytes {
    Flatten(ArchiveWrites(tar, gzip, files))
  }

  /** What gzip writes for one file compressed on its own. */
  function ImageWrites(gzip: Stage<GzipInput>, content: Bytes): seq<Bytes> {
    Writes(gzip, ToGzip(Chunks(content)) + [CloseGzip])
  }

  function ImageStream(gzip: Stage<GzipInput>, content: Bytes): Bytes {
    Flatten(ImageWrites(gzip, content))
  }

  // ----- what a reader finds

  datatype Stored = Stored(name: string, content: Bytes)

  /** The names and contents of the files, without the directories. */
  function Listed(files: seq<Entry>): seq<Stored> {
    if files == [] then []
    else
      var before, last := Listed(files[..|files| - 1]), files[|files| - 1];
      if last.isDir || last.content.None? then before else before + [Stored(last.name, last.content.value)]
  }

  /** The data up to the next header or the end. */
  function DataAhead(inputs: seq<TarInput>): Bytes {
    if inputs == [] || !inputs[0].Data? then [] else inputs[0].p + DataAhead(inputs[1..])
  }

  function BehindData(inputs: seq<TarInput>): (rest: seq<TarInput>)
    ensures |rest| <= |inputs|
  {
    if inputs == [] || !inputs[0].Data? then inputs else BehindData(inputs[1..])
  }

  /**
   Reading an archive: headers, each followed by as much data as it announces, and the closing
   block last.  None if it is not put together like that.
   */
  function ReadTar(inputs: seq<TarInput>): (files: Option<seq<Stored>>)
    decreases |inputs|
  {
    if inputs == [] then None
    else
      match inputs[0]
      case CloseTar => if |inputs| == 1 then Some([]) else None
      case Data(_) => None
      case Header(name, size) =>
        var content, rest := DataAhead(inputs[1..]), ReadTar(BehindData(inputs[1..]));
        if |content| == size && rest.Some? then Some([Stored(name, content)] + rest.value) else None
  }

  /** What went into a gzip stream that was closed; None if it was not, or if anything followed. */
  function ReadGzip(inputs: seq<GzipInput>): (data: Option<Bytes>) {
    if inputs == [] then None
    else
      match inputs[0]
      case CloseGzip => if |inputs| == 1 then Some([]) else None
      case Compress(p) =>
        match ReadGzip(inputs[1..])
        case None => None
        case Some(rest) => Some(p + rest)
  }

  /** bytes is what gzip writes for the data, handed over in some pieces, up to and with its Close. */
  ghost predicate IsGzipOf(gzip: Stage<GzipInput>, data: Bytes, bytes: Bytes) {
    exists inputs :: ReadGzip(inputs) == Some(data) && Flatten(Writes(gzip, inputs)) == bytes
  }

  ghost predicate IsTarOf(tar: Stage<TarInput>, files: seq<Stored>, data: Bytes) {
    exists inputs :: ReadTar(inputs) == Some(files) && Flatten(Writes(tar, inputs)) == data
  }

  /** bytes is a complete compressed archive of exactly these files, in this order. */
  ghost predicate IsArchiveOf(tar: Stage<TarInput>, gzip: Stage<GzipInput>, files: seq<Stored>, bytes: Bytes) {
    exists data :: IsTarOf(tar, files, data) && IsGzipOf(gzip, data, bytes)
  }

  lemma {:induction false} ReadData(ws: seq<Bytes>, rest: seq<TarInput>)
    requires rest != [] && !rest[0].Data?
    ensures DataAhead(ToTar(ws) + rest) == Flatten(ws) && BehindData(ToTar(ws) + rest) == rest
  {
    if ws == [] {
      assert ToTar(ws) + rest == rest;
    } else {
      assert (ToTar(ws) + rest)[1..] == ToTar(ws[1..]) + rest;
      ReadData(ws[1..], rest);
    }
  }

  lemma {:induction false} ReadEntry(e: Entry, rest: seq<TarInput>)
    requires Intact(e) && !e.isDir && rest != [] && !rest[0].Data? && ReadTar(rest).Some?
    ensures ReadTar(EntryInputs(e) + rest) == Some([Stored(e.name, e.content.value)] + ReadTar(rest).value)
  {
    var chunks := Chunks(e.content.value);
    assert (EntryInputs(e) + rest)[1..] == ToTar(chunks) + rest;
    ReadData(chunks, rest);
    ChunksFlatten(e.content.value);
  }

  lemma {:induction false} ReadEntries(files: seq<Entry>, rest: seq<TarInput>)
    requires AllIntact(files) && rest != [] && !rest[0].Data? && ReadTar(rest).Some?
    ensures ReadTar(EntriesInputs(files) + rest) == Some(Listed(files) + ReadTar(rest).value)
    decreases |files|
  {
    if files == [] {
      assert EntriesInputs(files) + rest == rest && Listed(files) + ReadTar(rest).value == ReadTar(rest).value;
    } else {
      var init, last := files[..|files| - 1], files[|files| - 1];
      var behind := EntryInputs(last) + rest;
      assert EntriesInputs(files) + rest == EntriesInputs(init) + behind;
      if last.isDir {
        assert behind == rest;
      } else {
        ReadEntry(last, rest);
        assert Listed(init) + ([Stored(last.name, last.content.value)] + ReadTar(rest).value)
            == Listed(files) + ReadTar(rest).value;
      }
      ReadEntries(init, behind);
    }
  }

  lemma {:induction false} ReadPieces(ws: seq<Bytes>)
    ensures ReadGzip(ToGzip(ws) + [CloseGzip]) == Some(Flatten(ws))
  {
    if ws != [] {
      assert (ToGzip(ws) + [CloseGzip])[1..] == ToGzip(ws[1..]) + [CloseGzip];
      ReadPieces(ws[1..]);
    }
  }

  /** The stream for files that are as listed is a complete archive of exactly these. */
  lemma {:induction false} StreamIsArchive(tar: Stage<TarInput>, gzip: Stage<GzipInput>, files: seq<Entry>)
    requires AllIntact(files)
    ensures IsArchiveOf(tar, gzip, Listed(files), ArchiveStream(tar, gzip, files))
  {
    var inputs := ArchiveInputs(files);
    var ws := Writes(tar, inputs);
    ReadEntries(files, [CloseTar]);
    assert Listed(files) + [] == Listed(files);
    assert IsTarOf(tar, Listed(files), Flatten(ws));
    ReadPieces(ws);
    assert IsGzipOf(gzip, Flatten(ws), ArchiveStream(tar, gzip, files));
  }

  lemma {:induction false} StreamIsImage(gzip: Stage<GzipInput>, content: Bytes)
    ensures IsGzipOf(gzip, content, ImageStream(gzip, content))
  {
    ReadPieces(Chunks(content));
    ChunksFlatten(content);
  }

  // ----- unpacking

  /** A decompressor for the stage. */
  ghost predicate Decompresses(gunzip: Bytes -> Option<Bytes>, gzip: Stage<GzipInput>) {
    forall inputs :: ReadGzip(inputs).Some? ==> gunzip(Flatten(Writes(gzip, inputs))) == ReadGzip(inputs)
  }

  /** A program that lists archives of files with these names. */
  ghost predicate Extracts(untar: Bytes -> Option<seq<Stored>>, tar: Stage<TarInput>, names: set<string>) {
    forall inputs :: ReadTar(inputs).Some? && (forall x :: x in ReadTar(inputs).value ==> x.name in names) ==>
                       untar(Flatten(Writes(tar, inputs))) == ReadTar(inputs)
  }

  lemma {:induction false} GunzipGivesData(gunzip: Bytes -> Option<Bytes>, gzip: Stage<GzipInput>,
                                           data: Bytes, bytes: Bytes)
    requires Decompresses(gunzip, gzip) && IsGzipOf(gzip, data, bytes)
    ensures gunzip(bytes) == Some(data)
  {
    var inputs :| ReadGzip(inputs) == Some(data) && Flatten(Writes(gzip, inputs)) == bytes;
    assert ReadGzip(inputs).Some?;
  }

  /** Whatever decompressor and archive reader undo the two stages: an archive unpacks to its files. */
  lemma {:induction false} UnpackingGivesFiles(gunzip: Bytes -> Option<Bytes>, untar: Bytes -> Option<seq<Stored>>,
                                               tar: Stage<TarInput>, gzip: Stage<GzipInput>,
                                               files: seq<Stored>, bytes: Bytes, names: set<string>)
    requires Decompresses(gunzip, gzip) && Extracts(untar, tar, names)
    requires IsArchiveOf(tar, gzip, files, bytes) && forall x :: x in files ==> x.name in names
    ensures gunzip(bytes).Some? && untar(gunzip(bytes).value) == Some(files)
  {
    var data :| IsTarOf(tar, files, data) && IsGzipOf(gzip, data, bytes);
    GunzipGivesData(gunzip, gzip, data, bytes);
    var inputs :| ReadTar(inputs) == Some(files) && Flatten(Writes(tar, inputs)) == data;
    assert ReadTar(inputs).Some?;
  }
}
