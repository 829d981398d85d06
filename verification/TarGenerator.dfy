/**
 stembuild/package_stemcell/packager: archives and images that are hashed while they are
 written, through tar, gzip and io.MultiWriter(file, hash).
 */
module TarGenerator {
  import opened Basics
  import opened Streams

  /** A file on a disk with room for capacity bytes; a write that does not fit is cut short and fails. */
  class OutputFile {
    const capacity: nat
    var data: Bytes

    constructor (capacity: nat)
      ensures this.capacity == capacity && data == []
    {
      this.capacity := capacity;
      data := [];
    }

    method Write(p: Bytes) returns (ok: bool)
      requires |data| <= capacity
      modifies this
      ensures ok <==> |old(data) + p| <= capacity
      ensures data == Cut(old(data) + p, capacity)
    {
      ok := |data| + |p| <= capacity;
      data := Cut(data + p, capacity);
    }
  }

  class Sha1 {
    var input: Bytes

    constructor ()
      ensures input == []
    {
      input := [];
    }

    method Write(p: Bytes)
      modifies this
      ensures input == old(input) + p
    {
      input := input + p;
    }
  }

  /** io.MultiWriter(file, hash): the hash sees a write only after the file took all of it. */
  method WriteBoth(file: OutputFile, hash: Sha1, p: Bytes) returns (ok: bool)
    requires |file.data| <= file.capacity
    modifies file, hash
    ensures ok <==> |old(file.data) + p| <= file.capacity
    ensures file.data == Cut(old(file.data) + p, file.capacity)
    ensures hash.input == if ok then old(hash.input) + p else old(hash.input)
  {
    ok := file.Write(p);
    if ok {
      hash.Write(p);
    }
  }

  /** A write that does not fit leaves the disk as the whole stream would. */
  lemma {:induction false} CutOfPart(before: Bytes, done: Bytes, p: Bytes, all: Bytes, capacity: nat)
    requires done + p <= all
    ensures |before + done + p| > capacity ==> Cut(before + done + p, capacity) == Cut(before + all, capacity)
    ensures |before + done + p| > capacity ==> |before + all| > capacity
  {
    assert before + done + p == before + (done + p);
    assert before + (done + p) <= before + all;
  }

  /** Several writes in order, up to the first that fails. */
  method WriteAll(file: OutputFile, hash: Sha1, ws: seq<Bytes>) returns (ok: bool)
    requires |file.data| <= file.capacity && hash.input == file.data
    modifies file, hash
    ensures ok <==> |old(file.data) + Flatten(ws)| <= file.capacity
    ensures file.data == Cut(old(file.data) + Flatten(ws), file.capacity)
    ensures hash.input <= file.data && (ok ==> hash.input == file.data)
  {
    ok := true;
    for i := 0 to |ws|
      invariant ok && hash.input == file.data == old(file.data) + Flatten(ws[..i])
      invariant |file.data| <= file.capacity
    {
      FlattenTake(ws, i);
      CutOfPart(old(file.data), Flatten(ws[..i]), ws[i], Flatten(ws), file.capacity);
      ok := WriteBoth(file, hash, ws[i]);
      if !ok {
        return;
      }
    }
    assert ws[..|ws|] == ws;
  }

  lemma {:induction false} FlattenTake(ws: seq<Bytes>, i: nat)
    requires i < |ws|
    ensures Flatten(ws[..i + 1]) == Flatten(ws[..i]) + ws[i]
    ensures Flatten(ws[..i + 1]) <= Flatten(ws)
  {
    TakeSnoc(ws, i);
    FlattenSnoc(ws[..i], ws[i]);
    FlattenPrefix(ws[..i + 1], ws);
  }

  class GzipWriter {
    const stage: Stage<GzipInput>
    const file: OutputFile
    const hash: Sha1
    var history: seq<GzipInput>
    var failed: bool

    ghost predicate Valid()
      reads this, file, hash
    {
      var sent := Compressed(stage, history);
      && file.data == Cut(sent, file.capacity)
      && (failed <==> |sent| > file.capacity)
      && hash.input <= file.data
      && (!failed ==> hash.input == file.data)
    }

    constructor (stage: Stage<GzipInput>, file: OutputFile, hash: Sha1)
      requires file.data == [] == hash.input
      ensures Valid() && history == [] && !failed
      ensures this.stage == stage && this.file == file && this.hash == hash
    {
      this.stage, this.file, this.hash := stage, file, hash;
      history, failed := [], false;
    }

    /** Write and Close: pass the stage's writes down until one fails; later calls fail at once. */
    method Put(x: GzipInput) returns (ok: bool)
      requires Valid()
      modifies this, file, hash
      ensures Valid() && ok == !failed
      ensures history == if old(failed) then old(history) else old(history) + [x]
    {
      if failed {
        return false;
      }
      var ws := stage.emit(history, x);
      WritesSnoc(stage, history, x);
      FlattenAppend(Writes(stage, history), ws);
      ok := WriteAll(file, hash, ws);
      failed := !ok;
      history := history + [x];
    }

    /** A run of writes, up to the first that fails. */
    method PutAll(ws: seq<Bytes>) returns (ok: bool)
      requires Valid() && !failed
      modifies this, file, hash
      ensures Valid() && ok == !failed
      ensures history <= old(history) + ToGzip(ws)
      ensures ok ==> history == old(history) + ToGzip(ws)
    {
      ok := true;
      for i := 0 to |ws|
        invariant Valid() && ok && !failed
        invariant history == old(history) + ToGzip(ws[..i])
      {
        ToGzipTake(ws, i);
        ok := Put(Compress(ws[i]));
        if !ok {
          return;
        }
      }
      assert ws[..|ws|] == ws;
    }
  }

  lemma {:induction false} ToGzipTake(ws: seq<Bytes>, i: nat)
    requires i < |ws|
    ensures ToGzip(ws[..i]) + [Compress(ws[i])] == ToGzip(ws[..i + 1]) <= ToGzip(ws)
  {
  }

  class TarWriter {
    const stage: Stage<TarInput>
    const gzip: GzipWriter
    var history: seq<TarInput>
    var remaining: nat  // bytes of the current file still owed
    var failed: bool

    ghost predicate Valid()
      reads this, gzip, gzip.file, gzip.hash
    {
      && gzip.Valid()
      && gzip.history <= ToGzip(Writes(stage, history))
      && (gzip.failed ==> failed)
      && (!failed ==> gzip.history == ToGzip(Writes(stage, history)))
    }

    constructor (stage: Stage<TarInput>, gzip: GzipWriter)
      requires gzip.Valid() && gzip.history == [] && !gzip.failed
      ensures Valid() && history == [] && remaining == 0 && !failed
      ensures this.stage == stage && this.gzip == gzip
    {
      this.stage, this.gzip := stage, gzip;
      history, remaining, failed := [], 0, false;
    }

    method Emit(x: TarInput) returns (ok: bool)
      requires Valid() && !failed
      modifies this`history, this`failed, gzip, gzip.file, gzip.hash
      ensures Valid() && failed == gzip.failed == !ok
      ensures history == old(history) + [x]
    {
      var ws := stage.emit(history, x);
      WritesSnoc(stage, history, x);
      ok := gzip.PutAll(ws);
      assert ToGzip(Writes(stage, history) + ws) == ToGzip(Writes(stage, history)) + ToGzip(ws);
      history := history + [x];
      failed := !ok;
    }

    method WriteHeader(name: string, size: nat) returns (ok: bool)
      requires Valid() && !failed
      modifies this, gzip, gzip.file, gzip.hash
      ensures Valid() && ok == !failed
      ensures ok <==> old(remaining) == 0 && !gzip.failed
      ensures old(remaining) == 0 ==> history == old(history) + [Header(name, size)] && remaining == size
    {
      if remaining > 0 {
        failed := true;
        return false;
      }
      ok := Emit(Header(name, size));
      remaining := size;
    }

    /** Writes what the header still allows; more than that is an error. */
    method Write(p: Bytes) returns (ok: bool)
      requires Valid() && !failed && p != []
      modifies this, gzip, gzip.file, gzip.hash
      ensures Valid() && ok == !failed
      ensures ok <==> |p| <= old(remaining) && !gzip.failed
      ensures |p| <= old(remaining) ==> history == old(history) + [Data(p)] && remaining == old(remaining) - |p|
    {
      var q := if |p| <= remaining then p else p[..remaining];
      ok := true;
      if q != [] {
        ok := Emit(Data(q));
      }
      remaining := remaining - |q|;
      if |q| < |p| {
        ok, failed := false, true;
      }
    }

    method Close() returns (ok: bool)
      requires Valid() && !failed
      modifies this, gzip, gzip.file, gzip.hash
      ensures Valid() && ok == !failed
      ensures ok <==> old(remaining) == 0 && !gzip.failed
      ensures old(remaining) == 0 ==> history == old(history) + [CloseTar]
    {
      if remaining > 0 {
        failed := true;
        return false;
      }
      ok := Emit(CloseTar);
    }
  }

  lemma {:induction false} ToTarTake(before: seq<TarInput>, ws: seq<Bytes>, i: nat)
    requires i < |ws|
    ensures (before + ToTar(ws[..i])) + [Data(ws[i])] == before + ToTar(ws[..i + 1]) <= before + ToTar(ws)
  {
  }

  /** writeFilePathToTar: io.Copy of an opened file. */
  method WriteFilePathToTar(content: Bytes, tarWriter: TarWriter) returns (ok: bool)
    requires tarWriter.Valid() && !tarWriter.failed
    modifies tarWriter, tarWriter.gzip, tarWriter.gzip.file, tarWriter.gzip.hash
    ensures tarWriter.Valid() && ok == !tarWriter.failed
    ensures ok <==> |content| <= old(tarWriter.remaining) && !tarWriter.gzip.failed
    ensures |content| <= old(tarWriter.remaining) ==>
              tarWriter.history <= old(tarWriter.history) + ToTar(Chunks(content))
    ensures ok ==> tarWriter.history == old(tarWriter.history) + ToTar(Chunks(content))
    ensures ok ==> tarWriter.remaining == old(tarWriter.remaining) - |content|
  {
    var chunks := Chunks(content);
    ChunksFlatten(content);
    ghost var before, owed, moved := tarWriter.history, tarWriter.remaining, 0;
    for i := 0 to |chunks|
      invariant tarWriter.Valid() && !tarWriter.failed
      invariant tarWriter.history == before + ToTar(chunks[..i])
      invariant moved == |Flatten(chunks[..i])| && tarWriter.remaining + moved == owed
    {
      FlattenTake(chunks, i);
      ToTarTake(before, chunks, i);
      ok := tarWriter.Write(chunks[i]);
      if !ok {
        return;
      }
      moved := moved + |chunks[i]|;
    }
    assert chunks[..|chunks|] == chunks;
    ok := true;
  }

  lemma {:induction false} EntriesTake(files: seq<Entry>, i: nat)
    requires i < |files|
    ensures EntriesInputs(files[..i + 1]) == EntriesInputs(files[..i]) + EntryInputs(files[i])
    ensures EntriesInputs(files[..i + 1]) <= ArchiveInputs(files)
    ensures AllIntact(files[..i + 1]) <==> AllIntact(files[..i]) && Intact(files[i])
  {
    var taken := files[..i + 1];
    assert taken[..|taken| - 1] == files[..i] && taken[|taken| - 1] == files[i];
    assert taken == files[..i] + [files[i]];
    EntriesPrefix(taken, files);
  }

  /** What reached gzip during part of the archive compresses to a prefix of the stream. */
  lemma {:induction false} CutFromStream(tar: Stage<TarInput>, gzip: Stage<GzipInput>, files: seq<Entry>,
                                         tarred: seq<TarInput>, zipped: seq<GzipInput>)
    requires tarred <= ArchiveInputs(files)
    requires zipped <= ToGzip(Writes(tar, tarred))
    ensures Compressed(gzip, zipped) <= ArchiveStream(tar, gzip, files)
  {
    WritesPrefix(tar, tarred, ArchiveInputs(files));
    CompressedPrefix(gzip, zipped, ToGzip(Writes(tar, ArchiveInputs(files))) + [CloseGzip]);
  }

  /** One regular file: its header, then its content. */
  method AddFile(e: Entry, tarWriter: TarWriter) returns (ok: bool)
    requires tarWriter.Valid() && !tarWriter.failed && !e.isDir
    modifies tarWriter, tarWriter.gzip, tarWriter.gzip.file, tarWriter.gzip.hash
    ensures tarWriter.Valid()
    ensures ok ==> !tarWriter.failed && e.content.Some? && old(tarWriter.remaining) == 0
    ensures ok ==> tarWriter.history == old(tarWriter.history) + EntryInputs(e)
    ensures ok ==> tarWriter.remaining == e.size - |e.content.value|
    ensures !ok && old(tarWriter.remaining) == 0 && Intact(e) ==>
              tarWriter.gzip.failed && tarWriter.history <= old(tarWriter.history) + EntryInputs(e)
  {
    ok := tarWriter.WriteHeader(e.name, e.size);
    if !ok {
      return;
    }
    if e.content.None? {
      return false;
    }
    ok := WriteFilePathToTar(e.content.value, tarWriter);
  }

  /** One turn of the loop: a directory is skipped. */
  method AddListed(e: Entry, tarWriter: TarWriter) returns (ok: bool)
    requires tarWriter.Valid() && !tarWriter.failed
    modifies tarWriter, tarWriter.gzip, tarWriter.gzip.file, tarWriter.gzip.hash
    ensures tarWriter.Valid()
    ensures ok ==> !tarWriter.failed && tarWriter.history == old(tarWriter.history) + EntryInputs(e)
    ensures ok ==> (tarWriter.remaining == 0 <==> old(tarWriter.remaining) == 0 && Intact(e))
    ensures !ok && old(tarWriter.remaining) == 0 && Intact(e) ==>
              tarWriter.gzip.failed && tarWriter.history <= old(tarWriter.history) + EntryInputs(e)
  {
    ok := true;
    if !e.isDir {
      ok := AddFile(e, tarWriter);
    } else {
      assert tarWriter.history + [] == tarWriter.history;
    }
  }

  method AddFiles(files: seq<Entry>, tarWriter: TarWriter) returns (ok: bool)
    requires tarWriter.Valid() && !tarWriter.failed && tarWriter.history == [] && tarWriter.remaining == 0
    modifies tarWriter, tarWriter.gzip, tarWriter.gzip.file, tarWriter.gzip.hash
    ensures tarWriter.Valid()
    ensures ok ==> !tarWriter.failed && tarWriter.history == EntriesInputs(files)
    ensures ok ==> (tarWriter.remaining == 0 <==> AllIntact(files))
    ensures !ok && AllIntact(files) ==> tarWriter.gzip.failed && tarWriter.history <= ArchiveInputs(files)
  {
    for i := 0 to |files|
      invariant tarWriter.Valid() && !tarWriter.failed
      invariant tarWriter.history == EntriesInputs(files[..i])
      invariant tarWriter.remaining == 0 <==> AllIntact(files[..i])
    {
      EntriesTake(files, i);
      ok := AddListed(files[i], tarWriter);
      if !ok {
        AllIntactTake(files, i);
        return;
      }
    }
    assert files[..|files|] == files;
    ok := true;
  }

  lemma {:induction false} AllIntactTake(files: seq<Entry>, i: nat)
    requires i < |files|
    ensures AllIntact(files) ==> AllIntact(files[..i]) && Intact(files[i])
  {
  }

  /**
   TarGenerator.  The digest is returned exactly when every listed file can be opened and
   still has its listed size and the whole stream fits on the disk; it is then the digest
   of the bytes of the destination file.  What a failure leaves behind is cut from the stream.
   */
  method TarGenerator(files: seq<Entry>, tar: Stage<TarInput>, gzip: Stage<GzipInput>, sha1: Bytes -> string,
                      capacity: nat)
    returns (digest: Option<string>, dest: OutputFile)
    ensures fresh(dest)
    ensures digest.Some? <==> AllIntact(files) && |ArchiveStream(tar, gzip, files)| <= capacity
    ensures digest.Some? ==> dest.data == ArchiveStream(tar, gzip, files) && digest.value == sha1(dest.data)
    ensures digest.Some? ==> IsArchiveOf(tar, gzip, Listed(files), dest.data)
    ensures AllIntact(files) ==> dest.data <= ArchiveStream(tar, gzip, files)
  {
    digest := None;
    dest := new OutputFile(capacity);
    var hash := new Sha1();
    var gzw := new GzipWriter(gzip, dest, hash);
    var tarWriter := new TarWriter(tar, gzw);
    var ok := AddFiles(files, tarWriter);
    if ok {
      ok := tarWriter.Close();
    }
    if !ok {
      if AllIntact(files) {
        CutFromStream(tar, gzip, files, tarWriter.history, gzw.history);
      }
      return;
    }
    ok := gzw.Put(CloseGzip);
    if ok {
      StreamIsArchive(tar, gzip, files);
      digest := Some(sha1(hash.input));
    }
  }

  lemma {:induction false} CutFromImage(gzip: Stage<GzipInput>, ova: Bytes, zipped: seq<GzipInput>)
    requires zipped <= ToGzip(Chunks(ova)) || zipped == ToGzip(Chunks(ova)) + [CloseGzip]
    ensures Compressed(gzip, zipped) <= ImageStream(gzip, ova)
  {
    CompressedPrefix(gzip, zipped, ToGzip(Chunks(ova)) + [CloseGzip]);
  }

  /** io.Copy into the gzip writer, and its Close. */
  method CompressAll(ova: Bytes, w: GzipWriter) returns (ok: bool)
    requires w.Valid() && !w.failed && w.history == []
    modifies w, w.file, w.hash
    ensures w.Valid() && ok == !w.failed
    ensures w.file.data <= ImageStream(w.stage, ova)
    ensures ok <==> |ImageStream(w.stage, ova)| <= w.file.capacity
    ensures ok ==> w.file.data == ImageStream(w.stage, ova) && IsGzipOf(w.stage, ova, w.file.data)
  {
    ok := w.PutAll(Chunks(ova));
    if ok {
      ok := w.Put(CloseGzip);
    }
    CutFromImage(w.stage, ova, w.history);
    StreamIsImage(w.stage, ova);
  }

  /**
   CreateImage, from the opened OVA on: compress it into the image file while hashing.
   The checksum is recorded exactly when the whole compressed stream fits on the disk; it
   is then the digest of the image file's bytes.
   */
  method CreateImage(ova: Bytes, gzip: Stage<GzipInput>, sha1: Bytes -> string, capacity: nat)
    returns (sha1sum: Option<string>, image: OutputFile)
    ensures fresh(image)
    ensures sha1sum.Some? <==> |ImageStream(gzip, ova)| <= capacity
    ensures sha1sum.Some? ==> image.data == ImageStream(gzip, ova) && sha1sum.value == sha1(image.data)
    ensures sha1sum.Some? ==> IsGzipOf(gzip, ova, image.data)
    ensures image.data <= ImageStream(gzip, ova)
  {
    sha1sum := None;
    image := new OutputFile(capacity);
    var h := new Sha1();
    var w := new GzipWriter(gzip, image, h);
    var ok := CompressAll(ova, w);
    if ok {
      sha1sum := Some(sha1(h.input));
    }
  }
}
