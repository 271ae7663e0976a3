/** Several files open for writing at once, over one file system and one pool of
    arrays: what is done through one handle never changes what is read through
    another (file_write.go, pool.go and the spill files of disk.go). */
module OpenFiles {
  import opened Common
  import opened Bucket
  import opened ByteFile
  import opened Paths
  import opened WriteFile
  import DC = DiskCache
  import Links
  import FS = S3Fs
  import MB = MemBuf
  import SB = SpillBuf

  /** Two handles of one file system that share nothing. */
  ghost predicate Apart(a: Handle, b: Handle)
    reads a, b, a.buf, b.buf
  {
    a != b && a.fs == b.fs && SB.Apart(a.buf, b.buf)
  }

  /** All that makes b a valid handle on `file`, but for what it shares with others. */
  ghost predicate Stands(b: Handle, file: Plain)
    reads b, b.readers, b.buf, b.buf.mem, if b.buf.mem == null then {} else {b.buf.mem.data}
  {
    b.buf.fs == b.fs && b.Synced() && b.Counted() && b.AsFile() == file
  }

  lemma StandsAlone(a: Handle, b: Handle)
    requires a.Valid() && b.Valid() && Apart(a, b)
    ensures Stands(b, b.AsFile()) && SB.SafeFrom(b.buf, a.buf.Look())
    ensures a.buf.mem != null && b.buf.mem != null ==> a.buf.mem.data != b.buf.mem.data
  {
    SB.ApartIsSafe(a.buf, b.buf);
  }

  /** Nothing of b is what a writes to. */
  lemma NotInFootprint(a: Handle, b: Handle)
    requires Apart(a, b) && (a.buf.mem != null && b.buf.mem != null ==> a.buf.mem.data != b.buf.mem.data)
    ensures var foot := a.buf.Footprint();
            && b as object? !in foot && b.buf as object? !in foot && (forall r :: r in b.readers ==> r as object? !in foot)
            && (b.buf.mem != null ==> b.buf.mem as object? !in foot && b.buf.mem.data as object? !in foot)
  {
  }

  /** Nothing of a handle is part of the file system. */
  lemma NotInFs(fs: FS.FileSystem, b: Handle)
    requires b.buf.fs == fs
    ensures var foot := fs.Repr();
            && b as object !in foot && b.buf as object !in foot && (forall r :: r in b.readers ==> r as object !in foot)
            && (b.buf.mem != null ==> b.buf.mem as object !in foot && b.buf.mem.data as object !in foot)
            && b.buf.pool as object !in foot && forall c :: c in b.buf.pool.live ==> c as object !in foot
  {
  }

  lemma StandsValid(a: Handle, b: Handle, file: Plain)
    requires a.Valid() && a != b && a.fs == b.fs && a.buf.pool == b.buf.pool && a.buf != b.buf
    requires Stands(b, file) && SB.SafeFrom(b.buf, a.buf.Look())
    ensures b.Valid() && Apart(a, b) && b.AsFile() == file
  {
    SB.SafeIsApart(a.buf, b.buf);
  }

  /** Any operation on one handle, plain as ever, leaves every other one as it was. */
  method Acts(a: Handle, b: Handle, op: Op) returns (answer: Answer)
    requires a.Valid() && b.Valid() && Apart(a, b)
    modifies a`pos, a`dirty, a.buf.Footprint()
    ensures a.Valid() && b.Valid() && Apart(a, b) && a.fs.KeepsReads()
    ensures a.Answers(op, answer)
    ensures b.AsFile() == old(b.AsFile())
  {
    hide SB.Spares, SB.SafeFrom, SB.Buffer.Valid, SB.Buffer.Content, Stands, Handle.Valid;
    hide AnswersPlainly, Allowed, WriterStep;
    StandsAlone(a, b);
    NotInFootprint(a, b);
    ghost var file := b.AsFile();
    ghost var before := a.buf.Look();
    ghost var spills;
    answer, spills := a.Perform(op);
    SB.StaysSafe(b.buf, before, a.buf.Look());
    SB.ReadsKept(before, a.buf.Look());
    StandsValid(a, b, file);
  }

  /** Uploading one buffer leaves the others alone. */
  method Syncs(a: Handle, b: Handle) returns (r: Outcome)
    requires a.Valid() && b.Valid() && Apart(a, b)
    modifies a`dirty, a`spillETag, a`stored, a.fs.Repr()
    ensures a.Valid() && b.Valid() && Apart(a, b) && a.fs.KeepsReads()
    ensures a.AsFile() == old(a.AsFile()) && b.AsFile() == old(b.AsFile())
  {
    hide SB.Spares, SB.SafeFrom, SB.Buffer.Valid, Stands, Handle.Valid;
    StandsAlone(a, b);
    NotInFs(a.fs, b);
    ghost var file := b.AsFile();
    ghost var before := a.buf.Look();
    r := a.Sync();
    SB.StaysSafe(b.buf, before, a.buf.Look());
    SB.ReadsKept(before, a.buf.Look());
    StandsValid(a, b, file);
  }

  /** So does closing it, with the array or the spill file going back. */
  method Closes(a: Handle, b: Handle) returns (r: Outcome)
    requires a.Valid() && b.Valid() && Apart(a, b)
    modifies a, a.buf, a.buf.mem, a.buf.pool, a.fs.Repr()
    ensures a.Valid() && b.Valid() && Apart(a, b) && a.fs.KeepsReads()
    ensures b.AsFile() == old(b.AsFile())
  {
    hide SB.Spares, SB.SafeFrom, SB.Buffer.Valid, Stands, Handle.Valid;
    StandsAlone(a, b);
    NotInFs(a.fs, b);
    ghost var file := b.AsFile();
    ghost var before := a.buf.Look();
    r := a.Close();
    SB.StaysSafe(b.buf, before, a.buf.Look());
    SB.ReadsKept(before, a.buf.Look());
    StandsValid(a, b, file);
  }

  /** Or the last reader of one that is closed. */
  method ReaderCloses(reader: Reader, b: Handle) returns (r: Outcome)
    requires reader.Valid() && b.Valid() && Apart(reader.wf, b)
    modifies reader, reader.wf, reader.wf.buf, reader.wf.buf.mem, reader.wf.buf.pool, reader.wf.fs.disk
    ensures reader.Valid() && b.Valid() && Apart(reader.wf, b) && b.fs.KeepsReads()
    ensures b.AsFile() == old(b.AsFile())
  {
    hide SB.Spares, SB.SafeFrom, SB.Buffer.Valid, Stands, Handle.Valid;
    StandsAlone(reader.wf, b);
    NotInFs(b.fs, b);
    ReaderElsewhere(reader, b);
    ghost var file := b.AsFile();
    ghost var before := reader.wf.buf.Look();
    r := reader.Close();
    SB.StaysSafe(b.buf, before, reader.wf.buf.Look());
    SB.ReadsKept(before, reader.wf.buf.Look());
    StandsValid(reader.wf, b, file);
  }

  lemma ReaderElsewhere(reader: Reader, b: Handle)
    requires b.Valid() && reader.wf != b
    ensures reader !in b.readers
  {
  }

  /** And a handle opened beside it shares nothing with it. */
  method Opens(b: Handle, name: string, mode: Mode, meta: Meta, body: Option<Body>, dirty: bool) returns (a: Handle)
    requires b.Valid()
    requires !dirty ==> body.Some? && Key(b.fs.prefix, name) in b.fs.client.objects
                        && b.fs.client.objects[Key(b.fs.prefix, name)].body == body.value
    modifies b.buf.pool, b.fs.disk
    ensures fresh(a) && a.Valid() && b.Valid() && Apart(a, b) && b.fs.KeepsReads()
    ensures a.AsFile() == Plain(if body.Some? then body.value else [], 0, false)
    ensures b.AsFile() == old(b.AsFile())
  {
    hide SB.Spares, SB.SafeFrom, Stands;
    StandsThere(b);
    ghost var file := b.AsFile();
    ghost var before := SB.Outside(b.fs, b.buf.pool);
    a := new Handle(b.fs, b.buf.pool, name, mode, meta, body, dirty);
    SB.StaysSafe(b.buf, before, a.buf.Look());
    SB.ReadsKept(before, a.buf.Look());
    StandsValid(a, b, file);
  }

  /** Operations on files that are not open for writing leave those that are alone, and
      what is open for reading too. */
  method OpensToRead(b: Handle, p: string) returns (r: FS.OpenReply)
    requires b.Valid()
    modifies b.fs.Repr()
    ensures b.Valid() && b.AsFile() == old(b.AsFile()) && b.fs.KeepsReads()
    ensures b.fs.client.objects == old(b.fs.client.objects)
    ensures r.OpenFailed? || b.fs.OpenVerdict(Links.Follow(b.fs.Hops(), CleanPath(p), 0), r)
  {
    hide SB.Spares, SB.SafeFrom, Stands, Handle.Valid, SB.Buffer.Valid, SB.Buffer.Content, MB.DataPool.Valid;
    hide FS.FileSystem.Valid, FS.FileSystem.OpenVerdict;
    StandsThere(b);
    NotInFs(b.fs, b);
    ghost var file := b.AsFile();
    ghost var before := SB.Outside(b.fs, b.buf.pool);
    r := b.fs.OpenForRead(p);
    FilesAlone(before, SB.Outside(b.fs, b.buf.pool));
    StandsStill(b, file, before);
  }

  method Renames(b: Handle, p: string, q: string) returns (r: FS.RenameReply)
    requires b.Valid()
    modifies b.fs.Repr()
    ensures b.Valid() && b.AsFile() == old(b.AsFile()) && b.fs.KeepsReads()
    ensures b.fs.RenameEffect(old(b.fs.client.objects), CleanPath(p), CleanPath(q), r)
    ensures r.RequestFailed? || b.fs.RenameVerdict(old(b.fs.client.objects), CleanPath(p), CleanPath(q), r)
  {
    hide SB.Spares, SB.SafeFrom, Stands, Handle.Valid, SB.Buffer.Valid, SB.Buffer.Content, MB.DataPool.Valid;
    hide FS.FileSystem.Valid, FS.FileSystem.RenameEffect, FS.FileSystem.RenameVerdict;
    StandsThere(b);
    NotInFs(b.fs, b);
    ghost var file := b.AsFile();
    ghost var before := SB.Outside(b.fs, b.buf.pool);
    r := b.fs.Rename(p, q);
    FilesAlone(before, SB.Outside(b.fs, b.buf.pool));
    StandsStill(b, file, before);
  }

  lemma FilesAlone(a: SB.Sight, b: SB.Sight)
    requires a.disk.Some? == b.disk.Some? && a.mine == b.mine == {} && a.live == b.live && a.mem == b.mem == null
    requires a.disk.Some? ==> DC.FilesSpared(a.disk.value, b.disk.value, {})
    ensures SB.Spares(a, b)
  {
  }

  lemma StandsStill(b: Handle, file: Plain, before: SB.Sight)
    requires b.fs.Valid() && b.buf.pool.Valid() && Stands(b, file)
    requires SB.SafeFrom(b.buf, before) && SB.Spares(before, SB.Outside(b.fs, b.buf.pool))
    ensures b.Valid() && b.AsFile() == file
  {
    SB.StaysSafe(b.buf, before, SB.Outside(b.fs, b.buf.pool));
  }

  lemma StandsThere(b: Handle)
    requires b.Valid()
    ensures b.buf.fs == b.fs && b.fs.Valid() && b.buf.pool.Valid()
    ensures Stands(b, b.AsFile()) && SB.SafeFrom(b.buf, SB.Outside(b.fs, b.buf.pool))
  {
  }
}
