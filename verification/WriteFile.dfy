/** The handle of a file opened for writing, and the read handles that share its
    live buffer (file_write.go). */
module WriteFile {
  import opened Common
  import opened Bucket
  import opened ByteFile
  import opened Paths
  import SB = SpillBuf
  import MB = MemBuf
  import FS = S3Fs

  /** How a shared read handle is open. */
  const READ_ONLY := Mode(true, false)

  /** How Sync and Close end. */
  datatype Outcome = Succeeded | WasClosed | UploadFailed

  /** newMemBuf, and maybeSpillLocked on it. */
  method NewBuffer(fs: FS.FileSystem, pool: MB.DataPool, body: Option<Body>) returns (b: SB.Buffer)
    requires fs.Valid() && pool.Valid()
    modifies pool, fs.disk
    ensures b.Valid() && !b.finished && !b.gone && b.fs == fs && b.pool == pool
    ensures Sound(b.Content()) && b.Content().bytes == if body.Some? then body.value else []
    ensures fresh(b) && (b.mem != null ==> fresh(b.mem))
    ensures SB.Spares(old(SB.Outside(fs, pool)), b.Look())
    ensures b.mem != null && body.Some? && fs.Threshold().Some? && |body.value| > fs.Threshold().value ==>
              fs.DiskFailures() > old(fs.DiskFailures())
  {
    hide SB.Buffer.Valid, SB.Spares, SB.Buffer.Content;
    b := new SB.Buffer(fs, pool, body);
    ghost var mid := b.Look();
    var n := b.Length();
    ghost var _ := b.MaybeSpill(n);
    SB.SparesAgain(old(SB.Outside(fs, pool)), mid, b.Look());
  }

  class Handle {
    const fs: FS.FileSystem
    const buf: SB.Buffer
    const name: string
    const mode: Mode
    const meta: Meta
    var pos: nat
    var dirty: bool
    var closed: bool
    var shared: nat
    var spillETag: string
    ghost var readers: set<Reader>
    ghost var destroyed: nat        // how often the buffer was destroyed
    ghost var stored: Body          // what this handle last loaded or uploaded

    /** The object of this name has this body. */
    ghost predicate InBucket(body: Body)
      reads fs.client
    {
      Key(fs.prefix, name) in fs.client.objects && fs.client.objects[Key(fs.prefix, name)].body == body
    }

    ghost function View(): Writer
      reads this, buf, buf.mem, if buf.mem == null then {} else {buf.mem.data}
    {
      Writer(buf.Content(), pos, dirty, closed)
    }

    /** The handle as a plain file. */
    ghost function AsFile(): Plain
      reads this, buf, buf.mem, if buf.mem == null then {} else {buf.mem.data}
    {
      Plain(buf.Content().bytes, pos, closed)
    }

    /** A buffer that is not dirty is what was loaded or uploaded last, and what its
        ETag says. */
    ghost predicate Synced()
      reads this, buf, buf.mem, if buf.mem == null then {} else {buf.mem.data}
    {
      !dirty && !buf.gone ==>
        && stored == buf.Content().bytes && Sound(buf.Content())
        && (buf.spill.Some? && spillETag != "" ==> spillETag == ETagOf(stored))
    }

    ghost predicate Open()
      reads this, readers
    {
      shared == |readers| && forall r :: r in readers ==> r.wf == this && !r.closed
    }

    /** `shared` counts the open readers.  The buffer is destroyed exactly once,
        when the writer and all of them are closed, and lives until then. */
    ghost predicate Counted()
      reads this, buf, readers
    {
      && Open()
      && destroyed == (if closed && shared == 0 then 1 else 0)
      && (buf.gone <==> destroyed == 1) && (buf.finished <==> closed)
    }

    ghost predicate Valid()
      reads this, readers, buf, buf.mem, if buf.mem == null then {} else {buf.mem.data}
      reads buf.pool, buf.pool.live, buf.fs, buf.fs.Repr()
    {
      buf.fs == fs && buf.Valid() && Synced() && Counted()
    }

    /** newWriteFile.  A handle that does not start dirty starts with the stored
        body. */
    constructor (fs: FS.FileSystem, pool: MB.DataPool, name: string, mode: Mode, meta: Meta,
                 body: Option<Body>, dirty: bool)
      requires fs.Valid() && pool.Valid()
      requires !dirty ==> body.Some? && Key(fs.prefix, name) in fs.client.objects
                          && fs.client.objects[Key(fs.prefix, name)].body == body.value
      modifies pool, fs.disk
      ensures !dirty ==> InBucket(stored)
      ensures Valid() && this.fs == fs && this.name == name && this.mode == mode && this.meta == meta
      ensures Refines(View(), Plain(if body.Some? then body.value else [], 0, false))
      ensures this.dirty == dirty && readers == {}
      ensures buf.pool == pool && fresh(buf) && (buf.mem != null ==> fresh(buf.mem))
      ensures SB.Spares(old(SB.Outside(fs, pool)), buf.Look())
    {
      hide SB.Buffer.Valid, SB.Spares, SB.Buffer.Content, SB.Buffer.Look, SB.Outside;
      hide FS.FileSystem.Valid, FS.FileSystem.Threshold, FS.FileSystem.DiskFailures, MB.DataPool.Valid;
      var b := NewBuffer(fs, pool, body);
      this.fs, this.name, this.mode, this.meta, buf := fs, name, mode, meta, b;
      pos, this.dirty, closed, shared, spillETag := 0, dirty, false, 0, "";
      readers, destroyed, stored := {}, 0, if body.Some? then body.value else [];
      new;
      Apart();
      assert readers == {} && shared == 0;
      assert Open();
      assert buf.Valid() && Synced() && Counted();
    }

    /** The buffer depends on nothing of the handle itself. */
    lemma Apart()
      ensures this as object !in buf.fs.Repr() && buf.mem as object? != this
      ensures forall b :: b in buf.pool.live ==> b as object != this
      ensures forall r :: r in readers ==> r as object !in buf.fs.Repr()
    {
    }

    method MarkDirty()
      requires buf.fs == fs && buf.Valid() && Counted()
      modifies this`dirty
      ensures buf.Look() == old(buf.Look())
      ensures Valid() && dirty && buf.Content() == old(buf.Content())
    {
      hide SB.Buffer.Valid;
      Apart();
      dirty := true;
    }

    method MoveTo(to: nat)
      requires Valid()
      modifies this`pos
      ensures buf.Look() == old(buf.Look())
      ensures Valid() && pos == to && buf.Content() == old(buf.Content())
    {
      hide SB.Buffer.Valid;
      Apart();
      pos := to;
    }

    /** The handle is a plain file: the size its buffer records is the real one. */
    ghost predicate IsPlain()
      reads this, buf, buf.mem, if buf.mem == null then {} else {buf.mem.data}
    {
      Sound(buf.Content())
    }

    /** A plain file answers as one, and stays one but for the one write that can be
        told before (ByteFile.AnswersPlainly, Allowed). */
    twostate predicate Answers(op: Op, a: Answer)
      reads this, buf, buf.mem, if buf.mem == null then {} else {buf.mem.data}
    {
      && AnswersPlainly(mode, old(View()), View(), op, a)
      && (Allowed(mode, fs.Threshold(), old(View()), op) ==> IsPlain())
    }

    // ------------------------------------------------------------ operations

    /** writeFile.writeAt. */
    method WriteLocked(p: Body, off: nat) returns (ghost spills: bool)
      requires Valid() && !closed
      modifies this`dirty, buf.Footprint()
      ensures buf.OthersKept()
      ensures Valid() && dirty
      ensures buf.Content() == BufWrite(MaybeSpill(old(buf.Content()), off + |p|, fs.Threshold(), spills), p, off)
    {
      hide SB.Buffer.Valid, SB.Spares, SB.Buffer.Content, MaybeSpill, BufWrite;
      spills := buf.WriteAt(p, off);
      MarkDirty();
    }

    /** Write on an open handle. */
    method Advance(p: Body) returns (ghost spills: bool)
      requires Valid() && !closed
      modifies this`pos, this`dirty, buf.Footprint()
      ensures buf.OthersKept()
      ensures Valid() && (View(), Wrote(|p|)) == WriterStep(mode, fs.Threshold(), old(View()), Op.Write(p), spills)
    {
      hide SB.Buffer.Valid, SB.Spares, SB.Buffer.Content, BufWrite, MaybeSpill;
      var at := if mode.appends then buf.Length() else pos;
      spills := WriteLocked(p, at);
      MoveTo(at + |p|);
    }

    method Write(p: Body) returns (a: Answer, ghost spills: bool)
      requires Valid()
      modifies this`pos, this`dirty, buf.Footprint()
      ensures buf.OthersKept()
      ensures Valid() && (View(), a) == WriterStep(mode, fs.Threshold(), old(View()), Op.Write(p), spills)
      ensures Answers(Op.Write(p), a)
    {
      hide SB.Buffer.Valid, SB.Buffer.Content, AnswersPlainly;
      StepIsExact(mode, fs.Threshold(), View(), Op.Write(p), false);
      spills := false;
      if closed {
        return Closed, false;
      }
      spills := Advance(p);
      a := Wrote(|p|);
      StepIsExact(mode, fs.Threshold(), old(View()), Op.Write(p), spills);
    }

    method WriteAt(p: Body, off: int) returns (a: Answer, ghost spills: bool)
      requires Valid()
      modifies this`dirty, buf.Footprint()
      ensures buf.OthersKept()
      ensures Valid() && (View(), a) == WriterStep(mode, fs.Threshold(), old(View()), Op.WriteAt(p, off), spills)
      ensures Answers(Op.WriteAt(p, off), a)
    {
      hide SB.Buffer.Valid, SB.Buffer.Content, AnswersPlainly;
      StepIsExact(mode, fs.Threshold(), View(), Op.WriteAt(p, off), false);
      spills := false;
      if closed {
        return Closed, false;
      }
      if off < 0 {
        return InvalidArgument, false;
      }
      spills := WriteLocked(p, off);
      a := Wrote(|p|);
      StepIsExact(mode, fs.Threshold(), old(View()), Op.WriteAt(p, off), spills);
    }

    method TruncateLocked(size: nat) returns (ghost spills: bool)
      requires Valid() && !closed
      modifies this`dirty, buf.Footprint()
      ensures buf.OthersKept()
      ensures Valid() && dirty
      ensures buf.Content() == BufTruncate(MaybeSpill(old(buf.Content()), size, fs.Threshold(), spills), size)
    {
      hide SB.Buffer.Valid, SB.Spares, SB.Buffer.Content, MaybeSpill, BufTruncate;
      spills := buf.Truncate(size);
      MarkDirty();
    }

    method Truncate(size: int) returns (a: Answer, ghost spills: bool)
      requires Valid()
      modifies this`dirty, buf.Footprint()
      ensures buf.OthersKept()
      ensures Valid() && (View(), a) == WriterStep(mode, fs.Threshold(), old(View()), Op.Truncate(size), spills)
      ensures Answers(Op.Truncate(size), a)
    {
      hide SB.Buffer.Valid, SB.Buffer.Content, AnswersPlainly;
      StepIsExact(mode, fs.Threshold(), View(), Op.Truncate(size), false);
      spills := false;
      if closed {
        return Closed, false;
      }
      if size < 0 {
        return InvalidArgument, false;
      }
      spills := TruncateLocked(size);
      a := Done;
      StepIsExact(mode, fs.Threshold(), old(View()), Op.Truncate(size), spills);
    }

    method Read(want: nat) returns (a: Answer)
      requires Valid()
      modifies this`pos
      ensures buf.Look() == old(buf.Look())
      ensures Valid() && (View(), a) == WriterStep(mode, fs.Threshold(), old(View()), Op.Read(want), false)
      ensures Answers(Op.Read(want), a)
    {
      hide AnswersPlainly, SB.Buffer.Valid, SB.Buffer.Content;
      StepIsExact(mode, fs.Threshold(), View(), Op.Read(want), false);
      if closed {
        return Closed;
      }
      if !mode.readable {
        return Permission;
      }
      var n := buf.Length();
      if pos >= n {
        return Data([], true);
      }
      var got, eof := buf.ReadAt(want, pos);
      MoveTo(pos + |got|);
      return Data(got, eof && got == []);
    }

    method ReadAt(want: nat, off: int) returns (a: Answer)
      requires Valid()
      ensures Valid() && (View(), a) == WriterStep(mode, fs.Threshold(), View(), Op.ReadAt(want, off), false)
      ensures Answers(Op.ReadAt(want, off), a)
    {
      hide AnswersPlainly, SB.Buffer.Valid, SB.Buffer.Content;
      StepIsExact(mode, fs.Threshold(), View(), Op.ReadAt(want, off), false);
      if closed {
        return Closed;
      }
      if !mode.readable {
        return Permission;
      }
      if off < 0 {
        return InvalidArgument;
      }
      var n := buf.Length();
      if off >= n {
        return Data([], true);
      }
      var got, eof := buf.ReadAt(want, off);
      return Data(got, eof);
    }

    method Seek(offset: int, whence: int) returns (a: Answer)
      requires Valid()
      modifies this`pos
      ensures buf.Look() == old(buf.Look())
      ensures Valid() && (View(), a) == WriterStep(mode, fs.Threshold(), old(View()), Op.Seek(offset, whence), false)
      ensures Answers(Op.Seek(offset, whence), a)
      ensures closed ==> a == Closed && pos == old(pos)
      ensures !closed && whence == 0 ==>
                if offset >= 0 then a == Position(offset) && pos == offset else a == InvalidArgument && pos == old(pos)
      ensures !closed && whence == 1 ==>
                var to := old(pos) + offset;
                if to >= 0 then a == Position(to) && pos == to else a == InvalidArgument && pos == old(pos)
      ensures !closed && whence == 2 ==>
                var to := Len(buf.Content()) + offset;
                if to >= 0 then a == Position(to) && pos == to else a == InvalidArgument && pos == old(pos)
      ensures !closed && (whence < 0 || whence > 2) ==> a == InvalidArgument && pos == old(pos)
    {
      hide AnswersPlainly, SB.Buffer.Valid, SB.Buffer.Content;
      StepIsExact(mode, fs.Threshold(), View(), Op.Seek(offset, whence), false);
      if closed {
        return Closed;
      }
      var n := buf.Length();
      var abs := SeekPos(pos, n, offset, whence);
      if abs.None? {
        return InvalidArgument;
      }
      MoveTo(abs.value);
      return Position(abs.value);
    }

    /** Any operation. */
    method Perform(op: Op) returns (a: Answer, ghost spills: bool)
      requires Valid()
      modifies this`pos, this`dirty, buf.Footprint()
      ensures Valid() && buf.OthersKept()
      ensures (View(), a) == WriterStep(mode, fs.Threshold(), old(View()), op, spills)
      ensures Answers(op, a)
    {
      hide Valid, SB.Buffer.Valid, SB.Spares, SB.Buffer.Content, WriterStep, AnswersPlainly, Allowed;
      SB.SparesItself(buf.Look());
      spills := false;
      match op {
        case Read(want) => a := Read(want);
        case ReadAt(want, at) => a := ReadAt(want, at);
        case Write(p) => a, spills := Write(p);
        case WriteAt(p, at) => a, spills := WriteAt(p, at);
        case Seek(offset, whence) => a := Seek(offset, whence);
        case Truncate(size) => a, spills := Truncate(size);
      }
    }

    /** What flush records after a successful upload. */
    method Uploaded(etag: string)
      requires Valid() && !closed && IsPlain() && (buf.spill.Some? ==> etag == ETagOf(buf.Content().bytes))
      modifies this`dirty, this`spillETag, this`stored
      ensures buf.Look() == old(buf.Look())
      ensures Valid() && !dirty && buf.Content() == old(buf.Content())
      ensures buf.spill.Some? ==> spillETag == etag
    {
      hide SB.Buffer.Valid;
      ghost var content := buf.Content();
      Apart();
      if buf.spill.Some? {
        spillETag := etag;
      }
      stored, dirty := content.bytes, false;
      assert buf.Valid() && buf.Content() == content;
    }

    /** flush: after success the buffer is what is stored.  A buffer whose size runs
        ahead of its file is never uploaded. */
    method Flush() returns (ok: bool)
      requires Valid() && !closed
      modifies this`dirty, this`spillETag, this`stored, fs.Repr()
      ensures ok ==> stored == buf.Content().bytes && IsPlain()
      ensures ok && old(dirty) && buf.spill.Some? ==> spillETag == ETagOf(buf.Content().bytes)
      ensures ok && (old(dirty) || old(InBucket(stored))) ==> InBucket(stored)
      ensures buf.OthersKept()
      ensures fs.Excused(!ok)
      ensures Valid() && dirty == (old(dirty) && !ok) && (ok || old(dirty)) && buf.Content() == old(buf.Content())
      ensures fs.client.objects ==
              if ok && old(dirty) then old(fs.client.objects)[Key(fs.prefix, name) := Object(buf.Content().bytes, meta)]
              else old(fs.client.objects)
    {
      hide SB.Buffer.Valid, SB.Spares;
      SB.SparesItself(buf.Look());
      if !dirty {
        return true;
      }
      Apart();
      var etag;
      ok, etag := buf.Upload(Key(fs.prefix, name), meta);
      assert Synced() && Counted();
      if ok {
        Uploaded(etag);
      }
    }

    method Sync() returns (r: Outcome)
      requires Valid()
      modifies this`dirty, this`spillETag, this`stored, fs.Repr()
      ensures buf.OthersKept()
      ensures fs.Excused(r == UploadFailed)
      ensures Valid() && buf.Content() == old(buf.Content())
      ensures (r == WasClosed <==> closed) && (r == Succeeded ==> !dirty && stored == buf.Content().bytes && IsPlain())
      ensures r == Succeeded && (old(dirty) || old(InBucket(stored))) ==> InBucket(buf.Content().bytes)
      ensures fs.client.objects ==
              if r == Succeeded && old(dirty)
              then old(fs.client.objects)[Key(fs.prefix, name) := Object(buf.Content().bytes, meta)]
              else old(fs.client.objects)
    {
      hide SB.Buffer.Valid, SB.Spares, SB.Buffer.Content;
      SB.SparesItself(buf.Look());
      if closed {
        return WasClosed;
      }
      var ok := Flush();
      return if ok then Succeeded else UploadFailed;
    }

    /** Close: a successful one leaves the stored object equal to the buffer. */
    method Close() returns (r: Outcome)
      requires Valid()
      modifies this, buf, buf.mem, buf.pool, fs.Repr()
      ensures buf.OthersKept()
      ensures fs.Excused(r == UploadFailed)
      ensures Valid() && (r == WasClosed <==> old(closed)) && (r == Succeeded ==> closed && !dirty)
      ensures fs.client.objects ==
              if r == Succeeded && old(dirty)
              then old(fs.client.objects)[Key(fs.prefix, name) := Object(old(buf.Content().bytes), meta)]
              else old(fs.client.objects)
      ensures r == Succeeded ==> stored == old(buf.Content().bytes) && old(IsPlain())
      ensures r == Succeeded && (old(dirty) || old(InBucket(stored))) ==> InBucket(old(buf.Content().bytes))
      ensures shared == old(shared) && readers == old(readers)
      ensures r == Succeeded && shared > 0 ==> buf.Content() == old(buf.Content()) && !buf.gone
      ensures r == UploadFailed ==> !closed && dirty && buf.Content() == old(buf.Content())
    {
      hide Valid, SB.Buffer.Valid, SB.Spares, SB.Buffer.Content;
      Apart();
      SB.SparesItself(buf.Look());
      if closed {
        return WasClosed;
      }
      var ok := CloseOpen();
      return if ok then Succeeded else UploadFailed;
    }

    method CloseOpen() returns (ok: bool)
      requires Valid() && !closed
      modifies this`dirty, this`spillETag, this`stored, this`closed, this`destroyed, buf, buf.mem, buf.pool, fs.Repr()
      ensures Valid() && buf.OthersKept() && fs.Excused(!ok) && closed == ok && (ok ==> !dirty)
      ensures fs.client.objects ==
              if ok && old(dirty)
              then old(fs.client.objects)[Key(fs.prefix, name) := Object(old(buf.Content().bytes), meta)]
              else old(fs.client.objects)
      ensures ok ==> stored == old(buf.Content().bytes) && old(IsPlain())
      ensures ok && (old(dirty) || old(InBucket(stored))) ==> InBucket(old(buf.Content().bytes))
      ensures !ok || shared > 0 ==> buf.Content() == old(buf.Content()) && !buf.gone
      ensures !ok ==> dirty
      ensures shared == old(shared) && readers == old(readers)
    {
      hide SB.Buffer.Valid, SB.Spares, SB.Buffer.Content;
      ghost var content := buf.Content();
      Apart();
      ok := Flush();
      if ok {
        ghost var now := stored;
        assert now == content.bytes && Sound(content) && !dirty;
        ghost var mid := buf.Look();
        assert SB.Spares(old(buf.Look()), mid) && fs.Excused(false) && buf.mem == old(buf.mem);
        Apart();
        Conclude();
        assert stored == now;
        SB.SparesAgain(old(buf.Look()), mid, buf.Look());
      }
    }

    /** Close, once flushed. */
    method Conclude()
      requires Valid() && !closed && !dirty
      modifies this`closed, this`destroyed, buf, buf.mem, buf.pool, fs.Repr()
      ensures buf.OthersKept()
      ensures fs.Excused(false)
      ensures Valid() && closed && fs.client.objects == old(fs.client.objects)
      ensures dirty == old(dirty) && stored == old(stored) && shared == old(shared) && readers == old(readers)
      ensures shared > 0 ==> buf.Content() == old(buf.Content()) && !buf.gone
    {
      hide SB.Buffer.Valid, SB.Spares;
      Apart();
      Finish();
      ghost var mid := buf.Look();
      assert SB.Spares(old(buf.Look()), mid);
      assert buf.mem == old(buf.mem) && (fs.disk == null || fs.disk in fs.Repr());
      MaybeDestroy();
      SB.SparesAgain(old(buf.Look()), mid, buf.Look());
    }

    method Finish()
      requires Valid() && !closed && !dirty
      modifies this`closed, buf`finished, fs.Repr()
      ensures buf.OthersKept()
      ensures fs.Excused(false)
      ensures Undecided() && closed && buf.Content() == old(buf.Content())
      ensures fs.client.objects == old(fs.client.objects)
      ensures dirty == old(dirty) && stored == old(stored) && shared == old(shared) && readers == old(readers)
      ensures buf.spill.Some? && spillETag != "" ==>
                fs.Adopted(Key(fs.prefix, name), spillETag, buf.sz, buf.spill.value.path)
    {
      hide SB.Buffer.Valid, SB.Spares;
      Apart();
      buf.Finish(Key(fs.prefix, name), spillETag);
      assert Synced() && Open();
      ghost var mid := buf.Look();
      assert SB.Spares(old(buf.Look()), mid);
      MarkClosed();
      assert buf.Look() == mid;
    }

    method MarkClosed()
      requires buf.fs == fs && buf.Valid() && Synced() && Open() && destroyed == 0 && buf.finished && !buf.gone
      modifies this`closed
      ensures buf.Look() == old(buf.Look())
      ensures Undecided() && closed && buf.Content() == old(buf.Content())
    {
      hide SB.Buffer.Valid;
      Apart();
      closed := true;
    }

    /** Valid, but for a buffer whose time has come. */
    ghost predicate Undecided()
      reads this, readers, buf, buf.mem, if buf.mem == null then {} else {buf.mem.data}
      reads buf.pool, buf.pool.live, buf.fs, buf.fs.Repr()
    {
      && buf.fs == fs && buf.Valid() && Synced() && Open()
      && destroyed == 0 && !buf.gone && (buf.finished <==> closed)
    }

    /** maybeDestroyLocked. */
    method MaybeDestroy()
      requires Undecided()
      modifies this`destroyed, buf, buf.mem, buf.pool, fs.disk
      ensures buf.OthersKept()
      ensures Valid()
      ensures shared > 0 || !closed ==> buf.Content() == old(buf.Content()) && !buf.gone
    {
      hide SB.Buffer.Valid, SB.Spares;
      SB.SparesItself(buf.Look());
      if closed && shared == 0 {
        buf.Destroy();
        Apart();
        destroyed := destroyed + 1;
      }
    }

    /** readAtShared: from the live buffer, whatever the handle's mode or state. */
    method ReadAtShared(want: nat, off: nat) returns (got: Body, eof: bool)
      requires Valid()
      ensures Valid() && (got, eof) == BufRead(buf.Content(), want, off)
    {
      hide SB.Buffer.Valid, SB.Buffer.Content;
      got, eof := buf.ReadAt(want, off);
    }

    /** newSharedReadFile; None when the writer already closed. */
    method Share() returns (r: Reader?)
      requires Valid()
      modifies this`shared, this`readers
      ensures buf.Look() == old(buf.Look())
      ensures Valid() && buf.Content() == old(buf.Content())
      ensures r == null <==> closed
      ensures r != null ==> fresh(r) && readers == old(readers) + {r} && r.pos == 0 && shared == old(shared) + 1
    {
      if closed {
        return null;
      }
      r := new Reader(this);
      Attach(r);
    }

    method Attach(r: Reader)
      requires Valid() && !closed && r.wf == this && !r.closed && r !in readers
      modifies this`shared, this`readers
      ensures buf.Look() == old(buf.Look())
      ensures Valid() && buf.Content() == old(buf.Content())
      ensures readers == old(readers) + {r} && shared == old(shared) + 1
    {
      hide SB.Buffer.Valid;
      Apart();
      ghost var content := buf.Content();
      shared, readers := shared + 1, readers + {r};
      assert buf.Valid() && buf.Content() == content;
    }
  }

  /** sharedReadFile. */
  class Reader {
    const wf: Handle
    var pos: nat
    var closed: bool

    constructor (wf: Handle)
      ensures this.wf == wf && pos == 0 && !closed
    {
      this.wf, pos, closed := wf, 0, false;
    }

    /** An open reader of a living handle. */
    ghost predicate Valid()
      reads this, wf, wf.readers, wf.buf, wf.buf.mem, if wf.buf.mem == null then {} else {wf.buf.mem.data}
      reads wf.buf.pool, wf.buf.pool.live, wf.buf.fs, wf.buf.fs.Repr()
    {
      wf.Valid() && (closed || this in wf.readers)
    }

    /** The reader as a file of its own over the live buffer, which it never writes. */
    ghost function View(): Writer
      reads this, wf, wf.buf, wf.buf.mem, if wf.buf.mem == null then {} else {wf.buf.mem.data}
    {
      Writer(wf.buf.Content(), pos, false, closed)
    }

    /** The buffer depends on nothing of the reader itself. */
    lemma Apart()
      ensures this as object !in wf.buf.fs.Repr() && wf.buf.mem as object? != this
      ensures forall b :: b in wf.buf.pool.live ==> b as object != this
    {
    }

    method MoveTo(to: nat)
      requires Valid()
      modifies this`pos
      ensures Valid() && View() == old(View()).(pos := to)
    {
      hide SB.Buffer.Valid;
      Apart();
      pos := to;
    }

    /** Reads the live buffer, which an open reader always still finds. */
    method Read(want: nat) returns (a: Answer)
      requires Valid()
      modifies this`pos
      ensures Valid()
      ensures (View(), a) == WriterStep(READ_ONLY, None, old(View()), Op.Read(want), false)
      ensures AnswersPlainly(READ_ONLY, old(View()), View(), Op.Read(want), a)
      ensures !closed ==> !wf.buf.gone
    {
      hide AnswersPlainly, SB.Buffer.Valid, SB.Buffer.Content;
      StepIsExact(READ_ONLY, None, View(), Op.Read(want), false);
      if closed {
        return Closed;
      }
      ghost var content := wf.buf.Content();
      var got, eof := wf.ReadAtShared(want, pos);
      MoveTo(pos + |got|);
      assert wf.buf.Content() == content;
      return Data(got, eof && got == []);
    }

    method ReadAt(want: nat, off: int) returns (a: Answer)
      requires Valid()
      ensures (View(), a) == WriterStep(READ_ONLY, None, View(), Op.ReadAt(want, off), false)
      ensures AnswersPlainly(READ_ONLY, View(), View(), Op.ReadAt(want, off), a)
    {
      hide AnswersPlainly, SB.Buffer.Valid, SB.Buffer.Content;
      StepIsExact(READ_ONLY, None, View(), Op.ReadAt(want, off), false);
      if closed {
        return Closed;
      }
      if off < 0 {
        return InvalidArgument;
      }
      var got, eof := wf.ReadAtShared(want, off);
      return Data(got, eof);
    }

    method Seek(offset: int, whence: int) returns (a: Answer)
      requires Valid()
      modifies this`pos
      ensures Valid()
      ensures (View(), a) == WriterStep(READ_ONLY, None, old(View()), Op.Seek(offset, whence), false)
      ensures AnswersPlainly(READ_ONLY, old(View()), View(), Op.Seek(offset, whence), a)
      ensures closed ==> a == Closed && pos == old(pos)
      ensures !closed && whence == 0 ==>
                if offset >= 0 then a == Position(offset) && pos == offset else a == InvalidArgument && pos == old(pos)
      ensures !closed && whence == 1 ==>
                var to := old(pos) + offset;
                if to >= 0 then a == Position(to) && pos == to else a == InvalidArgument && pos == old(pos)
      ensures !closed && whence == 2 ==>
                var to := Len(wf.buf.Content()) + offset;
                if to >= 0 then a == Position(to) && pos == to else a == InvalidArgument && pos == old(pos)
      ensures !closed && (whence < 0 || whence > 2) ==> a == InvalidArgument && pos == old(pos)
    {
      hide AnswersPlainly, SB.Buffer.Valid, SB.Buffer.Content;
      StepIsExact(READ_ONLY, None, View(), Op.Seek(offset, whence), false);
      if closed {
        return Closed;
      }
      var abs := SeekPos(pos, wf.buf.Length(), offset, whence);
      if abs.None? {
        return InvalidArgument;
      }
      MoveTo(abs.value);
      return Position(abs.value);
    }

    /** The last reader to close after the writer destroys the buffer. */
    method Close() returns (r: Outcome)
      requires Valid()
      modifies this, wf, wf.buf, wf.buf.mem, wf.buf.pool, wf.fs.disk
      ensures wf.buf.OthersKept()
      ensures Valid() && (r == WasClosed <==> old(closed)) && closed
      ensures !old(closed) ==> wf.readers == old(wf.readers) - {this}
      ensures wf.shared > 0 || !wf.closed ==> wf.buf.Content() == old(wf.buf.Content())
    {
      hide SB.Buffer.Valid;
      if closed {
        return WasClosed;
      }
      Leave();
      wf.MaybeDestroy();
      return Succeeded;
    }

    method Leave()
      requires Valid() && !closed
      modifies this`closed, wf`shared, wf`readers
      ensures wf.buf.Look() == old(wf.buf.Look())
      ensures wf.Undecided() && closed && wf.readers == old(wf.readers) - {this}
      ensures wf.buf.Content() == old(wf.buf.Content())
    {
      hide SB.Buffer.Valid;
      wf.Apart();
      Apart();
      ghost var content := wf.buf.Content();
      closed := true;
      wf.shared, wf.readers := wf.shared - 1, wf.readers - {this};
      assert wf.buf.Valid() && wf.buf.Content() == content;
    }
  }
}
