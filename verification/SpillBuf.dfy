/** The buffer of a file opened for writing (writeBuf of file_write.go, with
    maybeSpillLocked): a pooled array until it outgrows the threshold, and from
    then on a spill file of the disk cache.

    Every operation is specified by its effect on a ByteFile.Buf.  Local disk
    writes do not fail once the spill file exists.  The size a spilled buffer
    records may run ahead of its file (ByteFile.EmptyWriteIsExact says when). */
module SpillBuf {
  import opened Common
  import opened Bucket
  import opened ByteFile
  import DC = DiskCache
  import MB = MemBuf
  import FS = S3Fs

  /** The disk and the live buffers of the pool, as one of the buffers sees them. */
  datatype Sight = Sight(disk: Option<DC.Disk>, mine: set<DC.Path>, live: set<MB.Buffer>, mem: MB.Buffer?)

  /** Between the two nothing happened to any other buffer. */
  ghost predicate Spares(a: Sight, b: Sight) {
    && a.disk.Some? == b.disk.Some?
    && (a.disk.Some? ==> DC.FilesSpared(a.disk.value, b.disk.value, a.mine))
    && (forall p :: p in b.mine && p !in a.mine ==> a.disk.Some? && DC.NobodysSpill(a.disk.value, p))
    && (forall c :: c in a.live && c != a.mem ==> c in b.live && c != b.mem)
  }

  /** What there is for a buffer that does not exist yet. */
  ghost function Outside(fs: FS.FileSystem, pool: MB.DataPool): Sight
    reads pool, fs.disk, if fs.disk == null then {} else {fs.disk.idx}
  {
    Sight(if fs.disk == null then None else Some(fs.disk.View()), {}, pool.live, null)
  }

  lemma SparesItself(a: Sight)
    ensures Spares(a, a)
  {
  }

  lemma SparesAgain(a: Sight, b: Sight, c: Sight)
    requires Spares(a, b) && Spares(b, c)
    ensures Spares(a, c)
  {
    if a.disk.Some? {
      DC.FilesSparedThrough(a.disk.value, b.disk.value, c.disk.value, a.mine, b.mine);
    }
    forall p | p in c.mine && p !in a.mine
      ensures a.disk.Some? && DC.NobodysSpill(a.disk.value, p)
    {
      if p !in b.mine {
        DC.NobodysBefore(a.disk.value, b.disk.value, a.mine, p);
      }
    }
  }

  class Buffer {
    const fs: FS.FileSystem
    const pool: MB.DataPool
    var mem: MB.Buffer?             // the buffer while it is in memory
    var spill: Option<DC.Spilled>   // the spill file once it is not
    ghost var spilled: Body         // its content
    var sz: nat
    var finished: bool              // the writer has closed
    ghost var gone: bool            // the buffer was destroyed

    ghost function Content(): Buf
      reads this, mem, if mem == null then {} else {mem.data}
    {
      if mem != null then Mem(mem.Bytes()) else if spill.Some? then File(spilled, sz) else Mem([])
    }

    ghost predicate SpillValid()
      reads this, fs.disk, if fs.disk == null then {} else {fs.disk.idx}
    {
      spill.Some? ==>
        && sz >= |spilled|
        && (if finished then fs.SpillFinished(spill.value, spilled) else fs.SpillOpen(spill.value, spilled))
    }

    ghost predicate Valid()
      reads this, mem, pool, pool.live, fs, fs.Repr()
    {
      && fs.Valid() && pool.Valid() && SpillValid()
      && (mem != null ==> spill == None && mem.pool == pool && mem.Valid())
      && (gone <==> mem == null && spill == None)
    }

    /** What a change of the contents may touch. */
    ghost function Footprint(): set<object?>
      reads this, mem
    {
      {this, pool, fs.disk} + if mem == null then {} else {mem, mem.data}
    }

    /** The name of its spill file, if it has one. */
    ghost function MyPath(): set<DC.Path>
      reads this
    {
      if spill.Some? then {spill.value.path} else {}
    }

    /** What this buffer has, and what there is besides. */
    ghost function Look(): Sight
      reads this, pool, fs.disk, if fs.disk == null then {} else {fs.disk.idx}
    {
      Sight(if fs.disk == null then None else Some(fs.disk.View()), MyPath(), pool.live, mem)
    }

    /** No file and no array of any other buffer is touched, and none became this
        buffer's. */
    twostate predicate OthersKept()
      reads this, pool, fs.disk, if fs.disk == null then {} else {fs.disk.idx}
    {
      Spares(old(Look()), Look())
    }

    /** A buffer that reached `end` is in memory only if that is within the threshold,
        or the local disk failed. */
    twostate predicate SpilledAt(end: nat)
      reads this, fs.disk
    {
      mem != null && fs.Threshold().Some? && end > fs.Threshold().value ==> fs.DiskFailures() > old(fs.DiskFailures())
    }

    /** newMemBuf: an empty pooled array, or bytes the buffer alone owns. */
    constructor (fs: FS.FileSystem, pool: MB.DataPool, body: Option<Body>)
      requires fs.Valid() && pool.Valid()
      modifies pool
      ensures Valid() && !finished && !gone && this.fs == fs && this.pool == pool
      ensures mem != null && fresh(mem) && Spares(old(Outside(fs, pool)), Look())
      ensures Content() == Mem(if body.Some? then body.value else [])
    {
      this.fs, this.pool := fs, pool;
      var buf: MB.Buffer;
      if body.None? {
        buf := new MB.Buffer.Pooled(pool);
      } else {
        buf := new MB.Buffer.Owning(pool, body.value);
      }
      mem, spill, sz, spilled, finished, gone := buf, None, 0, [], false, false;
    }

    /** The array goes back to the pool and the spill file takes over. */
    method SwitchTo(s: DC.Spilled, bytes: Body)
      requires Valid() && !finished && mem != null && fs.SpillOpen(s, bytes)
      modifies this, mem, pool
      ensures Valid() && !finished && !gone && mem == null && spill == Some(s) && spilled == bytes && sz == |bytes|
      ensures pool.live == old(pool.live) - {old(mem)}
    {
      mem.Destroy();
      mem := null;
      spill, spilled, sz := Some(s), bytes, |bytes|;
    }

    /** maybeSpillLocked; `spills` tells whether the buffer moved.  The spill file
        may not come about, and then the buffer stays. */
    method MaybeSpill(end: nat) returns (ghost spills: bool)
      requires Valid() && !finished && !gone
      modifies this, mem, pool, fs.disk
      ensures Valid() && !finished && !gone
      ensures Content() == ByteFile.MaybeSpill(old(Content()), end, fs.Threshold(), spills)
      ensures mem != null ==> mem == old(mem) && unchanged(mem)
      ensures OthersKept() && SpilledAt(end)
    {
      hide FS.FileSystem.Valid;
      spills := false;
      var threshold := fs.Threshold();
      if threshold.None? || end <= threshold.value || mem == null {
        return;
      }
      var bytes := mem.data[..mem.len];
      var s := fs.NewSpill(bytes);
      if s.Some? {
        SwitchTo(s.value, bytes);
        spills := true;
      }
    }

    function Length(): (n: nat)
      requires Valid()
      reads this, mem, pool, pool.live, fs, fs.Repr(), if mem == null then {} else {mem.data}
      ensures n == Len(Content())
    {
      if mem != null then mem.len else if spill.Some? then sz else 0
    }

    /** readAt. */
    method ReadAt(want: nat, off: nat) returns (got: Body, eof: bool)
      requires Valid()
      ensures Valid() && (got, eof) == BufRead(Content(), want, off)
    {
      if mem != null {
        got, eof := mem.ReadAt(want, off);
      } else if spill.Some? && off < sz {
        var file := fs.disk.inodes[spill.value.inode];
        got := Slice(file, off, want);
        eof := |got| < want;
      } else {
        got, eof := [], true;
      }
    }

    method SpillWrite(p: Body, off: nat)
      requires Valid() && !finished && spill.Some?
      modifies this`spilled, this`sz, fs.disk
      ensures OthersKept()
      ensures Valid() && Content() == BufWrite(old(Content()), p, off)
      ensures fs.DiskFailures() == old(fs.DiskFailures())
    {
      if p != [] {
        fs.WriteSpill(spill.value, Overwritten(fs.disk.inodes[spill.value.inode], p, off), spilled);
        spilled := Overwritten(spilled, p, off);
      }
      sz := if off + |p| > sz then off + |p| else sz;
    }

    method WriteInPlace(p: Body, off: nat)
      requires Valid() && !finished && !gone
      modifies this`spilled, this`sz, mem, if mem == null then {} else {mem.data}, pool`free, fs.disk
      ensures OthersKept()
      ensures Valid() && mem == old(mem) && Content() == BufWrite(old(Content()), p, off)
      ensures fs.DiskFailures() == old(fs.DiskFailures())
    {
      if mem != null {
        var _ := mem.WriteAt(p, off);
        assert fs.disk != null ==> fs.disk.View() == old(fs.disk.View());
      } else {
        SpillWrite(p, off);
      }
    }

    /** writeFile.writeAt: spills first when the write would outgrow the threshold. */
    method WriteAt(p: Body, off: nat) returns (ghost spills: bool)
      requires Valid() && !finished && !gone
      modifies Footprint()
      ensures OthersKept() && SpilledAt(off + |p|)
      ensures Valid() && !finished && !gone
      ensures Content() == BufWrite(ByteFile.MaybeSpill(old(Content()), off + |p|, fs.Threshold(), spills), p, off)
    {
      hide FS.FileSystem.Valid, MB.Buffer.Valid, MB.DataPool.Valid;
      spills := MaybeSpill(off + |p|);
      ghost var mid := Look();
      WriteInPlace(p, off);
      SparesAgain(old(Look()), mid, Look());
    }

    method TruncateInPlace(size: nat)
      requires Valid() && !finished && !gone
      modifies this`spilled, this`sz, mem, if mem == null then {} else {mem.data}, pool`free, fs.disk
      ensures OthersKept()
      ensures Valid() && mem == old(mem) && Content() == BufTruncate(old(Content()), size)
      ensures fs.DiskFailures() == old(fs.DiskFailures())
    {
      if mem != null {
        mem.Truncate(size);
        assert fs.disk != null ==> fs.disk.View() == old(fs.disk.View());
      } else {
        fs.WriteSpill(spill.value, Resized(fs.disk.inodes[spill.value.inode], size), spilled);
        spilled, sz := Resized(spilled, size), size;
      }
    }

    method Truncate(size: nat) returns (ghost spills: bool)
      requires Valid() && !finished && !gone
      modifies Footprint()
      ensures OthersKept() && SpilledAt(size)
      ensures Valid() && !finished && !gone
      ensures Content() == BufTruncate(ByteFile.MaybeSpill(old(Content()), size, fs.Threshold(), spills), size)
    {
      hide FS.FileSystem.Valid, MB.Buffer.Valid, MB.DataPool.Valid;
      spills := MaybeSpill(size);
      ghost var mid := Look();
      TruncateInPlace(size);
      SparesAgain(old(Look()), mid, Look());
    }

    /** bytes or snapshot: an independent copy of the contents, with zeros where the
        recorded size runs ahead of the file. */
    method Snapshot() returns (body: Body)
      requires Valid()
      ensures body == Extended(Content().bytes, Len(Content()))
    {
      body := if mem != null then mem.data[..mem.len]
              else if spill.Some? then Extended(fs.disk.inodes[spill.value.inode], sz)
              else [];
    }

    /** The upload of flush.  It returns the ETag when a spill file was uploaded. */
    method Upload(key: string, meta: Meta) returns (ok: bool, etag: string)
      requires Valid() && !finished && !gone
      modifies fs.Repr()
      ensures OthersKept()
      ensures fs.Excused(!ok)
      ensures Valid() && !finished && !gone && Content() == old(Content())
      ensures fs.client.objects ==
              if ok then old(fs.client.objects)[key := Object(Content().bytes, meta)] else old(fs.client.objects)
      ensures etag == if ok && spill.Some? then ETagOf(Content().bytes) else ""
      ensures ok ==> Sound(Content())
    {
      if mem != null {
        ok := UploadMem(key, meta);
        etag := "";
      } else {
        ok, etag := UploadSpill(key, meta);
      }
    }

    method PutBytes(key: string, bytes: Body, meta: Meta) returns (ok: bool)
      requires fs.Valid() && pool.Valid()
      modifies fs.Repr()
      ensures fs.KeepsFiles({})
      ensures fs.Excused(!ok)
      ensures fs.Valid() && pool.Valid()
      ensures fs.client.objects ==
              if ok then old(fs.client.objects)[key := Object(bytes, meta)] else old(fs.client.objects)
    {
      hide FS.FileSystem.Valid, MB.Buffer.Valid, MB.DataPool.Valid;
      var r := fs.Put(key, bytes, meta);
      assert forall b :: b in pool.live ==> unchanged(b);
      ok := r.Ok?;
    }

    method UploadMem(key: string, meta: Meta) returns (ok: bool)
      requires Valid() && !finished && mem != null
      modifies fs.Repr()
      ensures OthersKept()
      ensures fs.Excused(!ok)
      ensures Valid() && Content() == old(Content())
      ensures fs.client.objects ==
              if ok then old(fs.client.objects)[key := Object(Content().bytes, meta)] else old(fs.client.objects)
    {
      hide FS.FileSystem.Valid, MB.Buffer.Valid, MB.DataPool.Valid;
      var bytes := mem.Snapshot();
      ghost var a := mem.data;
      assert mem as object !in fs.Repr() && a as object !in fs.Repr() && this as object !in fs.Repr();
      ok := PutBytes(key, bytes, meta);
      assert mem.data == a && a[..] == old(a[..]);
      assert mem.Valid();
    }

    method UploadSpill(key: string, meta: Meta) returns (ok: bool, etag: string)
      requires Valid() && !finished && spill.Some?
      modifies fs.Repr()
      ensures OthersKept()
      ensures fs.Excused(!ok)
      ensures Valid() && Content() == old(Content())
      ensures fs.client.objects ==
              if ok then old(fs.client.objects)[key := Object(Content().bytes, meta)] else old(fs.client.objects)
      ensures etag == if ok then ETagOf(Content().bytes) else ""
      ensures ok ==> Sound(Content())
    {
      hide FS.FileSystem.Valid, MB.Buffer.Valid, MB.DataPool.Valid;
      var r := fs.PutSpill(key, fs.disk.inodes[spill.value.inode], sz, meta);
      ok := r.Ok?;
      etag := if ok then r.value else "";
    }

    /** What Close does with the buffer once nothing writes it any more: a spill
        file that is what was uploaded under `etag` enters the disk cache. */
    method Finish(key: string, etag: string)
      requires Valid() && !finished && !gone
      requires spill.Some? && etag != "" ==> etag == ETagOf(Content().bytes) && Sound(Content())
      modifies this`finished, fs.Repr()
      ensures OthersKept()
      ensures fs.Excused(false)
      ensures Valid() && finished && !gone && Content() == old(Content())
      ensures fs.client.objects == old(fs.client.objects)
      ensures spill.Some? && etag != "" ==> fs.Adopted(key, etag, sz, spill.value.path)
    {
      if spill.Some? {
        FinishSpill(key, etag);
      } else {
        finished := true;
      }
    }

    method FinishSpill(key: string, etag: string)
      requires Valid() && !finished && spill.Some?
      requires etag != "" ==> etag == ETagOf(Content().bytes) && Sound(Content())
      modifies this`finished, fs.Repr()
      ensures OthersKept()
      ensures fs.Excused(false)
      ensures Valid() && finished && Content() == old(Content())
      ensures fs.client.objects == old(fs.client.objects)
      ensures etag != "" ==> fs.Adopted(key, etag, sz, spill.value.path)
    {
      hide FS.FileSystem.Valid, MB.Buffer.Valid, MB.DataPool.Valid;
      fs.FinishSpill(spill.value, fs.disk.inodes[spill.value.inode], sz, key, etag);
      assert forall b :: b in pool.live ==> unchanged(b);
      finished := true;
    }

    /** destroy: the array goes back to the pool, or the spill file is removed. */
    method Destroy()
      requires Valid() && finished && !gone
      modifies this, mem, pool, fs.disk
      ensures OthersKept()
      ensures Valid() && finished && gone && Content() == Mem([])
      ensures old(mem) != null && 0 < old(mem.data).Length <= 4 * 1024 * 1024 ==> old(mem.data) in pool.free
      ensures forall p :: p in old(MyPath()) ==> p !in fs.disk.files
    {
      if mem != null {
        mem.Destroy();
        mem, gone := null, true;
      } else {
        RemoveSpill();
      }
    }

    method RemoveSpill()
      requires Valid() && finished && spill.Some?
      modifies this, fs.disk
      ensures OthersKept()
      ensures Valid() && finished && gone && mem == null && spill == None
      ensures old(spill).value.path !in fs.disk.files
    {
      hide FS.FileSystem.Valid, MB.DataPool.Valid;
      var s := spill.value;
      fs.DestroySpill(s);
      assert this as object !in fs.Repr() && forall b :: b in pool.live ==> unchanged(b);
      spill, gone := None, true;
    }
  }

  // ------------------------------------------------------ beside other buffers

  /** Two buffers share no array and no spill file. */
  ghost predicate Apart(a: Buffer, b: Buffer)
    reads a, b
  {
    && a != b && a.fs == b.fs && a.pool == b.pool
    && (a.mem == null || a.mem != b.mem) && a.MyPath() !! b.MyPath()
  }

  /** The array part of a valid buffer, but for its place in the pool. */
  ghost predicate MemOk(b: Buffer)
    reads b, b.mem
  {
    b.mem != null ==>
      && b.spill == None && b.mem.pool == b.pool && b.mem.len <= b.mem.data.Length
      && b.mem.copied <= b.mem.data.Length && (b.mem.reallocated ==> b.mem.data.Length < 2 * b.mem.largestEnd)
  }

  /** What b has is there, and is none of what the buffer behind `s` has. */
  ghost predicate SafeFrom(b: Buffer, s: Sight)
    reads b, b.mem
  {
    && MemOk(b) && (b.gone <==> b.mem == null && b.spill == None)
    && (b.mem != null ==> b.mem in s.live && b.mem != s.mem)
    && (b.spill.Some? ==>
          && s.disk.Some? && b.spill.value.path !in s.mine && b.sz >= |b.spilled|
          && if b.finished then DC.SpillFinished(s.disk.value, b.spill.value, b.spilled)
             else DC.SpillOpen(s.disk.value, b.spill.value, b.spilled))
  }

  lemma ApartIsSafe(a: Buffer, b: Buffer)
    requires a.Valid() && b.Valid() && Apart(a, b)
    ensures SafeFrom(b, a.Look()) && (a.mem != null && b.mem != null ==> a.mem.data != b.mem.data)
  {
  }

  lemma StaysSafe(b: Buffer, x: Sight, y: Sight)
    requires SafeFrom(b, x) && Spares(x, y)
    ensures SafeFrom(b, y)
  {
  }

  lemma ReadsKept(x: Sight, y: Sight)
    requires Spares(x, y)
    ensures x.disk.Some? == y.disk.Some?
    ensures x.disk.Some? ==> forall i, body :: DC.Reads(x.disk.value, i, body) ==> DC.Reads(y.disk.value, i, body)
  {
  }

  lemma SafeIsApart(a: Buffer, b: Buffer)
    requires a.Valid() && a != b && a.fs == b.fs && a.pool == b.pool && SafeFrom(b, a.Look())
    ensures b.Valid() && Apart(a, b)
  {
  }
}
