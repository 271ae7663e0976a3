/** What a file handle over a plain byte sequence does (the reference), and what
    the buffered writer does (file_write.go with the fileBuf of disk.go), over
    values; and why the two cannot be told apart. */
module ByteFile {
  import opened Common

  // ------------------------------------------------------- plain byte sequences

  function Zeros(n: nat): Body {
    seq(n, i => 0)
  }

  /** s grown with zeros to at least n bytes. */
  function Extended(s: Body, n: nat): Body {
    if n <= |s| then s else s + Zeros(n - |s|)
  }

  function Overwritten(s: Body, p: Body, off: nat): Body {
    var e := Extended(s, off + |p|);
    e[..off] + p + e[off + |p|..]
  }

  function Resized(s: Body, n: nat): Body {
    if n <= |s| then s[..n] else Extended(s, n)
  }

  /** Up to `want` bytes at off. */
  function Slice(s: Body, off: nat, want: nat): Body {
    if off >= |s| then [] else if off + want <= |s| then s[off..off + want] else s[off..]
  }

  /** The byte at i, for every i: zero beyond what was ever written. */
  function At(s: Body, i: nat): byte {
    if i < |s| then s[i] else 0
  }

  lemma OverwrittenAt(s: Body, p: Body, off: nat, i: nat)
    ensures At(Overwritten(s, p, off), i) == if off <= i < off + |p| then p[i - off] else At(s, i)
    ensures |Overwritten(s, p, off)| == if off + |p| <= |s| then |s| else off + |p|
  {
  }

  /** A resize keeps the bytes before the new end and adds zeros up to it. */
  lemma ResizedAt(s: Body, n: nat, i: nat)
    ensures |Resized(s, n)| == n && At(Resized(s, n), i) == if i < n then At(s, i) else 0
  {
  }

  /** What a shrink cuts off does not come back with a growth. */
  lemma ShrunkThenGrown(s: Body, n: nat, m: nat, i: nat)
    ensures |Resized(Resized(s, n), m)| == m
    ensures At(Resized(Resized(s, n), m), i) == if i < n && i < m then At(s, i) else 0
  {
    ResizedAt(s, n, i);
    ResizedAt(Resized(s, n), m, i);
  }

  /** A slice has the bytes asked for, in their places, up to the end. */
  lemma SliceAt(s: Body, off: nat, want: nat, i: nat)
    ensures |Slice(s, off, want)| == if off >= |s| then 0 else if off + want <= |s| then want else |s| - off
    ensures i < |Slice(s, off, want)| ==> off + i < |s| && Slice(s, off, want)[i] == s[off + i]
  {
  }

  /** What was written is read back. */
  lemma ReadsBack(s: Body, p: Body, off: nat)
    ensures Slice(Overwritten(s, p, off), off, |p|) == p
  {
    var t := Overwritten(s, p, off);
    forall i | 0 <= i < |p|
      ensures Slice(t, off, |p|)[i] == p[i]
    {
      OverwrittenAt(s, p, off, off + i);
      SliceAt(t, off, |p|, i);
    }
  }

  // ------------------------------------------------------------------- handles

  /** How the file was opened. */
  datatype Mode = Mode(readable: bool, appends: bool)

  datatype Op =
    | Read(want: nat)
    | ReadAt(want: nat, at: int)
    | Write(data: Body)
    | WriteAt(data: Body, at: int)
    | Seek(offset: int, whence: int)
    | Truncate(size: int)

  datatype Answer =
    | Data(bytes: Body, eof: bool)
    | Wrote(n: nat)
    | Position(pos: nat)
    | Done
    | Closed
    | Permission
    | InvalidArgument

  /** seekPos: io.SeekStart, SeekCurrent, SeekEnd are 0, 1, 2. */
  function SeekPos(pos: nat, size: nat, offset: int, whence: int): Option<nat> {
    var abs := if whence == 0 then offset else if whence == 1 then pos + offset else size + offset;
    if whence < 0 || whence > 2 || abs < 0 then None else Some(abs)
  }

  /** The reference: a byte sequence and a position. */
  datatype Plain = Plain(bytes: Body, pos: nat, closed: bool)

  function PlainStep(m: Mode, f: Plain, op: Op): (Plain, Answer) {
    if f.closed then (f, Closed)
    else match op
      case Read(want) =>
        if !m.readable then (f, Permission)
        else
          var got := Slice(f.bytes, f.pos, want);
          (f.(pos := f.pos + |got|), Data(got, f.pos >= |f.bytes|))
      case ReadAt(want, at) =>
        if !m.readable then (f, Permission)
        else if at < 0 then (f, InvalidArgument)
        else
          var got := Slice(f.bytes, at, want);
          (f, Data(got, at >= |f.bytes| || |got| < want))
      case Write(data) =>
        var at := if m.appends then |f.bytes| else f.pos;
        (f.(bytes := Overwritten(f.bytes, data, at), pos := at + |data|), Wrote(|data|))
      case WriteAt(data, at) =>
        if at < 0 then (f, InvalidArgument)
        else (f.(bytes := Overwritten(f.bytes, data, at)), Wrote(|data|))
      case Seek(offset, whence) =>
        (match SeekPos(f.pos, |f.bytes|, offset, whence)
         case None => (f, InvalidArgument)
         case Some(p) => (f.(pos := p), Position(p)))
      case Truncate(size) =>
        if size < 0 then (f, InvalidArgument) else (f.(bytes := Resized(f.bytes, size)), Done)
  }

  /** What is written is read back from where it went: at the end when appending, else
      at the position, which moves past it. */
  lemma WrittenIsRead(m: Mode, f: Plain, data: Body)
    requires !f.closed && m.readable
    ensures var at := if m.appends then |f.bytes| else f.pos;
            var w := PlainStep(m, f, Op.Write(data)).0;
            && w.pos == at + |data| && PlainStep(m, w, Op.ReadAt(|data|, at)).1.bytes == data
            && (m.appends ==> w.bytes == f.bytes + data)
  {
    var at := if m.appends then |f.bytes| else f.pos;
    ReadsBack(f.bytes, data, at);
  }

  /** A read at an offset changes nothing, and reports the end exactly when it reaches
      past it, or starts there. */
  lemma ReadsAt(m: Mode, f: Plain, want: nat, at: nat)
    requires !f.closed && m.readable
    ensures var (g, a) := PlainStep(m, f, Op.ReadAt(want, at));
            && g == f && a.Data? && (a.eof <==> at >= |f.bytes| || at + want > |f.bytes|)
            && (forall i :: 0 <= i < |a.bytes| ==> at + i < |f.bytes| && a.bytes[i] == f.bytes[at + i])
            && (!a.eof ==> |a.bytes| == want)
  {
  }

  /** What a handle may not do it refuses, and stays as it is: anything once closed,
      reading when it is not open for that, and negative offsets and sizes. */
  lemma Refuses(m: Mode, f: Plain, op: Op)
    requires f.closed || ((op.Read? || op.ReadAt?) && !m.readable)
             || ((op.ReadAt? || op.WriteAt?) && op.at < 0) || (op.Truncate? && op.size < 0)
    ensures PlainStep(m, f, op).0 == f
    ensures PlainStep(m, f, op).1 ==
            if f.closed then Closed
            else if (op.Read? || op.ReadAt?) && !m.readable then Permission
            else InvalidArgument
  {
  }

  /** A read moves the position past what it answers, and changes nothing else. */
  lemma ReadMoves(m: Mode, f: Plain, want: nat)
    requires !f.closed && m.readable
    ensures var (g, a) := PlainStep(m, f, Op.Read(want));
            && a.Data? && g == f.(pos := f.pos + |a.bytes|) && (a.eof <==> f.pos >= |f.bytes|)
            && (forall i :: 0 <= i < |a.bytes| ==> f.pos + i < |f.bytes| && a.bytes[i] == f.bytes[f.pos + i])
            && (|a.bytes| < want ==> f.pos + |a.bytes| >= |f.bytes|)
  {
  }

  // ------------------------------------------------------- the buffered writer

  /** memBuf, or fileBuf with the file's content and the size it records. */
  datatype Buf = Mem(bytes: Body) | File(bytes: Body, sz: nat)

  function Len(b: Buf): nat {
    match b
    case Mem(s) => |s|
    case File(_, sz) => sz
  }

  /** readAt of either buffer: the bytes, and whether io.EOF comes with them. */
  function BufRead(b: Buf, want: nat, off: nat): (Body, bool) {
    if off >= Len(b) then ([], true)
    else
      var got := Slice(b.bytes, off, want);
      (got, |got| < want)
  }

  /** A zero-length pwrite does not touch the file, but fileBuf still moves sz. */
  function BufWrite(b: Buf, p: Body, off: nat): Buf {
    match b
    case Mem(s) => Mem(Overwritten(s, p, off))
    case File(s, sz) =>
      File(if p == [] then s else Overwritten(s, p, off), if off + |p| > sz then off + |p| else sz)
  }

  function BufTruncate(b: Buf, n: nat): Buf {
    match b
    case Mem(s) => Mem(Resized(s, n))
    case File(s, _) => File(Resized(s, n), n)
  }

  datatype Writer = Writer(buf: Buf, pos: nat, dirty: bool, closed: bool)

  /** maybeSpillLocked; `spills` says whether the buffer moves when it may. */
  function MaybeSpill(b: Buf, end: nat, threshold: Option<nat>, spills: bool): Buf {
    if b.Mem? && threshold.Some? && end > threshold.value && spills then File(b.bytes, |b.bytes|) else b
  }

  function WriterStep(m: Mode, threshold: Option<nat>, f: Writer, op: Op, spills: bool): (Writer, Answer) {
    if f.closed then (f, Closed)
    else match op
      case Read(want) =>
        if !m.readable then (f, Permission)
        else if f.pos >= Len(f.buf) then (f, Data([], true))
        else
          var (got, eof) := BufRead(f.buf, want, f.pos);
          (f.(pos := f.pos + |got|), Data(got, eof && got == []))
      case ReadAt(want, at) =>
        if !m.readable then (f, Permission)
        else if at < 0 then (f, InvalidArgument)
        else if at >= Len(f.buf) then (f, Data([], true))
        else
          var (got, eof) := BufRead(f.buf, want, at);
          (f, Data(got, eof))
      case Write(data) =>
        var at := if m.appends then Len(f.buf) else f.pos;
        var b := BufWrite(MaybeSpill(f.buf, at + |data|, threshold, spills), data, at);
        (f.(buf := b, pos := at + |data|, dirty := true), Wrote(|data|))
      case WriteAt(data, at) =>
        if at < 0 then (f, InvalidArgument)
        else
          var b := BufWrite(MaybeSpill(f.buf, at + |data|, threshold, spills), data, at);
          (f.(buf := b, dirty := true), Wrote(|data|))
      case Seek(offset, whence) =>
        (match SeekPos(f.pos, Len(f.buf), offset, whence)
         case None => (f, InvalidArgument)
         case Some(p) => (f.(pos := p), Position(p)))
      case Truncate(size) =>
        if size < 0 then (f, InvalidArgument)
        else (f.(buf := BufTruncate(MaybeSpill(f.buf, size, threshold, spills), size), dirty := true), Done)
  }

  // ---------------------------------------------------------------- refinement

  predicate Sound(b: Buf) {
    b.File? ==> b.sz == |b.bytes|
  }

  predicate Refines(f: Writer, r: Plain) {
    Sound(f.buf) && f.buf.bytes == r.bytes && f.pos == r.pos && f.closed == r.closed
  }

  /** The write that moves a spill buffer's size without growing its file. */
  predicate EmptyPastEnd(m: Mode, f: Plain, op: Op) {
    match op
    case Write(data) => data == [] && !m.appends && f.pos > |f.bytes|
    case WriteAt(data, at) => data == [] && at > |f.bytes|
    case _ => false
  }

  /** Where an operation at position pos writes, if it is not appending. */
  function Target(op: Op, pos: nat): nat {
    match op
    case Write(_) => pos
    case WriteAt(_, at) => if at >= 0 then at else 0
    case _ => 0
  }

  lemma WriteRefines(b: Buf, p: Body, off: nat)
    requires Sound(b) && (b.Mem? || p != [] || off <= |b.bytes|)
    ensures Sound(BufWrite(b, p, off)) && BufWrite(b, p, off).bytes == Overwritten(b.bytes, p, off)
  {
    if p == [] && off <= |b.bytes| {
      assert Overwritten(b.bytes, [], off) == b.bytes;
    }
  }

  lemma WriteStepRefines(m: Mode, threshold: Option<nat>, f: Writer, r: Plain, op: Op, spills: bool)
    requires Refines(f, r) && (op.Write? || op.WriteAt?) && !f.closed
    requires EmptyPastEnd(m, r, op) ==> WriterStep(m, threshold, f, op, spills).0.buf.Mem?
    ensures Refines(WriterStep(m, threshold, f, op, spills).0, PlainStep(m, r, op).0)
    ensures WriterStep(m, threshold, f, op, spills).1 == PlainStep(m, r, op).1
  {
    if op.Write? {
      var at := if m.appends then |r.bytes| else r.pos;
      WriteRefines(MaybeSpill(f.buf, at + |op.data|, threshold, spills), op.data, at);
    } else if op.at >= 0 {
      WriteRefines(MaybeSpill(f.buf, op.at + |op.data|, threshold, spills), op.data, op.at);
    }
  }

  /** One operation, spilling or not, answers as the plain file would. */
  lemma StepRefines(m: Mode, threshold: Option<nat>, f: Writer, r: Plain, op: Op, spills: bool)
    requires Refines(f, r)
    requires !r.closed && EmptyPastEnd(m, r, op) ==> WriterStep(m, threshold, f, op, spills).0.buf.Mem?
    ensures Refines(WriterStep(m, threshold, f, op, spills).0, PlainStep(m, r, op).0)
    ensures WriterStep(m, threshold, f, op, spills).1 == PlainStep(m, r, op).1
  {
    if !f.closed && (op.Write? || op.WriteAt?) {
      WriteStepRefines(m, threshold, f, r, op, spills);
    }
  }

  function AsPlain(f: Writer): Plain {
    Plain(f.buf.bytes, f.pos, f.closed)
  }

  /** An operation that takes f to g answers as the plain file would, and leaves what
      it would, if and only if it is not an empty write past the end of what is, or
      becomes, a spilled buffer. */
  predicate AnswersPlainly(m: Mode, f: Writer, g: Writer, op: Op, a: Answer) {
    Sound(f.buf) ==>
      && a == PlainStep(m, AsPlain(f), op).1
      && (Sound(g.buf) ==> AsPlain(g) == PlainStep(m, AsPlain(f), op).0)
      && (Sound(g.buf) <==> f.closed || !EmptyPastEnd(m, AsPlain(f), op) || g.buf.Mem?)
  }

  /** So much can be told before. */
  predicate Allowed(m: Mode, threshold: Option<nat>, f: Writer, op: Op) {
    && Sound(f.buf)
    && (|| f.closed || !EmptyPastEnd(m, AsPlain(f), op)
        || (f.buf.Mem? && (threshold.None? || Target(op, f.pos) <= threshold.value)))
  }

  lemma StepIsExact(m: Mode, threshold: Option<nat>, f: Writer, op: Op, spills: bool)
    ensures var (g, a) := WriterStep(m, threshold, f, op, spills);
            AnswersPlainly(m, f, g, op, a) && (Allowed(m, threshold, f, op) ==> Sound(g.buf))
  {
    var g := WriterStep(m, threshold, f, op, spills).0;
    if Sound(f.buf) && (f.closed || !EmptyPastEnd(m, AsPlain(f), op) || g.buf.Mem?) {
      StepRefines(m, threshold, f, AsPlain(f), op, spills);
    }
  }

  datatype Run = Run(writer: Writer, plain: Plain, answers: seq<Answer>, expected: seq<Answer>)

  /** Both files through the same operations; `spills` may differ at every step. */
  function Play(m: Mode, threshold: Option<nat>, f: Writer, r: Plain, ops: seq<(Op, bool)>): Run {
    if ops == [] then Run(f, r, [], [])
    else
      var before := Play(m, threshold, f, r, ops[..|ops| - 1]);
      var (op, spills) := ops[|ops| - 1];
      var (g, a) := WriterStep(m, threshold, before.writer, op, spills);
      var (q, b) := PlainStep(m, before.plain, op);
      Run(g, q, before.answers + [a], before.expected + [b])
  }

  /** No empty write past the end lands in a spilled buffer. */
  predicate Regular(m: Mode, threshold: Option<nat>, f: Writer, r: Plain, ops: seq<(Op, bool)>) {
    ops == [] ||
    var before := Play(m, threshold, f, r, ops[..|ops| - 1]);
    var (op, spills) := ops[|ops| - 1];
    && Regular(m, threshold, f, r, ops[..|ops| - 1])
    && (EmptyPastEnd(m, before.plain, op) ==> WriterStep(m, threshold, before.writer, op, spills).0.buf.Mem?)
  }

  /** Any run of operations, spilling whenever it may or never, gives exactly the
      answers of a plain zero-filled byte sequence and ends with its contents. */
  lemma {:induction false} RunRefines(m: Mode, threshold: Option<nat>, f: Writer, r: Plain, ops: seq<(Op, bool)>)
    requires Refines(f, r) && Regular(m, threshold, f, r, ops)
    ensures var run := Play(m, threshold, f, r, ops);
            run.answers == run.expected && Refines(run.writer, run.plain)
  {
    if ops != [] {
      var init := ops[..|ops| - 1];
      RunRefines(m, threshold, f, r, init);
      var before := Play(m, threshold, f, r, init);
      StepRefines(m, threshold, before.writer, before.plain, ops[|ops| - 1].0, ops[|ops| - 1].1);
    }
  }

  /** The condition is exact: on an open spilled buffer an empty write keeps the
      recorded size right if and only if it is not past the end. */
  lemma EmptyWriteIsExact(s: Body, off: nat)
    ensures Sound(BufWrite(File(s, |s|), [], off)) <==> off <= |s|
  {
  }

  /** Once it runs ahead it stays so until a write reaches it, or a truncate. */
  lemma RepairIsExact(s: Body, sz: nat, p: Body, off: nat)
    requires sz > |s|
    ensures Sound(BufWrite(File(s, sz), p, off)) <==> p != [] && off + |p| >= sz
    ensures Sound(BufTruncate(File(s, sz), off))
  {
  }

  /** And past the end the two buffers then disagree: reading at the old end, the
      memory buffer yields zeros and the spilled one nothing. */
  lemma EmptyWriteDiverges(s: Body, off: nat)
    requires off > |s|
    ensures BufRead(BufWrite(Mem(s), [], off), 1, |s|) == ([0], false)
    ensures BufRead(BufWrite(File(s, |s|), [], off), 1, |s|) == ([], true)
  {
    var e := Overwritten(s, [], off);
    assert e == s + Zeros(off - |s|);
    assert Slice(e, |s|, 1) == [0];
  }
}
