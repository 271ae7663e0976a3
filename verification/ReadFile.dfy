/** Files opened for reading (file_read.go): contents streamed from S3 through a
    ranged GET that may break off anywhere, or held locally. */
module ReadFile {
  import opened Common
  import opened Bucket
  import opened ByteFile

  // ----------------------------------------------------------- runs of reads

  datatype Status = Fine | Eof | Error | IsClosed | Invalid

  /** What one Read at `pos` may answer: bytes of the object from there, fewer than
      asked for if need be, and io.EOF exactly at the end. */
  predicate IsRead(content: Body, pos: nat, want: nat, got: Body, status: Status) {
    && got <= Slice(content, pos, want)
    && (status == Eof <==> pos >= |content|)
    && (status == Fine || status == Eof || status == Error)
  }

  datatype Answered = Answered(want: nat, got: Body, status: Status)

  function Joined(run: seq<Answered>): Body {
    if run == [] then [] else Joined(run[..|run| - 1]) + run[|run| - 1].got
  }

  /** Reads one after the other, the first at `start`. */
  predicate IsRun(content: Body, start: nat, run: seq<Answered>) {
    run == [] ||
    var last := run[|run| - 1];
    && IsRun(content, start, run[..|run| - 1])
    && IsRead(content, start + |Joined(run[..|run| - 1])|, last.want, last.got, last.status)
  }

  lemma RunGrows(content: Body, start: nat, run: seq<Answered>, last: Answered)
    requires IsRun(content, start, run) && IsRead(content, start + |Joined(run)|, last.want, last.got, last.status)
    ensures IsRun(content, start, run + [last]) && Joined(run + [last]) == Joined(run) + last.got
  {
    assert (run + [last])[..|run|] == run;
  }

  /** However the reads are cut, and whatever fails in between, they lose and
      repeat nothing. */
  lemma {:induction false} ReadsAreContiguous(content: Body, start: nat, run: seq<Answered>)
    requires IsRun(content, start, run)
    ensures Joined(run) == Slice(content, start, |Joined(run)|)
  {
    if run != [] {
      var before := run[..|run| - 1];
      ReadsAreContiguous(content, start, before);
      SliceExtends(content, start, |Joined(before)|, run[|run| - 1].want, run[|run| - 1].got);
    }
  }

  lemma SliceExtends(content: Body, start: nat, done: nat, want: nat, got: Body)
    requires |Slice(content, start, done)| == done && got <= Slice(content, start + done, want)
    ensures Slice(content, start, done) + got == Slice(content, start, done + |got|)
  {
    var next := Slice(content, start + done, want);
    assert got == next[..|got|];
    if got != [] {
      assert next[..|got|] == content[start + done..start + done + |got|];
    }
  }

  /** A run that ends in io.EOF has delivered everything from its start. */
  lemma EofMeansAll(content: Body, start: nat, run: seq<Answered>)
    requires IsRun(content, start, run) && run != [] && run[|run| - 1].status == Eof
    ensures Joined(run) == if start <= |content| then content[start..] else []
  {
    ReadsAreContiguous(content, start, run);
    ReadsAreContiguous(content, start, run[..|run| - 1]);
  }

  lemma SliceOrder(content: Body, start: nat, n: nat, m: nat)
    requires n <= m
    ensures Slice(content, start, n) <= Slice(content, start, m)
  {
  }

  /** Of two runs over the same object one has delivered a prefix of what the other
      has, and the same once both report io.EOF. */
  lemma RunsAgree(content: Body, start: nat, one: seq<Answered>, two: seq<Answered>)
    requires IsRun(content, start, one) && IsRun(content, start, two)
    ensures Joined(one) <= Joined(two) || Joined(two) <= Joined(one)
    ensures one != [] && one[|one| - 1].status == Eof && two != [] && two[|two| - 1].status == Eof
            ==> Joined(one) == Joined(two)
  {
    ReadsAreContiguous(content, start, one);
    ReadsAreContiguous(content, start, two);
    if |Joined(one)| <= |Joined(two)| {
      SliceOrder(content, start, |Joined(one)|, |Joined(two)|);
    } else {
      SliceOrder(content, start, |Joined(two)|, |Joined(one)|);
    }
    if one != [] && one[|one| - 1].status == Eof && two != [] && two[|two| - 1].status == Eof {
      EofMeansAll(content, start, one);
      EofMeansAll(content, start, two);
    }
  }

  // ------------------------------------------------------------------ streams

  /** What a read of a response body reports: nothing, io.EOF, a body shorter than
      announced (io.ErrUnexpectedEOF), or another error. */
  datatype Ending = More | AtEnd | CutShort | Broken

  /** A response body: it delivers `rest` in order, in pieces of any size, and then
      ends as `fate` says, wherever in the object that is. */
  class Stream {
    var rest: Body
    const fate: Ending

    constructor (rest: Body, fate: Ending)
      requires !fate.More?
      ensures this.rest == rest && this.fate == fate
    {
      this.rest, this.fate := rest, fate;
    }

    method Next(want: nat) returns (got: Body, ending: Ending)
      requires !fate.More?
      modifies this
      ensures old(rest) == got + rest && |got| <= want
      ensures ending.More? || (ending == fate && rest == [])
      ensures want > 0 && ending.More? ==> got != []
    {
      var n: nat :| n <= |rest| && n <= want && (n == 0 && want > 0 ==> rest == []);
      got, rest := rest[..n], rest[n..];
      var more: bool := *;
      ending := if rest == [] && (!more || (want > 0 && got == [])) then fate else More;
    }
  }

  /** io.ReadFull. */
  method ReadFull(s: Stream, want: nat) returns (got: Body, ending: Ending)
    requires !s.fate.More?
    modifies s
    ensures old(s.rest) == got + s.rest
    ensures if want <= |old(s.rest)| then |got| == want && ending.More? else s.rest == [] && ending == s.fate
  {
    got, ending := [], More;
    while |got| < want && ending.More?
      invariant old(s.rest) == got + s.rest && |got| <= want
      invariant ending.More? || (ending == s.fate && s.rest == [])
      decreases want - |got|, ending.More?
    {
      var piece, e := s.Next(want - |got|);
      got, ending := got + piece, e;
    }
    if |got| == want {
      ending := More;
    }
  }

  /** What ReadAt answers when its response delivers `sent` and ends in `fate`. */
  function ReadAtAnswer(sent: Body, fate: Ending, want: nat): (Body, Status) {
    if want <= |sent| then (sent[..want], Fine) else (sent, if fate.Broken? then Error else Eof)
  }

  /** io.EOF comes with bytes that stop before the object does, if and only if the
      response ended, early or as announced, before the range was delivered. */
  lemma EofInsideIsExact(content: Body, off: nat, want: nat, sent: Body, fate: Ending)
    requires off < |content| && sent <= Slice(content, off, want) && !fate.More?
    ensures var (got, status) := ReadAtAnswer(sent, fate, want);
            status == Eof && off + |got| < |content| <==> !fate.Broken? && |sent| < |Slice(content, off, want)|
  {
    assert |Slice(content, off, want)| == if off + want <= |content| then want else |content| - off;
  }

  /** And it can, anywhere inside any object, after any part of the range. */
  lemma EofInsideHappens(content: Body, off: nat, want: nat, n: nat)
    requires off < |content| && n < |Slice(content, off, want)|
    ensures var sent := Slice(content, off, want)[..n];
            ReadAtAnswer(sent, CutShort, want) == (sent, Eof) && off + |sent| < |content|
  {
    EofInsideIsExact(content, off, want, Slice(content, off, want)[..n], CutShort);
  }

  lemma PieceOfSlice(content: Body, off: nat, rest: Body, got: Body, left: Body, want: nat)
    requires off <= |content| && rest <= content[off..] && rest == got + left && |got| <= want
    ensures got <= Slice(content, off, want)
    ensures off + |got| <= |content| && left <= content[off + |got|..]
  {
    assert rest == content[off..off + |rest|];
    assert got == rest[..|got|] && left == rest[|got|..];
  }

  // ----------------------------------------------------------------- backends

  /** s3Backend. */
  class S3Backend {
    const client: Client
    const key: string
    const size: nat
    ghost const content: Body       // the object's body
    var body: Stream?
    var bodyPos: nat
    ghost var empties: nat          // how many streams opened gave nothing

    /** A stream is at hand where the next read wants it. */
    ghost predicate InPlace(off: nat)
      reads this
    {
      body != null && bodyPos == off
    }

    /** The stream at hand ended before it had delivered what it announced. */
    ghost predicate BrokeOff()
      reads this
    {
      body != null && (body.fate.CutShort? || body.fate.Broken?)
    }

    /** The object is the one the file was opened on. */
    ghost predicate Unchanged()
      reads client
    {
      key in client.objects && client.objects[key].body == content
    }

    ghost predicate Valid()
      reads this, body
    {
      size == |content| && (body != null ==> bodyPos <= size && body.rest <= content[bodyPos..] && !body.fate.More?)
    }

    /** `body`, when present, is an open GET of the whole object. */
    constructor (client: Client, key: string, body: Stream?)
      requires key in client.objects
      requires body != null ==> body.rest <= client.objects[key].body && !body.fate.More?
      ensures Valid() && Unchanged() && this.client == client && this.body == body
      ensures content == client.objects[key].body
    {
      this.client, this.key, this.body, bodyPos, empties := client, key, body, 0, 0;
      size, content := |client.objects[key].body|, client.objects[key].body;
    }

    /** A stream at `off`: the one at hand, or a new one. */
    method Position(off: nat) returns (ok: bool)
      requires Valid() && Unchanged() && off < size
      modifies this, client`failures
      ensures Valid() && (ok ==> InPlace(off)) && (!ok ==> client.failures > old(client.failures))
      ensures empties == old(empties) && client.failures >= old(client.failures)
      ensures old(InPlace(off)) ==> ok && body == old(body) && client.failures == old(client.failures)
      ensures body == null || body == old(body) || fresh(body)
    {
      if body != null && bodyPos != off {
        body := null;
      }
      if body == null {
        var range := client.GetRange(key, off, None);
        if !range.Ok? {
          return false;
        }
        var sent: nat :| sent <= |range.value|;
        var fate: Ending :| !fate.More?;
        body := new Stream(range.value[..sent], fate);
        bodyPos := off;
      }
      return true;
    }

    method Read(want: nat, off: nat) returns (got: Body, status: Status)
      requires Valid() && Unchanged() && off < size
      modifies this, body, client`failures
      ensures Valid() && got <= Slice(content, off, want) && (status == Fine || status == Error || status == Eof)
      ensures status == Eof ==> got != [] && off + |got| == size
      ensures got == [] && want > 0 && status == Fine ==> body == null
      ensures body == null || body == old(body) || fresh(body)
      ensures client.failures >= old(client.failures)
      ensures empties == old(empties) +
                if got == [] && want > 0 && status == Fine && !old(InPlace(off)) then 1 else 0
      ensures status == Error ==> client.failures > old(client.failures) || BrokeOff()
    {
      var ok := Position(off);
      if !ok {
        return [], Error;
      }
      var ending;
      ghost var rest := body.rest;
      got, ending := body.Next(want);
      PieceOfSlice(content, off, rest, got, body.rest, want);
      bodyPos := bodyPos + |got|;
      if ending.AtEnd? && bodyPos < size {
        body := null;
        empties := empties + if got == [] && want > 0 && !old(InPlace(off)) then 1 else 0;
        return got, Fine;
      }
      return got, if ending.More? then Fine else if ending.AtEnd? then Eof else Error;
    }

    /** A ranged GET of its own, which delivers `sent` and ends in `fate` (More when
        the request itself failed). */
    method ReadAt(want: nat, off: nat) returns (got: Body, status: Status, ghost sent: Body, ghost fate: Ending)
      requires Valid() && Unchanged() && off < size && want > 0
      modifies client`failures
      ensures fate.More? ==> got == [] && status == Error && client.failures > old(client.failures)
      ensures !fate.More? ==> sent <= Slice(content, off, want) && (got, status) == ReadAtAnswer(sent, fate, want)
    {
      var range := client.GetRange(key, off, Some(off + want - 1));
      if !range.Ok? {
        return [], Error, [], More;
      }
      assert range.value == Slice(content, off, want);
      var n: nat :| n <= |range.value|;
      var end: Ending :| !end.More?;
      var s := new Stream(range.value[..n], end);
      sent, fate := s.rest, end;
      var ending;
      got, ending := ReadFull(s, want);
      status := if ending.More? then Fine else if ending.Broken? then Error else Eof;
      assert got == if want <= |sent| then sent[..want] else sent;
    }
  }

  /** Streamed from S3, or a body at hand: bytesBackend, and fileBackend over a
      file of the disk cache. */
  datatype Backend = Streamed(s3: S3Backend) | Local(data: Body)

  /** readAt of bytesBackend and fileBackend. */
  function LocalRead(data: Body, want: nat, off: nat): (Body, Status) {
    if off >= |data| then ([], Eof)
    else
      var got := Slice(data, off, want);
      (got, if |got| < want then Eof else Fine)
  }

  // -------------------------------------------------------------------- files

  /** readOnlyFile. */
  class File {
    const back: Backend
    const size: nat
    var pos: nat
    var closed: bool
    ghost var start: nat            // where the last Seek went
    ghost var log: seq<Answered>    // what Read has answered since

    ghost function Content(): Body {
      if back.Streamed? then back.s3.content else back.data
    }

    ghost function Parts(): set<object?>
      reads if back.Streamed? then {back.s3} else {}
    {
      if back.Streamed? then {back.s3, back.s3.body} else {}
    }

    /** How many streams opened for it gave nothing. */
    ghost function Empties(): nat
      reads if back.Streamed? then {back.s3} else {}
    {
      if back.Streamed? then back.s3.empties else 0
    }

    /** How many reads may still go by before the end. */
    ghost function Ahead(): nat
      reads this, if back.Streamed? then {back.s3} else {}
    {
      AheadAt(pos)
    }

    ghost function AheadAt(p: nat): nat
      reads this, if back.Streamed? then {back.s3} else {}
    {
      if p >= size then 0 else 2 * (size - p) + if back.Streamed? && back.s3.InPlace(p) then 1 else 0
    }

    /** A request failed, or a stream broke off. */
    twostate predicate Disturbed()
      reads if back.Streamed? then {back.s3, back.s3.client} else {}
    {
      back.Streamed? && (back.s3.client.failures > old(back.s3.client.failures) || back.s3.BrokeOff())
    }

    /** Its stream is the one it had, or one opened since. */
    twostate predicate Ours()
      reads if back.Streamed? then {back.s3} else {}
    {
      back.Streamed? ==> back.s3.body == null || back.s3.body == old(back.s3.body) || fresh(back.s3.body)
    }

    twostate predicate NoFewer()
      reads if back.Streamed? then {back.s3.client} else {}
    {
      back.Streamed? ==> back.s3.client.failures >= old(back.s3.client.failures)
    }

    ghost function Requests(): set<Client> {
      if back.Streamed? then {back.s3.client} else {}
    }

    ghost predicate Unchanged()
      reads if back.Streamed? then {back.s3.client} else {}
    {
      back.Streamed? ==> back.s3.Unchanged()
    }

    ghost predicate Valid()
      reads this, Parts(), if back.Streamed? then {back.s3} else {}
    {
      && size == |Content()|
      && (back.Streamed? ==> back.s3.Valid())
      && IsRun(Content(), start, log) && pos == start + |Joined(log)|
    }

    constructor (back: Backend)
      requires back.Streamed? ==> back.s3.Valid()
      ensures Valid() && this.back == back && pos == 0 && !closed && start == 0 && log == []
    {
      this.back, pos, closed, start, log := back, 0, false, 0, [];
      size := if back.Streamed? then back.s3.size else |back.data|;
    }

    /** The reads since the last Seek stay a run over the object's bytes from there;
        from a local body nothing is ever short. */
    method Read(want: nat) returns (got: Body, status: Status)
      requires Valid() && Unchanged()
      modifies this`pos, this`log, Parts(), Requests()`failures
      ensures Valid() && start == old(start)
      ensures log == if closed then old(log) else old(log) + [Answered(want, got, status)]
      ensures if closed then got == [] && status == IsClosed else IsRead(Content(), old(pos), want, got, status)
      ensures back.Local? && !closed ==>
                got == Slice(Content(), old(pos), want) && status == if old(pos) >= size then Eof else Fine
      ensures pos == old(pos) + |got| && closed == old(closed)
      ensures status == Error ==> Disturbed()
      ensures Ours() && NoFewer() && Empties() >= old(Empties())
      ensures want > 0 && status == Fine ==> Ahead() < old(Ahead()) + Empties() - old(Empties())
    {
      hide IsRun, Joined;
      if closed {
        return [], IsClosed;
      }
      if pos >= size {
        Answer(want, [], Eof);
        return [], Eof;
      }
      got, status := Fetch(want);
      if status == Eof && got != [] {
        status := Fine;
      }
      Answer(want, got, status);
    }

    /** What the backend answers at the position. */
    method Fetch(want: nat) returns (got: Body, status: Status)
      requires Valid() && Unchanged() && pos < size
      modifies Parts(), Requests()`failures
      ensures Valid() && got <= Slice(Content(), pos, want)
      ensures (status == Fine || status == Error || status == Eof) && (status == Eof ==> got != [])
      ensures back.Local? ==> got == Slice(Content(), pos, want) && status != Error
      ensures status == Error ==> Disturbed()
      ensures Ours() && NoFewer() && Empties() >= old(Empties())
      ensures want > 0 && status != Error ==> AheadAt(pos + |got|) < old(Ahead()) + Empties() - old(Empties())
    {
      hide IsRun, Joined;
      if back.Streamed? {
        got, status := back.s3.Read(want, pos);
      } else {
        var r := LocalRead(back.data, want, pos);
        got, status := r.0, r.1;
      }
    }

    /** Moves the position past what is answered. */
    method Answer(ghost want: nat, got: Body, ghost status: Status)
      requires Valid() && IsRead(Content(), pos, want, got, status)
      modifies this`pos, this`log
      ensures Valid() && log == old(log) + [Answered(want, got, status)] && pos == old(pos) + |got|
    {
      hide IsRun, IsRead, Joined, Slice;
      RunGrows(Content(), start, log, Answered(want, got, status));
      log := log + [Answered(want, got, status)];
      pos := pos + |got|;
    }

    /** An empty request answers before the position is looked at. */
    method ReadAt(want: nat, off: int) returns (got: Body, status: Status)
      requires Valid() && Unchanged()
      modifies Requests()`failures
      ensures closed ==> got == [] && status == IsClosed
      ensures !closed && off < 0 ==> got == [] && status == Invalid
      ensures !closed && off >= 0 && want == 0 ==> got == [] && status == Fine
      ensures !closed && off >= 0 && want > 0 ==>
                && got <= Slice(Content(), off, want)
                && (status == Fine <==> |got| == want) && (status == Fine || status == Eof || status == Error)
                && (off >= size ==> status == Eof)
                && (back.Local? ==> got == Slice(Content(), off, want) && status == if |got| < want then Eof else Fine)
    {
      if closed {
        return [], IsClosed;
      }
      if off < 0 {
        return [], Invalid;
      }
      if want == 0 {
        return [], Fine;
      }
      if off >= size {
        return [], Eof;
      }
      if back.Streamed? {
        ghost var sent, fate;
        got, status, sent, fate := back.s3.ReadAt(want, off);
      } else {
        var r := LocalRead(back.data, want, off);
        got, status := r.0, r.1;
      }
    }

    method Seek(offset: int, whence: int) returns (r: Option<nat>, status: Status)
      requires Valid()
      modifies this`pos, this`start, this`log
      ensures Valid()
      ensures closed ==> status == IsClosed && pos == old(pos) && start == old(start)
      ensures !closed && whence == 0 ==> r == if offset >= 0 then Some(offset) else None
      ensures !closed && whence == 1 ==> r == if old(pos) + offset >= 0 then Some(old(pos) + offset) else None
      ensures !closed && whence == 2 ==> r == if size + offset >= 0 then Some(size + offset) else None
      ensures !closed && (whence < 0 || whence > 2) ==> r == None
      ensures !closed && r.Some? ==> status == Fine && pos == start == r.value && log == []
      ensures !closed && r.None? ==> status == Invalid && pos == old(pos) && start == old(start) && log == old(log)
    {
      if closed {
        return None, IsClosed;
      }
      r := SeekPos(pos, size, offset, whence);
      if r.None? {
        return r, Invalid;
      }
      pos, start, log := r.value, r.value, [];
      return r, Fine;
    }

    method Close() returns (status: Status)
      requires Valid()
      modifies this`closed, if back.Streamed? then {back.s3} else {}
      ensures Valid() && closed && status == if old(closed) then IsClosed else Fine
      ensures back.Streamed? && !old(closed) ==> back.s3.body == null
    {
      if closed {
        return IsClosed;
      }
      closed := true;
      if back.Streamed? {
        back.s3.body := null;
      }
      return Fine;
    }
  }

  /** Reading to the end, as io.ReadAll does, for at most `turns` reads: with more
      of them than bytes and empty streams account for it gets to io.EOF and has all
      there is from the position on, unless a request failed or a stream broke off. */
  method ReadToEnd(f: File, want: nat, turns: nat) returns (got: Body, status: Status)
    requires f.Valid() && f.Unchanged() && !f.closed && want > 0
    modifies f`pos, f`log, f.Parts(), f.Requests()`failures
    ensures f.Valid() && f.pos == old(f.pos) + |got| && got == Slice(f.Content(), old(f.pos), |got|)
    ensures status == Eof ==> got == if old(f.pos) <= f.size then f.Content()[old(f.pos)..] else []
    ensures status == Eof || (status == Error && f.Disturbed()) || status == Fine
    ensures status == Fine ==> turns <= old(f.Ahead()) + f.Empties() - old(f.Empties())
  {
    hide IsRun, Joined, File.Ahead;
    got, status := [], Fine;
    var n := 0;
    while n < turns && status == Fine
      invariant f.Valid() && f.Unchanged() && !f.closed && f.Ours()
      invariant f.pos == old(f.pos) + |got| && got == Slice(f.Content(), old(f.pos), |got|)
      invariant status == Eof ==> f.pos >= f.size
      invariant status == Eof || (status == Error && f.Disturbed()) || status == Fine
      invariant n <= turns && f.NoFewer()
      invariant status == Fine ==> n + f.Ahead() <= old(f.Ahead()) + f.Empties() - old(f.Empties())
    {
      var piece;
      piece, status := f.Read(want);
      SliceExtends(f.Content(), old(f.pos), |got|, want, piece);
      got := got + piece;
      n := n + 1;
    }
  }

  /** Seeking back from the end and reading on gets exactly the last k bytes. */
  method ReadLast(f: File, k: nat, want: nat, turns: nat) returns (got: Body, status: Status)
    requires f.Valid() && f.Unchanged() && !f.closed && want > 0 && k <= f.size
    modifies f`pos, f`start, f`log, f.Parts(), f.Requests()`failures
    ensures f.Valid() && got <= f.Content()[f.size - k..]
    ensures status == Eof ==> got == f.Content()[f.size - k..]
    ensures status == Eof || (status == Error && f.Disturbed()) || status == Fine
    ensures status == Fine ==> turns <= 2 * k + 1 + f.Empties() - old(f.Empties())
  {
    hide IsRun, Joined;
    var _, _ := f.Seek(-(k as int), 2);
    got, status := ReadToEnd(f, want, turns);
  }

  /** Two files over one object, whatever serves them, since a Seek to the same
      place: one has read a prefix of what the other has, and the same once each
      has been told io.EOF. */
  lemma FilesAgree(f: File, g: File)
    requires f.Valid() && g.Valid() && f.Content() == g.Content() && f.start == g.start
    ensures Joined(f.log) <= Joined(g.log) || Joined(g.log) <= Joined(f.log)
    ensures f.log != [] && f.log[|f.log| - 1].status == Eof && g.log != [] && g.log[|g.log| - 1].status == Eof
            ==> Joined(f.log) == Joined(g.log)
  {
    RunsAgree(f.Content(), f.start, f.log, g.log);
  }
}
