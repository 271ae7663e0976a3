/** The in-memory write buffer and the pool of backing arrays it recycles
    (memBuf of file_write.go, pool.go).

    Arrays come out of the pool dirty and are reused in place, so what keeps one
    file's bytes out of another is ownership: no pooled array is reachable from a live
    buffer, and no two live buffers share one. */
module MemBuf {
  import opened Common
  import opened ByteFile

  const MAX_POOLED: nat := 0x40_0000

  function Max(a: nat, b: nat): nat {
    if a < b then b else a
  }

  /** Arrays of no capacity, or of too much, are not worth keeping. */
  predicate Poolable(a: array<byte>) {
    0 < a.Length <= MAX_POOLED
  }

  /** dataPool; `live` are the buffers in use. */
  class DataPool {
    var free: set<array<byte>>
    ghost var live: set<Buffer>

    ghost predicate Valid()
      reads this, live
    {
      && (forall b :: b in live ==> b.pool == this && b.data !in free)
      && (forall b, c :: b in live && c in live && b != c ==> b.data != c.data)
    }

    constructor ()
      ensures Valid() && live == {} && free == {}
    {
      free, live := {}, {};
    }

    /** pooledData: a recycled array with whatever bytes it holds, or none. */
    method Take() returns (a: array<byte>)
      requires Valid()
      modifies this`free
      ensures Valid() && forall b :: b in live ==> b.data != a
      ensures a !in free
    {
      if * {
        a := new byte[0];
        return;
      }
      if free != {} {
        a :| a in free;
        free := free - {a};
      } else {
        a := new byte[0];
      }
    }

    /** recycleData: the caller owns the only remaining reference. */
    method Recycle(a: array<byte>)
      requires Valid() && forall b :: b in live ==> b.data != a
      modifies this`free
      ensures Valid() && free == old(free) + if 0 < a.Length <= 4 * 1024 * 1024 then {a} else {}
    {
      if Poolable(a) {
        free := free + {a};
      }
    }
  }

  /** memBuf: data[..len] of a backing array whose length is the capacity. */
  class Buffer {
    const pool: DataPool
    var data: array<byte>
    var len: nat
    ghost var copied: nat        // bytes copied by reallocations so far
    ghost var largestEnd: nat    // the largest end ever requested
    ghost var reallocated: bool

    ghost predicate Valid()
      reads this, pool, pool.live
    {
      && pool.Valid() && this in pool.live && len <= data.Length
      && copied <= data.Length && (reallocated ==> data.Length < 2 * largestEnd)
    }

    ghost function Bytes(): Body
      reads this, data
    {
      if len <= data.Length then data[..len] else []
    }

    /** newMemBuf(nil). */
    constructor Pooled(pool: DataPool)
      requires pool.Valid()
      modifies pool
      ensures Valid() && this.pool == pool && Bytes() == [] && pool.live == old(pool.live) + {this}
    {
      var a := pool.Take();
      this.pool, data, len := pool, a, 0;
      copied, largestEnd, reallocated := 0, 0, false;
      new;
      pool.live := pool.live + {this};
    }

    /** newMemBuf(data) of bytes the buffer alone owns. */
    constructor Owning(pool: DataPool, body: Body)
      requires pool.Valid()
      modifies pool
      ensures Valid() && this.pool == pool && Bytes() == body && pool.live == old(pool.live) + {this}
    {
      var a := new byte[|body|](i requires 0 <= i < |body| => body[i]);
      assert a !in pool.free && forall b :: b in pool.live ==> b.data != a;
      this.pool, data, len := pool, a, |body|;
      copied, largestEnd, reallocated := 0, 0, false;
      assert a[..] == body;
      new;
      pool.live := pool.live + {this};
      assert data[..len] == data[..];
    }

    method ReadAt(want: nat, off: nat) returns (got: Body, eof: bool)
      requires Valid()
      ensures (got, eof) == BufRead(Mem(Bytes()), want, off)
    {
      if off >= len {
        return [], true;
      }
      var n := if off + want <= len then want else len - off;
      got := data[off..off + n];
      eof := n < want;
      assert got == Slice(Bytes(), off, want);
    }

    /** grow: extends with zeros; capacity at least doubles when it must change. */
    method Grow(end: nat)
      requires Valid()
      modifies this, data, pool`free
      ensures Valid() && Bytes() == Extended(old(Bytes()), end)
      ensures forall c :: c in pool.live && c != this ==> c.Bytes() == old(c.Bytes())
      ensures data == old(data) || fresh(data)
      ensures len == Max(old(len), end)
    {
      ghost var was := Bytes();
      largestEnd := Max(largestEnd, end);
      if end <= len {
        return;
      }
      if end <= data.Length {
        // whatever the array held before must not show
        forall i | len <= i < end {
          data[i] := 0;
        }
        len := end;
        assert data[..end] == was + Zeros(end - |was|);
      } else {
        Reallocate(end);
      }
    }

    /** The branch of grow that moves to a new array, recycling the old one. */
    method Reallocate(end: nat)
      requires Valid() && end > data.Length && largestEnd >= end
      modifies this, pool`free
      ensures Valid() && Bytes() == Extended(old(Bytes()), end) && len == end
      ensures fresh(data) && largestEnd == old(largestEnd)
      ensures 0 < old(data).Length <= 4 * 1024 * 1024 ==> old(data) in pool.free
    {
      ghost var was := Bytes();
      var capacity := Max(2 * data.Length, end);
      var grown := new byte[capacity](i => 0);
      forall i | 0 <= i < len {
        grown[i] := data[i];
      }
      copied, reallocated := copied + len, true;
      var stale := data;
      data := grown;
      len := end;
      assert data[..end] == was + Zeros(end - |was|);
      pool.Recycle(stale);
    }

    /** writeAt. */
    method WriteAt(p: Body, off: nat) returns (n: nat)
      requires Valid()
      modifies this, data, pool`free
      ensures Valid() && Bytes() == Overwritten(old(Bytes()), p, off) && n == |p|
      ensures forall c :: c in pool.live && c != this ==> c.Bytes() == old(c.Bytes())
      ensures data == old(data) || fresh(data)
    {
      Grow(off + |p|);
      CopyIn(p, off);
      return |p|;
    }

    /** copy(b.data[off:], p). */
    method CopyIn(p: Body, off: nat)
      requires Valid() && off + |p| <= len
      modifies data
      ensures Valid() && Bytes() == old(Bytes())[..off] + p + old(Bytes())[off + |p|..]
      ensures forall c :: c in pool.live && c != this ==> c.Bytes() == old(c.Bytes())
    {
      forall i | 0 <= i < |p| {
        data[off + i] := p[i];
      }
      assert Bytes() == old(Bytes())[..off] + p + old(Bytes())[off + |p|..];
    }

    /** truncate: shrinking keeps the array, and its stale bytes. */
    method Truncate(size: nat)
      requires Valid()
      modifies this, data, pool`free
      ensures Valid() && Bytes() == Resized(old(Bytes()), size)
      ensures forall c :: c in pool.live && c != this ==> c.Bytes() == old(c.Bytes())
      ensures data == old(data) || fresh(data)
    {
      if size <= len {
        len := size;
      } else {
        Grow(size);
      }
    }

    /** snapshot: an independent copy of the contents. */
    method Snapshot() returns (body: Body)
      requires Valid()
      ensures body == Bytes()
    {
      body := data[..len];
    }

    /** destroy, and the recycling when a buffer is spilled: the array goes back to
        the pool and the buffer is used no more. */
    method Destroy()
      requires Valid()
      modifies this, pool
      ensures pool.Valid() && pool.live == old(pool.live) - {this} && Bytes() == []
      ensures pool.free == old(pool.free) + if 0 < old(data).Length <= 4 * 1024 * 1024 then {old(data)} else {}
    {
      var stale := data;
      pool.live := pool.live - {this};
      data := new byte[0];
      len, copied := 0, 0;
      reallocated := false;
      pool.Recycle(stale);
    }
  }
}
