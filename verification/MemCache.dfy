/** The memory tier (mem.go): metadata, negative lookups, directory existence and
    small bodies over the LRU.

    A key that ends in "/" is a directory prefix: its `exists` says whether any
    key lies under it.  Any put may evict any other entry, so nothing here relies
    on an entry still being present. */
module MemCache {
  import opened Common
  import opened Bucket
  import opened Lru

  const ENTRY_OVERHEAD: nat := 256

  datatype MemEntry = MemEntry(present: bool, head: Option<Head>, data: Option<Body>)

  predicate IsDirKey(key: string) {
    |key| > 0 && key[|key| - 1] == '/'
  }

  /** The ancestor directory prefixes of key that end before position n, itself
      included when it is a directory key. */
  predicate IsAncestor(p: string, key: string, n: nat) {
    IsDirKey(p) && p <= key && |p| <= n
  }

  /** What an entry claims is true of the bucket. */
  ghost predicate EntryOk(s: Store, key: string, e: MemEntry) {
    && (e.present <==> if IsDirKey(key) then DirExists(s, key) else key in s)
    && (e.head.Some? ==> key in s && e.head.value == HeadOf(s[key]))
    && (e.data.Some? ==> key in s && e.data.value == s[key].body)
  }

  ghost predicate Coherent(s: Store, entries: seq<Entry<MemEntry>>) {
    forall e :: e in entries ==> EntryOk(s, e.key, e.value)
  }

  // ------------------------------------------------------- what a call may learn

  /** What an operation adds is of a key in `named`, or says that a directory
      exists. */
  ghost predicate LearnsOnly(before: seq<Entry<MemEntry>>, after: seq<Entry<MemEntry>>, named: iset<string>) {
    forall e :: e in after ==> e in before || e.key in named || (IsDirKey(e.key) && e.value.present)
  }

  /** Storing this much of a key names it, unless it is a directory that exists. */
  ghost function Learnt(key: string, present: bool): iset<string> {
    if IsDirKey(key) && present then iset{} else iset{key}
  }

  lemma LearnsAgain(a: seq<Entry<MemEntry>>, b: seq<Entry<MemEntry>>, c: seq<Entry<MemEntry>>,
                    some: iset<string>, more: iset<string>, named: iset<string>)
    requires LearnsOnly(a, b, some) && LearnsOnly(b, c, more) && some <= named && more <= named
    ensures LearnsOnly(a, c, named)
  {
  }

  /** None of these is key or an ancestor of it. */
  ghost predicate Avoids(named: iset<string>, key: string) {
    forall k :: k in named ==> k != key && !IsAncestor(k, key, |key|)
  }

  /** The cache has nothing that a write of key alone could falsify. */
  ghost predicate Unread(entries: seq<Entry<MemEntry>>, key: string) {
    forall e :: e in entries ==> e.key != key && (IsAncestor(e.key, key, |key|) ==> e.value.present)
  }

  // ----------------------------------------------------- how the bucket changes

  /** Stores that differ at most at key. */
  ghost predicate SameBut(s: Store, t: Store, key: string) {
    forall k :: k != key ==> (k in s <==> k in t) && (k in s ==> s[k] == t[k])
  }

  /** Only entries of the key itself and of its ancestors can turn wrong. */
  lemma ElsewhereStaysOk(s: Store, t: Store, key: string, k: string, e: MemEntry)
    requires SameBut(s, t, key) && EntryOk(s, k, e)
    requires k != key && !IsAncestor(k, key, |key|)
    ensures EntryOk(t, k, e)
  {
    if IsDirKey(k) {
      if DirExists(s, k) {
        var x :| x in s && k <= x;
        assert x in t;
      }
      if DirExists(t, k) {
        var x :| x in t && k <= x;
        assert x in s;
      }
    }
  }

  /** Adding or replacing key makes every ancestor directory exist. */
  lemma AncestorsExist(s: Store, key: string, p: string)
    requires key in s && IsAncestor(p, key, |key|)
    ensures DirExists(s, p)
  {
  }

  /** Forgetting key and its ancestors is enough for any change of that one key:
      a delete, a write, or an upload that bypassed the cache. */
  lemma InvalidationSuffices(s: Store, t: Store, key: string, entries: seq<Entry<MemEntry>>)
    requires SameBut(s, t, key) && Coherent(s, entries)
    requires forall e :: e in entries ==> e.key != key && !IsAncestor(e.key, key, |key|)
    ensures Coherent(t, entries)
  {
    forall e | e in entries
      ensures EntryOk(t, e.key, e.value)
    {
      ElsewhereStaysOk(s, t, key, e.key, e.value);
    }
  }

  /** And nothing less is: exactly the entries of key and of its ancestors can be
      made wrong by a change of key alone. */
  lemma InvalidationIsExact(key: string, k: string)
    ensures (k == key || IsAncestor(k, key, |key|)) <==>
            exists s, t, e :: SameBut(s, t, key) && EntryOk(s, k, e) && !EntryOk(t, k, e)
  {
    if k == key || IsAncestor(k, key, |key|) {
      var s: Store, t: Store := map[], map[key := Object([], Meta(None, None))];
      var e := MemEntry(false, None, None);
      assert key in t && k <= key;
      assert SameBut(s, t, key) && EntryOk(s, k, e) && !EntryOk(t, k, e);
    } else {
      forall s, t, e | SameBut(s, t, key) && EntryOk(s, k, e)
        ensures EntryOk(t, k, e)
      {
        ElsewhereStaysOk(s, t, key, k, e);
      }
    }
  }

  /** A cache at any later time, coherent with the bucket of that time, stays so
      through an upload that bypasses it if and only if what it holds of the key
      and of its ancestors is right for the bucket the upload leaves. */
  lemma UploadIsSeenExactly(s: Store, t: Store, key: string, entries: seq<Entry<MemEntry>>)
    requires SameBut(s, t, key) && Coherent(s, entries)
    ensures Coherent(t, entries) <==>
            forall e :: e in entries && (e.key == key || IsAncestor(e.key, key, |key|)) ==> EntryOk(t, e.key, e.value)
  {
    forall e | e in entries && e.key != key && !IsAncestor(e.key, key, |key|)
      ensures EntryOk(t, e.key, e.value)
    {
      ElsewhereStaysOk(s, t, key, e.key, e.value);
    }
  }

  lemma UnreadStays(before: seq<Entry<MemEntry>>, after: seq<Entry<MemEntry>>, named: iset<string>, key: string)
    requires Unread(before, key) && LearnsOnly(before, after, named) && Avoids(named, key) && !IsDirKey(key)
    ensures Unread(after, key)
  {
  }

  lemma UnreadStaysRight(s: Store, t: Store, key: string, entries: seq<Entry<MemEntry>>)
    requires SameBut(s, t, key) && Coherent(s, entries) && key in t && Unread(entries, key)
    ensures Coherent(t, entries)
  {
    forall e | e in entries && IsAncestor(e.key, key, |key|)
      ensures EntryOk(t, e.key, e.value)
    {
      PresentStaysOk(s, t, key, e.key, e.value);
    }
    UploadIsSeenExactly(s, t, key, entries);
  }

  /** The states of the cache from the moment it forgot key and its ancestors, with
      the keys each operation in between named or found missing. */
  ghost predicate IsHistory(run: seq<seq<Entry<MemEntry>>>, named: seq<iset<string>>, key: string) {
    && |run| == |named| + 1
    && (forall e :: e in run[0] ==> e.key != key && !IsAncestor(e.key, key, |key|))
    && forall i :: 0 <= i < |named| ==> LearnsOnly(run[i], run[i + 1], named[i])
  }

  lemma {:induction false} HistoryUnread(run: seq<seq<Entry<MemEntry>>>, named: seq<iset<string>>, key: string, n: nat)
    requires IsHistory(run, named, key) && !IsDirKey(key) && n < |run|
    requires forall i :: 0 <= i < n ==> Avoids(named[i], key)
    ensures Unread(run[n], key)
  {
    if n > 0 {
      HistoryUnread(run, named, key, n - 1);
      UnreadStays(run[n - 1], run[n], named[n - 1], key);
    }
  }

  /** An upload of key that bypasses the cache is seen, whatever operations ran since
      the cache forgot the key, as long as none named the key or found one of its
      ancestor directories missing. */
  lemma UploadUnreadIsSeen(run: seq<seq<Entry<MemEntry>>>, named: seq<iset<string>>, key: string, s: Store, t: Store)
    requires IsHistory(run, named, key) && !IsDirKey(key)
    requires forall i :: 0 <= i < |named| ==> Avoids(named[i], key)
    requires Coherent(s, run[|named|]) && SameBut(s, t, key) && key in t
    ensures Coherent(t, run[|named|])
  {
    HistoryUnread(run, named, key, |named|);
    UnreadStaysRight(s, t, key, run[|named|]);
  }

  /** A PUT that was applied although its reply was lost leaves the cache coherent if
      and only if what it holds of the key is the new object, and it takes no
      ancestor for missing. */
  lemma LostPutExactly(s: Store, key: string, o: Object, entries: seq<Entry<MemEntry>>)
    requires Coherent(s, entries) && !IsDirKey(key)
    ensures Coherent(s[key := o], entries) <==> forall e :: e in entries ==>
              && (IsAncestor(e.key, key, |key|) ==> e.value.present)
              && (e.key == key ==> e.value.present && (e.value.head.Some? ==> e.value.head.value == HeadOf(o))
                                   && (e.value.data.Some? ==> e.value.data.value == o.body))
  {
    var t := s[key := o];
    UploadIsSeenExactly(s, t, key, entries);
    forall e | e in entries && IsAncestor(e.key, key, |key|)
      ensures EntryOk(t, e.key, e.value) <==> e.value.present
    {
      AncestorsExist(t, key, e.key);
    }
  }

  /** The same of a DELETE: the key is held as absent, and an ancestor as present
      exactly when another key lies below it. */
  lemma LostDeleteExactly(s: Store, key: string, entries: seq<Entry<MemEntry>>)
    requires Coherent(s, entries) && !IsDirKey(key)
    ensures Coherent(s - {key}, entries) <==> forall e :: e in entries ==>
              && (IsAncestor(e.key, key, |key|) ==> (e.value.present <==> DirExists(s - {key}, e.key)))
              && (e.key == key ==> e.value == MemEntry(false, None, None))
  {
    var t := s - {key};
    UploadIsSeenExactly(s, t, key, entries);
  }

  /** A directory known to exist stays so when key is written. */
  lemma PresentStaysOk(s: Store, t: Store, key: string, p: string, e: MemEntry)
    requires SameBut(s, t, key) && key in t && p != key && IsAncestor(p, key, |key|)
    requires EntryOk(s, p, e) && e.present
    ensures EntryOk(t, p, e)
  {
    AncestorsExist(t, key, p);
  }

  /** Each position of key adds at most one ancestor, the prefix ending in its "/". */
  lemma NextAncestor(q: string, key: string, i: nat)
    requires i < |key|
    ensures IsAncestor(q, key, i + 1) <==> IsAncestor(q, key, i) || (key[i] == '/' && q == key[..i + 1])
  {
    if IsAncestor(q, key, i + 1) && |q| == i + 1 {
      assert q == key[..i + 1];
    }
  }

  lemma SameKeySame(entries: seq<Entry<MemEntry>>, a: Entry<MemEntry>, b: Entry<MemEntry>)
    requires Distinct(entries) && a in entries && b in entries && a.key == b.key
    ensures a == b
  {
    var i :| 0 <= i < |entries| && entries[i] == a;
    var j :| 0 <= j < |entries| && entries[j] == b;
    assert i == j;
  }

  predicate Has(entries: seq<Entry<MemEntry>>, key: string) {
    exists e :: e in entries && e.key == key
  }

  predicate HasBody(entries: seq<Entry<MemEntry>>, key: string, body: Body) {
    exists e :: e in entries && e.key == key && e.value.data == Some(body)
  }

  // ------------------------------------------------------------------ the budget

  function Size(e: MemEntry): nat {
    if e.data.Some? then |e.data.value| else 0
  }

  /** An entry costs what it holds, and a fixed amount besides. */
  predicate AllCosted(entries: seq<Entry<MemEntry>>) {
    forall e :: e in entries ==> e.cost == 256 + |e.key| + Size(e.value)
  }

  /** The keys and bodies held. */
  function BytesHeld(entries: seq<Entry<MemEntry>>): nat {
    if entries == [] then 0
    else |entries[0].key| + Size(entries[0].value) + BytesHeld(entries[1..])
  }

  lemma {:induction false} HeldIsCost(entries: seq<Entry<MemEntry>>)
    requires AllCosted(entries)
    ensures BytesHeld(entries) + 256 * |entries| == Cost(entries)
  {
    if entries != [] {
      HeldIsCost(entries[1..]);
      assert entries == [entries[0]] + entries[1..];
      CostConcat([entries[0]], entries[1..]);
      assert entries[0] in entries;
      assert [entries[0]][..0] == [];
    }
  }

  /** All that the tier holds, entries included, stays within the budget. */
  lemma WithinBudget(c: Cache)
    requires c.Valid()
    ensures BytesHeld(c.idx.entries) + 256 * |c.idx.entries| <= c.maxBytes
  {
    HeldIsCost(c.idx.entries);
  }

  // ------------------------------------------------------------- the code itself

  /** Entries of key, and of its ancestors that end before n, are right for t already,
      all others for s. */
  ghost predicate RightUpTo(s: Store, t: Store, key: string, n: nat, entries: seq<Entry<MemEntry>>) {
    forall e :: e in entries ==> EntryOk(if e.key == key || IsAncestor(e.key, key, n) then t else s, e.key, e.value)
  }

  lemma NextRight(s: Store, t: Store, key: string, i: nat, entries: seq<Entry<MemEntry>>)
    requires i < |key| && key[i] != '/' && RightUpTo(s, t, key, i, entries)
    ensures RightUpTo(s, t, key, i + 1, entries)
  {
    forall e | e in entries
      ensures EntryOk(if e.key == key || IsAncestor(e.key, key, i + 1) then t else s, e.key, e.value)
    {
      NextAncestor(e.key, key, i);
    }
  }

  lemma RightThroughout(s: Store, t: Store, key: string, entries: seq<Entry<MemEntry>>)
    requires SameBut(s, t, key) && RightUpTo(s, t, key, |key|, entries)
    ensures Coherent(t, entries)
  {
    forall e | e in entries
      ensures EntryOk(t, e.key, e.value)
    {
      if e.key != key && !IsAncestor(e.key, key, |key|) {
        ElsewhereStaysOk(s, t, key, e.key, e.value);
      }
    }
  }

  lemma IsADir(t: Store, key: string, i: nat)
    requires key in t && i < |key| && key[i] == '/'
    ensures EntryOk(t, key[..i + 1], MemEntry(true, None, None))
  {
    AncestorsExist(t, key, key[..i + 1]);
  }

  lemma StillADir(s: Store, t: Store, key: string, i: nat, e: MemEntry)
    requires SameBut(s, t, key) && key in t && i < |key| && key[i] == '/' && e.present
    requires var p := key[..i + 1]; EntryOk(if p == key || IsAncestor(p, key, i) then t else s, p, e)
    ensures EntryOk(t, key[..i + 1], e)
  {
    var p := key[..i + 1];
    if p != key {
      PresentStaysOk(s, t, key, p, e);
    }
  }

  class Cache {
    const maxBytes: int
    const idx: LruIndex<MemEntry>

    predicate Valid()
      reads this, idx
    {
      idx.Valid() && idx.maxBytes == maxBytes && AllCosted(idx.entries)
    }

    constructor (maxBytes: int, ttl: int)
      requires 0 < maxBytes
      ensures Valid() && fresh(idx) && idx.entries == [] && this.maxBytes == maxBytes && idx.ttl == ttl
    {
      this.maxBytes := maxBytes;
      idx := new LruIndex(maxBytes, ttl);
    }

    /** No body takes more than an eighth of the budget. */
    function MaxDataBytes(): (n: int)
      ensures 8 * n <= maxBytes < 8 * n + 8
    {
      maxBytes / 8
    }

    /** lookup: a hit is one of the entries held. */
    method Lookup(key: string, now: int) returns (r: Option<MemEntry>)
      requires Valid()
      modifies idx
      ensures Valid()
      ensures forall e :: e in idx.entries ==> e in old(idx.entries)
      ensures LearnsOnly(old(idx.entries), idx.entries, iset{})
      ensures r == Found(old(idx.entries), key, now)
      ensures forall e :: e in old(idx.entries) && e.key == key ==>
                r == if e.expires.Some? && e.expires.value <= now then None else Some(e.value)
      ensures (forall e :: e in old(idx.entries) ==> e.key != key) ==> r == None
      ensures r.Some? ==> Has(idx.entries, key)
      ensures r.Some? ==> exists e :: e in old(idx.entries) && e.key == key && e.value == r.value
    {
      var _ := Index(idx.entries, key);
      var evicted;
      r, evicted := idx.Get(key, now);
    }

    /** What an entry put now looks like in the index. */
    function Item(key: string, e: MemEntry, now: int): Entry<MemEntry> {
      Entry(key, e, ENTRY_OVERHEAD + |key| + if e.data.Some? then |e.data.value| else 0,
            if idx.ttl > 0 then Some(now + idx.ttl) else None)
    }

    method StoreLocked(key: string, e: MemEntry, now: int)
      requires Valid()
      modifies idx
      ensures Valid() && idx.entries == PutKeeps(old(idx.entries), Item(key, e, now), maxBytes)
      ensures forall x :: x in idx.entries ==> (x.key == key && x.value == e) || (x in old(idx.entries) && x.key != key)
      ensures 256 + |key| + Size(e) <= maxBytes ==> |idx.entries| > 0 && idx.entries[0].key == key && idx.entries[0].value == e
    {
      hide PutKeeps, PutEvicts;
      var cost := ENTRY_OVERHEAD + |key| + if e.data.Some? then |e.data.value| else 0;
      ghost var entry := Entry(key, e, cost, if idx.ttl > 0 then Some(now + idx.ttl) else None);
      PutKeepsWhat(idx.entries, entry, maxBytes);
      var evicted := idx.Put(key, e, cost, now);
    }

    method DeleteLocked(key: string)
      requires Valid()
      modifies idx
      ensures Valid()
      ensures forall x :: x in idx.entries ==> x in old(idx.entries) && x.key != key
    {
      WithoutRest(idx.entries, key);
      var evicted := idx.Delete(key);
    }

    /** store: bodies over the limit are dropped, keeping metadata only. */
    method Store(key: string, present: bool, head: Option<Head>, data: Option<Body>, now: int, ghost s: Bucket.Store)
      requires Valid() && Coherent(s, idx.entries)
      requires EntryOk(s, key, MemEntry(present, head, data))
      modifies idx
      ensures Valid() && Coherent(s, idx.entries)
      ensures var kept := if data.Some? && |data.value| > MaxDataBytes() then None else data;
              idx.entries == PutKeeps(old(idx.entries), Item(key, MemEntry(present, head, kept), now), maxBytes)
      ensures LearnsOnly(old(idx.entries), idx.entries, Learnt(key, present))
      ensures data.None? && 256 + |key| <= maxBytes ==> Has(idx.entries, key)
      ensures data.Some? && 8 * |data.value| <= maxBytes && 256 + |key| + |data.value| <= maxBytes ==>
                HasBody(idx.entries, key, data.value)
    {
      var kept := if data.Some? && |data.value| > MaxDataBytes() then None else data;
      StoreLocked(key, MemEntry(present, head, kept), now);
      if |idx.entries| > 0 {
        assert idx.entries[0] in idx.entries;
      }
    }

    /** markDirsLocked: after key was written, every ancestor directory exists. */
    method MarkDirs(key: string, now: int, ghost s: Bucket.Store, ghost t: Bucket.Store)
      requires Valid() && SameBut(s, t, key) && key in t
      requires forall e :: e in idx.entries ==> EntryOk(if e.key == key then t else s, e.key, e.value)
      modifies idx
      ensures Valid() && Coherent(t, idx.entries) && LearnsOnly(old(idx.entries), idx.entries, iset{})
    {
      hide Coherent, EntryOk;
      var i := 0;
      assert RightUpTo(s, t, key, 0, idx.entries);
      while i < |key|
        invariant i <= |key| && Valid() && LearnsOnly(old(idx.entries), idx.entries, iset{})
        invariant RightUpTo(s, t, key, i, idx.entries)
      {
        ghost var before := idx.entries;
        if key[i] == '/' {
          MarkDir(key, i, now, s, t);
          LearnsAgain(old(idx.entries), before, idx.entries, iset{}, iset{}, iset{});
        } else {
          NextRight(s, t, key, i, idx.entries);
        }
        i := i + 1;
      }
      RightThroughout(s, t, key, idx.entries);
    }

    /** One ancestor, the one that ends at i. */
    method MarkDir(key: string, i: nat, now: int, ghost s: Bucket.Store, ghost t: Bucket.Store)
      requires Valid() && SameBut(s, t, key) && key in t && i < |key| && key[i] == '/'
      requires RightUpTo(s, t, key, i, idx.entries)
      modifies idx
      ensures Valid() && RightUpTo(s, t, key, i + 1, idx.entries)
      ensures LearnsOnly(old(idx.entries), idx.entries, iset{})
    {
      hide PutKeeps, Found, AllCosted, Size, Has, DirExists, EntryOk, IsAncestor;
      ghost var before := idx.entries;
      var p := key[..i + 1];
      var r := Lookup(p, now);
      if !(r.Some? && r.value.present) {
        StoreLocked(p, MemEntry(true, None, None), now);
      }
      forall e | e in idx.entries
        ensures EntryOk(if e.key == key || IsAncestor(e.key, key, i + 1) then t else s, e.key, e.value)
      {
        NextAncestor(e.key, key, i);
        if e.key != p {
          assert e in before;
        } else if r.Some? && r.value.present {
          var x :| x in before && x.key == p && x.value == r.value;
          SameKeySame(before, e, x);
          StillADir(s, t, key, i, e.value);
        } else {
          IsADir(t, key, i);
        }
      }
    }

    /** storeWrite: a successful PUT of key with this body and metadata. */
    method StoreWrite(key: string, body: Body, keepBody: bool, meta: Meta, now: int, ghost s: Bucket.Store)
      requires Valid() && Coherent(s, idx.entries)
      modifies idx
      ensures Valid() && Coherent(s[key := Object(body, meta)], idx.entries)
      ensures LearnsOnly(old(idx.entries), idx.entries, Learnt(key, true))
      ensures !IsDirKey(key) ==> forall e :: e in idx.entries && e.key == key ==>
                e.value == MemEntry(true, Some(Head(|body|, ETagOf(body), meta)),
                                    if keepBody && 8 * |body| <= maxBytes then Some(body) else None)
    {
      hide PutKeeps, AllCosted, Size, IsAncestor;
      ghost var t := s[key := Object(body, meta)];
      var data := if keepBody && |body| <= MaxDataBytes() then Some(body) else None;
      var e := MemEntry(true, Some(Head(|body|, ETagOf(body), meta)), data);
      assert EntryOk(t, key, e) by {
        assert key <= key;
        assert key in t;
      }
      StoreLocked(key, e, now);
      MarkDirs(key, now, s, t);
    }

    /** storeCopied: a successful server-side copy. */
    method StoreCopied(src: string, dst: string, now: int, ghost s: Bucket.Store)
      requires Valid() && Coherent(s, idx.entries) && src in s
      modifies idx
      ensures Valid() && Coherent(s[dst := s[src]], idx.entries)
      ensures LearnsOnly(old(idx.entries), idx.entries, Learnt(dst, true))
      ensures !IsDirKey(dst) ==> forall e :: e in idx.entries && e.key == dst ==>
                exists x :: x in old(idx.entries) && x.key == src && x.value.present && x.value.head.Some? && x.value == e.value
    {
      ghost var t := s[dst := s[src]];
      ghost var before := idx.entries;
      var e := Lookup(src, now);
      if e.Some? && e.value.present && e.value.head.Some? {
        ghost var x :| x in before && x.key == src && x.value == e.value;
        var copy := MemEntry(true, e.value.head, e.value.data);
        assert EntryOk(t, dst, copy) by {
          assert dst <= dst;
          assert dst in t;
        }
        StoreLocked(dst, copy, now);
      } else {
        DeleteLocked(dst);
      }
      MarkDirs(dst, now, s, t);
    }

    /** dropDeleted: forgets key and every ancestor directory. */
    method DropDeleted(key: string, ghost s: Bucket.Store)
      requires Valid() && Coherent(s, idx.entries)
      modifies idx
      ensures Valid() && forall e :: e in idx.entries ==> e.key != key && !IsAncestor(e.key, key, |key|)
      ensures forall t :: SameBut(s, t, key) ==> Coherent(t, idx.entries)
      ensures LearnsOnly(old(idx.entries), idx.entries, iset{})
    {
      DeleteLocked(key);
      var i := 0;
      while i < |key|
        invariant i <= |key| && Valid() && Coherent(s, idx.entries) && LearnsOnly(old(idx.entries), idx.entries, iset{})
        invariant forall e :: e in idx.entries ==> e.key != key && !IsAncestor(e.key, key, i)
      {
        if key[i] == '/' {
          DeleteLocked(key[..i + 1]);
        }
        forall e | e in idx.entries
          ensures !IsAncestor(e.key, key, i + 1)
        {
          NextAncestor(e.key, key, i);
        }
        i := i + 1;
      }
      forall t, e | SameBut(s, t, key) && e in idx.entries
        ensures EntryOk(t, e.key, e.value)
      {
        ElsewhereStaysOk(s, t, key, e.key, e.value);
      }
    }
  }

  /** But a read between the invalidation and the upload puts the old answer back:
      the lookup after the upload still finds the key absent, until that entry
      expires, and for ever without a TTL. */
  method ReadBeforeUpload(c: Cache, key: string, now: int, later: int, ghost s: Bucket.Store, ghost uploaded: Object)
      returns (r: Option<MemEntry>)
    requires c.Valid() && Coherent(s, c.idx.entries) && key !in s && !IsDirKey(key)
    requires ENTRY_OVERHEAD + |key| <= c.maxBytes
    modifies c.idx
    ensures r == if c.idx.ttl > 0 && now + c.idx.ttl <= later then None else Some(MemEntry(false, None, None))
    ensures r.Some? ==> !EntryOk(s[key := uploaded], key, r.value)
  {
    hide PutKeeps;
    c.DropDeleted(key, s);
    assert SameBut(s, s, key);
    PutKeepsWhat(c.idx.entries, c.Item(key, MemEntry(false, None, None), now), c.maxBytes);
    c.Store(key, false, None, None, now, s);
    ghost var held := c.idx.entries;
    assert held[0].key == key && Index(held, key) == 0;
    r := c.Lookup(key, later);
  }
}
