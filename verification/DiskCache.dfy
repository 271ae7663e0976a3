/** The disk tier (disk.go, and diskFill of s3ops.go): bodies in local files,
    found through an LRU index and validated by ETag.

    A file name refers to an inode; a hard link shares it, and an inode outlives
    its names.  Every method below is one atomic step of the code (one critical
    section or one file system call), so any interleaving of any number of opens,
    downloads, copies, adoptions and spill writes is some sequence of them.  Each
    keeps the invariant, and each keeps every promise (Names, Reads) a concurrent
    operation may be relying on. */
module DiskCache {
  import opened Common
  import opened Lru

  const ENTRY_OVERHEAD: nat := 256

  /** s3fs-c-<n> holds a cached body, s3fs-w-<n> a write spill buffer. */
  datatype Kind = CacheFile | SpillFile
  datatype Path = Path(kind: Kind, n: nat)

  type Inode = nat

  datatype DiskEntry = DiskEntry(etag: string, size: nat, path: Path)

  /** `writable` are the files still being written: downloads in progress and
      open spill buffers.  `pending` are cache files not in the index yet. */
  datatype Disk = Disk(
    entries: seq<Entry<DiskEntry>>,
    files: map<Path, Inode>,
    inodes: map<Inode, Body>,
    seqNo: nat,
    writable: set<Path>,
    pending: set<Path>)

  // ------------------------------------------------------------ the invariant

  /** The path names a finished file holding the body of this ETag. */
  predicate Holds(d: Disk, p: Path, etag: string, size: nat) {
    && p in d.files && d.files[p] in d.inodes && Frozen(d, d.files[p])
    && ETagOf(d.inodes[d.files[p]]) == etag && |d.inodes[d.files[p]]| == size
  }

  predicate Frozen(d: Disk, i: Inode) {
    forall p :: p in d.writable && p in d.files ==> d.files[p] != i
  }

  /** The cache never lies. */
  predicate EntryHonest(d: Disk, e: DiskEntry) {
    e.path.kind.CacheFile? && e.path !in d.pending && Holds(d, e.path, e.etag, e.size)
  }

  predicate EntriesHonest(d: Disk) {
    forall e :: e in d.entries ==> EntryHonest(d, e.value)
  }

  predicate OnePathEach(d: Disk) {
    forall i, j :: 0 <= i < j < |d.entries| ==> d.entries[i].value.path != d.entries[j].value.path
  }

  predicate Listed(d: Disk, p: Path) {
    exists e :: e in d.entries && e.value.path == p
  }

  /** Conservation of files: the cache files on disk are exactly those of live
      entries and of operations in flight. */
  predicate FilesExact(d: Disk) {
    forall p :: p in d.files && p.kind.CacheFile? ==> p in d.pending || Listed(d, p)
  }

  predicate FilesKnown(d: Disk) {
    && (forall p :: p in d.files ==> p.n <= d.seqNo && d.files[p] in d.inodes)
    && (forall p :: p in d.pending ==> p in d.files && p.kind.CacheFile?)
    && (forall p :: p in d.writable ==> p in d.files)
    && (forall p :: p in d.writable && p.kind.CacheFile? ==> p in d.pending)
  }

  /** A file being written shares its inode with no other name. */
  predicate WritersAlone(d: Disk) {
    forall p, q :: p in d.writable && q in d.files && p in d.files && p != q ==> d.files[p] != d.files[q]
  }

  predicate DiskInv(d: Disk) {
    EntriesHonest(d) && OnePathEach(d) && FilesExact(d) && FilesKnown(d) && WritersAlone(d)
  }

  // ----------------------------------------------------------------- promises

  /** What a thread that read (path, etag, size) from the index may rely on: if
      the name still exists it still holds that body. */
  predicate Names(d: Disk, p: Path, etag: string, size: nat) {
    p.n <= d.seqNo && p !in d.writable && (p in d.files ==> Holds(d, p, etag, size))
  }

  /** What an open handle may rely on: its inode keeps that body. */
  predicate Reads(d: Disk, i: Inode, body: Body) {
    i in d.inodes && d.inodes[i] == body && Frozen(d, i)
  }

  ghost predicate KeepsPromises(d: Disk, t: Disk) {
    && d.seqNo <= t.seqNo
    && (forall p, etag, size :: Names(d, p, etag, size) ==> Names(t, p, etag, size))
    && (forall i, body :: Reads(d, i, body) ==> Reads(t, i, body))
  }

  /** The file p, in flight in some operation, is as that operation left it. */
  predicate Owned(d: Disk, t: Disk, p: Path) {
    && (p in d.pending <==> p in t.pending) && (p in d.writable <==> p in t.writable)
    && (p in d.files ==>
          && p in t.files && t.files[p] == d.files[p]
          && (d.files[p] in d.inodes ==> d.files[p] in t.inodes && t.inodes[d.files[p]] == d.inodes[d.files[p]]))
  }

  /** A step of one operation leaves the in-flight files of all others alone. */
  ghost predicate KeepsOthers(d: Disk, t: Disk, mine: set<Path>) {
    forall p :: (p in d.pending || p in d.writable) && p !in mine ==> Owned(d, t, p)
  }

  /** What every step of the code guarantees to concurrent operations. */
  ghost predicate Guarantee(d: Disk, t: Disk, mine: set<Path>) {
    KeepsPromises(d, t) && KeepsOthers(d, t, mine)
  }

  /** Files some operation is about to write, or to give to the index. */
  ghost predicate InFlight(d: Disk, mine: set<Path>) {
    forall p :: p in mine ==> p in d.files && (p in d.pending || p in d.writable)
  }

  /** What the owner of the files `mine` still knows after steps of others. */
  ghost predicate Spared(d: Disk, t: Disk, mine: set<Path>) {
    KeepsPromises(d, t) && forall p :: p in mine ==> Owned(d, t, p)
  }

  lemma MineSpared(d: Disk, t: Disk, theirs: set<Path>, mine: set<Path>)
    requires Guarantee(d, t, theirs) && InFlight(d, mine) && theirs !! mine
    ensures Spared(d, t, mine) && InFlight(t, mine)
  {
    assert forall p :: p in mine ==> Owned(d, t, p);
  }

  lemma InFlightAreOld(d: Disk, mine: set<Path>)
    requires DiskInv(d) && InFlight(d, mine)
    ensures forall p :: p in mine ==> p.n <= d.seqNo
  {
  }

  lemma WritersInFlight(d: Disk)
    requires DiskInv(d)
    ensures InFlight(d, d.writable)
  {
  }

  lemma SparedAgain(d: Disk, t: Disk, u: Disk, mine: set<Path>)
    requires Spared(d, t, mine) && Spared(t, u, mine) && InFlight(d, mine)
    ensures Spared(d, u, mine)
  {
    forall p | p in mine
      ensures Owned(d, u, p)
    {
      assert Owned(d, t, p) && Owned(t, u, p);
    }
  }

  lemma SparesItself(d: Disk, mine: set<Path>)
    ensures Spared(d, d, mine)
  {
  }

  /** One more step, by an operation that owns none of the files. */
  lemma SparedOnward(d: Disk, t: Disk, u: Disk, theirs: set<Path>, mine: set<Path>)
    requires InFlight(d, mine) && Spared(d, t, mine) && InFlight(t, mine)
    requires Guarantee(t, u, theirs) && theirs !! mine
    ensures Spared(d, u, mine) && InFlight(u, mine)
  {
    hide KeepsOthers;
    MineSpared(t, u, theirs, mine);
    SparedAgain(d, t, u, mine);
  }

  /** A file nobody writes any more holds what it holds. */
  lemma FinishedHolds(d: Disk, p: Path)
    requires DiskInv(d) && p in d.files && p !in d.writable
    ensures p.n <= d.seqNo && d.files[p] in d.inodes
    ensures Holds(d, p, ETagOf(d.inodes[d.files[p]]), |d.inodes[d.files[p]]|)
  {
  }

  /** A name whose file is gone is not given again. */
  lemma GoneStaysGone(d: Disk, t: Disk, p: Path)
    requires KeepsPromises(d, t) && p.n <= d.seqNo && p !in d.writable && p !in d.files
    ensures p.n <= t.seqNo && p !in t.writable && p !in t.files
  {
    assert Names(d, p, "", 0) && Names(d, p, "", 1);
    assert Names(t, p, "", 0) && Names(t, p, "", 1);
  }

  /** An entry of the key that has not expired. */
  predicate Live(entries: seq<Entry<DiskEntry>>, e: Entry<DiskEntry>, key: string, now: int) {
    e in entries && e.key == key && (e.expires.None? || now < e.expires.value)
  }

  lemma OnlyLive(entries: seq<Entry<DiskEntry>>, key: string, now: int)
    requires Distinct(entries)
    ensures var r := Found(entries, key, now);
            && (r.Some? <==> exists e :: Live(entries, e, key, now))
            && (forall e :: Live(entries, e, key, now) ==> r == Some(e.value))
  {
    FoundUntil(entries, key, now);
    if Found(entries, key, now).Some? {
      var i := Index(entries, key);
      assert Live(entries, entries[i], key, now);
    }
  }

  // ---------------------------------------------------------------- the budget

  /** An entry costs its body, and a fixed amount besides. */
  predicate AllCosted(entries: seq<Entry<DiskEntry>>) {
    forall e :: e in entries ==> e.cost == 256 + e.value.size
  }

  function BytesHeld(entries: seq<Entry<DiskEntry>>): nat {
    if entries == [] then 0 else entries[0].value.size + BytesHeld(entries[1..])
  }

  lemma {:induction false} HeldIsCost(entries: seq<Entry<DiskEntry>>)
    requires AllCosted(entries)
    ensures BytesHeld(entries) + 256 * |entries| == Cost(entries)
  {
    if entries != [] {
      HeldIsCost(entries[1..]);
      assert entries == [entries[0]] + entries[1..];
      CostConcat([entries[0]], entries[1..]);
      assert entries[0] in entries;
      assert [entries[0]][..0] == [];
    }
  }

  /** The bodies of the live entries, which are files of that size, stay within the
      budget together. */
  lemma WithinBudget(c: Cache)
    requires c.Valid()
    ensures BytesHeld(c.idx.entries) + 256 * |c.idx.entries| <= c.idx.maxBytes
    ensures forall e :: e in c.idx.entries ==>
              e.value.path in c.files && c.files[e.value.path] in c.inodes
              && |c.inodes[c.files[e.value.path]]| == e.value.size
  {
    HeldIsCost(c.idx.entries);
    forall e | e in c.idx.entries
      ensures e.value.path in c.files && c.files[e.value.path] in c.inodes
      ensures |c.inodes[c.files[e.value.path]]| == e.value.size
    {
      assert EntryHonest(c.View(), e.value);
    }
  }

  // ------------------------------------------------------------- spill buffers

  /** An open spill file: its name and the descriptor's inode. */
  datatype Spilled = Spilled(path: Path, inode: Inode)

  /** The owner is still writing it. */
  predicate SpillOpen(d: Disk, s: Spilled, body: Body) {
    && s.path.kind.SpillFile? && s.path in d.writable && s.path in d.files && d.files[s.path] == s.inode
    && s.inode in d.inodes && d.inodes[s.inode] == body
  }

  /** The owner writes it no more; the descriptor still reads this body. */
  predicate SpillFinished(d: Disk, s: Spilled, body: Body) {
    s.path.kind.SpillFile? && s.path.n <= d.seqNo && Reads(d, s.inode, body)
  }

  /** Open spill files of other names stay as their owners left them, and whatever
      was open for reading, under any name or none, reads the same. */
  ghost predicate FilesSpared(d: Disk, t: Disk, mine: set<Path>) {
    && d.seqNo <= t.seqNo
    && (forall s: Spilled, body: Body :: s.path !in mine && SpillOpen(d, s, body) ==> SpillOpen(t, s, body))
    && (forall i: Inode, body: Body :: Reads(d, i, body) ==> Reads(t, i, body))
  }

  lemma FilesKept(d: Disk, t: Disk, mine: set<Path>)
    requires Guarantee(d, t, mine)
    ensures FilesSpared(d, t, mine)
  {
    forall s: Spilled, body: Body | s.path !in mine && SpillOpen(d, s, body)
      ensures SpillOpen(t, s, body)
    {
      assert Owned(d, t, s.path);
    }
  }

  /** The same, while the owners of all open files do nothing. */
  lemma IdleFilesKept(d: Disk, t: Disk, idle: set<Path>)
    requires Spared(d, t, idle) && d.writable <= idle
    ensures FilesSpared(d, t, {})
  {
    forall s: Spilled, body: Body | SpillOpen(d, s, body)
      ensures SpillOpen(t, s, body)
    {
      assert Owned(d, t, s.path);
    }
  }

  lemma FilesSparedAgain(d: Disk, t: Disk, u: Disk, mine: set<Path>)
    requires FilesSpared(d, t, mine) && FilesSpared(t, u, mine)
    ensures FilesSpared(d, u, mine)
  {
  }

  ghost predicate NobodysSpill(d: Disk, p: Path) {
    forall s: Spilled, body: Body :: SpillOpen(d, s, body) || SpillFinished(d, s, body) ==> s.path != p
  }

  lemma NobodysBefore(d: Disk, t: Disk, mine: set<Path>, p: Path)
    requires FilesSpared(d, t, mine) && NobodysSpill(t, p) && p !in mine
    ensures NobodysSpill(d, p)
  {
    forall s: Spilled, body: Body | SpillFinished(d, s, body)
      ensures s.path != p
    {
      assert SpillFinished(t, s, body);
    }
  }

  /** The second step may touch files of its own that the first one made. */
  lemma FilesSparedThrough(d: Disk, t: Disk, u: Disk, mine: set<Path>, later: set<Path>)
    requires FilesSpared(d, t, mine) && FilesSpared(t, u, later)
    requires forall p :: p in later && p !in mine ==> NobodysSpill(d, p)
    ensures FilesSpared(d, u, mine)
  {
  }

  /** Creating a file p of a new name touches no spill of anybody. */
  lemma NewSpillSpares(d: Disk, t: Disk, p: Path)
    requires DiskInv(d) && FilesSpared(d, t, {p}) && p.n == d.seqNo + 1
    ensures FilesSpared(d, t, {}) && NobodysSpill(d, p)
  {
  }

  // ------------------------------------------------------- steps on file names

  function Paths(evicted: seq<DiskEntry>): set<Path> {
    set e | e in evicted :: e.path
  }

  function Created(d: Disk, p: Path, i: Inode): Disk {
    d.(files := d.files[p := i], inodes := d.inodes[i := []], seqNo := p.n, writable := d.writable + {p},
       pending := if p.kind.CacheFile? then d.pending + {p} else d.pending)
  }

  lemma CreatedKeepsPromises(d: Disk, p: Path, i: Inode)
    requires DiskInv(d) && p.n == d.seqNo + 1 && i !in d.inodes
    ensures Guarantee(d, Created(d, p, i), {p})
  {
    var t := Created(d, p, i);
    assert p !in d.files;
    assert forall j :: j in d.inodes && Frozen(d, j) ==> Frozen(t, j);
  }

  lemma CreatedKeeps(d: Disk, p: Path, i: Inode)
    requires DiskInv(d) && p.n == d.seqNo + 1 && i !in d.inodes
    ensures DiskInv(Created(d, p, i)) && Guarantee(d, Created(d, p, i), {p})
  {
    CreatedKeepsPromises(d, p, i);
    var t := Created(d, p, i);
    assert p !in d.files;
    assert forall j :: j in d.inodes && Frozen(d, j) ==> Frozen(t, j);
    forall e | e in t.entries
      ensures EntryHonest(t, e.value)
    {
      assert EntryHonest(d, e.value);
    }
    forall q | q in t.files && q.kind.CacheFile?
      ensures q in t.pending || Listed(t, q)
    {
      assert q != p && Listed(d, q) ==> Listed(t, q);
    }
  }

  function Rewritten(d: Disk, p: Path, body: Body): Disk
    requires p in d.files
  {
    d.(inodes := d.inodes[d.files[p] := body])
  }

  lemma RewrittenKeeps(d: Disk, p: Path, body: Body)
    requires DiskInv(d) && p in d.writable
    ensures p in d.files
    ensures DiskInv(Rewritten(d, p, body)) && Guarantee(d, Rewritten(d, p, body), {p})
  {
    var t := Rewritten(d, p, body);
    assert forall i :: Frozen(d, i) ==> Frozen(t, i) && i != d.files[p];
    forall e | e in t.entries
      ensures EntryHonest(t, e.value)
    {
      assert EntryHonest(d, e.value);
    }
    forall q | q in t.files && q.kind.CacheFile?
      ensures q in t.pending || Listed(t, q)
    {
      assert Listed(d, q) ==> Listed(t, q);
    }
  }

  /** The owner of p stops writing it. */
  function Finished(d: Disk, p: Path): Disk {
    d.(writable := d.writable - {p})
  }

  lemma FinishedKeeps(d: Disk, p: Path)
    requires DiskInv(d)
    ensures DiskInv(Finished(d, p)) && Guarantee(d, Finished(d, p), {p})
  {
    var t := Finished(d, p);
    assert forall i :: Frozen(d, i) ==> Frozen(t, i);
    forall e | e in t.entries
      ensures EntryHonest(t, e.value)
    {
      assert EntryHonest(d, e.value);
    }
    forall q | q in t.files && q.kind.CacheFile?
      ensures q in t.pending || Listed(t, q)
    {
      assert Listed(d, q) ==> Listed(t, q);
    }
  }

  /** os.Remove by the owner of an in-flight file. */
  function Discarded(d: Disk, p: Path): Disk {
    d.(files := d.files - {p}, writable := d.writable - {p}, pending := d.pending - {p})
  }

  lemma DiscardedKeeps(d: Disk, p: Path)
    requires DiskInv(d) && (p in d.pending || p.kind.SpillFile?)
    ensures DiskInv(Discarded(d, p)) && Guarantee(d, Discarded(d, p), {p})
  {
    var t := Discarded(d, p);
    assert forall i :: Frozen(d, i) ==> Frozen(t, i);
    forall e | e in t.entries
      ensures EntryHonest(t, e.value)
    {
      assert EntryHonest(d, e.value);
    }
    forall q | q in t.files && q.kind.CacheFile?
      ensures q in t.pending || Listed(t, q)
    {
      assert Listed(d, q) ==> Listed(t, q);
    }
  }

  /** A name was drawn, and nothing came of it. */
  lemma NumberedKeeps(d: Disk, n: nat)
    requires DiskInv(d) && d.seqNo <= n
    ensures DiskInv(d.(seqNo := n)) && Guarantee(d, d.(seqNo := n), {})
  {
    var t := d.(seqNo := n);
    assert forall i :: Frozen(d, i) <==> Frozen(t, i);
    forall e | e in t.entries
      ensures EntryHonest(t, e.value)
    {
      assert EntryHonest(d, e.value);
    }
    forall q | q in t.files && q.kind.CacheFile?
      ensures q in t.pending || Listed(t, q)
    {
      assert Listed(d, q) ==> Listed(t, q);
    }
  }

  /** os.Link to a fresh cache file name. */
  function Linked(d: Disk, src: Path, dst: Path): Disk
    requires src in d.files
  {
    d.(files := d.files[dst := d.files[src]], seqNo := dst.n, pending := d.pending + {dst})
  }

  lemma LinkedKeeps(d: Disk, src: Path, dst: Path, etag: string, size: nat)
    requires DiskInv(d) && Names(d, src, etag, size) && src in d.files
    requires dst.kind.CacheFile? && dst.n == d.seqNo + 1
    ensures var t := Linked(d, src, dst);
            DiskInv(t) && Guarantee(d, t, {dst}) && Holds(t, dst, etag, size)
            && dst in t.pending && dst !in t.writable
  {
    var t := Linked(d, src, dst);
    assert dst !in d.files && dst !in d.writable;
    assert forall i :: Frozen(d, i) <==> Frozen(t, i);
    forall e | e in t.entries
      ensures EntryHonest(t, e.value)
    {
      assert EntryHonest(d, e.value);
    }
    forall q | q in t.files && q.kind.CacheFile?
      ensures q in t.pending || Listed(t, q)
    {
      assert Listed(d, q) ==> Listed(t, q);
    }
  }

  // --------------------------------------------------------- steps on the index

  predicate DistinctPaths(s: seq<DiskEntry>) {
    forall i, j :: 0 <= i < j < |s| ==> s[i].path != s[j].path
  }

  lemma {:induction false} CountAtMostOne(s: seq<DiskEntry>, x: DiskEntry)
    requires DistinctPaths(s)
    ensures multiset(s)[x] <= 1
  {
    if s != [] {
      var init := s[..|s| - 1];
      assert s == init + [s[|s| - 1]];
      CountAtMostOne(init, x);
      if s[|s| - 1] == x {
        assert x !in init;
      }
    }
  }

  lemma {:induction false} CountTwice(s: seq<DiskEntry>, i: nat, j: nat)
    requires i < j < |s| && s[i] == s[j]
    ensures multiset(s)[s[i]] >= 2
  {
    assert s == s[..j] + s[j..];
    assert s[i] in s[..j] && s[i] in s[j..];
  }

  lemma SamePathSame(s: seq<DiskEntry>, x: DiskEntry, y: DiskEntry)
    requires DistinctPaths(s) && x in s && y in s && x.path == y.path
    ensures x == y
  {
    var i :| 0 <= i < |s| && s[i] == x;
    var j :| 0 <= j < |s| && s[j] == y;
    assert i == j;
  }

  /** Splitting entries with distinct paths gives disjoint sets of paths. */
  lemma SplitApart(all: seq<DiskEntry>, kept: seq<DiskEntry>, gone: seq<DiskEntry>)
    requires DistinctPaths(all) && multiset(all) == multiset(kept) + multiset(gone)
    ensures DistinctPaths(kept)
    ensures forall x :: x in kept ==> x in all && x.path !in Paths(gone)
    ensures forall x :: x in all ==> x in kept || x in gone
    ensures forall x :: x in gone ==> x in all
  {
    assert forall x :: x in all <==> x in multiset(all);
    assert forall x :: x in kept <==> x in multiset(kept);
    assert forall x :: x in gone <==> x in multiset(gone);
    forall x, y | x in kept && y in gone
      ensures x.path != y.path
    {
      CountAtMostOne(all, x);
      assert multiset(kept)[x] >= 1 && multiset(gone)[y] >= 1;
      if x.path == y.path {
        SamePathSame(all, x, y);
      }
    }
    forall i, j | 0 <= i < j < |kept|
      ensures kept[i].path != kept[j].path
    {
      if kept[i].path == kept[j].path {
        assert kept[i] in all && kept[j] in all;
        CountTwice(kept, i, j);
        CountAtMostOne(all, kept[i]);
      }
    }
  }

  /** The index went from d.entries to `entries`, taking `added` in and handing
      `evicted` to onEvict, whose callback removes their files. */
  function Reindexed(d: Disk, entries: seq<Entry<DiskEntry>>, added: seq<DiskEntry>, evicted: seq<DiskEntry>): Disk {
    d.(entries := entries, files := d.files - Paths(evicted), pending := d.pending - Paths(added))
  }

  /** A finished file about to enter the index. */
  predicate Insertable(d: Disk, e: DiskEntry) {
    e.path in d.pending && e.path !in d.writable && Holds(d, e.path, e.etag, e.size)
  }

  lemma AllDistinct(d: Disk, added: seq<DiskEntry>)
    requires DiskInv(d) && |added| <= 1 && forall e :: e in added ==> Insertable(d, e)
    ensures DistinctPaths(Values(d.entries) + added)
  {
    forall i | 0 <= i < |d.entries|
      ensures d.entries[i].value.path !in d.pending
    {
      assert d.entries[i] in d.entries;
      assert EntryHonest(d, d.entries[i].value);
    }
    var all := Values(d.entries) + added;
    assert forall i :: 0 <= i < |d.entries| ==> all[i] == d.entries[i].value;
    forall i | |d.entries| <= i < |all|
      ensures all[i] in added && all[i].path in d.pending
    {
      assert all[i] == added[i - |d.entries|];
    }
  }

  lemma ReindexedFiles(d: Disk, entries: seq<Entry<DiskEntry>>, added: seq<DiskEntry>, evicted: seq<DiskEntry>)
    requires DiskInv(d) && |added| <= 1 && forall e :: e in added ==> Insertable(d, e)
    requires multiset(Values(d.entries) + added) == multiset(Values(entries)) + multiset(evicted)
    ensures FilesExact(Reindexed(d, entries, added, evicted))
  {
    var t := Reindexed(d, entries, added, evicted);
    AllDistinct(d, added);
    SplitApart(Values(d.entries) + added, Values(entries), evicted);
    forall p | p in t.files && p.kind.CacheFile?
      ensures p in t.pending || Listed(t, p)
    {
      if p !in t.pending {
        var x: DiskEntry;
        if p in d.pending {
          x :| x in added && x.path == p;
        } else {
          assert Listed(d, p);
          var e :| e in d.entries && e.value.path == p;
          var i :| 0 <= i < |d.entries| && d.entries[i] == e;
          x := e.value;
          assert Values(d.entries)[i] == x;
        }
        assert x in Values(d.entries) + added;
        assert x in Values(entries);
        var k :| 0 <= k < |entries| && Values(entries)[k] == x;
        assert entries[k] in entries && entries[k].value == x;
      }
    }
  }

  lemma ReindexedHonest(d: Disk, entries: seq<Entry<DiskEntry>>, added: seq<DiskEntry>, evicted: seq<DiskEntry>)
    requires DiskInv(d) && |added| <= 1 && forall e :: e in added ==> Insertable(d, e)
    requires multiset(Values(d.entries) + added) == multiset(Values(entries)) + multiset(evicted)
    ensures EntriesHonest(Reindexed(d, entries, added, evicted))
    ensures OnePathEach(Reindexed(d, entries, added, evicted))
    ensures forall x :: x in evicted ==> x in added || (x.path !in d.pending && x.path !in d.writable)
  {
    var t := Reindexed(d, entries, added, evicted);
    AllDistinct(d, added);
    SplitApart(Values(d.entries) + added, Values(entries), evicted);
    assert forall i :: Frozen(d, i) ==> Frozen(t, i);
    forall x | x in Values(d.entries) + added
      ensures x in added || EntryHonest(d, x)
    {
      if x !in added {
        var i :| 0 <= i < |d.entries| && Values(d.entries)[i] == x;
        assert d.entries[i] in d.entries;
      }
    }
    forall e | e in entries
      ensures EntryHonest(t, e.value)
    {
      var i :| 0 <= i < |entries| && entries[i] == e;
      assert Values(entries)[i] == e.value;
      assert e.value in Values(d.entries) + added;
      if e.value !in added {
        assert EntryHonest(d, e.value) && e.value.path !in Paths(added);
      }
    }
    assert forall i :: 0 <= i < |entries| ==> entries[i].value == Values(entries)[i];
  }

  lemma ReindexedKeeps(d: Disk, entries: seq<Entry<DiskEntry>>, added: seq<DiskEntry>, evicted: seq<DiskEntry>)
    requires DiskInv(d) && |added| <= 1 && forall e :: e in added ==> Insertable(d, e)
    requires multiset(Values(d.entries) + added) == multiset(Values(entries)) + multiset(evicted)
    ensures var t := Reindexed(d, entries, added, evicted);
            DiskInv(t) && Guarantee(d, t, Paths(added))
  {
    var t := Reindexed(d, entries, added, evicted);
    ReindexedHonest(d, entries, added, evicted);
    ReindexedFiles(d, entries, added, evicted);
    assert forall i :: Frozen(d, i) ==> Frozen(t, i);
    assert forall p :: p in d.writable ==> p in d.files && p !in Paths(evicted);
  }

  lemma NothingAdded(d: Disk, key: string)
    ensures Paths([]) == {}
    ensures Values(Removed(d.entries, key)) ==
            if HasKey(d.entries, key) then [d.entries[Index(d.entries, key)].value] else []
    ensures !HasKey(d.entries, key) ==> Without(d.entries, key) == d.entries
  {
  }

  function Deleted(d: Disk, key: string): Disk {
    Reindexed(d, Without(d.entries, key), [], Values(Removed(d.entries, key)))
  }

  lemma DeletedKeeps(d: Disk, key: string)
    requires DiskInv(d)
    ensures DiskInv(Deleted(d, key)) && Guarantee(d, Deleted(d, key), {})
  {
    WithoutConserves(d.entries, key);
    assert Values(d.entries) + [] == Values(d.entries);
    ReindexedKeeps(d, Without(d.entries, key), [], Values(Removed(d.entries, key)));
  }

  lemma DeletedWhat(d: Disk, key: string)
    requires Distinct(d.entries)
    ensures forall e :: e in Deleted(d, key).entries ==> e in d.entries && e.key != key
  {
    WithoutRest(d.entries, key);
  }

  /** A hit on the entry of key. */
  function Promoted(d: Disk, key: string): Disk
    requires HasKey(d.entries, key)
  {
    Reindexed(d, [d.entries[Index(d.entries, key)]] + Without(d.entries, key), [], [])
  }

  lemma PromotedKeeps(d: Disk, key: string)
    requires DiskInv(d) && HasKey(d.entries, key)
    ensures var e := d.entries[Index(d.entries, key)].value;
            DiskInv(Promoted(d, key)) && Guarantee(d, Promoted(d, key), {})
            && Names(Promoted(d, key), e.path, e.etag, e.size)
  {
    var e := d.entries[Index(d.entries, key)];
    WithoutConserves(d.entries, key);
    assert Values(Removed(d.entries, key)) == [e.value];
    PushConserves(e, Without(d.entries, key));
    assert Values(d.entries) + [] == Values(d.entries);
    ReindexedKeeps(d, [e] + Without(d.entries, key), [], []);
    assert e in Promoted(d, key).entries;
    assert EntryHonest(Promoted(d, key), e.value);
  }

  function Inserted(d: Disk, e: Entry<DiskEntry>, budget: int): Disk {
    Reindexed(d, PutKeeps(d.entries, e, budget), [e.value], PutEvicts(d.entries, e, budget))
  }

  lemma InsertedKeeps(d: Disk, e: Entry<DiskEntry>, budget: int)
    requires DiskInv(d) && Insertable(d, e.value)
    ensures DiskInv(Inserted(d, e, budget)) && Guarantee(d, Inserted(d, e, budget), {e.value.path})
  {
    PutConserves(d.entries, e, budget);
    MultisetConcat(Values(d.entries), [e.value]);
    ReindexedKeeps(d, PutKeeps(d.entries, e, budget), [e.value], PutEvicts(d.entries, e, budget));
    assert Paths([e.value]) == {e.value.path};
  }

  /** The key has this body, if it fits at all, and no other. */
  predicate Serving(entries: seq<Entry<DiskEntry>>, key: string, etag: string, size: nat, budget: int) {
    && (forall e :: e in entries && e.key == key ==> e.value.etag == etag && e.value.size == size)
    && (size + ENTRY_OVERHEAD <= budget ==> |entries| > 0 && entries[0].key == key)
  }

  // ------------------------------------------------------------- the code itself

  /** diskCache with the directory it owns. */
  class Cache {
    const idx: LruIndex<DiskEntry>
    var files: map<Path, Inode>
    var inodes: map<Inode, Body>
    var seqNo: nat
    var nextInode: Inode
    var writable: set<Path>         // whose file is whose, which the code leaves to
    var pending: set<Path>          // the operation that created it
    ghost var failures: nat         // how often the local disk, or a download, failed

    function View(): Disk
      reads this, idx
    {
      Disk(idx.entries, files, inodes, seqNo, writable, pending)
    }

    ghost predicate Valid()
      reads this, idx
    {
      idx.Valid() && DiskInv(View()) && AllCosted(idx.entries) && forall i :: i in inodes ==> i < nextInode
    }

    /** An empty directory: leftovers of an earlier process are swept first. */
    constructor (maxBytes: int, ttl: int)
      requires 0 <= maxBytes
      ensures Valid() && fresh(idx) && files == map[] && idx.maxBytes == maxBytes && idx.ttl == ttl && idx.entries == []
    {
      idx := new LruIndex(maxBytes, ttl);
      files, inodes, seqNo, nextInode := map[], map[], 0, 0;
      writable, pending, failures := {}, {}, 0;
    }

    // --------------------------------------------------------- one step each

    /** newPath and OpenFile(O_CREATE|O_EXCL). */
    method CreateFile(kind: Kind) returns (p: Path, i: Inode)
      requires Valid()
      modifies this
      ensures Valid() && Guarantee(old(View()), View(), {p})
      ensures p.kind == kind && p in files && p in writable && (kind.CacheFile? ==> p in pending)
      ensures files[p] == i && i in inodes && inodes[i] == [] && p.n == old(seqNo) + 1
      ensures failures == old(failures)
    {
      ghost var d := View();
      p, i := Path(kind, seqNo + 1), nextInode;
      CreatedKeeps(d, p, i);
      seqNo, nextInode := seqNo + 1, nextInode + 1;
      files, inodes := files[p := i], inodes[i := []];
      writable := writable + {p};
      pending := if kind.CacheFile? then pending + {p} else pending;
      assert View() == Created(d, p, i);
    }

    /** Writing or truncating through a handle of a file still being written. */
    method WriteFile(p: Path, body: Body)
      requires Valid() && p in writable
      modifies this
      ensures Valid() && Guarantee(old(View()), View(), {p})
      ensures p in files && files[p] in inodes && inodes[files[p]] == body
      ensures files == old(files) && writable == old(writable) && pending == old(pending)
      ensures failures == old(failures)
    {
      RewrittenKeeps(View(), p, body);
      inodes := inodes[files[p] := body];
    }

    /** The owner of p writes it no more. */
    method Finish(p: Path)
      requires Valid() && p in writable
      modifies this`writable
      ensures Valid() && Guarantee(old(View()), View(), {p})
      ensures writable == old(writable) - {p}
      ensures p in files && files[p] in inodes && Frozen(View(), files[p])
    {
      FinishedKeeps(View(), p);
      writable := writable - {p};
      FinishedFrozen(old(View()), p);
    }

    /** os.Remove by the owner of an in-flight or spill file. */
    method DiscardFile(p: Path)
      requires Valid() && (p in pending || p.kind.SpillFile?)
      modifies this
      ensures Valid() && Guarantee(old(View()), View(), {p}) && p !in files
      ensures failures == old(failures)
    {
      hide DiskInv, Guarantee;
      ghost var d := View();
      DiscardedKeeps(d, p);
      files := files - {p};
      writable, pending := writable - {p}, pending - {p};
      assert View() == Discarded(d, p);
    }

    /** The callback of newDiskCache for what one index operation evicted. */
    method RemoveEvicted(evicted: seq<DiskEntry>)
      modifies this`files
      ensures files == old(files) - Paths(evicted)
    {
      var i := 0;
      while i < |evicted|
        invariant i <= |evicted|
        invariant files == old(files) - Paths(evicted[..i])
      {
        files := files - {evicted[i].path};
        assert evicted[..i + 1] == evicted[..i] + [evicted[i]];
        assert Paths(evicted[..i + 1]) == Paths(evicted[..i]) + {evicted[i].path};
        i := i + 1;
      }
      assert evicted[..|evicted|] == evicted;
    }

    /** idx.get, with the callback. */
    method IndexGet(key: string, now: int) returns (r: Option<DiskEntry>)
      requires idx.Valid()
      modifies this`files, idx
      ensures idx.Valid()
      ensures var d := old(View());
              if r.Some? then
                HasKey(d.entries, key) && r.value == d.entries[Index(d.entries, key)].value && View() == Promoted(d, key)
              else View() == d || View() == Deleted(d, key)
      ensures r == Found(old(idx.entries), key, now)
      ensures forall e :: e in idx.entries ==> e in old(idx.entries)
    {
      hide Valid, DiskInv, Without, HasKey, Index, Expired, Paths;
      ghost var d := View();
      var evicted;
      r, evicted := idx.Get(key, now);
      RemoveEvicted(evicted);
      NothingAdded(d, key);
      assert View() == Reindexed(d, idx.entries, [], evicted);
    }

    method IndexDelete(key: string)
      requires idx.Valid()
      modifies this`files, idx
      ensures idx.Valid() && View() == Deleted(old(View()), key)
    {
      var evicted := idx.Delete(key);
      RemoveEvicted(evicted);
    }

    method IndexPut(key: string, e: DiskEntry, now: int) returns (ghost entry: Entry<DiskEntry>)
      requires idx.Valid()
      modifies this`files, this`pending, idx
      ensures idx.Valid() && entry.key == key && entry.value == e && entry.cost == e.size + ENTRY_OVERHEAD
      ensures entry.expires == if idx.ttl > 0 then Some(now + idx.ttl) else None
      ensures View() == Inserted(old(View()), entry, idx.maxBytes)
    {
      hide PutKeeps, PutEvicts;
      ghost var d := View();
      entry := Entry(key, e, e.size + ENTRY_OVERHEAD, if idx.ttl > 0 then Some(now + idx.ttl) else None);
      var evicted := idx.Put(key, e, e.size + ENTRY_OVERHEAD, now);
      RemoveEvicted(evicted);
      pending := pending - {e.path};
      assert Paths([e]) == {e.path};
      assert View() == Reindexed(d, idx.entries, [e], evicted);
    }

    /** The index under its mutex. */
    method GetEntry(key: string, now: int) returns (r: Option<DiskEntry>)
      requires Valid()
      modifies this`files, idx
      ensures Valid() && Guarantee(old(View()), View(), {})
      ensures r == Found(old(idx.entries), key, now)
      ensures forall e :: e in old(idx.entries) && e.key == key ==>
                r == if e.expires.Some? && e.expires.value <= now then None else Some(e.value)
      ensures (forall e :: e in old(idx.entries) ==> e.key != key) ==> r == None
      ensures r.Some? ==> Names(View(), r.value.path, r.value.etag, r.value.size)
    {
      hide DiskInv, Guarantee, Found, Promoted, Deleted, Holds;
      ghost var d := View();
      FoundUntil(idx.entries, key, now);
      NumberedKeeps(d, d.seqNo);
      assert d.(seqNo := d.seqNo) == d;
      r := IndexGet(key, now);
      if r.Some? {
        PromotedKeeps(d, key);
      } else {
        DeletedKeeps(d, key);
      }
    }

    method DropDeleted(key: string)
      requires Valid()
      modifies this`files, idx
      ensures Valid() && Guarantee(old(View()), View(), {}) && View() == Deleted(old(View()), key)
      ensures forall e :: e in idx.entries ==> e.key != key
    {
      hide DiskInv, Guarantee, Without, Paths;
      ghost var d := View();
      DeletedWhat(d, key);
      DeletedKeeps(d, key);
      IndexDelete(key);
    }

    /** insert: the cache owns the file afterwards, or has removed it. */
    method Insert(key: string, etag: string, path: Path, size: nat, now: int)
      requires Valid() && Insertable(View(), DiskEntry(etag, size, path))
      modifies this`files, this`pending, idx
      ensures Valid() && Guarantee(old(View()), View(), {path}) && Serving(idx.entries, key, etag, size, idx.maxBytes)
      ensures forall e :: e in idx.entries && e.key == key ==>
                e.value.path == path && e.expires == if idx.ttl > 0 then Some(now + idx.ttl) else None
    {
      ghost var d := View();
      ghost var entry := IndexPut(key, DiskEntry(etag, size, path), now);
      InsertedKeeps(d, entry, idx.maxBytes);
      PutKeepsWhat(d.entries, entry, idx.maxBytes);
    }

    /** os.Open. */
    method OpenPath(p: Path) returns (r: Option<Inode>)
      requires Valid()
      ensures r == if p in files then Some(files[p]) else None
    {
      r := if p in files then Some(files[p]) else None;
    }

    /** newPath and os.Link, which fails when src is gone, if not before. */
    method LinkFile(src: Path, ghost etag: string, ghost size: nat) returns (r: Option<Path>)
      requires Valid() && Names(View(), src, etag, size)
      modifies this
      ensures Valid()
      ensures r.None? ==> Guarantee(old(View()), View(), {})
      ensures r.Some? ==> Guarantee(old(View()), View(), {r.value}) && Insertable(View(), DiskEntry(etag, size, r.value))
      ensures r.Some? ==> r.value.n == old(seqNo) + 1
      ensures failures >= old(failures) && (r.None? ==> src !in files || failures > old(failures))
    {
      hide DiskInv, Insertable, Guarantee, Holds;
      var dst := Path(CacheFile, seqNo + 1);
      var refused: bool := *;
      if src !in files || refused {
        ghost var d := View();
        NumberedKeeps(d, seqNo + 1);
        seqNo := seqNo + 1;
        failures := failures + if refused then 1 else 0;
        assert View() == d.(seqNo := d.seqNo + 1);
        return None;
      }
      MakeLink(src, dst, etag, size);
      return Some(dst);
    }

    method MakeLink(src: Path, dst: Path, ghost etag: string, ghost size: nat)
      requires Valid() && Names(View(), src, etag, size) && src in files && dst == Path(CacheFile, seqNo + 1)
      modifies this
      ensures Valid() && Guarantee(old(View()), View(), {dst}) && Insertable(View(), DiskEntry(etag, size, dst))
      ensures failures == old(failures)
    {
      hide DiskInv, Guarantee, Holds;
      ghost var d := View();
      LinkedKeeps(d, src, dst, etag, size);
      seqNo := dst.n;
      files := files[dst := files[src]];
      pending := pending + {dst};
      assert View() == Linked(d, src, dst);
    }

    // ------------------------------------------------------- steps of the others

    /** A step of the operation that owns the file p. */
    method FileStep(p: Path, key: string, now: int)
      requires Valid()
      modifies this, idx
      ensures failures >= old(failures)
      ensures Valid() && Guarantee(old(View()), View(), {p})
    {
      var step: nat, body: Body := *, *;
      if step == 0 && p in writable {
        WriteFile(p, body);
      } else if step == 1 && p in writable {
        Finish(p);
      } else if step == 2 && (p in pending || p.kind.SpillFile?) {
        DiscardFile(p);
      } else if step == 3 && p in pending && p !in writable {
        FinishedHolds(View(), p);
        Insert(key, ETagOf(inodes[files[p]]), p, |inodes[files[p]]|, now);
      }
    }

    /** Linking any finished file: a cached one, or a spill file being adopted. */
    method LinkStep(p: Path) returns (q: Option<Path>)
      requires Valid() && p in files && p !in writable
      modifies this
      ensures failures >= old(failures)
      ensures Valid() && Guarantee(old(View()), View(), if q.Some? then {q.value} else {})
      ensures q.Some? ==> q.value.n == old(seqNo) + 1
    {
      FinishedHolds(View(), p);
      q := LinkFile(p, ETagOf(inodes[files[p]]), |inodes[files[p]]|);
    }

    /** One step of some other operation, which owns no file in `mine`. */
    method OtherStep(mine: set<Path>)
      requires Valid() && InFlight(View(), mine)
      modifies this, idx
      ensures failures >= old(failures)
      ensures Valid() && Spared(old(View()), View(), mine) && InFlight(View(), mine)
    {
      ghost var d, theirs := View(), {};
      var step: nat, p: Path, key: string, now: int := *, *, *, *;
      if step == 0 {
        var _ := GetEntry(key, now);
      } else if step == 1 {
        DropDeleted(key);
      } else if step == 2 {
        var q, _ := CreateFile(p.kind);
        theirs := {q};
      } else if step == 3 && p in files && p !in writable {
        var q := LinkStep(p);
        theirs := if q.Some? then {q.value} else {};
      } else if p !in mine {
        FileStep(p, key, now);
        theirs := {p};
      }
      MineSpared(d, View(), theirs, mine);
    }

    /** Any steps of any other operations, which own no file in `mine`. */
    method Interference(mine: set<Path>)
      requires Valid() && InFlight(View(), mine)
      modifies this, idx
      ensures failures >= old(failures)
      ensures Valid() && Spared(old(View()), View(), mine) && InFlight(View(), mine)
    {
      ghost var d := View();
      var steps: nat := *;
      while steps > 0
        invariant Valid() && Spared(d, View(), mine) && InFlight(View(), mine) && failures >= old(failures)
      {
        ghost var t := View();
        OtherStep(mine);
        SparedAgain(d, t, View(), mine);
        steps := steps - 1;
      }
    }

    // ------------------------------------------------- whole operations, with
    // any steps of other operations between their own

    /** open: a hit for an ETag is a handle on a body of that ETag.  Here and below,
        the owners of the files in `idle` do nothing meanwhile. */
    method Open(key: string, etag: string, now: int, idle: set<Path>) returns (h: Option<Inode>)
      requires Valid() && InFlight(View(), idle)
      modifies this, idx
      ensures Valid() && Spared(old(View()), View(), idle) && InFlight(View(), idle)
      ensures h.Some? ==> h.value in inodes && ETagOf(inodes[h.value]) == etag && Frozen(View(), h.value)
      ensures h.Some? ==> exists e :: Live(old(idx.entries), e, key, now) && e.value.etag == etag
      ensures h.None? && etag != "" ==>
                forall e :: Live(old(idx.entries), e, key, now) && e.value.etag == etag ==> e.value.path !in files
      ensures failures >= old(failures)
    {
      if etag == "" {
        return None;
      }
      ghost var d := View();
      OnlyLive(idx.entries, key, now);
      var e := GetEntry(key, now);
      MineSpared(d, View(), {}, idle);
      if e.None? || e.value.etag != etag {
        return None;
      }
      ghost var t := View();
      Interference(idle);
      SparedAgain(d, t, View(), idle);
      h := OpenPath(e.value.path);
      if h.None? {
        ghost var u := View();
        ForgetMissing(key, e.value, now, idle);
        GoneStaysGone(u, View(), e.value.path);
        SparedAgain(d, u, View(), idle);
      }
    }

    /** The file is gone: its entry goes too, if the key still has it. */
    method ForgetMissing(key: string, e: DiskEntry, now: int, idle: set<Path>)
      requires Valid() && InFlight(View(), idle)
      modifies this, idx
      ensures Valid() && Spared(old(View()), View(), idle) && InFlight(View(), idle)
      ensures failures >= old(failures)
    {
      ghost var d := View();
      Interference(idle);
      ghost var u := View();
      var current := GetEntry(key, now);
      SparedOnward(d, u, View(), {}, idle);
      if current == Some(e) {
        ghost var v := View();
        DropDeleted(key);
        SparedOnward(d, v, View(), {}, idle);
      }
    }

    /** Interference leaves a file about to enter the index as it was, and the files
        in `idle`. */
    method Wait(e: DiskEntry, idle: set<Path>)
      requires Valid() && Insertable(View(), e) && InFlight(View(), idle)
      modifies this, idx
      ensures Valid() && Spared(old(View()), View(), idle) && InFlight(View(), idle) && Insertable(View(), e)
      ensures failures >= old(failures)
    {
      ghost var d := View();
      assert Reads(d, d.files[e.path], d.inodes[d.files[e.path]]);
      Interference(idle + {e.path});
      assert Owned(d, View(), e.path);
      assert Reads(View(), d.files[e.path], d.inodes[d.files[e.path]]);
    }

    /** copied: dst is served from a hard link to the cached body of src, or not
        at all. */
    method Copied(srcKey: string, dstKey: string, now: int, idle: set<Path>) returns (ghost linked: bool)
      requires Valid() && InFlight(View(), idle)
      modifies this, idx
      ensures Valid() && Spared(old(View()), View(), idle)
      ensures if linked then
                exists x :: Live(old(idx.entries), x, srcKey, now)
                            && Serving(idx.entries, dstKey, x.value.etag, x.value.size, idx.maxBytes)
              else forall e :: e in idx.entries ==> e.key != dstKey
      ensures failures >= old(failures)
      ensures linked || failures > old(failures) ||
              forall x :: Live(old(idx.entries), x, srcKey, now) ==> x.value.path !in files
    {
      ghost var d := View();
      OnlyLive(idx.entries, srcKey, now);
      var src := GetEntry(srcKey, now);
      MineSpared(d, View(), {}, idle);
      ghost var t := View();
      if src.None? {
        DropDeleted(dstKey);
        SparedOnward(d, t, View(), {}, idle);
        return false;
      }
      Interference(idle);
      SparedAgain(d, t, View(), idle);
      ghost var u := View();
      var done := LinkAndInsert(dstKey, src.value.etag, src.value.path, src.value.size, now, idle);
      SparedAgain(d, u, View(), idle);
      linked := done;
      if !done {
        ghost var v := View();
        ForgetLater(dstKey, idle);
        SparedAgain(d, v, View(), idle);
        if src.value.path !in v.files {
          GoneStaysGone(v, View(), src.value.path);
        }
      }
    }

    /** A dropDeleted some steps of others later. */
    method ForgetLater(key: string, idle: set<Path>)
      requires Valid() && InFlight(View(), idle)
      modifies this, idx
      ensures Valid() && Spared(old(View()), View(), idle) && forall e :: e in idx.entries ==> e.key != key
      ensures failures >= old(failures)
    {
      ghost var d := View();
      Interference(idle);
      ghost var u := View();
      DropDeleted(key);
      SparedOnward(d, u, View(), {}, idle);
    }

    /** adopt: a finished spill file becomes the cached body of key, while the owners
        of the files in `idle` do nothing. */
    method Adopt(key: string, etag: string, spill: Path, size: nat, now: int, idle: set<Path>)
        returns (ghost linked: bool)
      requires Valid() && Names(View(), spill, etag, size) && InFlight(View(), idle)
      modifies this, idx
      ensures Valid() && Spared(old(View()), View(), idle)
      ensures etag == "" ==> !linked && View() == old(View())
      ensures linked ==> Serving(idx.entries, key, etag, size, idx.maxBytes)
      ensures failures >= old(failures) && (linked || etag == "" || failures > old(failures) || spill !in files)
    {
      linked := false;
      if etag == "" {
        return;
      }
      ghost var d := View();
      Interference(idle);
      ghost var t := View();
      linked := LinkAndInsert(key, etag, spill, size, now, idle);
      SparedAgain(d, t, View(), idle);
    }

    method LinkAndInsert(key: string, etag: string, src: Path, size: nat, now: int, idle: set<Path>)
        returns (linked: bool)
      requires Valid() && Names(View(), src, etag, size) && InFlight(View(), idle)
      modifies this, idx
      ensures Valid() && Spared(old(View()), View(), idle) && InFlight(View(), idle)
      ensures linked ==> Serving(idx.entries, key, etag, size, idx.maxBytes)
      ensures failures >= old(failures)
      ensures linked || failures > old(failures) || src !in files
    {
      hide DiskInv, KeepsPromises;
      ghost var d := View();
      assert forall p :: p in idle ==> p.n <= seqNo by {
        InFlightAreOld(d, idle);
      }
      var dst := LinkFile(src, etag, size);
      ghost var linkedDisk := View();
      MineSpared(d, linkedDisk, if dst.Some? then {dst.value} else {}, idle);
      if dst.None? {
        return false;
      }
      Wait(DiskEntry(etag, size, dst.value), idle);
      ghost var waited := View();
      SparedAgain(d, linkedDisk, waited, idle);
      Insert(key, etag, dst.value, size, now);
      MineSpared(waited, View(), {dst.value}, idle);
      SparedAgain(d, waited, View(), idle);
      return true;
    }

    /** One chunk of the io.Copy of diskFill, which fails when the stream or the disk
        does, and then the file is removed. */
    method Append(p: Path, i: Inode, chunk: Body, idle: set<Path>) returns (ok: bool)
      requires Valid() && p in writable && p in pending && p in files && files[p] == i && i in inodes
      requires InFlight(View(), idle) && p !in idle
      modifies this, idx
      ensures Valid() && Spared(old(View()), View(), idle) && InFlight(View(), idle)
      ensures ok ==> p in writable && p in pending && p in files && files[p] == i && i in inodes
      ensures ok ==> inodes[i] == old(inodes[i]) + chunk
      ensures failures >= old(failures) && (!ok ==> failures > old(failures))
    {
      ghost var d := View();
      Interference(idle + {p});
      ghost var t := View();
      assert Owned(d, t, p) && Spared(d, t, idle) && InFlight(t, idle);
      ok := *;
      if ok {
        WriteFile(p, inodes[i] + chunk);
      } else {
        failures := failures + 1;
        DiscardFile(p);
      }
      SparedOnward(d, t, View(), {p}, idle);
    }

    /** The io.Copy of diskFill, in chunks of any size. */
    method Download(p: Path, i: Inode, body: Body, idle: set<Path>) returns (ok: bool)
      requires Valid() && p in writable && p in pending && p in files && files[p] == i && i in inodes && inodes[i] == []
      requires InFlight(View(), idle) && p !in idle
      modifies this, idx
      ensures Valid() && Spared(old(View()), View(), idle) && InFlight(View(), idle)
      ensures ok ==> p in writable && p in pending && p in files && files[p] == i && inodes[i] == body
      ensures failures >= old(failures) && (!ok ==> failures > old(failures))
    {
      hide DiskInv, KeepsPromises;
      ghost var d := View();
      SparesItself(d, idle);
      var n := 0;
      ok := true;
      while n < |body| && ok
        invariant n <= |body| && Valid() && Spared(d, View(), idle) && InFlight(View(), idle)
        invariant ok ==> p in writable && p in pending && p in files && files[p] == i
        invariant ok ==> i in inodes && inodes[i] == body[..n]
        invariant failures >= old(failures) && (!ok ==> failures > old(failures))
        decreases |body| - n
      {
        ghost var t := View();
        var m :| n < m <= |body|;
        ok := Append(p, i, body[n..m], idle);
        SparedAgain(d, t, View(), idle);
        n := m;
      }
    }

    /** diskFill: a download into a new entry. */
    method Fill(key: string, etag: string, body: Body, now: int, idle: set<Path>) returns (h: Option<Inode>)
      requires Valid() && (etag == "" || etag == ETagOf(body)) && InFlight(View(), idle)
      modifies this, idx
      ensures Valid() && Spared(old(View()), View(), idle)
      ensures h.Some? ==> Reads(View(), h.value, body)
      ensures h.Some? && etag != "" ==> Serving(idx.entries, key, etag, |body|, idx.maxBytes)
      ensures failures >= old(failures) && (h.None? ==> failures > old(failures))
    {
      hide DiskInv, KeepsPromises;
      ghost var d := View();
      InFlightAreOld(d, idle);
      var p, i := CreateFile(CacheFile);
      MineSpared(d, View(), {p}, idle);
      ghost var t := View();
      var ok := Download(p, i, body, idle);
      SparedAgain(d, t, View(), idle);
      if !ok {
        return None;
      }
      ghost var u := View();
      Finish(p);
      SparedOnward(d, u, View(), {p}, idle);
      KeepOrDiscard(key, etag, body, p, i, now, idle, d);
      return Some(i);
    }

    /** The end of diskFill: the file enters the index, or without an ETag only its
        handle is left. */
    method KeepOrDiscard(key: string, etag: string, body: Body, p: Path, i: Inode, now: int, idle: set<Path>, ghost d: Disk)
      requires Valid() && (etag == "" || etag == ETagOf(body)) && p !in idle
      requires p in pending && p !in writable && p in files && files[p] == i && Reads(View(), i, body)
      requires InFlight(d, idle) && Spared(d, View(), idle) && InFlight(View(), idle)
      modifies this, idx
      ensures Valid() && Spared(d, View(), idle) && Reads(View(), i, body)
      ensures etag != "" ==> Serving(idx.entries, key, etag, |body|, idx.maxBytes)
      ensures failures >= old(failures)
    {
      hide DiskInv;
      ghost var t := View();
      if etag == "" {
        DiscardFile(p);
        SparedOnward(d, t, View(), {p}, idle);
        return;
      }
      Wait(DiskEntry(etag, |body|, p), idle);
      SparedAgain(d, t, View(), idle);
      ghost var u := View();
      Insert(key, etag, p, |body|, now);
      SparedOnward(d, u, View(), {p}, idle);
    }
  }

  lemma FinishedFrozen(d: Disk, p: Path)
    requires DiskInv(d) && p in d.writable
    ensures p in d.files && Frozen(Finished(d, p), d.files[p])
  {
  }

  /** Whatever operations are in flight or have run, a hit returns a body of the
      ETag asked for, and equal ETags mean equal bodies. */
  lemma HitIsTheBody(d: Disk, e: Entry<DiskEntry>, body: Body)
    requires DiskInv(d) && e in d.entries && e.value.etag == ETagOf(body)
    ensures e.value.path in d.files && d.files[e.value.path] in d.inodes
    ensures d.inodes[d.files[e.value.path]] == body
  {
    assert EntryHonest(d, e.value);
    ETagInjective(d.inodes[d.files[e.value.path]], body);
  }

  /** With nothing in flight the cache files on disk are exactly the paths of the
      live entries, which are all distinct. */
  lemma FilesAreLiveEntries(d: Disk, p: Path)
    requires DiskInv(d) && d.pending == {} && p.kind.CacheFile?
    ensures p in d.files <==> Listed(d, p)
    ensures forall i, j :: 0 <= i < j < |d.entries| ==> d.entries[i].value.path != d.entries[j].value.path
  {
    if Listed(d, p) {
      var e :| e in d.entries && e.value.path == p;
      assert EntryHonest(d, e.value);
    }
  }

  /** Why adopting waits for Close: a link to a file that is still written would
      make the entry lie after the next write. */
  lemma AdoptingOpenSpillLies(d: Disk, p: Path, dst: Path, body: Body)
    requires DiskInv(d) && p in d.writable && dst.kind.CacheFile? && dst.n == d.seqNo + 1
    requires ETagOf(body) != ETagOf(d.inodes[d.files[p]])
    ensures var t := Rewritten(Linked(d, p, dst), p, body);
            t.inodes[t.files[dst]] == body && !Holds(t, dst, ETagOf(d.inodes[d.files[p]]), |d.inodes[d.files[p]]|)
  {
  }
}
