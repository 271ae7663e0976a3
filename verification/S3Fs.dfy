/** The request primitives of the filesystem and what is built on them (s3ops.go,
    and Rename of s3fs.go): every S3 round trip together with its cache updates.

    The bucket has one writer.  Each operation is one step here, and its contract
    speaks of the bucket alone: whatever the caches hold, evict or let expire, the
    answer is the one the bare bucket gives.  The only other outcome is a failed
    request. */
module S3Fs {
  import opened Common
  import opened Bucket
  import opened Paths
  import opened Links
  import MC = MemCache
  import DC = DiskCache
  import Lru
  import R = Renaming
  import RF = ReadFile

  const SPILL_LIMIT: nat := 0x80_0000

  /** What an open for reading serves from. */
  datatype Source =
    | InMemory(body: Body)
    | OnDisk(inode: nat)
    | Streamed(s3: RF.S3Backend)

  datatype Opened = Opened(size: nat, source: Source)

  /** How opening an existing file for reading ends. */
  datatype OpenReply =
    | ForReading(file: Opened)
    | LinkLoop
    | IsDirectory
    | NotExist
    | OpenFailed

  datatype RenameReply =
    | Done
    | BaseDirectory    // the old path is "/"
    | Exists           // the new path is "/"
    | Missing
    | Invalid          // a directory moved below itself
    | RequestFailed

  /** What the two tiers hold, and how often the local disk has failed. */
  datatype Tiers = Tiers(mem: Option<seq<Lru.Entry<MC.MemEntry>>>, disk: Option<DC.Disk>, failures: nat)

  /** Between the two no open file of anybody was touched, and the memory tier
      learnt of the keys in `named` only, or of directories that exist. */
  ghost predicate Minds(a: Tiers, b: Tiers, named: iset<string>) {
    && a.mem.Some? == b.mem.Some? && a.disk.Some? == b.disk.Some? && a.failures <= b.failures
    && (a.mem.Some? ==> MC.LearnsOnly(a.mem.value, b.mem.value, named))
    && (a.disk.Some? ==> DC.FilesSpared(a.disk.value, b.disk.value, {}))
  }

  lemma MindsItself(a: Tiers, named: iset<string>)
    ensures Minds(a, a, named)
  {
  }

  lemma MindsMore(a: Tiers, b: Tiers, some: iset<string>, named: iset<string>)
    requires Minds(a, b, some) && some <= named
    ensures Minds(a, b, named)
  {
  }

  lemma MindsAgain(a: Tiers, b: Tiers, c: Tiers, some: iset<string>, more: iset<string>, named: iset<string>)
    requires Minds(a, b, some) && Minds(b, c, more) && some <= named && more <= named
    ensures Minds(a, c, named)
  {
    if a.mem.Some? {
      MC.LearnsAgain(a.mem.value, b.mem.value, c.mem.value, some, more, named);
    }
  }

  /** The keys of the paths a chain of links runs through. */
  ghost function ChainKeys(prefix: string, links: string -> Option<string>, start: string): iset<string> {
    iset n: nat | Chain(links, start, n).Some? :: Key(prefix, Chain(links, start, n).value)
  }

  /** The objects a directory move creates. */
  ghost function Landed(keys: iset<string>, src: string, dst: string): iset<string>
    requires forall k :: k in keys ==> src <= k
  {
    iset k | k in keys && !MC.IsDirKey(R.Moved(k, src, dst)) :: R.Moved(k, src, dst)
  }

  /** The directory at p, when there is none. */
  ghost function Absent(s: Bucket.Store, prefix: string, p: string): iset<string> {
    if CleanPath(p) == "/" || Bucket.DirExists(s, ListPrefix(prefix, p)) then iset{} else iset{ListPrefix(prefix, p)}
  }

  /** The keys a stat of p asks for, and the directory it finds missing. */
  ghost function StatKeys(s: Bucket.Store, prefix: string, p: string): iset<string> {
    iset{Key(prefix, p)} + if Key(prefix, p) in s then iset{} else Absent(s, prefix, p)
  }

  /** The keys an open for reading of cleaned path p asks for, and the directory it
      finds missing. */
  ghost function ReadKeys(s: Bucket.Store, prefix: string, p: string): iset<string> {
    var walk := Follow(Graph(s, prefix), p, 0);
    ChainKeys(prefix, Graph(s, prefix), p) +
    if walk.Ended? && ObjectAt(s, prefix, walk.path).None? then Absent(s, prefix, walk.path) else iset{}
  }

  /** The keys a rename of cleaned paths p to q asks for or creates, and the
      directory it finds missing. */
  ghost function RenameKeys(s: Bucket.Store, prefix: string, p: string, q: string): iset<string> {
    StatKeys(s, prefix, p) +
    if Key(prefix, p) in s then iset{Key(prefix, q)}
    else Landed(Under(s, ListPrefix(prefix, p)), ListPrefix(prefix, p), ListPrefix(prefix, q))
  }

  ghost function Under(s: Bucket.Store, src: string): (keys: iset<string>)
    ensures forall k :: k in keys ==> src <= k
  {
    iset k | k in s && src <= k
  }

  /** The operations that reach the caches. */
  datatype Call =
    | Stat(path: string)
    | ExistsDir(path: string)
    | Read(path: string)
    | Write(path: string, body: Body, meta: Meta)
    | Remove(path: string)
    | Presign(path: string)
    | Move(from: string, to: string)

  /** The keys a call on this bucket asks for or creates, and the directories it finds
      missing. */
  ghost function CallKeys(s: Bucket.Store, prefix: string, call: Call): iset<string> {
    match call
    case Stat(p) => iset{Key(prefix, p)}
    case ExistsDir(p) => Absent(s, prefix, p)
    case Read(p) => ReadKeys(s, prefix, CleanPath(p))
    case Write(p, _, _) => iset{Key(prefix, p)}
    case Remove(_) => iset{}
    case Presign(_) => iset{}
    case Move(p, q) => RenameKeys(s, prefix, CleanPath(p), CleanPath(q))
  }

  class FileSystem {
    const prefix: string
    const client: Client
    const mem: MC.Cache?
    const disk: DC.Cache?

    /** The objects an operation may change. */
    ghost function Repr(): set<object> {
      {client} + (if mem == null then {} else {mem, mem.idx}) + (if disk == null then {} else {disk, disk.idx})
    }

    ghost predicate Valid()
      reads this, Repr()
    {
      && GoodPrefix(prefix)
      && (mem != null ==> mem.Valid() && MC.Coherent(client.objects, mem.idx.entries))
      && (disk != null ==> disk.Valid())
      && (mem != null && disk != null ==> mem.idx as object != disk.idx)
    }

    /** New, with WithMemCache and WithDiskCache when their sizes are positive. */
    constructor (prefix: string, client: Client, memBytes: int, memTtl: int, diskBytes: int, diskTtl: int)
      requires GoodPrefix(prefix)
      ensures Valid() && fresh(Repr() - {client}) && this.client == client && this.prefix == prefix
      ensures if memBytes <= 0 then mem == null
              else mem != null && mem.maxBytes == memBytes && mem.idx.ttl == memTtl && mem.idx.entries == []
      ensures if diskBytes <= 0 then disk == null
              else disk != null && disk.idx.maxBytes == diskBytes && disk.idx.ttl == diskTtl && disk.idx.entries == []
    {
      this.prefix, this.client := prefix, client;
      var m: MC.Cache?, d: DC.Cache? := null, null;
      if memBytes > 0 {
        m := new MC.Cache(memBytes, memTtl);
      }
      if diskBytes > 0 {
        d := new DC.Cache(diskBytes, diskTtl);
      }
      mem, disk := m, d;
    }

    /** An operation fails only when one of its requests did. */
    twostate predicate Excused(failed: bool)
      reads client
    {
      old(client.failures) <= client.failures && (failed ==> old(client.failures) < client.failures)
    }

    /** Spill files of other names stay as their owners left them. */
    twostate predicate KeepsFiles(mine: set<DC.Path>)
      reads disk, if disk == null then {} else {disk.idx}
    {
      disk != null ==> DC.FilesSpared(old(disk.View()), disk.View(), mine)
    }

    /** Whatever was open for reading from a local file reads the same. */
    twostate predicate KeepsReads()
      reads disk, if disk == null then {} else {disk.idx}
    {
      disk != null ==>
        forall i, body :: DC.Reads(old(disk.View()), i, body) ==> DC.Reads(disk.View(), i, body)
    }

    ghost function DiskFailures(): nat
      reads disk
    {
      if disk == null then 0 else disk.failures
    }

    ghost function Caches(): Tiers
      reads this, if mem == null then {} else {mem.idx}, disk, if disk == null then {} else {disk.idx}
    {
      Tiers(if mem == null then None else Some(mem.idx.entries), if disk == null then None else Some(disk.View()),
            DiskFailures())
    }

    /** No open file was touched, and what was learnt is of `named`. */
    twostate predicate Keeps(named: iset<string>)
      reads this, if mem == null then {} else {mem.idx}, disk, if disk == null then {} else {disk.idx}
    {
      Minds(old(Caches()), Caches(), named)
    }

    /** The memory tier has nothing that an upload of the key could falsify. */
    ghost predicate ReadyFor(key: string)
      reads this, if mem == null then {} else {mem.idx}
    {
      mem != null ==> MC.Unread(mem.idx.entries, key)
    }

    /** Then the upload is seen. */
    lemma UploadIsSeen(key: string, uploaded: Object)
      requires Valid() && ReadyFor(key)
      ensures mem != null ==> MC.Coherent(client.objects[key := uploaded], mem.idx.entries)
    {
      if mem != null {
        assert MC.SameBut(client.objects, client.objects[key := uploaded], key);
        MC.UnreadStaysRight(client.objects, client.objects[key := uploaded], key, mem.idx.entries);
      }
    }

    // ------------------------------------------------------------ primitives

    /** The memory tier has an entry of the key. */
    ghost predicate MemHas(key: string)
      reads this, if mem == null then {} else {mem.idx}
    {
      mem != null && MC.Has(mem.idx.entries, key)
    }

    /** It has one unless there is no such tier, or no room in it for the key. */
    ghost predicate MemHasIfFits(key: string)
      reads this, if mem == null then {} else {mem.idx}
    {
      mem != null && 256 + |key| <= mem.maxBytes ==> MC.Has(mem.idx.entries, key)
    }

    ghost predicate DiskHas(key: string)
      reads this, disk, if disk == null then {} else {disk.idx}
    {
      disk != null && exists e :: e in disk.idx.entries && e.key == key
    }

    /** What the memory tier knows of an object key, if anything. */
    method Remembered(key: string, now: int) returns (r: Option<Reply<Head>>)
      requires Valid() && !MC.IsDirKey(key)
      modifies if mem == null then {} else {mem.idx}
      ensures Excused(false)
      ensures Valid() && client.objects == old(client.objects)
      ensures r.None? || r.value == if key in client.objects then Ok(Bucket.HeadOf(client.objects[key])) else NotFound
      ensures r.Some? ==> old(MemHas(key)) && MemHas(key)
      ensures Keeps(iset{})
    {
      if mem == null {
        return None;
      }
      var e := mem.Lookup(key, now);
      if e.None? {
        return None;
      }
      return if !e.value.present then Some(NotFound)
             else if e.value.head.Some? then Some(Ok(e.value.head.value)) else None;
    }

    /** head: the metadata of an object key. */
    method HeadOf(key: string) returns (r: Reply<Head>)
      requires Valid() && !MC.IsDirKey(key)
      modifies Repr()
      ensures Excused(r.Failed?)
      ensures Valid() && client.objects == old(client.objects)
      ensures r.Failed? || r == if key in client.objects then Ok(Bucket.HeadOf(client.objects[key])) else NotFound
      ensures !r.Failed? ==> MemHasIfFits(key)
      ensures Keeps(iset{key})
    {
      hide Valid, Minds;
      var now: int := *;
      var known := Remembered(key, now);
      MindsMore(old(Caches()), Caches(), iset{}, iset{key});
      if known.Some? {
        return known.value;
      }
      ghost var mid := Caches();
      r := AskHead(key, now);
      MindsAgain(old(Caches()), mid, Caches(), iset{key}, iset{key}, iset{key});
    }

    /** The HeadObject of head. */
    method AskHead(key: string, now: int) returns (r: Reply<Head>)
      requires Valid() && !MC.IsDirKey(key)
      modifies Repr()
      ensures Excused(r.Failed?)
      ensures Valid() && client.objects == old(client.objects)
      ensures r.Failed? || r == if key in client.objects then Ok(Bucket.HeadOf(client.objects[key])) else NotFound
      ensures !r.Failed? ==> MemHasIfFits(key)
      ensures Keeps(iset{key})
    {
      hide Lru.PutKeeps;
      r := client.HeadObject(key);
      if mem != null {
        if r.Ok? {
          mem.Store(key, true, Some(r.value), None, now, client.objects);
        } else if r.NotFound? {
          mem.Store(key, false, None, None, now, client.objects);
        }
      }
    }

    /** put: uploads a body held in memory. */
    method Put(key: string, body: Body, meta: Meta) returns (r: Reply<string>)
      requires Valid()
      modifies Repr()
      ensures Excused(r.Failed?)
      ensures Valid()
      ensures r == Ok(ETagOf(body)) || r.Failed?
      ensures client.objects == if r.Ok? then old(client.objects)[key := Object(body, meta)] else old(client.objects)
      ensures r.Ok? && disk != null ==> forall e :: e in disk.idx.entries ==> e.key != key
      ensures Keeps(MC.Learnt(key, true))
      ensures r.Ok? && mem != null && !MC.IsDirKey(key) ==> forall e :: e in mem.idx.entries && e.key == key ==>
                e.value == MC.MemEntry(true, Some(Head(|body|, ETagOf(body), meta)), if 8 * |body| <= mem.maxBytes then Some(body) else None)
    {
      r := Upload(key, body, |body|, true, meta);
    }

    /** spillThreshold, when there is a disk to spill to: what is too large for the
        memory tier, or 8 MiB. */
    function Threshold(): (t: Option<nat>)
      ensures t.Some? <==> disk != null
      ensures t.Some? && mem != null && mem.maxBytes >= 0 ==> 8 * t.value <= mem.maxBytes < 8 * t.value + 8
      ensures t.Some? && mem == null ==> t.value == 8 * 1024 * 1024
    {
      if disk == null then None
      else if mem != null && mem.maxBytes >= 0 then Some(mem.MaxDataBytes())
      else Some(SPILL_LIMIT)
    }

    /** putSpill: uploads a spilled buffer under the size it records; its body does
        not enter the memory tier. */
    method PutSpill(key: string, body: Body, size: nat, meta: Meta) returns (r: Reply<string>)
      requires Valid()
      modifies Repr()
      ensures Excused(r.Failed?)
      ensures Valid()
      ensures r == Ok(ETagOf(body)) || r.Failed?
      ensures r.Ok? ==> size == |body|
      ensures client.objects == if r.Ok? then old(client.objects)[key := Object(body, meta)] else old(client.objects)
      ensures r.Ok? && disk != null ==> forall e :: e in disk.idx.entries ==> e.key != key
      ensures Keeps(MC.Learnt(key, true))
      ensures r.Ok? && mem != null && !MC.IsDirKey(key) ==> forall e :: e in mem.idx.entries && e.key == key ==>
                e.value == MC.MemEntry(true, Some(Head(|body|, ETagOf(body), meta)), None)
    {
      r := Upload(key, body, size, false, meta);
    }

    method Upload(key: string, body: Body, size: nat, keepBody: bool, meta: Meta) returns (r: Reply<string>)
      requires Valid()
      modifies Repr()
      ensures Excused(r.Failed?)
      ensures r.Ok? ==> size == |body|
      ensures Valid()
      ensures r == Ok(ETagOf(body)) || r.Failed?
      ensures client.objects == if r.Ok? then old(client.objects)[key := Object(body, meta)] else old(client.objects)
      ensures r.Ok? && disk != null ==> forall e :: e in disk.idx.entries ==> e.key != key
      ensures Keeps(MC.Learnt(key, true))
      ensures r.Ok? && mem != null && !MC.IsDirKey(key) ==> forall e :: e in mem.idx.entries && e.key == key ==>
                e.value == MC.MemEntry(true, Some(Head(|body|, ETagOf(body), meta)), if keepBody && 8 * |body| <= mem.maxBytes then Some(body) else None)
    {
      var now: int := *;
      ghost var s := client.objects;
      r := client.PutAnnounced(key, body, size, meta);
      if !r.Ok? {
        return Failed;
      }
      if mem != null {
        mem.StoreWrite(key, body, keepBody, meta, now, s);
      }
      ghost var mid := Caches();
      ForgetOnDisk(key);
      MindsAgain(old(Caches()), mid, Caches(), MC.Learnt(key, true), iset{}, MC.Learnt(key, true));
    }

    method ForgetOnDisk(key: string)
      requires Valid()
      modifies disk, if disk == null then {} else {disk.idx}
      ensures Valid() && (disk != null ==> forall e :: e in disk.idx.entries ==> e.key != key)
      ensures Keeps(iset{})
    {
      hide DC.FilesSpared, DC.DiskInv, DC.Guarantee, MC.Coherent;
      if disk == null {
        MindsItself(Caches(), iset{});
        return;
      }
      ghost var d := disk.View();
      disk.DropDeleted(key);
      DC.FilesKept(d, disk.View(), {});
    }

    method Delete(key: string) returns (ok: bool)
      requires Valid()
      modifies Repr()
      ensures Excused(!ok)
      ensures Valid()
      ensures client.objects == if ok then old(client.objects) - {key} else old(client.objects)
      ensures ok && disk != null ==> forall e :: e in disk.idx.entries ==> e.key != key
      ensures Keeps(iset{})
    {
      ghost var s := client.objects;
      ok := client.DeleteObject(key);
      MindsItself(Caches(), iset{});
      if !ok {
        return;
      }
      if mem != null {
        mem.DropDeleted(key, s);
        assert MC.SameBut(s, client.objects, key);
      }
      ghost var mid := Caches();
      ForgetOnDisk(key);
      MindsAgain(old(Caches()), mid, Caches(), iset{}, iset{}, iset{});
    }

    method Copy(src: string, dst: string) returns (r: Reply<()>)
      requires Valid()
      modifies Repr()
      ensures Excused(r.Failed?)
      ensures Valid()
      ensures r.Ok? ==> src in old(client.objects) && client.objects == old(client.objects)[dst := old(client.objects)[src]]
      ensures !r.Ok? ==> client.objects == old(client.objects)
      ensures r.NotFound? ==> src !in old(client.objects)
      ensures r.Ok? && disk != null ==> forall e :: e in disk.idx.entries && e.key == dst ==>
                exists x :: x in old(disk.idx.entries) && x.key == src
                            && x.value.etag == e.value.etag && x.value.size == e.value.size
      ensures Keeps(MC.Learnt(dst, true))
    {
      var now: int := *;
      ghost var s := client.objects;
      r := client.CopyObject(src, dst);
      if r.Ok? && mem != null {
        mem.StoreCopied(src, dst, now, s);
      }
      if r.Ok? && disk != null {
        ghost var d := disk.View();
        ghost var _ := disk.Copied(src, dst, now, disk.writable);
        DC.IdleFilesKept(d, disk.View(), d.writable);
      }
    }

    /** What PresignPut does to the caches: they forget the key, and the memory tier
        its ancestors. */
    method ForgetForUpload(key: string)
      requires Valid()
      modifies Repr()
      ensures Excused(false)
      ensures Valid() && client.objects == old(client.objects)
      ensures mem != null ==>
                forall e :: e in mem.idx.entries ==> e.key != key && !MC.IsAncestor(e.key, key, |key|)
      ensures mem != null ==>
                forall t :: MC.SameBut(client.objects, t, key) ==> MC.Coherent(t, mem.idx.entries)
      ensures disk != null ==> forall e :: e in disk.idx.entries ==> e.key != key
      ensures ReadyFor(key)
      ensures Keeps(iset{})
    {
      assert MC.SameBut(client.objects, client.objects, key);
      if mem != null {
        mem.DropDeleted(key, client.objects);
      }
      ghost var mid := Caches();
      ForgetOnDisk(key);
      MindsAgain(old(Caches()), mid, Caches(), iset{}, iset{}, iset{});
    }

    ghost predicate IsDir(p: string)
      reads this, client
    {
      CleanPath(p) == "/" || Bucket.DirExists(client.objects, ListPrefix(prefix, p))
    }

    /** dirExists: a marker object or any key below p. */
    method DirExists(p: string) returns (r: Reply<bool>)
      requires Valid()
      modifies Repr()
      ensures Excused(r.Failed?)
      ensures Valid() && client.objects == old(client.objects) && !r.NotFound?
      ensures r.Ok? ==> (r.value <==> IsDir(p))
      ensures Keeps(Absent(client.objects, prefix, p))
    {
      hide Valid, Minds;
      ghost var named := Absent(client.objects, prefix, p);
      MindsItself(Caches(), named);
      if CleanPath(p) == "/" {
        return Ok(true);
      }
      var now: int := *;
      var dir := ListPrefix(prefix, p);
      assert MC.IsDirKey(dir);
      var known := RememberedDir(dir, now);
      ghost var mid := Caches();
      MindsMore(old(Caches()), mid, iset{}, named);
      if known.Some? {
        return Ok(known.value);
      }
      r := AskDir(dir, now);
      MindsAgain(old(Caches()), mid, Caches(), named, if r.Ok? && !r.value then iset{dir} else iset{}, named);
    }

    method RememberedDir(dir: string, now: int) returns (r: Option<bool>)
      requires Valid() && MC.IsDirKey(dir)
      modifies Repr()
      ensures Excused(false)
      ensures Valid() && client.objects == old(client.objects)
      ensures r.Some? ==> (r.value <==> Bucket.DirExists(client.objects, dir))
      ensures Keeps(iset{})
    {
      if mem == null {
        return None;
      }
      var e := mem.Lookup(dir, now);
      return if e.Some? then Some(e.value.present) else None;
    }

    /** The listing of dirExists. */
    method AskDir(dir: string, now: int) returns (r: Reply<bool>)
      requires Valid() && MC.IsDirKey(dir)
      modifies Repr()
      ensures Excused(r.Failed?)
      ensures Valid() && client.objects == old(client.objects) && !r.NotFound?
      ensures r.Ok? ==> (r.value <==> Bucket.DirExists(client.objects, dir))
      ensures Keeps(if r.Ok? && !r.value then iset{dir} else iset{})
    {
      hide Lru.PutKeeps;
      r := client.AnyKey(dir);
      if r.Ok? && mem != null {
        mem.Store(dir, r.value, None, None, now, client.objects);
      }
    }

    /** diskCache.has. */
    method OnLocalDisk(key: string, now: int) returns (r: bool)
      requires Valid()
      modifies disk, if disk == null then {} else {disk.idx}
      ensures Excused(false)
      ensures Valid() && client.objects == old(client.objects)
      ensures r ==> old(DiskHas(key))
      ensures r <==> disk != null && exists e :: DC.Live(old(disk.idx.entries), e, key, now)
      ensures Keeps(iset{})
    {
      hide DC.DiskInv, DC.Guarantee, DC.FilesSpared, MC.Coherent;
      if disk == null {
        MindsItself(Caches(), iset{});
        return false;
      }
      ghost var d := disk.View();
      DC.OnlyLive(disk.idx.entries, key, now);
      var cached := disk.GetEntry(key, now);
      DC.FilesKept(d, disk.View(), {});
      return cached.Some?;
    }

    /** headOrGet: the metadata, and the object itself when it took a GetObject. */
    method HeadOrGet(key: string) returns (r: Reply<Head>, g: Option<Object>)
      requires Valid() && !MC.IsDirKey(key)
      modifies Repr()
      ensures Excused(r.Failed?)
      ensures Valid() && client.objects == old(client.objects)
      ensures r.Failed? || r == if key in client.objects then Ok(Bucket.HeadOf(client.objects[key])) else NotFound
      ensures g.Some? ==> r.Ok? && key in client.objects && g.value == client.objects[key]
      ensures !r.Failed? ==> MemHasIfFits(key)
      ensures r.Ok? && g.None? ==> old(MemHas(key)) || old(DiskHas(key))
      ensures Keeps(iset{key})
    {
      hide Valid, Minds;
      var now: int := *;
      g := None;
      ghost var a := Caches();
      var known := Remembered(key, now);
      ghost var b := Caches();
      MindsMore(a, b, iset{}, iset{key});
      if known.Some? {
        return known.value, None;
      }
      var cached := OnLocalDisk(key, now);
      ghost var c := Caches();
      MindsAgain(a, b, c, iset{key}, iset{}, iset{key});
      if cached {
        r := HeadOf(key);
      } else {
        r, g := Fetch(key, now);
      }
      MindsAgain(a, c, Caches(), iset{key}, iset{key}, iset{key});
    }

    /** The GetObject of headOrGet. */
    method Fetch(key: string, now: int) returns (r: Reply<Head>, g: Option<Object>)
      requires Valid() && !MC.IsDirKey(key)
      modifies Repr()
      ensures Excused(r.Failed?)
      ensures Valid() && client.objects == old(client.objects)
      ensures r.Failed? || r == if key in client.objects then Ok(Bucket.HeadOf(client.objects[key])) else NotFound
      ensures g.Some? <==> r.Ok?
      ensures g.Some? ==> key in client.objects && g.value == client.objects[key]
      ensures !r.Failed? ==> MemHasIfFits(key)
      ensures Keeps(iset{key})
    {
      hide Lru.PutKeeps;
      g := None;
      var out := client.GetObject(key);
      match out {
        case Failed => r := Failed;
        case NotFound =>
          r := NotFound;
          if mem != null {
            mem.Store(key, false, None, None, now, client.objects);
          }
        case Ok(o) =>
          r, g := Ok(Bucket.HeadOf(o)), Some(o);
          if mem != null {
            mem.Store(key, true, Some(Bucket.HeadOf(o)), None, now, client.objects);
          }
      }
    }

    // ---------------------------------------------------------- spill files

    ghost predicate SpillOpen(s: DC.Spilled, body: Body)
      reads disk, if disk == null then {} else {disk.idx}
    {
      disk != null && DC.SpillOpen(disk.View(), s, body)
    }

    ghost predicate SpillFinished(s: DC.Spilled, body: Body)
      reads disk, if disk == null then {} else {disk.idx}
    {
      disk != null && DC.SpillFinished(disk.View(), s, body)
    }

    /** newSpill with the buffer's contents copied in; it may fail.  The file is
        nobody else's. */
    method NewSpill(body: Body) returns (r: Option<DC.Spilled>)
      requires Valid() && disk != null
      modifies disk
      ensures Valid() && KeepsFiles({}) && (r.Some? ==> SpillOpen(r.value, body))
      ensures r.Some? ==> DC.NobodysSpill(old(disk.View()), r.value.path)
      ensures disk.failures >= old(disk.failures) && (r.None? ==> disk.failures > old(disk.failures))
    {
      if * {
        disk.failures := disk.failures + 1;
        return None;
      }
      ghost var d := disk.View();
      var p, i := disk.CreateFile(DC.SpillFile);
      ghost var t := disk.View();
      disk.WriteFile(p, body);
      DC.FilesKept(d, t, {p});
      DC.FilesKept(t, disk.View(), {p});
      DC.FilesSparedAgain(d, t, disk.View(), {p});
      DC.NewSpillSpares(d, disk.View(), p);
      return Some(DC.Spilled(p, i));
    }

    method WriteSpill(s: DC.Spilled, body: Body, ghost was: Body)
      requires Valid() && SpillOpen(s, was)
      modifies disk
      ensures Valid() && SpillOpen(s, body) && KeepsFiles({s.path}) && disk.failures == old(disk.failures)
    {
      ghost var d := disk.View();
      disk.WriteFile(s.path, body);
      DC.FilesKept(d, disk.View(), {s.path});
    }

    /** The body in the file serves the key from the disk tier, if it fits, unless the
        disk failed or the file was removed. */
    twostate predicate Adopted(key: string, etag: string, size: nat, path: DC.Path)
      reads disk, if disk == null then {} else {disk.idx}
    {
      disk != null && (DC.Serving(disk.idx.entries, key, etag, size, disk.idx.maxBytes)
                       || DiskFailures() > old(DiskFailures()) || path !in disk.files)
    }

    /** What Close does with a spill file that nothing writes any more: adopt it
        under key when it is what was uploaded. */
    method FinishSpill(s: DC.Spilled, body: Body, size: nat, key: string, etag: string)
      requires Valid() && SpillOpen(s, body) && (etag != "" ==> etag == ETagOf(body) && size == |body|)
      modifies Repr()
      ensures Excused(false)
      ensures Valid() && SpillFinished(s, body) && client.objects == old(client.objects)
      ensures KeepsFiles({s.path}) && (mem != null ==> unchanged(mem.idx))
      ensures etag != "" ==> Adopted(key, etag, size, s.path)
    {
      var now: int := *;
      ghost var d := disk.View();
      disk.Finish(s.path);
      ghost var t := disk.View();
      assert DC.Reads(t, s.inode, body);
      DC.FilesKept(d, t, {s.path});
      if etag != "" {
        ghost var _ := disk.Adopt(key, etag, s.path, size, now, disk.writable);
        DC.IdleFilesKept(t, disk.View(), t.writable);
      }
    }

    method DestroySpill(s: DC.Spilled)
      requires Valid() && disk != null && s.path.kind.SpillFile?
      modifies disk
      ensures Valid() && s.path !in disk.files && KeepsFiles({s.path})
    {
      ghost var d := disk.View();
      disk.DiscardFile(s.path);
      DC.FilesKept(d, disk.View(), {s.path});
    }

    // ------------------------------------------------------------- symlinks

    /** The graph of symlinks the bucket describes. */
    ghost function Hops(): string -> Option<string>
      reads this, client
    {
      Graph(client.objects, prefix)
    }

    /** The objects the bucket holds, by path. */
    ghost function Objects(): string -> Option<Object>
      reads this, client
    {
      Files(client.objects, prefix)
    }

    /** One turn of resolve at p: a HeadObject, and where its link leads. */
    method ResolveStep(p: string, ghost links: string -> Option<string>, ghost files: string -> Option<Object>)
        returns (failed: bool, head: Option<Head>, next: Option<string>)
      requires Valid() && Agrees(links, Hops()) && Agrees(files, Objects())
      modifies Repr()
      ensures Excused(failed)
      ensures Valid() && client.objects == old(client.objects)
      ensures !failed ==> next == links(p) && (next.None? ==> head == HeadOfFile(files(p)))
      ensures Keeps(iset{Key(prefix, p)})
    {
      assert links(p) == Hops()(p) && files(p) == Objects()(p);
      if p == "/" {
        return false, None, None;
      }
      KeyIsNoDirectory(prefix, p);
      var h := HeadOf(Key(prefix, p));
      match h {
        case Failed => return true, None, None;
        case NotFound => return false, None, None;
        case Ok(head') =>
          if head'.meta.target.None? {
            return false, Some(head'), None;
          }
          return false, None, Some(LinkTarget(p, head'.meta.target.value));
      }
    }

    /** One turn of resolveForRead at p, with the object a GetObject brought. */
    method ReadStep(p: string, ghost links: string -> Option<string>, ghost files: string -> Option<Object>)
        returns (failed: bool, head: Option<Head>, next: Option<string>, g: Option<Object>)
      requires Valid() && Agrees(links, Hops()) && Agrees(files, Objects())
      modifies Repr()
      ensures Excused(failed)
      ensures Valid() && client.objects == old(client.objects)
      ensures !failed ==> next == links(p) && (next.None? ==> head == HeadOfFile(files(p)))
      ensures g.Some? ==> !failed && next.None? && files(p) == g
      ensures Keeps(iset{Key(prefix, p)})
    {
      assert links(p) == Hops()(p) && files(p) == Objects()(p);
      if p == "/" {
        return false, None, None, None;
      }
      KeyIsNoDirectory(prefix, p);
      var h, o := HeadOrGet(Key(prefix, p));
      match h {
        case Failed => return true, None, None, None;
        case NotFound => return false, None, None, None;
        case Ok(head') =>
          if head'.meta.target.None? {
            return false, Some(head'), None, o;
          }
          return false, None, Some(LinkTarget(p, head'.meta.target.value)), None;
      }
    }

    /** The loop of resolve. */
    method Walk(start: string, ghost links: string -> Option<string>, ghost files: string -> Option<Object>)
        returns (failed: bool, walk: Links.Walk, head: Option<Head>)
      requires Valid() && Agrees(links, Hops()) && Agrees(files, Objects())
      modifies Repr()
      ensures Excused(failed)
      ensures Valid() && client.objects == old(client.objects)
      ensures !failed ==> walk == Follow(links, start, 0)
      ensures !failed ==> head == if walk.Ended? then HeadOfFile(files(walk.path)) else None
      ensures Keeps(ChainKeys(prefix, links, start))
    {
      hide Valid, Minds, ChainKeys, Agrees, Follow, Chain;
      var p, hops := start, 0;
      ChainStarts(links, start);
      ghost var a, named := Caches(), ChainKeys(prefix, links, start);
      MindsItself(a, named);
      while true
        invariant Valid() && client.objects == old(client.objects) && Excused(false)
        invariant hops <= MAX_DEPTH && Follow(links, p, hops) == Follow(links, start, 0)
        invariant Chain(links, start, hops) == Some(p) && Minds(a, Caches(), named)
        decreases MAX_DEPTH + 1 - hops
      {
        var next;
        ghost var b := Caches();
        failed, head, next := ResolveStep(p, links, files);
        StepOnChain(prefix, links, start, hops, p);
        MindsAgain(a, b, Caches(), named, iset{Key(prefix, p)}, named);
        if failed || next.None? {
          return failed, Ended(p, hops), head;
        }
        hops := hops + 1;
        if hops > MAX_DEPTH {
          return false, TooManyLinks(p, hops), None;
        }
        p := next.value;
      }
    }

    /** The loop of resolveForRead. */
    method ReadWalk(start: string, ghost links: string -> Option<string>, ghost files: string -> Option<Object>)
        returns (failed: bool, walk: Links.Walk, head: Option<Head>, g: Option<Object>)
      requires Valid() && Agrees(links, Hops()) && Agrees(files, Objects())
      modifies Repr()
      ensures Excused(failed)
      ensures Valid() && client.objects == old(client.objects)
      ensures !failed ==> walk == Follow(links, start, 0)
      ensures !failed ==> head == if walk.Ended? then HeadOfFile(files(walk.path)) else None
      ensures g.Some? ==> !failed && walk.Ended? && files(walk.path) == g
      ensures Keeps(ChainKeys(prefix, links, start))
    {
      hide Valid, Minds, ChainKeys, Agrees, Follow, Chain;
      var p, hops := start, 0;
      ChainStarts(links, start);
      ghost var a, named := Caches(), ChainKeys(prefix, links, start);
      MindsItself(a, named);
      while true
        invariant Valid() && client.objects == old(client.objects) && Excused(false)
        invariant hops <= MAX_DEPTH && Follow(links, p, hops) == Follow(links, start, 0)
        invariant Chain(links, start, hops) == Some(p) && Minds(a, Caches(), named)
        decreases MAX_DEPTH + 1 - hops
      {
        var next;
        ghost var b := Caches();
        failed, head, next, g := ReadStep(p, links, files);
        StepOnChain(prefix, links, start, hops, p);
        MindsAgain(a, b, Caches(), named, iset{Key(prefix, p)}, named);
        if failed || next.None? {
          return failed, Ended(p, hops), head, g;
        }
        hops := hops + 1;
        if hops > MAX_DEPTH {
          return false, TooManyLinks(p, hops), None, None;
        }
        p := next.value;
      }
    }

    /** resolve: follows symlinks on the final component with HeadObject. */
    method Resolve(p: string) returns (failed: bool, walk: Links.Walk, head: Option<Head>)
      requires Valid()
      modifies Repr()
      ensures Excused(failed)
      ensures Valid() && client.objects == old(client.objects)
      ensures !failed ==> walk == Follow(Hops(), CleanPath(p), 0)
      ensures !failed ==> head == if walk.Ended? then HeadOfFile(Objects()(walk.path)) else None
      ensures Keeps(ChainKeys(prefix, Hops(), CleanPath(p)))
    {
      failed, walk, head := Walk(CleanPath(p), Hops(), Objects());
    }

    /** resolveForRead: the same walk with a GetObject where nothing local serves;
        the object it returns, if any, is the one the walk ends at. */
    method ResolveForRead(p: string) returns (failed: bool, walk: Links.Walk, head: Option<Head>, g: Option<Object>)
      requires Valid()
      modifies Repr()
      ensures Excused(failed)
      ensures Valid() && client.objects == old(client.objects)
      ensures !failed ==> walk == Follow(Hops(), CleanPath(p), 0)
      ensures !failed ==> head == if walk.Ended? then HeadOfFile(Objects()(walk.path)) else None
      ensures g.Some? ==> !failed && walk.Ended? && Objects()(walk.path) == g
      ensures Keeps(ChainKeys(prefix, Hops(), CleanPath(p)))
    {
      failed, walk, head, g := ReadWalk(CleanPath(p), Hops(), Objects());
    }

    // ----------------------------------------------------- opens for reading

    /** A source serves exactly this body: at hand, in a file that stays so, or by
        streaming it. */
    ghost predicate Serves(o: Opened, body: Body)
      reads this, Repr(), if o.source.Streamed? then {o.source.s3, o.source.s3.body, o.source.s3.client} else {}
      requires Valid()
    {
      && o.size == |body|
      && match o.source
         case InMemory(held) => held == body
         case OnDisk(inode) => disk != null && DC.Reads(disk.View(), inode, body)
         case Streamed(s3) => s3.Valid() && s3.client == client && s3.Unchanged() && s3.content == body
    }

    /** Which tier a body of this size is served from: memory if it takes at most an
        eighth of it, else the disk if it fits and works, else S3. */
    twostate predicate Tiered(new o: Opened)
      reads disk
    {
      if mem != null && 8 * o.size <= mem.maxBytes then o.source.InMemory?
      else if disk != null && o.size + 256 <= disk.idx.maxBytes then
        o.source.OnDisk? || DiskFailures() > old(DiskFailures())
      else o.source.Streamed?
    }

    /** newReadFile; `sent` is what a response already open will deliver. */
    method Stream(key: string, sent: Option<Body>) returns (o: Opened)
      requires Valid() && key in client.objects && (sent.Some? ==> sent.value <= client.objects[key].body)
      ensures Serves(o, client.objects[key].body) && o.source.Streamed?
    {
      var body: RF.Stream? := null;
      if sent.Some? {
        var fate: RF.Ending :| !fate.More?;
        body := new RF.Stream(sent.value, fate);
      }
      var s3 := new RF.S3Backend(client, key, body);
      return Opened(|client.objects[key].body|, Streamed(s3));
    }

    /** cachedOpen, falling back to a stream: the local tiers serve the object's
        current body or nothing. */
    method CachedOpen(p: string, h: Head) returns (r: Reply<Opened>)
      requires Valid() && Key(prefix, p) in client.objects
      requires h == Bucket.HeadOf(client.objects[Key(prefix, p)])
      modifies Repr()
      ensures Excused(r.Failed?)
      ensures Valid() && client.objects == old(client.objects) && !r.NotFound?
      ensures r.Ok? ==> Serves(r.value, client.objects[Key(prefix, p)].body) && Tiered(r.value)
      ensures Keeps(iset{Key(prefix, p)})
    {
      var now: int := *;
      var key := Key(prefix, p);
      KeyIsNoDirectory(prefix, p);
      if mem != null && h.size <= mem.MaxDataBytes() {
        r := OpenInMemory(key, h, now);
      } else if disk != null && h.size + DC.ENTRY_OVERHEAD <= disk.idx.maxBytes {
        r := OpenOnDisk(key, h, now);
      } else {
        var streamed := Stream(key, None);
        return Ok(streamed);
      }
    }

    method OpenInMemory(key: string, h: Head, now: int) returns (r: Reply<Opened>)
      requires Valid() && key in client.objects && !MC.IsDirKey(key) && h == Bucket.HeadOf(client.objects[key]) && mem != null
      modifies Repr()
      ensures Excused(r.Failed?)
      ensures Valid() && client.objects == old(client.objects) && !r.NotFound?
      ensures r.Ok? ==> Serves(r.value, client.objects[key].body) && r.value.source.InMemory?
      ensures Keeps(iset{key})
    {
      hide Valid, Minds;
      MindsItself(Caches(), iset{key});
      var held := RememberedBody(key, now);
      ghost var mid := Caches();
      MindsMore(old(Caches()), mid, iset{}, iset{key});
      if held.Some? {
        return Ok(Opened(h.size, InMemory(held.value)));
      }
      var out := FetchBody(key, now);
      MindsAgain(old(Caches()), mid, Caches(), iset{key}, iset{key}, iset{key});
      return if out.Ok? then Ok(Opened(|out.value|, InMemory(out.value))) else Failed;
    }

    method RememberedBody(key: string, now: int) returns (r: Option<Body>)
      requires Valid() && !MC.IsDirKey(key) && mem != null
      modifies Repr()
      ensures Excused(false)
      ensures Valid() && client.objects == old(client.objects)
      ensures r.Some? ==> key in client.objects && r.value == client.objects[key].body
      ensures Keeps(iset{})
    {
      hide Lru.PutKeeps, Lru.Found;
      var e := mem.Lookup(key, now);
      return if e.Some? && e.value.present then e.value.data else None;
    }

    /** getAll, into the memory tier. */
    method FetchBody(key: string, now: int) returns (r: Reply<Body>)
      requires Valid() && key in client.objects && !MC.IsDirKey(key) && mem != null
      modifies Repr()
      ensures Excused(r.Failed?)
      ensures Valid() && client.objects == old(client.objects) && !r.NotFound?
      ensures r.Ok? ==> r.value == client.objects[key].body
      ensures r.Ok? && 8 * |r.value| <= mem.maxBytes && 256 + |key| + |r.value| <= mem.maxBytes ==>
                MC.HasBody(mem.idx.entries, key, r.value)
      ensures Keeps(iset{key})
    {
      hide Lru.PutKeeps;
      var out := client.GetObject(key);
      if !out.Ok? {
        return Failed;
      }
      mem.Store(key, true, Some(Bucket.HeadOf(out.value)), Some(out.value.body), now, client.objects);
      return Ok(out.value.body);
    }

    method OpenOnDisk(key: string, h: Head, now: int) returns (r: Reply<Opened>)
      requires Valid() && key in client.objects && h == Bucket.HeadOf(client.objects[key]) && disk != null
      modifies Repr()
      ensures Excused(r.Failed?)
      ensures Valid() && client.objects == old(client.objects) && !r.NotFound?
      ensures r.Ok? ==> Serves(r.value, client.objects[key].body)
      ensures r.Ok? ==> r.value.source.OnDisk? || disk.failures > old(disk.failures)
      ensures Keeps(iset{})
    {
      hide Lru.PutKeeps, Lru.Found, DC.DiskInv;
      ghost var d := disk.View();
      DC.WritersInFlight(d);
      var hit := disk.Open(key, h.etag, now, disk.writable);
      DC.IdleFilesKept(d, disk.View(), d.writable);
      ghost var mid := Caches();
      assert Keeps(iset{});
      if hit.Some? {
        ETagInjective(disk.inodes[hit.value], client.objects[key].body);
        return Ok(Opened(h.size, OnDisk(hit.value)));
      }
      var out := client.GetObject(key);
      if !out.Ok? {
        return Failed;
      }
      r := DiskFill(key, out.value);
      MindsAgain(old(Caches()), mid, Caches(), iset{}, iset{}, iset{});
    }

    /** diskFill, or streaming when the disk is unusable; a download that breaks
        off fails the open. */
    method DiskFill(key: string, o: Object) returns (r: Reply<Opened>)
      requires Valid() && disk != null && key in client.objects && client.objects[key] == o
      modifies Repr()
      ensures Excused(r.Failed?)
      ensures Valid() && client.objects == old(client.objects) && !r.NotFound?
      ensures r.Ok? ==> Serves(r.value, o.body)
      ensures r.Ok? ==> r.value.source.OnDisk? || disk.failures > old(disk.failures)
      ensures Keeps(iset{})
    {
      var now: int := *;
      if * {
        disk.failures := disk.failures + 1;
        var streamed := Stream(key, None);
        return Ok(streamed);
      }
      ghost var d := disk.View();
      var h := disk.Fill(key, ETagOf(o.body), o.body, now, disk.writable);
      DC.IdleFilesKept(d, disk.View(), d.writable);
      if h.None? {
        client.failures := client.failures + 1;   // the response body broke off
        return Failed;
      }
      return Ok(Opened(|o.body|, OnDisk(h.value)));
    }

    /** openFromGet: the path was resolved with a GetObject, and its response is what
        is read, into a tier or as the file goes. */
    method OpenFromGet(p: string, o: Object) returns (r: Reply<Opened>)
      requires Valid() && Key(prefix, p) in client.objects && o == client.objects[Key(prefix, p)]
      modifies Repr()
      ensures Excused(r.Failed?)
      ensures Valid() && client.objects == old(client.objects) && !r.NotFound?
      ensures r.Ok? ==> Serves(r.value, o.body) && Tiered(r.value)
      ensures Keeps(iset{Key(prefix, p)})
    {
      var now: int := *;
      var key := Key(prefix, p);
      KeyIsNoDirectory(prefix, p);
      if mem != null && |o.body| <= mem.MaxDataBytes() {
        mem.Store(key, true, Some(Bucket.HeadOf(o)), Some(o.body), now, client.objects);
        return Ok(Opened(|o.body|, InMemory(o.body)));
      }
      if disk != null && |o.body| + DC.ENTRY_OVERHEAD <= disk.idx.maxBytes {
        r := DiskFill(key, o);
        return;
      }
      var sent: nat :| sent <= |o.body|;
      var streamed := Stream(key, Some(o.body[..sent]));
      return Ok(streamed);
    }

    /** Opening for reading, from path to body. */
    method OpenForRead(p: string) returns (r: OpenReply)
      requires Valid()
      modifies Repr()
      ensures Excused(r.OpenFailed?)
      ensures Valid() && client.objects == old(client.objects)
      ensures r.OpenFailed? || OpenVerdict(Follow(Hops(), CleanPath(p), 0), r)
      ensures r.ForReading? ==> Tiered(r.file)
      ensures Keeps(ReadKeys(client.objects, prefix, CleanPath(p)))
    {
      ghost var a, named := Caches(), ReadKeys(client.objects, prefix, CleanPath(p));
      var failed, walk, head, g := ResolveForRead(p);
      ghost var b := Caches();
      MindsMore(a, b, ChainKeys(prefix, Hops(), CleanPath(p)), named);
      if failed {
        return OpenFailed;
      }
      if walk.TooManyLinks? {
        return LinkLoop;
      }
      if walk.path == "/" {
        return IsDirectory;
      }
      if head.None? {
        r := OpenMissing(walk.path);
        MindsAgain(a, b, Caches(), named, Absent(client.objects, prefix, walk.path), named);
        return;
      }
      EndsOnChain(Hops(), CleanPath(p), prefix);
      var file;
      if g.Some? {
        file := OpenFromGet(walk.path, g.value);
      } else {
        file := CachedOpen(walk.path, head.value);
      }
      MindsAgain(a, b, Caches(), named, iset{Key(prefix, walk.path)}, named);
      return if file.Ok? then ForReading(file.value) else OpenFailed;
    }

    /** Where there is no object there may be a directory. */
    method OpenMissing(p: string) returns (r: OpenReply)
      requires Valid()
      modifies Repr()
      ensures Excused(r.OpenFailed?)
      ensures Valid() && client.objects == old(client.objects)
      ensures r.OpenFailed? || r == if IsDir(p) then IsDirectory else NotExist
      ensures Keeps(Absent(client.objects, prefix, p))
    {
      var dir := DirExists(p);
      return if !dir.Ok? then OpenFailed else if dir.value then IsDirectory else NotExist;
    }

    /** The reply an open gives when no request fails, by where the chain of links
        ends. */
    ghost predicate OpenVerdict(walk: Links.Walk, r: OpenReply)
      reads this, Repr(), if r.ForReading? && r.file.source.Streamed? then {r.file.source.s3, r.file.source.s3.body, r.file.source.s3.client} else {}
      requires Valid()
    {
      if walk.TooManyLinks? then r == LinkLoop
      else if walk.path == "/" then r == IsDirectory
      else if Objects()(walk.path).Some? then r.ForReading? && Serves(r.file, Objects()(walk.path).value.body)
      else r == if IsDir(walk.path) then IsDirectory else NotExist
    }

    // ---------------------------------------------------------------- Rename

    /** How far a directory move got: n copies, then m deletes. */
    ghost predicate Progress(s: Bucket.Store, keys: seq<string>, n: nat, m: nat, src: string, dst: string)
      reads client
    {
      && IsListing(s, src, keys) && R.AllUnder(keys, src)
      && n <= |keys| && m <= |keys| && (m > 0 ==> n == |keys|)
      && client.objects == R.Deleted(R.Copied(s, keys, n, src, dst), keys, m)
    }

    method CopyAll(keys: seq<string>, src: string, dst: string) returns (ok: bool, ghost n: nat)
      requires Valid() && IsListing(client.objects, src, keys) && R.AllUnder(keys, src)
      modifies Repr()
      ensures Excused(!ok)
      ensures Valid() && n <= |keys| && (ok ==> n == |keys|)
      ensures client.objects == R.Copied(old(client.objects), keys, n, src, dst)
      ensures Keeps(Landed(Under(old(client.objects), src), src, dst))
    {
      hide Valid, Minds;
      ghost var s, a := client.objects, Caches();
      ghost var named := Landed(Under(s, src), src, dst);
      var i := 0;
      n := 0;
      MindsItself(a, named);
      while i < |keys|
        invariant i <= |keys| && Valid() && n == i && Excused(false)
        invariant client.objects == R.Copied(s, keys, i, src, dst) && Minds(a, Caches(), named)
      {
        CopySourceStays(s, keys, i, src, dst);
        ghost var b := Caches();
        var r := Copy(keys[i], dst + keys[i][|src|..]);
        LandsThere(s, keys, i, src, dst);
        MindsAgain(a, b, Caches(), named, MC.Learnt(R.Moved(keys[i], src, dst), true), named);
        if !r.Ok? {
          return false, i;
        }
        i := i + 1;
        n := i;
      }
      return true, n;
    }

    method DeleteAll(keys: seq<string>) returns (ok: bool, ghost m: nat)
      requires Valid()
      modifies Repr()
      ensures Excused(!ok)
      ensures Valid() && m <= |keys| && (ok ==> m == |keys|)
      ensures client.objects == R.Deleted(old(client.objects), keys, m)
      ensures Keeps(iset{})
    {
      hide Valid, Minds;
      ghost var s, a := client.objects, Caches();
      var i := 0;
      m := 0;
      MindsItself(a, iset{});
      assert R.Deleted(s, keys, 0) == s;
      while i < |keys|
        invariant i <= |keys| && Valid() && m == i && Excused(false)
        invariant client.objects == R.Deleted(s, keys, i) && Minds(a, Caches(), iset{})
      {
        ghost var b := Caches();
        var gone := Delete(keys[i]);
        MindsAgain(a, b, Caches(), iset{}, iset{}, iset{});
        if !gone {
          return false, i;
        }
        assert (set j | 0 <= j < i + 1 :: keys[j]) == (set j | 0 <= j < i :: keys[j]) + {keys[i]};
        i := i + 1;
        m := i;
      }
      return true, m;
    }

    /** The directory branch of Rename; a failed request stops it where it is. */
    method MoveDirectory(src: string, dst: string) returns (ok: bool, ghost keys: seq<string>, ghost n: nat, ghost m: nat)
      requires Valid()
      modifies Repr()
      ensures Excused(!ok)
      ensures Valid()
      ensures Progress(old(client.objects), keys, n, m, src, dst) || (!ok && client.objects == old(client.objects))
      ensures ok ==> n == m == |keys|
      ensures Keeps(Landed(Under(old(client.objects), src), src, dst))
    {
      hide Minds;
      ghost var a, named := Caches(), Landed(Under(client.objects, src), src, dst);
      MindsItself(a, named);
      keys, n, m := [], 0, 0;
      var listing := client.ListKeys(src);
      assert Caches() == a;
      if !listing.Ok? {
        return false, [], 0, 0;
      }
      keys := listing.value;
      R.ListingUnder(client.objects, keys, src);
      ok, n := CopyAll(listing.value, src, dst);
      assert R.Deleted(client.objects, keys, 0) == client.objects;
      if ok {
        ghost var b := Caches();
        ok, m := DeleteAll(listing.value);
        MindsAgain(a, b, Caches(), named, iset{}, named);
      }
    }

    /** What a rename of cleaned paths p to q may have done to the bucket. */
    ghost predicate RenameEffect(s: Bucket.Store, p: string, q: string, r: RenameReply)
      reads this, client
    {
      var (k, l) := (Key(prefix, p), Key(prefix, q));
      if p == "/" || q == "/" || p == q then client.objects == s
      else if k in s then
        if r.Done? then client.objects == s[l := s[k]] - {k}
        else r.RequestFailed? && (client.objects == s || client.objects == s[l := s[k]])
      else if r.Done? then
        exists keys :: Progress(s, keys, |keys|, |keys|, ListPrefix(prefix, p), ListPrefix(prefix, q))
      else
        client.objects == s ||
        (r.RequestFailed? && exists keys, n, m :: Progress(s, keys, n, m, ListPrefix(prefix, p), ListPrefix(prefix, q)))
    }

    /** Which reply a rename gives when no request fails. */
    ghost predicate RenameVerdict(s: Bucket.Store, p: string, q: string, r: RenameReply) {
      var there := Key(prefix, p) in s || Bucket.DirExists(s, ListPrefix(prefix, p));
      r == if p == "/" then BaseDirectory
           else if q == "/" then Exists
           else if !there then Missing
           else if p != q && Key(prefix, p) !in s && Below(q, p) then Invalid
           else Done
    }

    method Rename(oldPath: string, newPath: string) returns (r: RenameReply)
      requires Valid()
      modifies Repr()
      ensures Excused(r.RequestFailed?)
      ensures Valid()
      ensures RenameEffect(old(client.objects), CleanPath(oldPath), CleanPath(newPath), r)
      ensures r.RequestFailed? || RenameVerdict(old(client.objects), CleanPath(oldPath), CleanPath(newPath), r)
      ensures var p, q := CleanPath(oldPath), CleanPath(newPath);
              r.Done? && Key(prefix, p) !in old(client.objects) && !Below(p, q) && !Below(q, p) ==>
                R.IsMoved(old(client.objects), client.objects, ListPrefix(prefix, p), ListPrefix(prefix, q))
      ensures Keeps(RenameKeys(old(client.objects), prefix, CleanPath(oldPath), CleanPath(newPath)))
    {
      CleanPathIdempotent(oldPath);
      CleanPathIdempotent(newPath);
      var p, q := CleanPath(oldPath), CleanPath(newPath);
      r := RenameClean(p, q);
      if r.Done? && Key(prefix, p) !in old(client.objects) && !Below(p, q) && !Below(q, p) {
        ghost var s := old(client.objects);
        ghost var keys :| Progress(s, keys, |keys|, |keys|, ListPrefix(prefix, p), ListPrefix(prefix, q));
        R.DirectoryRenameMoves(s, keys, prefix, p, q);
      }
    }

    method Present(p: string) returns (file: Reply<Head>, dir: Reply<bool>)
      requires Valid() && p != "/" && CleanPath(p) == p
      modifies Repr()
      ensures Excused(file.Failed? || (file.NotFound? && dir.Failed?)) && !dir.NotFound?
      ensures Valid() && client.objects == old(client.objects)
      ensures file.Ok? ==> Key(prefix, p) in client.objects
      ensures file.NotFound? ==> Key(prefix, p) !in client.objects
                                 && (dir.Ok? ==> (dir.value <==> Bucket.DirExists(client.objects, ListPrefix(prefix, p))))
      ensures Keeps(StatKeys(client.objects, prefix, p))
    {
      ghost var a, named := Caches(), StatKeys(client.objects, prefix, p);
      KeyIsNoDirectory(prefix, p);
      dir := Failed;
      file := HeadOf(Key(prefix, p));
      ghost var b := Caches();
      MindsMore(a, b, iset{Key(prefix, p)}, named);
      if file.NotFound? {
        dir := DirExists(p);
        MindsAgain(a, b, Caches(), named, Absent(client.objects, prefix, p), named);
      }
    }

    method RenameClean(p: string, q: string) returns (r: RenameReply)
      requires Valid() && CleanPath(p) == p && CleanPath(q) == q
      modifies Repr()
      ensures Excused(r.RequestFailed?)
      ensures Valid()
      ensures RenameEffect(old(client.objects), p, q, r)
      ensures r.RequestFailed? || RenameVerdict(old(client.objects), p, q, r)
      ensures Keeps(RenameKeys(old(client.objects), prefix, p, q))
    {
      hide Valid, Minds, StatKeys, Landed, Under;
      ghost var a, named := Caches(), RenameKeys(client.objects, prefix, p, q);
      MindsItself(a, named);
      if p == "/" {
        return BaseDirectory;
      }
      if q == "/" {
        return Exists;
      }
      var file, dir := Present(p);
      ghost var b := Caches();
      MindsMore(a, b, StatKeys(client.objects, prefix, p), named);
      if p == q {
        if file.Ok? {
          return Done;
        }
        if file.Failed? || !dir.Ok? {
          return RequestFailed;
        }
        return if dir.value then Done else Missing;
      }
      if file.Ok? {
        r := RenameFile(Key(prefix, p), Key(prefix, q));
        MindsAgain(a, b, Caches(), named, iset{Key(prefix, q)}, named);
        return;
      }
      if file.Failed? || !dir.Ok? {
        return RequestFailed;
      }
      if !dir.value {
        return Missing;
      }
      if p + "/" <= q + "/" {
        return Invalid;
      }
      ghost var landed := Landed(Under(client.objects, ListPrefix(prefix, p)), ListPrefix(prefix, p), ListPrefix(prefix, q));
      var ok;
      ghost var keys, n, m;
      ok, keys, n, m := MoveDirectory(ListPrefix(prefix, p), ListPrefix(prefix, q));
      MindsAgain(a, b, Caches(), named, landed, named);
      return if ok then Done else RequestFailed;
    }

    /** The file branch of Rename. */
    method RenameFile(k: string, l: string) returns (r: RenameReply)
      requires Valid() && k in client.objects
      modifies Repr()
      ensures Excused(r.RequestFailed?)
      ensures Valid() && (r.Done? || r.RequestFailed?)
      ensures var s := old(client.objects);
              if r.Done? then client.objects == s[l := s[k]] - {k}
              else client.objects == s || client.objects == s[l := s[k]]
      ensures Keeps(iset{l})
    {
      hide Valid, Minds;
      ghost var a := Caches();
      MindsItself(a, iset{l});
      var c := Copy(k, l);
      ghost var b := Caches();
      MindsMore(a, b, MC.Learnt(l, true), iset{l});
      if !c.Ok? {
        return RequestFailed;
      }
      var gone := Delete(k);
      MindsAgain(a, b, Caches(), iset{l}, iset{}, iset{l});
      return if gone then Done else RequestFailed;
    }

    // ---------------------------------------------------------- between calls

    lemma FileKey(p: string)
      requires Valid()
      ensures !MC.IsDirKey(Key(prefix, p))
    {
      KeyIsNoDirectory(prefix, p);
    }

    /** Any call. */
    method Perform(call: Call)
      requires Valid()
      modifies Repr()
      ensures Valid() && Keeps(CallKeys(old(client.objects), prefix, call))
    {
      hide Valid, Minds, ReadKeys, RenameKeys, Absent;
      match call {
        case Stat(p) =>
          FileKey(p);
          var _ := HeadOf(Key(prefix, p));
        case ExistsDir(p) =>
          var _ := DirExists(p);
        case Read(p) =>
          var _ := OpenForRead(p);
        case Write(p, body, meta) =>
          FileKey(p);
          var _ := Put(Key(prefix, p), body, meta);
        case Remove(p) =>
          var _ := Delete(Key(prefix, p));
        case Presign(p) =>
          ForgetForUpload(Key(prefix, p));
        case Move(p, q) =>
          var _ := Rename(p, q);
      }
    }

    /** What a presigned upload waits for: a call that does not ask for the key,
        create it, or find one of its ancestors missing leaves the cache ready for
        it, as it was once the key was forgotten. */
    method PerformBefore(call: Call, ghost key: string)
      requires Valid() && ReadyFor(key) && !MC.IsDirKey(key)
      modifies Repr()
      ensures Valid()
      ensures MC.Avoids(CallKeys(old(client.objects), prefix, call), key) ==> ReadyFor(key)
    {
      hide CallKeys, Valid;
      ghost var before := if mem == null then [] else mem.idx.entries;
      ghost var named := CallKeys(client.objects, prefix, call);
      Perform(call);
      if MC.Avoids(named, key) && mem != null {
        MC.UnreadStays(before, mem.idx.entries, named, key);
      }
    }
  }

  lemma LandsThere(s: Bucket.Store, keys: seq<string>, i: nat, src: string, dst: string)
    requires IsListing(s, src, keys) && i < |keys|
    ensures src <= keys[i] && MC.Learnt(R.Moved(keys[i], src, dst), true) <= Landed(Under(s, src), src, dst)
  {
    assert keys[i] in keys && keys[i] in Under(s, src);
  }

  lemma StepOnChain(prefix: string, links: string -> Option<string>, start: string, hops: nat, p: string)
    requires Chain(links, start, hops) == Some(p)
    ensures iset{Key(prefix, p)} <= ChainKeys(prefix, links, start)
    ensures Chain(links, start, hops + 1) == links(p)
    ensures hops <= MAX_DEPTH ==>
              Follow(links, p, hops) ==
              if links(p).None? then Ended(p, hops)
              else if hops + 1 > MAX_DEPTH then TooManyLinks(p, hops + 1) else Follow(links, links(p).value, hops + 1)
  {
    ChainGrows(links, start, hops);
  }

  lemma ChainStarts(links: string -> Option<string>, start: string)
    ensures Chain(links, start, 0) == Some(start)
  {
  }

  /** A walk ends on its chain. */
  lemma EndsOnChain(links: string -> Option<string>, start: string, prefix: string)
    requires Follow(links, start, 0).Ended?
    ensures Key(prefix, Follow(links, start, 0).path) in ChainKeys(prefix, links, start)
  {
    FollowMeaning(links, start);
  }

  /** Copies remove nothing, so the object to copy next is still there. */
  lemma {:induction false} CopySourceStays(s: Bucket.Store, keys: seq<string>, i: nat, src: string, dst: string)
    requires i <= |keys| && IsListing(s, src, keys)
    ensures R.AllUnder(keys, src)
    ensures s.Keys <= R.Copied(s, keys, i, src, dst).Keys
    ensures i < |keys| ==> keys[i] in R.Copied(s, keys, i, src, dst)
  {
    R.ListingUnder(s, keys, src);
    if i > 0 {
      CopySourceStays(s, keys, i - 1, src, dst);
    }
  }
}
