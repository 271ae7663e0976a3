# A verified model of the S3 filesystem

s3fs presents an S3 bucket as a filesystem: objects are files, key prefixes are
directories, and there are caches in memory and on disk, buffered writers,
streaming readers and file locks that work across processes. This project models
the parts of it that are hard to get right and proves what they promise.

| file | models | main results |
|---|---|---|
| `LeaseText`, `Lease`, `LeaseSafety` | the lease protocol of `lock_s3.go`: any number of sessions, asynchronous requests, lost replies, crashes, one clock | mutual exclusion, single tenure, takeovers only of expired leases, over whole runs |
| `LeaseNecessity` | the same | for every late unconditional delete there is a run with two live holders |
| `LeaseFate` | the same | what a successful Unlock and a refused renewal mean, exactly, with a run where a live holder's heartbeat stops |
| `Locker` | the code of `S3Locker` | every method drives its session along steps of `Lease` |
| `LockManager` | `lock.go` in one process, as steps and as code | waiter counts, no lost wakeup, no leaked entry |
| `LockStack` | lock managers of many processes over the lease protocol | in every run backend calls never overlap; in timely ones one holder overall, and exactly when a successful Unlock has freed the lock |
| `Lru` | `lru.go` | budget law, longest prefix kept, conservation of values |
| `MemCache`, `S3Fs` | `mem.go`, `s3ops.go`, `Rename` | every answer is the bare bucket's, whatever is cached, evicted or expired; what an operation may leave in the caches, and that it touches no open file |
| `Paths`, `PathLaws` | path cleaning, keys, link targets | laws of `cleanPath` that no other function has; where a link leads |
| `Links`, `Renaming` | symlink chains, directory moves | walkers agree and fail exactly above 40 hops; when a move is right, and that it loses nothing part-way |
| `DiskCache` | `disk.go` under any interleaving | an entry never lies; the files are exactly the live entries |
| `ByteFile`, `MemBuf`, `SpillBuf`, `WriteFile` | `file_write.go`, `pool.go`, the spill buffer of `disk.go` | any run answers as a plain byte sequence; buffer lifetime; array ownership; amortised growth |
| `OpenFiles` | several open handles | whatever is done through one handle, every other is as it was |
| `ReadFile` | `file_read.go` | reads lose and repeat nothing however streams are cut, and reach the end; exactly when ReadAt reports io.EOF too soon |

## How it is modelled

The bucket is a map from key to object (`Bucket.Client`), and each request is one
atomic step that may also fail, in which case it was not applied. Failed requests are
counted, so that an operation's contract can say that it fails only when one of
its requests did (`S3Fs.FileSystem.Excused`). Failures of the local disk are counted too
(`DiskCache.Cache.failures`), and so are the requests of a lock session that end in an
error other than its protocol's (`Locker.World.troubles`), and the waits and backend
answers of a lock manager. What each operation leaves to others of
the local tiers is said too (`S3Fs.FileSystem.Keeps`). Where the source
updates something in place the model is a class with the same fields, and its
methods are proved against functions on values; the laws are lemmas about those
functions. Where several processes or goroutines act at once the model is a step
relation: the lease protocol, the two lock layers together, and the lock manager.
The classes `Locker.S3Locker`, `LockManager.Manager` and `DiskCache.Cache` let any
steps of others happen between their own.

Requests of the lease protocol are asynchronous: a sent request may land at any
later time, at most once, even after its session gave up or crashed, and its reply
may be lost. Reading a reply, the local code after it and sending the next request
are one step. A failed `If-Match` may answer 412, or 404 when the object is gone
(sections 13.1.1 and 15.5.13 of RFC 9110); a takeover that gets the latter fails,
a renewal that gets it tries again at the next tick.

`hide` statements only keep definitions that a proof does not need away from the
solver.

### Assumptions

- All processes share one clock (the caveat at line 31 of the repository's README).
- For mutual exclusion, and for the exact meaning of a retried Unlock, a delete sent
  by `Unlock` reaches the store before the lease its `HeadObject` saw expires
  (`Lease.Timely`). `Unlock` deletes unconditionally, so without this the property
  fails (`LeaseNecessity.LateDeleteBreaksExclusion`). Single tenure, the contract
  between the two lock layers and what an Unlock that is no retry means need no
  such assumption.
- A process counts as holding from the return of `Lock` until `Unlock` begins:
  `Unlock` forgets the hold before it does anything else.
- Owner ids are fresh and single-line. Equal ETags mean equal bodies and no ETag is
  empty; for lock objects this is proved of the body `putLock` writes.
- Each handle makes its lock, unlock and close calls one at a time.
- One writer uses the bucket while the memory cache is on, and a primitive of
  `s3ops.go` with its cache updates is one step. An upload through a presigned URL
  changes one key, and is seen by later reads as long as no operation since the URL
  was presigned asked for the key, created it, or found one of its ancestor
  directories missing (`MemCache.UploadUnreadIsSeen`, and one call at a time
  `S3Fs.FileSystem.PerformBefore`; `MemCache.UploadIsSeenExactly` is the exact
  condition).
- Outside the lease protocol a failed request was not applied. When it was and only
  its reply was lost, the memory cache is not told: `MemCache.LostPutExactly` and
  `MemCache.LostDeleteExactly` say exactly when it stays right all the same.
- A PUT whose body is not as long as the length it announces fails.
- A body that is read without an error was complete, except in `ReadFile`, where
  streams may end or fail anywhere. A stream does not return zero bytes and no error
  to a read that asked for some.
- Local disk writes to an open spill file do not fail.

### What was found

- **Unlock that fails.** `lock.go:59-61` says that after a backend failure the lock
  stays held so that the caller may retry. The retry finds no hold in `S3Locker` and
  succeeds without a request: `LockStack.RetriedUnlockFreesNothing` is a run after
  which the unexpired lock object is still stored, and `LockStack.UnlockMeansExactly`
  says exactly when a successful Unlock means that it is not. A second `Lock` by the
  handle likewise succeeds with no backend lock behind it
  (`LockStack.SecondLockIsBacked`).
- **A heartbeat that stops for nothing.** `lock_s3.go:239-240` says that a precondition
  failure means that the lock was taken over. When the success of a renewal is not
  heard of, the next renewal still names the object before it and is refused, so
  that the heartbeat of a healthy holder stops (`LeaseFate.StoppedWhileHolding`). The
  lock is lost if and only if what is stored is not such an unheard renewal
  (`LeaseFate.StoppedMeans`), and for certain when no earlier renewal took the
  `continue` branch with an error (`LeaseFate.StoppedIsLost`).
- **Late delete.** See the assumption above.
- **Lost leases.** `lock_s3.go:239-241` speaks of retrying while the lease lasts; the
  code retries for as long as the handle holds, and a renewal sent after the deadline
  can bring the lease back (`LeaseFate.RenewsAfterDeadline`).
- **Moving a directory onto its own ancestor** is accepted, while moving it below
  itself is refused. The first can lose an object (`Renaming.OntoParentCanLose`).
  `Renaming.MoveIsRight` gives the exact condition: no moved object lands on a key
  that is itself being moved.
- **Empty write past the end.** A zero-length write past the end grows a memory
  buffer but only moves the recorded size of a spilled one, and the two then read
  differently (`ByteFile.EmptyWriteDiverges`). `ByteFile.EmptyWriteIsExact` says when
  the recorded size stays right, `ByteFile.StepIsExact` that nothing else makes the
  buffer differ from a byte sequence, and `ByteFile.RepairIsExact` what makes it right
  again. Until then neither Sync nor Close succeeds, since the upload announces the
  recorded size (`WriteFile.Handle.Flush`).
- **ReadAt on a stream that breaks off** answers a short read with io.EOF, before the
  object's end (`ReadFile.EofInsideHappens`), exactly when the response ends, early or
  as announced, before the range was delivered (`ReadFile.EofInsideIsExact`). The
  bytes are right, but unlike for `Read`, io.EOF does not mean the end.
- **A read between presigning and uploading.** `presign.go:289-290` says that reads
  after the upload fetch the fresh state. A lookup of the absent key between the two
  puts the old answer back in the cache, and it is given until it expires, for ever
  without a TTL (`MemCache.ReadBeforeUpload`).

## Model

| member | source | states |
|---|---|---|
| `Common.ETagInjective` | lock_s3.go:176-180 | equal ETags come from equal bodies |
| `LeaseText.ParseFormat` | lock_s3.go:163-181 | a deadline read back from the metadata is the one written there |
| `LeaseText.ParsesExactly` | lock_s3.go:163-165 | a deadline parses exactly when it is a run of digits, with or without a sign |
| `LeaseText.ParsesDecimal` | lock_s3.go:163-165 | and is read in decimal |
| `LeaseText.LockBodyInjective` | lock_s3.go:176-185 | owner and deadline are determined by the body, so `If-Match` on its hash is a compare-and-swap |
| `Lease.MatchIsSame` | lock_s3.go:168-174 | an ETag that matches in a reachable store means the very object inspected |
| `Lease.LandKeepsShape` | lock_s3.go:143-193 | a request reaching the store, at any time, keeps the protocol invariant |
| `Lease.SessionStepKeepsShape` | lock_s3.go:120-261 | every local step of every session keeps it |
| `LeaseSafety.LandKeepsLeases` | lock_s3.go:143-229 | a timely landing keeps every acknowledged, unexpired deadline backed by the store |
| `LeaseSafety.SessionStepKeepsLeases` | lock_s3.go:120-261 | so does every local step, including time passing |
| `LeaseSafety.RunKeepsSafe` | lock_s3.go:120-261 | all of this holds in every state of every timely run |
| `LeaseSafety.RunKeepsDated` | lock_s3.go:163-181 | in every run, however late its deletes, written deadlines only move forward and every takeover sent is of an expired lease |
| `LeaseSafety.MutualExclusion` | lock_s3.go:117-261 | a session whose last acknowledged deadline has not passed and that has not begun to unlock owns the stored object, and is the only such session |
| `LeaseSafety.SingleTenure` | lock_s3.go:143-193 | in every run an owner that was replaced or removed never reappears in the store |
| `LeaseSafety.AtMostOneTakeOver` | lock_s3.go:168-174 | among takeovers sent against one owner's objects at most one ever succeeds |
| `LeaseSafety.TakeOverOnlyExpired` | lock_s3.go:151-174 | in every run, a takeover that succeeds replaces exactly the object inspected, of another owner, already expired; a lease renewed meanwhile is never overwritten |
| `LeaseSafety.RenewOnlyOwn` | lock_s3.go:239-261 | in every run, a renewal that succeeds replaces exactly the object it was conditioned on, of its own session, by one with no earlier deadline, and never resurrects a released or lost lock |
| `LeaseNecessity.LateDeleteBreaksExclusion` | lock_s3.go:208-228 | for every lease and every landing time past the deadline there is a run, timely but for that one delete, with two live holders |
| `LeaseFate.RunKeepsFate` | lock_s3.go:195-229 | in every run, a session that got its lock has had its object in the store, and one whose Unlock succeeded has it there no more |
| `LeaseFate.StepKeepsFates` | lock_s3.go:195-229 | every timely step keeps the record of how each object left the store |
| `LeaseFate.PastMeansLeft` | lock_s3.go:168-228 | an object has left the store exactly when its own delete landed or a takeover of it did |
| `LeaseFate.RunKeepsSessionFate` | lock_s3.go:239-261 | in every run, the object of the last acknowledged deadline is stored, unless the lock was lost or a renewal that landed unheard replaced it |
| `LeaseFate.StoppedMeans` | lock_s3.go:239-255 | a heartbeat stopped by a precondition failure has lost the lock if and only if what is stored is not from one of its renewals that landed without its reading the reply |
| `LeaseFate.StoppedIsLost` | lock_s3.go:239-257 | it has for certain when no request of the session ended in another error |
| `LeaseFate.StoppedWhileHolding` | lock_s3.go:250-258 | otherwise it need not have: a timely run to a live holder whose heartbeat stopped while the store holds its own unexpired object |
| `LeaseFate.RenewsAfterDeadline` | lock_s3.go:242-259 | the heartbeat looks at no clock: a timely run in which a session renews, and holds again, after its deadline has passed |
| `Locker.World.Pass` | lock_s3.go:130-137 | while a session waits, any steps of others leave its phase alone and its request gets only a reply that fits |
| `Locker.World.Await` | lock_s3.go:143-193 | a reply read is the one recorded when the request landed, and fits it |
| `Locker.S3Locker.TryAcquire` | lock_s3.go:143-174 | a conditional create with a fresh lease goes out first; afterwards the session holds with the ETag of its own last write, or polls again, or has failed; it fails only when a request failed or its takeover found the object gone |
| `Locker.S3Locker.Contend` | lock_s3.go:151-174 | once the object exists: inspect it, and poll again, take over or fail |
| `Locker.S3Locker.TakeOverExpired` | lock_s3.go:151-174 | a deadline that parses and has not passed, to the second, is left alone without another request; for any other the next request is a takeover of exactly the object inspected |
| `Locker.S3Locker.Lock` | lock_s3.go:117-138 | success records the hold and means the session holds with the ETag returned; otherwise the session is over and nothing is recorded; it fails only when a request failed, a takeover found the object gone, or after polls + 1 creates |
| `Locker.S3Locker.Renew` | lock_s3.go:242-259 | a tick sends a renewal conditioned on the session's last acknowledged write; afterwards the ETag kept is that of the last acknowledged one, or the renewal was refused, and it is said whether the tick ended in another error; the session sends this and nothing else, and its acknowledged deadline becomes the one asked for exactly when the write was acknowledged |
| `Locker.S3Locker.Heartbeat` | lock_s3.go:239-261 | every tick sends one renewal, conditioned on the last acknowledged write and for a fresh deadline, until one is refused or Unlock has begun; the deadline held is that of the last one acknowledged; a refusal means that the lock is lost exactly when no unheard renewal is what is stored, and always when no tick ended in another error |
| `Locker.S3Locker.Unlock` | lock_s3.go:195-229 | the hold is forgotten; a name not held succeeds and changes nothing; success means that no object of the session is in the store, now or later; it fails only when a request did |
| `Locker.S3Locker.Release` | lock_s3.go:207-228 | the same, from the ownership check on |
| `Locker.HolderIsAlone` | lock_s3.go:117-138 | after timely deletes, a Lock that returned owns the object while its lease lasts and nobody else holds |
| `LockManager.AttemptKeepsInv` | lock.go:90-121 | a turn of acquireLocal keeps the invariant and takes the path exactly when nobody owns it |
| `LockManager.WakeKeepsInv` | lock.go:110-113 | a wakeup and the turn after it keep the invariant |
| `LockManager.CancelKeepsInv` | lock.go:114-119 | so does a cancelled wait |
| `LockManager.ReleaseKeepsInv` | lock.go:131-142 | so does a release |
| `LockManager.RunKeepsInv` | lock.go:90-150 | in every state of every run `waiters` is the real number of waiters, each waits on the entry in the map through a closed or current channel, and every entry is owned or awaited |
| `LockManager.NoLostWakeup` | lock.go:90-142 | whoever waits for a path nobody owns can run, and takes it |
| `LockManager.ReleaseWakesAll` | lock.go:131-142 | a release makes every waiter of the path runnable |
| `LockManager.NoLeakedEntry` | lock.go:144-150 | with nobody waiting, exactly the owned paths have an entry |
| `LockManager.OthersSpare` | lock.go:90-142 | a step of one handle neither takes nor gives ownership to another, nor moves its wait |
| `LockManager.Manager.Turn` | lock.go:93-109 | one pass of the loop is the step function |
| `LockManager.Manager.WakeUp` | lock.go:111-113 | the wakeup branch is the step function and keeps the invariant |
| `LockManager.Manager.GiveUp` | lock.go:114-119 | the cancellation branch likewise |
| `LockManager.Manager.AcquireLocal` | lock.go:88-122 | whatever the others do, it succeeds exactly when the handle ends up owning the path, fresh exactly when it did not before, and at once on an unowned path; it gives up only once its context is done |
| `LockManager.Manager.Holds` | lock.go:124-129 | exactly ownership |
| `LockManager.Manager.ReleaseLocal` | lock.go:131-142 | the step function, and the invariant |
| `LockManager.Manager.Lock` | lock.go:45-57 | success exactly with local ownership; the backend is asked exactly on a fresh acquisition, and its refusal gives the local lock back; without having asked it fails only once its context is done |
| `LockManager.Manager.Unlock` | lock.go:59-73 | a no-op when not held; the local lock stays exactly when the backend fails |
| `LockManager.Manager.ReleaseOnClose` | lock.go:75-86 | the lock is always gone, and the backend is asked exactly when it was held |
| `LockStack.NextKeepsInv` | lock.go:47-86 | every step of both layers, in time or not, keeps them consistent |
| `LockStack.RunKeepsInv` | lock.go:47-86 | over whole runs, however late their deletes |
| `LockStack.TimelyRunKeepsSafe` | lock.go:47-86 | when its deletes are in time, a run also keeps what the lease protocol promises |
| `LockStack.OneHolderOverall` | lock.go:23-26 | in a run whose deletes are in time, at most one handle of all processes holds a path with an unexpired lease, and the store names its session |
| `LockStack.BackendCallsNeverOverlap` | lock.go:13-16 | in every run, in one process no two handles are in or between backend calls for a name: the Locker contract |
| `LockStack.UnlockFindsOwnSession` | lock_s3.go:197-204 | in every run, the hold S3Locker finds under the name is the unlocking handle's own |
| `LockStack.UnlockMeans` | lock.go:59-73 | in every run, a successful Unlock that is not the retry of a failed one means that the session's object has left the store for good |
| `LockStack.UnlockMeansExactly` | lock.go:59-73 | in a run whose deletes are in time, any successful Unlock means so if and only if it is not the retry of one that failed with its delete not landed and nobody having taken over since |
| `LockStack.RetriedUnlockFreesNothing` | lock.go:59-61 | such a retry happens: a run in which it succeeds, sends nothing, and leaves the unexpired object stored |
| `LockStack.SecondLockIsBacked` | lock.go:45-51 | in every run, a second Lock changes nothing in the backend; it is backed by a hold if and only if the first one's Unlock has not begun |
| `Lru.FitIsLongest` | lru.go:76-103 | what put keeps is the longest most-recent-first run that fits |
| `Lru.FitFits` | lru.go:76-103 | and it fits |
| `Lru.NewEntrySurvives` | lru.go:79-103 | an admissible new entry survives its own put |
| `Lru.WithoutRest` | lru.go:79-108 | removing a key takes exactly its entry and keeps the others in order |
| `Lru.PutConserves` | lru.go:45-103 | values before a put and the new one are exactly those kept and those handed to onEvict, each once |
| `Lru.WithoutConserves` | lru.go:45-58 | the same for expiry and deletion |
| `Lru.PutKeepsWhat` | lru.go:79-103 | nothing else is kept, and the rejected key has no entry |
| `Lru.PromotedSame` | lru.go:62-74 | a hit only reorders |
| `Lru.LruIndex.Get` | lru.go:60-74 | an entry is returned and promoted up to the moment it expires, and from then on leaves through onEvict; one without such a moment is always found; all others stay, and `used` is the sum of costs |
| `Lru.LruIndex.Put` | lru.go:76-103 | the new entries and the evicted values, in order; budget and `used` hold |
| `Lru.LruIndex.EvictOldest` | lru.go:98-102 | the eviction loop keeps exactly the longest fitting run and evicts oldest first |
| `Lru.LruIndex.Delete` | lru.go:105-108 | exactly the entry of the key goes |
| `Lru.FoundUntil` | lru.go:62-74 | a lookup of a key finds its entry exactly while now is before its expiry, or it has none |
| `Lru.PutThenGet` | lru.go:60-103 | what is put at t is found exactly before t + ttl, and always when there is no TTL |
| `Bucket.Client.GetRange` | file_read.go:209-252 | what a range request is answered with |
| `Bucket.RangeIs` | file_read.go:209-252 | a range is answered with the bytes from first to last that there are, or not at all when there are none |
| `MemCache.InvalidationSuffices` | mem.go:106-117 | a cache without the key and its ancestors is coherent with every store that differs only at that key |
| `MemCache.InvalidationIsExact` | mem.go:106-117 | and exactly those entries can be made wrong by such a change |
| `MemCache.UploadIsSeenExactly` | presign.go:289-296 | a cache at any later time stays coherent through an upload that bypasses it if and only if what it holds of the key and its ancestors is right for the bucket after it |
| `MemCache.UploadUnreadIsSeen` | presign.go:289-296 | whatever operations ran since the cache forgot the key, the upload is seen as long as none of them named the key or found one of its ancestor directories missing |
| `MemCache.LostPutExactly` | s3ops.go:60-81 | a PUT applied although its reply was lost leaves the cache coherent if and only if what it holds of the key is the new object and it takes no ancestor for missing |
| `MemCache.LostDeleteExactly` | s3ops.go:198-210 | a DELETE, if and only if it holds the key as absent, and an ancestor as present exactly when another key lies below it |
| `MemCache.ReadBeforeUpload` | presign.go:289-296 | and not otherwise: after a lookup of the absent key the uploaded object is reported absent exactly until that entry expires, for ever without a TTL |
| `MemCache.PresentStaysOk` | mem.go:119-131 | an ancestor known to exist stays right when the key is written |
| `MemCache.NextAncestor` | mem.go:108-131 | each "/" of the key adds exactly one ancestor |
| `MemCache.Cache.Lookup` | mem.go:43-47 | the entry of the key, exactly until it expires, stays and is returned, and nothing new appears |
| `MemCache.Cache.Store` | mem.go:51-64 | the whole new index, a body over the limit dropped, and coherent entries stay so; nothing is learnt but of the key, and held if they fit |
| `MemCache.Cache.StoreWrite` | mem.go:73-91 | after a write the cache is coherent with the new bucket, having learnt of the key and of directories that exist; what it holds of the key is the object written |
| `MemCache.Cache.StoreCopied` | mem.go:95-104 | after a copy too; what it holds of the destination is what it held of the source, and it has learnt of nothing else |
| `MemCache.Cache.DropDeleted` | mem.go:106-117 | afterwards it is coherent with every bucket differing at that key only, and has learnt nothing |
| `MemCache.Cache.MarkDirs` | mem.go:119-131 | every ancestor of a written key is right afterwards, though any put may evict any entry |
| `MemCache.WithinBudget` | mem.go:66-68 | the keys and bodies held, with 256 bytes for each entry, stay within the budget |
| `Paths.CleanPath` | s3fs.go:247-253 | a cleaned path starts with "/" and ends with none unless it is the root; the laws of `PathLaws` say the rest |
| `Paths.CleanPathIdempotent` | s3fs.go:247-253 | cleaning a cleaned path changes nothing |
| `PathLaws.ParentGoes` | s3fs.go:247-253 | ".." takes the name before it away |
| `PathLaws.RootHasNoParent` | s3fs.go:247-253 | and nothing at the root |
| `PathLaws.NothingBetween` | s3fs.go:247-253 | "." and a repeated slash come to nothing |
| `PathLaws.SlashesAround` | s3fs.go:247-253 | a missing leading slash and one at the end change nothing |
| `PathLaws.BackslashIsSlash` | s3fs.go:247-253 | a backslash is a slash |
| `PathLaws.PlainStays` | s3fs.go:247-253 | a path of plain names stays as it is |
| `PathLaws.CleanPathCleans` | s3fs.go:247-253 | all of these together |
| `PathLaws.OnlyCleanPathCleans` | s3fs.go:247-253 | and no other function of paths has them |
| `PathLaws.RelativeTarget` | s3ops.go:307-311 | a relative link target is followed from the directory of the link, whatever it contains |
| `PathLaws.AbsoluteTarget` | s3ops.go:307-311 | an absolute one from the root |
| `PathLaws.LinkToSibling` | s3ops.go:307-311 | the link at ds/n with target ts leads to ds/ts |
| `PathLaws.LinkToParent` | s3ops.go:307-311 | the link at ds/d/n with target ../ts leads to ds/ts |
| `PathLaws.LinkFromRoot` | s3ops.go:307-311 | a link to an absolute path of plain names leads there |
| `PathLaws.KeyIs` | s3fs.go:256-276 | the key of a path of plain names is the prefix, a slash and the names; its listing prefix ends in one more slash |
| `PathLaws.KeyOfRoot` | s3fs.go:256-276 | the key of the root is the prefix |
| `PathLaws.KeyOfAny` | s3fs.go:256-276 | every path has the key of its cleaned form, which starts with the prefix |
| `Paths.KeyIsNoDirectory` | s3fs.go:256-266 | no path has a key ending in "/", so object and directory entries never mix |
| `Paths.KeyInjective` | s3fs.go:256-266 | distinct cleaned paths, the root among them, have distinct keys |
| `Paths.BelowIsPrefix` | s3fs.go:269-275 | one path lies below another exactly when its listing prefix extends the other's |
| `Links.FollowMeaning` | s3ops.go:282-352 | resolution fails exactly when the chain needs more than 40 hops, and otherwise ends where the chain ends |
| `Links.CyclesFail` | s3ops.go:282-352 | every chain that runs into a cycle fails |
| `Renaming.CopiedWhat` | s3fs.go:515-520 | after the copies each copied body is at its new key and nothing else changed |
| `Renaming.MovedIs` | s3fs.go:515-520 | a copy replaces the old prefix of a key by the new one and keeps the rest |
| `Renaming.NothingLost` | s3fs.go:515-525 | after any prefix of copies, then deletes, each body is at its old or its new key |
| `Renaming.OthersUntouched` | s3fs.go:511-526 | keys outside both prefixes are untouched, part-way too |
| `Renaming.MoveIsRight` | s3fs.go:508-526 | the completed steps are the move if and only if no moved object lands on a key being moved |
| `Renaming.UnrelatedNeverCollide` | s3fs.go:508-510 | which never happens when neither prefix extends the other |
| `Renaming.OntoParentCanLose` | s3fs.go:508-526 | and can happen when a directory moves onto its parent, which is accepted |
| `Renaming.DirectoryRenameMoves` | s3fs.go:472-527 | for paths neither of which lies below the other, a completed rename is exactly the move |
| `Renaming.DirectoryRenameLosesNothing` | s3fs.go:511-526 | and one that stopped anywhere has lost nothing, with no delete before the last copy |
| `Renaming.FileRenameMoves` | s3fs.go:492-499 | a completed file rename leaves the object at its new key only and touches no other |
| `S3Fs.FileSystem.constructor` | s3fs.go:199-213 | fresh caches, of the sizes and TTLs asked for and none where that is not positive, are valid and coherent |
| `S3Fs.FileSystem.HeadOf` | s3ops.go:35-58 | existence and metadata are the bucket's, and the memory tier learns of the key alone, and has it afterwards, if it fits |
| `S3Fs.FileSystem.Put` | s3ops.go:60-81 | the bucket gets exactly this object, the caches stay coherent, every open file is left alone, and the memory tier learns of the key and of directories that exist; the disk tier forgets the key, and what memory holds of it is this object |
| `S3Fs.FileSystem.PutSpill` | s3ops.go:83-109 | the same for a spilled body; the ETag returned is the body's, and a body that is not as long as the size recorded for it is never uploaded |
| `S3Fs.FileSystem.Delete` | s3ops.go:198-210 | exactly the key goes; every open file is left alone, spilled or cached, and the memory tier learns nothing; the disk tier forgets the key |
| `S3Fs.FileSystem.Copy` | s3ops.go:212-229 | exactly the destination gets the source's object; every open file is left alone, and the memory tier learns of the destination alone; what the disk tier holds of the destination is what it held of the source |
| `S3Fs.CopySourceStays` | s3ops.go:212-229 | a copy between different keys leaves the source alone |
| `S3Fs.FileSystem.ForgetForUpload` | presign.go:289-296 | the caches hold nothing of the key nor, in memory, of its ancestors, are coherent with every bucket that differs at the key only, and leave every open file alone |
| `S3Fs.FileSystem.PerformBefore` | presign.go:289-296 | between presigning and uploading, any call that does not ask for the key, create it, or find one of its ancestors missing keeps the memory tier ready for the upload |
| `S3Fs.FileSystem.UploadIsSeen` | presign.go:289-296 | a memory tier that is ready for it is coherent with the bucket after any upload of the key |
| `S3Fs.FileSystem.Perform` | s3ops.go:30-389 | whichever call is made, no open file is touched, and the memory tier learns only of the keys the call asks for or creates and of directories |
| `S3Fs.FileSystem.DirExists` | s3ops.go:253-280 | a directory exists exactly when a key lies under its prefix, cached or not; the memory tier learns of it only, when it is missing |
| `S3Fs.FileSystem.HeadOrGet` | s3ops.go:354-389 | the bucket's metadata, and the object itself when a GetObject ran; the memory tier learns of the key alone; without one, a tier held something of the key |
| `S3Fs.FileSystem.NewSpill` | disk.go:174-184 | a new spill file holds the buffer's bytes, is nobody else's, and leaves all others alone; it fails only when the local disk does |
| `S3Fs.FileSystem.WriteSpill` | disk.go:195-209 | writing one leaves the spill files of other names alone |
| `S3Fs.FileSystem.FinishSpill` | file_write.go:373-377 | finishing and adopting one too, and it reads the same from then on; once uploaded it serves the key from the disk tier, if it fits, unless the disk failed or the file was removed |
| `S3Fs.FileSystem.DestroySpill` | disk.go:224-227 | the file is gone, and the others are left alone |
| `S3Fs.FileSystem.Walk` | s3ops.go:285-313 | resolve follows the chain the bucket describes |
| `S3Fs.FileSystem.ReadWalk` | s3ops.go:321-352 | so does resolveForRead |
| `S3Fs.FileSystem.Resolve` | s3ops.go:282-313 | path, hop count, metadata or failure are those of the chain from the cleaned path, and the memory tier learns of the chain's keys alone; `PathLaws` says where a link leads |
| `S3Fs.FileSystem.ResolveForRead` | s3ops.go:315-352 | the same answer, with the object when it was fetched on the way |
| `S3Fs.FileSystem.Stream` | file_read.go:46-57 | a streaming file over the object, or over a response already open, is a valid backend for exactly its body |
| `S3Fs.FileSystem.CachedOpen` | s3ops.go:391-419 | memory serves what takes at most an eighth of it, the disk what else fits there unless it fails, and S3 the rest; what is served is the object's body, and every file already open is left alone |
| `S3Fs.FileSystem.DiskFill` | s3ops.go:476-504 | a file filled from a download serves that body, and every file already open is left alone |
| `S3Fs.FileSystem.OpenFromGet` | s3ops.go:421-450 | the response that resolved the path is what is served, and every file already open is left alone, from the tier its size is for |
| `S3Fs.FileSystem.OpenForRead` | s3fs.go:309-372 | from any path to a file that serves, from memory, disk or S3, exactly the body its chain of links ends at; or a link loop, a directory, nothing, each exactly when it is so; every file already open is left alone; a body is served from the tier its size is for |
| `S3Fs.FileSystem.MoveDirectory` | s3fs.go:511-526 | a directory move that stops did some prefix of the copies, then of the deletes, and the caches are coherent and every open file left alone wherever it stops |
| `S3Fs.FileSystem.Rename` | s3fs.go:470-527 | the effect on the bucket and the verdict, for every pair of paths; between directories neither of which lies below the other a completed one is exactly the move; every open file is left alone |
| `DiskCache.CreatedKeeps` | disk.go:72-74 | a new file breaks no entry and no promise made to another operation |
| `DiskCache.RewrittenKeeps` | disk.go:195-209 | nor does writing a file still being written |
| `DiskCache.FinishedKeeps` | s3ops.go:479-504 | nor finishing it |
| `DiskCache.DiscardedKeeps` | disk.go:224-227 | nor removing one's own file |
| `DiskCache.LinkedKeeps` | disk.go:132-162 | nor linking a finished file to a new name |
| `DiskCache.DeletedKeeps` | disk.go:123-127 | nor deleting an entry |
| `DiskCache.InsertedKeeps` | disk.go:113-120 | nor an insert with all the evictions it causes |
| `DiskCache.HitIsTheBody` | disk.go:76-102 | a hit for an ETag reads the body of that ETag |
| `DiskCache.FilesKept` | disk.go:166-227 | a step of one operation leaves every spill file that is not its own open with its body, and every local file open for reading as it was |
| `DiskCache.FilesAreLiveEntries` | disk.go:43-52 | with nothing in flight the cache files on disk are exactly the distinct paths of the live entries |
| `DiskCache.WithinBudget` | disk.go:113-120 | the bodies of the live entries, with 256 bytes for each, stay within the budget |
| `DiskCache.GoneStaysGone` | disk.go:72-74 | a name whose file is gone is never given again |
| `DiskCache.Cache.Interference` | disk.go:25-41 | any steps of other operations, drawn from all the atomic steps, keep the invariant, every promise and one's own files |
| `DiskCache.Cache.Open` | disk.go:76-102 | a hit is for an entry of that ETag that has not expired and is a handle on a frozen body of it, with others acting between the lookup and the open; a miss means that there is none, or that its file is gone; the files of idle owners stay as they are |
| `DiskCache.Cache.Copied` | disk.go:129-149 | the destination serves the source's body, or has no entry; every promise is kept, and the files of idle owners stay as they are; without a failure it does serve what the source's entry served, unless that file was removed |
| `DiskCache.Cache.Adopt` | disk.go:151-162 | a finished spill file serves the key under the uploaded ETag, the files of idle owners stay as they are, and without an ETag nothing happens; without a failure it does serve it, unless the file was removed |
| `DiskCache.Cache.Fill` | s3ops.go:476-504 | the handle reads the whole download, and the key serves it from then on, if it fits; the files of idle owners stay as they are; it fails only when the download or the disk does |
| `DiskCache.AdoptingOpenSpillLies` | file_write.go:373-377 | adopting a spill file that can still be written would make its entry lie |
| `ByteFile.OverwrittenAt` | file_write.go:286-297 | a write changes exactly its own bytes and fills a gap with zeros |
| `ByteFile.ReadsBack` | file_write.go:286-297 | what was written is read back |
| `ByteFile.ResizedAt` | file_write.go:87-94 | a resize keeps the bytes before the new end and adds zeros up to it |
| `ByteFile.ShrunkThenGrown` | file_write.go:87-94 | what a shrink cuts off reads as zeros after a growth |
| `ByteFile.SliceAt` | file_write.go:52-61 | a read has the bytes at its place, as many as asked for or as there are |
| `ByteFile.WrittenIsRead` | file_write.go:260-272 | the plain byte sequence reads back a write from the end when appending, else from the position, which moves past it |
| `ByteFile.ReadMoves` | file_write.go:222-240 | a read answers the bytes at the position, moves past them and changes nothing else |
| `ByteFile.ReadsAt` | file_write.go:242-258 | a read at an offset changes nothing and reports the end exactly when it reaches past it, or starts there |
| `ByteFile.Refuses` | file_write.go:222-329 | what a handle may not do it refuses with the right error, and stays as it is |
| `ByteFile.StepRefines` | file_write.go:222-329 | any operation, spilling or not, answers as on a plain byte sequence, but for an empty write past the end of a spilled buffer |
| `ByteFile.StepIsExact` | file_write.go:222-329 | and it leaves the byte sequence if and only if it is such a write, which the caller can rule out beforehand |
| `ByteFile.RunRefines` | file_write.go:147-329 | any run does, whenever, or never, it spills, and ends with the same contents |
| `ByteFile.WriteRefines` | disk.go:195-201 | a write to either buffer is the plain overwrite |
| `ByteFile.EmptyWriteIsExact` | disk.go:195-201 | the recorded size stays right under an empty write if and only if it is not past the end |
| `ByteFile.RepairIsExact` | disk.go:195-209 | once the recorded size runs ahead, it stays so until a write that reaches it, or a truncate |
| `ByteFile.EmptyWriteDiverges` | disk.go:195-201 | past the end the memory and the spill buffer then read differently |
| `MemBuf.DataPool.Take` | pool.go:39-47 | an array from the pool belongs to no live buffer |
| `MemBuf.DataPool.Recycle` | pool.go:49-57 | only an array no live buffer reaches goes back, unless it has no capacity or more than 4 MiB |
| `MemBuf.Buffer.Pooled` | file_write.go:43-48 | a buffer on a dirty pooled array starts empty |
| `MemBuf.Buffer.ReadAt` | file_write.go:52-61 | exactly the contents |
| `MemBuf.Buffer.Grow` | file_write.go:68-85 | the contents extended by zeros, stale bytes of reused capacity invisible, every other live buffer unchanged, and the growth bound kept |
| `MemBuf.Buffer.Reallocate` | file_write.go:78-84 | bytes copied so far stay within the capacity, which is below twice the largest end requested |
| `MemBuf.Buffer.WriteAt` | file_write.go:63-66 | the plain overwrite |
| `MemBuf.Buffer.Truncate` | file_write.go:87-94 | the plain resize, without clearing what it cuts off |
| `MemBuf.Buffer.Destroy` | file_write.go:96-103 | the array goes back to the pool, unless it has no capacity or too much, and the buffer is live no more |
| `SpillBuf.Buffer.MaybeSpill` | file_write.go:147-170 | moving to a spill file keeps the contents, failing to leaves the buffer as it was, and no array or spill file of another buffer is touched; a buffer stays in memory above the threshold only when the local disk failed |
| `SpillBuf.Buffer.ReadAt` | disk.go:186-193 | reads of either form are those of the contents |
| `SpillBuf.Buffer.WriteAt` | file_write.go:286-297 | spill, then write, for any write, touching nothing of another buffer |
| `SpillBuf.Buffer.Truncate` | file_write.go:313-329 | spill, then resize, touching nothing of another buffer |
| `SpillBuf.Buffer.Upload` | file_write.go:331-350 | the stored object becomes exactly the contents, which stay; without a failed request it does, and a spilled buffer whose recorded size is not its file's never uploads |
| `SpillBuf.Buffer.Finish` | file_write.go:373-377 | an uploaded spill file enters the disk cache only once nothing writes it any more; once there it serves the key, if it fits, unless the disk failed or the file was removed |
| `SpillBuf.Buffer.Destroy` | disk.go:224-227 | the array is back in the pool or the spill file is gone, and nothing of another buffer is touched |
| `SpillBuf.SparesAgain` | file_write.go:147-170 | sparing the other buffers composes over steps, with files made on the way |
| `SpillBuf.StaysSafe` | file_write.go:147-170 | a buffer apart from one that spares the others stays intact and apart |
| `WriteFile.Handle.constructor` | file_write.go:125-145 | a handle starts as the body it was opened on, which is what the bucket holds unless the handle starts dirty, with an array and a spill file that are nobody else's |
| `WriteFile.Handle.Write` | file_write.go:260-272 | for every write, the step of the buffered writer; it is that of a plain byte sequence, append mode included, spilling or not, if and only if it is not an empty write past the end into a spilled buffer |
| `WriteFile.Handle.WriteAt` | file_write.go:274-284 | the same at an offset, with a negative one refused |
| `WriteFile.Handle.Truncate` | file_write.go:313-329 | for every size, the step of the buffered writer and of a plain byte sequence, a shrunk and regrown file reading as zeros |
| `WriteFile.Handle.Read` | file_write.go:222-240 | the step of the buffered writer and, while its size is right, of a plain byte sequence: the bytes at the position, io.EOF exactly at the end, permission and closed errors |
| `WriteFile.Handle.ReadAt` | file_write.go:242-258 | likewise at an offset, with io.EOF exactly on a short read or at the end |
| `WriteFile.Handle.Seek` | file_write.go:299-311 | from the start, the position or the end, exactly when the target is not negative; any other whence and a negative target are refused and move nothing |
| `WriteFile.Handle.Perform` | file_write.go:222-329 | any operation is the step of the buffered writer, and that of a plain byte sequence but for the one empty write, touching nothing of another buffer |
| `WriteFile.Handle.Flush` | file_write.go:331-350 | a dirty buffer that uploads is what is stored, else the bucket is untouched; a buffer whose recorded size is not its file's fails to upload |
| `WriteFile.Handle.Sync` | file_write.go:352-360 | after success the object in the bucket has the buffer's contents, whenever the handle was dirty or the object was still the one it loaded or uploaded last |
| `WriteFile.Handle.Close` | file_write.go:362-383 | after success the object in the bucket has the contents the buffer had, whenever the handle was dirty or the object was still the one it loaded or uploaded last; a failed one leaves the handle open and dirty and the bucket as it was; open readers keep the buffer |
| `WriteFile.Handle.MaybeDestroy` | file_write.go:385-392 | the buffer is destroyed exactly once, when the writer and all readers have closed |
| `WriteFile.Handle.Share` | file_write.go:450-461 | a reader attaches and is counted exactly when the writer is open |
| `WriteFile.Reader.Read` | file_write.go:467-480 | an open reader finds the buffer alive and reads it as the writer would, which while its size is right is as a plain file |
| `WriteFile.Reader.ReadAt` | file_write.go:482-490 | the same at an offset |
| `WriteFile.Reader.Seek` | file_write.go:498-513 | the same, over the live size |
| `WriteFile.Reader.Close` | file_write.go:527-540 | the count goes down by this reader; only the last one after the writer ends the buffer |
| `OpenFiles.Acts` | file_write.go:222-329 | any operation through one handle leaves every other handle valid, apart, and the same file, and every file open for reading as it was |
| `OpenFiles.Syncs` | file_write.go:352-360 | so does uploading it |
| `OpenFiles.Closes` | file_write.go:362-383 | so does closing it, with its array or spill file given back |
| `OpenFiles.ReaderCloses` | file_write.go:527-540 | so does the last reader of a closed one |
| `OpenFiles.Opens` | file_write.go:125-145 | and a handle opened beside another shares nothing with it |
| `OpenFiles.OpensToRead` | s3fs.go:309-372 | opening any path for reading leaves a file open for writing as it was, and every file open for reading |
| `OpenFiles.Renames` | s3fs.go:470-527 | so does any rename, of a file or of a directory, complete or stopped part-way |
| `ReadFile.ReadsAreContiguous` | file_read.go:78-94 | however reads are cut and whatever fails between, they deliver the object's bytes from their start, none lost or repeated |
| `ReadFile.EofMeansAll` | file_read.go:78-94 | a run that ends in io.EOF has delivered everything |
| `ReadFile.RunsAgree` | file_read.go:17-25 | of two runs of reads over one object one delivers a prefix of the other, and the same once both end in io.EOF |
| `ReadFile.FilesAgree` | file_read.go:17-25 | so do two open files, whatever backends serve them, by the reads each has answered |
| `ReadFile.ReadFull` | file_read.go:247-250 | the bytes asked for, or all that the stream delivers and how it ended |
| `ReadFile.EofInsideIsExact` | file_read.go:247-251 | ReadAt reports io.EOF inside the object if and only if the response ended, early or as announced, before the range was delivered |
| `ReadFile.EofInsideHappens` | file_read.go:247-251 | which can be anywhere inside any object |
| `ReadFile.S3Backend.Position` | file_read.go:209-225 | the stream at hand or the one opened stands at the offset asked for, unless the request failed; one that stands there already is kept, without a request |
| `ReadFile.S3Backend.Read` | file_read.go:209-235 | a prefix of the object there, with io.EOF only at its end, no bytes without an error only when the stream broke off and is given up, and an error only when a request failed or the stream broke |
| `ReadFile.S3Backend.ReadAt` | file_read.go:237-252 | the answer as a function of what the response delivered and how it ended |
| `ReadFile.File.Read` | file_read.go:78-94 | the reads since the last Seek stay a run over the object's bytes; io.EOF exactly at the end; each read brings the end nearer, or a stream gave nothing, or there was an error |
| `ReadFile.ReadToEnd` | file_read.go:78-94 | reading on gets to io.EOF with everything from the position on, after no more reads than bytes and empty streams account for, unless a request failed or a stream broke |
| `ReadFile.ReadLast` | file_read.go:112-124 | after a seek to k before the end, reading to io.EOF gets exactly the last k bytes |
| `ReadFile.File.ReadAt` | file_read.go:96-110 | every branch, and a full answer exactly when it carries no error |
| `ReadFile.File.Seek` | file_read.go:112-124 | from the start, the position or the end, exactly when the target is not negative, starting a new run of reads; anything else is refused and moves nothing |
| `ReadFile.File.Close` | file_read.go:138-147 | the stream is given up, and a second Close fails |

## Left out

- `OpenFile` beyond opening an object for reading (opening for writing, attaching to a writer that is open on the path), `Stat`, `Lstat`, `Symlink`, `Readlink`, `Remove`, `ReadDir`, `MkdirAll`, `Chroot`, `TempFile`, modification times, permission bits and capabilities: easy members or listing plumbing.
- Presigning beyond its cache invalidation, and the SDK: requests have outcomes, not HTTP errors, retries or error types.
- The table of open writers (`trackWrite`, `untrackWrite`, `lookupWrite`), which only maps a path to the handle opened last.
- `bufForExisting` and `bufFromGet` that stream a download straight into a spill file: the buffer of a handle starts in memory and spills at once.
- Real files: names refer to inodes, and the sweep of leftovers by a new process is an empty directory.
- `sync.Pool` scheduling, and the pool of entry shells and copy buffers: arrays come from a set of free ones, or from nowhere.
- The callback of the LRU index is the sequence of values an operation evicts; the disk cache removes their files in that order.
- Case-insensitive metadata keys, URL escaping of symlink targets and copy sources: targets are the decoded strings.
- The 64-bit range of `strconv.ParseInt`, of clocks and of file offsets.
- Reads return bytes instead of filling the caller's slice. Errors of closing a response body are not reported.
- `releaseOnClose` as part of a handle's Close: the locks are modelled beside the files, in `LockManager` and `LockStack`.
- `LockStack` follows the handles of one path; other paths share no state with it but the map they are kept in.
- The loops that poll, renew or wait for a context are given a number of rounds after which their context ends; how long they really run is not modelled.
- Local disk errors during a write, which leave a partial write and `dirty` unset (`file_write.go:290-293`).
- ReadFile.File.Read: for an object that does not change while the file is open.
- DiskCache.Cache.Fill: a GET response carries the ETag of its body, or none.
