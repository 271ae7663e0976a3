/** The in-process lock manager (lock.go): flock-like locks per path, owned by
    handles, with waiter counts and broadcast wakeups.

    Every critical section of the code is one step; a blocked acquireLocal is a
    handle whose call is Waiting.  Map entries and wakeup channels are heap
    objects in the code, so both have identities here. */
module LockManager {
  import opened Common

  type Path = string
  type Handle = nat
  type EntryId = nat
  type Channel = nat

  datatype PathLock = PathLock(owner: Option<Handle>, waiters: nat, freed: Channel)

  /** Where a handle's acquireLocal call stands between critical sections. */
  datatype Call = Idle | Waiting(path: Path, entry: EntryId, freed: Channel)

  datatype State = State(
    locks: map<Path, EntryId>,
    entries: map<EntryId, PathLock>,
    closed: set<Channel>,
    calls: map<Handle, Call>,
    nextEntry: EntryId,
    nextChannel: Channel)

  /** What one turn of the acquireLocal loop came to. */
  datatype Turn = Fresh | Already | Blocked

  function Empty(): State {
    State(map[], map[], {}, map[], 0, 0)
  }

  function CallOf(s: State, h: Handle): Call {
    if h in s.calls then s.calls[h] else Idle
  }

  function OwnerOf(s: State, p: Path): Option<Handle> {
    if p in s.locks && s.locks[p] in s.entries then s.entries[s.locks[p]].owner else None
  }

  /** The map entry of p, created unowned when missing. */
  function WithEntry(s: State, p: Path): State {
    if p in s.locks then s
    else s.(locks := s.locks[p := s.nextEntry],
            entries := s.entries[s.nextEntry := PathLock(None, 0, s.nextChannel)],
            nextEntry := s.nextEntry + 1, nextChannel := s.nextChannel + 1)
  }

  /** One turn of the loop of acquireLocal. */
  function Attempt(s: State, h: Handle, p: Path): (State, Turn)
    requires p in s.locks ==> s.locks[p] in s.entries
  {
    var t := WithEntry(s, p);
    var id := t.locks[p];
    var e := t.entries[id];
    if e.owner.None? then
      (t.(entries := t.entries[id := e.(owner := Some(h))], calls := t.calls[h := Idle]), Fresh)
    else if e.owner == Some(h) then (t.(calls := t.calls[h := Idle]), Already)
    else
      (t.(entries := t.entries[id := e.(waiters := e.waiters + 1)],
          calls := t.calls[h := Waiting(p, id, e.freed)]), Blocked)
  }

  /** The call leaves the waiters of its entry. */
  function WithoutWaiter(s: State, h: Handle): State
    requires CallOf(s, h).Waiting? && s.calls[h].entry in s.entries && s.entries[s.calls[h].entry].waiters > 0
  {
    var id := s.calls[h].entry;
    var e := s.entries[id];
    s.(entries := s.entries[id := e.(waiters := e.waiters - 1)], calls := s.calls[h := Idle])
  }

  /** cleanupLocked: a path that nobody has and nobody is in line for is forgotten. */
  function CleanedUp(s: State, p: Path, id: EntryId): State
    requires id in s.entries
  {
    if s.entries[id].owner.None? && s.entries[id].waiters == 0 then s.(locks := s.locks - {p}) else s
  }

  /** The wakeup branch: the awaited channel is closed and the loop turns again. */
  function Wake(s: State, h: Handle): (State, Turn)
    requires Inv(s) && CallOf(s, h).Waiting?
  {
    WaiterIsCounted(s, h);
    Attempt(WithoutWaiter(s, h), h, s.calls[h].path)
  }

  /** The ctx.Done branch. */
  function Cancel(s: State, h: Handle): State
    requires Inv(s) && CallOf(s, h).Waiting?
  {
    WaiterIsCounted(s, h);
    CleanedUp(WithoutWaiter(s, h), s.calls[h].path, s.calls[h].entry)
  }

  /** releaseLocal: clears the owner, closes and replaces the channel. */
  function Release(s: State, h: Handle, p: Path): State
    requires Inv(s)
  {
    if OwnerOf(s, p) != Some(h) then s
    else
      var id := s.locks[p];
      var e := s.entries[id];
      CleanedUp(s.(entries := s.entries[id := e.(owner := None, freed := s.nextChannel)],
                 closed := s.closed + {e.freed}, nextChannel := s.nextChannel + 1), p, id)
  }

  // ------------------------------------------------------------ the invariant

  function Waiters(calls: map<Handle, Call>, id: EntryId): set<Handle> {
    set h | h in calls && calls[h].Waiting? && calls[h].entry == id
  }

  /** `waiters` is the number of calls waiting on the entry. */
  predicate EntryInv(s: State, p: Path)
    requires p in s.locks
  {
    var id := s.locks[p];
    && id in s.entries
    && var e := s.entries[id];
    && e.freed !in s.closed
    && e.waiters == |Waiters(s.calls, id)|
    && (e.owner.Some? || e.waiters > 0)
  }

  /** A waiting call waits on the entry of its path, and either its channel is
      closed already or it is the current channel of an owned entry. */
  predicate WaitInv(s: State, h: Handle)
    requires CallOf(s, h).Waiting?
  {
    var c := s.calls[h];
    && c.path in s.locks && s.locks[c.path] == c.entry && c.entry in s.entries
    && (c.freed in s.closed || (c.freed == s.entries[c.entry].freed && s.entries[c.entry].owner.Some?))
  }

  predicate Separate(s: State) {
    forall p, q :: p in s.locks && q in s.locks && p != q ==>
      && s.locks[p] != s.locks[q]
      && (s.locks[p] in s.entries && s.locks[q] in s.entries ==>
            s.entries[s.locks[p]].freed != s.entries[s.locks[q]].freed)
  }

  /** Identities in use are below the counters that produce fresh ones. */
  predicate Bounded(s: State) {
    && (forall id :: id in s.entries ==> id < s.nextEntry && s.entries[id].freed < s.nextChannel)
    && (forall c :: c in s.closed ==> c < s.nextChannel)
  }

  predicate WaitsInv(s: State) {
    forall h :: h in s.calls && s.calls[h].Waiting? ==> WaitInv(s, h)
  }

  predicate Inv(s: State) {
    && (forall p :: p in s.locks ==> EntryInv(s, p))
    && WaitsInv(s) && Separate(s) && Bounded(s)
  }

  lemma WaiterIsCounted(s: State, h: Handle)
    requires Inv(s) && CallOf(s, h).Waiting?
    ensures var id := s.calls[h].entry;
            s.calls[h].path in s.locks && id in s.entries && s.entries[id].waiters > 0
  {
    assert WaitInv(s, h);
    assert EntryInv(s, s.calls[h].path);
    assert h in Waiters(s.calls, s.calls[h].entry);
  }

  /** Between the two halves of a wakeup the entry may be unowned and unawaited. */
  predicate AlmostInv(s: State, p: Path) {
    && (forall q :: q in s.locks && q != p ==> EntryInv(s, q))
    && (p in s.locks ==>
          && s.locks[p] in s.entries
          && s.entries[s.locks[p]].freed !in s.closed
          && s.entries[s.locks[p]].waiters == |Waiters(s.calls, s.locks[p])|)
    && WaitsInv(s) && Separate(s) && Bounded(s)
  }

  lemma WaitersAfterUpdate(calls: map<Handle, Call>, h: Handle, c: Call, id: EntryId)
    ensures Waiters(calls[h := c], id) ==
            (Waiters(calls, id) - {h}) + if c.Waiting? && c.entry == id then {h} else {}
  {
  }

  lemma StopWaitingAlmost(s: State, h: Handle)
    requires Inv(s) && CallOf(s, h).Waiting?
    ensures s.calls[h].path in s.locks && s.locks[s.calls[h].path] == s.calls[h].entry
    ensures var id := s.calls[h].entry; id in s.entries && s.entries[id].waiters > 0
    ensures AlmostInv(WithoutWaiter(s, h), s.calls[h].path)
  {
    WaiterIsCounted(s, h);
    assert WaitInv(s, h);
    var id := s.calls[h].entry;
    var t := WithoutWaiter(s, h);
    assert EntryInv(s, s.calls[h].path);
    assert Waiters(t.calls, id) == Waiters(s.calls, id) - {h};
    forall q | q in t.locks && q != s.calls[h].path
      ensures EntryInv(t, q)
    {
      assert EntryInv(s, q);
      assert Waiters(t.calls, t.locks[q]) == Waiters(s.calls, s.locks[q]);
    }
    forall g | g in t.calls && t.calls[g].Waiting?
      ensures WaitInv(t, g)
    {
      assert WaitInv(s, g);
    }
  }

  lemma WithEntryAlmost(s: State, p: Path)
    requires AlmostInv(s, p)
    ensures var t := WithEntry(s, p);
            AlmostInv(t, p) && p in t.locks && OwnerOf(t, p) == OwnerOf(s, p) && t.calls == s.calls
  {
    var t := WithEntry(s, p);
    if p !in s.locks {
      forall g | g in t.calls && t.calls[g].Waiting?
        ensures WaitInv(t, g) && t.calls[g].entry != s.nextEntry
      {
        assert WaitInv(s, g);
      }
      assert Waiters(t.calls, s.nextEntry) == {};
      forall q | q in t.locks && q != p
        ensures EntryInv(t, q)
      {
        assert EntryInv(s, q);
        assert Waiters(t.calls, t.locks[q]) == Waiters(s.calls, s.locks[q]);
      }
    }
  }

  /** Changing one owned entry and the call of one handle keeps the rest. */
  function Updated(s: State, h: Handle, p: Path, e: PathLock, c: Call): State
    requires p in s.locks
  {
    s.(entries := s.entries[s.locks[p] := e], calls := s.calls[h := c])
  }

  lemma UpdateKeepsEntries(s: State, h: Handle, p: Path, e: PathLock, c: Call)
    requires AlmostInv(s, p) && p in s.locks && CallOf(s, h).Idle?
    requires e.owner.Some? && e.freed == s.entries[s.locks[p]].freed
    requires c.Waiting? ==> c == Waiting(p, s.locks[p], e.freed)
    requires e.waiters == s.entries[s.locks[p]].waiters + if c.Waiting? then 1 else 0
    ensures forall q :: q in s.locks ==> EntryInv(Updated(s, h, p, e, c), q)
  {
    var t := Updated(s, h, p, e, c);
    forall q | q in s.locks
      ensures EntryInv(t, q)
    {
      assert h !in Waiters(s.calls, s.locks[q]);
      WaitersAfterUpdate(s.calls, h, c, s.locks[q]);
      if q != p {
        assert EntryInv(s, q) && s.locks[q] != s.locks[p];
      }
    }
  }

  lemma UpdateKeepsWaits(s: State, h: Handle, p: Path, e: PathLock, c: Call)
    requires AlmostInv(s, p) && p in s.locks && CallOf(s, h).Idle?
    requires e.owner.Some? && e.freed == s.entries[s.locks[p]].freed
    requires c.Waiting? ==> c == Waiting(p, s.locks[p], e.freed)
    ensures WaitsInv(Updated(s, h, p, e, c))
  {
    var t := Updated(s, h, p, e, c);
    forall g | g in t.calls && t.calls[g].Waiting?
      ensures WaitInv(t, g)
    {
      if g != h {
        assert WaitInv(s, g);
      }
    }
  }

  lemma UpdateKeepsInv(s: State, h: Handle, p: Path, e: PathLock, c: Call)
    requires AlmostInv(s, p) && p in s.locks && CallOf(s, h).Idle?
    requires e.owner.Some? && e.freed == s.entries[s.locks[p]].freed
    requires c.Waiting? ==> c == Waiting(p, s.locks[p], e.freed)
    requires e.waiters == s.entries[s.locks[p]].waiters + if c.Waiting? then 1 else 0
    ensures Inv(Updated(s, h, p, e, c))
  {
    UpdateKeepsEntries(s, h, p, e, c);
    UpdateKeepsWaits(s, h, p, e, c);
  }

  /** A turn of the loop takes the lock exactly when nobody owns it. */
  lemma AttemptKeepsInv(s: State, h: Handle, p: Path)
    requires AlmostInv(s, p) && CallOf(s, h).Idle?
    ensures Inv(Attempt(s, h, p).0)
    ensures Attempt(s, h, p).1.Fresh? <==> OwnerOf(s, p).None?
    ensures OwnerOf(Attempt(s, h, p).0, p) == if OwnerOf(s, p).None? then Some(h) else OwnerOf(s, p)
    ensures Attempt(s, h, p).1.Blocked? <==> CallOf(Attempt(s, h, p).0, h).Waiting?
  {
    WithEntryAlmost(s, p);
    var t := WithEntry(s, p);
    var e := t.entries[t.locks[p]];
    if e.owner.None? {
      UpdateKeepsInv(t, h, p, e.(owner := Some(h)), Idle);
    } else if e.owner == Some(h) {
      UpdateKeepsInv(t, h, p, e, Idle);
      assert t.entries == t.entries[t.locks[p] := e];
    } else {
      UpdateKeepsInv(t, h, p, e.(waiters := e.waiters + 1), Waiting(p, t.locks[p], e.freed));
    }
  }

  lemma WakeKeepsInv(s: State, h: Handle)
    requires Inv(s) && CallOf(s, h).Waiting?
    ensures Inv(Wake(s, h).0)
  {
    StopWaitingAlmost(s, h);
    AttemptKeepsInv(WithoutWaiter(s, h), h, s.calls[h].path);
  }

  lemma CancelKeepsInv(s: State, h: Handle)
    requires Inv(s) && CallOf(s, h).Waiting?
    ensures Inv(Cancel(s, h))
  {
    StopWaitingAlmost(s, h);
    CleanupRestores(WithoutWaiter(s, h), s.calls[h].path);
  }

  lemma CleanupRestores(s: State, p: Path)
    requires AlmostInv(s, p) && p in s.locks
    ensures Inv(CleanedUp(s, p, s.locks[p]))
  {
    var t := CleanedUp(s, p, s.locks[p]);
    forall q | q in t.locks
      ensures EntryInv(t, q)
    {
      if q != p {
        assert EntryInv(s, q);
      }
      assert Waiters(t.calls, t.locks[q]) == Waiters(s.calls, s.locks[q]);
    }
    forall g | g in t.calls && t.calls[g].Waiting?
      ensures WaitInv(t, g)
    {
      assert WaitInv(s, g);
      assert g in Waiters(s.calls, s.calls[g].entry);
    }
  }

  /** The owner's entry after releaseLocal, before its cleanup. */
  function Freed(s: State, p: Path): State
    requires p in s.locks && s.locks[p] in s.entries
  {
    var e := s.entries[s.locks[p]];
    s.(entries := s.entries[s.locks[p] := e.(owner := None, freed := s.nextChannel)],
       closed := s.closed + {e.freed}, nextChannel := s.nextChannel + 1)
  }

  lemma FreedKeepsEntries(s: State, p: Path, q: Path)
    requires Inv(s) && p in s.locks && q in s.locks && q != p && EntryInv(s, p)
    ensures EntryInv(Freed(s, p), q)
  {
    assert EntryInv(s, q);
  }

  lemma FreedKeepsWaits(s: State, p: Path)
    requires Inv(s) && p in s.locks && EntryInv(s, p)
    ensures WaitsInv(Freed(s, p))
  {
    var t := Freed(s, p);
    forall g | g in t.calls && t.calls[g].Waiting?
      ensures WaitInv(t, g)
    {
      assert WaitInv(s, g);
    }
  }

  lemma ReleaseKeepsInv(s: State, h: Handle, p: Path)
    requires Inv(s)
    ensures Inv(Release(s, h, p))
    ensures OwnerOf(s, p) == Some(h) ==> OwnerOf(Release(s, h, p), p).None?
    ensures forall q :: q != p || OwnerOf(s, p) != Some(h) ==> OwnerOf(Release(s, h, p), q) == OwnerOf(s, q)
  {
    if OwnerOf(s, p) == Some(h) {
      assert EntryInv(s, p);
      FreedKeepsWaits(s, p);
      forall q | q in s.locks && q != p
        ensures EntryInv(Freed(s, p), q)
      {
        FreedKeepsEntries(s, p, q);
      }
      CleanupRestores(Freed(s, p), p);
    }
  }

  // ---------------------------------------------------------------- whole runs

  datatype Event =
    | Acquire(h: Handle, path: Path)   // acquireLocal enters
    | Woken(h: Handle)                 // <-freed
    | Cancelled(h: Handle)             // <-ctx.Done()
    | Released(h: Handle, path: Path)  // releaseLocal

  predicate Enabled(s: State, ev: Event) {
    match ev
    case Acquire(h, _) => CallOf(s, h).Idle?
    case Woken(h) => CallOf(s, h).Waiting? && s.calls[h].freed in s.closed
    case Cancelled(h) => CallOf(s, h).Waiting?
    case Released(_, _) => true
  }

  function Next(s: State, ev: Event): State
    requires Inv(s) && Enabled(s, ev)
  {
    match ev
    case Acquire(h, p) => (assert p in s.locks ==> EntryInv(s, p); Attempt(s, h, p).0)
    case Woken(h) => Wake(s, h).0
    case Cancelled(h) => Cancel(s, h)
    case Released(h, p) => Release(s, h, p)
  }

  lemma NextKeepsInv(s: State, ev: Event)
    requires Inv(s) && Enabled(s, ev)
    ensures Inv(Next(s, ev))
  {
    match ev
    case Acquire(h, p) =>
      assert p in s.locks ==> EntryInv(s, p);
      AttemptKeepsInv(s, h, p);
    case Woken(h) => WakeKeepsInv(s, h);
    case Cancelled(h) => CancelKeepsInv(s, h);
    case Released(h, p) => ReleaseKeepsInv(s, h, p);
  }

  /** Next is defined on states with the invariant; RunKeepsInv shows that a run
      never leaves them. */
  ghost predicate IsRun(run: seq<State>, events: seq<Event>) {
    && |run| == |events| + 1 && run[0] == Empty()
    && forall i {:trigger events[i]} :: 0 <= i < |events| ==>
         Inv(run[i]) ==> Enabled(run[i], events[i]) && run[i + 1] == Next(run[i], events[i])
  }

  /** In every state of every run: waiters are counted exactly, each waits on the
      map's entry for its path through a channel that is closed or will be closed
      by the current owner, and every map entry is owned or awaited. */
  lemma {:induction false} RunKeepsInv(run: seq<State>, events: seq<Event>, k: nat)
    requires IsRun(run, events) && k < |run|
    ensures Inv(run[k])
  {
    if k > 0 {
      RunKeepsInv(run, events, k - 1);
      assert run[k] == Next(run[k - 1], events[k - 1]);
      NextKeepsInv(run[k - 1], events[k - 1]);
    }
  }

  /** No lost wakeup: whoever waits for an unowned path can run, and takes it. */
  lemma NoLostWakeup(run: seq<State>, events: seq<Event>, k: nat, h: Handle)
    requires IsRun(run, events) && k < |run| && CallOf(run[k], h).Waiting?
    requires OwnerOf(run[k], run[k].calls[h].path).None?
    ensures Inv(run[k]) && Enabled(run[k], Woken(h))
    ensures Wake(run[k], h).1 == Fresh && OwnerOf(Wake(run[k], h).0, run[k].calls[h].path) == Some(h)
  {
    RunKeepsInv(run, events, k);
    assert WaitInv(run[k], h);
    StopWaitingAlmost(run[k], h);
    AttemptKeepsInv(WithoutWaiter(run[k], h), h, run[k].calls[h].path);
  }

  /** A release makes every call waiting for the path runnable. */
  lemma ReleaseWakesAll(s: State, h: Handle, p: Path, g: Handle)
    requires Inv(s) && OwnerOf(s, p) == Some(h) && CallOf(s, g).Waiting? && s.calls[g].path == p
    ensures CallOf(Release(s, h, p), g) == s.calls[g] && Enabled(Release(s, h, p), Woken(g))
  {
    assert WaitInv(s, g);
  }

  /** No leaked entry: with no call waiting, exactly the owned paths have one. */
  lemma NoLeakedEntry(run: seq<State>, events: seq<Event>, k: nat, p: Path)
    requires IsRun(run, events) && k < |run|
    requires forall h :: CallOf(run[k], h).Waiting? ==> run[k].calls[h].path != p
    ensures p in run[k].locks <==> OwnerOf(run[k], p).Some?
  {
    RunKeepsInv(run, events, k);
    if p in run[k].locks {
      assert EntryInv(run[k], p);
      forall h | CallOf(run[k], h).Waiting?
        ensures run[k].calls[h].entry != run[k].locks[p]
      {
        assert WaitInv(run[k], h);
      }
      assert Waiters(run[k].calls, run[k].locks[p]) == {};
    }
  }

  // ------------------------------------------------------------ the code itself

  /** What a step of another handle leaves alone. */
  ghost predicate Spares(s: State, t: State, h: Handle) {
    CallOf(t, h) == CallOf(s, h) && forall p :: OwnerOf(t, p) == Some(h) <==> OwnerOf(s, p) == Some(h)
  }

  lemma AttemptSpares(s: State, g: Handle, p: Path, h: Handle)
    requires AlmostInv(s, p) && g != h
    ensures Spares(s, Attempt(s, g, p).0, h)
  {
    WithEntryAlmost(s, p);
    var m, t := WithEntry(s, p), Attempt(s, g, p).0;
    forall q
      ensures OwnerOf(t, q) == Some(h) <==> OwnerOf(s, q) == Some(h)
    {
      assert OwnerOf(m, q) == OwnerOf(s, q);
      assert q in m.locks && q != p ==> m.locks[q] != m.locks[p];
      assert q != p ==> OwnerOf(t, q) == OwnerOf(m, q);
    }
  }

  lemma StopWaitingSpares(s: State, g: Handle, h: Handle)
    requires Inv(s) && CallOf(s, g).Waiting? && g != h
    ensures var id := s.calls[g].entry; id in s.entries && s.entries[id].waiters > 0
    ensures AlmostInv(WithoutWaiter(s, g), s.calls[g].path) && Spares(s, WithoutWaiter(s, g), h)
  {
    StopWaitingAlmost(s, g);
  }

  lemma ReleaseSpares(s: State, g: Handle, p: Path, h: Handle)
    requires Inv(s) && g != h
    ensures Spares(s, Release(s, g, p), h)
  {
    var t := Release(s, g, p);
    forall q
      ensures OwnerOf(t, q) == Some(h) <==> OwnerOf(s, q) == Some(h)
    {
      assert q in s.locks && p in s.locks && q != p ==> s.locks[q] != s.locks[p];
    }
  }

  lemma CleanupSpares(s: State, p: Path, id: EntryId, h: Handle)
    requires id in s.entries && (p in s.locks ==> s.locks[p] == id)
    ensures Spares(s, CleanedUp(s, p, id), h)
  {
  }

  lemma OthersSpare(s: State, ev: Event, h: Handle)
    requires Inv(s) && Enabled(s, ev) && ev.h != h
    ensures Inv(Next(s, ev)) && Spares(s, Next(s, ev), h)
  {
    NextKeepsInv(s, ev);
    hide Inv, Attempt, Release, CleanedUp, WithoutWaiter, OwnerOf;
    match ev
    case Acquire(g, p) =>
      AcquireSpares(s, g, p, h);
    case Woken(g) =>
      StopWaitingSpares(s, g, h);
      AttemptSpares(WithoutWaiter(s, g), g, s.calls[g].path, h);
    case Cancelled(g) =>
      CancelSpares(s, g, h);
    case Released(g, p) =>
      ReleaseSpares(s, g, p, h);
  }

  lemma AcquireSpares(s: State, g: Handle, p: Path, h: Handle)
    requires Inv(s) && g != h
    ensures p in s.locks ==> s.locks[p] in s.entries
    ensures Spares(s, Attempt(s, g, p).0, h)
  {
    assert p in s.locks ==> EntryInv(s, p);
    AttemptSpares(s, g, p, h);
  }

  lemma CancelSpares(s: State, g: Handle, h: Handle)
    requires Inv(s) && CallOf(s, g).Waiting? && g != h
    ensures Spares(s, Cancel(s, g), h)
  {
    StopWaitingAlmost(s, g);
    StopWaitingSpares(s, g, h);
    CleanupSpares(WithoutWaiter(s, g), s.calls[g].path, s.calls[g].entry, h);
  }

  /** lockManager; `calls` records where the goroutines are. */
  class Manager {
    var locks: map<Path, EntryId>
    var entries: map<EntryId, PathLock>
    var closed: set<Channel>
    var nextEntry: EntryId
    var nextChannel: Channel
    var calls: map<Handle, Call>
    ghost var waits: nat            // how often a call here waited for others
    ghost var answers: seq<bool>    // what the backend has answered, success or not

    function View(): State
      reads this
    {
      State(locks, entries, closed, calls, nextEntry, nextChannel)
    }

    constructor ()
      ensures View() == Empty() && Inv(View())
    {
      locks, entries, closed, nextEntry, nextChannel := map[], map[], {}, 0, 0;
      calls, waits, answers := map[], 0, [];
    }

    /** The body of the acquireLocal loop under the mutex; on Blocked the caller
        goes on to wait for `freed` of `entry`. */
    method Turn(h: Handle, path: Path) returns (turn: Turn, entry: EntryId, freed: Channel)
      requires path in locks ==> locks[path] in entries
      modifies this
      ensures waits == old(waits) && answers == old(answers)
      ensures (View(), turn) == Attempt(old(View()), h, path)
      ensures turn.Blocked? ==> CallOf(View(), h) == Waiting(path, entry, freed)
    {
      if path !in locks {
        entries := entries[nextEntry := PathLock(None, 0, nextChannel)];
        locks := locks[path := nextEntry];
        nextEntry, nextChannel := nextEntry + 1, nextChannel + 1;
      }
      entry := locks[path];
      var e := entries[entry];
      freed := e.freed;
      if e.owner.None? {
        entries := entries[entry := e.(owner := Some(h))];
        turn, calls := Fresh, calls[h := Idle];
      } else if e.owner == Some(h) {
        turn, calls := Already, calls[h := Idle];
      } else {
        entries := entries[entry := e.(waiters := e.waiters + 1)];
        turn, calls := Blocked, calls[h := Waiting(path, entry, freed)];
      }
    }

    method StopWaiting(h: Handle, entry: EntryId)
      requires CallOf(View(), h).Waiting? && calls[h].entry == entry && entry in entries && entries[entry].waiters > 0
      modifies this
      ensures waits == old(waits) && answers == old(answers)
      ensures View() == WithoutWaiter(old(View()), h)
    {
      var e := entries[entry];
      entries := entries[entry := e.(waiters := e.waiters - 1)];
      calls := calls[h := Idle];
    }

    method Cleanup(path: Path, entry: EntryId)
      requires entry in entries
      modifies this
      ensures waits == old(waits) && answers == old(answers)
      ensures View() == CleanedUp(old(View()), path, entry)
    {
      if entries[entry].owner.None? && entries[entry].waiters == 0 {
        locks := locks - {path};
      }
    }

    /** `<-freed` is ready: recount, then turn again. */
    method WakeUp(h: Handle, path: Path, entry: EntryId, channel: Channel)
        returns (turn: Turn, entry': EntryId, channel': Channel)
      requires Inv(View()) && CallOf(View(), h) == Waiting(path, entry, channel) && channel in closed
      modifies this
      ensures waits == old(waits) && answers == old(answers)
      ensures (View(), turn) == Wake(old(View()), h) && Inv(View())
      ensures turn.Blocked? ==> CallOf(View(), h) == Waiting(path, entry', channel')
    {
      StopWaitingAlmost(View(), h);
      WakeKeepsInv(View(), h);
      StopWaiting(h, entry);
      turn, entry', channel' := Turn(h, path);
    }

    /** `<-ctx.Done()` is ready: the call returns the context's error. */
    method GiveUp(h: Handle, path: Path, entry: EntryId, ghost channel: Channel)
      requires Inv(View()) && CallOf(View(), h) == Waiting(path, entry, channel)
      modifies this
      ensures waits == old(waits) && answers == old(answers)
      ensures View() == Cancel(old(View()), h) && Inv(View())
      ensures CallOf(View(), h).Idle?
      ensures OwnerOf(View(), path) == Some(h) ==> old(OwnerOf(View(), path)) == Some(h)
    {
      StopWaitingAlmost(View(), h);
      CancelKeepsInv(View(), h);
      StopWaiting(h, entry);
      Cleanup(path, entry);
    }

    /** Any number of steps of the other handles. */
    method Others(h: Handle)
      requires Inv(View())
      modifies this
      ensures waits == old(waits) && answers == old(answers)
      ensures Inv(View()) && Spares(old(View()), View(), h)
    {
      hide Inv, Next, OwnerOf, CallOf, Enabled;
      var steps: nat := *;
      while steps > 0
        invariant Inv(View()) && Spares(old(View()), View(), h) && waits == old(waits) && answers == old(answers)
      {
        var ev: Event := *;
        if Enabled(View(), ev) && ev.h != h {
          OthersSpare(View(), ev, h);
          var t := Next(View(), ev);
          locks, entries, closed, calls := t.locks, t.entries, t.closed, t.calls;
          nextEntry, nextChannel := t.nextEntry, t.nextChannel;
          assert View() == t;
        }
        steps := steps - 1;
      }
    }

    /** The first turn of acquireLocal. */
    method FirstTurn(path: Path, h: Handle) returns (turn: Turn, entry: EntryId, freed: Channel)
      requires Inv(View()) && CallOf(View(), h).Idle?
      modifies this
      ensures waits == old(waits) && answers == old(answers)
      ensures Inv(View()) && (turn.Blocked? <==> CallOf(View(), h) == Waiting(path, entry, freed))
      ensures turn.Blocked? || CallOf(View(), h).Idle?
      ensures turn.Blocked? <==> OwnerOf(View(), path) != Some(h)
      ensures turn.Already? <==> old(OwnerOf(View(), path)) == Some(h)
      ensures turn.Fresh? <==> old(OwnerOf(View(), path)).None?
    {
      assert path in locks ==> EntryInv(View(), path);
      AttemptKeepsInv(View(), h, path);
      turn, entry, freed := Turn(h, path);
    }

    /** The wakeup and the turn after it, for a call that is not the owner. */
    method NextTurn(path: Path, h: Handle, entry: EntryId, freed: Channel)
        returns (turn: Turn, entry': EntryId, freed': Channel)
      requires Inv(View()) && CallOf(View(), h) == Waiting(path, entry, freed) && freed in closed
      requires OwnerOf(View(), path) != Some(h)
      modifies this
      ensures waits == old(waits) && answers == old(answers)
      ensures Inv(View()) && !turn.Already? && (turn.Blocked? <==> CallOf(View(), h) == Waiting(path, entry', freed'))
      ensures turn.Blocked? || CallOf(View(), h).Idle?
      ensures turn.Blocked? <==> OwnerOf(View(), path) != Some(h)
    {
      StopWaitingAlmost(View(), h);
      AttemptKeepsInv(WithoutWaiter(View(), h), h, path);
      turn, entry', freed' := WakeUp(h, path, entry, freed);
    }

    /** The select of acquireLocal, while it waits: any steps of the others. */
    method Wait(h: Handle)
      requires Inv(View())
      modifies this
      ensures waits == old(waits) + 1 && answers == old(answers)
      ensures Inv(View()) && CallOf(View(), h) == old(CallOf(View(), h))
      ensures forall p :: OwnerOf(View(), p) == Some(h) <==> old(OwnerOf(View(), p)) == Some(h)
    {
      hide Inv, OwnerOf, CallOf;
      Others(h);
      waits := waits + 1;
    }

    /** acquireLocal, whose context is done after `patience` waits; from then on it
        takes whichever of a freed lock and the context it likes.  It returns without
        error exactly when the handle owns the path, and with one only once the
        context is done. */
    method AcquireLocal(path: Path, h: Handle, patience: nat) returns (taken: bool, ok: bool)
      requires Inv(View()) && CallOf(View(), h).Idle?
      modifies this
      ensures Inv(View()) && CallOf(View(), h).Idle?
      ensures ok <==> OwnerOf(View(), path) == Some(h)
      ensures taken <==> ok && old(OwnerOf(View(), path)) != Some(h)
      ensures old(OwnerOf(View(), path)).None? || old(OwnerOf(View(), path)) == Some(h) ==> ok
      ensures waits >= old(waits) && (!ok ==> waits > old(waits) + patience) && answers == old(answers)
    {
      hide Inv, OwnerOf, CallOf;
      var n: nat, limit: nat := 0, *;
      var turn, entry, freed := FirstTurn(path, h);
      while turn.Blocked?
        invariant Inv(View()) && (turn.Blocked? ==> CallOf(View(), h) == Waiting(path, entry, freed))
        invariant turn.Blocked? || CallOf(View(), h).Idle?
        invariant turn.Blocked? <==> OwnerOf(View(), path) != Some(h)
        invariant turn.Already? <==> old(OwnerOf(View(), path)) == Some(h)
        invariant turn.Blocked? ==> old(OwnerOf(View(), path)).Some?
        invariant waits == old(waits) + n && n <= patience + limit && answers == old(answers)
        decreases turn.Blocked?, patience + limit - n
      {
        Wait(h);
        var cancelled: bool := *;
        if n >= patience && (cancelled || freed !in closed || n == patience + limit) {
          GiveUp(h, path, entry, freed);
          return false, false;
        }
        if freed in closed {
          turn, entry, freed := NextTurn(path, h, entry, freed);
        }
        n := n + 1;
      }
      return turn.Fresh?, true;
    }

    method Holds(path: Path, h: Handle) returns (held: bool)
      requires Inv(View())
      ensures held <==> OwnerOf(View(), path) == Some(h)
    {
      assert path in locks ==> EntryInv(View(), path);
      held := path in locks && entries[locks[path]].owner == Some(h);
    }

    method ReleaseLocal(path: Path, h: Handle)
      requires Inv(View())
      modifies this
      ensures waits == old(waits) && answers == old(answers)
      ensures View() == Release(old(View()), h, path) && Inv(View())
    {
      ReleaseKeepsInv(View(), h, path);
      assert path in locks ==> EntryInv(View(), path);
      if path !in locks || entries[locks[path]].owner != Some(h) {
        return;
      }
      var id := locks[path];
      var e := entries[id];
      closed := closed + {e.freed};
      entries := entries[id := e.(owner := None, freed := nextChannel)];
      nextChannel := nextChannel + 1;
      Cleanup(path, id);
    }

    // ------------------------------- lock, unlock and releaseOnClose; `ext` says
    // whether there is a backend, and `asked` whether it was called

    /** A call of the backend: it answers anything, and the other handles go on. */
    method Backend(h: Handle) returns (ok: bool)
      requires Inv(View())
      modifies this
      ensures Inv(View()) && CallOf(View(), h) == old(CallOf(View(), h))
      ensures forall p :: OwnerOf(View(), p) == Some(h) <==> old(OwnerOf(View(), p)) == Some(h)
      ensures waits == old(waits) && answers == old(answers) + [ok]
    {
      hide Inv, OwnerOf, CallOf;
      Others(h);
      ok := *;
      answers := answers + [ok];
    }

    /** The backend is asked exactly by a handle that did not own the path before
        and got it locally; when it refuses, the local lock is given back. */
    method Lock(path: Path, h: Handle, ext: bool, patience: nat) returns (ok: bool, asked: bool)
      requires Inv(View()) && CallOf(View(), h).Idle?
      modifies this
      ensures Inv(View()) && CallOf(View(), h).Idle?
      ensures ok <==> OwnerOf(View(), path) == Some(h)
      ensures asked ==> ext && old(OwnerOf(View(), path)) != Some(h)
      ensures ok && ext && old(OwnerOf(View(), path)) != Some(h) ==> asked
      ensures old(OwnerOf(View(), path)) == Some(h) || (old(OwnerOf(View(), path)).None? && !asked) ==> ok
      ensures !ok && !asked ==> waits > old(waits) + patience
      ensures answers == old(answers) + if asked then [ok] else []
    {
      var taken;
      taken, ok := AcquireLocal(path, h, patience);
      if !ok || !taken || !ext {
        return ok, false;
      }
      ok := Backend(h);
      if !ok {
        DropLocal(path, h);
      }
      return ok, true;
    }

    /** When the backend fails the local lock stays, so that the caller may retry. */
    method Unlock(path: Path, h: Handle, ext: bool) returns (ok: bool, asked: bool)
      requires Inv(View()) && CallOf(View(), h).Idle?
      modifies this
      ensures Inv(View()) && CallOf(View(), h).Idle?
      ensures old(OwnerOf(View(), path)) != Some(h) ==> ok && !asked && View() == old(View())
      ensures old(OwnerOf(View(), path)) == Some(h) ==> (asked <==> ext) && (!ext ==> ok)
      ensures ok <==> OwnerOf(View(), path) != Some(h)
      ensures answers == old(answers) + if asked then [ok] else []
    {
      var held := Holds(path, h);
      if !held {
        return true, false;
      }
      if ext {
        ok := Backend(h);
        if !ok {
          return false, true;
        }
      }
      DropLocal(path, h);
      return true, ext;
    }

    /** A closed handle always loses its lock, whatever the backend answers. */
    method ReleaseOnClose(path: Path, h: Handle, ext: bool) returns (asked: bool)
      requires Inv(View()) && CallOf(View(), h).Idle?
      modifies this
      ensures Inv(View()) && CallOf(View(), h).Idle? && OwnerOf(View(), path) != Some(h)
      ensures asked <==> ext && old(OwnerOf(View(), path)) == Some(h)
      ensures old(OwnerOf(View(), path)) != Some(h) ==> View() == old(View())
      ensures |answers| == |old(answers)| + if asked then 1 else 0
    {
      var held := Holds(path, h);
      if !held {
        return false;
      }
      if ext {
        var _ := Backend(h);
      }
      DropLocal(path, h);
      return ext;
    }

    /** releaseLocal by the owner. */
    method DropLocal(path: Path, h: Handle)
      requires Inv(View()) && CallOf(View(), h).Idle? && OwnerOf(View(), path) == Some(h)
      modifies this
      ensures waits == old(waits) && answers == old(answers)
      ensures Inv(View()) && CallOf(View(), h).Idle? && OwnerOf(View(), path).None?
    {
      ReleaseLocal(path, h);
    }
  }
}
