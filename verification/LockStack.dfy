/** The two locking layers together (lock.go over lock_s3.go), for the handles of
    one path in any number of processes: each process runs a lock manager whose
    backend is its own S3Locker, and all S3Lockers share one lock object. */
module LockStack {
  import opened Common
  import opened LeaseText
  import Lease
  import LeaseFate
  import LeaseSafety
  import LM = LockManager

  datatype Actor = Actor(proc: nat, handle: nat)

  /** Where a handle stands in lock, unlock or releaseOnClose. */
  datatype Stage =
    | Outside
    | Queued                         // blocked in acquireLocal
    | Locking(session: string)       // inside the backend's Lock
    | Inside(session: string)        // Lock returned, Unlock not begun
    | Unlocking(session: string)     // inside the backend's Unlock
    | Kept(session: string)          // backend Unlock failed; the local lock stays

  /** `held` is S3Locker.held for the path, per process. */
  datatype System = System(
    path: string,
    lease: Lease.State,
    managers: map<nat, LM.State>,
    stages: map<Actor, Stage>,
    held: map<nat, string>)

  datatype Event =
    | Backend(ev: Lease.Event)                           // a step inside some S3Locker, the store or time
    | Acquire(a: Actor, session: string, ttl: nat)       // lock: first turn of acquireLocal
    | Woken(a: Actor, session: string, ttl: nat)         // a later turn
    | Cancelled(a: Actor)
    | Relock(a: Actor)                                   // lock by the handle that owns the path
    | LockReturns(a: Actor)
    | LockFails(a: Actor)
    | UnlockBegins(a: Actor)
    | UnlockReturns(a: Actor, failed: bool, closing: bool)

  function StageOf(s: System, a: Actor): Stage {
    if a in s.stages then s.stages[a] else Outside
  }

  function ManagerOf(s: System, p: nat): LM.State {
    if p in s.managers then s.managers[p] else LM.Empty()
  }

  predicate OwnsLocally(st: Stage) {
    !st.Outside? && !st.Queued?
  }

  function SessionOf(st: Stage): Option<string> {
    match st
    case Locking(o) => Some(o)
    case Inside(o) => Some(o)
    case Unlocking(o) => Some(o)
    case _ => None
  }

  function With(s: System, a: Actor, st: Stage, m: LM.State): System {
    s.(stages := s.stages[a := st], managers := s.managers[a.proc := m])
  }

  /** How a backend call that is over ended. */
  datatype Outcome = Locked | Unlocked | Failed

  predicate Ended(s: System, o: string, how: Outcome) {
    && o in s.lease.sessions
    && match how
       case Locked => s.lease.sessions[o].phase.Holding?
       case Unlocked => s.lease.sessions[o].phase.Released?
       case Failed => s.lease.sessions[o].phase.Over?
  }

  predicate Enabled(s: System, ev: Event) {
    match ev
    case Backend(e) => !e.Start? && !e.BeginUnlock? && Lease.Enabled(s.lease, e)
    case Acquire(a, o, _) => StageOf(s, a).Outside? && Lease.Fresh(s.lease, o)
    case Woken(a, o, _) =>
      && StageOf(s, a).Queued? && Lease.Fresh(s.lease, o)
      && LM.Enabled(ManagerOf(s, a.proc), LM.Woken(a.handle))
    case Cancelled(a) => StageOf(s, a).Queued?
    case Relock(a) => StageOf(s, a).Inside? || StageOf(s, a).Kept?
    case LockReturns(a) => StageOf(s, a).Locking? && Ended(s, StageOf(s, a).session, Locked)
    case LockFails(a) => StageOf(s, a).Locking? && Ended(s, StageOf(s, a).session, Failed)
    case UnlockBegins(a) => StageOf(s, a).Inside? || StageOf(s, a).Kept?
    case UnlockReturns(a, failed, _) =>
      StageOf(s, a).Unlocking? && Ended(s, StageOf(s, a).session, if failed then Failed else Unlocked)
  }

  /** A turn that took the local lock goes on to the backend; one that found it
      taken waits. */
  function AfterTurn(s: System, a: Actor, turn: (LM.State, LM.Turn), o: string, ttl: nat): System
    requires Lease.Fresh(s.lease, o)
  {
    if turn.1.Fresh? then
      With(s, a, Locking(o), turn.0).(lease := Lease.Next(s.lease, Lease.Start(o, ttl)))
    else if turn.1.Blocked? then With(s, a, Queued, turn.0)
    else With(s, a, StageOf(s, a), turn.0)
  }

  function ReleaseLocal(s: System, a: Actor): System
    requires Inv(s)
  {
    assert ManagerInv(s, a.proc);
    With(s, a, Outside, LM.Release(ManagerOf(s, a.proc), a.handle, s.path))
  }

  /** S3Locker.Unlock forgets the hold before anything else. */
  function BeginUnlock(s: System, a: Actor): System
    requires Inv(s) && StageOf(s, a).Inside?
  {
    assert ActorInv(s, a);
    var o := StageOf(s, a).session;
    var t := s.(stages := s.stages[a := Unlocking(o)], held := s.held - {a.proc});
    if s.lease.sessions[o].phase.Holding? then t.(lease := Lease.Next(s.lease, Lease.BeginUnlock(o))) else t
  }

  function Next(s: System, ev: Event): System
    requires Inv(s) && Enabled(s, ev)
  {
    match ev
    case Backend(e) => s.(lease := Lease.Next(s.lease, e))
    case Acquire(a, o, ttl) =>
      assert ManagerInv(s, a.proc);
      AcquireReady(s, a.proc);
      AfterTurn(s, a, LM.Attempt(ManagerOf(s, a.proc), a.handle, s.path), o, ttl)
    case Woken(a, o, ttl) =>
      assert ManagerInv(s, a.proc);
      AfterTurn(s, a, LM.Wake(ManagerOf(s, a.proc), a.handle), o, ttl)
    case Cancelled(a) =>
      assert ManagerInv(s, a.proc) && ActorInv(s, a);
      With(s, a, Outside, LM.Cancel(ManagerOf(s, a.proc), a.handle))
    case Relock(a) =>
      assert ManagerInv(s, a.proc);
      AcquireReady(s, a.proc);
      With(s, a, StageOf(s, a), LM.Attempt(ManagerOf(s, a.proc), a.handle, s.path).0)
    case LockReturns(a) =>
      var o := StageOf(s, a).session;
      s.(stages := s.stages[a := Inside(o)], held := s.held[a.proc := o])
    case LockFails(a) => ReleaseLocal(s, a)
    case UnlockBegins(a) =>
      // with no hold recorded the backend's Unlock is a no-op and succeeds
      if StageOf(s, a).Kept? then ReleaseLocal(s, a) else BeginUnlock(s, a)
    case UnlockReturns(a, failed, closing) =>
      if failed && !closing then s.(stages := s.stages[a := Kept(StageOf(s, a).session)]) else ReleaseLocal(s, a)
  }

  // ------------------------------------------------------------ the invariant

  predicate ManagerInv(s: System, p: nat) {
    && LM.Inv(ManagerOf(s, p))
    && (p in s.held ==> LM.OwnerOf(ManagerOf(s, p), s.path).Some?)
  }

  lemma AcquireReady(s: System, p: nat)
    requires ManagerInv(s, p)
    ensures var m := ManagerOf(s, p); s.path in m.locks ==> m.locks[s.path] in m.entries
  {
    var m := ManagerOf(s, p);
    assert s.path in m.locks ==> LM.EntryInv(m, s.path);
  }

  predicate ActorInv(s: System, a: Actor) {
    var st, m := StageOf(s, a), ManagerOf(s, a.proc);
    && (OwnsLocally(st) <==> LM.OwnerOf(m, s.path) == Some(a.handle))
    && (if st.Queued? then LM.CallOf(m, a.handle).Waiting? && m.calls[a.handle].path == s.path
        else LM.CallOf(m, a.handle).Idle?)
    && (SessionOf(st).Some? ==> SessionOf(st).value in s.lease.sessions)
    && (st.Inside? ==> a.proc in s.held && s.held[a.proc] == st.session)
    && (OwnsLocally(st) && a.proc in s.held ==> st.Inside?)
  }

  /** No two handles run the same backend session. */
  predicate Apart(s: System, a: Actor, b: Actor) {
    SessionOf(StageOf(s, a)).Some? && SessionOf(StageOf(s, a)) == SessionOf(StageOf(s, b)) ==> a == b
  }

  ghost predicate SessionsApart(s: System) {
    forall a, b :: Apart(s, a, b)
  }

  /** What every run of the lease protocol keeps, timely or not. */
  ghost predicate LeaseSound(s: Lease.State) {
    Lease.Shape(s) && forall o :: o in s.sessions ==> LeaseFate.Fate(s, o)
  }

  ghost predicate Inv(s: System) {
    && LeaseSound(s.lease)
    && (forall p :: ManagerInv(s, p))
    && (forall a :: ActorInv(s, a))
    && SessionsApart(s)
  }

  lemma LeaseStepSound(s: Lease.State, ev: Lease.Event)
    requires LeaseSound(s) && Lease.Enabled(s, ev)
    ensures LeaseSound(Lease.Next(s, ev))
    ensures s.sessions.Keys <= Lease.Next(s, ev).sessions.Keys
  {
    if ev.Land? {
      Lease.LandKeepsShape(s, ev.request, ev.reply);
    } else {
      Lease.SessionStepKeepsShape(s, ev);
    }
    forall o | o in Lease.Next(s, ev).sessions
      ensures LeaseFate.Fate(Lease.Next(s, ev), o)
    {
      if ev.Land? {
        LeaseFate.LandKeepsFate(s, ev.request, ev.reply, o);
      } else {
        LeaseFate.StepKeepsFate(s, ev, o);
      }
    }
  }

  /** What one manager operation by handle h may change for the others: nothing
      in their calls, and the owner of the path only from or to h. */
  ghost predicate ByHandle(m: LM.State, n: LM.State, path: string, h: nat) {
    && (forall g :: g != h ==> LM.CallOf(n, g) == LM.CallOf(m, g))
    && (forall g :: g != h ==> (LM.OwnerOf(n, path) == Some(g) <==> LM.OwnerOf(m, path) == Some(g)))
  }

  lemma TurnByHandle(m: LM.State, h: nat, path: string)
    requires LM.AlmostInv(m, path) && LM.CallOf(m, h).Idle?
    ensures var (n, turn) := LM.Attempt(m, h, path);
            LM.Inv(n) && ByHandle(m, n, path, h) && (turn.Fresh? <==> LM.OwnerOf(m, path).None?)
            && LM.OwnerOf(n, path).Some?
            && (turn.Fresh? ==> LM.OwnerOf(n, path) == Some(h) && LM.CallOf(n, h).Idle?)
            && (turn.Blocked? ==> LM.CallOf(n, h).Waiting? && n.calls[h].path == path)
            && (turn.Already? ==> LM.OwnerOf(m, path) == Some(h))
            && (turn.Blocked? ==> LM.OwnerOf(n, path) != Some(h))
  {
    LM.AttemptKeepsInv(m, h, path);
  }

  lemma WakeByHandle(m: LM.State, h: nat, path: string)
    requires LM.Inv(m) && LM.CallOf(m, h).Waiting? && m.calls[h].path == path && LM.OwnerOf(m, path) != Some(h)
    ensures var (n, turn) := LM.Wake(m, h);
            LM.Inv(n) && ByHandle(m, n, path, h) && !turn.Already?
            && (turn.Fresh? <==> LM.OwnerOf(m, path).None?) && LM.OwnerOf(n, path).Some?
            && (turn.Fresh? ==> LM.OwnerOf(n, path) == Some(h) && LM.CallOf(n, h).Idle?)
            && (turn.Blocked? ==> LM.CallOf(n, h).Waiting? && n.calls[h].path == path && LM.OwnerOf(n, path) != Some(h))
  {
    LM.StopWaitingAlmost(m, h);
    var w := LM.WithoutWaiter(m, h);
    assert LM.OwnerOf(w, path) == LM.OwnerOf(m, path);
    TurnByHandle(w, h, path);
  }

  lemma CancelByHandle(m: LM.State, h: nat, path: string)
    requires LM.Inv(m) && LM.CallOf(m, h).Waiting? && m.calls[h].path == path
    ensures var n := LM.Cancel(m, h);
            LM.Inv(n) && ByHandle(m, n, path, h) && LM.CallOf(n, h).Idle?
            && LM.OwnerOf(n, path) == LM.OwnerOf(m, path)
  {
    LM.StopWaitingAlmost(m, h);
    LM.CancelKeepsInv(m, h);
  }

  lemma ReleaseByHandle(m: LM.State, h: nat, path: string)
    requires LM.Inv(m) && LM.OwnerOf(m, path) == Some(h)
    ensures var n := LM.Release(m, h, path);
            LM.Inv(n) && ByHandle(m, n, path, h) && LM.CallOf(n, h) == LM.CallOf(m, h)
            && LM.OwnerOf(n, path).None?
  {
    LM.ReleaseKeepsInv(m, h, path);
  }

  /** An actor is untouched by what another one does to its manager, and by
      lease sessions being added. */
  lemma OthersKeepInv(s: System, t: System, a: Actor, b: Actor)
    requires ActorInv(s, b) && b != a
    requires t.path == s.path && StageOf(t, b) == StageOf(s, b)
    requires if b.proc == a.proc then ByHandle(ManagerOf(s, a.proc), ManagerOf(t, a.proc), s.path, a.handle)
             else ManagerOf(t, b.proc) == ManagerOf(s, b.proc)
    requires s.lease.sessions.Keys <= t.lease.sessions.Keys
    requires StageOf(s, b).Inside? ==> b.proc in t.held && t.held[b.proc] == s.held[b.proc]
    requires OwnsLocally(StageOf(s, b)) && b.proc in t.held ==> b.proc in s.held
    ensures ActorInv(t, b)
  {
  }

  /** Only one handle of a process owns the path locally, so at most one is in
      or between backend calls. */
  lemma OneOwnerPerProcess(s: System, a: Actor, b: Actor)
    requires ActorInv(s, a) && ActorInv(s, b) && a.proc == b.proc
    requires OwnsLocally(StageOf(s, a)) && OwnsLocally(StageOf(s, b))
    ensures a == b
  {
  }

  /** Everything but the acting handle, its manager and the lease stays put. */
  ghost predicate OneActor(s: System, t: System, a: Actor) {
    && t.path == s.path
    && (forall b {:trigger StageOf(t, b)} :: b != a ==> StageOf(t, b) == StageOf(s, b))
    && (forall p {:trigger ManagerOf(t, p)} :: p != a.proc ==> ManagerOf(t, p) == ManagerOf(s, p))
    && ByHandle(ManagerOf(s, a.proc), ManagerOf(t, a.proc), s.path, a.handle)
    && s.lease.sessions.Keys <= t.lease.sessions.Keys
    && (forall p :: p != a.proc && p in s.held ==> p in t.held && t.held[p] == s.held[p])
    && (forall p :: p != a.proc && p in t.held ==> p in s.held)
  }

  lemma OneActorKeepsInv(s: System, t: System, a: Actor)
    requires Inv(s) && OneActor(s, t, a)
    requires LeaseSound(t.lease) && ManagerInv(t, a.proc) && ActorInv(t, a)
    requires OwnsLocally(StageOf(s, a)) || t.held == s.held
    requires SessionOf(StageOf(t, a)).Some? ==>
               SessionOf(StageOf(t, a)) == SessionOf(StageOf(s, a)) || SessionOf(StageOf(t, a)).value !in s.lease.sessions
    ensures Inv(t)
  {
    forall b
      ensures ActorInv(t, b)
    {
      assert ActorInv(s, a) && ActorInv(s, b);
      if b != a {
        assert StageOf(t, b) == StageOf(s, b);
        assert ManagerOf(t, b.proc) == ManagerOf(s, b.proc) || b.proc == a.proc;
        if b.proc == a.proc && OwnsLocally(StageOf(s, a)) && OwnsLocally(StageOf(s, b)) {
          OneOwnerPerProcess(s, a, b);
        }
        OthersKeepInv(s, t, a, b);
      }
    }
    forall p
      ensures ManagerInv(t, p)
    {
      if p != a.proc {
        assert ManagerOf(t, p) == ManagerOf(s, p) && ManagerInv(s, p);
      }
    }
    forall b, c
      ensures Apart(t, b, c)
    {
      assert ActorInv(s, b) && ActorInv(s, c) && Apart(s, b, c);
      assert b != a ==> StageOf(t, b) == StageOf(s, b);
      assert c != a ==> StageOf(t, c) == StageOf(s, c);
    }
  }

  /** A turn that takes the local lock starts a backend session. */
  lemma TakenKeepsInv(s: System, a: Actor, m: LM.State, o: string, ttl: nat)
    requires Inv(s) && !OwnsLocally(StageOf(s, a)) && Lease.Fresh(s.lease, o)
    requires LM.Inv(m) && ByHandle(ManagerOf(s, a.proc), m, s.path, a.handle)
    requires LM.OwnerOf(ManagerOf(s, a.proc), s.path).None? && LM.OwnerOf(m, s.path) == Some(a.handle)
    requires LM.CallOf(m, a.handle).Idle?
    ensures Inv(AfterTurn(s, a, (m, LM.Fresh), o, ttl))
  {
    hide LM.Inv;
    LeaseStepSound(s.lease, Lease.Start(o, ttl));
    assert ManagerInv(s, a.proc);
    var t := AfterTurn(s, a, (m, LM.Fresh), o, ttl);
    assert ManagerOf(t, a.proc) == m;
    assert OneActor(s, t, a);
    OneActorKeepsInv(s, t, a);
  }

  lemma QueuedKeepsInv(s: System, a: Actor, m: LM.State)
    requires Inv(s) && !OwnsLocally(StageOf(s, a))
    requires LM.Inv(m) && ByHandle(ManagerOf(s, a.proc), m, s.path, a.handle)
    requires LM.OwnerOf(m, s.path).Some? && LM.OwnerOf(m, s.path) != Some(a.handle)
    requires LM.CallOf(m, a.handle).Waiting? && m.calls[a.handle].path == s.path
    ensures Inv(With(s, a, Queued, m))
  {
    assert ManagerInv(s, a.proc);
    var t := With(s, a, Queued, m);
    assert ManagerOf(t, a.proc) == m;
    assert OneActor(s, t, a);
    OneActorKeepsInv(s, t, a);
  }

  /** A turn of acquireLocal, with what the manager guarantees about it. */
  lemma AfterTurnKeepsInv(s: System, a: Actor, turn: (LM.State, LM.Turn), o: string, ttl: nat)
    requires Inv(s) && !OwnsLocally(StageOf(s, a)) && Lease.Fresh(s.lease, o) && !turn.1.Already?
    requires LM.Inv(turn.0) && ByHandle(ManagerOf(s, a.proc), turn.0, s.path, a.handle)
    requires turn.1.Fresh? <==> LM.OwnerOf(ManagerOf(s, a.proc), s.path).None?
    requires LM.OwnerOf(turn.0, s.path).Some?
    requires turn.1.Fresh? ==> LM.OwnerOf(turn.0, s.path) == Some(a.handle) && LM.CallOf(turn.0, a.handle).Idle?
    requires turn.1.Blocked? ==> LM.CallOf(turn.0, a.handle).Waiting? && turn.0.calls[a.handle].path == s.path
                                 && LM.OwnerOf(turn.0, s.path) != Some(a.handle)
    ensures Inv(AfterTurn(s, a, turn, o, ttl))
  {
    if turn.1.Fresh? {
      TakenKeepsInv(s, a, turn.0, o, ttl);
    } else {
      QueuedKeepsInv(s, a, turn.0);
    }
  }

  lemma AcquireKeepsInv(s: System, a: Actor, o: string, ttl: nat)
    requires Inv(s) && Enabled(s, Acquire(a, o, ttl))
    ensures Inv(Next(s, Acquire(a, o, ttl)))
  {
    var m := ManagerOf(s, a.proc);
    assert ManagerInv(s, a.proc) && ActorInv(s, a);
    AcquireReady(s, a.proc);
    assert LM.AlmostInv(m, s.path) by {
      assert s.path in m.locks ==> LM.EntryInv(m, s.path);
    }
    TurnByHandle(m, a.handle, s.path);
    AfterTurnKeepsInv(s, a, LM.Attempt(m, a.handle, s.path), o, ttl);
  }

  lemma RelockKeepsInv(s: System, a: Actor)
    requires Inv(s) && Enabled(s, Relock(a))
    ensures Inv(Next(s, Relock(a)))
  {
    hide LM.Attempt;
    var m := ManagerOf(s, a.proc);
    assert ManagerInv(s, a.proc) && ActorInv(s, a);
    AcquireReady(s, a.proc);
    assert LM.AlmostInv(m, s.path) by {
      assert s.path in m.locks ==> LM.EntryInv(m, s.path);
    }
    TurnByHandle(m, a.handle, s.path);
    LM.AttemptKeepsInv(m, a.handle, s.path);
    assert OneActor(s, Next(s, Relock(a)), a);
    OneActorKeepsInv(s, Next(s, Relock(a)), a);
  }

  lemma WokenKeepsInv(s: System, a: Actor, o: string, ttl: nat)
    requires Inv(s) && Enabled(s, Woken(a, o, ttl))
    ensures Inv(Next(s, Woken(a, o, ttl)))
  {
    var m := ManagerOf(s, a.proc);
    assert ManagerInv(s, a.proc) && ActorInv(s, a);
    WakeByHandle(m, a.handle, s.path);
    AfterTurnKeepsInv(s, a, LM.Wake(m, a.handle), o, ttl);
  }

  lemma ReleaseLocalKeepsInv(s: System, a: Actor)
    requires Inv(s) && OwnsLocally(StageOf(s, a)) && !StageOf(s, a).Inside?
    ensures Inv(ReleaseLocal(s, a))
  {
    assert ManagerInv(s, a.proc) && ActorInv(s, a);
    ReleaseByHandle(ManagerOf(s, a.proc), a.handle, s.path);
    assert OneActor(s, ReleaseLocal(s, a), a);
    OneActorKeepsInv(s, ReleaseLocal(s, a), a);
  }

  lemma BeginUnlockKeepsInv(s: System, a: Actor)
    requires Inv(s) && StageOf(s, a).Inside?
    ensures Inv(BeginUnlock(s, a))
  {
    hide LM.Inv;
    assert ActorInv(s, a);
    var t := BeginUnlock(s, a);
    var o := StageOf(s, a).session;
    if s.lease.sessions[o].phase.Holding? {
      LeaseStepSound(s.lease, Lease.BeginUnlock(o));
    }
    assert ManagerOf(t, a.proc) == ManagerOf(s, a.proc) && ManagerInv(s, a.proc);
    assert OneActor(s, t, a);
    OneActorKeepsInv(s, t, a);
  }

  lemma StageOnlyKeepsInv(s: System, t: System, a: Actor, st: Stage)
    requires Inv(s) && OwnsLocally(StageOf(s, a)) && OwnsLocally(st)
    requires (st.Kept? && !StageOf(s, a).Inside?) || (st.Inside? && SessionOf(StageOf(s, a)) == Some(st.session))
    requires t == s.(stages := s.stages[a := st], held := if st.Inside? then s.held[a.proc := st.session] else s.held)
    ensures Inv(t)
  {
    assert ActorInv(s, a) && ManagerOf(t, a.proc) == ManagerOf(s, a.proc) && ManagerInv(s, a.proc);
    assert OneActor(s, t, a);
    OneActorKeepsInv(s, t, a);
  }

  lemma CancelKeepsInv(s: System, a: Actor)
    requires Inv(s) && Enabled(s, Cancelled(a))
    ensures Inv(Next(s, Cancelled(a)))
  {
    hide LM.Cancel, LM.Inv, LeaseSound;
    assert ManagerInv(s, a.proc) && ActorInv(s, a);
    CancelByHandle(ManagerOf(s, a.proc), a.handle, s.path);
    assert OneActor(s, Next(s, Cancelled(a)), a);
    OneActorKeepsInv(s, Next(s, Cancelled(a)), a);
  }

  lemma ReturnKeepsInv(s: System, ev: Event)
    requires Inv(s) && Enabled(s, ev) && (ev.LockReturns? || ev.LockFails? || ev.UnlockReturns?)
    ensures Inv(Next(s, ev))
  {
    if ev.LockReturns? {
      StageOnlyKeepsInv(s, Next(s, ev), ev.a, Inside(StageOf(s, ev.a).session));
    } else if ev.UnlockReturns? && ev.failed && !ev.closing {
      StageOnlyKeepsInv(s, Next(s, ev), ev.a, Kept(StageOf(s, ev.a).session));
    } else {
      ReleaseLocalKeepsInv(s, ev.a);
    }
  }

  lemma BackendKeepsInv(s: System, e: Lease.Event)
    requires Inv(s) && Enabled(s, Backend(e)) && LeaseSound(Lease.Next(s.lease, e))
    requires s.lease.sessions.Keys <= Lease.Next(s.lease, e).sessions.Keys
    ensures Inv(Next(s, Backend(e)))
  {
    var t := Next(s, Backend(e));
    forall a
      ensures ActorInv(t, a)
    {
      assert ActorInv(s, a) && StageOf(t, a) == StageOf(s, a) && ManagerOf(t, a.proc) == ManagerOf(s, a.proc);
    }
    forall p
      ensures ManagerInv(t, p)
    {
      assert ManagerInv(s, p) && ManagerOf(t, p) == ManagerOf(s, p);
    }
    forall a, b
      ensures Apart(t, a, b)
    {
      assert Apart(s, a, b) && StageOf(t, a) == StageOf(s, a) && StageOf(t, b) == StageOf(s, b);
    }
  }

  lemma NextKeepsInv(s: System, ev: Event)
    requires Inv(s) && Enabled(s, ev)
    ensures Inv(Next(s, ev))
  {
    match ev
    case Backend(e) =>
      LeaseStepSound(s.lease, e);
      BackendKeepsInv(s, e);
    case Acquire(a, o, ttl) => AcquireKeepsInv(s, a, o, ttl);
    case Woken(a, o, ttl) => WokenKeepsInv(s, a, o, ttl);
    case Cancelled(a) => CancelKeepsInv(s, a);
    case Relock(a) => RelockKeepsInv(s, a);
    case UnlockBegins(a) =>
      if StageOf(s, a).Kept? {
        ReleaseLocalKeepsInv(s, a);
      } else {
        BeginUnlockKeepsInv(s, a);
      }
    case _ => ReturnKeepsInv(s, ev);
  }

  // ---------------------------------------------------------------- whole runs

  predicate Init(s: System) {
    Lease.Init(s.lease) && s.managers == map[] && s.stages == map[] && s.held == map[]
  }

  /** One step; Next is defined on states with the invariant, which RunKeepsInv
      shows no run leaves. */
  ghost predicate StepAt(run: seq<System>, events: seq<Event>, i: nat)
    requires |run| == |events| + 1 && i < |events|
  {
    Inv(run[i]) ==> Enabled(run[i], events[i]) && run[i + 1] == Next(run[i], events[i])
  }

  predicate TimelyAt(run: seq<System>, events: seq<Event>, i: nat)
    requires |run| == |events| + 1 && i < |events|
  {
    events[i].Backend? ==> Lease.Timely(run[i].lease, events[i].ev)
  }

  ghost predicate IsRun(run: seq<System>, events: seq<Event>) {
    && |run| == |events| + 1 && Init(run[0])
    && forall i :: 0 <= i < |events| ==> StepAt(run, events, i)
  }

  ghost predicate IsTimelyRun(run: seq<System>, events: seq<Event>) {
    IsRun(run, events) && forall i :: 0 <= i < |events| ==> TimelyAt(run, events, i)
  }

  lemma InitInv(s: System)
    requires Init(s)
    ensures Inv(s)
  {
    assert forall p :: ManagerOf(s, p) == LM.Empty();
    assert forall a :: StageOf(s, a) == Outside;
  }

  lemma {:induction false} RunKeepsInv(run: seq<System>, events: seq<Event>, k: nat)
    requires IsRun(run, events) && k < |run|
    ensures Inv(run[k])
  {
    if k == 0 {
      InitInv(run[0]);
    } else {
      RunKeepsInv(run, events, k - 1);
      assert StepAt(run, events, k - 1);
      NextKeepsInv(run[k - 1], events[k - 1]);
    }
  }

  /** A step outside the backend steps the lease protocol once, or not at all. */
  ghost predicate LeaseStepped(s: Lease.State, t: Lease.State) {
    t == s || exists e :: Lease.Enabled(s, e) && Lease.Timely(s, e) && t == Lease.Next(s, e)
  }

  lemma NextStepsLease(s: System, ev: Event)
    requires Inv(s) && Enabled(s, ev) && !ev.Backend?
    ensures LeaseStepped(s.lease, Next(s, ev).lease)
  {
    match ev
    case Acquire(_, o, ttl) => StepsOnce(s.lease, Lease.Start(o, ttl), Next(s, ev).lease);
    case Woken(_, o, ttl) => StepsOnce(s.lease, Lease.Start(o, ttl), Next(s, ev).lease);
    case UnlockBegins(a) =>
      if StageOf(s, a).Inside? {
        assert ActorInv(s, a);
        StepsOnce(s.lease, Lease.BeginUnlock(StageOf(s, a).session), Next(s, ev).lease);
      }
    case _ =>
  }

  lemma StepsOnce(s: Lease.State, e: Lease.Event, t: Lease.State)
    requires t == s || (Lease.Enabled(s, e) && Lease.Timely(s, e) && t == Lease.Next(s, e))
    ensures LeaseStepped(s, t)
  {
  }

  lemma {:induction false} TimelyRunKeepsSafe(run: seq<System>, events: seq<Event>, k: nat)
    requires IsTimelyRun(run, events) && k < |run|
    ensures LeaseSafety.Safe(run[k].lease) && LeaseFate.Fates(run[k].lease)
  {
    if k > 0 {
      TimelyRunKeepsSafe(run, events, k - 1);
      RunKeepsInv(run, events, k - 1);
      assert StepAt(run, events, k - 1) && TimelyAt(run, events, k - 1);
      var s, ev := run[k - 1], events[k - 1];
      if ev.Backend? {
        LeaseStepSafe(s.lease, ev.ev);
      } else {
        NextStepsLease(s, ev);
        if run[k].lease != s.lease {
          assert LeaseStepped(s.lease, run[k].lease);
          var e :| Lease.Enabled(s.lease, e) && Lease.Timely(s.lease, e) && run[k].lease == Lease.Next(s.lease, e);
          LeaseStepSafe(s.lease, e);
        }
      }
    }
  }

  lemma LeaseStepSafe(s: Lease.State, ev: Lease.Event)
    requires LeaseSafety.Safe(s) && LeaseFate.Fates(s) && Lease.Enabled(s, ev) && Lease.Timely(s, ev)
    ensures LeaseSafety.Safe(Lease.Next(s, ev)) && LeaseFate.Fates(Lease.Next(s, ev))
  {
    LeaseFate.StepKeepsFates(s, ev);
    if ev.Land? {
      LeaseSafety.LandKeepsLeases(s, ev.request, ev.reply);
    } else {
      LeaseSafety.SessionStepKeepsLeases(s, ev);
    }
  }

  /** The handle's Lock has returned, its Unlock has not begun, and the last
      deadline acknowledged to its session has not passed. */
  predicate Holds(s: System, a: Actor) {
    StageOf(s, a).Inside? && LeaseSafety.Live(s.lease, StageOf(s, a).session)
  }

  /** At most one handle of all processes holds the path. */
  lemma OneHolderOverall(run: seq<System>, events: seq<Event>, k: nat, a: Actor, b: Actor)
    requires IsTimelyRun(run, events) && k < |run| && Holds(run[k], a) && Holds(run[k], b)
    ensures a == b
    ensures LeaseSafety.Owns(run[k].lease, StageOf(run[k], a).session, run[k].lease.sessions[StageOf(run[k], a).session].phase.lease)
  {
    RunKeepsInv(run, events, k);
    TimelyRunKeepsSafe(run, events, k);
    var s := run[k];
    assert LeaseSafety.SessionLease(s.lease, StageOf(s, a).session);
    assert LeaseSafety.SessionLease(s.lease, StageOf(s, b).session);
    assert Apart(s, a, b);
  }

  /** Within one process no two handles are in backend calls or hold the backend
      lock at once: the Locker contract. */
  lemma BackendCallsNeverOverlap(run: seq<System>, events: seq<Event>, k: nat, a: Actor, b: Actor)
    requires IsRun(run, events) && k < |run| && a.proc == b.proc
    requires SessionOf(StageOf(run[k], a)).Some? && SessionOf(StageOf(run[k], b)).Some?
    ensures a == b
  {
    RunKeepsInv(run, events, k);
    assert ActorInv(run[k], a) && ActorInv(run[k], b);
  }

  /** When a handle that got the lock begins to unlock, the hold S3Locker finds
      under the name is that handle's own session. */
  lemma UnlockFindsOwnSession(run: seq<System>, events: seq<Event>, k: nat, a: Actor)
    requires IsRun(run, events) && k < |run| && StageOf(run[k], a).Inside?
    ensures a.proc in run[k].held && run[k].held[a.proc] == StageOf(run[k], a).session
  {
    RunKeepsInv(run, events, k);
    assert ActorInv(run[k], a);
  }

  /** The handle's Unlock succeeds in step ev: the backend's did, or an earlier one
      failed and the backend has no hold to release any more. */
  predicate Unlocks(s: System, ev: Event, a: Actor) {
    || (ev.UnlockReturns? && ev.a == a && !ev.failed && StageOf(s, a).Unlocking?)
    || (ev == UnlockBegins(a) && StageOf(s, a).Kept?)
  }

  /** In every run, a successful Unlock that is not the retry of a failed one means
      that the lock object has left the store; and a successful one sends nothing
      itself. */
  lemma UnlockMeans(run: seq<System>, events: seq<Event>, k: nat, a: Actor)
    requires IsRun(run, events) && k < |events| && Unlocks(run[k], events[k], a)
    ensures run[k + 1].lease == run[k].lease && StageOf(run[k + 1], a).Outside?
    ensures StageOf(run[k], a).Unlocking? ==> StageOf(run[k], a).session in run[k].lease.past
  {
    RunKeepsInv(run, events, k);
    assert StepAt(run, events, k);
  }

  /** In timely runs it means so if and only if it is not the retry of one that
      failed with its delete not landed and nobody having taken over since. */
  lemma UnlockMeansExactly(run: seq<System>, events: seq<Event>, k: nat, a: Actor)
    requires IsTimelyRun(run, events) && k < |events| && Unlocks(run[k], events[k], a)
    ensures var s, o := run[k], StageOf(run[k], a).session;
            o in s.lease.past <==> !(StageOf(s, a).Kept? && !LeaseFate.HasLeft(s.lease, o))
  {
    UnlockMeans(run, events, k, a);
    TimelyRunKeepsSafe(run, events, k);
    LeaseFate.PastMeansLeft(run[k].lease, StageOf(run[k], a).session);
  }

  /** A second Lock by the owning handle returns success without asking the
      backend.  It is backed by a recorded backend hold exactly when the handle
      is Inside: after a failed Unlock the same call succeeds with none. */
  lemma SecondLockIsBacked(run: seq<System>, events: seq<Event>, k: nat, a: Actor)
    requires IsRun(run, events) && k < |run| && Enabled(run[k], Relock(a))
    ensures Inv(run[k])
    ensures Next(run[k], Relock(a)).lease == run[k].lease && Next(run[k], Relock(a)).held == run[k].held
    ensures a.proc in run[k].held <==> StageOf(run[k], a).Inside?
  {
    RunKeepsInv(run, events, k);
    assert ActorInv(run[k], a);
  }

  // ------------------------------------------------- a retry that frees nothing

  ghost predicate Reachable(s: System) {
    exists run, events :: IsTimelyRun(run, events) && run[|events|] == s
  }

  lemma Go(s: System, ev: Event)
    requires Reachable(s) && Inv(s) && Enabled(s, ev) && (ev.Backend? ==> Lease.Timely(s.lease, ev.ev))
    ensures Inv(Next(s, ev)) && Reachable(Next(s, ev))
  {
    hide Inv, Init, Next;
    NextKeepsInv(s, ev);
    var run, events :| IsTimelyRun(run, events) && run[|events|] == s;
    var run', events' := run + [Next(s, ev)], events + [ev];
    forall i | 0 <= i < |events'|
      ensures StepAt(run', events', i) && TimelyAt(run', events', i)
    {
      if i < |events| {
        assert StepAt(run, events, i) && TimelyAt(run, events, i);
      }
    }
    assert IsTimelyRun(run', events') && run'[|events'|] == Next(s, ev);
  }

  /** A step inside the backend, to a known lease state. */
  lemma GoBackend(s: System, ev: Lease.Event, lease: Lease.State) returns (t: System)
    requires Reachable(s) && Inv(s) && Enabled(s, Backend(ev)) && Lease.Timely(s.lease, ev)
    requires Lease.Next(s.lease, ev) == lease
    ensures t == s.(lease := lease) && Inv(t) && Reachable(t)
  {
    Go(s, Backend(ev));
    t := Next(s, Backend(ev));
  }

  /** The lease states of the run: `o` created its lock at time t. */
  function Asked(t: nat, o: string, ttl: nat, phase: Lease.Phase): Lease.State {
    Lease.State(t, None, [Lease.Create(o, Lease.Unix(t + ttl))], map[], map[o := Lease.Session(ttl, phase)], {})
  }

  function Stored(t: nat, o: string, ttl: nat, phase: Lease.Phase): Lease.State {
    Asked(t, o, ttl, phase).(store := Some(Lease.LeaseObject(o, Lease.Unix(t + ttl))), replies := map[0 := Lease.Written])
  }

  /** `o` enters the backend of a stack where nothing has happened. */
  lemma Enters(t: nat, ttl: nat, path: string, o: string, a: Actor) returns (s: System)
    requires OneLine(o)
    ensures Reachable(s) && Inv(s) && StageOf(s, a) == Locking(o)
    ensures s.lease == Lease.State(t, None, [], map[], map[o := Lease.Session(ttl, Lease.Polling)], {})
  {
    s := System(path, Lease.State(t, None, [], map[], map[], {}), map[], map[], map[]);
    var none: seq<Event> := [];
    assert IsTimelyRun([s], none) && [s][|none|] == s;
    InitInv(s);
    assert ManagerOf(s, a.proc) == LM.Empty();
    TurnByHandle(LM.Empty(), a.handle, path);
    Go(s, Acquire(a, o, ttl));
    s := Next(s, Acquire(a, o, ttl));
  }

  lemma Returns(s: System, a: Actor, o: string) returns (z: System)
    requires Reachable(s) && Inv(s) && StageOf(s, a) == Locking(o) && Ended(s, o, Locked)
    ensures Reachable(z) && Inv(z) && StageOf(z, a) == Inside(o) && z.lease == s.lease
  {
    Go(s, LockReturns(a));
    z := Next(s, LockReturns(a));
  }

  lemma BeginsToUnlock(s: System, a: Actor, o: string) returns (z: System)
    requires Reachable(s) && Inv(s) && StageOf(s, a) == Inside(o) && Ended(s, o, Locked)
    ensures Reachable(z) && Inv(z) && StageOf(z, a) == Unlocking(o)
    ensures z.lease == Lease.Next(s.lease, Lease.BeginUnlock(o))
  {
    Go(s, UnlockBegins(a));
    z := Next(s, UnlockBegins(a));
  }

  lemma Fails(s: System, a: Actor, o: string) returns (z: System)
    requires Reachable(s) && Inv(s) && StageOf(s, a) == Unlocking(o) && Ended(s, o, Failed)
    ensures Reachable(z) && Inv(z) && StageOf(z, a) == Kept(o) && z.lease == s.lease
  {
    Go(s, UnlockReturns(a, true, false));
    z := Next(s, UnlockReturns(a, true, false));
  }

  /** `o` locks: from nothing to Inside. */
  lemma Locks(t: nat, ttl: nat, path: string, o: string, a: Actor) returns (s: System)
    requires OneLine(o)
    ensures Reachable(s) && Inv(s) && StageOf(s, a) == Inside(o)
    ensures s.lease == Stored(t, o, ttl, Lease.Holding(Lease.Unix(t + ttl), Lease.Ticking))
  {
    hide Inv, Reachable;
    s := Enters(t, ttl, path, o, a);
    s := GoBackend(s, Lease.SendCreate(o), Asked(t, o, ttl, Lease.Creating(0)));
    s := GoBackend(s, Lease.Land(0, Lease.Written), Stored(t, o, ttl, Lease.Creating(0)));
    s := GoBackend(s, Lease.Receive(o), Stored(t, o, ttl, Lease.Holding(Lease.Unix(t + ttl), Lease.Ticking)));
    s := Returns(s, a, o);
  }

  /** Its Unlock fails before anything was deleted. */
  lemma FailsToUnlock(s: System, t: nat, ttl: nat, o: string, a: Actor) returns (z: System)
    requires Reachable(s) && Inv(s) && StageOf(s, a) == Inside(o)
    requires s.lease == Stored(t, o, ttl, Lease.Holding(Lease.Unix(t + ttl), Lease.Ticking))
    ensures Reachable(z) && Inv(z) && StageOf(z, a) == Kept(o)
    ensures z.lease.store == s.lease.store && z.lease.past == {} && z.lease.now == t
  {
    hide Inv, Reachable;
    var e := Lease.Unix(t + ttl);
    z := BeginsToUnlock(s, a, o);
    assert z.lease == Stored(t, o, ttl, Lease.Stopping(e, Lease.Ticking));
    z := ChecksInVain(z, t, ttl, o, a);
    z := Fails(z, a, o);
  }

  /** Its HeadObject fails. */
  lemma ChecksInVain(s: System, t: nat, ttl: nat, o: string, a: Actor) returns (z: System)
    requires Reachable(s) && Inv(s) && s.lease == Stored(t, o, ttl, Lease.Stopping(Lease.Unix(t + ttl), Lease.Ticking))
    ensures Reachable(z) && Inv(z) && StageOf(z, a) == StageOf(s, a) && Ended(z, o, Failed)
    ensures z.lease.store == s.lease.store && z.lease.past == {} && z.lease.now == t
  {
    hide Inv, Reachable;
    var e := Lease.Unix(t + ttl);
    var asked := Stored(t, o, ttl, Lease.Checking(1)).(requests := [Lease.Create(o, e), Lease.Inspect(o)]);
    z := GoBackend(s, Lease.SendCheck(o), asked);
    z := GoBackend(z, Lease.GiveUp(o), asked.(sessions := map[o := Lease.Session(ttl, Lease.Over)]));
  }

  /** The caller's retry then succeeds without a request, and the unexpired lock
      object stays: everybody else waits for its lease to run out. */
  lemma RetriedUnlockFreesNothing(t: nat, ttl: nat, path: string, o: string, a: Actor) returns (s: System)
    requires OneLine(o)
    ensures Reachable(s) && Inv(s) && StageOf(s, a) == Kept(o)
    ensures Enabled(s, UnlockBegins(a)) && Unlocks(s, UnlockBegins(a), a)
    ensures var z := Next(s, UnlockBegins(a));
            && Reachable(z) && StageOf(z, a).Outside? && z.lease == s.lease && o !in z.lease.past
            && z.lease.store == Some(Lease.LeaseObject(o, Lease.Unix(t + ttl)))
            && Lease.Unexpired(z.lease.store.value, z.lease.now)
  {
    s := Locks(t, ttl, path, o, a);
    s := FailsToUnlock(s, t, ttl, o, a);
    Go(s, UnlockBegins(a));
    ParseFormat(Lease.Unix(t + ttl));
    LeaseSafety.UnixMonotone(t, t + ttl);
  }
}
