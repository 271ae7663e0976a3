/** Why lease safety assumes timely deletes: Unlock deletes without a condition,
    so a delete that arrives after the lease it saw has expired can remove a lock
    that someone else legitimately took over. */
module LeaseNecessity {
  import opened Common
  import opened LeaseText
  import opened Lease
  import opened LeaseSafety

  /** A delete, of a lock seen as `seen`, that reached the store at `time`. */
  datatype Lateness = OnTime | Late(seen: LockObject, time: nat)

  /** Step k is the delete described by `l`. */
  predicate IsLateDelete(run: seq<State>, events: seq<Event>, k: nat, l: Lateness)
    requires |run| == |events| + 1 && k < |events|
  {
    && l.Late? && run[k].now == l.time
    && events[k].Land? && events[k].request < |run[k].requests|
    && run[k].requests[events[k].request] == Remove(l.seen.owner, l.seen)
  }

  predicate TimelyOrLate(run: seq<State>, events: seq<Event>, i: nat, l: Lateness)
    requires |run| == |events| + 1 && i < |events|
  {
    TimelyAt(run, events, i) || IsLateDelete(run, events, i, l)
  }

  /** A run to s in which every step is timely, except the one delete `l` names. */
  ghost predicate RunTo(run: seq<State>, events: seq<Event>, s: State, l: Lateness) {
    && IsRun(run, events) && run[|events|] == s
    && (l.Late? ==> exists k :: 0 <= k < |events| && IsLateDelete(run, events, k, l))
    && forall i :: 0 <= i < |events| ==> TimelyOrLate(run, events, i, l)
  }

  ghost predicate Reachable(s: State, l: Lateness) {
    exists run, events :: RunTo(run, events, s, l)
  }

  lemma LateDeleteStays(run: seq<State>, events: seq<Event>, ev: Event, t: State, l: Lateness, k: nat)
    requires |run| == |events| + 1 && k < |events|
    ensures IsLateDelete(run, events, k, l) ==> IsLateDelete(run + [t], events + [ev], k, l)
    ensures TimelyAt(run, events, k) ==> TimelyAt(run + [t], events + [ev], k)
  {
  }

  lemma Go(s: State, ev: Event, t: State, l: Lateness)
    requires Reachable(s, l) && Stepped(s, ev, t) && Timely(s, ev)
    ensures Reachable(t, l)
  {
    var run, events :| RunTo(run, events, s, l);
    RunExtends(run, events, s, ev, t);
    var run', events' := run + [t], events + [ev];
    if l.Late? {
      var k :| 0 <= k < |events| && IsLateDelete(run, events, k, l);
      LateDeleteStays(run, events, ev, t, l, k);
    }
    forall i | 0 <= i < |events'|
      ensures TimelyOrLate(run', events', i, l)
    {
      if i < |events| {
        assert TimelyOrLate(run, events, i, l);
        LateDeleteStays(run, events, ev, t, l, i);
      } else {
        assert TimelyAt(run', events', i);
      }
    }
    assert RunTo(run', events', t, l);
  }

  lemma GoLate(s: State, i: nat, t: State)
    requires Reachable(s, OnTime) && i < |s.requests| && s.requests[i].Remove?
    requires s.requests[i].owner == s.requests[i].seen.owner && Stepped(s, Land(i, Removed), t)
    ensures Reachable(t, Late(s.requests[i].seen, s.now))
  {
    var ev, l := Land(i, Removed), Late(s.requests[i].seen, s.now);
    var run, events :| RunTo(run, events, s, OnTime);
    RunExtends(run, events, s, ev, t);
    var run', events' := run + [t], events + [ev];
    assert IsLateDelete(run', events', |events|, l);
    forall j | 0 <= j < |events'|
      ensures TimelyOrLate(run', events', j, l)
    {
      if j < |events| {
        assert TimelyOrLate(run, events, j, OnTime);
        LateDeleteStays(run, events, ev, t, l, j);
      }
    }
    assert RunTo(run', events', t, l);
  }

  // ------------------------------------------------ what a session can always do

  function Moved(s: State, o: Owner, ttl: nat, p: Phase): State {
    s.(sessions := s.sessions[o := Session(ttl, p)])
  }

  function Asked(s: State, r: Request): State {
    s.(requests := s.requests + [r])
  }

  function Replied(s: State, i: nat, reply: Reply): State {
    s.(replies := s.replies[i := reply])
  }

  function IdleState(now: nat): State {
    State(now, None, [], map[], map[], {})
  }

  lemma AsksToCreate(s: State, o: Owner, ttl: nat, l: Lateness)
    requires Reachable(s, l) && Fresh(s, o)
    ensures Reachable(Moved(Asked(s, Create(o, Unix(s.now + ttl))), o, ttl, Creating(|s.requests|)), l)
  {
    var t := Moved(s, o, ttl, Polling);
    Go(s, Start(o, ttl), t, l);
    Go(t, SendCreate(o), Moved(Asked(s, Create(o, Unix(s.now + ttl))), o, ttl, Creating(|s.requests|)), l);
  }

  /** The state after o created the lock. */
  function Created(s: State, o: Owner, ttl: nat): State {
    var e := Unix(s.now + ttl);
    Moved(Replied(Asked(s, Create(o, e)), |s.requests|, Written), o, ttl, Holding(e, Ticking))
    .(store := Some(LeaseObject(o, e)))
  }

  lemma Creates(s: State, o: Owner, ttl: nat, l: Lateness)
    requires Reachable(s, l) && Fresh(s, o) && s.store.None? && |s.requests| !in s.replies
    ensures Reachable(Created(s, o, ttl), l)
  {
    var e, n := Unix(s.now + ttl), |s.requests|;
    AsksToCreate(s, o, ttl, l);
    var t := Moved(Asked(s, Create(o, e)), o, ttl, Creating(n));
    var u := Replied(t, n, Written).(store := Some(LeaseObject(o, e)));
    Go(t, Land(n, Written), u, l);
    Go(u, Receive(o), Created(s, o, ttl), l);
  }

  /** The state after Unlock stopped the heartbeat and asked to see the lock. */
  function Reviewing(s: State, o: Owner, ttl: nat): State {
    Moved(Asked(s, Inspect(o)), o, ttl, Checking(|s.requests|))
  }

  lemma Reviews(s: State, o: Owner, ttl: nat, lease: nat, l: Lateness)
    requires Reachable(s, l) && o in s.sessions && s.sessions[o] == Session(ttl, Holding(lease, Ticking))
    ensures Reachable(Reviewing(s, o, ttl), l)
  {
    var t := Moved(s, o, ttl, Stopping(lease, Ticking));
    Go(s, BeginUnlock(o), t, l);
    Go(t, SendCheck(o), Reviewing(s, o, ttl), l);
  }

  /** The state after Unlock, checking through request i, asked for the delete. */
  function Deleting(s: State, o: Owner, ttl: nat, i: nat, mine: LockObject): State {
    Moved(Replied(Asked(s, Remove(o, mine)), i, Found(mine)), o, ttl, Removing(|s.requests|))
  }

  lemma Deletes(s: State, o: Owner, ttl: nat, i: nat, mine: LockObject, l: Lateness)
    requires Reachable(s, l) && o in s.sessions && s.sessions[o] == Session(ttl, Checking(i))
    requires i < |s.requests| && i !in s.replies && s.requests[i] == Inspect(o)
    requires s.store == Some(mine) && mine.owner == o
    ensures Reachable(Deleting(s, o, ttl, i, mine), l)
  {
    Go(s, Land(i, Found(mine)), Replied(s, i, Found(mine)), l);
    Go(Replied(s, i, Found(mine)), Receive(o), Deleting(s, o, ttl, i, mine), l);
  }

  /** The state after o asked to create the lock, was refused, and asked to see it. */
  function Looking(s: State, o: Owner, ttl: nat): State {
    var n := |s.requests|;
    Moved(Replied(s.(requests := s.requests + [Create(o, Unix(s.now + ttl)), Inspect(o)]), n, PreconditionFailed),
          o, ttl, Inspecting(n + 1))
  }

  lemma Looks(s: State, o: Owner, ttl: nat, l: Lateness)
    requires Reachable(s, l) && Fresh(s, o) && s.store.Some? && |s.requests| !in s.replies
    ensures Reachable(Looking(s, o, ttl), l)
  {
    var e, n := Unix(s.now + ttl), |s.requests|;
    AsksToCreate(s, o, ttl, l);
    var t := Moved(Asked(s, Create(o, e)), o, ttl, Creating(n));
    Go(t, Land(n, PreconditionFailed), Replied(t, n, PreconditionFailed), l);
    assert s.requests + [Create(o, e)] + [Inspect(o)] == s.requests + [Create(o, e), Inspect(o)];
    Go(Replied(t, n, PreconditionFailed), Receive(o), Looking(s, o, ttl), l);
  }

  /** The state after o, inspecting through request i, found an expired lock and
      asked to take it over. */
  function Seizing(s: State, o: Owner, ttl: nat, i: nat, seen: LockObject): State {
    Moved(Replied(Asked(s, TakeOver(o, Unix(s.now + ttl), seen)), i, Found(seen)), o, ttl, TakingOver(|s.requests|))
  }

  lemma Seizes(s: State, o: Owner, ttl: nat, i: nat, seen: LockObject, l: Lateness)
    requires Reachable(s, l) && o in s.sessions && s.sessions[o] == Session(ttl, Inspecting(i))
    requires i < |s.requests| && i !in s.replies && s.requests[i] == Inspect(o)
    requires s.store == Some(seen) && !Unexpired(seen, s.now)
    ensures Reachable(Seizing(s, o, ttl, i, seen), l)
  {
    Go(s, Land(i, Found(seen)), Replied(s, i, Found(seen)), l);
    Go(Replied(s, i, Found(seen)), Receive(o), Seizing(s, o, ttl, i, seen), l);
  }

  /** The state after the takeover succeeded. */
  function Seized(s: State, o: Owner, ttl: nat, i: nat, e: nat): State
    requires s.store.Some?
  {
    Moved(Replied(s, i, Written), o, ttl, Holding(e, Ticking))
    .(store := Some(LeaseObject(o, e)), past := s.past + {s.store.value.owner})
  }

  lemma TakesOver(s: State, o: Owner, ttl: nat, i: nat, e: nat, seen: LockObject, l: Lateness)
    requires Reachable(s, l) && o in s.sessions && s.sessions[o] == Session(ttl, TakingOver(i))
    requires i < |s.requests| && i !in s.replies && s.requests[i] == TakeOver(o, e, seen)
    requires s.store == Some(seen) && seen.owner != o
    ensures Reachable(Seized(s, o, ttl, i, e), l)
  {
    var t := Replied(s, i, Written).(store := Some(LeaseObject(o, e)), past := s.past + {seen.owner});
    Go(s, Land(i, Written), t, l);
    Go(t, Receive(o), Seized(s, o, ttl, i, e), l);
  }

  // ------------------------------------------------------------- the bad run

  /** `a` locked at t0 and its delete is in flight; the clock reads `late`. */
  function DeleteInFlight(t0: nat, ttl: nat, late: nat): State {
    var s := Reviewing(Created(IdleState(t0), "a", ttl), "a", ttl);
    Deleting(s, "a", ttl, 1, LeaseObject("a", Unix(t0 + ttl))).(now := late)
  }

  lemma ADeletes(t0: nat, ttl: nat, late: nat)
    requires t0 <= late
    ensures Reachable(DeleteInFlight(t0, ttl, late), OnTime)
  {
    var s := IdleState(t0);
    assert RunTo([s], [], s, OnTime);
    Creates(s, "a", ttl, OnTime);
    Reviews(Created(s, "a", ttl), "a", ttl, Unix(t0 + ttl), OnTime);
    Deletes(Reviewing(Created(s, "a", ttl), "a", ttl), "a", ttl, 1, LeaseObject("a", Unix(t0 + ttl)), OnTime);
    Go(DeleteInFlight(t0, ttl, t0), Tick(late), DeleteInFlight(t0, ttl, late), OnTime);
  }

  /** `b` has asked to take the expired lock over. */
  function BSeizes(t0: nat, ttl: nat, late: nat): State {
    var s := Looking(DeleteInFlight(t0, ttl, late), "b", ttl);
    Seizing(s, "b", ttl, 4, LeaseObject("a", Unix(t0 + ttl)))
  }

  lemma BSeesExpired(t0: nat, ttl: nat, late: nat)
    requires Unix(t0 + ttl) < Unix(late)
    ensures Reachable(BSeizes(t0, ttl, late), OnTime)
  {
    var mine := LeaseObject("a", Unix(t0 + ttl));
    assert t0 <= late by {
      assert t0 + ttl < late;
    }
    ADeletes(t0, ttl, late);
    Looks(DeleteInFlight(t0, ttl, late), "b", ttl, OnTime);
    assert !Unexpired(mine, late) by { ParseFormat(Unix(t0 + ttl)); }
    Seizes(Looking(DeleteInFlight(t0, ttl, late), "b", ttl), "b", ttl, 4, mine, OnTime);
  }

  /** `b` took over the expired lock while the delete of `a` is in flight. */
  function BHolds(t0: nat, ttl: nat, late: nat): State {
    Seized(BSeizes(t0, ttl, late), "b", ttl, 5, Unix(late + ttl))
  }

  lemma BTakesOver(t0: nat, ttl: nat, late: nat)
    requires Unix(t0 + ttl) < Unix(late)
    ensures Reachable(BHolds(t0, ttl, late), OnTime)
  {
    BSeesExpired(t0, ttl, late);
    TakesOver(BSeizes(t0, ttl, late), "b", ttl, 5, Unix(late + ttl), LeaseObject("a", Unix(t0 + ttl)), OnTime);
  }

  /** The late delete removes the lock of `b`. */
  function BRobbed(t0: nat, ttl: nat, late: nat): State {
    var s := BHolds(t0, ttl, late);
    Replied(s, 2, Removed).(store := None, past := s.past + {"b"})
  }

  lemma DeleteLands(t0: nat, ttl: nat, late: nat)
    requires Unix(t0 + ttl) < Unix(late)
    ensures Reachable(BRobbed(t0, ttl, late), Late(LeaseObject("a", Unix(t0 + ttl)), late))
  {
    BTakesOver(t0, ttl, late);
    GoLate(BHolds(t0, ttl, late), 2, BRobbed(t0, ttl, late));
  }

  /** For every lease length and every landing time past the deadline Unlock saw,
      there is a run whose only untimely step is that one delete and which ends
      with two live sessions. */
  lemma LateDeleteBreaksExclusion(t0: nat, ttl: nat, late: nat) returns (s: State)
    requires Unix(t0 + ttl) < Unix(late)
    ensures Reachable(s, Late(LeaseObject("a", Unix(t0 + ttl)), late))
    ensures Live(s, "b") && Live(s, "c")
  {
    DeleteLands(t0, ttl, late);
    UnixMonotone(late, late + ttl);
    Creates(BRobbed(t0, ttl, late), "c", ttl, Late(LeaseObject("a", Unix(t0 + ttl)), late));
    s := Created(BRobbed(t0, ttl, late), "c", ttl);
  }
}
