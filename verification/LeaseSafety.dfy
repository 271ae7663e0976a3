/** Mutual exclusion and single tenure of the lease protocol, over whole runs. */
module LeaseSafety {
  import opened Common
  import opened LeaseText
  import opened Lease

  /** The store holds o's object with a deadline no earlier than e. */
  predicate Owns(s: State, o: Owner, e: int) {
    && s.store.Some? && s.store.value.owner == o
    && var stored := ParseInt(s.store.value.expiry);
    && stored.Some? && e <= stored.value
  }

  /** A deadline acknowledged to o is backed by the store until it passes. */
  predicate Claim(s: State, o: Owner, e: nat) {
    e < Unix(s.now) || Owns(s, o, e)
  }

  /** The same for a lock object that o read back. */
  predicate SeenClaim(s: State, o: Owner, seen: LockObject) {
    Unexpired(seen, s.now) ==> Owns(s, o, ParseInt(seen.expiry).value)
  }

  /** Deadlines only move forward, and a takeover is of an expired lease. */
  predicate RequestDated(s: State, i: nat)
    requires i < |s.requests|
  {
    var r := s.requests[i];
    && r.owner in s.sessions
    && match r
       case Create(o, e) => e <= Deadline(s, o)
       case TakeOver(o, e, target) => e <= Deadline(s, o) && !Unexpired(target, s.now)
       case Renew(o, e, target) =>
         && e <= Deadline(s, o)
         && var prior := ParseInt(target.expiry);
         && prior.Some? && prior.value <= e
       case _ => true
  }

  predicate SessionDated(s: State, o: Owner)
    requires o in s.sessions
  {
    var p := s.sessions[o].phase;
    p.Holding? || p.Stopping? ==> p.lease <= Deadline(s, o)
  }

  ghost predicate Dated(s: State) {
    && (forall i :: 0 <= i < |s.requests| ==> RequestDated(s, i))
    && (forall o :: o in s.sessions ==> SessionDated(s, o))
  }

  predicate RequestLease(s: State, i: nat)
    requires i < |s.requests|
  {
    var r := s.requests[i];
    && RequestDated(s, i)
    && var p := s.sessions[r.owner].phase;
    && (r.Remove? ==>
          (p.Removing? || p.Released? || p.Over?) && (InFlight(s, i) ==> SeenClaim(s, r.owner, r.seen)))
  }

  predicate WriteClaim(s: State, o: Owner, i: nat) {
    && i < |s.requests| && !s.requests[i].Inspect? && !s.requests[i].Remove?
    && (WriteAcknowledged(s, i) ==> Claim(s, o, s.requests[i].expiry))
  }

  predicate HoldClaim(s: State, o: Owner, lease: nat, b: Beat)
    requires o in s.sessions
  {
    && lease <= Deadline(s, o) && Claim(s, o, lease)
    && (b.Renewing? ==> WriteClaim(s, o, b.request))
  }

  predicate SessionLease(s: State, o: Owner)
    requires o in s.sessions
  {
    match s.sessions[o].phase
    case Creating(i) => WriteClaim(s, o, i)
    case TakingOver(i) => WriteClaim(s, o, i)
    case Holding(lease, b) => HoldClaim(s, o, lease, b)
    case Stopping(lease, b) => HoldClaim(s, o, lease, b)
    case Checking(i) =>
      (i in s.replies && s.replies[i].Found? && s.replies[i].lock.owner == o)
      ==> SeenClaim(s, o, s.replies[i].lock)
    case _ => true
  }

  ghost predicate OneRemoveEach(s: State) {
    forall i, j :: 0 <= i < j < |s.requests| && s.requests[i].Remove? && s.requests[j].Remove?
      ==> s.requests[i].owner != s.requests[j].owner
  }

  ghost predicate Leases(s: State)
    requires Shape(s)
  {
    && (forall i :: 0 <= i < |s.requests| ==> RequestLease(s, i))
    && (forall o :: o in s.sessions ==> SessionLease(s, o))
    && OneRemoveEach(s)
  }

  ghost predicate Safe(s: State) {
    Shape(s) && Leases(s)
  }

  lemma UnixMonotone(a: nat, b: nat)
    requires a <= b
    ensures Unix(a) <= Unix(b)
  {
  }

  // ------------------------------------------------ requests reaching the store

  /** The objects a timely request replaces or removes belong to its own session
      or carry a passed deadline; so a live claim of anyone else survives it. */
  lemma LandSparesOthers(s: State, i: nat, reply: Reply, o: Owner, e: int)
    requires Safe(s) && Enabled(s, Land(i, reply)) && Timely(s, Land(i, reply))
    requires Owns(s, o, e) && Unix(s.now) <= e && s.requests[i].owner != o
    ensures Owns(Next(s, Land(i, reply)), o, e)
  {
    var r := s.requests[i];
    assert RequestShape(s, i) && RequestLease(s, i);
    if (r.TakeOver? || r.Renew?) && Matches(s.store, r.target) {
      MatchIsSame(s, r.target);
    }
  }

  /** A session's own writes never shorten its lease. */
  lemma LandKeepsOwn(s: State, i: nat, reply: Reply, o: Owner, e: int)
    requires Safe(s) && Enabled(s, Land(i, reply)) && !s.requests[i].Remove?
    requires Owns(s, o, e) && s.requests[i].owner == o
    ensures Owns(Next(s, Land(i, reply)), o, e)
  {
    var r := s.requests[i];
    assert RequestShape(s, i) && RequestLease(s, i);
    if r.Renew? && Matches(s.store, r.target) {
      MatchIsSame(s, r.target);
      ParseFormat(r.expiry);
    }
  }

  lemma LandKeepsClaim(s: State, i: nat, reply: Reply, o: Owner, e: int)
    requires Safe(s) && Enabled(s, Land(i, reply)) && Timely(s, Land(i, reply))
    requires Owns(s, o, e) && Unix(s.now) <= e
    requires !(s.requests[i].Remove? && s.requests[i].owner == o)
    ensures Owns(Next(s, Land(i, reply)), o, e)
  {
    if s.requests[i].owner == o {
      LandKeepsOwn(s, i, reply, o, e);
    } else {
      LandSparesOthers(s, i, reply, o, e);
    }
  }

  lemma LandMakesClaim(s: State, i: nat, reply: Reply)
    requires Shape(s) && Enabled(s, Land(i, reply)) && reply == Written
    ensures Owns(Next(s, Land(i, reply)), s.requests[i].owner, s.requests[i].expiry)
  {
    ParseFormat(s.requests[i].expiry);
  }

  lemma WriteClaimAfterLand(s: State, i: nat, reply: Reply, o: Owner, j: nat)
    requires Safe(s) && Enabled(s, Land(i, reply)) && Timely(s, Land(i, reply))
    requires WriteClaim(s, o, j) && s.requests[j].owner == o
    requires !(s.requests[i].Remove? && s.requests[i].owner == o)
    ensures WriteClaim(Next(s, Land(i, reply)), o, j)
  {
    if j == i {
      if reply == Written {
        LandMakesClaim(s, i, reply);
      }
    } else if WriteAcknowledged(s, j) && Unix(s.now) <= s.requests[j].expiry {
      LandKeepsClaim(s, i, reply, o, s.requests[j].expiry);
    }
  }

  lemma RequestLeaseAfterLand(s: State, i: nat, reply: Reply, j: nat)
    requires Safe(s) && Enabled(s, Land(i, reply)) && Timely(s, Land(i, reply)) && j < |s.requests|
    ensures RequestLease(Next(s, Land(i, reply)), j)
  {
    assert RequestShape(s, j) && RequestLease(s, j);
    var r := s.requests[j];
    if r.Remove? && j != i && InFlight(s, j) && Unexpired(r.seen, s.now) {
      LandKeepsClaim(s, i, reply, r.owner, ParseInt(r.seen.expiry).value);
    }
  }

  lemma SessionLeaseAfterLand(s: State, i: nat, reply: Reply, o: Owner)
    requires Safe(s) && Enabled(s, Land(i, reply)) && Timely(s, Land(i, reply)) && o in s.sessions
    ensures SessionLease(Next(s, Land(i, reply)), o)
  {
    assert SessionShape(s, o) && SessionLease(s, o) && RequestLease(s, i);
    var p := s.sessions[o].phase;
    if p.Creating? || p.TakingOver? {
      WriteClaimAfterLand(s, i, reply, o, p.request);
    } else if p.Holding? || p.Stopping? {
      if Unix(s.now) <= p.lease {
        LandKeepsClaim(s, i, reply, o, p.lease);
      }
      if p.beat.Renewing? {
        WriteClaimAfterLand(s, i, reply, o, p.beat.request);
      }
    } else if p.Checking? && p.request in s.replies && s.replies[p.request].Found?
              && s.replies[p.request].lock.owner == o && Unexpired(s.replies[p.request].lock, s.now) {
      LandKeepsClaim(s, i, reply, o, ParseInt(s.replies[p.request].lock.expiry).value);
    }
  }

  lemma LandKeepsLeases(s: State, i: nat, reply: Reply)
    requires Safe(s) && Enabled(s, Land(i, reply)) && Timely(s, Land(i, reply))
    ensures Safe(Next(s, Land(i, reply)))
  {
    LandKeepsShape(s, i, reply);
    var t := Next(s, Land(i, reply));
    forall j | 0 <= j < |t.requests|
      ensures RequestLease(t, j)
    {
      RequestLeaseAfterLand(s, i, reply, j);
    }
    forall o | o in t.sessions
      ensures SessionLease(t, o)
    {
      SessionLeaseAfterLand(s, i, reply, o);
    }
    assert OneRemoveEach(s) && t.requests == s.requests;
  }

  // ------------------------------------------------------------- session steps

  /** Session steps leave the store alone and only move time forward. */
  lemma StepFrame(s: State, ev: Event)
    requires Enabled(s, ev) && !ev.Land?
    ensures var t := Next(s, ev);
            && t.store == s.store && t.replies == s.replies && s.requests <= t.requests
            && s.now <= t.now && Unix(s.now) <= Unix(t.now)
            && |t.requests| <= |s.requests| + 1
            && forall o :: o in s.sessions && (ev.Tick? || ev.owner != o) ==> o in t.sessions && t.sessions[o] == s.sessions[o]
  {
  }

  lemma DeadlineGrows(s: State, ev: Event, o: Owner)
    requires Enabled(s, ev) && !ev.Land? && o in s.sessions
    ensures var t := Next(s, ev);
            o in t.sessions && t.sessions[o].ttl == s.sessions[o].ttl && Deadline(s, o) <= Deadline(t, o)
  {
    UnixMonotone(s.now + s.sessions[o].ttl, Next(s, ev).now + s.sessions[o].ttl);
  }

  lemma OldRequestLease(s: State, ev: Event, j: nat)
    requires Safe(s) && Enabled(s, ev) && !ev.Land? && j < |s.requests|
    ensures j < |Next(s, ev).requests| && RequestLease(Next(s, ev), j)
  {
    assert RequestLease(s, j);
    StepFrame(s, ev);
    var o := s.requests[j].owner;
    DeadlineGrows(s, ev, o);
    if s.requests[j].Remove? && !ev.Tick? && ev.owner == o {
      assert SessionShape(s, o);
    }
  }

  lemma NewRequestLease(s: State, ev: Event)
    requires Safe(s) && Enabled(s, ev) && !ev.Land? && |s.requests| < |Next(s, ev).requests|
    ensures RequestLease(Next(s, ev), |s.requests|)
  {
    assert SessionShape(s, ev.owner) && SessionLease(s, ev.owner);
    if ev.SendRenew? {
      ParseFormat(s.sessions[ev.owner].phase.lease);
    }
  }

  lemma OtherSessionLease(s: State, ev: Event, o: Owner)
    requires Safe(s) && Enabled(s, ev) && !ev.Land? && o in s.sessions
    requires ev.Tick? || ev.owner != o
    ensures o in Next(s, ev).sessions && SessionLease(Next(s, ev), o)
  {
    assert SessionShape(s, o) && SessionLease(s, o);
    StepFrame(s, ev);
    DeadlineGrows(s, ev, o);
  }

  lemma ReceivingSessionLease(s: State, o: Owner)
    requires Safe(s) && Enabled(s, Receive(o))
    ensures SessionLease(Next(s, Receive(o)), o)
  {
    var p := s.sessions[o].phase;
    if p.Creating? || p.TakingOver? {
      AcquiringLease(s, o);
    } else if p.Inspecting? {
      InspectingLease(s, o);
    } else {
      assert SessionShape(s, o) && SessionLease(s, o);
      assert RequestLease(s, Awaited(p).value);
    }
  }

  lemma AcquiringLease(s: State, o: Owner)
    requires Safe(s) && Enabled(s, Receive(o)) && (s.sessions[o].phase.Creating? || s.sessions[o].phase.TakingOver?)
    ensures SessionLease(Next(s, Receive(o)), o)
  {
    assert SessionShape(s, o) && SessionLease(s, o);
    assert RequestLease(s, Awaited(s.sessions[o].phase).value);
  }

  lemma InspectingLease(s: State, o: Owner)
    requires Safe(s) && Enabled(s, Receive(o)) && s.sessions[o].phase.Inspecting?
    ensures SessionLease(Next(s, Receive(o)), o)
  {
    assert SessionShape(s, o) && SessionLease(s, o);
  }

  lemma ActingSessionLease(s: State, ev: Event, o: Owner)
    requires Safe(s) && Enabled(s, ev) && !ev.Land? && !ev.Tick? && !ev.Start? && !ev.Receive? && ev.owner == o
    ensures SessionLease(Next(s, ev), o)
  {
    assert SessionShape(s, o) && SessionLease(s, o);
  }

  lemma StepKeepsOneRemove(s: State, ev: Event)
    requires Safe(s) && Enabled(s, ev) && !ev.Land?
    ensures OneRemoveEach(Next(s, ev))
  {
    var t := Next(s, ev);
    StepFrame(s, ev);
    forall i, j | 0 <= i < j < |t.requests| && t.requests[i].Remove? && t.requests[j].Remove?
      ensures t.requests[i].owner != t.requests[j].owner
    {
      assert RequestLease(s, i);
    }
  }

  lemma StepKeepsRequestLeases(s: State, ev: Event)
    requires Safe(s) && Enabled(s, ev) && !ev.Land?
    ensures var t := Next(s, ev); forall j :: 0 <= j < |t.requests| ==> RequestLease(t, j)
  {
    var t := Next(s, ev);
    StepFrame(s, ev);
    forall j | 0 <= j < |t.requests|
      ensures RequestLease(t, j)
    {
      if j < |s.requests| {
        OldRequestLease(s, ev, j);
      } else {
        NewRequestLease(s, ev);
      }
    }
  }

  lemma StepKeepsSessionLeases(s: State, ev: Event)
    requires Safe(s) && Enabled(s, ev) && !ev.Land?
    ensures var t := Next(s, ev); forall o :: o in t.sessions ==> SessionLease(t, o)
  {
    var t := Next(s, ev);
    forall o | o in t.sessions
      ensures SessionLease(t, o)
    {
      if o in s.sessions && (ev.Tick? || ev.owner != o) {
        OtherSessionLease(s, ev, o);
      } else if ev.Receive? {
        ReceivingSessionLease(s, o);
      } else if !ev.Start? {
        ActingSessionLease(s, ev, o);
      }
    }
  }

  lemma SessionStepKeepsLeases(s: State, ev: Event)
    requires Safe(s) && Enabled(s, ev) && !ev.Land?
    ensures Safe(Next(s, ev))
  {
    SessionStepKeepsShape(s, ev);
    StepKeepsRequestLeases(s, ev);
    StepKeepsSessionLeases(s, ev);
    StepKeepsOneRemove(s, ev);
  }

  // ---------------------------------------------------------------- whole runs

  lemma {:induction false} RunKeepsShape(run: seq<State>, events: seq<Event>, k: nat)
    requires IsRun(run, events) && k < |run|
    ensures Shape(run[k])
  {
    if k > 0 {
      RunKeepsShape(run, events, k - 1);
      var ev := events[k - 1];
      assert StepAt(run, events, k - 1);
      if ev.Land? {
        LandKeepsShape(run[k - 1], ev.request, ev.reply);
      } else {
        SessionStepKeepsShape(run[k - 1], ev);
      }
    }
  }

  lemma StepKeepsRequestsDated(s: State, ev: Event, j: nat)
    requires Shape(s) && Dated(s) && Enabled(s, ev) && !ev.Land? && j < |Next(s, ev).requests|
    ensures RequestDated(Next(s, ev), j)
  {
    StepFrame(s, ev);
    if j < |s.requests| {
      assert RequestDated(s, j);
      DeadlineGrows(s, ev, s.requests[j].owner);
    } else {
      assert SessionShape(s, ev.owner) && SessionDated(s, ev.owner);
      if ev.SendRenew? {
        ParseFormat(s.sessions[ev.owner].phase.lease);
      }
    }
  }

  lemma StepKeepsSessionsDated(s: State, ev: Event, o: Owner)
    requires Shape(s) && Dated(s) && Enabled(s, ev) && !ev.Land? && o in Next(s, ev).sessions
    ensures SessionDated(Next(s, ev), o)
  {
    if o in s.sessions {
      assert SessionShape(s, o) && SessionDated(s, o);
      DeadlineGrows(s, ev, o);
      if ev == Receive(o) {
        assert RequestDated(s, Awaited(s.sessions[o].phase).value);
      }
    }
  }

  lemma StepKeepsDated(s: State, ev: Event)
    requires Shape(s) && Dated(s) && Enabled(s, ev)
    ensures Dated(Next(s, ev))
  {
    var t := Next(s, ev);
    forall j | 0 <= j < |t.requests|
      ensures RequestDated(t, j)
    {
      if ev.Land? {
        assert RequestDated(s, j);
      } else {
        StepKeepsRequestsDated(s, ev, j);
      }
    }
    forall o | o in t.sessions
      ensures SessionDated(t, o)
    {
      if ev.Land? {
        assert SessionDated(s, o);
      } else {
        StepKeepsSessionsDated(s, ev, o);
      }
    }
  }

  /** In every run, however late its deletes. */
  lemma {:induction false} RunKeepsDated(run: seq<State>, events: seq<Event>, k: nat)
    requires IsRun(run, events) && k < |run|
    ensures Dated(run[k])
  {
    if k > 0 {
      RunKeepsDated(run, events, k - 1);
      RunKeepsShape(run, events, k - 1);
      assert StepAt(run, events, k - 1);
      StepKeepsDated(run[k - 1], events[k - 1]);
    }
  }

  lemma {:induction false} RunKeepsSafe(run: seq<State>, events: seq<Event>, k: nat)
    requires IsTimelyRun(run, events) && k < |run|
    ensures Safe(run[k])
  {
    if k > 0 {
      RunKeepsSafe(run, events, k - 1);
      var ev := events[k - 1];
      assert StepAt(run, events, k - 1) && TimelyAt(run, events, k - 1);
      if ev.Land? {
        LandKeepsLeases(run[k - 1], ev.request, ev.reply);
      } else {
        SessionStepKeepsLeases(run[k - 1], ev);
      }
    }
  }

  /** Lock has returned, Unlock has not begun, and the last acknowledged
      deadline has not passed. */
  predicate Live(s: State, o: Owner) {
    && o in s.sessions && s.sessions[o].phase.Holding?
    && Unix(s.now) <= s.sessions[o].phase.lease
  }

  /** Mutual exclusion: in every state of every timely run a live session owns
      the stored object, so there is at most one. */
  lemma MutualExclusion(run: seq<State>, events: seq<Event>, k: nat, o: Owner)
    requires IsTimelyRun(run, events) && k < |run| && Live(run[k], o)
    ensures Owns(run[k], o, run[k].sessions[o].phase.lease)
    ensures forall p :: Live(run[k], p) ==> p == o
  {
    RunKeepsSafe(run, events, k);
    forall p | Live(run[k], p)
      ensures Owns(run[k], p, run[k].sessions[p].phase.lease)
    {
      assert SessionLease(run[k], p);
    }
  }

  lemma {:induction false} PastGrows(run: seq<State>, events: seq<Event>, i: nat, k: nat)
    requires IsRun(run, events) && i <= k < |run|
    ensures run[i].past <= run[k].past
    decreases k - i
  {
    if i < k {
      assert StepAt(run, events, i);
      PastGrows(run, events, i + 1, k);
    }
  }

  /** Single tenure, in every run, timely or not: an owner that was in the store
      and left it never comes back. */
  lemma SingleTenure(run: seq<State>, events: seq<Event>, i: nat, j: nat, k: nat, o: Owner)
    requires IsRun(run, events) && i < j <= k < |run|
    requires run[i].store.Some? && run[i].store.value.owner == o
    requires run[j].store.None? || run[j].store.value.owner != o
    ensures run[k].store.None? || run[k].store.value.owner != o
    decreases j - i
  {
    assert StepAt(run, events, i);
    if run[i + 1].store.Some? && run[i + 1].store.value.owner == o {
      SingleTenure(run, events, i + 1, j, k, o);
    } else {
      assert o in run[i + 1].past;
      PastGrows(run, events, i + 1, k);
      RunKeepsShape(run, events, k);
    }
  }

  /** Among the takeovers ever sent against one owner's objects at most one
      succeeds, in every run. */
  lemma AtMostOneTakeOver(run: seq<State>, events: seq<Event>, k: nat, i: nat, j: nat)
    requires IsRun(run, events) && k < |run| && i < |run[k].requests| && j < |run[k].requests|
    requires run[k].requests[i].TakeOver? && run[k].requests[j].TakeOver?
    requires run[k].requests[i].target.owner == run[k].requests[j].target.owner
    requires WriteAcknowledged(run[k], i) && WriteAcknowledged(run[k], j)
    ensures i == j
  {
    RunKeepsShape(run, events, k);
  }

  /** In every run, a takeover that succeeds replaces exactly the object it
      inspected, of another owner, whose deadline has passed by then; a lease
      renewed after the inspection is never overwritten. */
  lemma TakeOverOnlyExpired(run: seq<State>, events: seq<Event>, k: nat)
    requires IsRun(run, events) && k < |events|
    requires events[k].Land? && events[k].request < |run[k].requests|
    requires run[k].requests[events[k].request].TakeOver? && events[k].reply == Written
    ensures var r := run[k].requests[events[k].request];
            && run[k].store == Some(r.target) && r.target.owner != r.owner
            && !Unexpired(r.target, run[k].now)
  {
    RunKeepsShape(run, events, k);
    RunKeepsDated(run, events, k);
    var r := run[k].requests[events[k].request];
    assert StepAt(run, events, k);
    assert RequestShape(run[k], events[k].request) && RequestDated(run[k], events[k].request);
    MatchIsSame(run[k], r.target);
  }

  /** In every run, a renewal that succeeds replaces exactly the object it was
      conditioned on, of its own session, by one with no earlier deadline; it
      never resurrects a lock that was released or lost. */
  lemma RenewOnlyOwn(run: seq<State>, events: seq<Event>, k: nat)
    requires IsRun(run, events) && k < |events|
    requires events[k].Land? && events[k].request < |run[k].requests|
    requires run[k].requests[events[k].request].Renew? && events[k].reply == Written
    ensures var r := run[k].requests[events[k].request];
            && run[k].store == Some(r.target) && r.target.owner == r.owner
            && run[k + 1].store == Some(LeaseObject(r.owner, r.expiry))
            && var before := ParseInt(r.target.expiry);
            && before.Some? && before.value <= r.expiry
  {
    RunKeepsShape(run, events, k);
    RunKeepsDated(run, events, k);
    assert StepAt(run, events, k);
    assert RequestShape(run[k], events[k].request) && RequestDated(run[k], events[k].request);
    MatchIsSame(run[k], run[k].requests[events[k].request].target);
  }
}
