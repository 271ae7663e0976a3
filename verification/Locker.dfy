/** S3Locker (lock_s3.go) as code: Lock, tryAcquire, the heartbeat and Unlock over
    one lock object, while everyone else acts in between.  Each method is proved
    to drive its session along steps of the machine of module Lease and to take
    the machine's branches, so that what LeaseSafety proves about every run holds
    of the runs of this code. */
module Locker {
  import opened Common
  import opened LeaseText
  import opened Lease
  import LeaseSafety
  import opened LeaseFate

  /** Which goroutine of a session waits, and so who else may act for it: nobody;
      Unlock beside the heartbeat; the heartbeat while Unlock waits for it. */
  datatype Role = Caller | Beating | Joining

  predicate Foreign(role: Role, o: Owner, ev: Event) {
    ev.Tick? || ev.Land? || ev.owner != o
    || (role.Beating? && ev.BeginUnlock?)
    || (role.Joining? && (ev.SendRenew? || ev.Receive? || ev.GiveUp?))
  }

  predicate MayBecome(role: Role, p: Phase, q: Phase) {
    q == p
    || (role.Beating? && p.Holding? && q == Stopping(p.lease, p.beat))
    || (role.Joining? && p.Stopping? && q.Stopping?)
  }

  /** Nothing sent or answered is taken back, and time does not run back. */
  predicate Onward(s: State, t: State) {
    && s.now <= t.now && s.requests <= t.requests
    && forall j :: j in s.replies ==> j in t.replies && t.replies[j] == s.replies[j]
  }

  lemma OnwardAgain(s: State, t: State, u: State)
    requires Onward(s, t) && Onward(t, u)
    ensures Onward(s, u)
  {
  }

  /** t is later than s in a run in which o acts at most as `role` allows. */
  predicate Later(s: State, t: State, role: Role, o: Owner) {
    && o in s.sessions && o in t.sessions && t.sessions[o].ttl == s.sessions[o].ttl
    && MayBecome(role, s.sessions[o].phase, t.sessions[o].phase)
    && Onward(s, t)
    && (role.Joining? || Sent(t.requests, o) == Sent(s.requests, o))
  }

  /** What o has sent, in order. */
  function Sent(requests: seq<Request>, o: Owner): seq<Request> {
    if requests == [] then []
    else
      var last := requests[|requests| - 1];
      Sent(requests[..|requests| - 1], o) + if last.owner == o then [last] else []
  }

  lemma SentMore(requests: seq<Request>, r: Request, o: Owner)
    ensures Sent(requests + [r], o) == Sent(requests, o) + if r.owner == o then [r] else []
  {
    assert (requests + [r])[..|requests|] == requests;
  }

  /** A step sends at most one request, in the name of whoever takes it. */
  lemma StepSends(s: State, ev: Event, o: Owner)
    requires Enabled(s, ev)
    ensures var t := Next(s, ev);
            && (ev.Tick? || ev.Land? || ev.owner != o ==> Sent(t.requests, o) == Sent(s.requests, o))
            && (ev.BeginUnlock? || ev.GiveUp? || ev.Start? ==> Sent(t.requests, o) == Sent(s.requests, o))
  {
    var t := Next(s, ev);
    if t.requests != s.requests {
      var r := t.requests[|s.requests|];
      assert t.requests == s.requests + [r];
      SentMore(s.requests, r, o);
    }
  }

  /** How many of them try to create the lock object. */
  function Creates(requests: seq<Request>): nat {
    if requests == [] then 0
    else Creates(requests[..|requests| - 1]) + if requests[|requests| - 1].Create? then 1 else 0
  }

  lemma CreatesMore(requests: seq<Request>, more: seq<Request>)
    requires |more| <= 1
    ensures Creates(requests + more) == Creates(requests) + if more != [] && more[0].Create? then 1 else 0
  {
    if more == [] {
      assert requests + more == requests;
    } else {
      assert (requests + more)[..|requests|] == requests;
    }
  }

  /** A takeover of o was told that the lock object is gone. */
  predicate GoneBeforeTakeOver(s: State, o: Owner) {
    exists j :: j in s.replies && j < |s.requests| && s.replies[j] == NotFound
                && s.requests[j].TakeOver? && s.requests[j].owner == o
  }

  lemma OwnStepSends(s: State, ev: Event)
    requires Enabled(s, ev) && !ev.Tick? && !ev.Land?
    ensures var t := Next(s, ev);
            s.requests <= t.requests && Sent(t.requests, ev.owner) == Sent(s.requests, ev.owner) + t.requests[|s.requests|..]
  {
    var t := Next(s, ev);
    if t.requests != s.requests {
      var r := t.requests[|s.requests|];
      assert t.requests == s.requests + [r];
      SentMore(s.requests, r, ev.owner);
    }
  }

  /** The request has had this reply. */
  predicate Had(s: State, r: Request, reply: Reply) {
    exists j :: j in s.replies && j < |s.requests| && s.requests[j] == r && s.replies[j] == reply
  }

  lemma HadStays(s: State, t: State, r: Request, reply: Reply)
    requires Onward(s, t)
    ensures Had(s, r, reply) ==> Had(t, r, reply)
  {
    if Had(s, r, reply) {
      var j :| j in s.replies && j < |s.requests| && s.requests[j] == r && s.replies[j] == reply;
      assert t.requests[j] == r;
    }
  }

  /** The replies a request can get. */
  predicate Fits(r: Request, reply: Reply) {
    match r
    case Create(_, _) => reply == Written || reply == PreconditionFailed
    case TakeOver(_, _, _) => reply == Written || reply == PreconditionFailed || reply == NotFound
    case Renew(_, _, _) => reply == Written || reply == PreconditionFailed || reply == NotFound
    case Inspect(_) => reply == NotFound || reply.Found?
    case Remove(_, _) => reply == NotFound || reply == Removed
  }

  /** Request i is unanswered, or its reply fits. */
  predicate Fitting(s: State, i: nat) {
    i < |s.requests| && (i in s.replies ==> Fits(s.requests[i], s.replies[i]))
  }

  lemma StepFitting(s: State, ev: Event, i: nat)
    requires Enabled(s, ev) && Fitting(s, i)
    ensures Fitting(Next(s, ev), i)
  {
    var t := Next(s, ev);
    assert s.requests <= t.requests && t.requests[i] == s.requests[i];
    if !ev.Land? {
      assert t.replies == s.replies;
    }
  }

  lemma StepLater(s: State, t: State, role: Role, o: Owner, ev: Event)
    requires Later(s, t, role, o) && Enabled(t, ev) && Foreign(role, o, ev)
    requires role.Joining? ==> s.sessions[o].phase.Stopping?
    ensures Later(s, Next(t, ev), role, o)
  {
    hide Onward, Sent;
    StepSends(t, ev, o);
    StepOnward(t, ev);
    OnwardAgain(s, t, Next(t, ev));
  }

  lemma StepOnward(s: State, ev: Event)
    requires Enabled(s, ev)
    ensures Onward(s, Next(s, ev))
  {
  }

  /** A fresh owner has had no request that could fail. */
  lemma {:induction false} FreshNeverGaveUp(run: seq<State>, events: seq<Event>, k: nat, o: Owner)
    requires IsRun(run, events) && k < |run| && o !in run[k].sessions
    ensures NeverGaveUp(events[..k], o)
  {
    if k > 0 {
      assert StepAt(run, events, k - 1);
      FreshNeverGaveUp(run, events, k - 1, o);
      assert forall m :: 0 <= m < k - 1 ==> events[..k][m] == events[..k - 1][m];
    }
  }

  // ------------------------------------------------------- what each step does

  /** The session sends `more` and goes on to p. */
  function MovedTo(s: State, o: Owner, more: seq<Request>, p: Phase): State
    requires o in s.sessions
  {
    s.(requests := s.requests + more, sessions := s.sessions[o := s.sessions[o].(phase := p)])
  }

  lemma MovedSends(s: State, o: Owner, more: seq<Request>, p: Phase)
    requires o in s.sessions && |more| <= 1 && forall r :: r in more ==> r.owner == o
    ensures var t := MovedTo(s, o, more, p);
            && Onward(s, t) && Sent(t.requests, o) == Sent(s.requests, o) + more
            && Creates(Sent(t.requests, o)) ==
               Creates(Sent(s.requests, o)) + if more != [] && more[0].Create? then 1 else 0
  {
    if more == [] {
      assert s.requests + more == s.requests;
    } else {
      assert more == [more[0]];
      SentMore(s.requests, more[0], o);
    }
    CreatesMore(Sent(s.requests, o), more);
  }

  lemma CreateMoves(s: State, o: Owner)
    requires o in s.sessions && s.sessions[o].phase.Polling?
    ensures Enabled(s, SendCreate(o))
    ensures Next(s, SendCreate(o)) == MovedTo(s, o, [Create(o, Unix(s.now + s.sessions[o].ttl))], Creating(|s.requests|))
  {
  }

  /** Its reply is i's, which is `reply`. */
  predicate Reads(s: State, o: Owner, i: nat, reply: Reply) {
    && o in s.sessions && Awaited(s.sessions[o].phase) == Some(i)
    && i < |s.requests| && i in s.replies && s.replies[i] == reply
  }

  lemma CreatedMoves(s: State, o: Owner, i: nat, reply: Reply)
    requires Reads(s, o, i, reply) && s.sessions[o].phase.Creating? && s.requests[i].Create?
    ensures Enabled(s, Receive(o))
    ensures Next(s, Receive(o)) ==
            if reply == Written then MovedTo(s, o, [], Holding(s.requests[i].expiry, Ticking))
            else MovedTo(s, o, [Inspect(o)], Inspecting(|s.requests|))
  {
    assert s.requests + [] == s.requests;
  }

  lemma InspectedMoves(s: State, o: Owner, i: nat, reply: Reply)
    requires Reads(s, o, i, reply) && s.sessions[o].phase.Inspecting?
    ensures Enabled(s, Receive(o))
    ensures Next(s, Receive(o)) ==
            if reply.Found? && !Unexpired(reply.lock, s.now) then
              MovedTo(s, o, [TakeOver(o, Unix(s.now + s.sessions[o].ttl), reply.lock)], TakingOver(|s.requests|))
            else MovedTo(s, o, [], Polling)
  {
    assert s.requests + [] == s.requests;
  }

  lemma TakenMoves(s: State, o: Owner, i: nat, reply: Reply)
    requires Reads(s, o, i, reply) && s.sessions[o].phase.TakingOver? && s.requests[i].TakeOver?
    ensures Enabled(s, Receive(o))
    ensures Next(s, Receive(o)) ==
            MovedTo(s, o, [], if reply == Written then Holding(s.requests[i].expiry, Ticking)
                              else if reply == PreconditionFailed then Polling else Over)
  {
    assert s.requests + [] == s.requests;
  }

  lemma GivesUp(s: State, o: Owner)
    requires o in s.sessions
    ensures Enabled(s, GiveUp(o))
    ensures Next(s, GiveUp(o)) == MovedTo(s, o, [], OnFailure(s.sessions[o].phase))
  {
    assert s.requests + [] == s.requests;
  }

  lemma CheckMoves(s: State, o: Owner)
    requires o in s.sessions && s.sessions[o].phase.Stopping? && !s.sessions[o].phase.beat.Renewing?
    ensures Enabled(s, SendCheck(o))
    ensures Next(s, SendCheck(o)) == MovedTo(s, o, [Inspect(o)], Checking(|s.requests|))
  {
  }

  lemma CheckedMoves(s: State, o: Owner, i: nat, reply: Reply)
    requires Reads(s, o, i, reply) && s.sessions[o].phase.Checking?
    ensures Enabled(s, Receive(o))
    ensures Next(s, Receive(o)) ==
            if reply.Found? && reply.lock.owner == o then
              MovedTo(s, o, [Request.Remove(o, reply.lock)], Removing(|s.requests|))
            else MovedTo(s, o, [], Released)
  {
    assert s.requests + [] == s.requests;
  }

  lemma RemovedMoves(s: State, o: Owner, i: nat, reply: Reply)
    requires Reads(s, o, i, reply) && s.sessions[o].phase.Removing?
    ensures Enabled(s, Receive(o)) && Next(s, Receive(o)) == MovedTo(s, o, [], Released)
  {
    assert s.requests + [] == s.requests;
  }

  /** One lock object, the clock and all sessions; `run` is what has happened. */
  class World {
    var state: State
    ghost var run: seq<State>
    ghost var events: seq<Event>
    ghost var troubles: nat         // how many requests ended in another error

    ghost predicate Valid()
      reads this
    {
      IsRun(run, events) && run[|events|] == state && forall i :: i in state.replies ==> i < |state.requests|
    }

    constructor (leftover: Option<LockObject>)
      requires leftover.Some? ==> OneLine(leftover.value.owner)
      ensures Valid() && state.store == leftover && state.sessions == map[]
    {
      var s := State(0, leftover, [], map[], map[], {});
      state, run, events, troubles := s, [s], [], 0;
    }

    /** After a successful Unlock no object of the session is in the store. */
    lemma OnceReleased(o: Owner)
      requires Valid() && o in state.sessions && state.sessions[o].phase.Released?
      ensures o in state.past && (state.store.Some? ==> state.store.value.owner != o)
    {
      RunKeepsFate(run, events, |events|, o);
      LeaseSafety.RunKeepsShape(run, events, |events|);
    }

    /** A heartbeat that stopped has lost the lock, unless a renewal of its own
        that it never heard of is what is stored. */
    lemma OnceStopped(o: Owner)
      requires Valid() && HeartbeatStopped(state, o)
      ensures o in state.past <==> !exists j: nat :: Stray(state, Heard(run, events, |events|, o), o, j)
      ensures NeverGaveUp(events, o) ==> o in state.past
    {
      StoppedMeans(run, events, |events|, o);
      assert events[..|events|] == events;
      if NeverGaveUp(events, o) {
        StoppedIsLost(run, events, |events|, o);
      }
    }

    /** No request of o ended in another error meanwhile. */
    twostate predicate Quiet(o: Owner)
      reads this
    {
      NeverGaveUp(old(events), o) ==> NeverGaveUp(events, o)
    }

    /** r was the next request sent. */
    twostate predicate Asked(r: Request)
      reads this
    {
      old(state.requests) + [r] <= state.requests
    }

    method Do(ev: Event)
      requires Valid() && Enabled(state, ev)
      modifies this
      ensures Valid() && state == Next(old(state), ev) && events == old(events) + [ev] && troubles == old(troubles)
    {
      RunExtends(run, events, state, ev, Next(state, ev));
      state := Next(state, ev);
      run, events := run + [state], events + [ev];
    }

    /** A step of the session itself. */
    method Move(o: Owner, ev: Event, ghost more: seq<Request>, ghost p: Phase)
      requires Valid() && o in state.sessions && Enabled(state, ev) && Next(state, ev) == MovedTo(state, o, more, p)
      requires |more| <= 1 && forall r :: r in more ==> r.owner == o
      modifies this
      ensures Valid() && state == MovedTo(old(state), o, more, p) && troubles == old(troubles)
      ensures |old(state.requests)| !in state.replies
      ensures ev != GiveUp(o) ==> Quiet(o)
      ensures Onward(old(state), state) && Sent(state.requests, o) == Sent(old(state.requests), o) + more
      ensures Creates(Sent(state.requests, o)) ==
              Creates(Sent(old(state.requests), o)) + if more != [] && more[0].Create? then 1 else 0
    {
      hide IsRun, Sent, Creates, Next, Enabled, Onward;
      MovedSends(state, o, more, p);
      Do(ev);
    }

    /** Any number of steps of the others, the store and time, while the session
        may be waiting for the reply to `asked`. */
    method Pass(role: Role, o: Owner, ghost asked: Option<nat>)
      requires Valid() && o in state.sessions && (role.Joining? ==> state.sessions[o].phase.Stopping?)
      requires asked.Some? ==> asked.value < |state.requests| && asked.value !in state.replies
      modifies this
      ensures Valid() && Later(old(state), state, role, o) && (role.Joining? || Quiet(o))
      ensures asked.Some? ==> Fitting(state, asked.value)
      ensures troubles == old(troubles)
    {
      var more: bool := *;
      var steps: nat := *;
      while more && steps > 0
        invariant Valid() && Later(old(state), state, role, o) && (role.Joining? || Quiet(o))
        invariant asked.Some? ==> Fitting(state, asked.value)
        invariant troubles == old(troubles)
      {
        var ev: Event := *;
        if Enabled(state, ev) && Foreign(role, o, ev) {
          StepLater(old(state), state, role, o, ev);
          if asked.Some? {
            StepFitting(state, ev, asked.value);
          }
          Do(ev);
        }
        more, steps := *, steps - 1;
      }
    }

    /** Waits for the reply to the session's request; None is any other error. */
    method Await(role: Role, o: Owner) returns (reply: Option<Reply>)
      requires Valid() && o in state.sessions && !role.Joining?
      requires var a := Awaited(state.sessions[o].phase);
               a.Some? && Awaits(state, o, a.value) && a.value !in state.replies
      modifies this
      ensures Valid() && Later(old(state), state, role, o) && Quiet(o)
      ensures reply.Some? ==>
                var i := Awaited(old(state.sessions[o].phase)).value;
                Answered(state, o) && reply.value == state.replies[i] && Fits(state.requests[i], reply.value)
                && Reads(state, o, i, reply.value)
      ensures troubles == old(troubles) + if reply.None? then 1 else 0
    {
      var i := Awaited(state.sessions[o].phase).value;
      Pass(role, o, Some(i));
      var failed: bool := *;
      if failed || i !in state.replies {
        troubles := troubles + 1;
        return None;
      }
      return Some(state.replies[i]);
    }
  }

  // ------------------------------------------------------------- the heartbeat

  /** How one renewal ends: acknowledged, refused, told that there is no lock object,
      or in any other error. */
  datatype Echo = Acked | Refused | Absent | Unheard

  predicate EchoIs(s: State, echo: Echo, r: Request) {
    match echo
    case Acked => Had(s, r, Written)
    case Refused => Had(s, r, PreconditionFailed)
    case Absent => Had(s, r, NotFound)
    case Unheard => true
  }

  function Count(beats: seq<Echo>, echo: Echo): nat {
    if beats == [] then 0
    else Count(beats[..|beats| - 1], echo) + if beats[|beats| - 1] == echo then 1 else 0
  }

  /** The deadline acknowledged last. */
  function LeaseOf(lease: nat, sent: seq<Request>, beats: seq<Echo>): nat
    requires |sent| == |beats|
  {
    if beats == [] then lease
    else
      var n := |beats| - 1;
      if beats[n].Acked? && sent[n].Renew? then sent[n].expiry else LeaseOf(lease, sent[..n], beats[..n])
  }

  /** Each is a renewal for a fresh lease on condition of the last acknowledged
      write, and ended as `beats` says. */
  predicate Renewals(s: State, o: Owner, lease: nat, start: nat, sent: seq<Request>, beats: seq<Echo>) {
    && |sent| == |beats|
    && forall i :: 0 <= i < |sent| ==>
         && sent[i].Renew? && sent[i].owner == o && sent[i].expiry >= start
         && sent[i].target == LeaseObject(o, LeaseOf(lease, sent[..i], beats[..i]))
         && EchoIs(s, beats[i], sent[i])
  }

  lemma UnixMono(s: nat, t: nat)
    requires s <= t
    ensures Unix(s) <= Unix(t)
  {
  }

  lemma NoRenewals(s: State, o: Owner, lease: nat, start: nat)
    ensures Renewals(s, o, lease, start, [], []) && LeaseOf(lease, [], []) == lease
  {
  }

  lemma StillRenewals(s: State, t: State, o: Owner, lease: nat, start: nat, sent: seq<Request>, beats: seq<Echo>)
    requires Renewals(s, o, lease, start, sent, beats) && Onward(s, t)
    ensures Renewals(t, o, lease, start, sent, beats)
  {
    forall i | 0 <= i < |sent|
      ensures EchoIs(t, beats[i], sent[i])
    {
      assert EchoIs(s, beats[i], sent[i]);
      HadStays(s, t, sent[i], Written);
      HadStays(s, t, sent[i], PreconditionFailed);
      HadStays(s, t, sent[i], NotFound);
    }
  }

  lemma OneMoreBeat(s: State, o: Owner, lease: nat, start: nat, sent: seq<Request>, beats: seq<Echo>, r: Request, echo: Echo)
    requires Renewals(s, o, lease, start, sent, beats) && EchoIs(s, echo, r)
    requires r.Renew? && r.owner == o && r.expiry >= start && r.target == LeaseObject(o, LeaseOf(lease, sent, beats))
    ensures Renewals(s, o, lease, start, sent + [r], beats + [echo])
    ensures LeaseOf(lease, sent + [r], beats + [echo]) == if echo.Acked? then r.expiry else LeaseOf(lease, sent, beats)
    ensures Count(beats + [echo], Unheard) == Count(beats, Unheard) + if echo.Unheard? then 1 else 0
  {
    var more, ticks := sent + [r], beats + [echo];
    assert more[..|sent|] == sent && ticks[..|beats|] == beats;
    forall i | 0 <= i < |sent|
      ensures more[..i] == sent[..i] && ticks[..i] == beats[..i]
    {
    }
  }

  /** Where a heartbeat began: what had been sent, the deadline acknowledged, and the
      first deadline it can ask for. */
  datatype Since = Since(was: seq<Request>, lease: nat, start: nat)

  /** The heartbeat has sent these renewals since, and nothing else. */
  predicate Beaten(s: State, o: Owner, ttl: nat, since: Since, sent: seq<Request>, beats: seq<Echo>) {
    && o in s.sessions && s.sessions[o].ttl == ttl && since.start <= Unix(s.now + ttl)
    && Sent(s.requests, o) == since.was + sent
    && Renewals(s, o, since.lease, since.start, sent, beats)
    && (s.sessions[o].phase.Holding? || s.sessions[o].phase.Stopping?)
    && s.sessions[o].phase.lease == LeaseOf(since.lease, sent, beats)
  }

  lemma WaitingBeats(s: State, t: State, o: Owner, ttl: nat, since: Since, sent: seq<Request>, beats: seq<Echo>)
    requires Later(s, t, Beating, o) && Beaten(s, o, ttl, since, sent, beats)
    ensures Beaten(t, o, ttl, since, sent, beats)
  {
    hide Sent, LeaseOf, Renewals;
    StillRenewals(s, t, o, since.lease, since.start, sent, beats);
    UnixMono(s.now + ttl, t.now + ttl);
  }

  lemma RenewingBeats(s: State, t: State, o: Owner, ttl: nat, since: Since, sent: seq<Request>, beats: seq<Echo>, echo: Echo)
    requires Beaten(s, o, ttl, since, sent, beats) && Onward(s, t) && o in t.sessions && t.sessions[o].ttl == ttl
    requires t.sessions[o].phase.Holding? || t.sessions[o].phase.Stopping?
    requires var r := Request.Renew(o, Unix(s.now + ttl), LeaseObject(o, s.sessions[o].phase.lease));
             && Sent(t.requests, o) == Sent(s.requests, o) + [r] && EchoIs(t, echo, r)
             && t.sessions[o].phase.lease == if echo.Acked? then r.expiry else s.sessions[o].phase.lease
    ensures var r := Request.Renew(o, Unix(s.now + ttl), LeaseObject(o, s.sessions[o].phase.lease));
            Beaten(t, o, ttl, since, sent + [r], beats + [echo])
    ensures Count(beats + [echo], Unheard) == Count(beats, Unheard) + if echo.Unheard? then 1 else 0
  {
    hide Sent, LeaseOf, Renewals, EchoIs, Onward;
    var r := Request.Renew(o, Unix(s.now + ttl), LeaseObject(o, s.sessions[o].phase.lease));
    StillRenewals(s, t, o, since.lease, since.start, sent, beats);
    OneMoreBeat(t, o, since.lease, since.start, sent, beats, r, echo);
    assert since.was + sent + [r] == since.was + (sent + [r]);
    assert s.now <= t.now by {
      Onwards(s, t);
    }
    UnixMono(s.now + ttl, t.now + ttl);
  }

  lemma StartsBeating(s: State, o: Owner, ttl: nat)
    requires o in s.sessions && s.sessions[o].ttl == ttl && s.sessions[o].phase.Holding?
    ensures Beaten(s, o, ttl, Since(Sent(s.requests, o), s.sessions[o].phase.lease, Unix(s.now + ttl)), [], [])
  {
    NoRenewals(s, o, s.sessions[o].phase.lease, Unix(s.now + ttl));
    assert Sent(s.requests, o) + [] == Sent(s.requests, o);
  }

  lemma BeatsSince(s: State, o: Owner, ttl: nat, since: Since, sent: seq<Request>, beats: seq<Echo>)
    requires Beaten(s, o, ttl, since, sent, beats)
    ensures var mine, n := Sent(s.requests, o), |since.was|;
            && since.was <= mine && |mine| == n + |beats| && mine[n..] == sent
            && Renewals(s, o, since.lease, since.start, mine[n..], beats)
            && s.sessions[o].phase.lease == LeaseOf(since.lease, mine[n..], beats)
  {
    assert (since.was + sent)[|since.was|..] == sent;
  }

  lemma Onwards(s: State, t: State)
    requires Onward(s, t)
    ensures s.now <= t.now
  {
  }

  // ------------------------------------------------------------------ the code

  /** How one attempt ends: acquired, with the ETag of the object written, held by
      someone else (isPreconditionFailed), or any other error. */
  datatype Attempt = Acquired(etag: string) | Contended | Failed

  /** A session of this process whose Lock has returned, or is about to. */
  predicate IsHolding(s: State, o: Owner, etag: string) {
    && o in s.sessions
    && s.sessions[o].phase.Holding? && s.sessions[o].phase.beat.Ticking?
    && etag == ETag(LeaseObject(o, s.sessions[o].phase.lease))
  }

  /** The heartbeat's view, during which Unlock may begin. */
  predicate IsBeating(s: State, o: Owner, etag: string) {
    && o in s.sessions
    && var p := s.sessions[o].phase;
    && (p.Holding? || p.Stopping?) && p.beat.Ticking? && etag == ETag(LeaseObject(o, p.lease))
  }

  predicate InPhase(s: State, o: Owner, p: Phase, ttl: nat) {
    o in s.sessions && s.sessions[o] == Session(ttl, p)
  }

  /** A Lock that returned, in a world whose deletes were timely: while its lease
      lasts the stored object is its own and nobody else holds. */
  lemma HolderIsAlone(w: World, o: Owner, etag: string)
    requires w.Valid() && IsTimelyRun(w.run, w.events)
    requires IsHolding(w.state, o, etag) && Unix(w.state.now) <= w.state.sessions[o].phase.lease
    ensures w.state.store.Some? && w.state.store.value.owner == o
    ensures forall p :: LeaseSafety.Live(w.state, p) ==> p == o
  {
    LeaseSafety.MutualExclusion(w.run, w.events, |w.events|, o);
  }

  class S3Locker {
    const ttl: nat
    var held: map<string, Owner>

    constructor (ttl: nat)
      ensures this.ttl == ttl && held == map[]
    {
      this.ttl, held := ttl, map[];
    }

    /** tryAcquire, with the putLock calls it makes. */
    method TryAcquire(w: World, o: Owner) returns (r: Attempt)
      requires w.Valid() && InPhase(w.state, o, Polling, ttl)
      modifies w
      ensures w.Asked(Create(o, Unix(old(w.state.now) + ttl))) && old(w.state.requests) <= w.state.requests
      ensures w.Valid() && o in w.state.sessions && w.state.sessions[o].ttl == ttl
      ensures match r
              case Acquired(etag) => IsHolding(w.state, o, etag)
              case Contended => w.state.sessions[o].phase.Polling?
              case Failed => w.state.sessions[o].phase.Over?
      ensures !r.Failed? ==> w.Quiet(o)
      ensures w.troubles >= old(w.troubles)
      ensures r.Failed? ==> w.troubles > old(w.troubles) || GoneBeforeTakeOver(w.state, o)
      ensures Creates(Sent(w.state.requests, o)) == Creates(Sent(old(w.state.requests), o)) + 1
    {
      hide IsRun, Sent, Creates, Next, Enabled;
      var expiry := Unix(w.state.now + ttl);
      ghost var i := |w.state.requests|;
      CreateMoves(w.state, o);
      w.Move(o, SendCreate(o), [Create(o, expiry)], Creating(i));
      var created := w.Await(Caller, o);
      if created.None? {
        GivesUp(w.state, o);
        w.Move(o, GiveUp(o), [], Over);
        return Failed;
      }
      CreatedMoves(w.state, o, i, created.value);
      if created.value == Written {
        w.Move(o, Receive(o), [], Holding(expiry, Ticking));
        return Acquired(LockBody(o, FormatNat(expiry)));
      }
      w.Move(o, Receive(o), [Inspect(o)], Inspecting(|w.state.requests|));
      r := Contend(w, o);
    }

    /** tryAcquire once the lock object was found to exist. */
    method Contend(w: World, o: Owner) returns (r: Attempt)
      requires w.Valid() && o in w.state.sessions && w.state.sessions[o].ttl == ttl && w.state.sessions[o].phase.Inspecting?
      requires var i := w.state.sessions[o].phase.request;
               i < |w.state.requests| && w.state.requests[i] == Inspect(o) && i !in w.state.replies
      modifies w
      ensures old(w.state.requests) <= w.state.requests
      ensures w.Valid() && o in w.state.sessions && w.state.sessions[o].ttl == ttl
      ensures match r
              case Acquired(etag) => IsHolding(w.state, o, etag)
              case Contended => w.state.sessions[o].phase.Polling?
              case Failed => w.state.sessions[o].phase.Over?
      ensures !r.Failed? ==> w.Quiet(o)
      ensures w.troubles >= old(w.troubles)
      ensures r.Failed? ==> w.troubles > old(w.troubles) || GoneBeforeTakeOver(w.state, o)
      ensures Creates(Sent(w.state.requests, o)) == Creates(Sent(old(w.state.requests), o))
    {
      hide IsRun, Sent, Creates, Next, Enabled;
      ghost var i := w.state.sessions[o].phase.request;
      var head := w.Await(Caller, o);
      if head.None? {
        GivesUp(w.state, o);
        w.Move(o, GiveUp(o), [], Over);
        return Failed;
      }
      if head.value.NotFound? {
        InspectedMoves(w.state, o, i, head.value);
        w.Move(o, Receive(o), [], Polling);
        return Contended;
      }
      r := TakeOverExpired(w, o, head.value.lock);
    }

    /** The second half of tryAcquire: the lease check and the takeover. */
    method TakeOverExpired(w: World, o: Owner, head: LockObject) returns (r: Attempt)
      requires w.Valid() && Answered(w.state, o) && w.state.sessions[o].phase.Inspecting? && w.state.sessions[o].ttl == ttl
      requires w.state.replies[w.state.sessions[o].phase.request] == Found(head)
      modifies w
      ensures var exp := ParseInt(head.expiry);
              if exp.Some? && old(w.state.now) / 1_000_000_000 <= exp.value then
                r == Contended && w.state.requests == old(w.state.requests)
              else w.Asked(TakeOver(o, (old(w.state.now) + ttl) / 1_000_000_000, head))
      ensures old(w.state.requests) <= w.state.requests
      ensures w.Valid() && o in w.state.sessions && w.state.sessions[o].ttl == ttl
      ensures match r
              case Acquired(etag) => IsHolding(w.state, o, etag)
              case Contended => w.state.sessions[o].phase.Polling?
              case Failed => w.state.sessions[o].phase.Over?
      ensures !r.Failed? ==> w.Quiet(o)
      ensures w.troubles >= old(w.troubles)
      ensures r.Failed? ==> w.troubles > old(w.troubles) || GoneBeforeTakeOver(w.state, o)
      ensures Creates(Sent(w.state.requests, o)) == Creates(Sent(old(w.state.requests), o))
    {
      hide IsRun, Sent, Creates, Next, Enabled;
      var exp := ParseInt(head.expiry);
      InspectedMoves(w.state, o, w.state.sessions[o].phase.request, Found(head));
      if exp.Some? && Unix(w.state.now) <= exp.value {
        w.Move(o, Receive(o), [], Polling);
        return Contended;
      }
      var expiry := Unix(w.state.now + ttl);
      ghost var i := |w.state.requests|;
      w.Move(o, Receive(o), [TakeOver(o, expiry, head)], TakingOver(i));
      var taken := w.Await(Caller, o);
      if taken.None? {
        GivesUp(w.state, o);
        w.Move(o, GiveUp(o), [], Over);
        return Failed;
      }
      TakenMoves(w.state, o, i, taken.value);
      w.Move(o, Receive(o), [], if taken.value == Written then Holding(expiry, Ticking)
                                else if taken.value == PreconditionFailed then Polling else Over);
      return if taken.value == Written then Acquired(LockBody(o, FormatNat(expiry)))
             else if taken.value == PreconditionFailed then Contended
             else Failed;
    }

    /** Lock; the context ends after at most `polls` waits. */
    method Lock(w: World, name: string, o: Owner, polls: nat) returns (ok: bool, etag: string)
      requires w.Valid() && Fresh(w.state, o)
      modifies this, w
      ensures w.Asked(Create(o, Unix(old(w.state.now) + ttl)))
      ensures w.Valid() && o in w.state.sessions
      ensures held == if ok then old(held)[name := o] else old(held)
      ensures if ok then IsHolding(w.state, o, etag) && NeverGaveUp(w.events, o) else w.state.sessions[o].phase.Over?
      ensures var tries := Creates(Sent(w.state.requests, o)) - Creates(Sent(old(w.state.requests), o));
              && 1 <= tries <= polls + 1
              && (ok || tries == polls + 1 || w.troubles > old(w.troubles) || GoneBeforeTakeOver(w.state, o))
    {
      hide IsRun, Sent, Creates, Next, Enabled, Onward;
      Begin(w, o);
      var left: nat := polls;
      while true
        invariant w.Valid() && InPhase(w.state, o, Polling, ttl) && held == old(held) && NeverGaveUp(w.events, o)
        invariant if left == polls then w.state.requests == old(w.state.requests) && w.state.now == old(w.state.now)
                  else w.Asked(Create(o, Unix(old(w.state.now) + ttl)))
        invariant left <= polls && w.troubles >= old(w.troubles)
        invariant Creates(Sent(w.state.requests, o)) == Creates(Sent(old(w.state.requests), o)) + polls - left
        decreases left
      {
        var r := TryAcquire(w, o);
        if r.Acquired? {
          held := held[name := o];
          return true, r.etag;
        }
        if r.Failed? {
          return false, "";
        }
        if left == 0 {
          GivesUp(w.state, o);
          w.Move(o, GiveUp(o), [], Over);
          return false, "";
        }
        Wait(w, o);
        left := left - 1;
      }
    }

    /** A fresh owner id is drawn. */
    method Begin(w: World, o: Owner)
      requires w.Valid() && Fresh(w.state, o)
      modifies w
      ensures w.Valid() && InPhase(w.state, o, Polling, ttl) && NeverGaveUp(w.events, o) && w.troubles == old(w.troubles)
      ensures w.state.requests == old(w.state.requests) && w.state.now == old(w.state.now)
    {
      FreshNeverGaveUp(w.run, w.events, |w.events|, o);
      assert w.events[..|w.events|] == w.events;
      w.Do(Start(o, ttl));
    }

    /** The poll interval. */
    method Wait(w: World, o: Owner)
      requires w.Valid() && InPhase(w.state, o, Polling, ttl)
      modifies w
      ensures w.Valid() && InPhase(w.state, o, Polling, ttl) && w.Quiet(o) && w.troubles == old(w.troubles)
      ensures old(w.state.requests) <= w.state.requests
      ensures Sent(w.state.requests, o) == Sent(old(w.state.requests), o)
    {
      hide Sent, IsRun;
      w.Pass(Caller, o, None);
    }

    /** Sends a renewal conditioned on the last acknowledged write. */
    method SendRenewal(w: World, o: Owner) returns (ghost r: Request)
      requires w.Valid() && o in w.state.sessions && w.state.sessions[o].ttl == ttl
      requires var p := w.state.sessions[o].phase; (p.Holding? || p.Stopping?) && p.beat.Ticking?
      modifies w
      ensures r == Request.Renew(o, Unix(old(w.state.now) + ttl), LeaseObject(o, old(w.state.sessions[o].phase.lease)))
      ensures w.Valid() && w.Quiet(o) && w.troubles == old(w.troubles) && Onward(old(w.state), w.state)
      ensures var i, p := |old(w.state.requests)|, old(w.state.sessions[o].phase);
              && w.state.requests == old(w.state.requests) + [r] && i !in w.state.replies
              && InPhase(w.state, o, Lease.Renewed(p, i), ttl)
      ensures Sent(w.state.requests, o) == Sent(old(w.state.requests), o) + [r]
    {
      hide IsRun, Sent;
      OwnStepSends(w.state, SendRenew(o));
      ghost var n := |w.state.requests|;
      w.Do(SendRenew(o));
      r := w.state.requests[n];
      assert w.state.requests[n..] == [r];
    }

    /** The heartbeat goes on after a reply, or without one. */
    method AfterRenewal(w: World, o: Owner, reply: Option<Reply>)
      requires w.Valid() && o in w.state.sessions
      requires var p := w.state.sessions[o].phase; (p.Holding? || p.Stopping?) && p.beat.Renewing?
      requires reply.Some? ==>
                 var i := w.state.sessions[o].phase.beat.request;
                 Answered(w.state, o) && w.state.replies[i] == reply.value && w.state.requests[i].Renew?
      modifies w
      ensures w.Valid() && w.troubles == old(w.troubles) && Onward(old(w.state), w.state)
      ensures reply.Some? ==> w.Quiet(o)
      ensures w.state.requests == old(w.state.requests) && w.state.replies == old(w.state.replies)
      ensures o in w.state.sessions && w.state.sessions[o].ttl == old(w.state.sessions[o].ttl)
      ensures var p, q := old(w.state.sessions[o].phase), w.state.sessions[o].phase;
              && (q.Holding? || q.Stopping?)
              && q.lease == (if reply == Some(Written) then old(w.state.requests[w.state.sessions[o].phase.beat.request]).expiry
                             else p.lease)
              && q.beat == (if reply == Some(PreconditionFailed) then Stopped else Ticking)
    {
      hide IsRun;
      w.Do(if reply.Some? then Receive(o) else GiveUp(o));
    }

    /** One tick of the heartbeat; the session may begin to unlock meanwhile.
        `stopped` is the precondition failure, `unheard` any other error. */
    method Renew(w: World, o: Owner, etag: string) returns (stopped: bool, unheard: bool, next: string, ghost echo: Echo)
      requires w.Valid() && IsBeating(w.state, o, etag) && w.state.sessions[o].ttl == ttl
      modifies w
      ensures w.Asked(Request.Renew(o, Unix(old(w.state.now) + ttl), LeaseObject(o, old(w.state.sessions[o].phase.lease))))
      ensures w.Valid() && o in w.state.sessions && w.state.sessions[o].ttl == ttl
      ensures if stopped then HeartbeatStopped(w.state, o) else IsBeating(w.state, o, next)
      ensures if unheard then !stopped && next == etag else w.Quiet(o)
      ensures var r := Request.Renew(o, Unix(old(w.state.now) + ttl), LeaseObject(o, old(w.state.sessions[o].phase.lease)));
              && Sent(w.state.requests, o) == Sent(old(w.state.requests), o) + [r]
              && EchoIs(w.state, echo, r)
      ensures w.state.sessions[o].phase.lease ==
              if echo.Acked? then Unix(old(w.state.now) + ttl) else old(w.state.sessions[o].phase.lease)
      ensures (stopped <==> echo.Refused?) && (unheard <==> echo.Unheard?)
      ensures w.troubles == old(w.troubles) + (if unheard then 1 else 0) && Onward(old(w.state), w.state)
    {
      hide IsRun, Sent, Next;
      var expiry := Unix(w.state.now + ttl);
      ghost var r := SendRenewal(w, o);
      var renewed := w.Await(Beating, o);
      AfterRenewal(w, o, renewed);
      echo := if renewed.None? then Unheard else if renewed.value == Written then Acked
              else if renewed.value == PreconditionFailed then Refused else Absent;
      return renewed == Some(PreconditionFailed), renewed.None?,
             if renewed == Some(Written) then LockBody(o, FormatNat(expiry)) else etag, echo;
    }

    /** heartbeat for at most `ticks` ticks: each renews the lease, on condition of
        the session's last acknowledged write, until a renewal is refused or Unlock
        has begun.  A refusal means that the lock is lost, unless what is stored is a
        renewal that went unheard; when none of its renewals did, it is lost for
        certain. */
    method Heartbeat(w: World, o: Owner, etag: string, ticks: nat)
        returns (stopped: bool, unheard: bool, last: string, ghost beats: seq<Echo>)
      requires w.Valid() && IsHolding(w.state, o, etag) && w.state.sessions[o].ttl == ttl
      modifies w
      ensures w.Valid() && if stopped then HeartbeatStopped(w.state, o) else IsBeating(w.state, o, last)
      ensures |beats| <= ticks && (|beats| == ticks || stopped || w.state.sessions[o].phase.Stopping?)
      ensures var was, mine := Sent(old(w.state.requests), o), Sent(w.state.requests, o);
              && was <= mine && |mine| == |was| + |beats|
              && Renewals(w.state, o, old(w.state.sessions[o].phase.lease), Unix(old(w.state.now) + ttl), mine[|was|..], beats)
              && w.state.sessions[o].phase.lease == LeaseOf(old(w.state.sessions[o].phase.lease), mine[|was|..], beats)
      ensures stopped <==> beats != [] && beats[|beats| - 1].Refused?
      ensures unheard <==> w.troubles > old(w.troubles)
      ensures w.troubles == old(w.troubles) + Count(beats, Unheard)
      ensures !unheard ==> w.Quiet(o)
      ensures stopped ==>
                (o in w.state.past <==> !exists j: nat :: Stray(w.state, Heard(w.run, w.events, |w.events|, o), o, j))
      ensures stopped && !unheard && NeverGaveUp(old(w.events), o) ==> o in w.state.past
    {
      hide IsRun, Sent, Stray, Beaten, LeaseOf, EchoIs, Onward;
      stopped, unheard, last, beats := false, false, etag, [];
      ghost var since := Since(Sent(w.state.requests, o), w.state.sessions[o].phase.lease, Unix(w.state.now + ttl));
      ghost var sent := [];
      StartsBeating(w.state, o, ttl);
      var left := ticks;
      var ended := false;
      while left > 0 && !stopped && !ended
        decreases left, !ended
        invariant w.Valid() && Beaten(w.state, o, ttl, since, sent, beats) && o in w.state.sessions
        invariant if stopped then HeartbeatStopped(w.state, o) else IsBeating(w.state, o, last)
        invariant |beats| == ticks - left && (ended ==> w.state.sessions[o].phase.Stopping?)
        invariant stopped <==> beats != [] && beats[|beats| - 1].Refused?
        invariant unheard <==> w.troubles > old(w.troubles)
        invariant w.troubles == old(w.troubles) + Count(beats, Unheard)
        invariant !unheard ==> w.Quiet(o)
      {
        var missed;
        ended, stopped, missed, last, sent, beats := Turn(w, o, last, since, sent, beats);
        unheard := unheard || missed;
        left := if ended then left else left - 1;
      }
      BeatsSince(w.state, o, ttl, since, sent, beats);
      if stopped {
        w.OnceStopped(o);
      }
    }

    /** Waits for a tick, or for Unlock to begin. */
    method Turn(w: World, o: Owner, etag: string, ghost since: Since, ghost sent: seq<Request>, ghost beats: seq<Echo>)
        returns (ended: bool, stopped: bool, unheard: bool, next: string, ghost sent': seq<Request>, ghost beats': seq<Echo>)
      requires w.Valid() && IsBeating(w.state, o, etag) && Beaten(w.state, o, ttl, since, sent, beats)
      modifies w
      ensures w.Valid() && Beaten(w.state, o, ttl, since, sent', beats') && o in w.state.sessions
      ensures if stopped then HeartbeatStopped(w.state, o) else IsBeating(w.state, o, next)
      ensures if ended then beats' == beats && !stopped && !unheard && w.state.sessions[o].phase.Stopping?
              else |beats'| == |beats| + 1 && beats' == beats + [beats'[|beats|]]
                   && (stopped <==> beats'[|beats|].Refused?)
      ensures w.troubles == old(w.troubles) + if unheard then 1 else 0
      ensures Count(beats', Unheard) == Count(beats, Unheard) + if unheard then 1 else 0
      ensures !unheard ==> w.Quiet(o)
    {
      hide IsRun, Sent, LeaseOf, EchoIs, Onward, Renewals, Count;
      ghost var s := w.state;
      w.Pass(Beating, o, None);
      WaitingBeats(s, w.state, o, ttl, since, sent, beats);
      var stop: bool := *;
      if stop && w.state.sessions[o].phase.Stopping? {
        return true, false, false, etag, sent, beats;
      }
      s := w.state;
      ghost var echo;
      stopped, unheard, next, echo := Renew(w, o, etag);
      RenewingBeats(s, w.state, o, ttl, since, sent, beats, echo);
      ghost var r := Request.Renew(o, Unix(s.now + ttl), LeaseObject(o, s.sessions[o].phase.lease));
      return false, stopped, unheard, next, sent + [r], beats + [echo];
    }

    /** Unlock: when it succeeds, no object of the session is in the store. */
    method Unlock(w: World, name: string) returns (ok: bool)
      requires w.Valid()
      requires name in held ==>
                 held[name] in w.state.sessions && w.state.sessions[held[name]].phase.Holding?
      modifies this, w
      ensures w.Valid() && held == old(held) - {name}
      ensures name !in old(held) ==> ok && w.state == old(w.state)
      ensures !ok ==> w.troubles > old(w.troubles)
      ensures name in old(held) ==>
                && var o := old(held[name]);
                && o in w.state.sessions && (if ok then w.state.sessions[o].phase.Released? else w.state.sessions[o].phase.Over?)
                && (ok ==> o in w.state.past && (w.state.store.Some? ==> w.state.store.value.owner != o))
    {
      if name !in held {
        held := held - {name};
        return true;
      }
      var o := held[name];
      held := held - {name};
      w.Do(BeginUnlock(o));
      JoinHeartbeat(w, o);
      ok := Release(w, o);
    }

    /** Unlock from its HeadObject on. */
    method Release(w: World, o: Owner) returns (ok: bool)
      requires w.Valid() && o in w.state.sessions
      requires w.state.sessions[o].phase.Stopping? && !w.state.sessions[o].phase.beat.Renewing?
      modifies w
      ensures w.Asked(Inspect(o))
      ensures w.Valid() && o in w.state.sessions
      ensures if ok then w.state.sessions[o].phase.Released? else w.state.sessions[o].phase.Over?
      ensures !ok ==> w.troubles > old(w.troubles)
      ensures ok ==> o in w.state.past && (w.state.store.Some? ==> w.state.store.value.owner != o)
    {
      hide IsRun, Sent, Creates, Next, Enabled;
      ghost var i := |w.state.requests|;
      CheckMoves(w.state, o);
      w.Move(o, SendCheck(o), [Inspect(o)], Checking(i));
      var head := w.Await(Caller, o);
      if head.None? {
        GivesUp(w.state, o);
        w.Move(o, GiveUp(o), [], Over);
        return false;
      }
      CheckedMoves(w.state, o, i, head.value);
      if head.value.Found? && head.value.lock.owner == o {
        ok := RemoveLock(w, o, head.value.lock);
        return;
      }
      w.Move(o, Receive(o), [], Released);
      w.OnceReleased(o);
      return true;
    }

    /** The DeleteObject of Unlock. */
    method RemoveLock(w: World, o: Owner, head: LockObject) returns (ok: bool)
      requires w.Valid() && o in w.state.sessions && w.state.sessions[o].phase.Checking? && head.owner == o
      requires Reads(w.state, o, w.state.sessions[o].phase.request, Found(head))
      modifies w
      ensures w.Asked(Request.Remove(o, head))
      ensures w.Valid() && o in w.state.sessions
      ensures if ok then w.state.sessions[o].phase.Released? else w.state.sessions[o].phase.Over?
      ensures w.troubles == old(w.troubles) + if ok then 0 else 1
      ensures ok ==> o in w.state.past && (w.state.store.Some? ==> w.state.store.value.owner != o)
    {
      hide IsRun, Sent, Creates, Next, Enabled;
      ghost var i := |w.state.requests|;
      CheckedMoves(w.state, o, w.state.sessions[o].phase.request, Found(head));
      w.Move(o, Receive(o), [Request.Remove(o, head)], Removing(i));
      var removed := w.Await(Caller, o);
      if removed.None? {
        GivesUp(w.state, o);
        w.Move(o, GiveUp(o), [], Over);
        return false;
      }
      RemovedMoves(w.state, o, i, removed.value);
      w.Move(o, Receive(o), [], Released);
      w.OnceReleased(o);
      return true;
    }

    /** close(h.stop) and the wait for h.done. */
    method JoinHeartbeat(w: World, o: Owner)
      requires w.Valid() && o in w.state.sessions && w.state.sessions[o].phase.Stopping?
      modifies w
      ensures w.Valid() && o in w.state.sessions
      ensures w.state.sessions[o].phase.Stopping? && !w.state.sessions[o].phase.beat.Renewing?
      ensures w.troubles == old(w.troubles)
    {
      w.Pass(Joining, o, None);
      if w.state.sessions[o].phase.beat.Renewing? {
        w.Do(GiveUp(o));
      }
    }
  }
}
