/** The lease protocol of S3Locker (lock_s3.go) for one lock object, as a step
    relation over any number of Lock calls.

    A session is one Lock call together with the heartbeat and the Unlock that
    follow it; it is identified by the random owner id the call draws.  Requests
    are asynchronous: sending only records the request, it reaches the store at
    most once at any later time (even after its session gave up or crashed), and
    its reply may never be read.  Time is one shared clock in nanoseconds. */
module Lease {
  import opened Common
  import opened LeaseText

  const NANOS_PER_SECOND: nat := 1_000_000_000

  type Owner = string

  /** Metadata of the lock object; the body is LockBody(owner, expiry). */
  datatype LockObject = LockObject(owner: Owner, expiry: string)

  datatype Request =
    | Create(owner: Owner, expiry: nat)                        // If-None-Match: *
    | TakeOver(owner: Owner, expiry: nat, target: LockObject)   // If-Match: etag of the object inspected
    | Renew(owner: Owner, expiry: nat, target: LockObject)      // If-Match: etag of the last own write
    | Inspect(owner: Owner)                                    // HeadObject
    | Remove(owner: Owner, seen: LockObject)                   // DeleteObject after seeing `seen`

  datatype Reply =
    | Written
    | PreconditionFailed
    | NotFound
    | Found(lock: LockObject)
    | Removed

  /** What the renewal goroutine is doing. */
  datatype Beat = Ticking | Renewing(request: nat) | Stopped

  datatype Phase =
    | Polling                            // before the next creation attempt
    | Creating(request: nat)
    | Inspecting(request: nat)
    | TakingOver(request: nat)
    | Holding(lease: nat, beat: Beat)    // Lock returned; lease is the deadline last acknowledged
    | Stopping(lease: nat, beat: Beat)   // Unlock waits for the heartbeat to exit
    | Checking(request: nat)             // Unlock's HeadObject
    | Removing(request: nat)             // Unlock's DeleteObject
    | Released                           // Unlock returned without an error
    | Over                               // failed, cancelled or crashed

  datatype Session = Session(ttl: nat, phase: Phase)

  /** `past` is a history variable: owners whose object was replaced or removed. */
  datatype State = State(
    now: nat,
    store: Option<LockObject>,
    requests: seq<Request>,
    replies: map<nat, Reply>,
    sessions: map<Owner, Session>,
    past: set<Owner>)

  datatype Event =
    | Tick(time: nat)
    | Start(owner: Owner, ttl: nat)
    | SendCreate(owner: Owner)
    | Land(request: nat, reply: Reply)
    | Receive(owner: Owner)
    | GiveUp(owner: Owner)
    | SendRenew(owner: Owner)
    | BeginUnlock(owner: Owner)
    | SendCheck(owner: Owner)
    | Crash(owner: Owner)

  function Unix(t: nat): nat {
    t / NANOS_PER_SECOND
  }

  function LeaseObject(owner: Owner, expiry: nat): LockObject {
    LockObject(owner, FormatNat(expiry))
  }

  function ETag(o: LockObject): string {
    LockBody(o.owner, o.expiry)
  }

  /** The check of tryAcquire: the deadline parses and has not passed. */
  predicate Unexpired(o: LockObject, now: nat) {
    var e := ParseInt(o.expiry);
    e.Some? && Unix(now) <= e.value
  }

  predicate Acquiring(r: Request) {
    r.Create? || r.TakeOver?
  }

  // ---------------------------------------------------------------- the store

  predicate Matches(store: Option<LockObject>, o: LockObject) {
    store.Some? && ETag(store.value) == ETag(o)
  }

  function Effect(store: Option<LockObject>, r: Request): Option<LockObject> {
    match r
    case Create(o, e) => if store.None? then Some(LeaseObject(o, e)) else store
    case TakeOver(o, e, m) => if Matches(store, m) then Some(LeaseObject(o, e)) else store
    case Renew(o, e, m) => if Matches(store, m) then Some(LeaseObject(o, e)) else store
    case Inspect(_) => store
    case Remove(_, _) => None
  }

  /** A failed If-Match answers 412, or 404 when the object is gone. */
  predicate Answers(store: Option<LockObject>, r: Request, reply: Reply) {
    match r
    case Create(_, _) => reply == if store.None? then Written else PreconditionFailed
    case TakeOver(_, _, m) =>
      if Matches(store, m) then reply == Written
      else reply == PreconditionFailed || (reply == NotFound && store.None?)
    case Renew(_, _, m) =>
      if Matches(store, m) then reply == Written
      else reply == PreconditionFailed || (reply == NotFound && store.None?)
    case Inspect(_) => reply == if store.Some? then Found(store.value) else NotFound
    case Remove(_, _) => reply == Removed || (reply == NotFound && store.None?)
  }

  function Retired(before: Option<LockObject>, after: Option<LockObject>): set<Owner> {
    if before.Some? && (after.None? || after.value.owner != before.value.owner)
    then {before.value.owner} else {}
  }

  // ------------------------------------------------------------- the sessions

  function WithPhase(s: State, o: Owner, p: Phase): State
    requires o in s.sessions
  {
    s.(sessions := s.sessions[o := s.sessions[o].(phase := p)])
  }

  /** Sends r and moves the session to the phase awaiting it. */
  function Send(s: State, o: Owner, r: Request, p: Phase): State
    requires o in s.sessions
  {
    WithPhase(s, o, p).(requests := s.requests + [r])
  }

  function Deadline(s: State, o: Owner): nat
    requires o in s.sessions
  {
    Unix(s.now + s.sessions[o].ttl)
  }

  /** The request a phase is waiting for. */
  function Awaited(p: Phase): Option<nat> {
    match p
    case Creating(i) => Some(i)
    case Inspecting(i) => Some(i)
    case TakingOver(i) => Some(i)
    case Holding(_, Renewing(i)) => Some(i)
    case Stopping(_, Renewing(i)) => Some(i)
    case Checking(i) => Some(i)
    case Removing(i) => Some(i)
    case _ => None
  }

  predicate Answered(s: State, o: Owner) {
    && o in s.sessions
    && var a := Awaited(s.sessions[o].phase);
    && a.Some? && a.value < |s.requests| && a.value in s.replies
  }

  /** The heartbeat's reaction to the reply of its renewal. */
  function BeatAfter(reply: Reply): Beat {
    if reply == PreconditionFailed then Stopped else Ticking
  }

  function LeaseAfter(lease: nat, r: Request, reply: Reply): nat {
    if reply == Written && r.Renew? then r.expiry else lease
  }

  /** Local code of the session up to its next request or return. */
  function OnReply(s: State, o: Owner): State
    requires Answered(s, o)
  {
    var id := Awaited(s.sessions[o].phase).value;
    var r, reply := s.requests[id], s.replies[id];
    var next := |s.requests|;
    match s.sessions[o].phase
    case Creating(_) =>
      if reply == Written && r.Create? then WithPhase(s, o, Holding(r.expiry, Ticking))
      else Send(s, o, Inspect(o), Inspecting(next))
    case Inspecting(_) =>
      if reply.Found? && !Unexpired(reply.lock, s.now) then
        Send(s, o, TakeOver(o, Deadline(s, o), reply.lock), TakingOver(next))
      else WithPhase(s, o, Polling)
    case TakingOver(_) =>
      if reply == Written && r.TakeOver? then WithPhase(s, o, Holding(r.expiry, Ticking))
      else if reply == PreconditionFailed then WithPhase(s, o, Polling)
      else WithPhase(s, o, Over)
    case Holding(lease, _) => WithPhase(s, o, Holding(LeaseAfter(lease, r, reply), BeatAfter(reply)))
    case Stopping(lease, _) => WithPhase(s, o, Stopping(LeaseAfter(lease, r, reply), BeatAfter(reply)))
    case Checking(_) =>
      if reply.Found? && reply.lock.owner == o then
        Send(s, o, Remove(o, reply.lock), Removing(next))
      else WithPhase(s, o, Released)
    case _ => WithPhase(s, o, Released)
  }

  /** What a session does when a request fails with any other error, or its
      context is done: only the heartbeat carries on. */
  function OnFailure(p: Phase): Phase {
    match p
    case Holding(lease, Renewing(_)) => Holding(lease, Ticking)
    case Holding(_, _) => p
    case Stopping(lease, Renewing(_)) => Stopping(lease, Ticking)
    case Stopping(_, _) => p
    case Released => p
    case _ => Over
  }

  /** Fresh owner ids are single-line and name no object seen so far. */
  predicate Fresh(s: State, o: Owner) {
    && OneLine(o) && o !in s.sessions && o !in s.past
    && (s.store.Some? ==> s.store.value.owner != o)
  }

  predicate Enabled(s: State, ev: Event) {
    match ev
    case Tick(t) => s.now <= t
    case Start(o, _) => Fresh(s, o)
    case SendCreate(o) => o in s.sessions && s.sessions[o].phase.Polling?
    case Land(i, reply) => i < |s.requests| && i !in s.replies && Answers(s.store, s.requests[i], reply)
    case Receive(o) => Answered(s, o)
    case GiveUp(o) => o in s.sessions
    case SendRenew(o) =>
      && o in s.sessions
      && (s.sessions[o].phase.Holding? || s.sessions[o].phase.Stopping?)
      && s.sessions[o].phase.beat.Ticking?
    case BeginUnlock(o) => o in s.sessions && s.sessions[o].phase.Holding?
    case SendCheck(o) =>
      o in s.sessions && s.sessions[o].phase.Stopping? && !s.sessions[o].phase.beat.Renewing?
    case Crash(o) => o in s.sessions
  }

  function Renewed(p: Phase, id: nat): Phase
    requires p.Holding? || p.Stopping?
  {
    if p.Holding? then Holding(p.lease, Renewing(id)) else Stopping(p.lease, Renewing(id))
  }

  function Next(s: State, ev: Event): State
    requires Enabled(s, ev)
  {
    match ev
    case Tick(t) => s.(now := t)
    case Start(o, ttl) => s.(sessions := s.sessions[o := Session(ttl, Polling)])
    case SendCreate(o) => Send(s, o, Create(o, Deadline(s, o)), Creating(|s.requests|))
    case Land(i, reply) =>
      var after := Effect(s.store, s.requests[i]);
      s.(store := after, replies := s.replies[i := reply], past := s.past + Retired(s.store, after))
    case Receive(o) => OnReply(s, o)
    case GiveUp(o) => WithPhase(s, o, OnFailure(s.sessions[o].phase))
    case SendRenew(o) =>
      var p := s.sessions[o].phase;
      Send(s, o, Renew(o, Deadline(s, o), LeaseObject(o, p.lease)), Renewed(p, |s.requests|))
    case BeginUnlock(o) =>
      var p := s.sessions[o].phase;
      WithPhase(s, o, Stopping(p.lease, p.beat))
    case SendCheck(o) => Send(s, o, Inspect(o), Checking(|s.requests|))
    case Crash(o) => WithPhase(s, o, if s.sessions[o].phase.Released? then Released else Over)
  }

  /** Any lock object, even one with an unparsable deadline, may be left over. */
  predicate Init(s: State) {
    && s.requests == [] && s.replies == map[] && s.sessions == map[] && s.past == {}
    && (s.store.Some? ==> OneLine(s.store.value.owner))
  }

  /** Unlock deletes unconditionally; a delete is timely when it reaches the
      store before the lease its HeadObject saw has expired. */
  predicate Timely(s: State, ev: Event) {
    (ev.Land? && ev.request < |s.requests| && s.requests[ev.request].Remove?) ==>
      Unexpired(s.requests[ev.request].seen, s.now)
  }

  predicate Stepped(s: State, ev: Event, t: State) {
    Enabled(s, ev) && t == Next(s, ev)
  }

  predicate StepAt(run: seq<State>, events: seq<Event>, i: nat)
    requires |run| == |events| + 1 && i < |events|
  {
    Stepped(run[i], events[i], run[i + 1])
  }

  predicate TimelyAt(run: seq<State>, events: seq<Event>, i: nat)
    requires |run| == |events| + 1 && i < |events|
  {
    Timely(run[i], events[i])
  }

  ghost predicate IsRun(run: seq<State>, events: seq<Event>) {
    && |run| == |events| + 1
    && Init(run[0])
    && forall i :: 0 <= i < |events| ==> StepAt(run, events, i)
  }

  ghost predicate IsTimelyRun(run: seq<State>, events: seq<Event>) {
    && IsRun(run, events)
    && forall i :: 0 <= i < |events| ==> TimelyAt(run, events, i)
  }

  lemma RunExtends(run: seq<State>, events: seq<Event>, s: State, ev: Event, t: State)
    requires IsRun(run, events) && run[|events|] == s && Stepped(s, ev, t)
    ensures IsRun(run + [t], events + [ev])
  {
    forall i | 0 <= i < |events + [ev]|
      ensures StepAt(run + [t], events + [ev], i)
    {
      if i < |events| {
        assert StepAt(run, events, i);
      }
    }
  }

  // --------------------------------------------------- what every run keeps

  /** Owner o's object has reached the store. */
  predicate HasWritten(s: State, o: Owner) {
    o in s.past || (s.store.Some? && s.store.value.owner == o)
  }

  predicate InFlight(s: State, i: nat) {
    i < |s.requests| && i !in s.replies
  }

  predicate WriteAcknowledged(s: State, i: nat) {
    i in s.replies && s.replies[i] == Written
  }

  predicate RequestShape(s: State, i: nat)
    requires i < |s.requests|
  {
    var r := s.requests[i];
    && r.owner in s.sessions
    && (r.TakeOver? ==> OneLine(r.target.owner) && r.target.owner != r.owner)
    && (r.Renew? ==> OneLine(r.target.owner) && r.target.owner == r.owner)
    && (Acquiring(r) && InFlight(s, i) ==> !HasWritten(s, r.owner))
    && (r.TakeOver? && WriteAcknowledged(s, i) ==> r.target.owner in s.past)
    && (i in s.replies && s.replies[i].Found? ==> OneLine(s.replies[i].lock.owner))
  }

  /** Only the awaited acquisition of a session can still be in flight. */
  ghost predicate NoOtherAcquisition(s: State, o: Owner, id: Option<nat>) {
    forall i :: 0 <= i < |s.requests| && Acquiring(s.requests[i]) && s.requests[i].owner == o && InFlight(s, i)
      ==> id == Some(i)
  }

  predicate Awaits(s: State, o: Owner, i: nat) {
    i < |s.requests| && s.requests[i].owner == o
  }

  ghost predicate SessionShape(s: State, o: Owner)
    requires o in s.sessions
  {
    && OneLine(o)
    && match s.sessions[o].phase
       case Polling => !HasWritten(s, o) && NoOtherAcquisition(s, o, None)
       case Creating(i) =>
         && Awaits(s, o, i) && s.requests[i].Create? && NoOtherAcquisition(s, o, Some(i))
         && (HasWritten(s, o) ==> WriteAcknowledged(s, i))
       case TakingOver(i) =>
         && Awaits(s, o, i) && s.requests[i].TakeOver? && NoOtherAcquisition(s, o, Some(i))
         && (HasWritten(s, o) ==> WriteAcknowledged(s, i))
       case Inspecting(i) =>
         && Awaits(s, o, i) && s.requests[i].Inspect?
         && !HasWritten(s, o) && NoOtherAcquisition(s, o, None)
         && (i in s.replies && s.replies[i].Found? ==> s.replies[i].lock.owner != o)
       case Holding(_, b) => NoOtherAcquisition(s, o, None) && BeatShape(s, o, b)
       case Stopping(_, b) => NoOtherAcquisition(s, o, None) && BeatShape(s, o, b)
       case Checking(i) => Awaits(s, o, i) && s.requests[i].Inspect? && NoOtherAcquisition(s, o, None)
       case Removing(i) => Awaits(s, o, i) && s.requests[i].Remove? && NoOtherAcquisition(s, o, None)
       case Released => true
       case Over => true
  }

  predicate BeatShape(s: State, o: Owner, b: Beat) {
    b.Renewing? ==> Awaits(s, o, b.request) && s.requests[b.request].Renew?
  }

  ghost predicate OneAcquisitionEach(s: State) {
    forall i, j :: 0 <= i < j < |s.requests| && Acquiring(s.requests[i]) && Acquiring(s.requests[j])
                   && s.requests[i].owner == s.requests[j].owner
      ==> !(InFlight(s, i) && InFlight(s, j))
  }

  /** At most one takeover ever succeeds against the objects of one owner. */
  ghost predicate OneTakeOverEach(s: State) {
    forall i, j :: 0 <= i < j < |s.requests| && s.requests[i].TakeOver? && s.requests[j].TakeOver?
                   && s.requests[i].target.owner == s.requests[j].target.owner
      ==> !(WriteAcknowledged(s, i) && WriteAcknowledged(s, j))
  }

  ghost predicate Shape(s: State) {
    && (s.store.Some? ==> OneLine(s.store.value.owner) && s.store.value.owner !in s.past)
    && (forall i :: i in s.replies ==> i < |s.requests|)
    && (forall i :: 0 <= i < |s.requests| ==> RequestShape(s, i))
    && (forall o :: o in s.sessions ==> SessionShape(s, o))
    && OneAcquisitionEach(s)
    && OneTakeOverEach(s)
  }

  lemma MatchIsSame(s: State, m: LockObject)
    requires Shape(s) && OneLine(m.owner) && Matches(s.store, m)
    ensures s.store.value == m
  {
    LockBodyInjective(s.store.value.owner, s.store.value.expiry, m.owner, m.expiry);
  }

  lemma RequestAfterLand(s: State, i: nat, reply: Reply, j: nat)
    requires Shape(s) && Enabled(s, Land(i, reply)) && j < |s.requests|
    ensures RequestShape(Next(s, Land(i, reply)), j)
  {
    var r := s.requests[i];
    assert RequestShape(s, i) && RequestShape(s, j);
    if (r.TakeOver? || r.Renew?) && Matches(s.store, r.target) {
      MatchIsSame(s, r.target);
    }
  }

  lemma SessionAfterLand(s: State, i: nat, reply: Reply, o: Owner)
    requires Shape(s) && Enabled(s, Land(i, reply)) && o in s.sessions
    ensures SessionShape(Next(s, Land(i, reply)), o)
  {
    var r := s.requests[i];
    assert RequestShape(s, i) && SessionShape(s, o);
    if (r.TakeOver? || r.Renew?) && Matches(s.store, r.target) {
      MatchIsSame(s, r.target);
    }
  }

  lemma LandKeepsShape(s: State, i: nat, reply: Reply)
    requires Shape(s) && Enabled(s, Land(i, reply))
    ensures Shape(Next(s, Land(i, reply)))
  {
    var t := Next(s, Land(i, reply));
    forall o | o in t.sessions
      ensures SessionShape(t, o)
    {
      SessionAfterLand(s, i, reply, o);
    }
    forall j | 0 <= j < |t.requests|
      ensures RequestShape(t, j)
    {
      RequestAfterLand(s, i, reply, j);
    }
    var r := s.requests[i];
    assert RequestShape(s, i);
    if r.Renew? && Matches(s.store, r.target) {
      MatchIsSame(s, r.target);
    }
    if r.TakeOver? && Matches(s.store, r.target) {
      MatchIsSame(s, r.target);
      forall j | 0 <= j < |s.requests| && s.requests[j].TakeOver? && s.requests[j].target.owner == r.target.owner
        ensures !WriteAcknowledged(s, j)
      {
        assert RequestShape(s, j);
      }
    }
  }

  /** Session steps leave the store alone. */
  lemma StepKeepsStore(s: State, ev: Event)
    requires Enabled(s, ev) && !ev.Land?
    ensures var t := Next(s, ev);
            && s.requests <= t.requests && t.replies == s.replies && t.store == s.store && t.past == s.past
            && s.sessions.Keys <= t.sessions.Keys
  {
  }

  lemma RequestShapeFrame(s: State, t: State, j: nat)
    requires j < |s.requests| && RequestShape(s, j)
    requires s.requests <= t.requests && t.replies == s.replies && t.store == s.store && t.past == s.past
    requires s.sessions.Keys <= t.sessions.Keys
    ensures RequestShape(t, j)
  {
  }

  lemma RequestAfterStep(s: State, ev: Event, j: nat)
    requires Shape(s) && Enabled(s, ev) && !ev.Land? && j < |Next(s, ev).requests|
    ensures RequestShape(Next(s, ev), j)
  {
    if j < |s.requests| {
      StepKeepsStore(s, ev);
      RequestShapeFrame(s, Next(s, ev), j);
    } else {
      NewRequestShape(s, ev);
    }
  }

  lemma NewRequestShape(s: State, ev: Event)
    requires Shape(s) && Enabled(s, ev) && !ev.Land? && |s.requests| < |Next(s, ev).requests|
    ensures RequestShape(Next(s, ev), |s.requests|)
  {
    assert SessionShape(s, ev.owner);
    if ev.Receive? {
      assert RequestShape(s, Awaited(s.sessions[ev.owner].phase).value);
    }
  }

  lemma NewSessionShape(s: State, o: Owner, ttl: nat)
    requires Shape(s) && Enabled(s, Start(o, ttl))
    ensures SessionShape(Next(s, Start(o, ttl)), o)
  {
    forall i | 0 <= i < |s.requests|
      ensures s.requests[i].owner != o
    {
      assert RequestShape(s, i);
    }
  }

  /** A session is not affected by requests of others. */
  lemma SessionShapeFrame(s: State, t: State, o: Owner)
    requires o in s.sessions && o in t.sessions && t.sessions[o] == s.sessions[o] && SessionShape(s, o)
    requires s.requests <= t.requests && t.replies == s.replies && t.store == s.store && t.past == s.past
    requires forall i :: |s.requests| <= i < |t.requests| ==> t.requests[i].owner != o
    ensures SessionShape(t, o)
  {
    assert forall p :: NoOtherAcquisition(s, o, p) ==> NoOtherAcquisition(t, o, p);
  }

  lemma OtherSessionShape(s: State, ev: Event, o: Owner)
    requires Shape(s) && Enabled(s, ev) && !ev.Land? && o in s.sessions
    requires ev.Tick? || ev.owner != o
    ensures SessionShape(Next(s, ev), o)
  {
    assert SessionShape(s, o);
    SessionShapeFrame(s, Next(s, ev), o);
  }

  lemma ReceivingSessionShape(s: State, o: Owner)
    requires Shape(s) && Enabled(s, Receive(o))
    ensures SessionShape(Next(s, Receive(o)), o)
  {
    var p := s.sessions[o].phase;
    if p.Creating? || p.TakingOver? {
      AcquiringShape(s, o);
    } else if p.Inspecting? {
      InspectingShape(s, o);
    } else {
      assert SessionShape(s, o);
    }
  }

  lemma AcquiringShape(s: State, o: Owner)
    requires Shape(s) && Enabled(s, Receive(o)) && (s.sessions[o].phase.Creating? || s.sessions[o].phase.TakingOver?)
    ensures SessionShape(Next(s, Receive(o)), o)
  {
    assert SessionShape(s, o);
  }

  lemma InspectingShape(s: State, o: Owner)
    requires Shape(s) && Enabled(s, Receive(o)) && s.sessions[o].phase.Inspecting?
    ensures SessionShape(Next(s, Receive(o)), o)
  {
    assert SessionShape(s, o);
  }

  lemma ActingSessionShape(s: State, ev: Event, o: Owner)
    requires Shape(s) && Enabled(s, ev) && !ev.Land? && !ev.Tick? && !ev.Start? && !ev.Receive? && ev.owner == o
    ensures SessionShape(Next(s, ev), o)
  {
    assert SessionShape(s, o);
  }

  /** A session step sends at most one request, and only an idle session acquires. */
  lemma StepSendsOne(s: State, ev: Event)
    requires Shape(s) && Enabled(s, ev) && !ev.Land?
    ensures var t, n := Next(s, ev), |s.requests|;
            && t.replies == s.replies && s.requests <= t.requests && |t.requests| <= n + 1
            && n !in t.replies
            && (|t.requests| > n && Acquiring(t.requests[n]) ==> NoOtherAcquisition(s, t.requests[n].owner, None))
  {
    if |Next(s, ev).requests| > |s.requests| {
      assert SessionShape(s, ev.owner);
    }
  }

  lemma StepKeepsPairs(s: State, ev: Event)
    requires Shape(s) && Enabled(s, ev) && !ev.Land?
    ensures OneAcquisitionEach(Next(s, ev)) && OneTakeOverEach(Next(s, ev))
  {
    StepSendsOne(s, ev);
    PairsKept(s, Next(s, ev));
  }

  lemma PairsKept(s: State, t: State)
    requires OneAcquisitionEach(s) && OneTakeOverEach(s)
    requires t.replies == s.replies && s.requests <= t.requests && |t.requests| <= |s.requests| + 1
    requires |s.requests| !in t.replies
    requires |t.requests| > |s.requests| && Acquiring(t.requests[|s.requests|]) ==>
               NoOtherAcquisition(s, t.requests[|s.requests|].owner, None)
    ensures OneAcquisitionEach(t) && OneTakeOverEach(t)
  {
  }

  lemma SessionStepKeepsShape(s: State, ev: Event)
    requires Shape(s) && Enabled(s, ev) && !ev.Land?
    ensures Shape(Next(s, ev))
  {
    hide SessionShape, RequestShape, OneAcquisitionEach, OneTakeOverEach;
    var t := Next(s, ev);
    forall j | 0 <= j < |t.requests|
      ensures RequestShape(t, j)
    {
      RequestAfterStep(s, ev, j);
    }
    forall o | o in t.sessions
      ensures SessionShape(t, o)
    {
      if ev.Tick? || ev.owner != o {
        OtherSessionShape(s, ev, o);
      } else if ev.Start? {
        NewSessionShape(s, o, ev.ttl);
      } else if ev.Receive? {
        ReceivingSessionShape(s, o);
      } else {
        ActingSessionShape(s, ev, o);
      }
    }
    StepKeepsPairs(s, ev);
    assert t.replies == s.replies && t.store == s.store && t.past == s.past && |s.requests| <= |t.requests|;
  }
}
