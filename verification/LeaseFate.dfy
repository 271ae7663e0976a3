/** What becomes of a session's lock object: what Unlock's success means, and what
    the precondition failure of a renewal means (lock_s3.go, Unlock and
    heartbeat), in every run, timely or not. */
module LeaseFate {
  import opened Common
  import opened LeaseText
  import opened Lease
  import opened LeaseSafety
  import opened LeaseNecessity

  // ------------------------------------------------------- what Unlock leaves

  /** A session that got its lock has had its object in the store, and one whose
      Unlock succeeded has it there no more. */
  predicate Fate(s: State, o: Owner)
    requires o in s.sessions
  {
    match s.sessions[o].phase
    case Creating(i) => WriteAcknowledged(s, i) ==> HasWritten(s, o)
    case TakingOver(i) => WriteAcknowledged(s, i) ==> HasWritten(s, o)
    case Holding(_, _) => HasWritten(s, o)
    case Stopping(_, _) => HasWritten(s, o)
    case Checking(i) =>
      && HasWritten(s, o)
      && (i in s.replies && !(s.replies[i].Found? && s.replies[i].lock.owner == o) ==> o in s.past)
    case Removing(i) => HasWritten(s, o) && (i in s.replies ==> o in s.past)
    case Released => o in s.past
    case _ => true
  }

  lemma WrittenStays(s: State, ev: Event, o: Owner)
    requires Enabled(s, ev)
    ensures HasWritten(s, o) ==> HasWritten(Next(s, ev), o)
    ensures s.past <= Next(s, ev).past
  {
  }

  lemma LandKeepsFate(s: State, i: nat, reply: Reply, o: Owner)
    requires Shape(s) && Enabled(s, Land(i, reply)) && o in s.sessions && Fate(s, o)
    ensures Fate(Next(s, Land(i, reply)), o)
  {
    assert SessionShape(s, o);
    WrittenStays(s, Land(i, reply), o);
  }

  lemma StepKeepsFate(s: State, ev: Event, o: Owner)
    requires Shape(s) && Enabled(s, ev) && !ev.Land? && o in Next(s, ev).sessions
    requires o in s.sessions ==> Fate(s, o)
    ensures Fate(Next(s, ev), o)
  {
    WrittenStays(s, ev, o);
    if o in s.sessions {
      assert SessionShape(s, o);
      if !ev.Tick? && ev.owner == o {
        OwnStepKeepsFate(s, ev, o);
      }
    }
  }

  lemma OwnStepKeepsFate(s: State, ev: Event, o: Owner)
    requires Shape(s) && Enabled(s, ev) && !ev.Land? && !ev.Tick? && ev.owner == o && o in s.sessions && Fate(s, o)
    ensures Fate(Next(s, ev), o)
  {
    WrittenStays(s, ev, o);
    assert SessionShape(s, o);
  }

  lemma {:induction false} RunKeepsFate(run: seq<State>, events: seq<Event>, k: nat, o: Owner)
    requires IsRun(run, events) && k < |run| && o in run[k].sessions
    ensures Fate(run[k], o)
  {
    if k > 0 {
      RunKeepsShape(run, events, k - 1);
      assert StepAt(run, events, k - 1);
      if o in run[k - 1].sessions {
        RunKeepsFate(run, events, k - 1, o);
      }
      if events[k - 1].Land? {
        LandKeepsFate(run[k - 1], events[k - 1].request, events[k - 1].reply, o);
      } else {
        StepKeepsFate(run[k - 1], events[k - 1], o);
      }
    }
  }

  // ------------------------------------ how an object can have left the store

  /** Request j took the object of o out of the store: its own delete landed, or a
      takeover of it did. */
  predicate LeftBy(s: State, o: Owner, j: nat) {
    && j < |s.requests| && j in s.replies
    && (if s.requests[j].Remove? then s.requests[j].owner == o
        else s.requests[j].TakeOver? && s.replies[j] == Written && s.requests[j].target.owner == o)
  }

  ghost predicate HasLeft(s: State, o: Owner) {
    exists j: nat :: LeftBy(s, o, j)
  }

  predicate RemoveFate(s: State, j: nat)
    requires j < |s.requests|
  {
    s.requests[j].Remove? ==>
      HasWritten(s, s.requests[j].owner) && (j in s.replies ==> s.requests[j].owner in s.past)
  }

  /** What timely runs keep. */
  ghost predicate Fates(s: State) {
    && (forall o :: o in s.sessions ==> Fate(s, o))
    && (forall j :: 0 <= j < |s.requests| ==> RemoveFate(s, j))
    && (forall o :: o in s.past ==> HasLeft(s, o))
  }

  lemma LandKeepsHasLeft(s: State, i: nat, reply: Reply, o: Owner)
    requires Safe(s) && Enabled(s, Land(i, reply)) && Timely(s, Land(i, reply))
    requires o in s.past ==> HasLeft(s, o)
    requires o in Next(s, Land(i, reply)).past
    ensures HasLeft(Next(s, Land(i, reply)), o)
  {
    var r, t := s.requests[i], Next(s, Land(i, reply));
    if o in s.past {
      var j: nat :| LeftBy(s, o, j);
      assert LeftBy(t, o, j);
    } else {
      assert RequestShape(s, i) && RequestLease(s, i);
      if (r.TakeOver? || r.Renew?) && Matches(s.store, r.target) {
        MatchIsSame(s, r.target);
      }
      assert LeftBy(t, o, i);
    }
  }

  lemma StepKeepsHasLeft(s: State, ev: Event, o: Owner)
    requires Enabled(s, ev) && !ev.Land? && HasLeft(s, o)
    ensures HasLeft(Next(s, ev), o)
  {
    var j: nat :| LeftBy(s, o, j);
    StepFrame(s, ev);
    assert LeftBy(Next(s, ev), o, j);
  }

  lemma StepKeepsRemoveFate(s: State, ev: Event, j: nat)
    requires Shape(s) && Fates(s) && Enabled(s, ev) && j < |Next(s, ev).requests|
    ensures RemoveFate(Next(s, ev), j)
  {
    var t := Next(s, ev);
    if j < |s.requests| {
      assert RemoveFate(s, j) && s.requests <= t.requests;
      WrittenStays(s, ev, s.requests[j].owner);
    } else {
      assert Fate(s, ev.owner);
      StepFrame(s, ev);
    }
  }

  lemma StepKeepsFates(s: State, ev: Event)
    requires Safe(s) && Fates(s) && Enabled(s, ev) && Timely(s, ev)
    ensures Fates(Next(s, ev))
  {
    var t := Next(s, ev);
    forall o | o in t.sessions
      ensures Fate(t, o)
    {
      if ev.Land? {
        LandKeepsFate(s, ev.request, ev.reply, o);
      } else {
        StepKeepsFate(s, ev, o);
      }
    }
    forall j | 0 <= j < |t.requests|
      ensures RemoveFate(t, j)
    {
      StepKeepsRemoveFate(s, ev, j);
    }
    forall o | o in t.past
      ensures HasLeft(t, o)
    {
      if ev.Land? {
        LandKeepsHasLeft(s, ev.request, ev.reply, o);
      } else {
        StepFrame(s, ev);
        StepKeepsHasLeft(s, ev, o);
      }
    }
  }

  /** An object has left the store exactly when its delete landed or it was taken
      over. */
  lemma PastMeansLeft(s: State, o: Owner)
    requires Safe(s) && Fates(s)
    ensures o in s.past <==> HasLeft(s, o)
  {
    if HasLeft(s, o) {
      var j: nat :| LeftBy(s, o, j);
      assert RemoveFate(s, j) && RequestShape(s, j);
    }
  }

  // ------------------------------------------------ renewals that are refused

  /** The requests whose replies o has read once ev has happened. */
  function HeardAfter(s: State, ev: Event, o: Owner, heard: set<nat>): set<nat> {
    if ev == Receive(o) && Answered(s, o) then heard + {Awaited(s.sessions[o].phase).value} else heard
  }

  function Heard(run: seq<State>, events: seq<Event>, k: nat, o: Owner): set<nat>
    requires k < |run| && |run| == |events| + 1
  {
    if k == 0 then {} else HeardAfter(run[k - 1], events[k - 1], o, Heard(run, events, k - 1, o))
  }

  /** The stored object comes from renewal j of o, whose success o never read. */
  predicate Stray(s: State, heard: set<nat>, o: Owner, j: nat) {
    && j < |s.requests| && s.requests[j].Renew? && s.requests[j].owner == o
    && WriteAcknowledged(s, j) && j !in heard
    && s.store == Some(LeaseObject(o, s.requests[j].expiry))
  }

  /** The object of o with deadline e is stored, unless o lost the lock or a stray
      renewal (other than `but`) replaced it. */
  ghost predicate Backed(s: State, heard: set<nat>, o: Owner, e: nat, but: Option<nat>) {
    || o in s.past || s.store == Some(LeaseObject(o, e))
    || exists j: nat :: Stray(s, heard, o, j) && but != Some(j)
  }

  ghost predicate Lost(s: State, heard: set<nat>, o: Owner) {
    o in s.past || exists j: nat :: Stray(s, heard, o, j)
  }

  ghost predicate AcquisitionFate(s: State, heard: set<nat>, o: Owner, i: nat) {
    && i < |s.requests| && Acquiring(s.requests[i]) && s.requests[i].owner == o
    && (WriteAcknowledged(s, i) ==> Backed(s, heard, o, s.requests[i].expiry, None))
  }

  ghost predicate BeatFate(s: State, heard: set<nat>, o: Owner, lease: nat, b: Beat) {
    match b
    case Ticking => Backed(s, heard, o, lease, None)
    case Renewing(i) =>
      && i < |s.requests| && s.requests[i].Renew? && s.requests[i].owner == o
      && s.requests[i].target == LeaseObject(o, lease) && i !in heard
      && (if i !in s.replies then Backed(s, heard, o, lease, None)
          else if s.replies[i] == Written then Backed(s, heard, o, s.requests[i].expiry, Some(i))
          else Lost(s, heard, o))
    case Stopped => Lost(s, heard, o)
  }

  ghost predicate SessionFate(s: State, heard: set<nat>, o: Owner)
    requires o in s.sessions
  {
    && heard <= s.replies.Keys
    && match s.sessions[o].phase
       case Creating(i) => AcquisitionFate(s, heard, o, i)
       case TakingOver(i) => AcquisitionFate(s, heard, o, i)
       case Holding(lease, b) => BeatFate(s, heard, o, lease, b)
       case Stopping(lease, b) => BeatFate(s, heard, o, lease, b)
       case _ => true
  }

  // ---- requests reaching the store

  /** The stored object of o is replaced only by its own writes, or for good. */
  lemma LandReplaces(s: State, m: nat, reply: Reply, o: Owner)
    requires Shape(s) && Enabled(s, Land(m, reply)) && o in s.sessions
    ensures var t, r := Next(s, Land(m, reply)), s.requests[m];
            || t.store == s.store
            || (r.owner == o && !r.Remove? && reply == Written && t.store == Some(LeaseObject(o, r.expiry)))
            || (s.store.Some? && s.store.value.owner == o && o in t.past)
            || ((s.store.Some? ==> s.store.value.owner != o) && (t.store.Some? ==> t.store.value.owner != o))
  {
    var r := s.requests[m];
    assert RequestShape(s, m);
    if (r.TakeOver? || r.Renew?) && Matches(s.store, r.target) {
      MatchIsSame(s, r.target);
    }
  }

  /** Whatever else lands, an object of o that is stored stays so, is lost for
      good, or is replaced by a renewal that nobody has heard of yet. */
  lemma LandKeepsBacked(s: State, heard: set<nat>, m: nat, reply: Reply, o: Owner, e: nat, but: Option<nat>)
    requires Shape(s) && Enabled(s, Land(m, reply)) && o in s.sessions && heard <= s.replies.Keys
    requires Backed(s, heard, o, e, but) && (but.Some? ==> but.value in s.replies)
    requires NoOtherAcquisition(s, o, None)
    ensures Backed(Next(s, Land(m, reply)), heard, o, e, but)
  {
    var t := Next(s, Land(m, reply));
    LandReplaces(s, m, reply, o);
    if t.store == s.store {
      if j: nat :| Stray(s, heard, o, j) && but != Some(j) {
        assert Stray(t, heard, o, j);
      }
    } else if s.requests[m].owner == o && reply == Written && !s.requests[m].Remove? && o !in t.past {
      assert InFlight(s, m);
      assert Stray(t, heard, o, m);
    }
  }

  lemma LandKeepsLost(s: State, heard: set<nat>, m: nat, reply: Reply, o: Owner)
    requires Shape(s) && Enabled(s, Land(m, reply)) && o in s.sessions && heard <= s.replies.Keys
    requires Lost(s, heard, o) && NoOtherAcquisition(s, o, None)
    ensures Lost(Next(s, Land(m, reply)), heard, o)
  {
    var t := Next(s, Land(m, reply));
    if o !in s.past {
      var j: nat :| Stray(s, heard, o, j);
      LandReplaces(s, m, reply, o);
      if t.store == s.store {
        assert Stray(t, heard, o, j);
      } else if o !in t.past {
        assert InFlight(s, m);
        assert Stray(t, heard, o, m);
      }
    }
  }

  /** The awaited renewal lands: either it replaces the session's object, or that
      object was not what is stored. */
  lemma AwaitedLands(s: State, heard: set<nat>, i: nat, reply: Reply, o: Owner, lease: nat)
    requires Shape(s) && Enabled(s, Land(i, reply)) && o in s.sessions && heard <= s.replies.Keys
    requires NoOtherAcquisition(s, o, None) && BeatFate(s, heard, o, lease, Renewing(i))
    ensures BeatFate(Next(s, Land(i, reply)), heard, o, lease, Renewing(i))
  {
    var t := Next(s, Land(i, reply));
    if reply != Written && o !in s.past {
      var j: nat :| Stray(s, heard, o, j);
      assert Stray(t, heard, o, j);
    }
  }

  lemma LandKeepsBeat(s: State, heard: set<nat>, m: nat, reply: Reply, o: Owner, lease: nat, b: Beat)
    requires Shape(s) && Enabled(s, Land(m, reply)) && o in s.sessions && heard <= s.replies.Keys
    requires NoOtherAcquisition(s, o, None) && BeatFate(s, heard, o, lease, b)
    ensures BeatFate(Next(s, Land(m, reply)), heard, o, lease, b)
  {
    match b
    case Ticking => LandKeepsBacked(s, heard, m, reply, o, lease, None);
    case Stopped => LandKeepsLost(s, heard, m, reply, o);
    case Renewing(i) =>
      if m == i {
        AwaitedLands(s, heard, i, reply, o, lease);
      } else if i !in s.replies {
        LandKeepsBacked(s, heard, m, reply, o, lease, None);
      } else if s.replies[i] == Written {
        LandKeepsBacked(s, heard, m, reply, o, s.requests[i].expiry, Some(i));
      } else {
        LandKeepsLost(s, heard, m, reply, o);
      }
  }

  lemma LandKeepsAcquisition(s: State, heard: set<nat>, m: nat, reply: Reply, o: Owner, i: nat)
    requires Shape(s) && Enabled(s, Land(m, reply)) && o in s.sessions && heard <= s.replies.Keys
    requires NoOtherAcquisition(s, o, Some(i)) && AcquisitionFate(s, heard, o, i)
    ensures AcquisitionFate(Next(s, Land(m, reply)), heard, o, i)
  {
    if WriteAcknowledged(s, i) {
      LandKeepsBacked(s, heard, m, reply, o, s.requests[i].expiry, None);
    } else if m == i {
      assert RequestShape(s, i);
    }
  }

  lemma LandKeepsSessionFate(s: State, heard: set<nat>, m: nat, reply: Reply, o: Owner)
    requires Shape(s) && Enabled(s, Land(m, reply)) && o in s.sessions && SessionFate(s, heard, o)
    ensures SessionFate(Next(s, Land(m, reply)), heard, o)
  {
    assert SessionShape(s, o);
    match s.sessions[o].phase
    case Creating(i) => LandKeepsAcquisition(s, heard, m, reply, o, i);
    case TakingOver(i) => LandKeepsAcquisition(s, heard, m, reply, o, i);
    case Holding(lease, b) => LandKeepsBeat(s, heard, m, reply, o, lease, b);
    case Stopping(lease, b) => LandKeepsBeat(s, heard, m, reply, o, lease, b);
    case _ =>
  }

  // ---- session steps

  /** Nothing but the store, the replies and what was heard decides. */
  lemma SameStrays(s: State, t: State, heard: set<nat>, o: Owner)
    requires s.requests <= t.requests && t.replies == s.replies && t.store == s.store && t.past == s.past
    requires Shape(s)
    ensures forall j: nat :: Stray(t, heard, o, j) <==> Stray(s, heard, o, j)
    ensures forall e, but :: Backed(t, heard, o, e, but) <==> Backed(s, heard, o, e, but)
    ensures Lost(t, heard, o) <==> Lost(s, heard, o)
  {
  }

  lemma OtherStepKeepsSessionFate(s: State, heard: set<nat>, ev: Event, o: Owner)
    requires Shape(s) && Enabled(s, ev) && !ev.Land? && o in s.sessions && SessionFate(s, heard, o)
    requires ev.Tick? || ev.owner != o
    ensures SessionFate(Next(s, ev), heard, o)
  {
    StepKeepsStore(s, ev);
    var t := Next(s, ev);
    SameStrays(s, t, heard, o);
    assert t.sessions[o] == s.sessions[o];
    assert forall i :: 0 <= i < |s.requests| ==> t.requests[i] == s.requests[i];
  }

  /** The reply of a renewal is read. */
  lemma ReadsRenewal(s: State, heard: set<nat>, o: Owner, lease: nat, i: nat)
    requires Shape(s) && i in s.replies && BeatFate(s, heard, o, lease, Renewing(i))
    ensures var r, reply := s.requests[i], s.replies[i];
            BeatFate(s, heard + {i}, o, LeaseAfter(lease, r, reply), BeatAfter(reply))
  {
    var now := heard + {i};
    if s.replies[i] == Written {
      if o !in s.past && s.store != Some(LeaseObject(o, s.requests[i].expiry)) {
        var j: nat :| Stray(s, heard, o, j) && Some(i) != Some(j);
        assert Stray(s, now, o, j);
      }
    } else if o !in s.past {
      var j: nat :| Stray(s, heard, o, j);
      assert Stray(s, now, o, j);
    }
  }

  /** The session gives a renewal up: had it landed, it is a stray now. */
  lemma GivesUpRenewal(s: State, heard: set<nat>, o: Owner, lease: nat, i: nat)
    requires BeatFate(s, heard, o, lease, Renewing(i))
    ensures BeatFate(s, heard, o, lease, Ticking)
  {
    if i in s.replies && o !in s.past {
      if s.replies[i] == Written {
        if s.store == Some(LeaseObject(o, s.requests[i].expiry)) {
          assert Stray(s, heard, o, i);
        }
      } else {
        var j: nat :| Stray(s, heard, o, j);
      }
    }
  }

  /** The acquisition's reply is read. */
  lemma ReadsAcquisition(s: State, heard: set<nat>, o: Owner, i: nat)
    requires WriteAcknowledged(s, i) && AcquisitionFate(s, heard, o, i)
    ensures BeatFate(s, heard + {i}, o, s.requests[i].expiry, Ticking)
  {
    if o !in s.past && s.store != Some(LeaseObject(o, s.requests[i].expiry)) {
      var j: nat :| Stray(s, heard, o, j);
      assert Stray(s, heard + {i}, o, j);
    }
  }

  lemma ReceiveKeepsSessionFate(s: State, heard: set<nat>, o: Owner)
    requires Shape(s) && Enabled(s, Receive(o)) && SessionFate(s, heard, o)
    ensures SessionFate(Next(s, Receive(o)), HeardAfter(s, Receive(o), o, heard), o)
  {
    assert SessionShape(s, o);
    var t, now := Next(s, Receive(o)), HeardAfter(s, Receive(o), o, heard);
    StepKeepsStore(s, Receive(o));
    SameStrays(s, t, now, o);
    var i := Awaited(s.sessions[o].phase).value;
    match s.sessions[o].phase
    case Creating(_) =>
      if WriteAcknowledged(s, i) {
        ReadsAcquisition(s, heard, o, i);
      }
    case TakingOver(_) =>
      if WriteAcknowledged(s, i) {
        ReadsAcquisition(s, heard, o, i);
      }
    case Holding(lease, _) => ReadsRenewal(s, heard, o, lease, i);
    case Stopping(lease, _) => ReadsRenewal(s, heard, o, lease, i);
    case _ =>
  }

  lemma ActionKeepsSessionFate(s: State, heard: set<nat>, ev: Event, o: Owner)
    requires Shape(s) && Enabled(s, ev) && !ev.Land? && !ev.Tick? && !ev.Receive? && ev.owner == o
    requires if o in s.sessions then SessionFate(s, heard, o) else heard <= s.replies.Keys
    ensures o in Next(s, ev).sessions && SessionFate(Next(s, ev), heard, o)
  {
    var t := Next(s, ev);
    StepKeepsStore(s, ev);
    SameStrays(s, t, heard, o);
    if ev.GiveUp? {
      var p := s.sessions[o].phase;
      if (p.Holding? || p.Stopping?) && p.beat.Renewing? {
        GivesUpRenewal(s, heard, o, p.lease, p.beat.request);
      }
    }
  }

  lemma {:induction false} RunKeepsSessionFate(run: seq<State>, events: seq<Event>, k: nat, o: Owner)
    requires IsRun(run, events) && k < |run|
    ensures Heard(run, events, k, o) <= run[k].replies.Keys
    ensures o in run[k].sessions ==> SessionFate(run[k], Heard(run, events, k, o), o)
  {
    if k > 0 {
      var s, ev := run[k - 1], events[k - 1];
      RunKeepsShape(run, events, k - 1);
      RunKeepsSessionFate(run, events, k - 1, o);
      assert StepAt(run, events, k - 1);
      var heard := Heard(run, events, k - 1, o);
      if o in run[k].sessions {
        if ev.Land? {
          LandKeepsSessionFate(s, heard, ev.request, ev.reply, o);
        } else if ev.Tick? || ev.owner != o {
          OtherStepKeepsSessionFate(s, heard, ev, o);
        } else if ev.Receive? {
          ReceiveKeepsSessionFate(s, heard, o);
        } else {
          ActionKeepsSessionFate(s, heard, ev, o);
        }
      }
    }
  }

  predicate HeartbeatStopped(s: State, o: Owner) {
    && o in s.sessions
    && var p := s.sessions[o].phase;
    && (p.Holding? || p.Stopping?) && p.beat.Stopped?
  }

  /** A heartbeat that stopped on a precondition failure has lost the lock if and
      only if what is stored is not from one of its own renewals that landed
      without its knowing. */
  lemma StoppedMeans(run: seq<State>, events: seq<Event>, k: nat, o: Owner)
    requires IsRun(run, events) && k < |run| && HeartbeatStopped(run[k], o)
    ensures o in run[k].past <==> !exists j: nat :: Stray(run[k], Heard(run, events, k, o), o, j)
  {
    RunKeepsShape(run, events, k);
    RunKeepsSessionFate(run, events, k, o);
  }

  // ---- what a caller can see: no renewal of the session ended in an error

  predicate NeverGaveUp(events: seq<Event>, o: Owner) {
    forall m :: 0 <= m < |events| ==> events[m] != GiveUp(o)
  }

  /** Every renewal was heard of, but for the one in flight. */
  ghost predicate AllHeard(s: State, heard: set<nat>, o: Owner)
    requires o in s.sessions
  {
    var p := s.sessions[o].phase;
    (p.Released? || p.Over? || p.Checking? || p.Removing?) ||
    forall j :: 0 <= j < |s.requests| && s.requests[j].Renew? && s.requests[j].owner == o ==>
      j in heard || ((p.Holding? || p.Stopping?) && p.beat == Renewing(j))
  }

  lemma StepKeepsAllHeard(s: State, heard: set<nat>, ev: Event, o: Owner)
    requires Shape(s) && Enabled(s, ev) && ev != GiveUp(o) && o in Next(s, ev).sessions
    requires o in s.sessions ==> AllHeard(s, heard, o)
    ensures AllHeard(Next(s, ev), HeardAfter(s, ev, o, heard), o)
  {
    if o !in s.sessions {
      forall j | 0 <= j < |s.requests|
        ensures s.requests[j].owner != o
      {
        assert RequestShape(s, j);
      }
    } else if !ev.Tick? && !ev.Land? && ev.owner == o {
      OwnStepKeepsAllHeard(s, heard, ev, o);
    } else if !ev.Land? {
      StepKeepsStore(s, ev);
      assert forall j :: 0 <= j < |s.requests| ==> Next(s, ev).requests[j] == s.requests[j];
    }
  }

  lemma OwnStepKeepsAllHeard(s: State, heard: set<nat>, ev: Event, o: Owner)
    requires Shape(s) && Enabled(s, ev) && ev != GiveUp(o) && o in s.sessions && AllHeard(s, heard, o)
    requires !ev.Tick? && !ev.Land? && ev.owner == o
    ensures o in Next(s, ev).sessions && AllHeard(Next(s, ev), HeardAfter(s, ev, o, heard), o)
  {
    assert SessionShape(s, o);
    StepKeepsStore(s, ev);
    assert forall j :: 0 <= j < |s.requests| ==> Next(s, ev).requests[j] == s.requests[j];
  }

  lemma {:induction false} RunKeepsAllHeard(run: seq<State>, events: seq<Event>, k: nat, o: Owner)
    requires IsRun(run, events) && k < |run| && NeverGaveUp(events[..k], o) && o in run[k].sessions
    ensures AllHeard(run[k], Heard(run, events, k, o), o)
  {
    if k > 0 {
      RunKeepsShape(run, events, k - 1);
      assert StepAt(run, events, k - 1);
      assert events[..k][..k - 1] == events[..k - 1] && events[..k][k - 1] == events[k - 1];
      assert NeverGaveUp(events[..k - 1], o);
      if o in run[k - 1].sessions {
        RunKeepsAllHeard(run, events, k - 1, o);
      }
      StepKeepsAllHeard(run[k - 1], Heard(run, events, k - 1, o), events[k - 1], o);
    }
  }

  /** As long as no request of the session ended in an error other than a
      precondition failure, a heartbeat that stopped has lost the lock. */
  lemma StoppedIsLost(run: seq<State>, events: seq<Event>, k: nat, o: Owner)
    requires IsRun(run, events) && k < |run| && HeartbeatStopped(run[k], o) && NeverGaveUp(events[..k], o)
    ensures o in run[k].past
  {
    StoppedMeans(run, events, k, o);
    RunKeepsAllHeard(run, events, k, o);
  }

  lemma StartsIdle(t: nat)
    ensures Reachable(IdleState(t), OnTime)
  {
    assert RunTo([IdleState(t)], [], IdleState(t), OnTime);
  }

  /** Otherwise it need not have: when the success of a renewal is not heard of,
      the next one is refused, and the heartbeat of a live holder stops. */
  lemma StoppedWhileHolding(t0: nat, t1: nat, ttl: nat) returns (s: State)
    requires t0 <= t1 && Unix(t0 + ttl) < Unix(t1 + ttl) && Unix(t1) <= Unix(t0 + ttl)
    ensures Reachable(s, OnTime) && Live(s, "a") && HeartbeatStopped(s, "a")
    ensures "a" !in s.past && s.store == Some(LeaseObject("a", Unix(t1 + ttl)))
    ensures Unexpired(s.store.value, s.now)
  {
    hide Reachable;
    var e0, e1 := Unix(t0 + ttl), Unix(t1 + ttl);
    StartsIdle(t0);
    Creates(IdleState(t0), "a", ttl, OnTime);
    var c := Created(IdleState(t0), "a", ttl);
    var d := c.(now := t1);
    Go(c, Tick(t1), d, OnTime);
    RenewsUnheard(d, "a", ttl, e0, OnTime);
    var f := Renewed(d, "a", ttl, e0);
    s := RenewsRefused(f, "a", ttl, e0, e1, OnTime);
    UnixMonotone(t1, t1 + ttl);
    ParseFormat(e1);
  }

  /** The state after a renewal landed and its reply was lost. */
  function Renewed(s: State, o: Owner, ttl: nat, lease: nat): State {
    var e := Unix(s.now + ttl);
    Moved(Replied(Asked(s, Request.Renew(o, e, LeaseObject(o, lease))), |s.requests|, Written), o, ttl, Holding(lease, Ticking))
    .(store := Some(LeaseObject(o, e)))
  }

  lemma RenewsUnheard(s: State, o: Owner, ttl: nat, lease: nat, l: Lateness)
    requires Reachable(s, l) && o in s.sessions && s.sessions[o] == Session(ttl, Holding(lease, Ticking))
    requires s.store == Some(LeaseObject(o, lease)) && |s.requests| !in s.replies
    ensures Reachable(Renewed(s, o, ttl, lease), l)
  {
    hide Reachable;
    var e, n := Unix(s.now + ttl), |s.requests|;
    var t := Moved(Asked(s, Request.Renew(o, e, LeaseObject(o, lease))), o, ttl, Holding(lease, Renewing(n)));
    var u := Replied(t, n, Written).(store := Some(LeaseObject(o, e)));
    Go(s, SendRenew(o), t, l);
    Go(t, Land(n, Written), u, l);
    Go(u, GiveUp(o), Renewed(s, o, ttl, lease), l);
  }

  lemma OtherDeadlineOtherETag(o: Owner, e: nat, f: nat)
    requires OneLine(o) && e != f
    ensures ETag(LeaseObject(o, e)) != ETag(LeaseObject(o, f))
  {
    ParseFormat(e);
    ParseFormat(f);
    if ETag(LeaseObject(o, e)) == ETag(LeaseObject(o, f)) {
      LockBodyInjective(o, FormatNat(e), o, FormatNat(f));
    }
  }

  lemma RenewsRefused(s: State, o: Owner, ttl: nat, lease: nat, stored: nat, l: Lateness) returns (z: State)
    requires Reachable(s, l) && o in s.sessions && s.sessions[o] == Session(ttl, Holding(lease, Ticking))
    requires s.store == Some(LeaseObject(o, stored)) && stored != lease && OneLine(o) && |s.requests| !in s.replies
    ensures Reachable(z, l) && z.store == s.store && z.past == s.past && z.now == s.now
    ensures o in z.sessions && z.sessions[o] == Session(ttl, Holding(lease, Stopped))
  {
    hide Reachable;
    var e, n := Unix(s.now + ttl), |s.requests|;
    var t := Moved(Asked(s, Request.Renew(o, e, LeaseObject(o, lease))), o, ttl, Holding(lease, Renewing(n)));
    var u := Replied(t, n, PreconditionFailed);
    OtherDeadlineOtherETag(o, lease, stored);
    z := Moved(u, o, ttl, Holding(lease, Stopped));
    Go(s, SendRenew(o), t, l);
    Go(t, Land(n, PreconditionFailed), u, l);
    Go(u, Receive(o), z, l);
  }

  /** The heartbeat looks at no clock: a session renews, and succeeds, even after
      its deadline has passed, as long as nobody has taken the lock over. */
  lemma RenewsAfterDeadline(t0: nat, late: nat, ttl: nat) returns (before: State, after: State)
    requires Unix(t0 + ttl) < Unix(late)
    ensures Reachable(before, OnTime) && Reachable(after, OnTime) && HeartbeatTicks(before, "a")
    ensures !Unexpired(before.store.value, before.now) && before.store == Some(LeaseObject("a", Unix(t0 + ttl)))
    ensures after.now == before.now && after.store == Some(LeaseObject("a", Unix(late + ttl))) && Live(after, "a")
  {
    hide Reachable;
    UnixOrder(late, t0 + ttl);
    StartsIdle(t0);
    Creates(IdleState(t0), "a", ttl, OnTime);
    var c := Created(IdleState(t0), "a", ttl);
    before := c.(now := late);
    Go(c, Tick(late), before, OnTime);
    after := RenewsHeard(before, "a", ttl, Unix(t0 + ttl), OnTime);
    ParseFormat(Unix(t0 + ttl));
    UnixMonotone(late, late + ttl);
  }

  ghost predicate HeartbeatTicks(s: State, o: Owner) {
    o in s.sessions && s.sessions[o].phase.Holding? && s.sessions[o].phase.beat.Ticking? && s.store.Some?
  }

  lemma UnixOrder(a: nat, b: nat)
    requires Unix(b) < Unix(a)
    ensures b < a
  {
  }

  lemma RenewsHeard(s: State, o: Owner, ttl: nat, lease: nat, l: Lateness) returns (z: State)
    requires Reachable(s, l) && o in s.sessions && s.sessions[o] == Session(ttl, Holding(lease, Ticking))
    requires s.store == Some(LeaseObject(o, lease)) && |s.requests| !in s.replies
    ensures Reachable(z, l) && z.now == s.now && z.store == Some(LeaseObject(o, Unix(s.now + ttl)))
    ensures o in z.sessions && z.sessions[o] == Session(ttl, Holding(Unix(s.now + ttl), Ticking))
  {
    hide Reachable;
    var e, n := Unix(s.now + ttl), |s.requests|;
    var t := Moved(Asked(s, Request.Renew(o, e, LeaseObject(o, lease))), o, ttl, Holding(lease, Renewing(n)));
    var u := Replied(t, n, Written).(store := Some(LeaseObject(o, e)));
    z := Moved(u, o, ttl, Holding(e, Ticking));
    Go(s, SendRenew(o), t, l);
    Go(t, Land(n, Written), u, l);
    Go(u, Receive(o), z, l);
  }
}
