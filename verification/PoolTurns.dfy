/**
 Who may go next: the lock with its queue, the calls of `shutdown` and the connection attempts, each
 told by what a step newly allows or forbids.
 */
module PoolTurns {
  import opened Basics
  import opened ManagerModel
  import opened PeerProtocol
  import opened PoolModel
  import opened PoolSafety

  // ---------------------------------------------------------------------------
  // Connection attempts
  // ---------------------------------------------------------------------------

  predicate EndsDial(ev: Event, key: Key) {
    (ev.DialFailed? || ev.Insert?) && ev.key == key
  }

  function Admitted(events: seq<Event>, key: Key): nat {
    if events == [] then 0 else (if events[0] == Admit(key) then 1 else 0) + Admitted(events[1..], key)
  }

  function Ended(events: seq<Event>, key: Key): nat {
    if events == [] then 0 else (if EndsDial(events[0], key) then 1 else 0) + Ended(events[1..], key)
  }

  /** A step of a session or a chunk write leaves the lock, the calls of `shutdown` and the attempts. */
  lemma KeepsTurns(c: Config, st: Pool, ev: Event)
    requires Enabled(c, st, ev) && !IsAmbient(ev) && !ev.Insert?
    ensures var st' := Next(c, st, ev);
            && st'.lock == st.lock && st'.stopping == st.stopping && st'.gathering == st.gathering
            && st'.hit == st.hit && st'.dialing == st.dialing
    ensures forall id :: id in st.sessions ==> id in Next(c, st, ev).sessions
    ensures forall id :: id in Next(c, st, ev).sessions ==>
              && id in st.sessions
              && (!st.sessions[id].Live() ==> !Next(c, st, ev).sessions[id].Live())
              && (Next(c, st, ev).sessions[id].phase.Closing? ==> st.sessions[id].phase.Closing? || st.sessions[id].Live())
  {
    hide LocalStep, RunChunk, Next, Manager.Release, Apply;
    if IsLocal(ev) {
      LocalNext(c, st, ev);
      LocalComesFromLive(c, st, ev);
    } else if ev.Release? {
      ReleaseNext(c, st, ev.id);
    } else {
      OtherNext(c, st, ev);
      if ev.WriteChunk? {
        ChunkKeeps(c, st, ev.job, ev.file);
        ChunkKeepsDials(c, st, ev.job, ev.file);
      }
    }
  }

  lemma LocalComesFromLive(c: Config, st: Pool, ev: Event)
    requires Enabled(c, st, ev) && IsLocal(ev)
    ensures st.sessions[ev.id].Live()
  {}

  lemma ChunkKeepsDials(c: Config, st: Pool, j: nat, k: nat)
    requires j < |st.jobs|
    ensures RunChunk(c, st, j, k).dialing == st.dialing
  {}

  lemma DialStep(c: Config, st: Pool, ev: Event, key: Key)
    requires Enabled(c, st, ev)
    ensures Next(c, st, ev).dialing[key]
         == st.dialing[key] + (if ev == Admit(key) then 1 else 0) - if EndsDial(ev, key) then 1 else 0
  {
    if IsAmbient(ev) || ev.Insert? {
      hide LocalStep, RunChunk, Manager.Release, Apply, InDisconnect, HasTurn;
    } else {
      hide Next;
      KeepsTurns(c, st, ev);
    }
  }

  /** In every run the open attempts at an address are those admitted less those that failed or got through. */
  lemma {:induction false} DialsOverRun(c: Config, st: Pool, events: seq<Event>, st': Pool, key: Key)
    requires Run(c, st, events, st')
    ensures st'.dialing[key] == st.dialing[key] + Admitted(events, key) - Ended(events, key)
    decreases |events|
  {
    hide Next, Enabled, EndsDial;
    if events != [] {
      DialStep(c, st, events[0], key);
      DialsOverRun(c, Next(c, st, events[0]), events[1..], st', key);
    }
  }

  // ---------------------------------------------------------------------------
  // The lock and its queue
  // ---------------------------------------------------------------------------

  /** These have left their download loop. */
  ghost predicate AllOut(st: Pool, ids: set<nat>) {
    forall id :: id in ids ==> id in st.sessions && !st.sessions[id].Live()
  }

  /** Only sessions that have left their download loop are in the queue or were cancelled in it. */
  ghost predicate QueueOk(st: Pool) {
    AllOut(st, st.hit) && (st.stopping.Some? ==> AllOut(st, st.stopping.value))
  }

  lemma InitQueueOk(c: Config, st: Pool)
    requires Init(c, st)
    ensures QueueOk(st)
  {}

  lemma StaysOut(st: Pool, st': Pool, ids: set<nat>)
    requires AllOut(st, ids)
    requires forall id :: id in st.sessions ==> id in st'.sessions && (!st.sessions[id].Live() ==> !st'.sessions[id].Live())
    ensures AllOut(st', ids)
  {}

  lemma WaitingAreOut(st: Pool, ids: set<nat>)
    requires ids <= InDisconnect(st)
    ensures AllOut(st, ids)
  {}

  lemma BothOut(st: Pool, a: set<nat>, b: set<nat>)
    requires AllOut(st, a) && AllOut(st, b)
    ensures AllOut(st, a + b)
  {}

  lemma AmbientKeepsQueueOk(c: Config, st: Pool, ev: Event)
    requires QueueOk(st) && Enabled(c, st, ev) && (IsAmbient(ev) || ev.Insert?)
    ensures QueueOk(Next(c, st, ev))
  {
    TurnsNext(c, st, ev);
    hide Next, Enabled, AllOut, InDisconnect;
    var st' := Next(c, st, ev);
    StaysOut(st, st', st.hit);
    if st.stopping.Some? {
      StaysOut(st, st', st.stopping.value);
    }
    if ev.CancelAll? || ev.CancelGather? {
      WaitingAreOut(st, ev.victims);
      StaysOut(st, st', ev.victims);
      BothOut(st', st.hit, ev.victims);
    }
    if Queues(st, ev) {
      WaitingAreOut(st, InDisconnect(st) - st.hit);
      StaysOut(st, st', InDisconnect(st) - st.hit);
    }
  }

  lemma StepKeepsQueueOk(c: Config, st: Pool, ev: Event)
    requires QueueOk(st) && Enabled(c, st, ev)
    ensures QueueOk(Next(c, st, ev))
  {
    hide Next, Enabled;
    if IsAmbient(ev) || ev.Insert? {
      AmbientKeepsQueueOk(c, st, ev);
    } else {
      KeepsTurns(c, st, ev);
    }
  }

  lemma {:induction false} RunKeepsQueueOk(c: Config, st: Pool, events: seq<Event>, st': Pool)
    requires QueueOk(st) && Run(c, st, events, st')
    ensures QueueOk(st')
    decreases |events|
  {
    hide QueueOk, Next, Enabled;
    if events != [] {
      StepKeepsQueueOk(c, st, events[0]);
      RunKeepsQueueOk(c, Next(c, st, events[0]), events[1..], st');
    }
  }

  /** Connected when the table is full. */
  predicate TurnedAway(c: Config, st: Pool, ev: Event) {
    ev.Insert? && |st.registered| >= c.maxPeers
  }

  ghost predicate Waits(st: Pool, id: nat) {
    id in st.sessions && st.sessions[id].phase.Closing?
  }

  predicate Cancels(ev: Event, id: nat) {
    (ev.CancelAll? || ev.CancelGather?) && id in ev.victims
  }

  /** A call of `shutdown` has to wait. */
  predicate Queues(st: Pool, ev: Event) {
    ev.Shutdown? && !st.lock.Quiet?
  }

  /** When the steps of the lock and of `shutdown` are allowed. */
  lemma Allowed(c: Config, st: Pool, id: nat)
    ensures Enabled(c, st, Rejected) <==> st.lock.Held?
    ensures Enabled(c, st, Shutdown) <==> st.stopping.None?
    ensures Enabled(c, st, GiveUp) <==> st.stopping.Some?
    ensures Enabled(c, st, CancelGather({})) <==> st.gathering
    ensures Enabled(c, st, Abort(id)) <==> Waits(st, id) && id in st.hit
    ensures Enabled(c, st, Release(id)) <==>
              Waits(st, id) && !st.lock.Held? && id !in st.hit && (st.stopping.Some? ==> id in st.stopping.value)
  {}

  /** `shutdown` gets the lock when it is free and all that were before it have left; then no session may take it. */
  lemma ShutdownTurn(c: Config, st: Pool)
    ensures Enabled(c, st, CancelAll({})) <==>
              !Enabled(c, st, Shutdown) && !Enabled(c, st, Rejected) && forall id :: id in st.stopping.value ==> !Waits(st, id)
    ensures Enabled(c, st, CancelAll({})) ==> forall id: nat :: !Enabled(c, st, Release(id))
  {
    Allowed(c, st, 0);
    assert Enabled(c, st, CancelAll({})) <==> st.stopping.Some? && !st.lock.Held? && st.stopping.value !! InDisconnect(st);
    hide Enabled;
    forall id: nat | Enabled(c, st, CancelAll({})) ensures !Enabled(c, st, Release(id)) {
      Allowed(c, st, id);
      assert id in InDisconnect(st) <==> Waits(st, id);
    }
  }

  /** What such a step changes. */
  lemma TurnsNext(c: Config, st: Pool, ev: Event)
    requires Enabled(c, st, ev) && (IsAmbient(ev) || ev.Insert?)
    ensures var st' := Next(c, st, ev);
            && st'.lock == (if TurnedAway(c, st, ev) then Held else if ev.Rejected? then Freed else st.lock)
            && st'.stopping == (if ev.GiveUp? || ev.CancelAll? then None
                                else if Queues(st, ev) then Some(InDisconnect(st) - st.hit) else st.stopping)
            && st'.gathering == (if ev.CancelAll? || (ev.Shutdown? && st.lock.Quiet?) then true
                                 else if ev.CancelGather? then false else st.gathering)
            && st'.hit == (if ev.CancelAll? || ev.CancelGather? then st.hit + ev.victims else st.hit)
            && (ev.CancelAll? || ev.CancelGather? ==> ev.victims <= InDisconnect(st))
            && (forall id :: id in st.sessions ==> id in st'.sessions && st'.sessions[id] == st.sessions[id])
            && (forall id :: id in st'.sessions ==> id in st.sessions || st'.sessions[id].phase.Opening?)
  {
    hide LocalStep, RunChunk, Manager.Release, Apply, InDisconnect;
  }

  ghost predicate CallsAs(c: Config, st: Pool, ev: Event, st': Pool) {
    && (Enabled(c, st', Rejected) <==> TurnedAway(c, st, ev) || (Enabled(c, st, Rejected) && !ev.Rejected?))
    && (st'.lock.Quiet? <==> st.lock.Quiet? && !TurnedAway(c, st, ev))
    && (Enabled(c, st', Shutdown) <==> ev.GiveUp? || ev.CancelAll? || (Enabled(c, st, Shutdown) && !Queues(st, ev)))
    && (Enabled(c, st', GiveUp) <==> !Enabled(c, st', Shutdown))
    && (Enabled(c, st', CancelGather({})) <==>
          ev.CancelAll? || (ev.Shutdown? && !Queues(st, ev)) || (Enabled(c, st, CancelGather({})) && !ev.CancelGather?))
  }

  lemma AmbientCalls(c: Config, st: Pool, ev: Event)
    requires Enabled(c, st, ev) && (IsAmbient(ev) || ev.Insert?)
    ensures CallsAs(c, st, ev, Next(c, st, ev))
  {
    TurnsNext(c, st, ev);
    GiveUpWaits(c, st, ev);
    hide Next, InDisconnect, Enabled;
    Allowed(c, st, 0);
    Allowed(c, Next(c, st, ev), 0);
  }

  /** A call is waiting when it is cancelled, and a second one waits for nothing. */
  lemma GiveUpWaits(c: Config, st: Pool, ev: Event)
    requires Enabled(c, st, ev)
    ensures ev.GiveUp? || ev.CancelAll? ==> st.stopping.Some?
    ensures ev.Shutdown? ==> st.stopping.None?
    ensures ev.Rejected? ==> st.lock.Held?
  {}

  /**
   What a step does to the lock and to the calls of `shutdown`: the lock is held from a connection turned
   away until that is closed; one call waits at a time, until it is cancelled or has had the lock; it can
   be cancelled once after that.
   */
  lemma CallsAfter(c: Config, st: Pool, ev: Event)
    requires Enabled(c, st, ev)
    ensures CallsAs(c, st, ev, Next(c, st, ev))
  {
    hide Next, Enabled;
    if IsAmbient(ev) || ev.Insert? {
      AmbientCalls(c, st, ev);
    } else {
      KeepsTurns(c, st, ev);
      Allowed(c, st, 0);
      Allowed(c, Next(c, st, ev), 0);
    }
  }

  ghost predicate TurnsAs(c: Config, st: Pool, ev: Event, st': Pool, id: nat) {
    && (Enabled(c, st', Abort(id)) <==> Cancels(ev, id) || (Waits(st, id) && Enabled(c, st, Abort(id))))
    && (Enabled(c, st', Release(id)) <==>
          && !Enabled(c, st', Rejected) && !Enabled(c, st', Abort(id))
          && (ev.GiveUp? || ev.CancelAll? || Enabled(c, st, Shutdown) || (Waits(st, id) && id in st.stopping.value)))
  }

  lemma AmbientTurns(c: Config, st: Pool, ev: Event, id: nat)
    requires QueueOk(st) && Enabled(c, st, ev) && Waits(Next(c, st, ev), id) && (IsAmbient(ev) || ev.Insert?)
    ensures TurnsAs(c, st, ev, Next(c, st, ev), id)
  {
    TurnsNext(c, st, ev);
    GiveUpWaits(c, st, ev);
    hide Next, Enabled, QueueOk;
    Allowed(c, st, id);
    Allowed(c, Next(c, st, ev), id);
  }

  /**
   What it does to the sessions that wait for the lock. A cancellation ends the wait of its victims and of
   no other. A call of `shutdown` goes behind those that wait when it is made and before those that come
   later, and when it is over everybody may go who has not been cancelled.
   */
  lemma TurnsAfter(c: Config, st: Pool, ev: Event, id: nat)
    requires QueueOk(st) && Enabled(c, st, ev) && Waits(Next(c, st, ev), id)
    ensures TurnsAs(c, st, ev, Next(c, st, ev), id)
  {
    hide Next, Enabled;
    if IsAmbient(ev) || ev.Insert? {
      AmbientTurns(c, st, ev, id);
    } else {
      KeepsTurns(c, st, ev);
      Allowed(c, st, id);
      Allowed(c, Next(c, st, ev), id);
    }
  }
}
