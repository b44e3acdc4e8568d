/**
 Downloads finish. In an endless honest run that is fair to each session and in which nothing disturbs
 one session with a peer that has everything, every piece becomes COMPLETE and stays so and the event
 is set; if queued chunks get written, the files end up holding the content.
 */
module PoolLiveness {
  import opened Basics
  import opened Bits
  import opened PieceModel
  import opened ManagerModel
  import opened PeerProtocol
  import opened FileLayout
  import opened FileWriter
  import opened PoolModel
  import opened PoolSafety
  import opened PoolRuns
  import opened PoolOwnership
  import opened PoolCompletion
  import opened PoolCancellation
  import opened PoolPipeline
  import opened PoolCauses
  import opened PoolDisk
  import opened PoolTermination

  // ---------------------------------------------------------------------------
  // Fairness
  // ---------------------------------------------------------------------------

  /** A step of this session. */
  predicate Acts(ev: Event, id: nat) {
    (IsLocal(ev) || ev.Release? || ev.Abort?) && ev.id == id
  }

  /** Neither idle nor over. */
  predicate Busy(s: Session) {
    s.phase.Opening? || s.phase.Sending? || s.phase.Receiving? || s.phase.Writing? || s.phase.Closing?
  }

  ghost predicate ActsLater(events: nat -> Event, n: nat, id: nat) {
    exists m: nat :: n <= m && Acts(events(m), id)
  }

  ghost predicate ProgressLater(states: nat -> Pool, events: nat -> Event, n: nat) {
    exists m: nat :: n <= m && Progress(states(m), events(m))
  }

  /**
   While a session is busy there is progress later: its request is written or fails, its peer answers or
   a time-out strikes, the callback returns, the lock is free. One that is idle is woken at the latest
   by its time-out.
   */
  ghost predicate Fair(states: nat -> Pool, events: nat -> Event) {
    forall n: nat, id: nat :: id in states(n).sessions ==>
      && (Busy(states(n).sessions[id]) ==> ProgressLater(states, events, n))
      && (states(n).sessions[id].phase.Idle? ==> ActsLater(events, n, id))
  }

  /** The session is running and its peer has everything. */
  ghost predicate Seeds(st: Pool, id: nat) {
    && id in st.sessions && st.sessions[id].Live()
    && forall i: nat :: i < |st.mgr.pieces| ==> i in st.mgr.Available(st.sessions[id].peer)
  }

  /** Until the download is done. */
  ghost predicate SeedStays(states: nat -> Pool, seed: nat) {
    forall n: nat :: states(n).mgr.IsDone() || Seeds(states(n), seed)
  }

  /** News from a peer with everything: no have past the table, no bitfield with a gap. */
  predicate GoodNews(st: Pool, ev: Event, peer: PeerId) {
    ev.Deliver? && ev.id in st.sessions && st.sessions[ev.id].peer == peer ==>
      && (ev.msg.Have? ==> ev.msg.pieceIndex < |st.mgr.pieces|)
      && (ev.msg.Bitfield? ==> forall i: nat :: i < |st.mgr.pieces| ==> HasPiece(ev.msg.bitfield, i))
  }

  /**
   The step is no failure, time-out (but of an idle wait) or choke of this session and not the last
   opening message without an unchoke, and what is heard of its peer is good news.
   */
  predicate Undisturbed(st: Pool, ev: Event, id: nat) {
    id in st.sessions ==>
      && !(IsLocal(ev) && ev.id == id && Interrupted(st.sessions[id], ev))
      && GoodNews(st, ev, st.sessions[id].peer)
  }

  /** A running session whose peer is known to have every piece, and no more, is never disturbed. */
  ghost predicate SteadySeed(states: nat -> Pool, events: nat -> Event, seed: nat) {
    && Seeds(states(0), seed) && !OffersPastTable(states(0).mgr, states(0).sessions[seed].peer)
    && forall n: nat :: Undisturbed(states(n), events(n), seed)
  }

  ghost predicate NoLateShutdown(states: nat -> Pool, events: nat -> Event) {
    forall n: nat :: !LateShutdown(states(n), events(n))
  }

  // ---------------------------------------------------------------------------
  // What holds all along
  // ---------------------------------------------------------------------------

  /** Nothing lost, and idle sessions empty. */
  ghost predicate Smooth(st: Pool) {
    Calm(st) && IdleEmpty(st)
  }

  lemma HonestIsSolicited(c: Config, st: Pool, ev: Event, truth: Bytes)
    requires Honest(c, st, ev, truth)
    ensures Solicited(st, ev)
  {}

  lemma GoodParts(c: Config, st: Pool, truth: Bytes)
    requires GoodState(c, st, truth)
    ensures PoolOk(c, st) && OwnOk(st)
  {}

  lemma {:induction false} EndlessSmooth(c: Config, truth: Bytes, states: nat -> Pool, events: nat -> Event, n: nat)
    requires Genuine(c, truth) && EndlessRun(c, truth, states, events) && NoLateShutdown(states, events) && Smooth(states(0))
    ensures Smooth(states(n))
  {
    hide GoodState, Genuine, Enabled, Honest, Next, Calm, IdleEmpty, LateShutdown;
    if n > 0 {
      EndlessSmooth(c, truth, states, events, n - 1);
      EndlessGood(c, truth, states, events, n - 1);
      assert EndlessStep(c, truth, states, events, n - 1);
      GoodParts(c, states(n - 1), truth);
      HonestIsSolicited(c, states(n - 1), events(n - 1), truth);
      StepKeepsCalm(c, states(n - 1), events(n - 1));
      StepKeepsIdleEmpty(c, states(n - 1), events(n - 1));
    }
  }

  lemma NoProgressLater(states: nat -> Pool, events: nat -> Event, end: nat, n: nat)
    requires OnlyWaits(states, events, end) && end <= n
    ensures !ProgressLater(states, events, n)
  {
    hide Progress;
  }

  /** From the point on from which the run only waits, every session is idle or closed. */
  lemma RestsFromThere(c: Config, states: nat -> Pool, events: nat -> Event, end: nat, n: nat, id: nat)
    requires OnlyWaits(states, events, end) && Fair(states, events) && Smooth(states(n)) && end <= n
    requires id in states(n).sessions
    ensures states(n).sessions[id].phase.Idle? || states(n).sessions[id].phase.Closed?
  {
    hide Progress, IdleEmpty, ProgressLater, ActsLater;
    NoProgressLater(states, events, end, n);
  }

  // ---------------------------------------------------------------------------
  // The seed stays
  // ---------------------------------------------------------------------------

  ghost predicate OffersExactly(m: Manager, peer: PeerId) {
    forall i: nat :: i in m.Available(peer) <==> i < |m.pieces|
  }

  /** Running, with a peer that has everything and has named nothing else. */
  ghost predicate Serving(st: Pool, id: nat) {
    id in st.sessions && st.sessions[id].Live() && OffersExactly(st.mgr, st.sessions[id].peer)
  }

  lemma ServingSeeds(st: Pool, id: nat)
    ensures Serving(st, id) <==> Seeds(st, id) && !OffersPastTable(st.mgr, st.sessions[id].peer)
  {}

  lemma GoodNewsTold(st: Pool, ev: Event, peer: PeerId)
    requires OffersExactly(st.mgr, peer) && IsLocal(ev) && ev.id in st.sessions && GoodNews(st, ev, peer)
    ensures forall i: nat :: i in Told(st.mgr, st.sessions[ev.id], ev, peer) <==> i < |st.mgr.pieces|
  {
    hide HasPiece;
  }

  lemma StillOffers(c: Config, st: Pool, ev: Event, peer: PeerId)
    requires Enabled(c, st, ev) && OffersExactly(st.mgr, peer) && GoodNews(st, ev, peer)
    ensures OffersExactly(Next(c, st, ev).mgr, peer)
  {
    hide Next, GoodNews, Told, TakenWell, Treated;
    if IsLocal(ev) {
      StepEffects(c, st, ev);
      GoodNewsTold(st, ev, peer);
    } else {
      OtherTells(c, st, ev);
      assert Next(c, st, ev).mgr.Available(peer) == st.mgr.Available(peer);
    }
  }

  /** Only a step of its own moves a running session. */
  lemma OnlyOwnStepMoves(c: Config, st: Pool, ev: Event, id: nat)
    requires Enabled(c, st, ev) && id in st.sessions && st.sessions[id].Live() && !(IsLocal(ev) && ev.id == id)
    ensures id in Next(c, st, ev).sessions && Next(c, st, ev).sessions[id] == st.sessions[id]
  {
    hide Next, LocalStep, Apply, Resumed, RunChunk;
    if IsLocal(ev) {
      LocalNext(c, st, ev);
    } else if ev.Release? {
      ReleaseNext(c, st, ev.id);
    } else {
      OtherNext(c, st, ev);
      if ev.WriteChunk? {
        ChunkKeeps(c, st, ev.job, ev.file);
      }
    }
  }

  lemma NotRefused(c: Config, st: Pool, ev: Event)
    requires PoolOk(c, st) && OwnOk(st) && Enabled(c, st, ev) && IsLocal(ev) && Solicited(st, ev)
    ensures !Refused(st.mgr, st.sessions[ev.id], ev)
  {
    hide ManagerOk, SameShape, NoOrphan, JobOk, TableOwn, Manager.AddBlock, Manager.Completes, BlockRefused, BlockSize, Missing, Pending;
    var s := st.sessions[ev.id];
    if ev.Deliver? && s.phase.Receiving? && ev.msg.Piece? && FromWire(ev.msg) {
      assert Owns(st.mgr, s);
      BlockStored(c.sha1, st.mgr, s, ev.msg.index, ev.msg.begin, ev.msg.block);
      Stored(c.sha1, st.mgr, ev.msg.index, ev.msg.begin, ev.msg.block);
    }
  }

  /** A step of its own leaves it running, or ends it because everything is there. */
  lemma OwnStepServes(c: Config, st: Pool, ev: Event)
    requires PoolOk(c, st) && OwnOk(st) && Enabled(c, st, ev) && Solicited(st, ev) && IsLocal(ev)
    requires Serving(st, ev.id) && Undisturbed(st, ev, ev.id)
    ensures var st' := Next(c, st, ev);
            (st'.done && st'.mgr.IsDone()) || Serving(st', ev.id)
  {
    hide PoolOk, OwnOk, Next, Manager.IsDone, Solicited, LocalStep, Apply, Enabled;
    hide ReachesHead, CompletesPiece, Interrupted, Refused, WantsPiece, AllAsked, AsksInOrder, GoodNews;
    StillOffers(c, st, ev, st.sessions[ev.id].peer);
    NotRefused(c, st, ev);
    StepEnds(c, st, ev);
    LocalNext(c, st, ev);
  }

  lemma StepServes(c: Config, st: Pool, ev: Event, truth: Bytes, id: nat)
    requires GoodState(c, st, truth) && Enabled(c, st, ev) && Honest(c, st, ev, truth)
    requires Serving(st, id) && Undisturbed(st, ev, id)
    ensures var st' := Next(c, st, ev);
            (st'.done && st'.mgr.IsDone()) || Serving(st', id)
  {
    hide GoodState, Honest, Next, Manager.IsDone, Enabled, OffersExactly, Interrupted, GoodNews;
    GoodParts(c, st, truth);
    HonestIsSolicited(c, st, ev, truth);
    if IsLocal(ev) && ev.id == id {
      OwnStepServes(c, st, ev);
    } else {
      OnlyOwnStepMoves(c, st, ev, id);
      StillOffers(c, st, ev, st.sessions[id].peer);
    }
  }

  /** The event once set stays set. */
  lemma EventStays(c: Config, st: Pool, ev: Event)
    requires Enabled(c, st, ev) && st.done
    ensures Next(c, st, ev).done
  {
    hide LocalStep, Manager.Release;
  }

  /** Until the event is set and the download done, the seed goes on. */
  lemma {:induction false} ServesOrDone(c: Config, truth: Bytes, states: nat -> Pool, events: nat -> Event, seed: nat, n: nat)
    requires Genuine(c, truth) && EndlessRun(c, truth, states, events) && SteadySeed(states, events, seed)
    ensures (states(n).done && states(n).mgr.IsDone()) || Serving(states(n), seed)
  {
    hide GoodState, Genuine, Enabled, Honest, Next, Manager.IsDone, Serving, Undisturbed, Seeds, OffersPastTable;
    if n == 0 {
      ServingSeeds(states(0), seed);
    } else {
      ServesOrDone(c, truth, states, events, seed, n - 1);
      EndlessGood(c, truth, states, events, n - 1);
      assert EndlessStep(c, truth, states, events, n - 1);
      if Serving(states(n - 1), seed) {
        StepServes(c, states(n - 1), events(n - 1), truth, seed);
      } else {
        GoodParts(c, states(n - 1), truth);
        HonestIsSolicited(c, states(n - 1), events(n - 1), truth);
        DoneStep(c, states(n - 1), events(n - 1));
        EventStays(c, states(n - 1), events(n - 1));
      }
    }
  }

  /** A seed that nothing disturbs stays until the download is done. */
  lemma SteadySeedStays(c: Config, truth: Bytes, states: nat -> Pool, events: nat -> Event, seed: nat)
    requires Genuine(c, truth) && EndlessRun(c, truth, states, events) && SteadySeed(states, events, seed)
    ensures SeedStays(states, seed)
  {
    hide Genuine, EndlessRun, SteadySeed, Manager.IsDone, Serving, Seeds, OffersPastTable;
    forall n: nat ensures states(n).mgr.IsDone() || Seeds(states(n), seed) {
      ServesOrDone(c, truth, states, events, seed, n);
      ServingSeeds(states(n), seed);
    }
  }

  // ---------------------------------------------------------------------------
  // The table is done
  // ---------------------------------------------------------------------------

  /** When the session of a peer that has everything leaves nothing to others, nothing is left. */
  lemma NothingLeft(st: Pool, seed: nat)
    requires Seeds(st, seed) && LeavesNothing(st, seed) && IdleEmpty(st)
    requires forall id :: id in st.sessions ==> st.sessions[id].phase.Idle? || st.sessions[id].phase.Closed?
    ensures st.mgr.IsDone()
  {
    hide Manager.Available;
    forall i: nat | i < |st.mgr.pieces| ensures st.mgr.pieces[i].state == COMPLETE {
      assert i in st.mgr.Available(st.sessions[seed].peer);
      assert forall o :: o in st.sessions ==> !Holds(st.sessions[o], i);
    }
  }

  /** A step that is no progress but a step of the session is one between two of its awaits. */
  lemma WaitingIsLocal(st: Pool, ev: Event, id: nat)
    requires Acts(ev, id) && !Progress(st, ev)
    ensures IsLocal(ev) && ev.id == id
  {}

  /** The step that wakes the seeding session ends its seeding: it cannot go idle again. */
  lemma WakingEndsSeeding(c: Config, truth: Bytes, states: nat -> Pool, events: nat -> Event, seed: nat, end: nat, m: nat)
    requires Genuine(c, truth) && EndlessRun(c, truth, states, events) && NoLateShutdown(states, events) && Smooth(states(0))
    requires Fair(states, events) && OnlyWaits(states, events, end) && end <= m && Acts(events(m), seed)
    ensures !Seeds(states(m + 1), seed)
  {
    hide GoodState, Genuine, Enabled, Honest, Next, Progress, LeavesNothing, Manager.IsDone, Acts, Solicited, Fair, PoolOk, OwnOk;
    WaitingIsLocal(states(m), events(m), seed);
    EndlessGood(c, truth, states, events, m);
    GoodParts(c, states(m), truth);
    assert EndlessStep(c, truth, states, events, m);
    HonestIsSolicited(c, states(m), events(m), truth);
    EndlessSmooth(c, truth, states, events, m + 1);
    var st' := states(m + 1);
    forall id | id in st'.sessions ensures st'.sessions[id].phase.Idle? || st'.sessions[id].phase.Closed? {
      RestsFromThere(c, states, events, end, m + 1, id);
    }
    if Seeds(st', seed) {
      LiveIsNotClosed(st', seed);
      IdleLeavesNothing(c, states(m), events(m));
      NothingLeft(st', seed);
    }
  }

  lemma EventuallyDone(c: Config, truth: Bytes, states: nat -> Pool, events: nat -> Event, seed: nat)
    requires Genuine(c, truth) && EndlessRun(c, truth, states, events) && NoLateShutdown(states, events) && Smooth(states(0))
    requires Fair(states, events) && SeedStays(states, seed)
    ensures exists n: nat :: states(n).mgr.IsDone()
  {
    hide GoodState, Genuine, Enabled, Honest, Next, Progress, Smooth, LeavesNothing, Manager.IsDone, Acts, Solicited, IdleEmpty;
    ProgressEnds(c, truth, states, events, 0);
    var end: nat :| OnlyWaits(states, events, end);
    if !states(end).mgr.IsDone() {
      EndlessSmooth(c, truth, states, events, end);
      RestsFromThere(c, states, events, end, end, seed);
      var m: nat :| end <= m && Acts(events(m), seed);
      WakingEndsSeeding(c, truth, states, events, seed, end, m);
      assert states(m + 1).mgr.IsDone();
    }
  }

  lemma LiveIsNotClosed(st: Pool, id: nat)
    requires Seeds(st, id)
    ensures id in st.sessions && !st.sessions[id].phase.Closed?
  {}

  lemma DoneStep(c: Config, st: Pool, ev: Event)
    requires PoolOk(c, st) && OwnOk(st) && Enabled(c, st, ev) && Solicited(st, ev) && st.mgr.IsDone()
    ensures Next(c, st, ev).mgr.IsDone()
  {
    hide PoolOk, OwnOk, Enabled, Solicited, Next;
    StepKeepsOwn(c, st, ev);
    SameNumber(c, st, ev);
  }

  lemma {:induction false} DoneStays(c: Config, truth: Bytes, states: nat -> Pool, events: nat -> Event, n: nat, m: nat)
    requires Genuine(c, truth) && EndlessRun(c, truth, states, events) && states(n).mgr.IsDone() && n <= m
    ensures states(m).mgr.IsDone()
    decreases m
  {
    hide GoodState, Genuine, Enabled, Honest, Next, Manager.IsDone;
    if n < m {
      DoneStays(c, truth, states, events, n, m - 1);
      EndlessGood(c, truth, states, events, m - 1);
      GoodParts(c, states(m - 1), truth);
      assert EndlessStep(c, truth, states, events, m - 1);
      HonestIsSolicited(c, states(m - 1), events(m - 1), truth);
      DoneStep(c, states(m - 1), events(m - 1));
    }
  }

  ghost predicate DoneFrom(states: nat -> Pool, n: nat) {
    forall m: nat :: n <= m ==> states(m).mgr.IsDone()
  }

  /** The run starts at a state that honest peers have led to and in which nothing is lost. */
  ghost predicate Reached(c: Config, truth: Bytes, st0: Pool, before: seq<Event>, st: Pool) {
    Init(c, st0) && Run(c, st0, before, st) && AllHonest(c, st0, before, truth) && QuietShutdowns(c, st0, before)
  }

  lemma {:induction false} HonestRunSolicited(c: Config, st: Pool, events: seq<Event>, truth: Bytes)
    requires AllHonest(c, st, events, truth)
    ensures AllSolicited(c, st, events)
    decreases |events|
  {
    hide Enabled, Next, Honest, Solicited;
    if events != [] && Enabled(c, st, events[0]) {
      HonestIsSolicited(c, st, events[0], truth);
      HonestRunSolicited(c, Next(c, st, events[0]), events[1..], truth);
    }
  }

  lemma ReachedIsSmooth(c: Config, truth: Bytes, st0: Pool, before: seq<Event>, st: Pool)
    requires Genuine(c, truth) && Reached(c, truth, st0, before, st)
    ensures Smooth(st)
  {
    InitPoolOk(c, st0);
    InitOwn(c, st0);
    NothingIdle(c, st0);
    hide PoolOk, OwnOk, Run, AllHonest, QuietShutdowns, IdleEmpty;
    HonestRunSolicited(c, st0, before, truth);
    RunKeepsIdleEmpty(c, st0, before, st);
    RunKeepsCalm(c, st0, before, st);
  }

  /** The download is done at some point and stays done. */
  lemma DownloadFinishes(c: Config, truth: Bytes, st0: Pool, before: seq<Event>, states: nat -> Pool, events: nat -> Event, seed: nat)
    requires Genuine(c, truth) && Reached(c, truth, st0, before, states(0))
    requires EndlessRun(c, truth, states, events) && NoLateShutdown(states, events)
    requires Fair(states, events) && SteadySeed(states, events, seed)
    ensures exists n: nat :: DoneFrom(states, n)
  {
    hide Genuine, Reached, EndlessRun, NoLateShutdown, Fair, SeedStays, Smooth, Manager.IsDone, SteadySeed;
    ReachedIsSmooth(c, truth, st0, before, states(0));
    SteadySeedStays(c, truth, states, events, seed);
    EventuallyDone(c, truth, states, events, seed);
    var n: nat :| states(n).mgr.IsDone();
    forall m: nat | n <= m ensures states(m).mgr.IsDone() {
      DoneStays(c, truth, states, events, n, m);
    }
    assert DoneFrom(states, n);
  }

  ghost predicate EventSetFrom(states: nat -> Pool, n: nat) {
    forall m: nat :: n <= m ==> states(m).done
  }

  lemma {:induction false} EventStaysSet(c: Config, truth: Bytes, states: nat -> Pool, events: nat -> Event, n: nat, m: nat)
    requires EndlessRun(c, truth, states, events) && states(n).done && n <= m
    ensures states(m).done
    decreases m
  {
    hide GoodState, Enabled, Honest, Next;
    if n < m {
      EventStaysSet(c, truth, states, events, n, m - 1);
      assert EndlessStep(c, truth, states, events, m - 1);
      EventStays(c, states(m - 1), events(m - 1));
    }
  }

  /** An idle session that is woken finds that the download is done and sets the event. */
  lemma WokenSetsEvent(c: Config, st: Pool, ev: Event)
    requires PoolOk(c, st) && Enabled(c, st, ev) && IsLocal(ev) && st.sessions[ev.id].phase.Idle?
    requires Undisturbed(st, ev, ev.id) && Next(c, st, ev).mgr.IsDone()
    ensures Next(c, st, ev).done
  {
    hide PoolOk, Next, Manager.IsDone, NextAwait, GoodNews;
    StepEnds(c, st, ev);
  }

  /** The callers that wait for the download are woken: at some point the event is set for good. */
  lemma EventIsSet(c: Config, truth: Bytes, st0: Pool, before: seq<Event>, states: nat -> Pool, events: nat -> Event, seed: nat)
    requires Genuine(c, truth) && Reached(c, truth, st0, before, states(0))
    requires EndlessRun(c, truth, states, events) && NoLateShutdown(states, events)
    requires Fair(states, events) && SteadySeed(states, events, seed)
    ensures exists n: nat :: EventSetFrom(states, n)
  {
    hide Genuine, Reached, NoLateShutdown, Smooth, Manager.IsDone, GoodState, Enabled, Honest, Next, Progress, Undisturbed, OffersExactly, Acts;
    hide EndlessRun;
    DownloadFinishes(c, truth, st0, before, states, events, seed);
    ReachedIsSmooth(c, truth, st0, before, states(0));
    var finished: nat :| DoneFrom(states, finished);
    ProgressEnds(c, truth, states, events, finished);
    var end: nat :| finished <= end && OnlyWaits(states, events, end);
    var n := SeedWakes(c, truth, states, events, seed, end);
    forall m: nat | n <= m ensures states(m).done {
      EventStaysSet(c, truth, states, events, n, m);
    }
    assert EventSetFrom(states, n);
  }

  lemma SeedWakes(c: Config, truth: Bytes, states: nat -> Pool, events: nat -> Event, seed: nat, end: nat) returns (n: nat)
    requires Genuine(c, truth) && EndlessRun(c, truth, states, events) && NoLateShutdown(states, events) && Smooth(states(0))
    requires Fair(states, events) && SteadySeed(states, events, seed) && OnlyWaits(states, events, end) && DoneFrom(states, end)
    ensures states(n).done
  {
    hide Genuine, NoLateShutdown, Smooth, Manager.IsDone, GoodState, Enabled, Honest, Next, Progress, Undisturbed, OffersExactly, Acts;
    n := end;
    ServesOrDone(c, truth, states, events, seed, end);
    if !states(end).done {
      EndlessSmooth(c, truth, states, events, end);
      RestsFromThere(c, states, events, end, end, seed);
      var m: nat :| end <= m && Acts(events(m), seed);
      n := m + 1;
      ServesOrDone(c, truth, states, events, seed, m);
      EndlessGood(c, truth, states, events, m);
      GoodParts(c, states(m), truth);
      assert EndlessStep(c, truth, states, events, m);
      if states(m).done {
        EventStays(c, states(m), events(m));
      } else {
        EndlessSmooth(c, truth, states, events, m);
        RestsFromThere(c, states, events, end, m, seed);
        WaitingIsLocal(states(m), events(m), seed);
        WokenSetsEvent(c, states(m), events(m));
      }
    }
  }

  // ---------------------------------------------------------------------------
  // The files hold the content
  // ---------------------------------------------------------------------------

  /** Worker threads get to every queued chunk. */
  ghost predicate ChunksGetWritten(states: nat -> Pool, events: nat -> Event) {
    forall n: nat, j: nat, k: nat :: j < |states(n).jobs| && k in states(n).jobs[j].todo ==> ChunkLater(events, n, j, k)
  }

  ghost predicate ChunkLater(events: nat -> Event, n: nat, j: nat, k: nat) {
    exists m: nat :: n <= m && events(m) == WriteChunk(j, k)
  }

  lemma FlushedFromThere(states: nat -> Pool, events: nat -> Event, end: nat, n: nat)
    requires OnlyWaits(states, events, end) && ChunksGetWritten(states, events) && end <= n
    ensures Flushed(states(n))
  {
    hide ChunkLater;
    var st := states(n);
    forall j: nat | j < |st.jobs| ensures st.jobs[j].todo == {} {
      forall k: nat ensures k !in st.jobs[j].todo {
        NoChunkLater(states, events, end, n, j, k);
      }
    }
  }

  lemma NoChunkLater(states: nat -> Pool, events: nat -> Event, end: nat, n: nat, j: nat, k: nat)
    requires OnlyWaits(states, events, end) && end <= n
    ensures !ChunkLater(events, n, j, k)
  {
    forall m: nat | n <= m ensures events(m) != WriteChunk(j, k) {
      assert !Progress(states(m), events(m));
    }
  }

  lemma {:induction false} EndlessPrefix(c: Config, truth: Bytes, states: nat -> Pool, events: nat -> Event, n: nat)
      returns (steps: seq<Event>)
    requires EndlessRun(c, truth, states, events)
    ensures Run(c, states(0), steps, states(n))
  {
    hide GoodState, Enabled, Honest, Next;
    if n == 0 {
      steps := [];
      RunNothing(c, states(0));
    } else {
      var front := EndlessPrefix(c, truth, states, events, n - 1);
      assert EndlessStep(c, truth, states, events, n - 1);
      RunNothing(c, states(n));
      RunStep(c, states(n - 1), events(n - 1), [], states(n));
      RunConcat(c, states(0), front, states(n - 1), [events(n - 1)] + [], states(n));
      steps := front + ([events(n - 1)] + []);
    }
  }

  /** The first bytes of file k, up to its torrent length, are its slice of the content. */
  ghost predicate FileOnDisk(c: Config, st: Pool, truth: Bytes, k: nat)
    requires k < |c.Lens()| == |st.disk|
  {
    && StartOf(c.Lens(), k) <= StartOf(c.Lens(), k + 1) <= |truth| && c.Lens()[k] <= |st.disk[k]|
    && st.disk[k][..c.Lens()[k]] == truth[StartOf(c.Lens(), k)..StartOf(c.Lens(), k + 1)]
  }

  ghost predicate OnDisk(c: Config, st: Pool, truth: Bytes) {
    |st.disk| == |c.Lens()| && forall k: nat :: k < |c.Lens()| ==> FileOnDisk(c, st, truth, k)
  }

  lemma DoneIsOnDisk(c: Config, truth: Bytes, st0: Pool, events: seq<Event>, st: Pool)
    requires Genuine(c, truth) && Unforgeable(c, truth) && Init(c, st0) && Run(c, st0, events, st)
    requires st.mgr.IsDone() && Flushed(st)
    ensures OnDisk(c, st, truth)
  {
    InitPoolOk(c, st0);
    InitDisk(c, truth, st0);
    hide Genuine, Unforgeable, Init, Run, Manager.IsDone, Flushed, PoolOk, JobTrue, StartOf;
    RunKeepsDisk(c, st0, events, st, truth);
    forall k: nat | k < |c.Lens()| ensures FileOnDisk(c, st, truth, k) {
      StartOfNext(c.Lens(), k);
      DoneMeansOnDisk(c, truth, st0, events, st, k);
    }
  }

  /** From some point on the files hold the content. */
  lemma FilesGetTheContent(c: Config, truth: Bytes, st0: Pool, before: seq<Event>, states: nat -> Pool, events: nat -> Event, seed: nat)
    requires Genuine(c, truth) && Unforgeable(c, truth) && Reached(c, truth, st0, before, states(0))
    requires EndlessRun(c, truth, states, events) && NoLateShutdown(states, events)
    requires Fair(states, events) && SteadySeed(states, events, seed) && ChunksGetWritten(states, events)
    ensures exists n: nat :: OnDiskFrom(c, truth, states, n)
  {
    hide Genuine, Unforgeable, EndlessRun, NoLateShutdown, Fair, SteadySeed, ChunksGetWritten, OnDisk, Manager.IsDone, Flushed, OnlyWaits;
    hide Init, Run, AllHonest, QuietShutdowns;
    DownloadFinishes(c, truth, st0, before, states, events, seed);
    var done: nat :| DoneFrom(states, done);
    ProgressEnds(c, truth, states, events, 0);
    var end: nat :| OnlyWaits(states, events, end);
    var n := if done <= end then end else done;
    forall m: nat | n <= m ensures OnDisk(c, states(m), truth) {
      FlushedFromThere(states, events, end, m);
      var steps := EndlessPrefix(c, truth, states, events, m);
      RunConcat(c, st0, before, states(0), steps, states(m));
      DoneIsOnDisk(c, truth, st0, before + steps, states(m));
    }
    assert OnDiskFrom(c, truth, states, n);
  }

  ghost predicate OnDiskFrom(c: Config, truth: Bytes, states: nat -> Pool, n: nat) {
    forall m: nat :: n <= m ==> OnDisk(c, states(m), truth)
  }
}
