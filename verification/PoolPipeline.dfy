/**
 The request pipeline: filling it ends, and while peers answer only requests a session waits only
 when its pipeline is full or its peer has nothing more to offer.
 */
module PoolPipeline {
  import opened Basics
  import opened PieceModel
  import opened PieceAssembly
  import opened ManagerModel
  import opened PeerProtocol
  import opened PoolModel
  import opened PoolSafety
  import opened PoolOwnership

  /** Each request sent leaves one more unanswered, and at five the fill loop is over. */
  lemma FillEnds(c: Config, st: Pool, id: nat, pick: nat)
    requires PoolOk(c, st) && Enabled(c, st, Sent(id, pick))
    ensures var s, s' := st.sessions[id], Next(c, st, Sent(id, pick)).sessions[id];
            && |s'.inFlight| == |s.inFlight| + 1 <= PIPELINE_DEPTH
            && (|s'.inFlight| == PIPELINE_DEPTH ==> s'.phase.Receiving?)
  {
    hide Fill, PoolOk, ManagerOk, GoodRequest, JobOk;
    var s := st.sessions[id];
    SendingFits(c, st, id);
    FilledUp(st.mgr, s.(inFlight := s.inFlight + {(s.phase.piece, s.phase.offset)}), pick);
  }

  lemma SendingFits(c: Config, st: Pool, id: nat)
    requires PoolOk(c, st) && id in st.sessions && st.sessions[id].phase.Sending?
    ensures var s := st.sessions[id];
            |s.inFlight| < PIPELINE_DEPTH && (s.phase.piece, s.phase.offset) !in s.inFlight
  {
    hide ManagerOk, SameShape, NoOrphan, JobOk;
  }

  lemma FilledUp(m: Manager, s: Session, pick: nat)
    ensures Fill(m, s, pick).session.inFlight == s.inFlight && Fill(m, s, pick).completed.None?
    ensures |s.inFlight| == PIPELINE_DEPTH ==> Fill(m, s, pick).session.phase.Receiving?
  {
    hide NextRequest, Unrequested, Manager.IsDone;
    assert s.inFlight == {} ==> |s.inFlight| == 0;
  }

  // ---------------------------------------------------------------------------
  // What waiting means
  // ---------------------------------------------------------------------------

  /** Nothing is left to request: all that the session's pieces miss is in flight, and no new piece can be had. */
  ghost predicate Exhausted(m: Manager, s: Session) {
    && m.Candidates(s.peer) == {}
    && forall i, o :: i in s.active && i < |m.pieces| && o in MissingOffsets(m.pieces[i]) ==> (i, o) in s.inFlight
  }

  /** If the session ends up waiting for a message, its pipeline is full or exhausted. */
  ghost predicate WaitsWell(l: Local) {
    (l.session.phase.Idle? || l.session.phase.Receiving?) && l.completed.None?
    ==> |l.session.inFlight| >= PIPELINE_DEPTH || Exhausted(l.mgr, l.session)
  }

  /** A NEEDED piece holds nothing, so a session that takes it has something to request. */
  lemma NeededHasWork(sha1: Hash, m: Manager, s: Session, i: nat)
    requires ManagerOk(sha1, m) && TableOwn(m) && Owns(m, s.(phase := Idle)) && i < |m.pieces| && m.pieces[i].state == NEEDED
    ensures Unrequested(m.pieces[i].MissingBlocks(), i, s.inFlight) != []
  {
    var p := m.pieces[i];
    FirstUnrequested(p, i, s.inFlight);
    assert PieceOk(sha1, p) && PieceOwn(p);
    assert 0 in MissingOffsets(p);
    assert i !in s.active;
  }

  lemma FillWaitsWell(sha1: Hash, m: Manager, s: Session, pick: nat)
    requires ManagerOk(sha1, m) && TableOwn(m) && Owns(m, s.(phase := Idle))
    ensures WaitsWell(Fill(m, s, pick)) && WaitsWell(Top(m, s, pick))
  {
    hide NextRequest, Unrequested, ManagerOk, TableOwn, Owns, MissingOffsets, Manager.IsDone;
    NextRequestExact(m, s.active, s.inFlight);
    if m.Candidates(s.peer) != {} {
      NeededHasWork(sha1, m, s, Choose(m, s.peer, pick));
    }
  }

  lemma BlockWaitsWell(sha1: Hash, m: Manager, s: Session, i: nat, begin: nat, block: Bytes, pick: nat)
    requires ManagerOk(sha1, m) && TableOwn(m) && Owns(m, s) && s.phase.Receiving?
    requires (i, begin) in s.inFlight && |block| == BlockSize(m.pieces[i].length, begin)
    ensures WaitsWell(OnBlock(sha1, m, s, i, begin, block, pick))
  {
    hide Assembled, Top, RemoveFirst, IsBlockOffset, TableOwn, Manager.AddBlock, Manager.Completes, ManagerOk, MissingOffsets, Exhausted;
    BlockStored(sha1, m, s, i, begin, block);
    AddBlockOk(sha1, m, i, begin, block);
    var m' := m.AddBlock(sha1, i, begin, block).value;
    var s1 := s.(inFlight := s.inFlight - {(i, begin)});
    if m'.pieces[i].state == PENDING {
      StillOwns(m, m', s, i, begin);
      FillWaitsWell(sha1, m', s1, pick);
    } else if m'.pieces[i].state == NEEDED {
      DropsPiece(m, m', s, i, begin);
      FillWaitsWell(sha1, m', s1.(active := RemoveFirst(s1.active, i)), pick);
    }
  }

  lemma MessageWaitsWell(sha1: Hash, m: Manager, s: Session, msg: Message, pick: nat)
    requires ManagerOk(sha1, m) && TableOwn(m) && Owns(m, s) && FromWire(msg)
    requires s.phase.Receiving? && msg.Piece? ==>
               (msg.index, msg.begin) in s.inFlight && msg.index < |m.pieces| && |msg.block| == BlockSize(m.pieces[msg.index].length, msg.begin)
    ensures s.phase.Opening? ==> WaitsWell(OnOpening(m, s, s.phase.left, msg, pick))
    ensures s.phase.Idle? ==> WaitsWell(OnIdle(m, s, msg, pick))
    ensures s.phase.Receiving? ==> WaitsWell(OnReceiving(sha1, m, s, msg, pick))
  {
    hide Top, OnBlock, ManagerOk, Owns, Manager.Release, TableOwn, Exhausted, Manager.OnPeerHave, Manager.OnPeerBitfield;
    RestingOwns(m, s);
    FillWaitsWell(sha1, m, s, pick);
    match msg
    case Have(i) =>
      HaveOk(sha1, m, s.peer, i);
      NewsOwns(sha1, m, m.OnPeerHave(s.peer, i), s);
      FillWaitsWell(sha1, m.OnPeerHave(s.peer, i), s, pick);
    case Bitfield(bits) =>
      BitfieldOk(sha1, m, s.peer, bits);
      NewsOwns(sha1, m, m.OnPeerBitfield(s.peer, bits), s);
      FillWaitsWell(sha1, m.OnPeerBitfield(s.peer, bits), s, pick);
    case Piece(i, begin, block) =>
      if s.phase.Receiving? {
        BlockWaitsWell(sha1, m, s, i, begin, block, pick);
      }
    case _ =>
  }

  lemma NewsOwns(sha1: Hash, m: Manager, m': Manager, s: Session)
    requires m'.pieces == m.pieces && TableOwn(m) && Owns(m, s)
    ensures TableOwn(m') && Owns(m', s.(phase := Idle))
  {
    hide IsBlockOffset, PieceOwn;
  }

  lemma LocalWaitsWell(c: Config, st: Pool, ev: Event)
    requires PoolOk(c, st) && OwnOk(st) && Enabled(c, st, ev) && Solicited(st, ev) && IsLocal(ev)
    ensures WaitsWell(LocalStep(c, st, ev))
  {
    hide Top, Fill, OnBlock, OnOpening, OnIdle, OnReceiving, TableOwn, ManagerOk, NoOrphan, Owns, SameShape, JobOk, Exhausted;
    var m, s := st.mgr, st.sessions[ev.id];
    assert Owns(m, s);
    RestingOwns(m, s);
    match ev
    case Deliver(_, msg, pick) => MessageWaitsWell(c.sha1, m, s, msg, pick);
    case Timeout(_, pick) => FillWaitsWell(c.sha1, m, s, pick);
    case Returned(_, pick) => FillWaitsWell(c.sha1, m, s, pick);
    case Sent(_, pick) => FillWaitsWell(c.sha1, m, s.(inFlight := s.inFlight + {(s.phase.piece, s.phase.offset)}), pick);
    case Fail(_) =>
  }

  /** A PENDING piece that its session owns always misses a block. */
  lemma PendingMisses(sha1: Hash, m: Manager, i: nat) returns (o: int)
    requires ManagerOk(sha1, m) && TableOwn(m) && Pending(m, i)
    ensures o in MissingOffsets(m.pieces[i])
  {
    hide Assembled, Disciplined, StoredFrom;
    var p := m.pieces[i];
    assert PieceOk(sha1, p) && PieceOwn(p);
    CounterAgrees(p);
    o :| o in MissingOffsets(p);
  }

  lemma IdleOwnsNothing(sha1: Hash, m: Manager, s: Session)
    requires ManagerOk(sha1, m) && TableOwn(m) && Owns(m, s) && Exhausted(m, s) && s.inFlight == {}
    ensures s.active == []
  {
    hide ManagerOk, TableOwn, MissingOffsets;
    if s.active != [] {
      var i := s.active[0];
      assert i in s.active && Pending(m, i);
      var o := PendingMisses(sha1, m, i);
      assert false;
    }
  }

  lemma IdleHasNothingInFlight(m: Manager, s: Session, pick: nat)
    ensures Fill(m, s, pick).session.phase.Idle? ==> Fill(m, s, pick).session.inFlight == {} && !Fill(m, s, pick).mgr.IsDone()
    ensures Top(m, s, pick).session.phase.Idle? ==> Top(m, s, pick).session.inFlight == {} && !Top(m, s, pick).mgr.IsDone()
  {
    hide NextRequest, Unrequested;
  }

  lemma LocalIdle(c: Config, st: Pool, ev: Event)
    requires Enabled(c, st, ev) && IsLocal(ev) && LocalStep(c, st, ev).session.phase.Idle?
    ensures var l := LocalStep(c, st, ev);
            l.session.inFlight == {} && !l.mgr.IsDone() && l.completed.None?
  {
    hide Top, Fill, Manager.IsDone, Manager.Release, Manager.AddBlock, Manager.Completes, RemoveFirst;
    var s := st.sessions[ev.id];
    forall m: Manager, s: Session, pick: nat
      ensures Fill(m, s, pick).session.phase.Idle? ==> Fill(m, s, pick).session.inFlight == {} && !Fill(m, s, pick).mgr.IsDone()
      ensures Top(m, s, pick).session.phase.Idle? ==> Top(m, s, pick).session.inFlight == {} && !Top(m, s, pick).mgr.IsDone()
      ensures Top(m, s, pick).completed.None? && Fill(m, s, pick).completed.None?
    {
      IdleHasNothingInFlight(m, s, pick);
      TopCompletesNone(m, s, pick);
    }
  }

  lemma TopCompletesNone(m: Manager, s: Session, pick: nat)
    ensures Top(m, s, pick).completed.None? && Fill(m, s, pick).completed.None?
  {
    hide NextRequest, Unrequested;
  }

  /** A session at an idle await holds no piece, and others hold every unfinished piece its peer offers. */
  ghost predicate LeavesNothing(st: Pool, id: nat)
    requires id in st.sessions
  {
    var s := st.sessions[id];
    && s.active == [] && s.inFlight == {}
    && forall i :: i in st.mgr.Available(s.peer) && st.mgr.Unfinished(i) ==>
         exists o :: o in st.sessions && o != id && Holds(st.sessions[o], i)
  }

  lemma ExhaustedLeavesNothing(c: Config, st: Pool, id: nat)
    requires PoolOk(c, st) && OwnOk(st) && id in st.sessions && st.sessions[id].phase.Idle?
    requires st.sessions[id].inFlight == {} && Exhausted(st.mgr, st.sessions[id])
    ensures LeavesNothing(st, id)
  {
    hide SessionOk, SameShape, JobOk, PieceOk, Owns, TableOwn, MissingOffsets, Manager.Candidates;
    var m, s := st.mgr, st.sessions[id];
    IdleOwnsNothing(c.sha1, m, s);
    CandidatesAreNeeded(c.sha1, m, s.peer);
    forall i | i in m.Available(s.peer) && m.Unfinished(i)
      ensures exists o :: o in st.sessions && o != id && Holds(st.sessions[o], i)
    {
      assert i !in m.Candidates(s.peer);
      NotFailed(c.sha1, m, i);
      assert Pending(m, i);
      var o :| o in st.sessions && Holds(st.sessions[o], i);
      assert o != id;
    }
  }

  lemma NotFailed(sha1: Hash, m: Manager, i: nat)
    requires ManagerOk(sha1, m) && i < |m.pieces|
    ensures m.pieces[i].state != FAILED
  {
    hide Assembled;
  }

  /**
   A session that goes idle holds no piece, and each unfinished piece its peer offers is held by
   another session that has not released it; the download is not done.
   */
  lemma IdleLeavesNothing(c: Config, st: Pool, ev: Event)
    requires PoolOk(c, st) && OwnOk(st) && Enabled(c, st, ev) && Solicited(st, ev) && IsLocal(ev)
    requires ev.id in Next(c, st, ev).sessions && Next(c, st, ev).sessions[ev.id].phase.Idle?
    ensures LeavesNothing(Next(c, st, ev), ev.id) && !Next(c, st, ev).mgr.IsDone()
  {
    hide LocalStep, PoolOk, OwnOk, Solicited, Enabled, Exhausted, Manager.IsDone;
    LocalWaitsWell(c, st, ev);
    LocalNext(c, st, ev);
    LocalIdle(c, st, ev);
    StepOk(c, st, ev);
    StepKeepsOwn(c, st, ev);
    ExhaustedLeavesNothing(c, Next(c, st, ev), ev.id);
  }

  lemma NothingLeftIsDone(st: Pool, id: nat)
    requires id in st.sessions && LeavesNothing(st, id)
    requires forall o :: o in st.sessions && o != id ==> st.sessions[o].phase.Closed?
    requires forall i: nat :: i < |st.mgr.pieces| ==> i in st.mgr.Available(st.sessions[id].peer)
    ensures st.mgr.IsDone()
  {
    hide Manager.Available;
    forall i: nat | i < |st.mgr.pieces| ensures st.mgr.pieces[i].state == COMPLETE {
      assert i in st.mgr.Available(st.sessions[id].peer);
      assert forall o :: o in st.sessions && o != id ==> !Holds(st.sessions[o], i);
    }
  }

  /** While a session is the only one left and its peer offers every piece, it never goes idle. */
  lemma LoneSeedNeverIdles(c: Config, st: Pool, ev: Event)
    requires PoolOk(c, st) && OwnOk(st) && Enabled(c, st, ev) && Solicited(st, ev) && IsLocal(ev)
    requires forall o :: o in st.sessions && o != ev.id ==> st.sessions[o].phase.Closed?
    requires ev.id in Next(c, st, ev).sessions
    requires var m := Next(c, st, ev).mgr;
             forall i: nat :: i < |m.pieces| ==> i in m.Available(st.sessions[ev.id].peer)
    ensures !Next(c, st, ev).sessions[ev.id].phase.Idle?
  {
    hide LocalStep, PoolOk, OwnOk, Solicited, Enabled, Next, Manager.Available;
    var st' := Next(c, st, ev);
    LocalNext(c, st, ev);
    if st'.sessions[ev.id].phase.Idle? {
      IdleLeavesNothing(c, st, ev);
      NothingLeftIsDone(st', ev.id);
    }
  }

  // ---------------------------------------------------------------------------
  // A pool at rest
  // ---------------------------------------------------------------------------

  /** Idle sessions hold no piece and have asked for nothing. */
  ghost predicate IdleEmpty(st: Pool) {
    forall id :: id in st.sessions && st.sessions[id].phase.Idle? ==>
      st.sessions[id].active == [] && st.sessions[id].inFlight == {}
  }

  lemma LeavesEmpty(st: Pool, id: nat)
    requires id in st.sessions && LeavesNothing(st, id)
    ensures st.sessions[id].active == [] && st.sessions[id].inFlight == {}
  {}

  lemma LocalKeepsIdleEmpty(c: Config, st: Pool, ev: Event)
    requires PoolOk(c, st) && OwnOk(st) && IdleEmpty(st) && Enabled(c, st, ev) && Solicited(st, ev) && IsLocal(ev)
    ensures IdleEmpty(Next(c, st, ev))
  {
    hide PoolOk, OwnOk, Next, Solicited, LocalStep, LeavesNothing, Enabled, Apply, Resumed;
    LocalNext(c, st, ev);
    var st' := Next(c, st, ev);
    if ev.id in st'.sessions && st'.sessions[ev.id].phase.Idle? {
      IdleLeavesNothing(c, st, ev);
      LeavesEmpty(st', ev.id);
    }
  }

  lemma StepKeepsIdleEmpty(c: Config, st: Pool, ev: Event)
    requires PoolOk(c, st) && OwnOk(st) && IdleEmpty(st) && Enabled(c, st, ev) && Solicited(st, ev)
    ensures IdleEmpty(Next(c, st, ev))
  {
    hide PoolOk, OwnOk, Next, Solicited, RunChunk, LocalStep;
    if IsLocal(ev) {
      LocalKeepsIdleEmpty(c, st, ev);
    } else if ev.Release? {
      ReleaseNext(c, st, ev.id);
    } else {
      OtherNext(c, st, ev);
      if ev.WriteChunk? {
        ChunkKeeps(c, st, ev.job, ev.file);
      }
    }
  }

  lemma {:induction false} RunKeepsIdleEmpty(c: Config, st: Pool, events: seq<Event>, st': Pool)
    requires PoolOk(c, st) && OwnOk(st) && IdleEmpty(st) && Run(c, st, events, st') && AllSolicited(c, st, events)
    ensures IdleEmpty(st')
    decreases |events|
  {
    hide PoolOk, OwnOk, Next, Enabled, Solicited, IdleEmpty;
    if events != [] {
      StepOk(c, st, events[0]);
      StepKeepsOwn(c, st, events[0]);
      StepKeepsIdleEmpty(c, st, events[0]);
      RunKeepsIdleEmpty(c, Next(c, st, events[0]), events[1..], st');
    }
  }

  /** A session with nothing on its hands whose peer offers a NEEDED piece asks for a block of it. */
  lemma OfferIsTaken(sha1: Hash, m: Manager, s: Session, pick: nat, i: nat)
    requires ManagerOk(sha1, m) && TableOwn(m) && Owns(m, s.(phase := Idle)) && s.active == [] && s.inFlight == {}
    requires i < |m.pieces| && m.pieces[i].state == NEEDED && i in m.Available(s.peer) && !m.SelectRaises(s.peer)
    ensures Top(m, s, pick).session.phase.Sending?
  {
    hide Unrequested, ManagerOk, TableOwn, Owns, Manager.Rarity;
    CandidatesAreNeeded(sha1, m, s.peer);
    assert i in m.Candidates(s.peer);
    hide Manager.SelectRaises;
    NeededHasWork(sha1, m, s, Choose(m, s.peer, pick));
  }

  /** An idle session whose peer offers an unfinished piece, and no index past the table. */
  predicate CouldServe(st: Pool, id: nat, i: nat) {
    && id in st.sessions && st.sessions[id].phase.Idle? && st.mgr.Unfinished(i)
    && i in st.mgr.Available(st.sessions[id].peer) && !st.mgr.SelectRaises(st.sessions[id].peer)
  }

  /** The session's next time-out sends a request. */
  ghost predicate Asks(c: Config, st: Pool, id: nat, pick: nat) {
    Enabled(c, st, Timeout(id, pick))
    && id in Next(c, st, Timeout(id, pick)).sessions && Next(c, st, Timeout(id, pick)).sessions[id].phase.Sending?
  }

  /**
   In every disciplined run: once each session is idle or closed no piece is PENDING, and the next
   time-out of a session whose peer offers an unfinished piece sends a request. A pool that has
   anything left to do, and a peer for it, does not stay at rest.
   */
  lemma RestDoesNotLast(c: Config, st0: Pool, events: seq<Event>, st: Pool)
    requires Init(c, st0) && Run(c, st0, events, st) && AllSolicited(c, st0, events)
    requires forall id :: id in st.sessions ==> st.sessions[id].phase.Idle? || st.sessions[id].phase.Closed?
    ensures forall i: nat :: !Pending(st.mgr, i)
    ensures forall id: nat, i: nat, pick: nat :: CouldServe(st, id, i) ==> Asks(c, st, id, pick)
  {
    InitPoolOk(c, st0);
    InitOwn(c, st0);
    NothingIdle(c, st0);
    hide Init, Run, AllSolicited;
    RunKeepsOwn(c, st0, events, st);
    RunKeepsIdleEmpty(c, st0, events, st);
    NonePending(c, st);
    hide PoolOk, OwnOk, Pending, CouldServe, Asks, IdleEmpty;
    forall id: nat, i: nat, pick: nat | CouldServe(st, id, i) ensures Asks(c, st, id, pick) {
      TimeoutAsks(c, st, id, i, pick);
    }
  }

  lemma NothingIdle(c: Config, st: Pool)
    requires Init(c, st)
    ensures IdleEmpty(st)
  {}

  lemma NonePending(c: Config, st: Pool)
    requires PoolOk(c, st) && IdleEmpty(st)
    requires forall id :: id in st.sessions ==> st.sessions[id].phase.Idle? || st.sessions[id].phase.Closed?
    ensures forall i: nat :: !Pending(st.mgr, i)
  {
    hide ManagerOk, SameShape, SessionOk, JobOk;
  }

  lemma TimeoutAsks(c: Config, st: Pool, id: nat, i: nat, pick: nat)
    requires PoolOk(c, st) && OwnOk(st) && IdleEmpty(st) && !Pending(st.mgr, i)
    requires CouldServe(st, id, i)
    ensures Asks(c, st, id, pick)
  {
    hide Top, ManagerOk, SessionOk, SameShape, NoOrphan, JobOk, TableOwn, Owns, Manager.SelectRaises, RunChunk, Manager.Release;
    NotFailed(c.sha1, st.mgr, i);
    assert Owns(st.mgr, st.sessions[id]);
    RestingOwns(st.mgr, st.sessions[id]);
    OfferIsTaken(c.sha1, st.mgr, st.sessions[id], pick, i);
    TopCompletesNone(st.mgr, st.sessions[id], pick);
  }
}
