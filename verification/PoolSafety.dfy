/**
 What holds in every run, whatever the peers send: the table invariant, well-formed requests, the
 pipeline bound, verified completions and no orphaned piece.
 */
module PoolSafety {
  import opened Basics
  import opened PieceModel
  import opened PieceAssembly
  import opened ManagerModel
  import opened PeerProtocol
  import opened FileLayout
  import opened FileWriter
  import opened PoolModel

  // ---------------------------------------------------------------------------
  // Invariants
  // ---------------------------------------------------------------------------

  /** Lengths and expected hashes never change. */
  ghost predicate SameShape(m: Manager, m': Manager) {
    && |m'.pieces| == |m.pieces|
    && forall i :: 0 <= i < |m.pieces| ==>
         m'.pieces[i].length == m.pieces[i].length && m'.pieces[i].expectedHash == m.pieces[i].expectedHash
  }

  /** A request names a whole block of 16 KB at most, aligned and inside its piece. */
  predicate GoodRequest(m: Manager, piece: nat, offset: int, size: int) {
    && piece < |m.pieces|
    && IsBlockOffset(m.pieces[piece].length, offset)
    && size == BlockSize(m.pieces[piece].length, offset)
    && 0 < size <= BLOCK_SIZE
    && offset + size <= m.pieces[piece].length
  }

  predicate SessionOk(m: Manager, s: Session) {
    && (forall i :: i in s.active ==> i < |m.pieces|)
    && (forall r :: r in s.inFlight ==> r.0 < |m.pieces|)
    && |s.inFlight| <= PIPELINE_DEPTH
    && (s.phase.Sending? ==>
          && |s.inFlight| < PIPELINE_DEPTH
          && (s.phase.piece, s.phase.offset) !in s.inFlight
          && GoodRequest(m, s.phase.piece, s.phase.offset, s.phase.size))
    && (s.phase.Opening? ==> s.phase.left > 0)
  }

  predicate Pending(m: Manager, i: nat) {
    i < |m.pieces| && m.pieces[i].state == PENDING
  }

  /** The session still has its pieces on its list. */
  predicate Holds(s: Session, i: nat) {
    !s.phase.Closed? && i in s.active
  }

  /** No PENDING piece is forgotten. */
  ghost predicate NoOrphan(st: Pool) {
    forall i: nat :: Pending(st.mgr, i) ==> exists id :: id in st.sessions && Holds(st.sessions[id], i)
  }

  ghost predicate JobOk(c: Config, j: Job) {
    && j.piece < |c.hashes|
    && c.sha1(j.data) == c.hashes[j.piece]
  }

  ghost predicate PoolOk(c: Config, st: Pool) {
    && c.torrent.pieceLength > 0
    && SameShape(Initial(c.hashes, c.torrent.pieceLength, c.TotalLength()), st.mgr)
    && ManagerOk(c.sha1, st.mgr)
    && (forall id :: id in st.sessions ==> SessionOk(st.mgr, st.sessions[id]))
    && (forall j :: 0 <= j < |st.jobs| ==> JobOk(c, st.jobs[j]))
    && NoOrphan(st)
  }

  // ---------------------------------------------------------------------------
  // One local step
  // ---------------------------------------------------------------------------

  /** What a local step from `m` and `s` may do, peers being arbitrary. */
  ghost predicate LocalOk(sha1: Hash, m: Manager, s: Session, l: Local) {
    && ManagerOk(sha1, l.mgr)
    && SameShape(m, l.mgr)
    && SessionOk(l.mgr, l.session)
    && l.session.key == s.key && l.session.peer == s.peer
    && !l.session.phase.Closed?
    && (forall i: nat :: Pending(l.mgr, i) ==> i in l.session.active || (Pending(m, i) && i !in s.active))
    && (l.done ==> l.mgr.IsDone())
    && (l.completed.Some? ==>
          l.completed.value.0 < |m.pieces| && sha1(l.completed.value.1) == m.pieces[l.completed.value.0].expectedHash)
  }

  lemma {:induction false} UnrequestedExact(missing: seq<Block>, i: nat, inFlight: set<(nat, int)>)
    ensures forall b :: b in Unrequested(missing, i, inFlight) <==> b in missing && (i, b.offset) !in inFlight
  {
    if missing != [] {
      UnrequestedExact(missing[1..], i, inFlight);
    }
  }

  /** A request is for a missing, unrequested block of an active piece; without one nothing is left to request. */
  lemma {:induction false} NextRequestExact(m: Manager, active: seq<nat>, inFlight: set<(nat, int)>)
    ensures match NextRequest(m, active, inFlight)
            case Some(r) =>
              && r.0 in active && r.0 < |m.pieces|
              && (r.0, r.1.offset) !in inFlight
              && r.1.offset in MissingOffsets(m.pieces[r.0])
              && GoodRequest(m, r.0, r.1.offset, r.1.size)
            case None =>
              forall i, o :: i in active && i < |m.pieces| && o in MissingOffsets(m.pieces[i]) ==> (i, o) in inFlight
  {
    hide MissingFrom;
    if active != [] {
      var i := active[0];
      NextRequestExact(m, active[1..], inFlight);
      if i < |m.pieces| {
        FirstUnrequested(m.pieces[i], i, inFlight);
      }
    }
  }

  lemma FirstUnrequested(p: PieceView, i: nat, inFlight: set<(nat, int)>)
    ensures var blocks := Unrequested(p.MissingBlocks(), i, inFlight);
            if blocks == [] then
              forall o :: o in MissingOffsets(p) ==> (i, o) in inFlight
            else
              && (i, blocks[0].offset) !in inFlight
              && blocks[0].offset in MissingOffsets(p)
              && blocks[0].size == BlockSize(p.length, blocks[0].offset)
              && 0 < blocks[0].size <= BLOCK_SIZE && blocks[0].offset + blocks[0].size <= p.length
  {
    var missing := p.MissingBlocks();
    var blocks := Unrequested(missing, i, inFlight);
    MissingExact(p);
    UnrequestedExact(missing, i, inFlight);
    if blocks == [] {
      forall o | o in MissingOffsets(p) ensures (i, o) in inFlight {
        var b := Block(o, BlockSize(p.length, o));
        assert b in missing && b !in blocks;
      }
    } else {
      assert blocks[0] in blocks;
    }
  }

  lemma ClaimShape(m: Manager, i: nat)
    requires i < |m.pieces|
    ensures SameShape(m, m.Claim(i))
    ensures forall j: nat :: Pending(m.Claim(i), j) <==> Pending(m, j) || j == i
  {}

  lemma FillOk(sha1: Hash, m: Manager, s: Session, pick: nat)
    requires ManagerOk(sha1, m) && SessionOk(m, s.(phase := Idle)) && !s.phase.Closed?
    ensures LocalOk(sha1, m, s, Fill(m, s, pick)) && Fill(m, s, pick).completed.None?
  {
    hide NextRequest, Unrequested, PieceOk, MissingOffsets, ManagerOk, IsBlockOffset, BlockSize;
    NextRequestExact(m, s.active, s.inFlight);
    if |s.inFlight| < PIPELINE_DEPTH && NextRequest(m, s.active, s.inFlight).None?
       && !m.SelectRaises(s.peer) && m.Candidates(s.peer) != {} {
      var i := Choose(m, s.peer, pick);
      ClaimOk(sha1, m, i);
      ClaimShape(m, i);
      FirstUnrequested(m.pieces[i], i, s.inFlight);
      MissingIsBlock(m.pieces[i]);
      assert SessionOk(m.Claim(i), s.(phase := Idle, active := s.active + [i]));
    }
  }

  lemma MissingIsBlock(p: PieceView)
    ensures forall o :: o in MissingOffsets(p) ==> IsBlockOffset(p.length, o)
  {}

  lemma TopOk(sha1: Hash, m: Manager, s: Session, pick: nat)
    requires ManagerOk(sha1, m) && SessionOk(m, s.(phase := Idle)) && !s.phase.Closed?
    ensures LocalOk(sha1, m, s, Top(m, s, pick)) && Top(m, s, pick).completed.None?
  {
    hide Fill, ManagerOk, IsBlockOffset, BlockSize;
    FillOk(sha1, m, s, pick);
  }

  /** What is true of a run from a table reached without changing any piece is true of the whole region. */
  lemma LocalFrom(sha1: Hash, m: Manager, m1: Manager, s: Session, s1: Session, l: Local)
    requires LocalOk(sha1, m1, s1, l) && l.completed.None?
    requires SameShape(m, m1) && s1.key == s.key && s1.peer == s.peer
    requires forall i: nat :: Pending(m1, i) && i !in s1.active ==> Pending(m, i) && i !in s.active
    ensures LocalOk(sha1, m, s, l)
  {
    hide ManagerOk, SessionOk;
  }

  lemma HaveOk(sha1: Hash, m: Manager, peer: PeerId, i: nat)
    requires ManagerOk(sha1, m)
    ensures ManagerOk(sha1, m.OnPeerHave(peer, i)) && m.OnPeerHave(peer, i).pieces == m.pieces
  {
    hide PieceOk;
  }

  lemma BitfieldOk(sha1: Hash, m: Manager, peer: PeerId, bits: Bytes)
    requires ManagerOk(sha1, m)
    ensures ManagerOk(sha1, m.OnPeerBitfield(peer, bits)) && m.OnPeerBitfield(peer, bits).pieces == m.pieces
  {
    hide PieceOk;
  }

  lemma {:induction false} RemoveFirstKeeps(xs: seq<nat>, x: nat)
    ensures forall y :: y in RemoveFirst(xs, x) ==> y in xs
    ensures forall y :: y in xs && y != x ==> y in RemoveFirst(xs, x)
  {
    if xs != [] {
      RemoveFirstKeeps(xs[1..], x);
    }
  }

  lemma AddBlockShape(sha1: Hash, m: Manager, i: nat, begin: nat, block: Bytes)
    requires m.AddBlock(sha1, i, begin, block).Ok?
    ensures SameShape(m, m.AddBlock(sha1, i, begin, block).value)
    ensures forall j :: 0 <= j < |m.pieces| && j != i ==> m.AddBlock(sha1, i, begin, block).value.pieces[j] == m.pieces[j]
    ensures forall j: nat :: Pending(m.AddBlock(sha1, i, begin, block).value, j) ==> Pending(m, j)
  {
    hide Assembled;
  }

  lemma BlockOk(sha1: Hash, m: Manager, s: Session, i: nat, begin: nat, block: Bytes, pick: nat)
    requires ManagerOk(sha1, m) && SessionOk(m, s) && s.phase.Receiving?
    ensures LocalOk(sha1, m, s, OnBlock(sha1, m, s, i, begin, block, pick))
  {
    hide Assembled, Top, RemoveFirst, IsBlockOffset, BlockSize;
    var s1 := s.(inFlight := s.inFlight - {(i, begin)});
    var s2 := s1.(active := RemoveFirst(s1.active, i));
    assert SessionOk(m, s1);
    RemoveFirstKeeps(s1.active, i);
    if m.AddBlock(sha1, i, begin, block).Ok? {
      var m' := m.AddBlock(sha1, i, begin, block).value;
      AddBlockOk(sha1, m, i, begin, block);
      AddBlockShape(sha1, m, i, begin, block);
      hide ManagerOk, Manager.AddBlock;
      assert SessionOk(m', s1.(phase := Idle)) && SessionOk(m', s2.(phase := Idle));
      if m.Completes(sha1, i, begin, block) {
        CompletedHash(sha1, m', i);
      } else if m'.pieces[i].state == NEEDED {
        TopOk(sha1, m', s2, pick);
        LocalFrom(sha1, m, m', s, s2, Top(m', s2, pick));
      } else {
        TopOk(sha1, m', s1, pick);
        LocalFrom(sha1, m, m', s, s1, Top(m', s1, pick));
      }
    }
  }

  lemma CompletedHash(sha1: Hash, m: Manager, i: nat)
    requires ManagerOk(sha1, m) && i < |m.pieces| && m.pieces[i].state == COMPLETE
    ensures sha1(Assembled(m.pieces[i].blocks)) == m.pieces[i].expectedHash
  {}

  lemma ReleaseShape(m: Manager, listed: set<nat>)
    ensures SameShape(m, m.Release(listed))
    ensures forall i: nat :: Pending(m.Release(listed), i) <==> Pending(m, i) && i !in listed
  {}

  lemma ReceivingOk(sha1: Hash, m: Manager, s: Session, msg: Message, pick: nat)
    requires ManagerOk(sha1, m) && SessionOk(m, s) && s.phase.Receiving? && FromWire(msg)
    ensures LocalOk(sha1, m, s, OnReceiving(sha1, m, s, msg, pick))
  {
    hide ManagerOk, Top, OnBlock, IsBlockOffset, BlockSize;
    match msg
    case Piece(i, begin, block) => BlockOk(sha1, m, s, i, begin, block, pick);
    case Choke =>
      ReleaseOk(sha1, m, s.Listed());
      ReleaseShape(m, s.Listed());
    case Have(i) =>
      HaveOk(sha1, m, s.peer, i);
      TopOk(sha1, m.OnPeerHave(s.peer, i), s, pick);
      LocalFrom(sha1, m, m.OnPeerHave(s.peer, i), s, s, Top(m.OnPeerHave(s.peer, i), s, pick));
    case _ => TopOk(sha1, m, s, pick);
  }

  lemma IdleOk(sha1: Hash, m: Manager, s: Session, msg: Message, pick: nat)
    requires ManagerOk(sha1, m) && SessionOk(m, s) && s.phase.Idle? && FromWire(msg)
    ensures LocalOk(sha1, m, s, OnIdle(m, s, msg, pick)) && OnIdle(m, s, msg, pick).completed.None?
  {
    hide ManagerOk, Top, IsBlockOffset, BlockSize;
    match msg
    case Have(i) =>
      HaveOk(sha1, m, s.peer, i);
      TopOk(sha1, m.OnPeerHave(s.peer, i), s, pick);
      LocalFrom(sha1, m, m.OnPeerHave(s.peer, i), s, s, Top(m.OnPeerHave(s.peer, i), s, pick));
    case Bitfield(bits) =>
      BitfieldOk(sha1, m, s.peer, bits);
      TopOk(sha1, m.OnPeerBitfield(s.peer, bits), s, pick);
      LocalFrom(sha1, m, m.OnPeerBitfield(s.peer, bits), s, s, Top(m.OnPeerBitfield(s.peer, bits), s, pick));
    case Choke =>
    case _ => TopOk(sha1, m, s, pick);
  }

  lemma OpeningOk(sha1: Hash, m: Manager, s: Session, msg: Message, pick: nat)
    requires ManagerOk(sha1, m) && SessionOk(m, s) && s.phase.Opening? && FromWire(msg)
    ensures LocalOk(sha1, m, s, OnOpening(m, s, s.phase.left, msg, pick))
    ensures OnOpening(m, s, s.phase.left, msg, pick).completed.None?
  {
    hide ManagerOk, Top, IsBlockOffset, BlockSize, Manager.OnPeerHave, Manager.OnPeerBitfield;
    match msg
    case Unchoke => TopOk(sha1, m, s, pick);
    case Bitfield(bits) => BitfieldOk(sha1, m, s.peer, bits);
    case Have(i) => HaveOk(sha1, m, s.peer, i);
    case _ =>
  }

  lemma LocalStepOk(c: Config, st: Pool, ev: Event)
    requires PoolOk(c, st) && Enabled(c, st, ev)
    requires IsLocal(ev)
    ensures LocalOk(c.sha1, st.mgr, st.sessions[ev.id], LocalStep(c, st, ev))
  {
    hide ManagerOk, Top, Fill, OnOpening, OnIdle, OnReceiving, NoOrphan, IsBlockOffset, BlockSize, JobOk;
    var m, s := st.mgr, st.sessions[ev.id];
    match ev
    case Deliver(_, msg, pick) =>
      if s.phase.Opening? {
        OpeningOk(c.sha1, m, s, msg, pick);
      } else if s.phase.Idle? {
        IdleOk(c.sha1, m, s, msg, pick);
      } else {
        ReceivingOk(c.sha1, m, s, msg, pick);
      }
    case Timeout(_, pick) => TopOk(c.sha1, m, s, pick);
    case Returned(_, pick) => TopOk(c.sha1, m, s, pick);
    case Sent(_, pick) =>
      var s1 := s.(inFlight := s.inFlight + {(s.phase.piece, s.phase.offset)});
      assert SessionOk(m, s1.(phase := Idle));
      FillOk(c.sha1, m, s1, pick);
    case Fail(_) =>
  }

  // ---------------------------------------------------------------------------
  // Every step, every run
  // ---------------------------------------------------------------------------

  lemma InitPoolOk(c: Config, st: Pool)
    requires Init(c, st)
    ensures PoolOk(c, st)
  {
    InitialOk(c.sha1, c.hashes, c.torrent.pieceLength, c.TotalLength());
  }

  lemma OtherSessionOk(m: Manager, m': Manager, s: Session)
    requires SameShape(m, m') && SessionOk(m, s)
    ensures SessionOk(m', s)
  {}

  lemma ShapeTransitive(a: Manager, b: Manager, d: Manager)
    requires SameShape(a, b) && SameShape(b, d)
    ensures SameShape(a, d)
  {}

  lemma ApplyOk(c: Config, st: Pool, id: nat, l: Local)
    requires PoolOk(c, st) && id in st.sessions && !st.sessions[id].phase.Closed?
    requires LocalOk(c.sha1, st.mgr, st.sessions[id], l)
    ensures PoolOk(c, Apply(c, st, id, l))
  {
    hide ManagerOk, SessionOk, SameShape, Pending;
    var st' := Apply(c, st, id, l);
    var initial := Initial(c.hashes, c.torrent.pieceLength, c.TotalLength());
    ShapeTransitive(initial, st.mgr, l.mgr);
    forall o | o in st'.sessions ensures SessionOk(st'.mgr, st'.sessions[o]) {
      if o != id {
        OtherSessionOk(st.mgr, l.mgr, st.sessions[o]);
      } else {
        WritingSessionOk(l.mgr, l.session, |st.jobs|);
      }
    }
    if l.completed.Some? {
      CompletedJobOk(c, st.mgr, l.completed.value.0, l.completed.value.1);
    }
    forall i: nat | Pending(st'.mgr, i) ensures exists o :: o in st'.sessions && Holds(st'.sessions[o], i) {
      if i in l.session.active {
        assert Holds(st'.sessions[id], i);
      } else {
        var o :| o in st.sessions && Holds(st.sessions[o], i);
        assert o != id && Holds(st'.sessions[o], i);
      }
    }
  }

  lemma WritingSessionOk(m: Manager, s: Session, job: nat)
    requires SessionOk(m, s)
    ensures SessionOk(m, s.(phase := Writing(job)))
  {}

  lemma CompletedJobOk(c: Config, m: Manager, i: nat, data: Bytes)
    requires c.torrent.pieceLength > 0 && SameShape(Initial(c.hashes, c.torrent.pieceLength, c.TotalLength()), m)
    requires i < |m.pieces| && c.sha1(data) == m.pieces[i].expectedHash
    ensures JobOk(c, StartJob(c, i, data))
  {}

  lemma ReleaseStepOk(c: Config, st: Pool, id: nat)
    requires PoolOk(c, st) && Enabled(c, st, Release(id))
    ensures PoolOk(c, Next(c, st, Release(id)))
  {
    hide ManagerOk, SessionOk, SameShape, Pending, Manager.Release, JobOk;
    var s := st.sessions[id];
    var st' := Next(c, st, Release(id));
    ReleaseOk(c.sha1, st.mgr, s.Listed());
    ReleaseShape(st.mgr, s.Listed());
    ShapeTransitive(Initial(c.hashes, c.torrent.pieceLength, c.TotalLength()), st.mgr, st'.mgr);
    forall o | o in st'.sessions ensures SessionOk(st'.mgr, st'.sessions[o]) {
      OtherSessionOk(st.mgr, st'.mgr, st.sessions[o]);
      if o == id {
        RestingSessionOk(st'.mgr, s, Phase.Closed);
      }
    }
    forall i: nat | Pending(st'.mgr, i) ensures exists o :: o in st'.sessions && Holds(st'.sessions[o], i) {
      var o :| o in st.sessions && Holds(st.sessions[o], i);
      assert o != id && Holds(st'.sessions[o], i);
    }
  }

  lemma RestingSessionOk(m: Manager, s: Session, phase: Phase)
    requires SessionOk(m, s) && (phase.Closed? || phase.Abandoned?)
    ensures SessionOk(m, s.(phase := phase))
  {}

  lemma FreshSessionOk(m: Manager, key: Key, peer: PeerId)
    ensures SessionOk(m, Session(key, peer, Opening(OPENING_MESSAGES), {}, []))
  {}

  lemma ChunkKeeps(c: Config, st: Pool, j: nat, k: nat)
    requires j < |st.jobs|
    ensures var st' := RunChunk(c, st, j, k);
            && st'.mgr == st.mgr && st'.sessions == st.sessions && st'.registered == st.registered
            && st'.done == st.done && st'.lock == st.lock && st'.stopping == st.stopping && st'.gathering == st.gathering && st'.hit == st.hit
            && |st'.jobs| == |st.jobs|
            && forall n :: 0 <= n < |st.jobs| ==>
                 st'.jobs[n].piece == st.jobs[n].piece && st'.jobs[n].data == st.jobs[n].data
  {}

  lemma OtherStepOk(c: Config, st: Pool, ev: Event)
    requires PoolOk(c, st) && Enabled(c, st, ev)
    requires !IsLocal(ev) && !ev.Release?
    ensures PoolOk(c, Next(c, st, ev))
  {
    hide ManagerOk, SameShape, Pending, Next, RunChunk, SessionOk;
    var st' := Next(c, st, ev);
    OtherNext(c, st, ev);
    if ev.WriteChunk? {
      ChunkKeeps(c, st, ev.job, ev.file);
    } else if ev.Insert? && |st.registered| < c.maxPeers {
      FreshSessionOk(st.mgr, ev.key, ev.peer);
    } else if ev.Abort? {
      RestingSessionOk(st.mgr, st.sessions[ev.id], Abandoned);
    }
    forall i: nat | Pending(st'.mgr, i) ensures exists o :: o in st'.sessions && Holds(st'.sessions[o], i) {
      var o :| o in st.sessions && Holds(st.sessions[o], i);
      assert Holds(st'.sessions[o], i);
    }
  }

  /** Every step, with arbitrary peers and in any order, keeps the invariant. */
  lemma StepOk(c: Config, st: Pool, ev: Event)
    requires PoolOk(c, st) && Enabled(c, st, ev)
    ensures PoolOk(c, Next(c, st, ev))
  {
    hide PoolOk, LocalStep, Apply, LocalOk;
    if IsLocal(ev) {
      LocalStepOk(c, st, ev);
      ApplyOk(c, st, ev.id, LocalStep(c, st, ev));
    } else if ev.Release? {
      ReleaseStepOk(c, st, ev.id);
    } else {
      OtherStepOk(c, st, ev);
    }
  }

  /** Every reachable state satisfies the invariant. */
  lemma {:induction false} RunKeepsPoolOk(c: Config, st: Pool, events: seq<Event>, st': Pool)
    requires PoolOk(c, st) && Run(c, st, events, st')
    ensures PoolOk(c, st')
    decreases |events|
  {
    hide PoolOk, Next, Enabled;
    if events != [] {
      StepOk(c, st, events[0]);
      RunKeepsPoolOk(c, Next(c, st, events[0]), events[1..], st');
    }
  }

  // ---------------------------------------------------------------------------
  // What that means in a reachable state
  // ---------------------------------------------------------------------------

  /** Each unfinished piece is selectable or on the list of a session that has not released its pieces. */
  lemma UnfinishedIsSelectableOrHeld(c: Config, st0: Pool, events: seq<Event>, st: Pool, i: nat)
    requires Init(c, st0) && Run(c, st0, events, st) && st.mgr.Unfinished(i)
    ensures (st.mgr.pieces[i].state == NEEDED && i !in st.mgr.pending)
            || (exists id :: id in st.sessions && Holds(st.sessions[id], i))
  {
    hide Run, Init, SessionOk, SameShape, JobOk;
    InitPoolOk(c, st0);
    RunKeepsPoolOk(c, st0, events, st);
    assert PieceOk(c.sha1, st.mgr.pieces[i]);
    assert Pending(st.mgr, i) || st.mgr.pieces[i].state == NEEDED;
  }

  /** Every request on the wire is one whole block of its piece, and at most five are unanswered. */
  lemma RequestsAreGood(c: Config, st0: Pool, events: seq<Event>, st: Pool, id: nat)
    requires Init(c, st0) && Run(c, st0, events, st) && id in st.sessions
    ensures var s := st.sessions[id];
            && |s.inFlight| <= PIPELINE_DEPTH
            && (s.phase.Sending? ==>
                  && |s.inFlight + {(s.phase.piece, s.phase.offset)}| == |s.inFlight| + 1 <= PIPELINE_DEPTH
                  && GoodRequest(st.mgr, s.phase.piece, s.phase.offset, s.phase.size))
  {
    hide Run, Init, ManagerOk, SameShape, JobOk, NoOrphan, GoodRequest;
    InitPoolOk(c, st0);
    RunKeepsPoolOk(c, st0, events, st);
  }

  /** The callback is only ever called with bytes whose digest is the expected hash of their piece. */
  lemma CallbacksAreVerified(c: Config, st0: Pool, events: seq<Event>, st: Pool, j: nat)
    requires Init(c, st0) && Run(c, st0, events, st) && j < |st.jobs|
    ensures st.jobs[j].piece < |c.hashes| && c.sha1(st.jobs[j].data) == c.hashes[st.jobs[j].piece]
  {
    hide Run, Init, ManagerOk, SameShape, SessionOk, NoOrphan;
    InitPoolOk(c, st0);
    RunKeepsPoolOk(c, st0, events, st);
  }

  /** `_done_event` is set only by a step that ends with every piece COMPLETE. */
  lemma DoneMeansAllComplete(c: Config, st0: Pool, events: seq<Event>, st: Pool, ev: Event)
    requires Init(c, st0) && Run(c, st0, events, st) && Enabled(c, st, ev)
    requires !st.done && Next(c, st, ev).done
    ensures Next(c, st, ev).mgr.IsDone()
  {
    hide Run, Init, PoolOk, LocalStep;
    InitPoolOk(c, st0);
    RunKeepsPoolOk(c, st0, events, st);
    if IsLocal(ev) {
      LocalStepOk(c, st, ev);
    }
  }
}
