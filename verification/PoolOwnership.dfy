/**
 Exclusive ownership. While peers answer only outstanding requests, each with a block of the size
 asked for, every PENDING piece belongs to exactly one session, and a COMPLETE piece stays COMPLETE.
 */
module PoolOwnership {
  import opened Basics
  import opened PieceModel
  import opened PieceAssembly
  import opened ManagerModel
  import opened PeerProtocol
  import opened PoolModel
  import opened PoolSafety

  /** The discipline: a block that is acted upon answers a request of its own session in full. */
  ghost predicate Solicited(st: Pool, ev: Event) {
    ev.Deliver? && ev.id in st.sessions && st.sessions[ev.id].phase.Receiving? && ev.msg.Piece? && FromWire(ev.msg) ==>
      && (ev.msg.index, ev.msg.begin) in st.sessions[ev.id].inFlight
      && ev.msg.index < |st.mgr.pieces|
      && |ev.msg.block| == BlockSize(st.mgr.pieces[ev.msg.index].length, ev.msg.begin)
  }

  ghost predicate AllSolicited(c: Config, st: Pool, events: seq<Event>)
    decreases |events|
  {
    events != [] && Enabled(c, st, events[0]) ==>
      Solicited(st, events[0]) && AllSolicited(c, Next(c, st, events[0]), events[1..])
  }

  predicate NoRepeats(xs: seq<nat>) {
    forall i, j :: 0 <= i < j < |xs| ==> xs[i] != xs[j]
  }

  predicate Missing(m: Manager, i: nat, o: int) {
    i < |m.pieces| && IsBlockOffset(m.pieces[i].length, o) && o !in m.pieces[i].blocks
  }

  /** The session's pieces are PENDING, listed once, and all it has asked for is still missing from them. */
  predicate Owns(m: Manager, s: Session) {
    && NoRepeats(s.active)
    && (forall i :: i in s.active ==> Pending(m, i))
    && (forall r :: r in s.inFlight ==> r.0 in s.active && Missing(m, r.0, r.1))
    && (s.phase.Sending? ==> s.phase.piece in s.active && Missing(m, s.phase.piece, s.phase.offset))
  }

  /** Blocks are aligned and counted; a NEEDED piece holds none. */
  predicate TableOwn(m: Manager) {
    forall i :: 0 <= i < |m.pieces| ==> PieceOwn(m.pieces[i])
  }

  predicate PieceOwn(p: PieceView) {
    Disciplined(p) && (p.state == NEEDED ==> p.blocks == map[])
  }

  ghost predicate OwnOk(st: Pool) {
    && TableOwn(st.mgr)
    && (forall id :: id in st.sessions && !st.sessions[id].phase.Closed? ==> Owns(st.mgr, st.sessions[id]))
    && (forall a, b, i :: a in st.sessions && b in st.sessions && Holds(st.sessions[a], i) && Holds(st.sessions[b], i) ==> a == b)
  }

  // ---------------------------------------------------------------------------
  // One local step
  // ---------------------------------------------------------------------------

  /** A local step changes only pieces of its own session, or NEEDED ones it takes. */
  predicate Touches(m: Manager, s: Session, l: Local) {
    && |l.mgr.pieces| == |m.pieces|
    && (forall i: nat :: i < |m.pieces| && l.mgr.pieces[i] != m.pieces[i] ==> i in s.active || m.pieces[i].state == NEEDED)
    && (forall i :: i in l.session.active ==> i in s.active || (i < |m.pieces| && m.pieces[i].state == NEEDED))
  }

  ghost predicate LocalOwn(m: Manager, s: Session, l: Local) {
    TableOwn(l.mgr) && Owns(l.mgr, l.session) && Touches(m, s, l)
  }

  lemma ClaimOwn(m: Manager, s: Session, i: nat)
    requires TableOwn(m) && Owns(m, s.(phase := Idle)) && i < |m.pieces| && m.pieces[i].state == NEEDED
    ensures TableOwn(m.Claim(i)) && Owns(m.Claim(i), s.(phase := Idle, active := s.active + [i]))
    ensures forall j: nat, o :: Missing(m.Claim(i), j, o) <==> Missing(m, j, o)
  {
    hide AlignedBlocks, IsBlockOffset;
    assert forall j :: 0 <= j < |m.pieces| && j != i ==> m.Claim(i).pieces[j] == m.pieces[j];
    assert i !in s.active;
  }

  lemma FillOwn(m: Manager, s: Session, pick: nat)
    requires TableOwn(m) && Owns(m, s.(phase := Idle))
    ensures LocalOwn(m, s, Fill(m, s, pick))
  {
    hide NextRequest, Unrequested, TableOwn, IsBlockOffset, BlockSize, MissingOffsets;
    NextRequestExact(m, s.active, s.inFlight);
    if |s.inFlight| < PIPELINE_DEPTH {
      match NextRequest(m, s.active, s.inFlight)
      case Some(r) => MissingIs(m, r.0, r.1.offset);
      case None =>
        if !m.SelectRaises(s.peer) && m.Candidates(s.peer) != {} {
          var i := Choose(m, s.peer, pick);
          ClaimOwn(m, s, i);
          FirstUnrequested(m.pieces[i], i, s.inFlight);
          var blocks := Unrequested(m.pieces[i].MissingBlocks(), i, s.inFlight);
          if blocks != [] {
            MissingIs(m, i, blocks[0].offset);
          }
        }
    }
  }

  lemma MissingIs(m: Manager, i: nat, o: int)
    requires i < |m.pieces|
    ensures Missing(m, i, o) <==> o in MissingOffsets(m.pieces[i])
  {}

  lemma TopOwn(m: Manager, s: Session, pick: nat)
    requires TableOwn(m) && Owns(m, s.(phase := Idle))
    ensures LocalOwn(m, s, Top(m, s, pick))
  {
    hide Fill, TableOwn;
    FillOwn(m, s, pick);
  }

  /** Running on from a table that differs only in pieces of the session. */
  lemma OwnFrom(m: Manager, m1: Manager, s: Session, s1: Session, l: Local)
    requires LocalOwn(m1, s1, l) && |m1.pieces| == |m.pieces|
    requires forall i: nat :: i < |m.pieces| && m1.pieces[i] != m.pieces[i] ==> i in s.active
    requires forall i :: i in s1.active ==> i in s.active
    ensures LocalOwn(m, s, l)
  {
    hide TableOwn, Owns;
  }

  lemma {:induction false} RemoveFirstOnce(xs: seq<nat>, x: nat)
    requires NoRepeats(xs)
    ensures NoRepeats(RemoveFirst(xs, x)) && x !in RemoveFirst(xs, x)
    ensures forall y :: y in RemoveFirst(xs, x) ==> y in xs
  {
    if xs != [] && xs[0] != x {
      RemoveFirstOnce(xs[1..], x);
      var rest := RemoveFirst(xs[1..], x);
      forall i, j | 0 <= i < j < |rest| + 1 ensures ([xs[0]] + rest)[i] != ([xs[0]] + rest)[j] {
        assert rest[j - 1] in xs[1..];
      }
    }
  }

  /** The requested block is stored; the piece stays PENDING, becomes COMPLETE or starts over empty. */
  lemma BlockStored(sha1: Hash, m: Manager, s: Session, i: nat, begin: nat, block: Bytes)
    requires ManagerOk(sha1, m) && TableOwn(m) && Pending(m, i) && Missing(m, i, begin)
    requires |block| == BlockSize(m.pieces[i].length, begin)
    ensures m.AddBlock(sha1, i, begin, block).Ok?
    ensures var m' := m.AddBlock(sha1, i, begin, block).value;
            && TableOwn(m')
            && |m'.pieces| == |m.pieces|
            && (forall j :: 0 <= j < |m.pieces| && j != i ==> m'.pieces[j] == m.pieces[j])
            && (m'.pieces[i].state == PENDING ==>
                  forall o :: Missing(m', i, o) <==> Missing(m, i, o) && o != begin)
            && (m'.pieces[i].state == COMPLETE ==> MissingOffsets(m'.pieces[i]) == {})
            && (m'.pieces[i].state != PENDING ==> forall o :: Missing(m, i, o) ==> o == begin)
            && m'.pieces[i].state != FAILED
            && (m'.pieces[i].state == COMPLETE <==> m.Completes(sha1, i, begin, block))
  {
    hide Assembled, IsBlockOffset, AlignedBlocks, StoredFrom;
    var p := m.pieces[i];
    AcceptListedBlock(p, begin, block);
    var q := p.AddBlock(begin, block).value;
    CounterAgrees(q);
    ResetIsDisciplined(q);
    assert MissingOffsets(q) == MissingOffsets(p) - {begin};
    if q.IsCompleteRaw() {
      forall o | o in MissingOffsets(p) ensures o == begin {
        assert o !in MissingOffsets(q);
      }
    }
    forall o ensures Missing(m, i, o) <==> o in MissingOffsets(p) {
      MissingIs(m, i, o);
    }
    var m' := m.AddBlock(sha1, i, begin, block).value;
    forall o ensures Missing(m', i, o) <==> o in MissingOffsets(m'.pieces[i]) {
      MissingIs(m', i, o);
    }
  }

  lemma BlockOwn(sha1: Hash, m: Manager, s: Session, i: nat, begin: nat, block: Bytes, pick: nat)
    requires ManagerOk(sha1, m) && TableOwn(m) && Owns(m, s) && s.phase.Receiving?
    requires (i, begin) in s.inFlight && |block| == BlockSize(m.pieces[i].length, begin)
    ensures LocalOwn(m, s, OnBlock(sha1, m, s, i, begin, block, pick))
  {
    hide Assembled, Top, RemoveFirst, IsBlockOffset, TableOwn, Manager.AddBlock, Manager.Completes, ManagerOk, MissingOffsets;
    BlockStored(sha1, m, s, i, begin, block);
    var m' := m.AddBlock(sha1, i, begin, block).value;
    var s1 := s.(inFlight := s.inFlight - {(i, begin)});
    var s2 := s1.(active := RemoveFirst(s1.active, i));
    RemoveFirstOnce(s1.active, i);
    if m'.pieces[i].state == PENDING {
      StillOwns(m, m', s, i, begin);
      TopOwn(m', s1, pick);
      OwnFrom(m, m', s, s1, Top(m', s1, pick));
    } else {
      DropsPiece(m, m', s, i, begin);
      if m'.pieces[i].state == NEEDED {
        TopOwn(m', s2, pick);
        OwnFrom(m, m', s, s2, Top(m', s2, pick));
      }
    }
  }

  lemma StillOwns(m: Manager, m': Manager, s: Session, i: nat, begin: nat)
    requires Owns(m, s) && s.phase.Receiving? && |m'.pieces| == |m.pieces| && Pending(m', i)
    requires forall j :: 0 <= j < |m.pieces| && j != i ==> m'.pieces[j] == m.pieces[j]
    requires forall o :: Missing(m', i, o) <==> Missing(m, i, o) && o != begin
    ensures Owns(m', s.(inFlight := s.inFlight - {(i, begin)}, phase := Idle))
  {
    hide IsBlockOffset;
    forall r | r in s.inFlight - {(i, begin)} ensures Missing(m', r.0, r.1) {
      assert r.0 == i ==> r.1 != begin;
    }
  }

  lemma DropsPiece(m: Manager, m': Manager, s: Session, i: nat, begin: nat)
    requires Owns(m, s) && s.phase.Receiving? && |m'.pieces| == |m.pieces| && (i, begin) in s.inFlight
    requires forall j :: 0 <= j < |m.pieces| && j != i ==> m'.pieces[j] == m.pieces[j]
    requires forall o :: Missing(m, i, o) ==> o == begin
    ensures Owns(m', s.(inFlight := s.inFlight - {(i, begin)}, active := RemoveFirst(s.active, i), phase := Idle))
    ensures Owns(m', s.(inFlight := s.inFlight - {(i, begin)}, active := RemoveFirst(s.active, i)))
  {
    hide IsBlockOffset, RemoveFirst;
    RemoveFirstOnce(s.active, i);
    RemoveFirstKeeps(s.active, i);
    var left := s.inFlight - {(i, begin)};
    forall r | r in left ensures r.0 in RemoveFirst(s.active, i) && Missing(m', r.0, r.1) {
      assert r.0 != i;
    }
  }

  lemma ReleaseOwn(m: Manager, listed: set<nat>)
    requires TableOwn(m)
    ensures TableOwn(m.Release(listed))
    ensures forall i: nat :: i < |m.pieces| && i !in listed ==> m.Release(listed).pieces[i] == m.pieces[i]
    ensures forall i: nat :: i < |m.pieces| && m.pieces[i].state == COMPLETE ==> m.Release(listed).pieces[i] == m.pieces[i]
  {
    hide Disciplined;
    forall i | 0 <= i < |m.pieces| ensures PieceOwn(m.Release(listed).pieces[i]) {
      ResetIsDisciplined(m.pieces[i]);
    }
  }

  lemma ListedIsActive(m: Manager, s: Session)
    requires Owns(m, s)
    ensures forall i :: i in s.Listed() <==> i in s.active
  {
    hide Missing, Pending;
  }

  lemma LocalStepOwn(c: Config, st: Pool, ev: Event)
    requires PoolOk(c, st) && OwnOk(st) && Enabled(c, st, ev) && Solicited(st, ev)
    requires IsLocal(ev)
    ensures LocalOwn(st.mgr, st.sessions[ev.id], LocalStep(c, st, ev))
  {
    hide Top, Fill, OnBlock, OnOpening, OnIdle, OnReceiving, TableOwn, ManagerOk, NoOrphan, Owns, SameShape, JobOk;
    var m, s := st.mgr, st.sessions[ev.id];
    assert Owns(m, s);
    RestingOwns(m, s);
    match ev
    case Deliver(_, msg, pick) =>
      MessageOwn(c.sha1, m, s, msg, pick);
    case Timeout(_, pick) => TopOwn(m, s, pick);
    case Returned(_, pick) => TopOwn(m, s, pick);
    case Sent(_, pick) =>
      FillOwn(m, s.(inFlight := s.inFlight + {(s.phase.piece, s.phase.offset)}), pick);
    case Fail(_) =>
  }

  lemma RestingOwns(m: Manager, s: Session)
    requires Owns(m, s)
    ensures Owns(m, s.(phase := Idle)) && Owns(m, s.(phase := Closing)) && Owns(m, s.(phase := Abandoned))
    ensures s.phase.Sending? ==>
              Owns(m, s.(inFlight := s.inFlight + {(s.phase.piece, s.phase.offset)}, phase := Idle))
  {
    hide Missing, Pending;
  }

  lemma MessageOwn(sha1: Hash, m: Manager, s: Session, msg: Message, pick: nat)
    requires ManagerOk(sha1, m) && TableOwn(m) && Owns(m, s) && FromWire(msg)
    requires s.phase.Receiving? && msg.Piece? ==>
               (msg.index, msg.begin) in s.inFlight && msg.index < |m.pieces| && |msg.block| == BlockSize(m.pieces[msg.index].length, msg.begin)
    ensures s.phase.Opening? ==> LocalOwn(m, s, OnOpening(m, s, s.phase.left, msg, pick))
    ensures s.phase.Idle? ==> LocalOwn(m, s, OnIdle(m, s, msg, pick))
    ensures s.phase.Receiving? ==> LocalOwn(m, s, OnReceiving(sha1, m, s, msg, pick))
  {
    hide Top, OnBlock, ManagerOk, Missing, Manager.Release, PieceOwn;
    TopOwn(m, s, pick);
    match msg
    case Have(i) =>
      OtherOwns(m, m.OnPeerHave(s.peer, i), s.(phase := Idle));
      TopOwn(m.OnPeerHave(s.peer, i), s, pick);
    case Bitfield(bits) =>
      OtherOwns(m, m.OnPeerBitfield(s.peer, bits), s.(phase := Idle));
      TopOwn(m.OnPeerBitfield(s.peer, bits), s, pick);
    case Piece(i, begin, block) =>
      if s.phase.Receiving? {
        BlockOwn(sha1, m, s, i, begin, block, pick);
      }
    case Choke =>
      ReleaseOwn(m, s.Listed());
      ListedIsActive(m, s);
    case _ =>
  }

  // ---------------------------------------------------------------------------
  // Every step, every run
  // ---------------------------------------------------------------------------

  /** Another session's pieces are PENDING and not touched. */
  lemma OtherOwns(m: Manager, m': Manager, s: Session)
    requires Owns(m, s) && |m'.pieces| == |m.pieces|
    requires forall i: nat :: i in s.active ==> i < |m.pieces| && m'.pieces[i] == m.pieces[i]
    ensures Owns(m', s)
  {
    hide IsBlockOffset;
  }

  lemma LocalNextOwn(c: Config, st: Pool, ev: Event)
    requires PoolOk(c, st) && OwnOk(st) && Enabled(c, st, ev) && Solicited(st, ev) && IsLocal(ev)
    ensures OwnOk(Next(c, st, ev))
    ensures forall i: nat :: i < |st.mgr.pieces| && st.mgr.pieces[i].state == COMPLETE
              ==> i < |Next(c, st, ev).mgr.pieces| && Next(c, st, ev).mgr.pieces[i] == st.mgr.pieces[i]
  {
    hide LocalStep, Apply, TableOwn, Missing, PoolOk, Next;
    LocalStepOwn(c, st, ev);
    LocalNext(c, st, ev);
    var l, st', s := LocalStep(c, st, ev), Next(c, st, ev), st.sessions[ev.id];
    assert Owns(st.mgr, s);
    forall o, i: nat | o in st.sessions && o != ev.id && Holds(st.sessions[o], i)
      ensures i !in s.active && i !in l.session.active && i < |st.mgr.pieces| && l.mgr.pieces[i] == st.mgr.pieces[i]
    {
      assert Pending(st.mgr, i) && !Holds(s, i);
    }
    forall o | o in st'.sessions && !st'.sessions[o].phase.Closed? ensures Owns(st'.mgr, st'.sessions[o]) {
      if o != ev.id {
        forall i: nat | i in st.sessions[o].active ensures i < |st.mgr.pieces| && l.mgr.pieces[i] == st.mgr.pieces[i] {
          assert Holds(st.sessions[o], i);
        }
        OtherOwns(st.mgr, l.mgr, st.sessions[o]);
      } else {
        NextOwns(c, st, ev);
      }
    }
    forall a, b, i | a in st'.sessions && b in st'.sessions && Holds(st'.sessions[a], i) && Holds(st'.sessions[b], i)
      ensures a == b
    {
      assert a != ev.id ==> Holds(st.sessions[a], i);
      assert b != ev.id ==> Holds(st.sessions[b], i);
    }
  }

  lemma NextOwns(c: Config, st: Pool, ev: Event)
    requires Enabled(c, st, ev) && IsLocal(ev)
    requires Owns(LocalStep(c, st, ev).mgr, LocalStep(c, st, ev).session)
    ensures Owns(Next(c, st, ev).mgr, Next(c, st, ev).sessions[ev.id])
  {
    hide LocalStep, Missing, Pending;
  }

  lemma ReleaseNextOwn(c: Config, st: Pool, id: nat)
    requires OwnOk(st) && Enabled(c, st, Release(id))
    ensures OwnOk(Next(c, st, Release(id)))
    ensures forall i: nat :: i < |st.mgr.pieces| && st.mgr.pieces[i].state == COMPLETE
              ==> Next(c, st, Release(id)).mgr.pieces[i] == st.mgr.pieces[i]
  {
    hide TableOwn, Missing, Manager.Release, LocalStep, Apply, RunChunk;
    var s, st' := st.sessions[id], Next(c, st, Release(id));
    ReleaseOwn(st.mgr, s.Listed());
    ListedIsActive(st.mgr, s);
    forall o | o in st'.sessions && !st'.sessions[o].phase.Closed? ensures Owns(st'.mgr, st'.sessions[o]) {
      forall i: nat | i in st.sessions[o].active ensures i < |st.mgr.pieces| && st'.mgr.pieces[i] == st.mgr.pieces[i] {
        assert Holds(st.sessions[o], i) && Pending(st.mgr, i);
        assert !Holds(s, i);
      }
      OtherOwns(st.mgr, st'.mgr, st.sessions[o]);
    }
    forall a, b, i | a in st'.sessions && b in st'.sessions && Holds(st'.sessions[a], i) && Holds(st'.sessions[b], i)
      ensures a == b
    {
      assert Holds(st.sessions[a], i) && Holds(st.sessions[b], i);
    }
  }

  lemma FreshOwns(m: Manager, key: Key, peer: PeerId)
    ensures Owns(m, Session(key, peer, Opening(OPENING_MESSAGES), {}, []))
  {}

  lemma OtherNextOwn(c: Config, st: Pool, ev: Event)
    requires OwnOk(st) && Enabled(c, st, ev) && !IsLocal(ev) && !ev.Release?
    ensures OwnOk(Next(c, st, ev)) && Next(c, st, ev).mgr == st.mgr
  {
    hide TableOwn, Missing, Pending, Next, RunChunk, Owns;
    var st' := Next(c, st, ev);
    OtherNext(c, st, ev);
    if ev.WriteChunk? {
      ChunkKeeps(c, st, ev.job, ev.file);
    } else if ev.Abort? {
      RestingOwns(st.mgr, st.sessions[ev.id]);
    } else if ev.Insert? && |st.registered| < c.maxPeers {
      FreshOwns(st.mgr, ev.key, ev.peer);
    }
    forall a, b, i | a in st'.sessions && b in st'.sessions && Holds(st'.sessions[a], i) && Holds(st'.sessions[b], i)
      ensures a == b
    {
      assert Holds(st.sessions[a], i) && Holds(st.sessions[b], i);
    }
  }

  lemma StepKeepsOwn(c: Config, st: Pool, ev: Event)
    requires PoolOk(c, st) && OwnOk(st) && Enabled(c, st, ev) && Solicited(st, ev)
    ensures OwnOk(Next(c, st, ev))
    ensures forall i: nat :: i < |st.mgr.pieces| && st.mgr.pieces[i].state == COMPLETE
              ==> i < |Next(c, st, ev).mgr.pieces| && Next(c, st, ev).mgr.pieces[i] == st.mgr.pieces[i]
  {
    hide PoolOk, OwnOk, Next, Enabled, Solicited;
    if IsLocal(ev) {
      LocalNextOwn(c, st, ev);
    } else if ev.Release? {
      ReleaseNextOwn(c, st, ev.id);
      StepOk(c, st, ev);
      SameCount(c, st, ev);
    } else {
      OtherNextOwn(c, st, ev);
    }
  }

  lemma SameCount(c: Config, st: Pool, ev: Event)
    requires PoolOk(c, st) && Enabled(c, st, ev) && PoolOk(c, Next(c, st, ev))
    ensures |Next(c, st, ev).mgr.pieces| == |st.mgr.pieces|
  {
    hide Next, Enabled, ManagerOk, NoOrphan, SessionOk;
  }

  lemma InitOwn(c: Config, st: Pool)
    requires Init(c, st)
    ensures OwnOk(st)
  {
    forall i | 0 <= i < |st.mgr.pieces| ensures PieceOwn(st.mgr.pieces[i]) {
      NothingStored(st.mgr.pieces[i].length, 0);
    }
  }

  lemma {:induction false} RunKeepsOwn(c: Config, st: Pool, events: seq<Event>, st': Pool)
    requires PoolOk(c, st) && OwnOk(st) && Run(c, st, events, st') && AllSolicited(c, st, events)
    ensures PoolOk(c, st') && OwnOk(st')
    ensures forall i: nat :: i < |st.mgr.pieces| && st.mgr.pieces[i].state == COMPLETE
              ==> i < |st'.mgr.pieces| && st'.mgr.pieces[i] == st.mgr.pieces[i]
    decreases |events|
  {
    hide PoolOk, OwnOk, Next, Enabled, Solicited;
    if events != [] {
      StepOk(c, st, events[0]);
      StepKeepsOwn(c, st, events[0]);
      RunKeepsOwn(c, Next(c, st, events[0]), events[1..], st');
    }
  }

  /**
   In every state of a disciplined run `_pending` is the disjoint union of the active lists of the
   unreleased sessions, whatever is in flight is missing from a piece its session owns, and NEEDED
   pieces hold no blocks.
   */
  lemma ExclusiveOwnership(c: Config, st0: Pool, events: seq<Event>, st: Pool)
    requires Init(c, st0) && Run(c, st0, events, st) && AllSolicited(c, st0, events)
    ensures forall i: nat :: i in st.mgr.pending <==> exists id :: id in st.sessions && Holds(st.sessions[id], i)
    ensures forall a, b, i :: a in st.sessions && b in st.sessions && Holds(st.sessions[a], i) && Holds(st.sessions[b], i) ==> a == b
    ensures forall id :: id in st.sessions && !st.sessions[id].phase.Closed? ==> NoRepeats(st.sessions[id].active)
    ensures forall id, r :: id in st.sessions && !st.sessions[id].phase.Closed? && r in st.sessions[id].inFlight
              ==> r.0 in st.sessions[id].active && Missing(st.mgr, r.0, r.1)
    ensures forall i :: 0 <= i < |st.mgr.pieces| && st.mgr.pieces[i].state == NEEDED ==> st.mgr.pieces[i].blocks == map[]
  {
    hide Run, Init, AllSolicited, SessionOk, SameShape, JobOk, Missing, PieceOk;
    InitPoolOk(c, st0);
    InitOwn(c, st0);
    RunKeepsOwn(c, st0, events, st);
    forall i: nat ensures i in st.mgr.pending <==> exists id :: id in st.sessions && Holds(st.sessions[id], i) {
      assert i in st.mgr.pending <==> Pending(st.mgr, i);
    }
    forall i | 0 <= i < |st.mgr.pieces| && st.mgr.pieces[i].state == NEEDED ensures st.mgr.pieces[i].blocks == map[] {
      assert PieceOwn(st.mgr.pieces[i]);
    }
  }

  /** Then the set of COMPLETE pieces only grows, whatever is released, and once done the pool stays done. */
  lemma CompletionIsStable(c: Config, st0: Pool, before: seq<Event>, st: Pool, after: seq<Event>, st': Pool)
    requires Init(c, st0) && Run(c, st0, before, st) && AllSolicited(c, st0, before)
    requires Run(c, st, after, st') && AllSolicited(c, st, after)
    ensures forall i: nat :: i < |st.mgr.pieces| && st.mgr.pieces[i].state == COMPLETE
              ==> i < |st'.mgr.pieces| && st'.mgr.pieces[i] == st.mgr.pieces[i]
    ensures st.mgr.IsDone() ==> st'.mgr.IsDone()
  {
    hide Run, Init, AllSolicited, OwnOk;
    InitPoolOk(c, st0);
    InitOwn(c, st0);
    RunKeepsOwn(c, st0, before, st);
    RunKeepsOwn(c, st, after, st');
    assert |st'.mgr.pieces| == |st.mgr.pieces| by {
      hide ManagerOk, NoOrphan, SessionOk;
    }
  }
}
