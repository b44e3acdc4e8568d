/**
 Termination. With honest peers and no new sessions, every step that makes progress lowers a
 lexicographic measure and no other step raises it, although releasing a piece throws its blocks
 away; so an endless run makes progress only finitely often.
 */
module PoolTermination {
  import opened Basics
  import opened PieceModel
  import opened PieceAssembly
  import opened ManagerModel
  import opened PeerProtocol
  import opened FileLayout
  import opened FileWriter
  import opened PoolModel
  import opened PoolSafety
  import opened PoolOwnership
  import opened PoolDisk

  // ---------------------------------------------------------------------------
  // Honest peers
  // ---------------------------------------------------------------------------

  /** The block is the slice of the true content that was asked for. */
  ghost predicate Honest(c: Config, st: Pool, ev: Event, truth: Bytes) {
    && Solicited(st, ev)
    && (ev.Deliver? && ev.id in st.sessions && st.sessions[ev.id].phase.Receiving? && ev.msg.Piece? && FromWire(ev.msg) ==>
          TrueBlock(c, truth, ev.msg.index, ev.msg.begin, ev.msg.block))
  }

  predicate TrueBlock(c: Config, truth: Bytes, i: nat, begin: nat, block: Bytes) {
    var data := PieceOf(truth, c.torrent.pieceLength, i);
    begin + |block| <= |data| && block == data[begin..begin + |block|]
  }

  /** Every stored block agrees with the true content. */
  ghost predicate TableTrue(c: Config, m: Manager, truth: Bytes) {
    forall i :: 0 <= i < |m.pieces| ==> Agrees(m.pieces[i], PieceOf(truth, c.torrent.pieceLength, i))
  }

  ghost predicate GoodState(c: Config, st: Pool, truth: Bytes) {
    PoolOk(c, st) && OwnOk(st) && TableTrue(c, st.mgr, truth)
  }

  // ---------------------------------------------------------------------------
  // The measure
  // ---------------------------------------------------------------------------

  ghost function LiveIds(st: Pool): set<nat> {
    set id | id in st.sessions && st.sessions[id].Live()
  }

  ghost function UnreleasedIds(st: Pool): set<nat> {
    set id | id in st.sessions && !st.sessions[id].phase.Closed? && !st.sessions[id].phase.Abandoned?
  }

  /** The missing blocks of all pieces. */
  ghost function MissingBlocks(m: Manager): set<(nat, int)> {
    set i: nat, o | i < |m.pieces| && o in MissingOffsets(m.pieces[i]) :: (i, o)
  }

  /** Everything in flight in a live session. */
  ghost function InFlight(st: Pool): set<(nat, int)> {
    set id, r | id in LiveIds(st) && r in st.sessions[id].inFlight :: r
  }

  ghost function WritingIds(st: Pool): set<nat> {
    set id | id in st.sessions && st.sessions[id].phase.Writing?
  }

  /** Messages that opening sessions may still take. */
  ghost function Budget(st: Pool): set<(nat, nat)> {
    set id, n: nat | id in st.sessions && st.sessions[id].phase.Opening? && n < st.sessions[id].phase.left :: (id, n)
  }

  /** Chunk writes not yet done. */
  ghost function ChunksLeft(st: Pool): set<(nat, nat)> {
    set j: nat, k | j < |st.jobs| && k in st.jobs[j].todo :: (j, k)
  }

  datatype Measure = Measure(sessions: nat, missing: nat, unrequested: nat, rest: nat)

  /** Sessions to wind down, missing blocks, missing blocks not yet requested, then writes and opening messages. */
  ghost function MeasureOf(st: Pool): Measure {
    Measure(
      |LiveIds(st)| + |UnreleasedIds(st)|,
      |MissingBlocks(st.mgr)|,
      |MissingBlocks(st.mgr) - InFlight(st)|,
      |ChunksLeft(st)| + |WritingIds(st)| + |Budget(st)|)
  }

  predicate Below(a: Measure, b: Measure) {
    || a.sessions < b.sessions
    || (a.sessions == b.sessions && a.missing < b.missing)
    || (a.sessions == b.sessions && a.missing == b.missing && a.unrequested < b.unrequested)
    || (a.sessions == b.sessions && a.missing == b.missing && a.unrequested == b.unrequested && a.rest < b.rest)
  }

  /** Steps other than idle waiting, availability news, keep-alives and dialling. */
  predicate Progress(st: Pool, ev: Event) {
    match ev
    case Sent(_, _) => true
    case Returned(_, _) => true
    case Fail(_) => true
    case Release(_) => true
    case Abort(_) => true
    case WriteChunk(_, _) => true
    case Timeout(id, _) => id in st.sessions && !st.sessions[id].phase.Idle?
    case Deliver(id, msg, _) =>
      id in st.sessions
      && (st.sessions[id].phase.Opening? || msg.Choke? || (st.sessions[id].phase.Receiving? && msg.Piece?))
    case _ => false
  }

  /** A new session starts. */
  predicate Starts(c: Config, st: Pool, ev: Event) {
    ev.Insert? && |st.registered| < c.maxPeers
  }

  // ---------------------------------------------------------------------------
  // What one session's step does to the parts of the measure
  // ---------------------------------------------------------------------------

  lemma ClaimMissing(m: Manager, i: nat)
    requires i < |m.pieces|
    ensures MissingBlocks(m.Claim(i)) == MissingBlocks(m)
  {
    hide MissingOffsets;
    forall j: nat | j < |m.pieces| ensures MissingOffsets(m.Claim(i).pieces[j]) == MissingOffsets(m.pieces[j]) {
      MissingDepends(m.Claim(i).pieces[j], m.pieces[j]);
    }
  }

  lemma MissingDepends(p: PieceView, q: PieceView)
    requires p.length == q.length && p.blocks == q.blocks
    ensures MissingOffsets(p) == MissingOffsets(q)
  {}

  /** Running on changes no block and nothing in flight, and ends asking, waiting or closing. */
  predicate Quiet(m: Manager, s: Session, l: Local) {
    && l.session.inFlight == s.inFlight
    && l.completed.None?
    && (l.session.phase.Sending? || l.session.phase.Idle? || l.session.phase.Receiving? || l.session.phase.Closing?)
  }

  lemma TopQuiet(m: Manager, s: Session, pick: nat)
    ensures Quiet(m, s, Fill(m, s, pick)) && MissingBlocks(Fill(m, s, pick).mgr) == MissingBlocks(m)
    ensures Quiet(m, s, Top(m, s, pick)) && MissingBlocks(Top(m, s, pick).mgr) == MissingBlocks(m)
  {
    hide NextRequest, Unrequested, MissingBlocks;
    if m.Candidates(s.peer) != {} {
      ClaimMissing(m, Choose(m, s.peer, pick));
    }
  }

  lemma SameMissing(m: Manager, m': Manager)
    requires m'.pieces == m.pieces
    ensures MissingBlocks(m') == MissingBlocks(m)
  {}

  /** An accepted true block is one missing block less; a completed piece passes its check. */
  lemma BlockMissing(c: Config, st: Pool, truth: Bytes, s: Session, i: nat, begin: nat, block: Bytes)
    requires Genuine(c, truth) && GoodState(c, st, truth)
    requires Owns(st.mgr, s) && (i, begin) in s.inFlight && |block| == BlockSize(st.mgr.pieces[i].length, begin)
    requires TrueBlock(c, truth, i, begin, block)
    ensures st.mgr.AddBlock(c.sha1, i, begin, block).Ok?
    ensures var m' := st.mgr.AddBlock(c.sha1, i, begin, block).value;
            && TableTrue(c, m', truth)
            && MissingBlocks(m') == MissingBlocks(st.mgr) - {(i, begin)}
            && (m'.pieces[i].state == PENDING || st.mgr.Completes(c.sha1, i, begin, block))
  {
    hide Assembled, SameShape, NoOrphan, SessionOk, JobOk, IsBlockOffset, Genuine, PieceOf;
    var m := st.mgr;
    BlockStored(c.sha1, m, s, i, begin, block);
    MissingIs(m, i, begin);
    var p, q := m.pieces[i], m.pieces[i].AddBlock(begin, block).value;
    var m' := m.AddBlock(c.sha1, i, begin, block).value;
    AcceptListedBlock(p, begin, block);
    var data := PieceOf(truth, c.torrent.pieceLength, i);
    assert Agrees(q, data);
    if q.IsCompleteRaw() {
      CounterAgrees(q);
      AssembledIsData(q, data);
      HashesInTable(c, st, i);
      TrueHash(c, truth, i);
    }
    OneLess(m, m', i, begin);
  }

  lemma TrueHash(c: Config, truth: Bytes, i: nat)
    requires Genuine(c, truth) && i < |c.hashes|
    ensures c.sha1(PieceOf(truth, c.torrent.pieceLength, i)) == c.hashes[i]
  {}

  lemma OneLess(m: Manager, m': Manager, i: nat, begin: int)
    requires i < |m.pieces| == |m'.pieces|
    requires forall j :: 0 <= j < |m.pieces| && j != i ==> m'.pieces[j] == m.pieces[j]
    requires MissingOffsets(m'.pieces[i]) == MissingOffsets(m.pieces[i]) - {begin}
    ensures MissingBlocks(m') == MissingBlocks(m) - {(i, begin)}
  {
    hide MissingOffsets;
    forall r: (nat, int) ensures r in MissingBlocks(m') <==> r in MissingBlocks(m) - {(i, begin)} {
      assert r.0 < |m.pieces| && r.0 != i ==> m'.pieces[r.0] == m.pieces[r.0];
    }
  }

  lemma ReleaseTrue(c: Config, m: Manager, listed: set<nat>, truth: Bytes)
    requires TableTrue(c, m, truth)
    ensures TableTrue(c, m.Release(listed), truth)
  {
    hide PieceOf;
    forall i | 0 <= i < |m.pieces| ensures Agrees(m.Release(listed).pieces[i], PieceOf(truth, c.torrent.pieceLength, i)) {
      assert Agrees(m.pieces[i], PieceOf(truth, c.torrent.pieceLength, i));
    }
  }

  lemma TopTrue(c: Config, m: Manager, s: Session, pick: nat, truth: Bytes)
    requires TableTrue(c, m, truth)
    ensures TableTrue(c, Fill(m, s, pick).mgr, truth) && TableTrue(c, Top(m, s, pick).mgr, truth)
  {
    hide NextRequest, Unrequested, PieceOf, Agrees;
    if m.Candidates(s.peer) != {} {
      var i := Choose(m, s.peer, pick);
      forall j | 0 <= j < |m.pieces| ensures Agrees(m.Claim(i).pieces[j], PieceOf(truth, c.torrent.pieceLength, j)) {
        AgreesDepends(m.Claim(i).pieces[j], m.pieces[j], PieceOf(truth, c.torrent.pieceLength, j));
      }
    }
  }

  lemma AgreesDepends(p: PieceView, q: PieceView, data: Bytes)
    requires p.length == q.length && p.blocks == q.blocks && Agrees(q, data)
    ensures Agrees(p, data)
  {}

  /** The ways a local step can bear on the measure. */
  datatype Effect = Closes | StoresBlock | Requests | Winds | Waits

  /** `e` is what the step from `s` to `l` does. */
  ghost predicate HasEffect(m: Manager, s: Session, l: Local, e: Effect) {
    match e
    case Closes => l.session.phase.Closing? && l.completed.None?
    case StoresBlock =>
      MissingBlocks(l.mgr) < MissingBlocks(m)
    case Requests =>
      && s.phase.Sending? && Quiet(l.mgr, l.session, l) && MissingBlocks(l.mgr) == MissingBlocks(m)
      && l.session.inFlight == s.inFlight + {(s.phase.piece, s.phase.offset)}
    case Winds =>
      && l.completed.None? && MissingBlocks(l.mgr) == MissingBlocks(m) && l.session.inFlight == s.inFlight
      && ((s.phase.Writing? && !l.session.phase.Writing? && !l.session.phase.Opening?)
          || (s.phase.Opening? && !l.session.phase.Writing?
              && (l.session.phase.Opening? ==> l.session.phase.left < s.phase.left)))
    case Waits =>
      && l.completed.None? && MissingBlocks(l.mgr) == MissingBlocks(m) && l.session.inFlight == s.inFlight
      && !s.phase.Writing? && !s.phase.Opening? && !l.session.phase.Writing? && !l.session.phase.Opening?
  }

  lemma BlockEffect(c: Config, st: Pool, truth: Bytes, s: Session, i: nat, begin: nat, block: Bytes, pick: nat)
    requires Genuine(c, truth) && GoodState(c, st, truth) && s.phase.Receiving?
    requires Owns(st.mgr, s) && (i, begin) in s.inFlight && |block| == BlockSize(st.mgr.pieces[i].length, begin)
    requires TrueBlock(c, truth, i, begin, block)
    ensures HasEffect(st.mgr, s, OnBlock(c.sha1, st.mgr, s, i, begin, block, pick), StoresBlock)
    ensures TableTrue(c, OnBlock(c.sha1, st.mgr, s, i, begin, block, pick).mgr, truth)
  {
    hide Top, Manager.AddBlock, Manager.Completes, MissingBlocks, GoodState, Genuine, TableTrue, TrueBlock;
    BlockMissing(c, st, truth, s, i, begin, block);
    var m' := st.mgr.AddBlock(c.sha1, i, begin, block).value;
    var s1 := s.(inFlight := s.inFlight - {(i, begin)});
    TopQuiet(m', s1, pick);
    TopTrue(c, m', s1, pick, truth);
    OwnedMissing(st.mgr, s, i, begin);
  }

  lemma OwnedMissing(m: Manager, s: Session, i: nat, begin: int)
    requires Owns(m, s) && (i, begin) in s.inFlight
    ensures (i, begin) in MissingBlocks(m)
  {
    MissingIs(m, i, begin);
  }

  lemma LocalEffect(c: Config, st: Pool, truth: Bytes, ev: Event) returns (e: Effect)
    requires Genuine(c, truth) && GoodState(c, st, truth) && Enabled(c, st, ev) && Honest(c, st, ev, truth) && IsLocal(ev)
    ensures HasEffect(st.mgr, st.sessions[ev.id], LocalStep(c, st, ev), e)
    ensures e.Waits? ==> !Progress(st, ev)
    ensures TableTrue(c, LocalStep(c, st, ev).mgr, truth)
  {
    hide Top, Fill, OnBlock, MissingBlocks, TableTrue, PoolOk, Owns, Genuine, TrueBlock, Manager.Release;
    var m, s := st.mgr, st.sessions[ev.id];
    assert Owns(m, s) by {
      assert !s.phase.Closed?;
    }
    match ev
    case Deliver(_, msg, pick) =>
      TopQuiet(m, s, pick);
      TopTrue(c, m, s, pick, truth);
      if s.phase.Receiving? && msg.Piece? {
        BlockEffect(c, st, truth, s, msg.index, msg.begin, msg.block, pick);
        e := StoresBlock;
      } else if s.phase.Opening? {
        NewsSame(c, m, s, msg, truth, pick);
        e := Winds;
      } else if msg.Choke? {
        ReleaseTrue(c, m, s.Listed(), truth);
        e := Closes;
      } else {
        NewsSame(c, m, s, msg, truth, pick);
        e := Waits;
      }
    case Timeout(_, pick) =>
      TopQuiet(m, s, pick);
      TopTrue(c, m, s, pick, truth);
      e := if s.phase.Idle? then Waits else Closes;
    case Returned(_, pick) =>
      TopQuiet(m, s, pick);
      TopTrue(c, m, s, pick, truth);
      e := Winds;
    case Sent(_, pick) =>
      var s1 := s.(inFlight := s.inFlight + {(s.phase.piece, s.phase.offset)});
      TopQuiet(m, s1, pick);
      TopTrue(c, m, s1, pick, truth);
      e := Requests;
    case Fail(_) =>
      e := Closes;
  }

  /** Availability news changes no piece. */
  lemma NewsSame(c: Config, m: Manager, s: Session, msg: Message, truth: Bytes, pick: nat)
    requires FromWire(msg) && TableTrue(c, m, truth)
    ensures msg.Have? ==>
      var m1 := m.OnPeerHave(s.peer, msg.pieceIndex);
      && TableTrue(c, m1, truth) && MissingBlocks(m1) == MissingBlocks(m)
      && Quiet(m1, s, Top(m1, s, pick)) && MissingBlocks(Top(m1, s, pick).mgr) == MissingBlocks(m)
      && TableTrue(c, Top(m1, s, pick).mgr, truth)
    ensures msg.Bitfield? ==>
      var m1 := m.OnPeerBitfield(s.peer, msg.bitfield);
      && TableTrue(c, m1, truth) && MissingBlocks(m1) == MissingBlocks(m)
      && Quiet(m1, s, Top(m1, s, pick)) && MissingBlocks(Top(m1, s, pick).mgr) == MissingBlocks(m)
      && TableTrue(c, Top(m1, s, pick).mgr, truth)
  {
    hide Top, MissingBlocks, Agrees, PieceOf;
    if msg.Have? {
      var m1 := m.OnPeerHave(s.peer, msg.pieceIndex);
      SameMissing(m, m1);
      TopQuiet(m1, s, pick);
      TopTrue(c, m1, s, pick, truth);
    } else if msg.Bitfield? {
      var m1 := m.OnPeerBitfield(s.peer, msg.bitfield);
      SameMissing(m, m1);
      TopQuiet(m1, s, pick);
      TopTrue(c, m1, s, pick, truth);
    }
  }

  // ---------------------------------------------------------------------------
  // From effects to the measure
  // ---------------------------------------------------------------------------

  /** Only session `id` changes, and it changes to a session that is not released. */
  ghost predicate OnlySession(st: Pool, st': Pool, id: nat) {
    && id in st.sessions && st'.sessions.Keys == st.sessions.Keys
    && (forall o :: o in st.sessions && o != id ==> st'.sessions[o] == st.sessions[o])
    && st.sessions[id].Live()
    && !st'.sessions[id].phase.Closed? && !st'.sessions[id].phase.Abandoned?
  }

  lemma SessionSets(st: Pool, st': Pool, id: nat)
    requires OnlySession(st, st', id)
    ensures UnreleasedIds(st') == UnreleasedIds(st)
    ensures LiveIds(st') == if st'.sessions[id].Live() then LiveIds(st) else LiveIds(st) - {id}
    ensures id in LiveIds(st)
  {}

  lemma ClosingLowers(st: Pool, st': Pool, id: nat)
    requires OnlySession(st, st', id) && !st'.sessions[id].Live()
    ensures Below(MeasureOf(st'), MeasureOf(st))
  {
    hide UnreleasedIds, LiveIds, MissingBlocks, InFlight, ChunksLeft, WritingIds, Budget;
    SessionSets(st, st', id);
    SmallerSet(LiveIds(st'), LiveIds(st));
  }

  lemma InFlightSame(st: Pool, st': Pool, id: nat)
    requires OnlySession(st, st', id) && st'.sessions[id].Live()
    requires st'.sessions[id].inFlight == st.sessions[id].inFlight
    ensures InFlight(st') == InFlight(st)
  {
    hide LiveIds;
    SessionSets(st, st', id);
    forall r ensures r in InFlight(st') <==> r in InFlight(st) {
      assert forall o :: o in LiveIds(st) ==> st'.sessions[o].inFlight == st.sessions[o].inFlight by { LiveAreSessions(st); }
    }
  }

  lemma LiveAreSessions(st: Pool)
    ensures forall o :: o in LiveIds(st) ==> o in st.sessions
  {}

  lemma StoringLowers(st: Pool, st': Pool, id: nat)
    requires OnlySession(st, st', id) && st'.sessions[id].Live()
    requires MissingBlocks(st'.mgr) < MissingBlocks(st.mgr)
    ensures Below(MeasureOf(st'), MeasureOf(st))
  {
    hide UnreleasedIds, LiveIds, MissingBlocks, InFlight, ChunksLeft, WritingIds, Budget;
    SessionSets(st, st', id);
    SmallerSet(MissingBlocks(st'.mgr), MissingBlocks(st.mgr));
  }

  lemma RequestingLowers(st: Pool, st': Pool, id: nat, r: (nat, int))
    requires OwnOk(st) && OnlySession(st, st', id) && st'.sessions[id].Live()
    requires MissingBlocks(st'.mgr) == MissingBlocks(st.mgr)
    requires st.sessions[id].phase.Sending? && r == (st.sessions[id].phase.piece, st.sessions[id].phase.offset)
    requires r !in st.sessions[id].inFlight && st'.sessions[id].inFlight == st.sessions[id].inFlight + {r}
    ensures Below(MeasureOf(st'), MeasureOf(st))
  {
    hide UnreleasedIds, MissingBlocks, ChunksLeft, WritingIds, Budget, TableOwn, Missing;
    var s := st.sessions[id];
    SessionSets(st, st', id);
    assert Owns(st.mgr, s);
    assert r in MissingBlocks(st.mgr) by {
      MissingIs(st.mgr, r.0, r.1);
      InMissing(st.mgr, r);
    }
    assert r !in InFlight(st) by {
      forall o | o in LiveIds(st) ensures r !in st.sessions[o].inFlight {
        assert Owns(st.mgr, st.sessions[o]);
        assert Holds(s, r.0);
        assert Holds(st.sessions[o], r.0) ==> o == id;
      }
    }
    assert InFlight(st') == InFlight(st) + {r};
    SmallerSet(MissingBlocks(st'.mgr) - InFlight(st'), MissingBlocks(st.mgr) - InFlight(st));
  }

  lemma InMissing(m: Manager, r: (nat, int))
    requires r.0 < |m.pieces| && r.1 in MissingOffsets(m.pieces[r.0])
    ensures r in MissingBlocks(m)
  {}

  /** Nothing but the phase of one session changes: the last part of the measure decides. */
  lemma PhaseOnly(st: Pool, st': Pool, id: nat)
    requires OnlySession(st, st', id) && st'.sessions[id].Live() && st'.jobs == st.jobs
    requires MissingBlocks(st'.mgr) == MissingBlocks(st.mgr) && st'.sessions[id].inFlight == st.sessions[id].inFlight
    requires !st'.sessions[id].phase.Writing?
    requires st'.sessions[id].phase.Opening? ==> st.sessions[id].phase.Opening? && st'.sessions[id].phase.left < st.sessions[id].phase.left
    requires st.sessions[id].phase.Opening? ==> st.sessions[id].phase.left > 0
    ensures if st.sessions[id].phase.Writing? || st.sessions[id].phase.Opening? then Below(MeasureOf(st'), MeasureOf(st))
            else MeasureOf(st') == MeasureOf(st)
  {
    hide UnreleasedIds, MissingBlocks, InFlight, LiveIds;
    SessionSets(st, st', id);
    InFlightSame(st, st', id);
    assert WritingIds(st') == WritingIds(st) - {id};
    assert ChunksLeft(st') == ChunksLeft(st);
    assert Budget(st') <= Budget(st);
    SmallerSet(WritingIds(st'), WritingIds(st));
    SmallerSet(Budget(st'), Budget(st));
    if st.sessions[id].phase.Opening? {
      var b: (nat, nat) := (id, st.sessions[id].phase.left - 1);
      assert b in Budget(st) && b !in Budget(st');
    } else if !st.sessions[id].phase.Writing? {
      assert Budget(st') == Budget(st);
      assert WritingIds(st') == WritingIds(st);
    } else {
      assert id in WritingIds(st);
    }
  }

  lemma LocalLowers(c: Config, st: Pool, truth: Bytes, ev: Event)
    requires Genuine(c, truth) && GoodState(c, st, truth) && Enabled(c, st, ev) && Honest(c, st, ev, truth) && IsLocal(ev)
    ensures Below(MeasureOf(Next(c, st, ev)), MeasureOf(st))
            || (!Progress(st, ev) && MeasureOf(Next(c, st, ev)) == MeasureOf(st))
    ensures TableTrue(c, Next(c, st, ev).mgr, truth)
  {
    hide LocalStep, Next, MeasureOf, Below, MissingBlocks, PoolOk, TableTrue, OwnOk, Honest, Genuine, Enabled, Progress;
    var e := LocalEffect(c, st, truth, ev);
    LocalNext(c, st, ev);
    var l, st', id := LocalStep(c, st, ev), Next(c, st, ev), ev.id;
    EventIsLive(c, st, ev);
    SessionPhase(c, st, id);
    assert OnlySession(st, st', id);
    if !st'.sessions[id].Live() {
      ClosingLowers(st, st', id);
    } else {
      match e
      case Closes =>
      case StoresBlock => StoringLowers(st, st', id);
      case Requests => RequestingLowers(st, st', id, (st.sessions[id].phase.piece, st.sessions[id].phase.offset));
      case Winds => PhaseOnly(st, st', id);
      case Waits => PhaseOnly(st, st', id);
    }
  }

  lemma EventIsLive(c: Config, st: Pool, ev: Event)
    requires Enabled(c, st, ev) && IsLocal(ev)
    ensures ev.id in st.sessions && st.sessions[ev.id].Live()
  {}

  lemma SessionPhase(c: Config, st: Pool, id: nat)
    requires PoolOk(c, st) && id in st.sessions
    ensures var s := st.sessions[id];
            && (s.phase.Opening? ==> s.phase.left > 0)
            && (s.phase.Sending? ==> (s.phase.piece, s.phase.offset) !in s.inFlight)
  {
    hide ManagerOk, SameShape, NoOrphan, JobOk;
  }

  lemma ChunkLowers(c: Config, st: Pool, ev: Event)
    requires Enabled(c, st, ev) && ev.WriteChunk?
    ensures Below(MeasureOf(Next(c, st, ev)), MeasureOf(st)) && Next(c, st, ev).mgr == st.mgr
  {
    hide MissingBlocks, InFlight, RunChunk;
    var st' := RunChunk(c, st, ev.job, ev.file);
    ChunkKeeps(c, st, ev.job, ev.file);
    ChunkGone(c, st, ev.job, ev.file);
    assert LiveIds(st') == LiveIds(st) && UnreleasedIds(st') == UnreleasedIds(st);
    assert WritingIds(st') == WritingIds(st) && Budget(st') == Budget(st);
    SmallerSet(ChunksLeft(st'), ChunksLeft(st));
    assert InFlight(st') == InFlight(st) by {
      SameInFlight(st, st');
    }
  }

  lemma SameInFlight(st: Pool, st': Pool)
    requires st'.sessions == st.sessions
    ensures InFlight(st') == InFlight(st)
  {
    assert LiveIds(st') == LiveIds(st);
  }

  lemma ChunkGone(c: Config, st: Pool, j: nat, k: nat)
    requires j < |st.jobs| && k in st.jobs[j].todo
    ensures ChunksLeft(RunChunk(c, st, j, k)) == ChunksLeft(st) - {(j, k)} && (j, k) in ChunksLeft(st)
  {
    hide FileLayout.WriteChunk;
    var st' := RunChunk(c, st, j, k);
    assert forall n :: 0 <= n < |st.jobs| && n != j ==> st'.jobs[n] == st.jobs[n];
    forall x: (nat, nat) ensures x in ChunksLeft(st') <==> x in ChunksLeft(st) - {(j, k)} {
      assert x.0 < |st.jobs| ==> (x.1 in st'.jobs[x.0].todo <==> x.1 in st.jobs[x.0].todo && x != (j, k));
    }
  }

  lemma OneUnreleasedLess(st: Pool, st': Pool, id: nat)
    requires id in st.sessions && st.sessions[id].phase.Closing?
    requires exists phase: Phase :: (phase.Closed? || phase.Abandoned?) && st'.sessions == st.sessions[id := st.sessions[id].(phase := phase)]
    ensures LiveIds(st') == LiveIds(st)
    ensures id in UnreleasedIds(st) && UnreleasedIds(st') == UnreleasedIds(st) - {id}
  {}

  lemma WindDownLowers(c: Config, st: Pool, ev: Event)
    requires Enabled(c, st, ev) && (ev.Release? || ev.Abort?)
    ensures Below(MeasureOf(Next(c, st, ev)), MeasureOf(st))
  {
    hide MissingBlocks, InFlight, ChunksLeft, WritingIds, Budget, LiveIds, UnreleasedIds;
    hide Manager.Release, LocalStep, Apply, RunChunk;
    var st' := Next(c, st, ev);
    OneUnreleasedLess(st, st', ev.id);
    SmallerSet(UnreleasedIds(st'), UnreleasedIds(st));
  }

  /** Every honest step without a new session lowers the measure, or is no progress and keeps it. */
  lemma StepLowers(c: Config, st: Pool, truth: Bytes, ev: Event)
    requires Genuine(c, truth) && GoodState(c, st, truth) && Enabled(c, st, ev) && Honest(c, st, ev, truth) && !Starts(c, st, ev)
    ensures GoodState(c, Next(c, st, ev), truth)
    ensures Below(MeasureOf(Next(c, st, ev)), MeasureOf(st))
            || (!Progress(st, ev) && MeasureOf(Next(c, st, ev)) == MeasureOf(st))
  {
    hide PoolOk, OwnOk, TableTrue, Genuine, MeasureOf, Below, LocalStep, Apply, RunChunk, Solicited, Manager.Release;
    StepOk(c, st, ev);
    StepKeepsOwn(c, st, ev);
    if IsLocal(ev) {
      LocalLowers(c, st, truth, ev);
    } else if ev.WriteChunk? {
      ChunkLowers(c, st, ev);
    } else if ev.Release? {
      WindDownLowers(c, st, ev);
      ReleaseTrue(c, st.mgr, st.sessions[ev.id].Listed(), truth);
    } else if ev.Abort? {
      WindDownLowers(c, st, ev);
    } else {
      AmbientKeeps(c, st, ev);
    }
  }

  lemma SameSessions(st: Pool, st': Pool)
    requires st'.sessions == st.sessions
    ensures LiveIds(st') == LiveIds(st) && UnreleasedIds(st') == UnreleasedIds(st)
    ensures WritingIds(st') == WritingIds(st) && Budget(st') == Budget(st)
  {}

  lemma SameChunks(st: Pool, st': Pool)
    requires st'.jobs == st.jobs
    ensures ChunksLeft(st') == ChunksLeft(st)
  {}

  lemma AmbientKeeps(c: Config, st: Pool, ev: Event)
    requires Enabled(c, st, ev) && (IsAmbient(ev) || (ev.Insert? && |st.registered| >= c.maxPeers))
    ensures MeasureOf(Next(c, st, ev)) == MeasureOf(st) && Next(c, st, ev).mgr == st.mgr
  {
    hide Next, Enabled, MissingBlocks, LiveIds, UnreleasedIds, WritingIds, Budget, ChunksLeft, InFlight;
    OtherNext(c, st, ev);
    SameSessions(st, Next(c, st, ev));
    SameChunks(st, Next(c, st, ev));
    SameInFlight(st, Next(c, st, ev));
  }

  // ---------------------------------------------------------------------------
  // Reachable states
  // ---------------------------------------------------------------------------

  ghost predicate AllHonest(c: Config, st: Pool, events: seq<Event>, truth: Bytes)
    decreases |events|
  {
    events != [] && Enabled(c, st, events[0]) ==>
      Honest(c, st, events[0], truth) && AllHonest(c, Next(c, st, events[0]), events[1..], truth)
  }

  lemma InsertKeepsGood(c: Config, st: Pool, truth: Bytes, ev: Event)
    requires GoodState(c, st, truth) && Enabled(c, st, ev) && Starts(c, st, ev)
    ensures GoodState(c, Next(c, st, ev), truth)
  {
    hide PoolOk, OwnOk, TableTrue, LocalStep, Apply, RunChunk, Manager.Release;
    StepOk(c, st, ev);
    StepKeepsOwn(c, st, ev);
  }

  lemma {:induction false} RunKeepsGood(c: Config, truth: Bytes, st: Pool, events: seq<Event>, st': Pool)
    requires Genuine(c, truth) && GoodState(c, st, truth) && Run(c, st, events, st') && AllHonest(c, st, events, truth)
    ensures GoodState(c, st', truth)
    decreases |events|
  {
    hide Genuine, GoodState, Enabled, Honest, Next;
    if events != [] {
      if Starts(c, st, events[0]) {
        InsertKeepsGood(c, st, truth, events[0]);
      } else {
        StepLowers(c, st, truth, events[0]);
      }
      RunKeepsGood(c, truth, Next(c, st, events[0]), events[1..], st');
    }
  }

  /** Every state that honest peers can lead to, new sessions included, is a good one. */
  lemma ReachableIsGood(c: Config, truth: Bytes, st0: Pool, events: seq<Event>, st: Pool)
    requires Genuine(c, truth) && Init(c, st0) && Run(c, st0, events, st) && AllHonest(c, st0, events, truth)
    ensures GoodState(c, st, truth)
  {
    InitPoolOk(c, st0);
    InitOwn(c, st0);
    InitTrue(c, truth, st0);
    hide GoodState, Run, AllHonest, Init;
    RunKeepsGood(c, truth, st0, events, st);
  }

  lemma InitTrue(c: Config, truth: Bytes, st: Pool)
    requires Genuine(c, truth) && Init(c, st)
    ensures TableTrue(c, st.mgr, truth)
  {
    hide PieceOf;
    forall i: nat | i < |st.mgr.pieces| ensures Agrees(st.mgr.pieces[i], PieceOf(truth, c.torrent.pieceLength, i)) {
      PieceLengthIsTrue(c, truth, i);
    }
  }

  // ---------------------------------------------------------------------------
  // Endless runs
  // ---------------------------------------------------------------------------

  /** An endless run from a good state, honest and without new sessions. */
  ghost predicate EndlessRun(c: Config, truth: Bytes, states: nat -> Pool, events: nat -> Event) {
    && GoodState(c, states(0), truth)
    && forall n: nat :: EndlessStep(c, truth, states, events, n)
  }

  ghost predicate EndlessStep(c: Config, truth: Bytes, states: nat -> Pool, events: nat -> Event, n: nat) {
    && Enabled(c, states(n), events(n))
    && Honest(c, states(n), events(n), truth)
    && !Starts(c, states(n), events(n))
    && states(n + 1) == Next(c, states(n), events(n))
  }

  lemma {:induction false} EndlessGood(c: Config, truth: Bytes, states: nat -> Pool, events: nat -> Event, n: nat)
    requires Genuine(c, truth) && EndlessRun(c, truth, states, events)
    ensures GoodState(c, states(n), truth)
  {
    hide GoodState, Genuine, Enabled, Honest, Next;
    if n > 0 {
      EndlessGood(c, truth, states, events, n - 1);
      assert EndlessStep(c, truth, states, events, n - 1);
      StepLowers(c, states(n - 1), truth, events(n - 1));
    }
  }

  lemma {:induction false} MeasureFalls(c: Config, truth: Bytes, states: nat -> Pool, events: nat -> Event, m: nat, n: nat)
    requires Genuine(c, truth) && EndlessRun(c, truth, states, events) && m <= n
    ensures Below(MeasureOf(states(n)), MeasureOf(states(m))) || MeasureOf(states(n)) == MeasureOf(states(m))
    decreases n - m
  {
    hide GoodState, Genuine, Enabled, Honest, Next, MeasureOf;
    if m < n {
      MeasureFalls(c, truth, states, events, m, n - 1);
      EndlessGood(c, truth, states, events, n - 1);
      assert EndlessStep(c, truth, states, events, n - 1);
      StepLowers(c, states(n - 1), truth, events(n - 1));
    }
  }

  /** From `start` on the run only waits. */
  ghost predicate OnlyWaits(states: nat -> Pool, events: nat -> Event, start: nat) {
    forall n: nat :: start <= n ==> !Progress(states(n), events(n))
  }

  /** From some point on, an endless honest run only waits: downloads end. */
  lemma {:induction false} ProgressEnds(c: Config, truth: Bytes, states: nat -> Pool, events: nat -> Event, from: nat)
    requires Genuine(c, truth) && EndlessRun(c, truth, states, events)
    ensures exists end: nat :: from <= end && OnlyWaits(states, events, end)
    decreases MeasureOf(states(from)).sessions, MeasureOf(states(from)).missing,
              MeasureOf(states(from)).unrequested, MeasureOf(states(from)).rest
  {
    hide GoodState, Genuine, Enabled, Honest, Next, MeasureOf, Progress;
    if n: nat :| from <= n && Progress(states(n), events(n)) {
      MeasureFalls(c, truth, states, events, from, n);
      EndlessGood(c, truth, states, events, n);
      assert EndlessStep(c, truth, states, events, n);
      StepLowers(c, states(n), truth, events(n));
      ProgressEnds(c, truth, states, events, n + 1);
      var end: nat :| n + 1 <= end && OnlyWaits(states, events, end);
      assert from <= end;
    } else {
      assert OnlyWaits(states, events, from);
    }
  }
}
