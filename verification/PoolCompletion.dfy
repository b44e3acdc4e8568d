/**
 Completed pieces against arbitrary peers: the one kind of message that takes a COMPLETE piece back,
 and a run in which it does so after the download was reported done.
 */
module PoolCompletion {
  import opened Basics
  import opened PieceModel
  import opened PieceAssembly
  import opened ManagerModel
  import opened PeerProtocol
  import opened FileLayout
  import opened FileWriter
  import opened PoolModel
  import opened PoolSafety
  import opened PoolRuns

  // ---------------------------------------------------------------------------
  // Exactly when a COMPLETE piece is taken back
  // ---------------------------------------------------------------------------

  /** A session that waits for blocks receives one for piece i that fits into it and says something new. */
  ghost predicate Spoils(st: Pool, ev: Event, i: nat)
    requires i < |st.mgr.pieces|
  {
    var blocks := st.mgr.pieces[i].blocks;
    && ev.Deliver? && ev.id in st.sessions && st.sessions[ev.id].phase.Receiving?
    && ev.msg.Piece? && ev.msg.index == i
    && st.mgr.pieces[i].AddBlock(ev.msg.begin, ev.msg.block).Ok?
    && ev.msg.block != if ev.msg.begin in blocks then blocks[ev.msg.begin] else []
  }

  /** Piece i is COMPLETE in one table exactly if it is in the other. */
  predicate SameCompletion(m: Manager, m': Manager, i: nat) {
    |m'.pieces| == |m.pieces| && (i < |m.pieces| ==> (m'.pieces[i].state == COMPLETE <==> m.pieces[i].state == COMPLETE))
  }

  lemma TopSameCompletion(m: Manager, s: Session, pick: nat, i: nat)
    ensures SameCompletion(m, Fill(m, s, pick).mgr, i) && SameCompletion(m, Top(m, s, pick).mgr, i)
  {
    hide NextRequest, Unrequested;
  }

  lemma BlockCompletion(sha1: Hash, m: Manager, s: Session, i: nat, j: nat, begin: nat, block: Bytes, pick: nat)
    requires ManagerOk(sha1, m) && i < |m.pieces| && m.pieces[i].state == COMPLETE
    requires NoSecondPreimage(sha1, Assembled(m.pieces[i].blocks))
    ensures var l := OnBlock(sha1, m, s, j, begin, block, pick);
            var blocks := m.pieces[i].blocks;
            && i < |l.mgr.pieces|
            && (l.mgr.pieces[i].state == COMPLETE
                <==> !(j == i && m.pieces[i].AddBlock(begin, block).Ok?
                       && block != if begin in blocks then blocks[begin] else []))
  {
    hide Top, RemoveFirst, Assembled, NoSecondPreimage;
    var p := m.pieces[i];
    assert PieceOk(sha1, p);
    if m.AddBlock(sha1, j, begin, block).Ok? {
      var m' := m.AddBlock(sha1, j, begin, block).value;
      var s1 := s.(inFlight := s.inFlight - {(j, begin)});
      TopSameCompletion(m', s1, pick, i);
      TopSameCompletion(m', s1.(active := RemoveFirst(s1.active, j)), pick, i);
      if j == i {
        StaysComplete(p, sha1, begin, block);
      }
    }
  }

  lemma LocalCompletion(c: Config, st: Pool, ev: Event, i: nat)
    requires PoolOk(c, st) && Enabled(c, st, ev) && IsLocal(ev)
    requires i < |st.mgr.pieces| && st.mgr.pieces[i].state == COMPLETE
    requires NoSecondPreimage(c.sha1, Assembled(st.mgr.pieces[i].blocks))
    ensures var m := LocalStep(c, st, ev).mgr;
            i < |m.pieces| && (m.pieces[i].state == COMPLETE <==> !Spoils(st, ev, i))
  {
    hide Top, Fill, OnBlock, ManagerOk, SessionOk, SameShape, NoOrphan, JobOk, Assembled, NoSecondPreimage;
    var m, s := st.mgr, st.sessions[ev.id];
    match ev
    case Deliver(_, msg, pick) =>
      TopSameCompletion(m, s, pick, i);
      match msg {
        case Have(h) => TopSameCompletion(m.OnPeerHave(s.peer, h), s, pick, i);
        case Bitfield(bits) => TopSameCompletion(m.OnPeerBitfield(s.peer, bits), s, pick, i);
        case Piece(j, begin, block) => BlockCompletion(c.sha1, m, s, i, j, begin, block, pick);
        case _ =>
      }
    case Timeout(_, pick) => TopSameCompletion(m, s, pick, i);
    case Returned(_, pick) => TopSameCompletion(m, s, pick, i);
    case Sent(_, pick) =>
      TopSameCompletion(m, s.(inFlight := s.inFlight + {(s.phase.piece, s.phase.offset)}), pick, i);
    case Fail(_) =>
  }

  /** In any state, whatever peers send: a COMPLETE piece is COMPLETE after a step exactly if the step does not spoil it. */
  lemma StaysCompleteExactly(c: Config, st: Pool, ev: Event, i: nat)
    requires PoolOk(c, st) && Enabled(c, st, ev)
    requires i < |st.mgr.pieces| && st.mgr.pieces[i].state == COMPLETE
    requires NoSecondPreimage(c.sha1, Assembled(st.mgr.pieces[i].blocks))
    ensures i < |Next(c, st, ev).mgr.pieces|
    ensures Next(c, st, ev).mgr.pieces[i].state == COMPLETE <==> !Spoils(st, ev, i)
  {
    hide LocalStep, Next, RunChunk, PoolOk, Assembled, NoSecondPreimage, Manager.Release;
    if IsLocal(ev) {
      LocalCompletion(c, st, ev, i);
      LocalNext(c, st, ev);
    } else if ev.Release? {
      ReleaseNext(c, st, ev.id);
      ReleaseKeepsComplete(st.mgr, st.sessions[ev.id].Listed(), i);
    } else {
      OtherNext(c, st, ev);
      if ev.WriteChunk? {
        ChunkKeeps(c, st, ev.job, ev.file);
      }
    }
  }

  lemma ReleaseKeepsComplete(m: Manager, listed: set<nat>, i: nat)
    requires i < |m.pieces| && m.pieces[i].state == COMPLETE
    ensures m.Release(listed).pieces[i] == m.pieces[i]
  {}

  // ---------------------------------------------------------------------------
  // The same over runs
  // ---------------------------------------------------------------------------

  ghost predicate IsComplete(st: Pool, i: nat) {
    i < |st.mgr.pieces| && st.mgr.pieces[i].state == COMPLETE
  }

  ghost predicate AlwaysComplete(c: Config, st: Pool, events: seq<Event>, i: nat)
    decreases |events|
  {
    IsComplete(st, i)
    && (events != [] && Enabled(c, st, events[0]) ==> AlwaysComplete(c, Next(c, st, events[0]), events[1..], i))
  }

  /** No step of the run spoils the piece while it is COMPLETE. */
  ghost predicate NeverSpoiled(c: Config, st: Pool, events: seq<Event>, i: nat)
    decreases |events|
  {
    events != [] && Enabled(c, st, events[0]) && i < |st.mgr.pieces| ==>
      !Spoils(st, events[0], i) && NeverSpoiled(c, Next(c, st, events[0]), events[1..], i)
  }

  /** What a COMPLETE piece holds has the expected digest, so it is the one content with that digest. */
  lemma HoldsTheContent(c: Config, st: Pool, i: nat, data: Bytes)
    requires PoolOk(c, st) && IsComplete(st, i)
    requires c.sha1(data) == c.hashes[i] && NoSecondPreimage(c.sha1, data)
    ensures Assembled(st.mgr.pieces[i].blocks) == data
  {
    hide SessionOk, NoOrphan, JobOk, Assembled;
    assert PieceOk(c.sha1, st.mgr.pieces[i]);
  }

  /** Over every run with arbitrary peers a COMPLETE piece stays COMPLETE throughout exactly if no step spoils it. */
  lemma {:induction false} StaysCompleteOverRuns(c: Config, st: Pool, events: seq<Event>, st': Pool, i: nat, data: Bytes)
    requires PoolOk(c, st) && Run(c, st, events, st') && IsComplete(st, i)
    requires i < |c.hashes| && c.sha1(data) == c.hashes[i] && NoSecondPreimage(c.sha1, data)
    ensures AlwaysComplete(c, st, events, i) <==> NeverSpoiled(c, st, events, i)
    decreases |events|
  {
    hide PoolOk, Next, Enabled, Assembled, NoSecondPreimage, Spoils;
    if events != [] {
      HoldsTheContent(c, st, i, data);
      StaysCompleteExactly(c, st, events[0], i);
      StepOk(c, st, events[0]);
      if IsComplete(Next(c, st, events[0]), i) {
        StaysCompleteOverRuns(c, Next(c, st, events[0]), events[1..], st', i, data);
      }
    }
  }

  // ---------------------------------------------------------------------------
  // A run: reported done, then a piece taken back
  // ---------------------------------------------------------------------------

  /** A piece of one block that has not come yet. */
  predicate Bare(m: Manager, i: nat) {
    i < |m.pieces| && m.pieces[i].blocks == map[] && m.pieces[i].received == 0 && 0 < m.pieces[i].length <= BLOCK_SIZE
  }

  /** The session has asked for the one block of piece i, all that its peer offers. */
  predicate Asking(m: Manager, s: Session, i: nat) {
    s.inFlight == {(i, 0)} && s.active == [i] && m.Available(s.peer) == {i} && Pending(m, i)
  }

  lemma OneBlockMissing(m: Manager, i: nat)
    requires Bare(m, i)
    ensures m.pieces[i].MissingBlocks() == [Block(0, m.pieces[i].length)]
    ensures Unrequested(m.pieces[i].MissingBlocks(), i, {(i, 0)}) == []
  {
    var length := m.pieces[i].length;
    assert MissingFrom(length, map[], length) == [];
    assert BlockSize(length, 0) == length;
    assert [Block(0, length)][1..] == [];
  }

  /** Such a session has nothing more to ask for. */
  lemma WaitsForBlock(m: Manager, s: Session, i: nat, pick: nat)
    requires Bare(m, i) && Asking(m, s, i)
    ensures Fill(m, s, pick) == Local(m, s.(phase := Receiving), false, None)
    ensures Top(m, s, pick) == Local(m, s.(phase := Receiving), false, None)
  {
    hide MissingFrom, Unrequested, Manager.Rarity;
    OneBlockMissing(m, i);
    assert [i][1..] == [];
    assert NextRequest(m, [], {(i, 0)}) == None;
    assert NextRequest(m, [i], {(i, 0)}) == None;
    assert |s.inFlight| == 1;
    assert m.Candidates(s.peer) == {};
  }

  /** A fresh session hears of piece i and is unchoked. */
  lemma HearingRun(c: Config, st: Pool, id: nat, i: nat) returns (st': Pool)
    requires id in st.sessions && st.sessions[id].phase == Opening(OPENING_MESSAGES)
    requires st.sessions[id].inFlight == {} && st.sessions[id].active == [] && st.sessions[id].peer !in st.mgr.peerPieces
    requires Bare(st.mgr, i) && FitsU32(i) && st.mgr.pieces[i].state == NEEDED && i !in st.mgr.pending
    ensures Run(c, st, [Deliver(id, Have(i), 0), Deliver(id, Unchoke, i)], st')
    ensures var s := st.sessions[id].(phase := Sending(i, 0, BlockSize(st.mgr.pieces[i].length, 0)), active := [i]);
            st' == st.(mgr := st.mgr.OnPeerHave(s.peer, i).Claim(i), sessions := st.sessions[id := s])
  {
    hide Top, RunChunk, Manager.Release, OnReceiving, OnIdle, Run;
    var s := st.sessions[id];
    var m := st.mgr.OnPeerHave(s.peer, i);
    var have, unchoke := Deliver(id, Have(i), 0), Deliver(id, Unchoke, i);
    var st1 := HaveStep(c, st, id, i);
    var s1 := s.(phase := Opening(OPENING_MESSAGES - 1));
    TakesOffer(m, s1, i);
    hide Manager.OnPeerHave, Manager.Claim, BlockSize;
    st' := Next(c, st1, unchoke);
    assert st'.sessions == st.sessions[id := s1.(active := [i], phase := Sending(i, 0, BlockSize(m.pieces[i].length, 0)))];
    RunNothing(c, st');
    RunStep(c, st1, unchoke, [], st');
    RunConcat(c, st, [have], st1, [unchoke] + [], st');
    assert [have] + ([unchoke] + []) == [have, unchoke];
  }

  lemma HaveStep(c: Config, st: Pool, id: nat, i: nat) returns (st': Pool)
    requires id in st.sessions && st.sessions[id].phase == Opening(OPENING_MESSAGES) && FitsU32(i)
    ensures Run(c, st, [Deliver(id, Have(i), 0)], st')
    ensures var s := st.sessions[id];
            st' == st.(
              mgr := st.mgr.OnPeerHave(s.peer, i),
              sessions := st.sessions[id := s.(phase := Opening(OPENING_MESSAGES - 1))])
  {
    hide Top, RunChunk, Manager.Release, OnReceiving, OnIdle, Run, Manager.OnPeerHave;
    st' := Next(c, st, Deliver(id, Have(i), 0));
    RunNothing(c, st');
    RunStep(c, st, Deliver(id, Have(i), 0), [], st');
    assert [Deliver(id, Have(i), 0)] + [] == [Deliver(id, Have(i), 0)];
  }

  /** Its request is sent, and it waits for the block. */
  lemma AskingStep(c: Config, st: Pool, id: nat, i: nat) returns (st': Pool)
    requires id in st.sessions && st.sessions[id].inFlight == {}
    requires Bare(st.mgr, i) && Asking(st.mgr, st.sessions[id].(inFlight := {(i, 0)}), i)
    requires st.sessions[id].phase == Sending(i, 0, BlockSize(st.mgr.pieces[i].length, 0))
    ensures Run(c, st, [Sent(id, 0)], st')
    ensures st' == st.(sessions := st.sessions[id := st.sessions[id].(phase := Receiving, inFlight := {(i, 0)})])
  {
    hide Fill, Top, RunChunk, Manager.Release, Run, Bare, Asking;
    var s := st.sessions[id];
    assert s.inFlight + {(i, 0)} == {(i, 0)};
    WaitsForBlock(st.mgr, s.(inFlight := {(i, 0)}), i, 0);
    st' := Next(c, st, Sent(id, 0));
    RunNothing(c, st');
    RunStep(c, st, Sent(id, 0), [], st');
    assert [Sent(id, 0)] + [] == [Sent(id, 0)];
  }

  lemma AskingRun(c: Config, st: Pool, id: nat, i: nat) returns (events: seq<Event>, st': Pool)
    requires id in st.sessions && st.sessions[id].phase == Opening(OPENING_MESSAGES)
    requires st.sessions[id].inFlight == {} && st.sessions[id].active == [] && st.sessions[id].peer !in st.mgr.peerPieces
    requires Bare(st.mgr, i) && FitsU32(i) && st.mgr.pieces[i].state == NEEDED && i !in st.mgr.pending
    ensures Run(c, st, events, st')
    ensures var s := st.sessions[id].(phase := Receiving, inFlight := {(i, 0)}, active := [i]);
            && st' == st.(mgr := st.mgr.OnPeerHave(s.peer, i).Claim(i), sessions := st.sessions[id := s])
            && Asking(st'.mgr, s, i) && Bare(st'.mgr, i)
  {
    hide Run;
    var st1 := HearingRun(c, st, id, i);
    st' := AskingStep(c, st1, id, i);
    assert st'.sessions == st.sessions[id := st'.sessions[id]];
    var hearing := [Deliver(id, Have(i), 0), Deliver(id, Unchoke, i)];
    RunConcat(c, st, hearing, st1, [Sent(id, 0)], st');
    events := hearing + [Sent(id, 0)];
  }

  /** The table with piece j COMPLETE, its one block stored. */
  function WithPiece(m: Manager, j: nat, data: Bytes): Manager
    requires j < |m.pieces|
  {
    m.(pieces := m.pieces[j := m.pieces[j].(state := COMPLETE, blocks := map[0 := data], received := |data|)],
       pending := m.pending - {j})
  }

  /** The true block of a bare piece completes it, whoever sends it. */
  lemma TrueBlockCompletes(sha1: Hash, m: Manager, s: Session, j: nat, data: Bytes, pick: nat)
    requires Bare(m, j) && |data| == m.pieces[j].length && sha1(data) == m.pieces[j].expectedHash
    ensures OnBlock(sha1, m, s, j, 0, data, pick) == Local(
              WithPiece(m, j, data),
              s.(inFlight := s.inFlight - {(j, 0)}, active := RemoveFirst(s.active, j)),
              false,
              Some((j, data)))
  {
    hide Assembled, RemoveFirst, Top;
    AssembledSingle(data);
    assert map[][0 := data] == map[0 := data];
  }

  /** It arrives at a session that waits for blocks, and the callback writes the piece to disk. */
  lemma CompletingRun(c: Config, st: Pool, id: nat, j: nat, data: Bytes) returns (events: seq<Event>, st': Pool)
    requires id in st.sessions && st.sessions[id].phase.Receiving? && FitsU32(j)
    requires Bare(st.mgr, j) && |data| == st.mgr.pieces[j].length && c.sha1(data) == st.mgr.pieces[j].expectedHash
    ensures Run(c, st, events, st')
    ensures var s := st.sessions[id];
            && st' == st.(mgr := WithPiece(st.mgr, j, data), sessions := st'.sessions, jobs := st'.jobs, disk := st'.disk)
            && st'.sessions == st.sessions[id := s.(
                 inFlight := s.inFlight - {(j, 0)},
                 active := RemoveFirst(s.active, j),
                 phase := Writing(|st.jobs|))]
            && |st'.jobs| == |st.jobs| + 1 && st'.jobs[|st.jobs|].todo == {}
  {
    hide OnBlock, RunChunk, Manager.Release, OnOpening, OnIdle, Top, Run, RemoveFirst, WithPiece, Bare, StartJob;
    var ev := Deliver(id, Piece(j, 0, data), 0);
    TrueBlockCompletes(c.sha1, st.mgr, st.sessions[id], j, data, 0);
    var st1 := Next(c, st, ev);
    var chunks, st2 := FinishJob(c, st1, |st.jobs|);
    RunStep(c, st, ev, chunks, st2);
    events, st' := [ev] + chunks, st2;
  }

  /** The callback returns to a session that still waits for its own block. */
  lemma ReturnedWaits(c: Config, st: Pool, id: nat, i: nat) returns (st': Pool)
    requires id in st.sessions && st.sessions[id].phase.Writing?
    requires Bare(st.mgr, i) && Asking(st.mgr, st.sessions[id], i)
    ensures Run(c, st, [Returned(id, 0)], st')
    ensures st' == st.(sessions := st.sessions[id := st.sessions[id].(phase := Receiving)])
  {
    hide Fill, Top, RunChunk, Manager.Release, Run, Bare, Asking;
    WaitsForBlock(st.mgr, st.sessions[id], i, 0);
    st' := Next(c, st, Returned(id, 0));
    RunNothing(c, st');
    RunStep(c, st, Returned(id, 0), [], st');
    assert [Returned(id, 0)] + [] == [Returned(id, 0)];
  }

  /** The callback for the last piece returns: the download is reported done. */
  lemma ReturnedDone(c: Config, st: Pool, id: nat) returns (st': Pool)
    requires id in st.sessions && st.sessions[id].phase.Writing? && st.mgr.IsDone()
    ensures Run(c, st, [Returned(id, 0)], st')
    ensures st' == st.(done := true, sessions := st.sessions[id := st.sessions[id].(phase := Closing)])
  {
    hide Fill, RunChunk, Manager.Release, Run, Manager.IsDone;
    st' := Next(c, st, Returned(id, 0));
    RunNothing(c, st');
    RunStep(c, st, Returned(id, 0), [], st');
    assert [Returned(id, 0)] + [] == [Returned(id, 0)];
  }

  /** A block of the requested size with other bytes, for a piece that is COMPLETE. */
  lemma WrongBlock(c: Config, st: Pool, id: nat, j: nat, data: Bytes, wrong: Bytes)
    requires id in st.sessions && st.sessions[id].phase.Receiving? && FitsU32(j) && j < |st.mgr.pieces|
    requires st.mgr.pieces[j].blocks == map[0 := data] && st.mgr.pieces[j].received == |data| == st.mgr.pieces[j].length > 0
    requires |wrong| == |data| && c.sha1(wrong) != st.mgr.pieces[j].expectedHash
    ensures var ev := Deliver(id, Piece(j, 0, wrong), 0);
            && Enabled(c, st, ev)
            && (st.done ==> Next(c, st, ev).done)
            && j < |Next(c, st, ev).mgr.pieces| && Next(c, st, ev).mgr.pieces[j].state != COMPLETE
  {
    hide Top, RunChunk, Manager.Release, OnOpening, OnIdle, Assembled, RemoveFirst;
    var m, s := st.mgr, st.sessions[id];
    AssembledSingle(wrong);
    assert map[0 := data][0 := wrong] == map[0 := wrong];
    var m' := m.AddBlock(c.sha1, j, 0, wrong).value;
    assert m'.pieces[j].state == NEEDED;
    var s2 := s.(inFlight := s.inFlight - {(j, 0)}, active := RemoveFirst(s.active, j));
    TopSameCompletion(m', s2, 0, j);
    TopNeverCompletes(m', s2, 0);
  }

  lemma TopNeverCompletes(m: Manager, s: Session, pick: nat)
    ensures Top(m, s, pick).completed == None
  {
    hide NextRequest, Unrequested;
  }

  lemma ConnectTwo(c: Config, st: Pool, a: Key, b: Key, peerA: PeerId, peerB: PeerId) returns (events: seq<Event>, st': Pool)
    requires Init(c, st) && c.maxPeers > 1 && a != b
    ensures Run(c, st, events, st')
    ensures st'.mgr == st.mgr && st'.sessions.Keys == {0, 1}
    ensures st'.sessions[0] == Session(a, peerA, Opening(OPENING_MESSAGES), {}, [])
    ensures st'.sessions[1] == Session(b, peerB, Opening(OPENING_MESSAGES), {}, [])
  {
    EmptyAtFirst(c, st);
    hide Init, Run, Enabled, Next;
    AdmitNext(c, st, a);
    var st1 := Next(c, st, Admit(a));
    AdmitNext(c, st1, b);
    var st2 := Next(c, st1, Admit(b));
    InsertNext(c, st2, a, 0, peerA);
    var st3 := Next(c, st2, Insert(a, 0, peerA));
    assert st3.registered == map[a := 0];
    InsertNext(c, st3, b, 1, peerB);
    st' := Next(c, st3, Insert(b, 1, peerB));
    RunNothing(c, st');
    RunStep(c, st3, Insert(b, 1, peerB), [], st');
    RunStep(c, st2, Insert(a, 0, peerA), [Insert(b, 1, peerB)] + [], st');
    RunStep(c, st1, Admit(b), [Insert(a, 0, peerA)] + ([Insert(b, 1, peerB)] + []), st');
    events := [Admit(a)] + ([Admit(b)] + ([Insert(a, 0, peerA)] + ([Insert(b, 1, peerB)] + [])));
    RunStep(c, st, Admit(a), [Admit(b)] + ([Insert(a, 0, peerA)] + ([Insert(b, 1, peerB)] + [])), st');
  }

  lemma EmptyAtFirst(c: Config, st: Pool)
    requires Init(c, st)
    ensures st.registered == map[] && st.sessions == map[] && st.dialing == multiset{} && st.lock.Quiet? && st.jobs == []
  {}

  /** Two pieces of one block each, their bytes, and other bytes that could come for the second. */
  ghost predicate TwoPieces(c: Config, data0: Bytes, data1: Bytes, wrong: Bytes) {
    && |c.hashes| == 2 && 0 < c.torrent.pieceLength <= BLOCK_SIZE
    && |data0| == c.torrent.pieceLength && c.sha1(data0) == c.hashes[0]
    && |data1| == PieceLength(2, c.torrent.pieceLength, c.TotalLength(), 1) && c.sha1(data1) == c.hashes[1]
    && |wrong| == |data1| && c.sha1(wrong) != c.hashes[1]
  }

  /** Session k has asked for piece k, k being 0 and 1. */
  ghost predicate BothAsking(c: Config, st: Pool) {
    && st.sessions.Keys == {0, 1} && |st.mgr.pieces| == 2 == |c.hashes| && c.torrent.pieceLength > 0
    && AsksFor(st, 0) && AsksFor(st, 1) && Described(c, st.mgr, 0) && Described(c, st.mgr, 1)
  }

  predicate AsksFor(st: Pool, k: nat)
    requires k in st.sessions
  {
    Bare(st.mgr, k) && Asking(st.mgr, st.sessions[k], k) && st.sessions[k].phase.Receiving?
  }

  /** Length and digest of the piece are those of the metainfo. */
  predicate Described(c: Config, m: Manager, k: nat)
    requires |c.hashes| == 2 && c.torrent.pieceLength > 0 && k < 2
  {
    && k < |m.pieces|
    && m.pieces[k].length == PieceLength(2, c.torrent.pieceLength, c.TotalLength(), k)
    && m.pieces[k].expectedHash == c.hashes[k]
  }

  /** Each of two fresh sessions asks for its own piece. */
  lemma AskTwice(c: Config, st: Pool) returns (events: seq<Event>, st': Pool)
    requires st.sessions.Keys == {0, 1} && Fresh(st.sessions[0]) && Fresh(st.sessions[1])
    requires st.sessions[0].peer != st.sessions[1].peer
    requires |st.mgr.pieces| == 2 && st.mgr.pending == {} && st.mgr.peerPieces == map[]
    requires Bare(st.mgr, 0) && st.mgr.pieces[0].state == NEEDED && Bare(st.mgr, 1) && st.mgr.pieces[1].state == NEEDED
    ensures Run(c, st, events, st')
    ensures st'.mgr == st.mgr.OnPeerHave(st.sessions[0].peer, 0).Claim(0).OnPeerHave(st.sessions[1].peer, 1).Claim(1)
    ensures st'.sessions.Keys == {0, 1}
    ensures AsksFor(st', 0) && AsksFor(st', 1)
  {
    hide Run, Asking, Bare;
    var first, st1 := AskingRun(c, st, 0, 0);
    OtherPieceBare(st.mgr, st.sessions[0].peer);
    var second, st2 := AskingRun(c, st1, 1, 1);
    FirstStillAsking(st1.mgr, st1.sessions[0], st.sessions[1].peer);
    st' := st2;
    RunConcat(c, st, first, st1, second, st2);
    events := first + second;
  }

  predicate Fresh(s: Session) {
    s.phase == Opening(OPENING_MESSAGES) && s.inFlight == {} && s.active == []
  }

  lemma BothAskingRun(c: Config, st: Pool, a: Key, b: Key, peerA: PeerId, peerB: PeerId) returns (events: seq<Event>, st': Pool)
    requires Init(c, st) && |c.hashes| == 2 && 0 < c.torrent.pieceLength <= BLOCK_SIZE
    requires c.maxPeers > 1 && a != b && peerA != peerB
    ensures Run(c, st, events, st') && BothAsking(c, st')
  {
    var connecting, st1 := ConnectTwo(c, st, a, b, peerA, peerB);
    InitBare(c, st);
    hide Run, Init, AsksFor, Bare, Described;
    var asking, st2 := AskTwice(c, st1);
    TakenTwice(c, st1.mgr, peerA, peerB);
    hide Manager.Claim, Manager.OnPeerHave, PieceLength;
    RunConcat(c, st, connecting, st1, asking, st2);
    events, st' := connecting + asking, st2;
  }

  lemma InitBare(c: Config, st: Pool)
    requires Init(c, st) && |c.hashes| == 2 && c.torrent.pieceLength <= BLOCK_SIZE
    ensures |st.mgr.pieces| == 2 && st.mgr.pending == {} && st.mgr.peerPieces == map[]
    ensures forall k: nat :: k < 2 ==> Bare(st.mgr, k) && st.mgr.pieces[k].state == NEEDED && Described(c, st.mgr, k)
  {
    hide PieceLength;
  }

  lemma OtherPieceBare(m: Manager, peer: PeerId)
    requires |m.pieces| == 2 && Bare(m, 1) && m.pieces[1].state == NEEDED && m.pending == {}
    ensures var m' := m.OnPeerHave(peer, 0).Claim(0);
            Bare(m', 1) && m'.pieces[1].state == NEEDED && 1 !in m'.pending && m'.peerPieces.Keys == m.peerPieces.Keys + {peer}
  {}

  lemma TakenTwice(c: Config, m: Manager, peerA: PeerId, peerB: PeerId)
    requires |c.hashes| == 2 && c.torrent.pieceLength > 0 && |m.pieces| == 2 && Described(c, m, 0) && Described(c, m, 1)
    ensures var m' := m.OnPeerHave(peerA, 0).Claim(0).OnPeerHave(peerB, 1).Claim(1);
            |m'.pieces| == 2 && Described(c, m', 0) && Described(c, m', 1)
  {}

  lemma FirstStillAsking(m: Manager, s: Session, peer: PeerId)
    requires |m.pieces| == 2 && Asking(m, s, 0) && Bare(m, 0) && peer != s.peer
    ensures var m' := m.OnPeerHave(peer, 1).Claim(1);
            Asking(m', s, 0) && Bare(m', 0)
  {}

  /** The first session is sent both pieces; the second still waits when the download is reported done. */
  lemma FinishingRun(c: Config, st: Pool, data0: Bytes, data1: Bytes, wrong: Bytes) returns (events: seq<Event>, st': Pool)
    requires BothAsking(c, st) && TwoPieces(c, data0, data1, wrong)
    ensures Run(c, st, events, st') && st'.done && st'.mgr.IsDone()
    ensures 1 in st'.sessions && st'.sessions[1] == st.sessions[1]
    ensures st'.mgr == WithPiece(WithPiece(st.mgr, 1, data1), 0, data0)
  {
    hide Run, Asking;
    assert Asking(st.mgr, st.sessions[0], 0) && Asking(st.mgr, st.sessions[1], 1);
    var part1, st1 := CompletingRun(c, st, 0, 1, data1);
    StillAsking(st, st1, data1);
    var st2 := ReturnedWaits(c, st1, 0, 0);
    var part3, st3 := CompletingRun(c, st2, 0, 0, data0);
    var st4 := ReturnedDone(c, st3, 0);
    st' := st4;
    RunConcat(c, st2, part3, st3, [Returned(0, 0)], st4);
    RunConcat(c, st1, [Returned(0, 0)], st2, part3 + [Returned(0, 0)], st4);
    events := [Returned(0, 0)] + (part3 + [Returned(0, 0)]);
    RunConcat(c, st, part1, st1, events, st4);
    events := part1 + events;
  }

  lemma StillAsking(st: Pool, st1: Pool, data1: Bytes)
    requires 0 in st.sessions && 0 in st1.sessions && Asking(st.mgr, st.sessions[0], 0) && |st.mgr.pieces| == 2
    requires st1.mgr == WithPiece(st.mgr, 1, data1)
    requires st1.sessions[0].peer == st.sessions[0].peer
    requires st1.sessions[0].inFlight == st.sessions[0].inFlight - {(1, 0)}
    requires st1.sessions[0].active == RemoveFirst(st.sessions[0].active, 1)
    ensures Asking(st1.mgr, st1.sessions[0], 0)
  {
    assert [0][1..] == [];
    assert RemoveFirst([0], 1) == [0] + RemoveFirst([], 1);
  }

  /**
   `_done_event` is not the end: in every torrent of two one-block pieces, one peer that sends a block
   it was not asked for and another that sends wrong bytes lead to a state in which the download is
   reported done and a piece is not COMPLETE.
   */
  lemma DoneThenUndone(c: Config, st: Pool, a: Key, b: Key, peerA: PeerId, peerB: PeerId,
                       data0: Bytes, data1: Bytes, wrong: Bytes)
    requires Init(c, st) && c.maxPeers > 1 && a != b && peerA != peerB && TwoPieces(c, data0, data1, wrong)
    ensures exists events: seq<Event>, st': Pool, ev: Event ::
              && Run(c, st, events, st') && st'.done && st'.mgr.IsDone()
              && Enabled(c, st', ev) && Next(c, st', ev).done && !Next(c, st', ev).mgr.IsDone()
  {
    hide Run, Next, Enabled, Init;
    var asking, st1 := BothAskingRun(c, st, a, b, peerA, peerB);
    var finishing, st2 := FinishingRun(c, st1, data0, data1, wrong);
    RunConcat(c, st, asking, st1, finishing, st2);
    WrongBlock(c, st2, 1, 1, data1, wrong);
  }
}
