/** Building blocks of concrete runs: single steps and how runs are put together. */
module PoolRuns {
  import opened Basics
  import opened PieceModel
  import opened PieceAssembly
  import opened ManagerModel
  import opened PeerProtocol
  import opened FileLayout
  import opened FileWriter
  import opened PoolModel
  import opened PoolSafety

  lemma AdmitNext(c: Config, st: Pool, key: Key)
    requires !st.lock.Held? && |st.registered| < c.maxPeers && key !in st.registered
    ensures Enabled(c, st, Admit(key)) && Next(c, st, Admit(key)) == st.(dialing := st.dialing + multiset{key})
  {
    hide LocalStep, RunChunk, Apply;
  }

  lemma InsertNext(c: Config, st: Pool, key: Key, id: nat, peer: PeerId)
    requires !st.lock.Held? && |st.registered| < c.maxPeers && key in st.dialing && id !in st.sessions
    ensures Enabled(c, st, Insert(key, id, peer))
    ensures Next(c, st, Insert(key, id, peer)) == st.(
              dialing := st.dialing - multiset{key},
              registered := st.registered[key := id],
              sessions := st.sessions[id := Session(key, peer, Opening(OPENING_MESSAGES), {}, [])])
  {
    hide LocalStep, RunChunk, Apply;
  }

  lemma RunNothing(c: Config, st: Pool)
    ensures Run(c, st, [], st)
  {}

  lemma {:induction false} RunConcat(c: Config, st: Pool, a: seq<Event>, mid: Pool, b: seq<Event>, st': Pool)
    requires Run(c, st, a, mid) && Run(c, mid, b, st')
    ensures Run(c, st, a + b, st')
    decreases |a|
  {
    hide Enabled, Next;
    if a == [] {
      assert a + b == b;
    } else {
      RunConcat(c, Next(c, st, a[0]), a[1..], mid, b, st');
      assert (a + b)[1..] == a[1..] + b;
    }
  }

  /** Told of piece i alone and unchoked, a session takes it and asks for its first block. */
  lemma TakesOffer(m: Manager, s: Session, i: nat)
    requires i < |m.pieces| && m.pieces[i].state == NEEDED && i !in m.pending
    requires m.pieces[i].blocks == map[] && m.pieces[i].length > 0
    requires m.Available(s.peer) == {i} && s.inFlight == {} && s.active == []
    ensures Top(m, s, i) == Local(
              m.Claim(i),
              s.(active := [i], phase := Sending(i, 0, BlockSize(m.pieces[i].length, 0))),
              false,
              None)
  {
    hide Manager.Rarity;
    assert m.Candidates(s.peer) == {i};
    assert m.IsRarest(s.peer, i);
    assert Choose(m, s.peer, i) == i;
    assert [] + [i] == [i];
    assert m.pieces[i].MissingBlocks()[0] == Block(0, BlockSize(m.pieces[i].length, 0));
    hide MissingFrom;
    assert Unrequested(m.pieces[i].MissingBlocks(), i, {})[0] == m.pieces[i].MissingBlocks()[0];
  }

  /** The chunks of one write job are written, in any order. */
  lemma {:induction false} FinishJob(c: Config, st: Pool, j: nat) returns (events: seq<Event>, st': Pool)
    requires j < |st.jobs|
    ensures Run(c, st, events, st')
    ensures st' == st.(jobs := st'.jobs, disk := st'.disk) && |st'.jobs| == |st.jobs| && st'.jobs[j].todo == {}
    decreases |st.jobs[j].todo|
  {
    hide Run, RunChunk;
    if st.jobs[j].todo == {} {
      events, st' := [], st;
      RunNothing(c, st);
    } else {
      var k :| k in st.jobs[j].todo;
      ChunkWritten(c, st, j, k);
      events, st' := FinishJob(c, Next(c, st, WriteChunk(j, k)), j);
      RunStep(c, st, WriteChunk(j, k), events, st');
      events := [WriteChunk(j, k)] + events;
    }
  }

  lemma ChunkWritten(c: Config, st: Pool, j: nat, k: nat)
    requires j < |st.jobs| && k in st.jobs[j].todo
    ensures Enabled(c, st, WriteChunk(j, k))
    ensures var st' := Next(c, st, WriteChunk(j, k));
            && st' == st.(jobs := st'.jobs, disk := st'.disk) && |st'.jobs| == |st.jobs|
            && st'.jobs[j].todo == st.jobs[j].todo - {k}
  {
    hide FileLayout.WriteChunk, Overlaps;
  }
}
