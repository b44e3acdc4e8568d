/**
 A cancellation at the wrong moment. `shutdown` cancels the sessions; one that then waits for the
 lock in `_disconnect` never releases its pieces. When that can happen, exactly what it loses, and a
 run in which it does.
 */
module PoolCancellation {
  import opened Basics
  import opened PieceModel
  import opened PieceAssembly
  import opened ManagerModel
  import opened PeerProtocol
  import opened PoolModel
  import opened PoolSafety
  import opened PoolRuns
  import opened PoolConnections
  import opened PoolOwnership

  /** Cancelled in its wait for the lock, whether it has resumed from the wait or not: it never releases. */
  ghost predicate Doomed(st: Pool, id: nat) {
    id in st.sessions && (st.sessions[id].phase.Abandoned? || (st.sessions[id].phase.Closing? && id in st.hit))
  }

  /** Some session still to run its release has the piece on its list. */
  ghost predicate WillBeReleased(st: Pool, i: nat) {
    exists id :: id in st.sessions && Holds(st.sessions[id], i) && !Doomed(st, id)
  }

  // ---------------------------------------------------------------------------
  // When nothing is lost
  // ---------------------------------------------------------------------------

  /** No session has been or is about to be cancelled while it waits for the lock. */
  ghost predicate Calm(st: Pool) {
    && st.hit == {} && st.stopping.None?
    && forall id :: id in st.sessions ==> !st.sessions[id].phase.Abandoned?
  }

  /** A call of `shutdown`, or a cancellation of that call, after a connection has been turned away. */
  ghost predicate LateShutdown(st: Pool, ev: Event) {
    (ev.Shutdown? || ev.CancelGather?) && !st.lock.Quiet?
  }

  lemma StepKeepsCalm(c: Config, st: Pool, ev: Event)
    requires Calm(st) && Enabled(c, st, ev) && !LateShutdown(st, ev)
    ensures Calm(Next(c, st, ev))
  {
    hide LocalStep, RunChunk, Apply, Manager.Release;
    if IsLocal(ev) {
      LocalNext(c, st, ev);
    } else if ev.WriteChunk? {
      ChunkKeeps(c, st, ev.job, ev.file);
    }
  }

  /** `shutdown` is neither called nor cancelled once a connection has been turned away at its second check. */
  ghost predicate QuietShutdowns(c: Config, st: Pool, events: seq<Event>)
    decreases |events|
  {
    events != [] && Enabled(c, st, events[0]) ==>
      !LateShutdown(st, events[0]) && QuietShutdowns(c, Next(c, st, events[0]), events[1..])
  }

  lemma {:induction false} RunKeepsCalm(c: Config, st: Pool, events: seq<Event>, st': Pool)
    requires Calm(st) && Run(c, st, events, st') && QuietShutdowns(c, st, events)
    ensures Calm(st')
    decreases |events|
  {
    hide Calm, Next, Enabled, LateShutdown;
    if events != [] {
      StepKeepsCalm(c, st, events[0]);
      RunKeepsCalm(c, Next(c, st, events[0]), events[1..], st');
    }
  }

  /** Then every PENDING piece is held by a session that will release it, peers being arbitrary. */
  lemma PendingWillBeReleased(c: Config, st0: Pool, events: seq<Event>, st: Pool, i: nat)
    requires Init(c, st0) && Run(c, st0, events, st) && QuietShutdowns(c, st0, events) && Pending(st.mgr, i)
    ensures WillBeReleased(st, i)
  {
    InitPoolOk(c, st0);
    RunKeepsPoolOk(c, st0, events, st);
    RunKeepsCalm(c, st0, events, st);
  }

  // ---------------------------------------------------------------------------
  // Exactly what is lost
  // ---------------------------------------------------------------------------

  /**
   In every state of a disciplined run a PENDING piece is lost exactly when a session cancelled in its
   wait has it on its list, so nothing is lost exactly when no such session was downloading a piece.
   */
  lemma LostExactly(c: Config, st0: Pool, events: seq<Event>, st: Pool)
    requires Init(c, st0) && Run(c, st0, events, st) && AllSolicited(c, st0, events)
    ensures forall i: nat :: Pending(st.mgr, i) ==>
              (!WillBeReleased(st, i) <==> exists id :: Doomed(st, id) && i in st.sessions[id].active)
    ensures (forall i: nat :: Pending(st.mgr, i) ==> WillBeReleased(st, i))
            <==> forall id :: Doomed(st, id) ==> st.sessions[id].active == []
  {
    hide Run, Init, AllSolicited, WillBeReleased;
    InitPoolOk(c, st0);
    InitOwn(c, st0);
    RunKeepsOwn(c, st0, events, st);
    forall i: nat | Pending(st.mgr, i)
      ensures !WillBeReleased(st, i) <==> exists id :: Doomed(st, id) && i in st.sessions[id].active
    {
      OneHolder(c, st, i);
    }
    forall id | Doomed(st, id) && st.sessions[id].active != []
      ensures exists i: nat :: Pending(st.mgr, i) && !WillBeReleased(st, i)
    {
      var i := st.sessions[id].active[0];
      assert i in st.sessions[id].active;
      assert Pending(st.mgr, i) by {
        DoomedOwns(st, id);
      }
    }
  }

  lemma OneHolder(c: Config, st: Pool, i: nat)
    requires PoolOk(c, st) && OwnOk(st) && Pending(st.mgr, i)
    ensures !WillBeReleased(st, i) <==> exists id :: Doomed(st, id) && i in st.sessions[id].active
  {
    hide ManagerOk, SameShape, SessionOk, JobOk, TableOwn, Owns;
    var o :| o in st.sessions && Holds(st.sessions[o], i);
    if id :| Doomed(st, id) && i in st.sessions[id].active {
      assert Holds(st.sessions[id], i);
    }
  }

  lemma DoomedOwns(st: Pool, id: nat)
    requires OwnOk(st) && Doomed(st, id)
    ensures forall i :: i in st.sessions[id].active ==> Pending(st.mgr, i)
  {
    hide TableOwn, Missing, Pending;
  }

  // ---------------------------------------------------------------------------
  // Lost for good
  // ---------------------------------------------------------------------------

  /** A session cancelled in its wait stays so, with its list as it is. */
  lemma DoomedStays(c: Config, st: Pool, ev: Event, id: nat)
    requires Enabled(c, st, ev) && Doomed(st, id)
    ensures Doomed(Next(c, st, ev), id) && Next(c, st, ev).sessions[id].active == st.sessions[id].active
  {
    hide Next, RunChunk;
    if IsLocal(ev) {
      LocalNext(c, st, ev);
    } else if ev.WriteChunk? {
      OtherNext(c, st, ev);
      ChunkKeeps(c, st, ev.job, ev.file);
    } else {
      HitGrows(c, st, ev);
      if ev.Release? {
        ReleaseNext(c, st, ev.id);
      } else {
        OtherNext(c, st, ev);
      }
    }
  }

  /** With peers that answer only requests, what such a session held stays PENDING in every later state. */
  lemma {:induction false} LostForGood(c: Config, st: Pool, events: seq<Event>, st': Pool, id: nat, i: nat)
    requires PoolOk(c, st) && OwnOk(st) && Run(c, st, events, st') && AllSolicited(c, st, events)
    requires Doomed(st, id) && i in st.sessions[id].active
    ensures Pending(st'.mgr, i) && !st'.mgr.IsDone()
    decreases |events|
  {
    hide PoolOk, Next, Enabled, Missing, Solicited;
    if events == [] {
      assert Owns(st.mgr, st.sessions[id]);
    } else {
      StepOk(c, st, events[0]);
      hide OwnOk, Doomed;
      StepKeepsOwn(c, st, events[0]);
      DoomedStays(c, st, events[0], id);
      LostForGood(c, Next(c, st, events[0]), events[1..], st', id, i);
    }
  }

  // ---------------------------------------------------------------------------
  // A run that loses a piece
  // ---------------------------------------------------------------------------

  predicate Distinct(keys: seq<Key>) {
    forall i, j :: 0 <= i < j < |keys| ==> keys[i] != keys[j]
  }

  predicate Untouched(s: Session) {
    s.phase == Opening(OPENING_MESSAGES) && s.inFlight == {} && s.active == []
  }

  predicate Listed(registered: map<Key, nat>, keys: seq<Key>, n: nat) {
    n <= |keys| && |registered| == n && forall k :: k in registered ==> k in keys[..n]
  }

  predicate Dialled(dialing: multiset<Key>, keys: seq<Key>, n: nat) {
    forall j :: n <= j < |keys| ==> keys[j] in dialing
  }

  lemma NewKey(keys: seq<Key>, n: nat)
    requires Distinct(keys) && n < |keys|
    ensures keys[n] !in keys[..n]
    ensures forall k :: k in keys[..n + 1] <==> k in keys[..n] || k == keys[n]
  {
    assert keys[..n + 1] == keys[..n] + [keys[n]];
  }

  lemma OneMoreListed(registered: map<Key, nat>, keys: seq<Key>, n: nat)
    requires Listed(registered, keys, n) && Distinct(keys) && n < |keys|
    ensures Listed(registered[keys[n] := n], keys, n + 1)
  {
    var key := keys[n];
    NewKey(keys, n);
    assert key !in registered;
    OneMore(registered, key, n);
    hide Distinct;
    var more := registered[key := n];
    forall k | k in more ensures k in keys[..n + 1] {
      assert k in keys[..n] || k == key;
    }
  }

  lemma OneLessDialled(dialing: multiset<Key>, keys: seq<Key>, n: nat)
    requires Dialled(dialing, keys, n) && Distinct(keys) && n < |keys|
    ensures keys[n] in dialing && Dialled(dialing - multiset{keys[n]}, keys, n + 1)
  {}

  /** The first n addresses are connected, as sessions 0 to n-1 that have heard nothing; the others are being dialled. */
  ghost predicate Filled(c: Config, st: Pool, keys: seq<Key>, n: nat) {
    && n <= |keys|
    && c.torrent.pieceLength > 0 && st.mgr == Initial(c.hashes, c.torrent.pieceLength, c.TotalLength())
    && st.lock.Quiet? && st.stopping.None? && st.hit == {}
    && Listed(st.registered, keys, n)
    && Dialled(st.dialing, keys, n)
    && (forall id: nat :: id in st.sessions <==> id < n)
    && (forall id :: id in st.sessions ==> Untouched(st.sessions[id]))
  }

  lemma {:induction false} DialAll(c: Config, st: Pool, keys: seq<Key>) returns (events: seq<Event>, st': Pool)
    requires st.lock.Quiet? && st.registered == map[] && c.maxPeers > 0
    ensures Run(c, st, events, st') && NoBlocks(events) && |events| == |keys|
    ensures st' == st.(dialing := st'.dialing) && st.dialing <= st'.dialing
    ensures forall j :: 0 <= j < |keys| ==> keys[j] in st'.dialing
    decreases |keys|
  {
    hide Enabled, Next, Run;
    if keys == [] {
      events, st' := [], st;
      RunNothing(c, st);
    } else {
      AdmitNext(c, st, keys[0]);
      events, st' := DialAll(c, Next(c, st, Admit(keys[0])), keys[1..]);
      RunStep(c, st, Admit(keys[0]), events, st');
      events := [Admit(keys[0])] + events;
      forall j | 0 <= j < |keys| ensures keys[j] in st'.dialing {
        assert j > 0 ==> keys[1..][j - 1] == keys[j];
      }
    }
  }

  predicate NoBlocks(events: seq<Event>) {
    forall ev :: ev in events ==> !(ev.Deliver? && ev.msg.Piece?)
  }

  lemma InsertFills(c: Config, st: Pool, keys: seq<Key>, n: nat, peer: PeerId)
    requires Filled(c, st, keys, n) && Distinct(keys) && n < |keys| && n < c.maxPeers
    ensures Enabled(c, st, Insert(keys[n], n, peer)) && Filled(c, Next(c, st, Insert(keys[n], n, peer)), keys, n + 1)
  {
    hide Enabled, Next, Initial, Listed, Dialled;
    OneMoreListed(st.registered, keys, n);
    OneLessDialled(st.dialing, keys, n);
    ListedCount(st.registered, keys, n);
    InsertNext(c, st, keys[n], n, peer);
  }

  lemma ListedCount(registered: map<Key, nat>, keys: seq<Key>, n: nat)
    requires Listed(registered, keys, n)
    ensures |registered| == n
  {}

  lemma {:induction false} InsertAll(c: Config, st: Pool, keys: seq<Key>, n: nat, peer: PeerId)
      returns (events: seq<Event>, st': Pool)
    requires Filled(c, st, keys, n) && Distinct(keys) && n <= c.maxPeers <= |keys|
    ensures Run(c, st, events, st') && NoBlocks(events) && Filled(c, st', keys, c.maxPeers)
    decreases c.maxPeers - n
  {
    hide Enabled, Next, Run, Filled;
    if n == c.maxPeers {
      events, st' := [], st;
      RunNothing(c, st);
    } else {
      InsertFills(c, st, keys, n, peer);
      events, st' := InsertAll(c, Next(c, st, Insert(keys[n], n, peer)), keys, n + 1, peer);
      RunStep(c, st, Insert(keys[n], n, peer), events, st');
      events := [Insert(keys[n], n, peer)] + events;
    }
  }

  /** One attempt too many is turned away, and its connection is closed under the lock. */
  lemma TurnedAway(c: Config, st: Pool, keys: seq<Key>, peer: PeerId) returns (st': Pool)
    requires Filled(c, st, keys, c.maxPeers) && |keys| == c.maxPeers + 1
    ensures Run(c, st, [Insert(keys[c.maxPeers], c.maxPeers, peer)], st')
    ensures st' == st.(dialing := st'.dialing, lock := Held)
  {
    hide LocalStep, RunChunk, Apply, Manager.Release, Run, Initial;
    var ev := Insert(keys[c.maxPeers], c.maxPeers, peer);
    st' := Next(c, st, ev);
    RunNothing(c, st');
    RunStep(c, st, ev, [], st');
    assert [ev] + [] == [ev];
  }

  /** Hearing of piece 0, then unchoked. */
  lemma TakingRun(c: Config, st: Pool) returns (st': Pool)
    requires c.torrent.pieceLength > 0 && |c.hashes| > 0 && st.mgr == Initial(c.hashes, c.torrent.pieceLength, c.TotalLength())
    requires 0 in st.sessions && Untouched(st.sessions[0])
    ensures Run(c, st, [Deliver(0, Have(0), 0), Deliver(0, Unchoke, 0)], st')
    ensures 0 in st'.sessions && st'.sessions[0].Live() && st'.sessions[0].active == [0] && Pending(st'.mgr, 0)
    ensures st' == st.(mgr := st'.mgr, done := st'.done, sessions := st.sessions[0 := st'.sessions[0]])
  {
    hide Top, RunChunk, Manager.Release, OnReceiving, OnIdle, Run;
    var s := st.sessions[0];
    var have, unchoke := Deliver(0, Have(0), 0), Deliver(0, Unchoke, 0);
    var st1 := Next(c, st, have);
    var s1 := s.(phase := Opening(OPENING_MESSAGES - 1));
    assert st1 == st.(mgr := st.mgr.OnPeerHave(s.peer, 0), sessions := st.sessions[0 := s1]);
    st' := Next(c, st1, unchoke);
    TakesOffer(st1.mgr, s1, 0);
    RunNothing(c, st');
    RunStep(c, st1, unchoke, [], st');
    RunStep(c, st, have, [unchoke] + [], st');
    assert [have] + ([unchoke] + []) == [have, unchoke];
    assert st'.sessions == st.sessions[0 := st'.sessions[0]];
  }

  /** While the lock is held `shutdown` is called and waits for it; then session 0 fails and waits behind. */
  lemma WaitingRun(c: Config, st: Pool) returns (st': Pool)
    requires st.lock.Held? && st.stopping.None? && st.hit == {} && 0 in st.sessions && st.sessions[0].Live()
    requires forall id :: id in st.sessions ==> !st.sessions[id].phase.Closing?
    ensures Run(c, st, [Shutdown, Fail(0)], st')
    ensures st' == st.(stopping := Some({}), sessions := st.sessions[0 := st.sessions[0].(phase := Closing)])
  {
    hide Top, Fill, RunChunk, Manager.Release, OnReceiving, OnIdle, OnOpening, Run;
    assert InDisconnect(st) - st.hit == {};
    var st1 := Next(c, st, Shutdown);
    assert st1 == st.(stopping := Some({}));
    st' := Next(c, st1, Fail(0));
    RunNothing(c, st');
    RunStep(c, st1, Fail(0), [], st');
    RunStep(c, st, Shutdown, [Fail(0)] + [], st');
    assert [Shutdown] + ([Fail(0)] + []) == [Shutdown, Fail(0)];
  }

  /** Once the lock is free `shutdown` has its turn, and session 0 is cancelled in its wait. */
  lemma CancelledRun(c: Config, st: Pool) returns (st': Pool)
    requires st.lock.Held? && st.stopping == Some({}) && 0 in st.sessions && st.sessions[0].phase.Closing?
    ensures Run(c, st, [Rejected, CancelAll({0}), Abort(0)], st')
    ensures st'.mgr == st.mgr && st'.sessions == st.sessions[0 := st.sessions[0].(phase := Abandoned)]
  {
    hide LocalStep, Apply, RunChunk, Manager.Release, Run;
    var st1 := Next(c, st, Rejected);
    var st2 := Next(c, st1, CancelAll({0}));
    assert 0 in InDisconnect(st1);
    st' := Next(c, st2, Abort(0));
    RunNothing(c, st');
    RunStep(c, st2, Abort(0), [], st');
    RunStep(c, st1, CancelAll({0}), [Abort(0)] + [], st');
    RunStep(c, st, Rejected, [CancelAll({0})] + ([Abort(0)] + []), st');
    assert [Rejected] + ([CancelAll({0})] + ([Abort(0)] + [])) == [Rejected, CancelAll({0}), Abort(0)];
  }

  /** Runs in which no block arrives are disciplined. */
  lemma {:induction false} NoBlocksSolicited(c: Config, st: Pool, events: seq<Event>)
    requires NoBlocks(events)
    ensures AllSolicited(c, st, events)
    decreases |events|
  {
    hide Enabled, Next;
    if events != [] && Enabled(c, st, events[0]) {
      NoBlocksSolicited(c, Next(c, st, events[0]), events[1..]);
    }
  }

  /**
   In every torrent with a piece and for every maximum, with one address more than that: a run in
   which the last attempt is turned away and `shutdown` is called meanwhile ends with piece 0 PENDING
   and no session that will release it.
   */
  lemma PieceIsLost(c: Config, st: Pool, keys: seq<Key>, peer: PeerId)
    requires Init(c, st) && |c.hashes| > 0 && c.maxPeers > 0
    requires Distinct(keys) && |keys| == c.maxPeers + 1
    ensures exists events: seq<Event>, st': Pool ::
              Run(c, st, events, st') && AllSolicited(c, st, events) && Pending(st'.mgr, 0) && !WillBeReleased(st', 0)
  {
    var dials, st1 := DialAll(c, st, keys);
    NoneFilled(c, st, st1, keys);
    hide Init, Run, Filled, Initial, Enabled, Next;
    var inserts, st2 := InsertAll(c, st1, keys, 0, peer);
    var rest, st5 := LosingRun(c, st2, keys, peer);
    RunConcat(c, st1, inserts, st2, rest, st5);
    RunConcat(c, st, dials, st1, inserts + rest, st5);
    NoBlocksSolicited(c, st, dials + (inserts + rest));
  }

  lemma NoneFilled(c: Config, st: Pool, st1: Pool, keys: seq<Key>)
    requires Init(c, st) && st1 == st.(dialing := st1.dialing)
    requires forall j :: 0 <= j < |keys| ==> keys[j] in st1.dialing
    ensures Filled(c, st1, keys, 0)
  {
    hide Initial;
    var none: map<nat, Session> := map[];
    assert forall id :: id !in none;
    assert forall k :: k !in st1.registered;
  }

  lemma LosingRun(c: Config, st2: Pool, keys: seq<Key>, peer: PeerId) returns (events: seq<Event>, st5: Pool)
    requires Filled(c, st2, keys, c.maxPeers) && |keys| == c.maxPeers + 1 && |c.hashes| > 0 && c.maxPeers > 0
    ensures Run(c, st2, events, st5) && NoBlocks(events) && Pending(st5.mgr, 0) && !WillBeReleased(st5, 0)
  {
    hide Run, Filled, Initial, Enabled, Next, Pending;
    var st3 := TurnedAway(c, st2, keys, peer);
    FilledSessions(c, st2, keys);
    var st4 := TakingRun(c, st3);
    var waiting := WaitingRun(c, st4);
    st5 := CancelledRun(c, waiting);
    var last := [Insert(keys[c.maxPeers], c.maxPeers, peer)];
    var taking, dropping := [Deliver(0, Have(0), 0), Deliver(0, Unchoke, 0)], [Shutdown, Fail(0)] + [Rejected, CancelAll({0}), Abort(0)];
    RunConcat(c, st4, [Shutdown, Fail(0)], waiting, [Rejected, CancelAll({0}), Abort(0)], st5);
    RunConcat(c, st3, taking, st4, dropping, st5);
    RunConcat(c, st2, last, st3, taking + dropping, st5);
    events := last + (taking + dropping);
    assert !WillBeReleased(st5, 0);
  }

  lemma FilledSessions(c: Config, st: Pool, keys: seq<Key>)
    requires Filled(c, st, keys, c.maxPeers) && c.maxPeers > 0
    ensures c.torrent.pieceLength > 0 && st.mgr == Initial(c.hashes, c.torrent.pieceLength, c.TotalLength())
    ensures st.stopping.None? && st.hit == {}
    ensures 0 in st.sessions && forall id :: id in st.sessions ==> Untouched(st.sessions[id])
  {}
}
