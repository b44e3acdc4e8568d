/**
 The classes `PeerSession` and `PeerPoolManager`: each method runs one uninterrupted stretch of the
 pool's code, from one await to the next, on the shared piece table. What it leaves behind is what
 the step system of PoolModel.dfy says.
 */
module PeerPool {
  import opened Basics
  import opened PieceModel
  import opened ManagerModel
  import opened PeerProtocol
  import opened PoolModel
  import PM = PieceManager

  class PeerSession {
    const key: Key
    const peer: PeerId
    /** Where this session's coroutine is suspended. */
    var phase: Phase
    var inFlight: set<(nat, int)>
    var active: seq<nat>

    constructor (key: Key, peer: PeerId)
      ensures View() == Session(key, peer, Opening(OPENING_MESSAGES), {}, [])
    {
      this.key, this.peer, phase, inFlight, active := key, peer, Opening(OPENING_MESSAGES), {}, [];
    }

    ghost function View(): Session
      reads this
    {
      Session(key, peer, phase, inFlight, active)
    }

    /** The pieces a release goes through. */
    method ListPieces() returns (listed: set<nat>)
      ensures listed == View().Listed()
    {
      listed := set i | i in active;
      var left := inFlight;
      while left != {}
        invariant left <= inFlight
        invariant listed == (set i | i in active) + (set r | r in inFlight && r !in left :: r.0)
        decreases left
      {
        var r :| r in left;
        ghost var before := left;
        left := left - {r};
        listed := listed + {r.0};
        assert forall q :: q in inFlight && q !in left <==> (q in inFlight && q !in before) || q == r;
      }
    }
  }

  /** The missing blocks of a piece that the session has not asked for. */
  method ListUnrequested(missing: seq<Block>, i: nat, inFlight: set<(nat, int)>) returns (blocks: seq<Block>)
    ensures blocks == Unrequested(missing, i, inFlight)
  {
    hide Unrequested;
    blocks := [];
    assert missing[0..] == missing;
    for k := 0 to |missing|
      invariant blocks + Unrequested(missing[k..], i, inFlight) == Unrequested(missing, i, inFlight)
    {
      UnrequestedStep(missing, k, i, inFlight);
      ghost var rest := Unrequested(missing[k + 1..], i, inFlight);
      if (i, missing[k].offset) !in inFlight {
        assert blocks + ([missing[k]] + rest) == blocks + [missing[k]] + rest;
        blocks := blocks + [missing[k]];
      }
    }
    assert missing[|missing|..] == [];
    NoneUnrequested(i, inFlight);
    assert blocks + [] == blocks;
  }

  lemma UnrequestedStep(missing: seq<Block>, k: nat, i: nat, inFlight: set<(nat, int)>)
    requires k < |missing|
    ensures Unrequested(missing[k..], i, inFlight)
         == if (i, missing[k].offset) in inFlight then Unrequested(missing[k + 1..], i, inFlight)
            else [missing[k]] + Unrequested(missing[k + 1..], i, inFlight)
  {
    assert missing[k..][1..] == missing[k + 1..];
    assert [] + Unrequested(missing[k + 1..], i, inFlight) == Unrequested(missing[k + 1..], i, inFlight);
  }

  lemma NoneUnrequested(i: nat, inFlight: set<(nat, int)>)
    ensures Unrequested([], i, inFlight) == []
  {}

  method RemoveIfListed(xs: seq<nat>, x: nat) returns (ys: seq<nat>)
    ensures ys == RemoveFirst(xs, x)
    ensures forall y :: y in ys ==> y in xs
  {
    RemoveSome(xs, x);
    assert xs[0..] == xs;
    NothingRemoved(x);
    hide RemoveFirst;
    for k := 0 to |xs|
      invariant RemoveFirst(xs, x) == xs[..k] + RemoveFirst(xs[k..], x)
    {
      RemoveStep(xs, k, x);
      if xs[k] == x {
        return xs[..k] + xs[k + 1..];
      }
      ShiftOne(xs, k, RemoveFirst(xs[k + 1..], x));
    }
    assert xs[|xs|..] == [] && xs[..|xs|] == xs;
    ys := xs;
  }

  lemma ShiftOne<T>(xs: seq<T>, k: nat, rest: seq<T>)
    requires k < |xs|
    ensures xs[..k] + ([xs[k]] + rest) == xs[..k + 1] + rest
  {}

  lemma RemoveStep(xs: seq<nat>, k: nat, x: nat)
    requires k < |xs|
    ensures RemoveFirst(xs[k..], x) == if xs[k] == x then xs[k + 1..] else [xs[k]] + RemoveFirst(xs[k + 1..], x)
  {
    assert xs[k..][1..] == xs[k + 1..];
  }

  lemma NothingRemoved(x: nat)
    ensures RemoveFirst([], x) == []
  {}

  lemma RemoveSome(xs: seq<nat>, x: nat)
    ensures forall y :: y in RemoveFirst(xs, x) ==> y in xs
  {}

  lemma NextRequestStep(m: Manager, active: seq<nat>, k: nat, inFlight: set<(nat, int)>)
    requires k < |active| && active[k] < |m.pieces|
    ensures var blocks := Unrequested(m.pieces[active[k]].MissingBlocks(), active[k], inFlight);
            NextRequest(m, active[k..], inFlight)
            == if blocks != [] then Some((active[k], blocks[0])) else NextRequest(m, active[k + 1..], inFlight)
  {
    assert active[k..][1..] == active[k + 1..];
  }

  lemma NoRequest(m: Manager, inFlight: set<(nat, int)>)
    ensures NextRequest(m, [], inFlight) == None
  {}

  lemma ReleaseNothing(m: Manager)
    ensures m.Release({}) == m
  {
    assert m.Release({}).pieces == m.pieces;
  }

  /** Marking one more piece failed, or passing over a COMPLETE one, is releasing one more piece. */
  lemma ReleaseOneMore(sha1: Hash, m: Manager, listed: set<nat>, i: nat)
    requires i !in listed && ManagerOk(sha1, m)
    ensures m.Unfinished(i) <==> m.Release(listed).Unfinished(i)
    ensures m.Release(listed + {i}) ==
            if m.Unfinished(i) then m.Release(listed).MarkPieceFailed(i) else m.Release(listed)
  {
    hide PieceOk;
    var m1 := m.Release(listed);
    var m2 := m.Release(listed + {i});
    if m.Unfinished(i) {
      assert m2.pieces == m1.MarkPieceFailed(i).pieces;
      assert m2.pending == m1.MarkPieceFailed(i).pending;
    } else {
      assert m2.pieces == m1.pieces;
    }
  }

  lemma TopCompletesNothing(m: Manager, s: Session, pick: nat)
    ensures Top(m, s, pick).completed == None
  {}

  lemma OnlyBlocksComplete(m: Manager, s: Session, msg: Message)
    requires FromWire(msg)
    ensures forall left: nat, pick: nat :: OnOpening(m, s, left, msg, pick).completed == None
    ensures forall pick: nat :: OnIdle(m, s, msg, pick).completed == None
  {
    hide Top;
    forall m: Manager, pick: nat ensures Top(m, s, pick).completed == None {
      TopCompletesNothing(m, s, pick);
    }
  }

  lemma AddBlockInTable(sha1: Hash, m: Manager, i: nat, begin: int, block: Bytes)
    requires m.AddBlock(sha1, i, begin, block).Ok?
    ensures i < |m.pieces|
  {}

  class PeerPoolManager {
    const pm: PM.PieceManager
    const maxPeers: nat
    var sessions: map<Key, PeerSession>
    var doneEvent: bool

    ghost predicate Valid()
      reads this, pm, pm.pieces
    {
      pm.Valid() && ManagerOk(pm.sha1, pm.View())
    }

    /** The session lists only pieces of the table. */
    ghost predicate InTable(s: PeerSession)
      reads pm, s
    {
      forall i :: i in s.active ==> i < |pm.pieces|
    }

    /** The stretch ended as the step system says: in the table, in the session and in the event. */
    ghost predicate Reached(s: PeerSession, l: Local, wasDone: bool)
      reads this, pm, pm.pieces, s
    {
      pm.View() == l.mgr && s.View() == l.session && doneEvent == (wasDone || l.done)
    }

    constructor (pm: PM.PieceManager, maxPeers: nat)
      requires pm.Valid() && ManagerOk(pm.sha1, pm.View())
      ensures Valid() && this.pm == pm && this.maxPeers == maxPeers && sessions == map[] && !doneEvent
    {
      this.pm, this.maxPeers, sessions, doneEvent := pm, maxPeers, map[], false;
    }

    // -------------------------------------------------------------------------
    // add_peers
    // -------------------------------------------------------------------------

    /** Under the lock, before connecting. */
    method MayConnect(key: Key) returns (ok: bool)
      ensures ok <==> |sessions| < maxPeers && key !in sessions
    {
      if |sessions| >= maxPeers {
        return false;
      }
      ok := key !in sessions;
    }

    /** Under the lock, once connected: only the count is looked at again. */
    method Register(key: Key, s: PeerSession) returns (ok: bool)
      modifies this`sessions
      ensures ok <==> old(|sessions|) < maxPeers
      ensures sessions == if ok then old(sessions)[key := s] else old(sessions)
      ensures old(|sessions|) <= maxPeers ==> |sessions| <= maxPeers
    {
      if |sessions| >= maxPeers {
        return false;
      }
      assert sessions[key := s].Keys == sessions.Keys + {key};
      sessions := sessions[key := s];
      ok := true;
    }

    // -------------------------------------------------------------------------
    // _download_loop
    // -------------------------------------------------------------------------

    /** After the fill loop: which await comes next. */
    method AwaitMessage(s: PeerSession)
      requires Valid() && InTable(s)
      modifies this`doneEvent, s`phase
      ensures Valid() && InTable(s)
      ensures Reached(s, Wait(old(pm.View()), old(s.View())), old(doneEvent))
    {
      if s.inFlight == {} {
        var done := pm.IsDone();
        if done {
          doneEvent := true;
          s.phase := Closing;
        } else {
          s.phase := Idle;
        }
      } else {
        s.phase := Receiving;
      }
    }

    /** Step 1 of the fill loop: the first unrequested block of the first active piece that has one. */
    method FindRequest(s: PeerSession) returns (r: Option<(nat, Block)>)
      requires pm.Valid() && InTable(s)
      ensures r == NextRequest(pm.View(), s.active, s.inFlight)
    {
      hide NextRequest, Unrequested;
      assert s.active[0..] == s.active;
      for k := 0 to |s.active|
        invariant NextRequest(pm.View(), s.active, s.inFlight) == NextRequest(pm.View(), s.active[k..], s.inFlight)
      {
        var i := s.active[k];
        assert i in s.active;
        var missing := pm.pieces[i].MissingBlocks();
        var blocks := ListUnrequested(missing, i, s.inFlight);
        assert pm.View().pieces[i] == pm.pieces[i].View();
        NextRequestStep(pm.View(), s.active, k, s.inFlight);
        if blocks != [] {
          return Some((i, blocks[0]));
        }
      }
      assert s.active[|s.active|..] == [];
      NoRequest(pm.View(), s.inFlight);
      r := None;
    }

    /** Step 2, once a piece is selected: it joins the active list and its first block is requested. */
    method StartPiece(s: PeerSession, i: nat)
      requires Valid() && InTable(s) && i < |pm.pieces|
      modifies this`doneEvent, s
      ensures Valid() && InTable(s)
      ensures var m := pm.View();
              var blocks := Unrequested(m.pieces[i].MissingBlocks(), i, old(s.inFlight));
              var s' := old(s.View()).(active := old(s.active) + [i]);
              Reached(s,
                      if blocks == [] then Wait(m, s')
                      else Local(m, s'.(phase := Sending(i, blocks[0].offset, blocks[0].size)), false, None),
                      old(doneEvent))
    {
      hide Unrequested, PieceOk, Manager.IsDone;
      s.active := s.active + [i];
      var missing := pm.pieces[i].MissingBlocks();
      var blocks := ListUnrequested(missing, i, s.inFlight);
      assert pm.View().pieces[i] == pm.pieces[i].View();
      if blocks != [] {
        s.phase := Sending(i, blocks[0].offset, blocks[0].size);
      } else {
        AwaitMessage(s);
      }
    }

    /** From the head of the fill loop to the next await. */
    method FillPipeline(s: PeerSession) returns (ghost pick: nat)
      requires Valid() && InTable(s)
      modifies this`doneEvent, s, pm`pending, pm.pieces
      ensures Valid() && InTable(s)
      ensures Reached(s, Fill(old(pm.View()), old(s.View()), pick), old(doneEvent))
    {
      hide NextRequest, Unrequested, Manager.IsDone, PieceOk, Manager.Rarity;
      pick := 0;
      if |s.inFlight| >= PIPELINE_DEPTH {
        AwaitMessage(s);
        return;
      }
      var r := FindRequest(s);
      if r.Some? {
        s.phase := Sending(r.value.0, r.value.1.offset, r.value.1.size);
        return;
      }
      ghost var m := pm.View();
      var selected := pm.SelectPiece(s.peer);
      if selected.Err? {
        s.phase := Closing;
      } else if selected.value.None? {
        AwaitMessage(s);
      } else {
        var i := selected.value.value;
        pick := i;
        assert Choose(m, s.peer, pick) == i;
        ClaimOk(pm.sha1, m, i);
        assert m.Claim(i).pieces[i].MissingBlocks() == m.pieces[i].MissingBlocks();
        StartPiece(s, i);
      }
    }

    /** From the head of `while not is_done` to the next await. */
    method DownloadLoop(s: PeerSession) returns (ghost pick: nat)
      requires Valid() && InTable(s)
      modifies this`doneEvent, s, pm`pending, pm.pieces
      ensures Valid() && InTable(s)
      ensures Reached(s, Top(old(pm.View()), old(s.View()), pick), old(doneEvent))
    {
      hide Manager.IsDone, Fill;
      var done := pm.IsDone();
      if done {
        pick := 0;
        doneEvent := true;
        s.phase := Closing;
      } else {
        pick := FillPipeline(s);
      }
    }

    /** A message before the session is unchoked. */
    method HandleOpening(s: PeerSession, msg: Message) returns (ghost pick: nat)
      requires Valid() && InTable(s) && FromWire(msg) && s.phase.Opening?
      modifies this`doneEvent, s, pm`pending, pm`peerPieces, pm.pieces
      ensures Valid() && InTable(s)
      ensures Reached(s, OnOpening(old(pm.View()), old(s.View()), old(s.phase.left), msg, pick), old(doneEvent))
    {
      hide Top, Manager.IsDone;
      pick := 0;
      match msg {
        case Unchoke =>
          pick := DownloadLoop(s);
          return;
        case Bitfield(bits) => pm.OnPeerBitfield(s.peer, bits);
        case Have(i) => pm.OnPeerHave(s.peer, i);
        case _ =>
      }
      s.phase := if s.phase.left <= 1 then Closing else Opening(s.phase.left - 1);
    }

    /** A message while nothing is in flight. */
    method HandleIdle(s: PeerSession, msg: Message) returns (ghost pick: nat)
      requires Valid() && InTable(s) && FromWire(msg)
      modifies this`doneEvent, s, pm`pending, pm`peerPieces, pm.pieces
      ensures Valid() && InTable(s)
      ensures Reached(s, OnIdle(old(pm.View()), old(s.View()), msg, pick), old(doneEvent))
    {
      hide Top, Manager.IsDone;
      match msg {
        case Have(i) => pm.OnPeerHave(s.peer, i);
        case Bitfield(bits) => pm.OnPeerBitfield(s.peer, bits);
        case Choke =>
          pick := 0;
          s.phase := Closing;
          return;
        case _ =>
      }
      pick := DownloadLoop(s);
    }

    /** A block arrives. A verified piece is returned to be handed to the callback. */
    method HandleBlock(s: PeerSession, i: nat, begin: nat, block: Bytes)
        returns (completed: Option<(nat, Bytes)>, ghost pick: nat)
      requires Valid() && InTable(s)
      modifies this`doneEvent, s, pm`pending, pm.pieces
      ensures Valid() && InTable(s)
      ensures var l := OnBlock(pm.sha1, old(pm.View()), old(s.View()), i, begin, block, pick);
              Reached(s, l, old(doneEvent)) && completed == l.completed
    {
      hide Top, Manager.IsDone, Manager.AddBlock, Manager.Completes, PieceOk, Assembled, RemoveFirst;
      completed, pick := None, 0;
      ghost var m := pm.View();
      s.inFlight := s.inFlight - {(i, begin)};
      var done := pm.AddBlock(i, begin, block);
      if done.Err? {
        s.phase := Closing;
        return;
      }
      AddBlockOk(pm.sha1, m, i, begin, block);
      AddBlockInTable(pm.sha1, m, i, begin, block);
      assert pm.View().pieces[i] == pm.pieces[i].View();
      if done.value {
        s.active := RemoveIfListed(s.active, i);
        var data := pm.GetPieceData(i);
        completed := Some((i, data.value));
      } else {
        if pm.pieces[i].state == NEEDED {
          s.active := RemoveIfListed(s.active, i);
        }
        ghost var resumed := s.View();
        pick := DownloadLoop(s);
        TopCompletesNothing(m.AddBlock(pm.sha1, i, begin, block).value, resumed, pick);
      }
    }

    /** The release loop shared by the choke branch and `_disconnect`. */
    method ReleasePieces(listed: set<nat>)
      requires Valid()
      modifies pm`pending, pm.pieces
      ensures Valid()
      ensures pm.View() == old(pm.View()).Release(listed)
    {
      hide Manager.Release, Manager.MarkPieceFailed, PieceOk;
      ghost var m := pm.View();
      ReleaseNothing(m);
      var left := listed;
      assert listed - left == {};
      while left != {}
        invariant left <= listed && Valid()
        invariant pm.View() == m.Release(listed - left)
        decreases left
      {
        var i :| i in left;
        ReleaseOneMore(pm.sha1, m, listed - left, i);
        assert listed - (left - {i}) == listed - left + {i};
        left := left - {i};
        if i < |pm.pieces| && pm.pieces[i].state != COMPLETE {
          assert pm.View().pieces[i] == pm.pieces[i].View();
          pm.MarkPieceFailed(i);
        }
        ReleaseOk(pm.sha1, m, listed - left);
      }
      assert listed - left == listed;
    }

    /** A message while something is in flight. */
    method HandleReceiving(s: PeerSession, msg: Message) returns (completed: Option<(nat, Bytes)>, ghost pick: nat)
      requires Valid() && InTable(s) && FromWire(msg)
      modifies this`doneEvent, s, pm`pending, pm`peerPieces, pm.pieces
      ensures Valid() && InTable(s)
      ensures var l := OnReceiving(pm.sha1, old(pm.View()), old(s.View()), msg, pick);
              Reached(s, l, old(doneEvent)) && completed == l.completed
    {
      hide Top, OnBlock, Manager.IsDone, Manager.Release;
      completed, pick := None, 0;
      match msg {
        case Piece(i, begin, block) =>
          completed, pick := HandleBlock(s, i, begin, block);
          return;
        case Choke =>
          var listed := s.ListPieces();
          ReleasePieces(listed);
          s.inFlight, s.active, s.phase := {}, [], Closing;
          return;
        case Have(i) => pm.OnPeerHave(s.peer, i);
        case _ =>
      }
      ghost var m := pm.View();
      pick := DownloadLoop(s);
      TopCompletesNothing(m, old(s.View()), pick);
    }

    /** The pool of the step system that this pool is in, as far as session `id` goes. */
    ghost predicate Mirrors(s: PeerSession, c: Config, st: Pool, id: nat)
      reads this, pm, pm.pieces, s
    {
      && c.sha1 == pm.sha1 && st.mgr == pm.View() && st.done == doneEvent
      && id in st.sessions && st.sessions[id] == s.View()
    }

    /** Any message at any of the three places a session receives one: the step `Deliver`. */
    method Receive(s: PeerSession, msg: Message, ghost c: Config, ghost st: Pool, ghost id: nat)
        returns (completed: Option<(nat, Bytes)>, ghost ev: Event)
      requires Valid() && InTable(s) && Mirrors(s, c, st, id) && FromWire(msg)
      requires s.phase.Opening? || s.phase.Idle? || s.phase.Receiving?
      modifies this`doneEvent, s, pm`pending, pm`peerPieces, pm.pieces
      ensures Valid() && InTable(s)
      ensures ev.Deliver? && ev.id == id && ev.msg == msg && Enabled(c, st, ev)
      ensures completed == LocalStep(c, st, ev).completed
      ensures completed.None? ==> Mirrors(s, c, Next(c, st, ev), id)
      ensures completed.Some? ==>
                && Next(c, st, ev).mgr == pm.View() && Next(c, st, ev).done == doneEvent
                && Next(c, st, ev).sessions[id] == s.View().(phase := Writing(|st.jobs|))
    {
      hide Top, OnOpening, OnIdle, OnReceiving, Manager.IsDone, Manager.Release;
      ghost var pick: nat;
      completed := None;
      OnlyBlocksComplete(st.mgr, s.View(), msg);
      if s.phase.Opening? {
        pick := HandleOpening(s, msg);
      } else if s.phase.Idle? {
        pick := HandleIdle(s, msg);
      } else {
        completed, pick := HandleReceiving(s, msg);
      }
      ev := Deliver(id, msg, pick);
    }

    /** A request has been written to the socket. */
    method RequestSent(s: PeerSession) returns (ghost pick: nat)
      requires Valid() && InTable(s) && s.phase.Sending?
      modifies this`doneEvent, s, pm`pending, pm.pieces
      ensures Valid() && InTable(s)
      ensures var sent := old(s.View()).(inFlight := old(s.inFlight) + {(old(s.phase.piece), old(s.phase.offset))});
              Reached(s, Fill(old(pm.View()), sent, pick), old(doneEvent))
    {
      s.inFlight := s.inFlight + {(s.phase.piece, s.phase.offset)};
      pick := FillPipeline(s);
    }

    /** `_disconnect`, once it holds the lock. */
    method Disconnect(s: PeerSession)
      requires Valid()
      modifies this`sessions, s`phase, pm`pending, pm.pieces
      ensures Valid()
      ensures pm.View() == old(pm.View()).Release(old(s.View()).Listed())
      ensures sessions == old(sessions) - {s.key}
      ensures s.View() == old(s.View()).(phase := Phase.Closed)
    {
      hide Manager.Release;
      sessions := sessions - {s.key};
      var listed := s.ListPieces();
      ReleasePieces(listed);
      s.phase := Phase.Closed;
    }
  }
}
