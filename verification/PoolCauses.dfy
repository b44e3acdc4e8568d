/**
 Cause and effect of one step of a session, peers being arbitrary: when it ends in closing the
 session, what it waits for otherwise, which piece it takes, and what becomes of the peers' news.
 Everything is read off the event and the states before and after it.
 */
module PoolCauses {
  import opened Basics
  import opened Bits
  import opened PieceModel
  import opened PieceAssembly
  import opened ManagerModel
  import opened PeerProtocol
  import opened PoolModel
  import opened PoolSafety

  // ---------------------------------------------------------------------------
  // The loop
  // ---------------------------------------------------------------------------

  /** Every block that these pieces miss has been asked for. */
  ghost predicate AllAsked(m: Manager, active: seq<nat>, inFlight: set<(nat, int)>) {
    forall i, o :: i in active && i < |m.pieces| && o in MissingOffsets(m.pieces[i]) ==> (i, o) in inFlight
  }

  /** There is room for a request and nothing to ask for among the session's pieces. */
  ghost predicate WantsPiece(m: Manager, s: Session) {
    |s.inFlight| < 5 && AllAsked(m, s.active, s.inFlight)
  }

  /** The lowest block still to ask for of the first of these pieces that has one: here the k-th. */
  ghost predicate FirstToAsk(m: Manager, active: seq<nat>, inFlight: set<(nat, int)>, k: nat, o: int) {
    && k < |active| && active[k] < |m.pieces| && AllAsked(m, active[..k], inFlight)
    && LowestToAsk(m, inFlight, active[k], o)
  }

  ghost predicate LowestToAsk(m: Manager, inFlight: set<(nat, int)>, i: nat, o: int)
    requires i < |m.pieces|
  {
    && o in MissingOffsets(m.pieces[i]) && (i, o) !in inFlight
    && forall p :: p in MissingOffsets(m.pieces[i]) && (i, p) !in inFlight ==> o <= p
  }

  /** The request being written: for that block, 16 KB or up to the end of the piece. */
  ghost predicate AsksInOrder(m: Manager, s: Session)
    requires s.phase.Sending?
  {
    && s.phase.piece < |m.pieces|
    && s.phase.size == Min(16384, m.pieces[s.phase.piece].length - s.phase.offset)
    && exists k: nat :: FirstToAsk(m, s.active, s.inFlight, k, s.phase.offset) && s.active[k] == s.phase.piece
  }

  predicate OffersPastTable(m: Manager, peer: PeerId) {
    exists i :: i in m.Available(peer) && i >= |m.pieces|
  }

  /** No piece that could be taken instead is offered by fewer peers. */
  ghost predicate RarestOffered(m: Manager, peer: PeerId, i: nat) {
    && i in m.Available(peer) && i < |m.pieces|
    && forall j :: j in m.Available(peer) && j < |m.pieces| && m.pieces[j].state == NEEDED && j !in m.pending
         ==> m.Rarity(i) <= m.Rarity(j)
  }

  /** One piece is taken, when all that the others miss has been asked for, and it is a rarest one. */
  ghost predicate TakesOne(m: Manager, s: Session, l: Local) {
    && |l.session.active| == |s.active| + 1
    && l.session.active == s.active + [l.session.active[|s.active|]]
    && var i := l.session.active[|s.active|];
       && i < |m.pieces| && m.pieces[i].state == NEEDED && l.mgr.pieces == m.pieces[i := m.pieces[i].(state := PENDING)]
       && RarestOffered(l.mgr, s.peer, i)
       && |s.inFlight| < 5 && AllAsked(m, s.active, s.inFlight)
  }

  ghost predicate TakesAtMostOne(m: Manager, s: Session, l: Local) {
    || (l.session.active == s.active && l.mgr == m)
    || TakesOne(m, s, l)
  }

  /** What is in flight, and all of the session but its phase and its list, stays. */
  ghost predicate RunsOn(m: Manager, s: Session, l: Local) {
    && l.completed.None?
    && l.session == s.(phase := l.session.phase, active := l.session.active)
    && l.mgr.peerPieces == m.peerPieces && |l.mgr.pieces| == |m.pieces|
    && TakesAtMostOne(m, s, l)
  }

  /** The loop ends with the session closed for a reason, asking for a block it owes itself, or waiting. */
  ghost predicate EndsWell(l: Local, finished: bool) {
    var m, s := l.mgr, l.session;
    && (s.phase.Closing? <==> finished || (WantsPiece(m, s) && OffersPastTable(m, s.peer)))
    && (s.phase.Sending? <==> !s.phase.Closing? && |s.inFlight| < 5 && !AllAsked(m, s.active, s.inFlight))
    && (s.phase.Idle? <==> !s.phase.Closing? && !s.phase.Sending? && s.inFlight == {})
    && (s.phase.Receiving? <==> !s.phase.Closing? && !s.phase.Sending? && s.inFlight != {})
    && (s.phase.Sending? ==> AsksInOrder(m, s))
  }

  lemma SameOffsets(p: PieceView, q: PieceView)
    requires p.length == q.length && p.blocks == q.blocks
    ensures MissingOffsets(p) == MissingOffsets(q)
  {}

  lemma ClaimAsked(m: Manager, active: seq<nat>, inFlight: set<(nat, int)>, i: nat)
    requires i < |m.pieces|
    ensures AllAsked(m.Claim(i), active + [i], inFlight) <==>
              AllAsked(m, active, inFlight) && forall o :: o in MissingOffsets(m.pieces[i]) ==> (i, o) in inFlight
  {
    hide MissingOffsets;
    forall j: nat | j < |m.pieces| ensures MissingOffsets(m.Claim(i).pieces[j]) == MissingOffsets(m.pieces[j]) {
      SameOffsets(m.Claim(i).pieces[j], m.pieces[j]);
    }
    if AllAsked(m.Claim(i), active + [i], inFlight) {
      assert i in active + [i];
    }
  }

  lemma ClaimedIsRarest(m: Manager, peer: PeerId, i: nat)
    requires m.IsRarest(peer, i)
    ensures RarestOffered(m.Claim(i), peer, i)
  {
    hide Manager.Rarity;
    var m' := m.Claim(i);
    forall j ensures m'.Rarity(j) == m.Rarity(j) {
      SameRarity(m, m', j);
    }
  }

  lemma SameRarity(m: Manager, m': Manager, j: nat)
    requires m'.peerPieces == m.peerPieces
    ensures m'.Rarity(j) == m.Rarity(j)
  {}

  lemma NewPiece(m: Manager, s: Session, i: nat, l: Local)
    requires m.IsRarest(s.peer, i) && |s.inFlight| < 5 && AllAsked(m, s.active, s.inFlight)
    requires l.mgr == m.Claim(i) && l.completed.None? && l.session == s.(phase := l.session.phase, active := s.active + [i])
    ensures RunsOn(m, s, l)
  {
    hide AllAsked, AsksInOrder, Manager.Rarity;
    ClaimedIsRarest(m, s.peer, i);
  }

  lemma FillRuns(m: Manager, s: Session, pick: nat)
    ensures RunsOn(m, s, Fill(m, s, pick))
  {
    hide NextRequest, Unrequested, AllAsked, Manager.IsDone, TakesOne, MissingOffsets;
    NextRequestExact(m, s.active, s.inFlight);
    if |s.inFlight| < 5 && NextRequest(m, s.active, s.inFlight).None? && !m.SelectRaises(s.peer) && m.Candidates(s.peer) != {} {
      AskedAll(m, s);
      NewPiece(m, s, Choose(m, s.peer, pick), Fill(m, s, pick));
    }
  }

  lemma AskedAll(m: Manager, s: Session)
    ensures NextRequest(m, s.active, s.inFlight).None? <==> AllAsked(m, s.active, s.inFlight)
  {
    hide NextRequest, MissingOffsets;
    NextRequestExact(m, s.active, s.inFlight);
  }

  lemma {:induction false} FirstIsLowest(missing: seq<Block>, i: nat, inFlight: set<(nat, int)>)
    requires forall a, b :: 0 <= a < b < |missing| ==> missing[a].offset < missing[b].offset
    requires Unrequested(missing, i, inFlight) != []
    ensures forall b :: b in missing && (i, b.offset) !in inFlight ==> Unrequested(missing, i, inFlight)[0].offset <= b.offset
  {
    if (i, missing[0].offset) in inFlight {
      FirstIsLowest(missing[1..], i, inFlight);
    }
  }

  lemma FirstUnrequestedIsLowest(m: Manager, i: nat, inFlight: set<(nat, int)>)
    requires i < |m.pieces| && Unrequested(m.pieces[i].MissingBlocks(), i, inFlight) != []
    ensures var b := Unrequested(m.pieces[i].MissingBlocks(), i, inFlight)[0];
            LowestToAsk(m, inFlight, i, b.offset) && b.size == Min(16384, m.pieces[i].length - b.offset)
  {
    hide Unrequested, MissingFrom, MissingOffsets;
    var p := m.pieces[i];
    FirstUnrequested(p, i, inFlight);
    MissingExact(p);
    FirstIsLowest(p.MissingBlocks(), i, inFlight);
    forall o | o in MissingOffsets(p) && (i, o) !in inFlight
      ensures Unrequested(p.MissingBlocks(), i, inFlight)[0].offset <= o
    {
      assert Block(o, BlockSize(p.length, o)) in p.MissingBlocks();
    }
  }

  lemma LaterInList(m: Manager, active: seq<nat>, inFlight: set<(nat, int)>, j: nat, o: int)
    requires active != [] && FirstToAsk(m, active[1..], inFlight, j, o)
    requires active[0] < |m.pieces| ==> forall p :: p in MissingOffsets(m.pieces[active[0]]) ==> (active[0], p) in inFlight
    ensures FirstToAsk(m, active, inFlight, j + 1, o)
  {
    hide MissingOffsets, LowestToAsk;
    assert active[..j + 1] == [active[0]] + active[1..][..j];
  }

  lemma NothingBefore(m: Manager, active: seq<nat>, inFlight: set<(nat, int)>)
    ensures AllAsked(m, active[..0], inFlight)
  {}

  /** The scan takes pieces and blocks in order. */
  lemma {:induction false} NextRequestFirst(m: Manager, active: seq<nat>, inFlight: set<(nat, int)>) returns (k: nat)
    requires NextRequest(m, active, inFlight).Some?
    ensures var r := NextRequest(m, active, inFlight).value;
            FirstToAsk(m, active, inFlight, k, r.1.offset) && r.0 == active[k] < |m.pieces|
            && r.1.size == Min(16384, m.pieces[r.0].length - r.1.offset)
  {
    hide MissingFrom, MissingOffsets, LowestToAsk, AllAsked, Unrequested;
    var i := active[0];
    NothingBefore(m, active, inFlight);
    if i < |m.pieces| && Unrequested(m.pieces[i].MissingBlocks(), i, inFlight) != [] {
      k := 0;
      FirstUnrequestedIsLowest(m, i, inFlight);
    } else {
      if i < |m.pieces| {
        FirstUnrequested(m.pieces[i], i, inFlight);
      }
      var j := NextRequestFirst(m, active[1..], inFlight);
      k := j + 1;
      LaterInList(m, active, inFlight, j, NextRequest(m, active[1..], inFlight).value.1.offset);
    }
  }

  lemma FillEndsWell(m: Manager, s: Session, pick: nat)
    requires s.inFlight == {} ==> !m.IsDone()
    ensures EndsWell(Fill(m, s, pick), false)
  {
    hide NextRequest, Unrequested, AllAsked, Manager.IsDone, MissingOffsets, Wait, Manager.Candidates, FirstToAsk;
    NextRequestExact(m, s.active, s.inFlight);
    AskedAll(m, s);
    if NextRequest(m, s.active, s.inFlight).Some? {
      var k := NextRequestFirst(m, s.active, s.inFlight);
    }
    if |s.inFlight| >= 5 || (AllAsked(m, s.active, s.inFlight) && !OffersPastTable(m, s.peer)) {
      WaitEndsWell(m, s);
    }
    if |s.inFlight| < 5 && NextRequest(m, s.active, s.inFlight).None? && !m.SelectRaises(s.peer) && m.Candidates(s.peer) != {} {
      var i := Choose(m, s.peer, pick);
      IsCandidate(m, s.peer, i);
      hide Choose, Manager.Claim, EndsWell, Manager.IsRarest;
      var blocks := Unrequested(m.pieces[i].MissingBlocks(), i, s.inFlight);
      if blocks == [] {
        NothingNew(m, s, i);
      } else {
        AsksFirst(m, s, i, blocks[0]);
      }
    }
  }

  lemma IsCandidate(m: Manager, peer: PeerId, i: nat)
    requires m.IsRarest(peer, i)
    ensures i < |m.pieces|
  {}

  lemma WaitEndsWell(m: Manager, s: Session)
    requires s.inFlight == {} ==> !m.IsDone()
    requires |s.inFlight| < 5 ==> AllAsked(m, s.active, s.inFlight) && !OffersPastTable(m, s.peer)
    ensures EndsWell(Wait(m, s), false)
  {
    hide AllAsked, AsksInOrder, Manager.IsDone;
  }

  lemma NothingNew(m: Manager, s: Session, i: nat)
    requires i < |m.pieces| && |s.inFlight| < 5 && AllAsked(m, s.active, s.inFlight) && !OffersPastTable(m, s.peer)
    requires Unrequested(m.pieces[i].MissingBlocks(), i, s.inFlight) == []
    ensures EndsWell(Wait(m.Claim(i), s.(active := s.active + [i])), false)
  {
    hide AllAsked, AsksInOrder, Wait, EndsWell, MissingOffsets, Unrequested;
    FirstUnrequested(m.pieces[i], i, s.inFlight);
    ClaimAsked(m, s.active, s.inFlight, i);
    ClaimNotDone(m, i);
    assert m.Claim(i).Available(s.peer) == m.Available(s.peer);
    WaitEndsWell(m.Claim(i), s.(active := s.active + [i]));
  }

  lemma AsksFirst(m: Manager, s: Session, i: nat, b: Block)
    requires i < |m.pieces| && |s.inFlight| < 5 && !OffersPastTable(m, s.peer) && AllAsked(m, s.active, s.inFlight)
    requires Unrequested(m.pieces[i].MissingBlocks(), i, s.inFlight) != []
    requires b == Unrequested(m.pieces[i].MissingBlocks(), i, s.inFlight)[0]
    ensures EndsWell(Local(m.Claim(i), s.(active := s.active + [i], phase := Sending(i, b.offset, b.size)), false, None), false)
  {
    hide AllAsked, MissingOffsets, Unrequested;
    FirstUnrequestedIsLowest(m, i, s.inFlight);
    ClaimAsked(m, s.active, s.inFlight, i);
    SameOffsets(m.Claim(i).pieces[i], m.pieces[i]);
    ClaimKeepsAsked(m, s.active, s.inFlight, i);
    assert (s.active + [i])[..|s.active|] == s.active;
    assert FirstToAsk(m.Claim(i), s.active + [i], s.inFlight, |s.active|, b.offset);
  }

  lemma ClaimKeepsAsked(m: Manager, active: seq<nat>, inFlight: set<(nat, int)>, i: nat)
    requires i < |m.pieces| && AllAsked(m, active, inFlight)
    ensures AllAsked(m.Claim(i), active, inFlight)
  {
    hide MissingOffsets;
    forall j: nat | j < |m.pieces| ensures MissingOffsets(m.Claim(i).pieces[j]) == MissingOffsets(m.pieces[j]) {
      SameOffsets(m.Claim(i).pieces[j], m.pieces[j]);
    }
  }

  lemma ClaimNotDone(m: Manager, i: nat)
    requires i < |m.pieces|
    ensures !m.Claim(i).IsDone()
  {
    assert m.Claim(i).pieces[i].state == PENDING;
  }

  lemma TopEndsWell(m: Manager, s: Session, pick: nat)
    ensures var l := Top(m, s, pick);
            EndsWell(l, l.mgr.IsDone()) && l.done == l.mgr.IsDone() && RunsOn(m, s, l)
  {
    hide Fill, AllAsked, MissingOffsets, TakesOne, Manager.IsDone;
    if !m.IsDone() {
      FillEndsWell(m, s, pick);
      FillRuns(m, s, pick);
      StillNotDone(m, s, Fill(m, s, pick));
      FillNotDone(m, s, pick);
    }
  }

  lemma FillNotDone(m: Manager, s: Session, pick: nat)
    requires s.inFlight == {} ==> !m.IsDone()
    ensures !Fill(m, s, pick).done
  {
    hide NextRequest, Unrequested, Manager.IsDone;
    if m.Candidates(s.peer) != {} {
      IsCandidate(m, s.peer, Choose(m, s.peer, pick));
      ClaimNotDone(m, Choose(m, s.peer, pick));
    }
  }

  lemma StillNotDone(m: Manager, s: Session, l: Local)
    requires RunsOn(m, s, l) && !m.IsDone()
    ensures !l.mgr.IsDone()
  {
    hide AllAsked, AsksInOrder, RarestOffered;
    if l.mgr != m {
      var i := l.session.active[|s.active|];
      assert l.mgr.pieces[i].state == PENDING;
    }
  }

  // ---------------------------------------------------------------------------
  // The step
  // ---------------------------------------------------------------------------

  /** There is no such piece, or the block does not lie inside it. */
  predicate BlockRefused(m: Manager, i: nat, begin: nat, block: Bytes) {
    i >= |m.pieces| || begin >= m.pieces[i].length || begin + |block| > m.pieces[i].length
  }

  predicate KeepsPieceOpen(m: Manager, m': Manager, i: int, begin: int, block: Bytes) {
    0 <= i < |m'.pieces| && 0 <= begin && !BlockRefused(m, i, begin, block) && m'.pieces[i].state != COMPLETE
  }

  /** The step comes to the head of the download loop: `m` is the table before it, `m'` the table after it. */
  predicate ReachesHead(m: Manager, m': Manager, s: Session, ev: Event) {
    match ev
    case Timeout(_, _) => s.phase.Idle?
    case Returned(_, _) => true
    case Deliver(_, msg, _) =>
      if s.phase.Opening? then msg.Unchoke?
      else if s.phase.Idle? then !msg.Choke?
      else !msg.Choke? && (msg.Piece? ==> KeepsPieceOpen(m, m', msg.index, msg.begin, msg.block))
    case _ => false
  }

  /** The step completes a piece. */
  predicate CompletesPiece(m: Manager, m': Manager, s: Session, ev: Event) {
    && ev.Deliver? && s.phase.Receiving? && ev.msg.Piece? && ev.msg.begin >= 0 && 0 <= ev.msg.index < |m'.pieces|
    && !BlockRefused(m, ev.msg.index, ev.msg.begin, ev.msg.block) && m'.pieces[ev.msg.index].state == COMPLETE
  }

  /** The session ends whatever the tables say. */
  predicate Interrupted(s: Session, ev: Event) {
    match ev
    case Fail(_) => true
    case Timeout(_, _) => !s.phase.Idle?
    case Deliver(_, msg, _) => if s.phase.Opening? then s.phase.left <= 1 && !msg.Unchoke? else msg.Choke?
    case _ => false
  }

  predicate Refused(m: Manager, s: Session, ev: Event) {
    && ev.Deliver? && s.phase.Receiving? && ev.msg.Piece? && FromWire(ev.msg)
    && BlockRefused(m, ev.msg.index, ev.msg.begin, ev.msg.block)
  }

  /** Why a step closes its session: `s` is the session before it, `s'` after it. */
  ghost predicate Cause(m: Manager, m': Manager, s: Session, s': Session, ev: Event) {
    || Interrupted(s, ev)
    || Refused(m, s, ev)
    || (ReachesHead(m, m', s, ev) && m'.IsDone())
    || ((ReachesHead(m, m', s, ev) || ev.Sent?) && WantsPiece(m', s') && OffersPastTable(m', s.peer))
  }

  /** Where the step leaves its session. */
  ghost predicate NextAwait(m: Manager, m': Manager, s: Session, s': Session, ev: Event) {
    var running := (ReachesHead(m, m', s, ev) || ev.Sent?) && !Cause(m, m', s, s', ev);
    && (s'.phase.Closing? <==> Cause(m, m', s, s', ev))
    && (s'.phase.Opening? <==> ev.Deliver? && s.phase.Opening? && s.phase.left > 1 && !ev.msg.Unchoke?)
    && (s'.phase.Opening? ==> s'.phase.left == s.phase.left - 1)
    && (s'.phase.Writing? <==> CompletesPiece(m, m', s, ev))
    && (s'.phase.Sending? <==> running && |s'.inFlight| < 5 && !AllAsked(m', s'.active, s'.inFlight))
    && (s'.phase.Sending? ==> AsksInOrder(m', s'))
    && (s'.phase.Idle? <==> running && s'.inFlight == {} && AllAsked(m', s'.active, s'.inFlight))
    && (s'.phase.Receiving? <==> running && s'.inFlight != {} && (|s'.inFlight| < 5 ==> AllAsked(m', s'.active, s'.inFlight)))
  }

  ghost predicate LocalEnds(m: Manager, s: Session, l: Local, ev: Event) {
    var s' := if l.completed.Some? then l.session.(phase := Writing(0)) else l.session;
    && NextAwait(m, l.mgr, s, s', ev)
    && (l.done <==> ReachesHead(m, l.mgr, s, ev) && l.mgr.IsDone())
    && (l.completed.Some? <==> CompletesPiece(m, l.mgr, s, ev))
  }

  lemma HeadEnds(m: Manager, s: Session, l: Local, ev: Event)
    requires ReachesHead(m, l.mgr, s, ev) && !Interrupted(s, ev) && !Refused(m, s, ev) && !CompletesPiece(m, l.mgr, s, ev)
    requires EndsWell(l, l.mgr.IsDone()) && l.done == l.mgr.IsDone() && l.completed.None? && l.session.peer == s.peer
    requires !(l.session.phase.Opening? || l.session.phase.Writing?)
    requires !(ev.Deliver? && s.phase.Opening? && !ev.msg.Unchoke?)
    ensures LocalEnds(m, s, l, ev)
  {
    hide AllAsked, AsksInOrder, Manager.IsDone, ReachesHead, CompletesPiece, Interrupted, Refused;
    assert l.session.inFlight == {} ==> |l.session.inFlight| == 0;
  }

  lemma TopEnds(m0: Manager, s0: Session, m: Manager, s: Session, pick: nat, ev: Event)
    requires s.peer == s0.peer
    requires var m' := Top(m, s, pick).mgr;
             ReachesHead(m0, m', s0, ev) && !Interrupted(s0, ev) && !Refused(m0, s0, ev) && !CompletesPiece(m0, m', s0, ev)
    requires !(ev.Deliver? && s0.phase.Opening? && !ev.msg.Unchoke?)
    ensures LocalEnds(m0, s0, Top(m, s, pick), ev)
  {
    hide AllAsked, AsksInOrder, Manager.IsDone, ReachesHead, CompletesPiece, Interrupted, Refused, Top, MissingOffsets;
    TopEndsWell(m, s, pick);
    HeadEnds(m0, s0, Top(m, s, pick), ev);
  }

  lemma SentEnds(m: Manager, s: Session, ev: Event)
    requires ev.Sent? && s.phase.Sending?
    ensures LocalEnds(m, s, Fill(m, s.(inFlight := s.inFlight + {(s.phase.piece, s.phase.offset)}), ev.pick), ev)
  {
    hide AllAsked, AsksInOrder, Manager.IsDone, Fill, MissingOffsets;
    var s1 := s.(inFlight := s.inFlight + {(s.phase.piece, s.phase.offset)});
    assert (s.phase.piece, s.phase.offset) in s1.inFlight;
    FillEndsWell(m, s1, ev.pick);
    FillRuns(m, s1, ev.pick);
    FillNotDone(m, s1, ev.pick);
  }

  lemma OpeningEnds(m: Manager, s: Session, ev: Event)
    requires ev.Deliver? && s.phase.Opening? && s.phase.left > 0 && FromWire(ev.msg)
    ensures LocalEnds(m, s, OnOpening(m, s, s.phase.left, ev.msg, ev.pick), ev)
  {
    hide AllAsked, AsksInOrder, Manager.IsDone, Top, MissingOffsets, Manager.OnPeerHave, Manager.OnPeerBitfield;
    if ev.msg.Unchoke? {
      TopEnds(m, s, m, s, ev.pick, ev);
    }
  }

  lemma IdleEnds(m: Manager, s: Session, ev: Event)
    requires ev.Deliver? && s.phase.Idle? && FromWire(ev.msg)
    ensures LocalEnds(m, s, OnIdle(m, s, ev.msg, ev.pick), ev)
  {
    hide AllAsked, AsksInOrder, Manager.IsDone, Top, MissingOffsets, Manager.OnPeerHave, Manager.OnPeerBitfield, LocalEnds;
    match ev.msg
    case Have(i) => TopEnds(m, s, m.OnPeerHave(s.peer, i), s, ev.pick, ev);
    case Bitfield(bits) => TopEnds(m, s, m.OnPeerBitfield(s.peer, bits), s, ev.pick, ev);
    case Choke => ChokeEnds(m, s, m, s, ev);
    case _ => TopEnds(m, s, m, s, ev.pick, ev);
  }

  lemma ChokeEnds(m: Manager, s: Session, m1: Manager, s1: Session, ev: Event)
    requires Interrupted(s, ev) && !ReachesHead(m, m1, s, ev) && !ev.Sent? && !CompletesPiece(m, m1, s, ev)
    requires !(ev.Deliver? && s.phase.Opening? && s.phase.left > 1)
    ensures LocalEnds(m, s, Local(m1, s1.(phase := Closing), false, None), ev)
  {
    hide AllAsked, AsksInOrder, Manager.IsDone, ReachesHead, CompletesPiece, Interrupted, Refused;
  }

  lemma ReceivingEnds(sha1: Hash, m: Manager, s: Session, ev: Event)
    requires ManagerOk(sha1, m) && ev.Deliver? && s.phase.Receiving? && FromWire(ev.msg)
    ensures LocalEnds(m, s, OnReceiving(sha1, m, s, ev.msg, ev.pick), ev)
  {
    hide AllAsked, AsksInOrder, Manager.IsDone, Top, MissingOffsets, Manager.OnPeerHave, Manager.Release, LocalEnds, OnBlock, ManagerOk;
    match ev.msg
    case Have(i) => TopEnds(m, s, m.OnPeerHave(s.peer, i), s, ev.pick, ev);
    case Piece(i, begin, block) => BlockEnds(sha1, m, s, ev);
    case Choke => ChokeEnds(m, s, m.Release(s.Listed()), s.(inFlight := {}, active := []), ev);
    case _ => TopEnds(m, s, m, s, ev.pick, ev);
  }

  lemma Stored(sha1: Hash, m: Manager, i: nat, begin: nat, block: Bytes)
    ensures m.AddBlock(sha1, i, begin, block).Err? <==> BlockRefused(m, i, begin, block)
  {
    hide Assembled;
  }

  lemma StateStays(m: Manager, s: Session, pick: nat, i: nat)
    requires i < |m.pieces|
    ensures i < |Top(m, s, pick).mgr.pieces| && (Top(m, s, pick).mgr.pieces[i].state == COMPLETE <==> m.pieces[i].state == COMPLETE)
  {
    hide Top, AllAsked, EndsWell, RarestOffered;
    TopEndsWell(m, s, pick);
  }

  lemma BlockEnds(sha1: Hash, m: Manager, s: Session, ev: Event)
    requires ManagerOk(sha1, m) && ev.Deliver? && s.phase.Receiving? && FromWire(ev.msg) && ev.msg.Piece?
    ensures LocalEnds(m, s, OnBlock(sha1, m, s, ev.msg.index, ev.msg.begin, ev.msg.block, ev.pick), ev)
  {
    hide AllAsked, AsksInOrder, Manager.IsDone, Top, MissingOffsets, RemoveFirst, BlockRefused;
    hide Manager.AddBlock, Manager.Completes, Assembled, ManagerOk;
    var i, begin, block := ev.msg.index, ev.msg.begin, ev.msg.block;
    var s1 := s.(inFlight := s.inFlight - {(i, begin)});
    Stored(sha1, m, i, begin, block);
    if m.AddBlock(sha1, i, begin, block).Ok? {
      AddBlockOk(sha1, m, i, begin, block);
      InTable(sha1, m, i, begin, block);
      var m' := m.AddBlock(sha1, i, begin, block).value;
      if !m.Completes(sha1, i, begin, block) {
        var s2 := if m'.pieces[i].state == NEEDED then s1.(active := RemoveFirst(s1.active, i)) else s1;
        StateStays(m', s2, ev.pick, i);
        hide LocalEnds;
        TopEnds(m, s, m', s2, ev.pick, ev);
      }
    }
  }

  lemma InTable(sha1: Hash, m: Manager, i: nat, begin: nat, block: Bytes)
    requires m.AddBlock(sha1, i, begin, block).Ok?
    ensures i < |m.pieces|
  {
    hide Assembled;
  }

  lemma LocalStepEnds(c: Config, st: Pool, ev: Event)
    requires PoolOk(c, st) && Enabled(c, st, ev) && IsLocal(ev)
    ensures LocalEnds(st.mgr, st.sessions[ev.id], LocalStep(c, st, ev), ev)
  {
    hide Top, Fill, OnOpening, OnIdle, OnReceiving, ManagerOk, NoOrphan, SameShape, JobOk, AllAsked, LocalEnds;
    var m, s := st.mgr, st.sessions[ev.id];
    assert SessionOk(m, s);
    match ev
    case Deliver(_, msg, pick) =>
      if s.phase.Opening? {
        OpeningEnds(m, s, ev);
      } else if s.phase.Idle? {
        IdleEnds(m, s, ev);
      } else {
        ReceivingEnds(c.sha1, m, s, ev);
      }
    case Timeout(_, pick) =>
      if s.phase.Idle? {
        TopEnds(m, s, m, s, pick, ev);
      } else {
        ChokeEnds(m, s, m, s, ev);
      }
    case Returned(_, pick) => TopEnds(m, s, m, s, pick, ev);
    case Sent(_, _) => SentEnds(m, s, ev);
    case Fail(_) => ChokeEnds(m, s, m, s, ev);
  }

  lemma ApplyEnds(c: Config, st: Pool, id: nat, l: Local, ev: Event)
    requires id in st.sessions && LocalEnds(st.mgr, st.sessions[id], l, ev)
    ensures var st' := Apply(c, st, id, l);
            NextAwait(st.mgr, st'.mgr, st.sessions[id], st'.sessions[id], ev)
            && (st'.done <==> st.done || (ReachesHead(st.mgr, st'.mgr, st.sessions[id], ev) && st'.mgr.IsDone()))
  {
    hide AllAsked, AsksInOrder, Manager.IsDone, ReachesHead, CompletesPiece, Interrupted, Refused, StartJob;
  }

  /**
   One step of a session, whatever its peer sends: it ends in closing exactly if there is a cause, and
   otherwise what it waits for next follows from what is in flight and what is missing. The event is
   set exactly if the loop head finds every piece COMPLETE.
   */
  lemma StepEnds(c: Config, st: Pool, ev: Event)
    requires PoolOk(c, st) && Enabled(c, st, ev) && IsLocal(ev)
    ensures var st' := Next(c, st, ev);
            && ev.id in st'.sessions
            && NextAwait(st.mgr, st'.mgr, st.sessions[ev.id], st'.sessions[ev.id], ev)
            && (st'.done <==> st.done || (ReachesHead(st.mgr, st'.mgr, st.sessions[ev.id], ev) && st'.mgr.IsDone()))
  {
    hide LocalStep, PoolOk, LocalEnds, NextAwait, Apply, Manager.IsDone;
    LocalStepEnds(c, st, ev);
    LocalNext(c, st, ev);
    ApplyEnds(c, st, ev.id, LocalStep(c, st, ev), ev);
  }

  // ---------------------------------------------------------------------------
  // What is in flight, what the peers are known to offer, what is taken
  // ---------------------------------------------------------------------------

  /** A written request is in flight, an answered one no longer, and a choke leaves nothing in flight. */
  function Flight(s: Session, ev: Event): set<(nat, int)> {
    if ev.Sent? && s.phase.Sending? then
      s.inFlight + {(s.phase.piece, s.phase.offset)}
    else if ev.Deliver? && s.phase.Receiving? && FromWire(ev.msg) && ev.msg.Piece? then
      s.inFlight - {(ev.msg.index, ev.msg.begin)}
    else if ev.Deliver? && s.phase.Receiving? && ev.msg.Choke? then
      {}
    else
      s.inFlight
  }

  /** A have is added to what its peer offers, a bitfield replaces it, but is ignored while blocks are awaited. */
  function Told(m: Manager, s: Session, ev: Event, peer: PeerId): set<nat> {
    if ev.Deliver? && peer == s.peer && FromWire(ev.msg) && ev.msg.Have? then
      m.Available(peer) + {ev.msg.pieceIndex}
    else if ev.Deliver? && peer == s.peer && ev.msg.Bitfield? && !s.phase.Receiving? then
      set i: nat | i < |m.pieces| && HasPiece(ev.msg.bitfield, i)
    else
      m.Available(peer)
  }

  /** A piece is newly taken when all that the others miss is in flight; no piece left is offered by fewer peers. */
  ghost predicate TakenWell(m': Manager, s: Session, s': Session) {
    forall t :: t in s'.active && t !in s.active ==>
      && Pending(m', t) && RarestOffered(m', s.peer, t)
      && |s'.inFlight| < 5
      && forall i, o :: i in s'.active && i != t && i < |m'.pieces| && o in MissingOffsets(m'.pieces[i]) ==> (i, o) in s'.inFlight
  }

  predicate AwaitsBlockOf(s: Session, j: nat) {
    exists r :: r in s.inFlight && r.0 == j
  }

  /** An accepted block is stored and a full piece checked; a choke empties what the session listed and has not finished. */
  ghost function Treated(sha1: Hash, m: Manager, s: Session, ev: Event, j: nat): PieceView
    requires j < |m.pieces|
  {
    var p := m.pieces[j];
    if !ev.Deliver? || !s.phase.Receiving? then
      p
    else if FromWire(ev.msg) && ev.msg.Piece? && ev.msg.index == j && p.AddBlock(ev.msg.begin, ev.msg.block).Ok? then
      p.AddBlock(ev.msg.begin, ev.msg.block).value.Verify(sha1)
    else if ev.msg.Choke? && (j in s.active || AwaitsBlockOf(s, j)) && p.state != COMPLETE then
      p.(state := NEEDED, blocks := map[], received := 0)
    else
      p
  }

  /** As it was treated, or then taken by the session. */
  predicate PieceAfter(p': PieceView, p: PieceView, active: bool) {
    p' == p || (p.state == NEEDED && p' == p.(state := PENDING) && active)
  }

  ghost predicate Effects(sha1: Hash, m: Manager, m': Manager, s: Session, s': Session, ev: Event) {
    && |m'.pieces| == |m.pieces|
    && s'.inFlight == Flight(s, ev)
    && (forall q :: m'.Available(q) == Told(m, s, ev, q))
    && (forall j: nat :: j < |m.pieces| ==> PieceAfter(m'.pieces[j], Treated(sha1, m, s, ev, j), j in s'.active))
    && TakenWell(m', s, s')
  }

  lemma RunsTaken(m: Manager, s: Session, l: Local)
    requires RunsOn(m, s, l)
    ensures TakenWell(l.mgr, s, l.session)
  {
    hide Manager.Rarity, MissingOffsets, RarestOffered;
    if l.mgr != m {
      var t := l.session.active[|s.active|];
      forall j: nat | j < |m.pieces| ensures MissingOffsets(l.mgr.pieces[j]) == MissingOffsets(m.pieces[j]) {
        SameOffsets(l.mgr.pieces[j], m.pieces[j]);
      }
    }
  }

  lemma RunsPieces(m: Manager, s: Session, l: Local)
    requires RunsOn(m, s, l)
    ensures forall j: nat :: j < |m.pieces| ==> PieceAfter(l.mgr.pieces[j], m.pieces[j], j in l.session.active)
  {
    hide AllAsked, AsksInOrder, RarestOffered;
    if l.mgr != m {
      assert l.session.active[|s.active|] in l.session.active;
    }
  }

  lemma RunsEffects(sha1: Hash, m0: Manager, s0: Session, m: Manager, s: Session, l: Local, ev: Event)
    requires RunsOn(m, s, l)
    requires s.peer == s0.peer && s.inFlight == Flight(s0, ev) && |m.pieces| == |m0.pieces|
    requires forall q :: m.Available(q) == Told(m0, s0, ev, q)
    requires forall j: nat :: j < |m0.pieces| ==> m.pieces[j] == Treated(sha1, m0, s0, ev, j)
    requires forall i :: i in s.active ==> i in s0.active
    ensures Effects(sha1, m0, l.mgr, s0, l.session, ev)
  {
    hide TakesOne, Flight, Told, AllAsked, MissingOffsets, RarestOffered;
    RunsTaken(m, s, l);
    RunsPieces(m, s, l);
    hide PieceAfter, Treated;
    assert forall q :: l.mgr.Available(q) == m.Available(q);
    hide RunsOn;
  }

  lemma TopEffects(sha1: Hash, m0: Manager, s0: Session, m: Manager, s: Session, pick: nat, ev: Event)
    requires s.peer == s0.peer && s.inFlight == Flight(s0, ev) && |m.pieces| == |m0.pieces|
    requires forall q :: m.Available(q) == Told(m0, s0, ev, q)
    requires forall j: nat :: j < |m0.pieces| ==> m.pieces[j] == Treated(sha1, m0, s0, ev, j)
    requires forall i :: i in s.active ==> i in s0.active
    ensures Effects(sha1, m0, Top(m, s, pick).mgr, s0, Top(m, s, pick).session, ev)
  {
    hide Top, Flight, Told, EndsWell, RunsOn, Effects;
    TopEndsWell(m, s, pick);
    RunsEffects(sha1, m0, s0, m, s, Top(m, s, pick), ev);
  }

  /** Without a further step of the loop. */
  lemma StopEffects(sha1: Hash, m0: Manager, s0: Session, m: Manager, s: Session, ev: Event)
    requires s.inFlight == Flight(s0, ev) && |m.pieces| == |m0.pieces|
    requires forall q :: m.Available(q) == Told(m0, s0, ev, q)
    requires forall j: nat :: j < |m0.pieces| ==> m.pieces[j] == Treated(sha1, m0, s0, ev, j)
    requires forall i :: i in s.active ==> i in s0.active
    ensures Effects(sha1, m0, m, s0, s, ev)
  {
    hide Flight, Told, RarestOffered;
  }

  lemma NewsTold(m: Manager, s: Session, ev: Event)
    requires ev.Deliver? && FromWire(ev.msg)
    ensures ev.msg.Have? ==> forall q :: m.OnPeerHave(s.peer, ev.msg.pieceIndex).Available(q) == Told(m, s, ev, q)
    ensures ev.msg.Bitfield? && !s.phase.Receiving? ==>
              forall q :: m.OnPeerBitfield(s.peer, ev.msg.bitfield).Available(q) == Told(m, s, ev, q)
  {
    hide HasPiece;
  }

  lemma OpeningEffects(sha1: Hash, m: Manager, s: Session, ev: Event)
    requires ev.Deliver? && FromWire(ev.msg) && s.phase.Opening?
    ensures var l := OnOpening(m, s, s.phase.left, ev.msg, ev.pick);
            Effects(sha1, m, l.mgr, s, l.session, ev)
  {
    hide Top, Effects, Manager.OnPeerHave, Manager.OnPeerBitfield;
    var l := OnOpening(m, s, s.phase.left, ev.msg, ev.pick);
    NewsTold(m, s, ev);
    match ev.msg
    case Unchoke => TopEffects(sha1, m, s, m, s, ev.pick, ev);
    case Have(i) => NewsShape(m, s.peer, i, []); StopEffects(sha1, m, s, l.mgr, l.session, ev);
    case Bitfield(bits) => NewsShape(m, s.peer, 0, bits); StopEffects(sha1, m, s, l.mgr, l.session, ev);
    case _ => StopEffects(sha1, m, s, m, l.session, ev);
  }

  lemma NewsShape(m: Manager, peer: PeerId, i: nat, bits: Bytes)
    ensures m.OnPeerHave(peer, i).pieces == m.pieces && m.OnPeerBitfield(peer, bits).pieces == m.pieces
  {}

  lemma IdleEffects(sha1: Hash, m: Manager, s: Session, ev: Event)
    requires ev.Deliver? && FromWire(ev.msg) && s.phase.Idle?
    ensures var l := OnIdle(m, s, ev.msg, ev.pick);
            Effects(sha1, m, l.mgr, s, l.session, ev)
  {
    hide Top, Effects, Manager.OnPeerHave, Manager.OnPeerBitfield;
    var l := OnIdle(m, s, ev.msg, ev.pick);
    NewsTold(m, s, ev);
    match ev.msg
    case Have(i) => NewsShape(m, s.peer, i, []); TopEffects(sha1, m, s, m.OnPeerHave(s.peer, i), s, ev.pick, ev);
    case Bitfield(bits) => NewsShape(m, s.peer, 0, bits); TopEffects(sha1, m, s, m.OnPeerBitfield(s.peer, bits), s, ev.pick, ev);
    case Choke => StopEffects(sha1, m, s, m, l.session, ev);
    case _ => TopEffects(sha1, m, s, m, s, ev.pick, ev);
  }

  lemma ReceivingEffects(sha1: Hash, m: Manager, s: Session, ev: Event)
    requires ev.Deliver? && FromWire(ev.msg) && s.phase.Receiving?
    ensures var l := OnReceiving(sha1, m, s, ev.msg, ev.pick);
            Effects(sha1, m, l.mgr, s, l.session, ev)
  {
    hide Top, Effects, Manager.OnPeerHave, Manager.OnPeerBitfield, OnBlock, Manager.Release, Treated;
    if !ev.msg.Choke? && !ev.msg.Piece? {
      Untreated(sha1, m, s, ev);
    }
    var l := OnReceiving(sha1, m, s, ev.msg, ev.pick);
    NewsTold(m, s, ev);
    match ev.msg
    case Have(i) => NewsShape(m, s.peer, i, []); TopEffects(sha1, m, s, m.OnPeerHave(s.peer, i), s, ev.pick, ev);
    case Piece(i, begin, block) => BlockEffects(sha1, m, s, ev);
    case Choke =>
      ReleaseTells(m, s.Listed());
      ChokeTreats(sha1, m, s, ev);
      StopEffects(sha1, m, s, l.mgr, l.session, ev);
    case _ => TopEffects(sha1, m, s, m, s, ev.pick, ev);
  }

  lemma ReleaseTells(m: Manager, listed: set<nat>)
    ensures m.Release(listed).peerPieces == m.peerPieces
  {}

  lemma Untreated(sha1: Hash, m: Manager, s: Session, ev: Event)
    requires ev.Deliver? && s.phase.Receiving? ==> !ev.msg.Choke? && !ev.msg.Piece?
    ensures forall j: nat :: j < |m.pieces| ==> Treated(sha1, m, s, ev, j) == m.pieces[j]
  {}

  lemma ChokeTreats(sha1: Hash, m: Manager, s: Session, ev: Event)
    requires ev.Deliver? && s.phase.Receiving? && ev.msg.Choke?
    ensures forall j: nat :: j < |m.pieces| ==> m.Release(s.Listed()).pieces[j] == Treated(sha1, m, s, ev, j)
  {
    forall j: nat ensures j in s.Listed() <==> j in s.active || AwaitsBlockOf(s, j) {}
  }

  lemma BlockTreats(sha1: Hash, m: Manager, s: Session, ev: Event)
    requires ev.Deliver? && FromWire(ev.msg) && s.phase.Receiving? && ev.msg.Piece?
    ensures var r := m.AddBlock(sha1, ev.msg.index, ev.msg.begin, ev.msg.block);
            var m' := if r.Ok? then r.value else m;
            forall j: nat :: j < |m.pieces| ==> m'.pieces[j] == Treated(sha1, m, s, ev, j)
  {
    hide Assembled, PieceView.HashMatches;
  }

  lemma BlockTells(sha1: Hash, m: Manager, i: nat, begin: nat, block: Bytes)
    requires m.AddBlock(sha1, i, begin, block).Ok?
    ensures var m' := m.AddBlock(sha1, i, begin, block).value;
            m'.peerPieces == m.peerPieces && |m'.pieces| == |m.pieces| && i < |m.pieces|
  {
    hide Assembled;
  }

  lemma BlockEffects(sha1: Hash, m: Manager, s: Session, ev: Event)
    requires ev.Deliver? && FromWire(ev.msg) && s.phase.Receiving? && ev.msg.Piece?
    ensures var l := OnBlock(sha1, m, s, ev.msg.index, ev.msg.begin, ev.msg.block, ev.pick);
            Effects(sha1, m, l.mgr, s, l.session, ev)
  {
    hide Top, Effects, Manager.AddBlock, Manager.Completes, Assembled, RemoveFirst;
    var i, begin, block := ev.msg.index, ev.msg.begin, ev.msg.block;
    var l := OnBlock(sha1, m, s, i, begin, block, ev.pick);
    var s1 := s.(inFlight := s.inFlight - {(i, begin)});
    var s2 := s1.(active := RemoveFirst(s1.active, i));
    RemoveFirstKeeps(s.active, i);
    BlockTreats(sha1, m, s, ev);
    hide Treated;
    if m.AddBlock(sha1, i, begin, block).Err? {
      StopEffects(sha1, m, s, m, l.session, ev);
    } else {
      BlockTells(sha1, m, i, begin, block);
      var m' := m.AddBlock(sha1, i, begin, block).value;
      if m.Completes(sha1, i, begin, block) {
        StopEffects(sha1, m, s, m', l.session, ev);
      } else if m'.pieces[i].state == NEEDED {
        TopEffects(sha1, m, s, m', s2, ev.pick, ev);
      } else {
        TopEffects(sha1, m, s, m', s1, ev.pick, ev);
      }
    }
  }

  lemma LocalStepEffects(c: Config, st: Pool, ev: Event)
    requires Enabled(c, st, ev) && IsLocal(ev)
    ensures var l := LocalStep(c, st, ev);
            Effects(c.sha1, st.mgr, l.mgr, st.sessions[ev.id], l.session, ev)
  {
    hide Top, Fill, OnOpening, OnIdle, OnReceiving, Effects, RunsOn;
    var m, s, l := st.mgr, st.sessions[ev.id], LocalStep(c, st, ev);
    match ev
    case Deliver(_, msg, pick) =>
      if s.phase.Opening? {
        OpeningEffects(c.sha1, m, s, ev);
      } else if s.phase.Idle? {
        IdleEffects(c.sha1, m, s, ev);
      } else {
        ReceivingEffects(c.sha1, m, s, ev);
      }
    case Timeout(_, pick) =>
      if s.phase.Idle? {
        TopEffects(c.sha1, m, s, m, s, pick, ev);
      } else {
        StopEffects(c.sha1, m, s, m, l.session, ev);
      }
    case Returned(_, pick) => TopEffects(c.sha1, m, s, m, s, pick, ev);
    case Sent(_, pick) =>
      var s1 := s.(inFlight := s.inFlight + {(s.phase.piece, s.phase.offset)});
      FillRuns(m, s1, pick);
      RunsEffects(c.sha1, m, s, m, s1, l, ev);
    case Fail(_) => StopEffects(c.sha1, m, s, m, l.session, ev);
  }

  /**
   One step of a session, whatever its peer sends: exactly what is in flight, exactly what each peer is
   known to offer, and a piece is taken only when nothing else can be asked for, and then a rarest one.
   */
  lemma StepEffects(c: Config, st: Pool, ev: Event)
    requires Enabled(c, st, ev) && IsLocal(ev)
    ensures var st' := Next(c, st, ev);
            ev.id in st'.sessions && Effects(c.sha1, st.mgr, st'.mgr, st.sessions[ev.id], st'.sessions[ev.id], ev)
  {
    hide LocalStep, Flight, Told, RarestOffered, Pending, MissingOffsets;
    LocalStepEffects(c, st, ev);
    LocalNext(c, st, ev);
  }

  /** A connection made while there is room starts one session, which may take 25 messages before an unchoke. */
  lemma SessionStarts(c: Config, st: Pool, key: Key, id: nat, peer: PeerId)
    requires Enabled(c, st, Insert(key, id, peer))
    ensures var st' := Next(c, st, Insert(key, id, peer));
            if |st.registered| < c.maxPeers then
              && st'.sessions == st.sessions[id := Session(key, peer, Opening(25), {}, [])]
              && st'.registered == st.registered[key := id] && st'.lock == st.lock
            else
              st'.sessions == st.sessions && st'.registered == st.registered && st'.lock.Held?
  {
    hide LocalStep, RunChunk, Apply;
  }

  /** Any other step leaves what the peers are known to offer, and the number of pieces. */
  lemma OtherTells(c: Config, st: Pool, ev: Event)
    requires Enabled(c, st, ev) && !IsLocal(ev)
    ensures Next(c, st, ev).mgr.peerPieces == st.mgr.peerPieces && |Next(c, st, ev).mgr.pieces| == |st.mgr.pieces|
  {
    hide Next, RunChunk, Manager.Release;
    if ev.Release? {
      ReleaseNext(c, st, ev.id);
      ReleaseTells(st.mgr, st.sessions[ev.id].Listed());
    } else {
      OtherNext(c, st, ev);
      if ev.WriteChunk? {
        ChunkKeeps(c, st, ev.job, ev.file);
      }
    }
  }
}
