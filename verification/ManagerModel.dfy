/** The value of the piece table: what each operation does to it and what all of them keep. */
module ManagerModel {
  import opened Basics
  import opened Bits
  import opened PieceModel
  import opened PieceAssembly

  type PeerId = Bytes

  datatype ManagerError = IndexError | BadBlock(error: PieceError)

  /** The constructor's length of piece `i`: the last one takes the remainder. */
  function PieceLength(numPieces: nat, pieceLength: nat, totalLength: nat, i: nat): (length: nat)
    requires pieceLength > 0 && i < numPieces
    ensures 0 < length <= pieceLength
  {
    if i < numPieces - 1 then pieceLength
    else if totalLength % pieceLength > 0 then totalLength % pieceLength
    else pieceLength
  }

  datatype Manager = Manager(
    pieces: seq<PieceView>,
    peerPieces: map<PeerId, set<nat>>,
    pending: set<nat>)
  {
    predicate IsDone() {
      forall i :: 0 <= i < |pieces| ==> pieces[i].state == COMPLETE
    }

    function OnPeerBitfield(peer: PeerId, bitfield: Bytes): Manager {
      this.(peerPieces := peerPieces[peer := Offered(bitfield, |pieces|)])
    }

    function OnPeerHave(peer: PeerId, i: nat): Manager {
      this.(peerPieces := peerPieces[peer := Available(peer) + {i}])
    }

    function Available(peer: PeerId): set<nat> {
      if peer in peerPieces then peerPieces[peer] else {}
    }

    /** `on_peer_have` does not bound the index, so `select_piece` can raise IndexError. */
    predicate SelectRaises(peer: PeerId) {
      exists i :: i in Available(peer) && i >= |pieces|
    }

    function Candidates(peer: PeerId): set<nat> {
      set i | i in Available(peer) && i < |pieces| && pieces[i].state == NEEDED && i !in pending
    }

    function Rarity(i: nat): nat {
      |set q | q in peerPieces && i in peerPieces[q]|
    }

    ghost predicate IsRarest(peer: PeerId, i: nat) {
      i in Candidates(peer) && forall j :: j in Candidates(peer) ==> Rarity(i) <= Rarity(j)
    }

    function Claim(i: nat): Manager
      requires i < |pieces|
    {
      this.(pieces := pieces[i := pieces[i].(state := PENDING)], pending := pending + {i})
    }

    /** `add_block`, and whether it answers True. */
    ghost function AddBlock(sha1: Hash, i: nat, offset: int, data: Bytes): (r: Result<Manager, ManagerError>)
      ensures r.Ok? ==> |r.value.pieces| == |pieces|
    {
      if i >= |pieces| then Err(IndexError)
      else match pieces[i].AddBlock(offset, data)
        case Err(e) => Err(BadBlock(e))
        case Ok(p) =>
          if p.IsCompleteRaw() then Ok(this.(pieces := pieces[i := p.Verify(sha1)], pending := pending - {i}))
          else Ok(this.(pieces := pieces[i := p]))
    }

    ghost predicate Completes(sha1: Hash, i: nat, offset: int, data: Bytes) {
      && i < |pieces|
      && pieces[i].AddBlock(offset, data).Ok?
      && pieces[i].AddBlock(offset, data).value.IsCompleteRaw()
      && pieces[i].AddBlock(offset, data).value.HashMatches(sha1)
    }

    function MarkPieceFailed(i: nat): Manager
      requires i < |pieces|
    {
      this.(pieces := pieces[i := pieces[i].Reset()], pending := pending - {i})
    }

    predicate Unfinished(i: nat) {
      i < |pieces| && pieces[i].state != COMPLETE
    }

    /** The release loops of the pool: every listed piece that is not COMPLETE is marked failed. */
    function Release(listed: set<nat>): (m: Manager)
      ensures |m.pieces| == |pieces|
    {
      this.(
        pieces := seq(|pieces|, i requires 0 <= i < |pieces| =>
          if i in listed && Unfinished(i) then pieces[i].Reset() else pieces[i]),
        pending := set i | i in pending && !(i in listed && Unfinished(i)))
    }
  }

  function Initial(hashes: seq<Bytes>, pieceLength: nat, totalLength: nat): Manager
    requires pieceLength > 0
  {
    Manager(
      seq(|hashes|, i requires 0 <= i < |hashes| =>
        PieceView(PieceLength(|hashes|, pieceLength, totalLength, i), hashes[i], NEEDED, map[], 0)),
      map[],
      {})
  }

  // ---------------------------------------------------------------------------
  // The invariant of the piece table
  // ---------------------------------------------------------------------------

  ghost predicate PieceOk(sha1: Hash, p: PieceView) {
    && p.length > 0
    && p.state != FAILED
    && (p.state == COMPLETE <==> p.IsCompleteRaw())
    && (p.state == COMPLETE ==> p.HashMatches(sha1))
  }

  ghost predicate ManagerOk(sha1: Hash, m: Manager) {
    && (forall i :: 0 <= i < |m.pieces| ==> PieceOk(sha1, m.pieces[i]))
    && m.pending == set i: nat | i < |m.pieces| && m.pieces[i].state == PENDING
  }

  lemma InitialOk(sha1: Hash, hashes: seq<Bytes>, pieceLength: nat, totalLength: nat)
    requires pieceLength > 0
    ensures ManagerOk(sha1, Initial(hashes, pieceLength, totalLength))
  {}

  /** Any block at all, for any piece, in any state. */
  lemma AddBlockOk(sha1: Hash, m: Manager, i: nat, offset: int, data: Bytes)
    requires ManagerOk(sha1, m) && m.AddBlock(sha1, i, offset, data).Ok?
    ensures ManagerOk(sha1, m.AddBlock(sha1, i, offset, data).value)
    ensures m.Completes(sha1, i, offset, data) <==> m.AddBlock(sha1, i, offset, data).value.pieces[i].state == COMPLETE
  {
    hide Assembled;
    var m' := m.AddBlock(sha1, i, offset, data).value;
    assert forall j :: 0 <= j < |m.pieces| && j != i ==> m'.pieces[j] == m.pieces[j];
    assert PieceOk(sha1, m'.pieces[i]);
  }

  lemma ClaimOk(sha1: Hash, m: Manager, i: nat)
    requires ManagerOk(sha1, m) && i < |m.pieces| && m.pieces[i].state == NEEDED
    ensures ManagerOk(sha1, m.Claim(i))
  {
    hide Assembled;
    var m' := m.Claim(i);
    assert forall j :: 0 <= j < |m.pieces| && j != i ==> m'.pieces[j] == m.pieces[j];
  }

  lemma ReleaseOk(sha1: Hash, m: Manager, listed: set<nat>)
    requires ManagerOk(sha1, m)
    ensures ManagerOk(sha1, m.Release(listed))
  {
    hide Assembled;
  }

  /** Even for a COMPLETE piece. */
  lemma MarkPieceFailedOk(sha1: Hash, m: Manager, i: nat)
    requires ManagerOk(sha1, m) && i < |m.pieces|
    ensures ManagerOk(sha1, m.MarkPieceFailed(i))
  {
    hide Assembled;
    var m' := m.MarkPieceFailed(i);
    assert forall j :: 0 <= j < |m.pieces| && j != i ==> m'.pieces[j] == m.pieces[j];
  }

  /** Under the invariant the candidates of a peer are exactly the NEEDED pieces it offers. */
  lemma CandidatesAreNeeded(sha1: Hash, m: Manager, peer: PeerId)
    requires ManagerOk(sha1, m)
    ensures m.Candidates(peer) == set i | i in m.Available(peer) && i < |m.pieces| && m.pieces[i].state == NEEDED
  {}

  predicate LeastOf(m: Manager, i: nat, items: set<nat>) {
    i in items && forall j :: j in items ==> m.Rarity(i) <= m.Rarity(j)
  }

  lemma {:induction false} LeastRare(m: Manager, items: set<nat>) returns (i: nat)
    requires items != {}
    ensures LeastOf(m, i, items)
  {
    hide Manager.Rarity;
    i :| i in items;
    if items != {i} {
      var other := LeastRare(m, items - {i});
      forall j | j in items ensures m.Rarity(i) <= m.Rarity(j) || m.Rarity(other) <= m.Rarity(j) {
        assert j == i || j in items - {i};
      }
      if m.Rarity(other) < m.Rarity(i) {
        i := other;
      }
    }
  }

  lemma RarestExists(m: Manager, peer: PeerId)
    requires m.Candidates(peer) != {}
    ensures exists i :: m.IsRarest(peer, i)
  {
    hide Manager.Rarity, Manager.Candidates;
    var i := LeastRare(m, m.Candidates(peer));
    assert m.IsRarest(peer, i);
  }

  // ---------------------------------------------------------------------------
  // What rarity counts
  // ---------------------------------------------------------------------------

  /** Listed once each, the peers that offer piece i are as many as its rarity says. */
  lemma {:induction false} RarityCounts(m: Manager, i: nat, peers: seq<PeerId>)
    requires forall a, b :: 0 <= a < b < |peers| ==> peers[a] != peers[b]
    requires forall q :: q in peers <==> i in m.Available(q)
    ensures m.Rarity(i) == |peers|
  {
    DistinctElements(peers);
    assert (set q | q in peers) == set q | q in m.peerPieces && i in m.peerPieces[q];
  }

  lemma {:induction false} DistinctElements(peers: seq<PeerId>)
    requires forall a, b :: 0 <= a < b < |peers| ==> peers[a] != peers[b]
    ensures |set q | q in peers| == |peers|
  {
    if peers == [] {
      assert (set q | q in peers) == {};
    } else {
      var front, last := peers[..|peers| - 1], peers[|peers| - 1];
      DistinctElements(front);
      assert (set q | q in peers) == (set q | q in front) + {last};
    }
  }

  function Offers(m: Manager, peer: PeerId, i: nat): nat {
    if i in m.Available(peer) then 1 else 0
  }

  /** No peer, no rarity; news from one peer changes the rarity of a piece by what it says more or less about it. */
  lemma RarityAfterNews(m: Manager, m': Manager, peer: PeerId, i: nat)
    requires forall q :: q != peer ==> m'.Available(q) == m.Available(q)
    ensures m.peerPieces == map[] ==> m.Rarity(i) == 0
    ensures m'.Rarity(i) == m.Rarity(i) - Offers(m, peer, i) + Offers(m', peer, i)
  {
    var before := set q | q in m.peerPieces && i in m.peerPieces[q];
    var after := set q | q in m'.peerPieces && i in m'.peerPieces[q];
    forall q ensures q in before <==> i in m.Available(q) {}
    forall q ensures q in after <==> i in m'.Available(q) {}
    OneElement(before, after, peer);
  }

  lemma OneElement<T>(before: set<T>, after: set<T>, x: T)
    requires forall y :: y != x ==> (y in before <==> y in after)
    ensures |after| == |before| - (if x in before then 1 else 0) + if x in after then 1 else 0
  {
    var others := before - {x};
    assert others == after - {x};
    assert x in before ==> before == others + {x};
    assert x !in before ==> before == others;
    assert x in after ==> after == others + {x};
    assert x !in after ==> after == others;
  }

  /** A have adds one to the rarity of the piece, if its peer did not offer it before, and to no other; it takes nothing back. */
  lemma HaveCounts(m: Manager, peer: PeerId, i: nat, j: nat)
    ensures var m' := m.OnPeerHave(peer, i);
            && m'.Available(peer) == m.Available(peer) + {i}
            && (forall q :: q != peer ==> m'.Available(q) == m.Available(q))
            && m'.Rarity(j) == m.Rarity(j) + if j == i && i !in m.Available(peer) then 1 else 0
  {
    hide Manager.Rarity;
    var m' := m.OnPeerHave(peer, i);
    assert forall q :: q != peer ==> m'.Available(q) == m.Available(q);
    RarityAfterNews(m, m', peer, j);
  }

  /**
   A bitfield replaces what its peer offered: each piece counts one less if the peer offered it before
   and one more if byte i / 8, divided by the value of its bit, is odd.
   */
  lemma BitfieldCounts(m: Manager, peer: PeerId, bits: Bytes, j: nat, t: nat)
    requires t < 8
    ensures var m' := m.OnPeerBitfield(peer, bits);
            var i := 8 * j + t;
            var offered := i < |m.pieces| && j < |bits| && bits[j] as nat / BIT_VALUES[t] % 2 == 1;
            && (i in m'.Available(peer) <==> offered)
            && (forall q :: q != peer ==> m'.Available(q) == m.Available(q))
            && m'.Rarity(i) == m.Rarity(i) - (if i in m.Available(peer) then 1 else 0) + if offered then 1 else 0
  {
    hide Manager.Rarity, HasPiece;
    var m' := m.OnPeerBitfield(peer, bits);
    OfferedByValue(bits, j, t);
    assert forall q :: q != peer ==> m'.Available(q) == m.Available(q);
    RarityAfterNews(m, m', peer, 8 * j + t);
  }

  /** A candidate that more peers offer, these and others, is never the one to choose. */
  lemma CommonerIsNotChosen(m: Manager, peer: PeerId, i: nat, j: nat, other: PeerId)
    requires i in m.Candidates(peer)
    requires forall q :: i in m.Available(q) ==> j in m.Available(q)
    requires j in m.Available(other) && i !in m.Available(other)
    ensures m.Rarity(i) < m.Rarity(j) && !m.IsRarest(peer, j)
  {
    var fewer := set q | q in m.peerPieces && i in m.peerPieces[q];
    var more := set q | q in m.peerPieces && j in m.peerPieces[q];
    forall q | q in fewer ensures q in more {
      assert i in m.Available(q);
    }
    assert other in more && other !in fewer;
    SmallerSet(fewer, more);
  }
}
