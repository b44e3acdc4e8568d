/** The classes `Piece` and `PieceManager`, whose methods change the state in place. */
module PieceManager {
  import opened Basics
  import opened Sorting
  import opened Bits
  import opened ManagerModel
  import opened PieceModel

  class Piece {
    const index: nat
    const length: nat
    const expectedHash: Bytes
    const sha1: Hash
    var state: PieceState
    var blocks: map<int, Bytes>
    var bytesReceived: nat

    ghost function View(): PieceView
      reads this
    {
      PieceView(length, expectedHash, state, blocks, bytesReceived)
    }

    constructor (index: nat, length: nat, expectedHash: Bytes, sha1: Hash)
      requires |expectedHash| == 20 && length > 0
      ensures this.index == index && this.sha1 == sha1
      ensures View() == PieceView(length, expectedHash, NEEDED, map[], 0)
    {
      this.index, this.length, this.expectedHash, this.sha1 := index, length, expectedHash, sha1;
      state, blocks, bytesReceived := NEEDED, map[], 0;
    }

    method AddBlock(offset: int, data: Bytes) returns (r: Result<(), PieceError>)
      modifies this
      ensures match old(View()).AddBlock(offset, data)
              case Err(e) => r == Err(e) && View() == old(View())
              case Ok(v) => r == Ok(()) && View() == v
    {
      if offset < 0 || offset >= length {
        return Err(OffsetOutOfRange);
      }
      if offset + |data| > length {
        return Err(BlockTooLong);
      }
      if offset !in blocks {
        bytesReceived := bytesReceived + |data|;
      }
      blocks := blocks[offset := data];
      r := Ok(());
    }

    method MissingBlocks() returns (missing: seq<Block>)
      ensures missing == View().MissingBlocks()
    {
      missing := [];
      var offset: nat := 0;
      while offset < length
        invariant missing + MissingFrom(length, blocks, offset) == View().MissingBlocks()
        decreases length - offset
      {
        var size := Min(BLOCK_SIZE, length - offset);
        if offset !in blocks {
          missing := missing + [Block(offset, size)];
        }
        offset := offset + size;
      }
      assert missing + [] == missing;
    }

    method Assemble() returns (data: Bytes)
      ensures data == Assembled(blocks)
    {
      hide Elements, Ascending, StrictTotal;
      IntLessTotal();
      var keys := ToList(blocks.Keys);
      keys := Sort(IntLess, keys);
      data := [];
      ghost var parts := Parts(Offsets(blocks), blocks);
      for i := 0 to |keys|
        invariant data == Join(parts[..i])
      {
        JoinAppend(parts[..i], parts[i]);
        assert parts[..i + 1] == parts[..i] + [parts[i]];
        data := data + blocks[keys[i]];
      }
      assert parts[..|keys|] == parts;
    }

    method Reset()
      modifies this
      ensures View() == old(View()).Reset()
    {
      blocks := map[];
      bytesReceived := 0;
      state := NEEDED;
    }

    method Verify() returns (ok: bool)
      modifies this
      ensures View() == old(View()).Verify(sha1)
      ensures ok <==> old(View()).IsCompleteRaw() && old(View()).HashMatches(sha1)
    {
      if bytesReceived < length {
        return false;
      }
      var data := Assemble();
      var actualHash := sha1(data);
      if actualHash == expectedHash {
        state := COMPLETE;
        return true;
      } else {
        state := FAILED;
        Reset();
        return false;
      }
    }

    /** The `data` property. */
    method Data() returns (r: Result<Bytes, PieceError>)
      ensures r == if state != COMPLETE then Err(NotComplete) else Ok(Assembled(blocks))
    {
      if state != COMPLETE {
        return Err(NotComplete);
      }
      var data := Assemble();
      r := Ok(data);
    }
  }

  // ---------------------------------------------------------------------------
  // PieceManager
  // ---------------------------------------------------------------------------

  class PieceManager {
    const sha1: Hash
    const numPieces: nat
    var pieces: seq<Piece>
    var peerPieces: map<PeerId, set<nat>>
    var pending: set<nat>

    ghost predicate Valid()
      reads this
    {
      && |pieces| == numPieces
      && (forall i :: 0 <= i < |pieces| ==> pieces[i].sha1 == sha1)
      && (forall i, j :: 0 <= i < j < |pieces| ==> pieces[i] != pieces[j])
    }

    ghost function View(): (m: Manager)
      reads this, pieces
      ensures |m.pieces| == |pieces|
    {
      Manager(
        seq(|pieces|, i requires 0 <= i < |pieces| reads this, pieces => pieces[i].View()),
        peerPieces,
        pending)
    }

    constructor (hashes: seq<Bytes>, pieceLength: nat, totalLength: nat, sha1: Hash)
      requires pieceLength > 0 && forall h :: h in hashes ==> |h| == 20
      ensures Valid() && fresh(pieces) && this.sha1 == sha1
      ensures View() == Initial(hashes, pieceLength, totalLength)
    {
      this.sha1, numPieces := sha1, |hashes|;
      pieces, peerPieces, pending := [], map[], {};
      new;
      for i := 0 to |hashes|
        invariant |pieces| == i && fresh(pieces)
        invariant peerPieces == map[] && pending == {}
        invariant forall j :: 0 <= j < i ==> pieces[j].sha1 == sha1
        invariant forall j, k :: 0 <= j < k < i ==> pieces[j] != pieces[k]
        invariant forall j :: 0 <= j < i ==>
            pieces[j].View() == PieceView(PieceLength(|hashes|, pieceLength, totalLength, j), hashes[j], NEEDED, map[], 0)
      {
        var length;
        if i < numPieces - 1 {
          length := pieceLength;
        } else {
          var remainder := totalLength % pieceLength;
          length := if remainder > 0 then remainder else pieceLength;
        }
        var piece := new Piece(i, length, hashes[i], sha1);
        pieces := pieces + [piece];
      }
    }

    method OnPeerBitfield(peer: PeerId, bitfield: Bytes)
      requires Valid()
      modifies this`peerPieces
      ensures View() == old(View()).OnPeerBitfield(peer, bitfield)
    {
      var available := ReadBitfield(bitfield, numPieces);
      peerPieces := peerPieces[peer := available];
    }

    method OnPeerHave(peer: PeerId, pieceIndex: nat)
      requires Valid()
      modifies this`peerPieces
      ensures View() == old(View()).OnPeerHave(peer, pieceIndex)
    {
      if peer !in peerPieces {
        peerPieces := peerPieces[peer := {}];
      }
      peerPieces := peerPieces[peer := peerPieces[peer] + {pieceIndex}];
    }

    /** Rarest-first; ties go to whichever candidate the set yields first. */
    method SelectPiece(peer: PeerId) returns (r: Result<Option<nat>, ManagerError>)
      requires Valid()
      modifies this`pending, pieces
      ensures Valid()
      ensures old(View()).SelectRaises(peer) ==> r == Err(IndexError) && View() == old(View())
      ensures !old(View()).SelectRaises(peer) && old(View()).Candidates(peer) == {} ==> r == Ok(None) && View() == old(View())
      ensures !old(View()).SelectRaises(peer) && old(View()).Candidates(peer) != {} ==>
        && r.Ok? && r.value.Some?
        && old(View()).IsRarest(peer, r.value.value)
        && View() == old(View()).Claim(r.value.value)
    {
      hide Manager.Rarity, Manager.SelectRaises;
      ghost var m := View();
      var peerAvailable := if peer in peerPieces then peerPieces[peer] else {};
      var candidates := ListCandidates(peer, peerAvailable);
      if candidates.Err? {
        return Err(candidates.error);
      }
      if candidates.value == [] {
        assert m.Candidates(peer) == {};
        return Ok(None);
      }
      var rarest := candidates.value[0];
      var least := CountPeers(rarest);
      assert rarest in candidates.value;
      for k := 1 to |candidates.value|
        invariant rarest in m.Candidates(peer) && least == m.Rarity(rarest)
        invariant forall j :: 0 <= j < k ==> least <= m.Rarity(candidates.value[j])
        modifies {}
      {
        assert candidates.value[k] in candidates.value;
        var count := CountPeers(candidates.value[k]);
        if count < least {
          rarest, least := candidates.value[k], count;
        }
      }
      assert m.IsRarest(peer, rarest);
      MarkPending(rarest);
      r := Ok(Some(rarest));
    }

    /** The end of `select_piece`. */
    method MarkPending(i: nat)
      requires Valid() && i < |pieces|
      modifies this`pending, pieces
      ensures Valid()
      ensures View() == old(View()).Claim(i)
    {
      ghost var m := View();
      pieces[i].state := PENDING;
      pending := pending + {i};
      assert View().pieces == m.Claim(i).pieces;
    }

    /** `_rarity`: how many recorded peers have the piece. */
    method CountPeers(i: nat) returns (count: nat)
      ensures count == View().Rarity(i)
    {
      count := 0;
      var left := peerPieces.Keys;
      while left != {}
        invariant left <= peerPieces.Keys
        invariant count == |set q | q in peerPieces && i in peerPieces[q] && q !in left|
        decreases left
      {
        var q :| q in left;
        ghost var seen := set p | p in peerPieces && i in peerPieces[p] && p !in left;
        left := left - {q};
        assert (set p | p in peerPieces && i in peerPieces[p] && p !in left) == if i in peerPieces[q] then seen + {q} else seen;
        if i in peerPieces[q] {
          count := count + 1;
        }
      }
      assert (set q | q in peerPieces && i in peerPieces[q] && q !in left) == set q | q in peerPieces && i in peerPieces[q];
    }

    /** The candidate list: indexing raises at the first offered index past the table. */
    method ListCandidates(peer: PeerId, peerAvailable: set<nat>) returns (r: Result<seq<nat>, ManagerError>)
      requires Valid() && peerAvailable == View().Available(peer)
      ensures r.Err? <==> View().SelectRaises(peer)
      ensures r.Err? ==> r.error == IndexError
      ensures r.Ok? ==> forall i :: i in r.value <==> i in View().Candidates(peer)
    {
      var left := peerAvailable;
      var candidates: seq<nat> := [];
      while left != {}
        invariant left <= peerAvailable
        invariant forall i :: i in peerAvailable && i !in left ==> i < |pieces|
        invariant forall i :: i in candidates <==> i in View().Candidates(peer) && i !in left
        decreases left
      {
        var i :| i in left;
        assert i in View().Available(peer);
        if i >= |pieces| {
          return Err(IndexError);
        }
        if pieces[i].state == NEEDED && i !in pending {
          candidates := candidates + [i];
        }
        left := left - {i};
      }
      r := Ok(candidates);
    }

    method AddBlock(pieceIndex: nat, offset: int, data: Bytes) returns (r: Result<bool, ManagerError>)
      requires Valid()
      modifies this`pending, pieces
      ensures Valid()
      ensures match old(View()).AddBlock(sha1, pieceIndex, offset, data)
              case Err(e) => r == Err(e) && View() == old(View())
              case Ok(m) => r == Ok(old(View()).Completes(sha1, pieceIndex, offset, data)) && View() == m
    {
      hide Assembled;
      ghost var m := View();
      if pieceIndex >= |pieces| {
        return Err(IndexError);
      }
      var piece := pieces[pieceIndex];
      var added := piece.AddBlock(offset, data);
      if added.Err? {
        assert View().pieces == m.pieces;
        return Err(BadBlock(added.error));
      }
      var ok := false;
      if piece.bytesReceived >= piece.length {
        ok := piece.Verify();
        pending := pending - {pieceIndex};
      }
      assert View().pieces == m.AddBlock(sha1, pieceIndex, offset, data).value.pieces;
      r := Ok(ok);
    }

    method MarkPieceFailed(pieceIndex: nat)
      requires Valid() && pieceIndex < |pieces|
      modifies this`pending, pieces
      ensures Valid()
      ensures View() == old(View()).MarkPieceFailed(pieceIndex)
    {
      ghost var m := View();
      pieces[pieceIndex].Reset();
      pending := pending - {pieceIndex};
      assert View().pieces == m.MarkPieceFailed(pieceIndex).pieces;
    }

    /** `num_complete == num_pieces`. */
    method IsDone() returns (done: bool)
      requires Valid()
      ensures done <==> View().IsDone()
    {
      var numComplete := 0;
      for i := 0 to |pieces|
        invariant numComplete <= i
        invariant numComplete == i <==> forall j :: 0 <= j < i ==> pieces[j].state == COMPLETE
      {
        if pieces[i].state == COMPLETE {
          numComplete := numComplete + 1;
        }
      }
      assert forall j :: 0 <= j < |pieces| ==> View().pieces[j].state == pieces[j].state;
      done := numComplete == numPieces;
    }

    method GetBitfield() returns (bitfield: Bytes)
      requires Valid()
      ensures Represents(bitfield, set i: nat | i < |pieces| && View().pieces[i].state == COMPLETE, |pieces|)
    {
      var complete := [];
      for i := 0 to |pieces|
        invariant |complete| == i
        invariant forall j :: 0 <= j < i ==> complete[j] == (View().pieces[j].state == COMPLETE)
      {
        complete := complete + [pieces[i].state == COMPLETE];
      }
      bitfield := BuildBitfield(complete);
      assert (set i: nat | i < |complete| && complete[i]) == set i: nat | i < |pieces| && View().pieces[i].state == COMPLETE;
    }

    method GetPieceData(pieceIndex: nat) returns (r: Result<Bytes, PieceError>)
      requires Valid() && pieceIndex < |pieces|
      ensures r == if View().pieces[pieceIndex].state != COMPLETE then Err(NotComplete)
                   else Ok(Assembled(View().pieces[pieceIndex].blocks))
    {
      r := pieces[pieceIndex].Data();
    }

    method NextBlockRequest(pieceIndex: nat) returns (r: Option<Block>)
      requires Valid() && pieceIndex < |pieces|
      ensures var missing := View().pieces[pieceIndex].MissingBlocks();
              r == if missing == [] then None else Some(missing[0])
    {
      var missing := pieces[pieceIndex].MissingBlocks();
      r := if missing == [] then None else Some(missing[0]);
    }
  }
}
