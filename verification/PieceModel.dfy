/**
 The value of one piece: a sparse map from offsets to received bytes and a running byte counter.
 The class `Piece` in PieceManager.dfy changes these fields in place.
 */
module PieceModel {
  import opened Basics
  import opened Sorting

  datatype PieceState = NEEDED | PENDING | COMPLETE | FAILED

  datatype PieceError = OffsetOutOfRange | BlockTooLong | NotComplete

  datatype Block = Block(offset: int, size: int)

  /** The size of the block that starts at an aligned offset. */
  function BlockSize(length: nat, offset: int): int {
    Min(BLOCK_SIZE, length - offset)
  }

  function MissingFrom(length: nat, blocks: map<int, Bytes>, offset: nat): seq<Block>
    decreases length - offset
  {
    if offset >= length then
      []
    else
      var size := BlockSize(length, offset);
      (if offset in blocks then [] else [Block(offset, size)]) + MissingFrom(length, blocks, offset + size)
  }

  predicate IntLess(a: int, b: int) {
    a < b
  }

  lemma IntLessTotal()
    ensures StrictTotal(IntLess)
  {}

  ghost function Offsets(blocks: map<int, Bytes>): (keys: seq<int>)
    ensures Ascending(IntLess, keys) && |keys| == |blocks|
    ensures forall i :: 0 <= i < |keys| ==> keys[i] in blocks
  {
    IntLessTotal();
    var keys := Sorted(IntLess, blocks.Keys);
    assert forall i :: 0 <= i < |keys| ==> keys[i] in Elements(keys);
    keys
  }

  ghost function Parts(keys: seq<int>, blocks: map<int, Bytes>): (parts: seq<Bytes>)
    requires forall i :: 0 <= i < |keys| ==> keys[i] in blocks
    ensures |parts| == |keys|
    ensures forall i :: 0 <= i < |keys| ==> parts[i] == blocks[keys[i]]
  {
    seq(|keys|, i requires 0 <= i < |keys| => blocks[keys[i]])
  }

  /** The stored blocks joined in offset order. */
  ghost function Assembled(blocks: map<int, Bytes>): Bytes {
    Join(Parts(Offsets(blocks), blocks))
  }

  datatype PieceView = PieceView(
    length: nat,
    expectedHash: Bytes,
    state: PieceState,
    blocks: map<int, Bytes>,
    received: nat)
  {
    predicate IsCompleteRaw() {
      received >= length
    }

    function MissingBlocks(): seq<Block> {
      MissingFrom(length, blocks, 0)
    }

    function NumBlocks(): nat {
      (length + BLOCK_SIZE - 1) / BLOCK_SIZE
    }

    /** `add_block`: the counter grows only when the offset is new, the bytes are always replaced. */
    function AddBlock(offset: int, data: Bytes): Result<PieceView, PieceError> {
      if offset < 0 || offset >= length then Err(OffsetOutOfRange)
      else if offset + |data| > length then Err(BlockTooLong)
      else Ok(this.(
        received := if offset in blocks then received else received + |data|,
        blocks := blocks[offset := data]))
    }

    function Reset(): PieceView {
      this.(blocks := map[], received := 0, state := NEEDED)
    }

    ghost predicate HashMatches(sha1: Hash) {
      sha1(Assembled(blocks)) == expectedHash
    }

    /** The piece after `verify`; the answer is whether it is COMPLETE because of this call. */
    ghost function Verify(sha1: Hash): PieceView {
      if !IsCompleteRaw() then this
      else if HashMatches(sha1) then this.(state := COMPLETE)
      else Reset()
    }
  }
}
