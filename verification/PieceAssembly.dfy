/**
 Block assembly: the sparse map and the byte counter against the simple view of a whole piece,
 for blocks arriving in any order, and what one stray block does to a finished piece.
 */
module PieceAssembly {
  import opened Basics
  import opened Sorting
  import opened PieceModel

  // ---------------------------------------------------------------------------
  // What missing_blocks lists
  // ---------------------------------------------------------------------------

  predicate IsBlockOffset(length: nat, offset: int) {
    0 <= offset < length && offset % BLOCK_SIZE == 0
  }

  ghost function BlockOffsets(length: nat): set<int> {
    set o | 0 <= o < length && IsBlockOffset(length, o)
  }

  ghost function MissingOffsets(p: PieceView): set<int> {
    BlockOffsets(p.length) - p.blocks.Keys
  }

  lemma PastEnd(length: nat, offset: nat)
    requires offset >= length
    ensures forall o: int :: IsBlockOffset(length, o) ==> o < offset
  {}

  /** No block starts inside another. */
  lemma NextBlock(length: nat, offset: nat)
    requires offset % BLOCK_SIZE == 0 && offset < length
    ensures IsBlockOffset(length, offset) && 0 < BlockSize(length, offset)
    ensures var next := offset + BlockSize(length, offset);
            next % BLOCK_SIZE == 0 || next >= length
    ensures forall o: int :: IsBlockOffset(length, o) && offset < o ==> offset + BlockSize(length, offset) <= o
  {
    forall o: int | IsBlockOffset(length, o) && offset < o ensures offset + BlockSize(length, offset) <= o {
      assert o == BLOCK_SIZE * (o / BLOCK_SIZE) && offset == BLOCK_SIZE * (offset / BLOCK_SIZE);
    }
  }

  /** The list holds exactly the missing aligned blocks, each at its full size, in ascending order. */
  lemma {:induction false} MissingFromExact(length: nat, blocks: map<int, Bytes>, offset: nat)
    requires offset % BLOCK_SIZE == 0 || offset >= length
    ensures forall b :: b in MissingFrom(length, blocks, offset) <==>
              IsBlockOffset(length, b.offset) && offset <= b.offset && b.offset !in blocks && b.size == BlockSize(length, b.offset)
    ensures forall i, j :: 0 <= i < j < |MissingFrom(length, blocks, offset)|
              ==> MissingFrom(length, blocks, offset)[i].offset < MissingFrom(length, blocks, offset)[j].offset
    decreases length - offset
  {
    hide IsBlockOffset, BlockSize;
    if offset >= length {
      PastEnd(length, offset);
    } else {
      var size := BlockSize(length, offset);
      NextBlock(length, offset);
      MissingFromExact(length, blocks, offset + size);
      var rest := MissingFrom(length, blocks, offset + size);
      assert forall j :: 0 <= j < |rest| ==> rest[j] in rest;
    }
  }

  lemma MissingExact(p: PieceView)
    ensures forall b :: b in p.MissingBlocks() <==> b.offset in MissingOffsets(p) && b.size == BlockSize(p.length, b.offset)
    ensures forall i, j :: 0 <= i < j < |p.MissingBlocks()| ==> p.MissingBlocks()[i].offset < p.MissingBlocks()[j].offset
    ensures forall b :: b in p.MissingBlocks() ==> 0 < b.size <= BLOCK_SIZE && b.offset + b.size <= p.length
  {
    MissingFromExact(p.length, p.blocks, 0);
  }

  // ---------------------------------------------------------------------------
  // Counting bytes
  // ---------------------------------------------------------------------------

  /** Every stored block is one that missing_blocks lists, at its full size. */
  predicate AlignedBlocks(length: nat, blocks: map<int, Bytes>) {
    forall o :: o in blocks ==> IsBlockOffset(length, o) && |blocks[o]| == BlockSize(length, o)
  }

  function StoredFrom(length: nat, blocks: map<int, Bytes>, offset: nat): nat
    decreases length - offset
  {
    if offset >= length then
      0
    else
      var size := BlockSize(length, offset);
      (if offset in blocks then size else 0) + StoredFrom(length, blocks, offset + size)
  }

  function SumSizes(blocks: seq<Block>): int {
    if blocks == [] then 0 else blocks[0].size + SumSizes(blocks[1..])
  }

  /** Blocks come only as listed, and the counter says how many bytes are stored. */
  predicate Disciplined(p: PieceView) {
    AlignedBlocks(p.length, p.blocks) && p.received == StoredFrom(p.length, p.blocks, 0)
  }

  lemma {:induction false} StoredPlusMissing(length: nat, blocks: map<int, Bytes>, offset: nat)
    requires offset <= length
    ensures StoredFrom(length, blocks, offset) + SumSizes(MissingFrom(length, blocks, offset)) == length - offset
    decreases length - offset
  {
    if offset < length {
      var size := BlockSize(length, offset);
      StoredPlusMissing(length, blocks, offset + size);
      var rest := MissingFrom(length, blocks, offset + size);
      assert ([Block(offset, size)] + rest)[1..] == rest && [] + rest == rest;
    }
  }

  lemma {:induction false} StoredAfter(length: nat, blocks: map<int, Bytes>, o: int, data: Bytes, offset: nat)
    requires IsBlockOffset(length, o) && o !in blocks
    requires offset % BLOCK_SIZE == 0 || offset >= length
    ensures StoredFrom(length, blocks[o := data], offset)
         == StoredFrom(length, blocks, offset) + if offset <= o then BlockSize(length, o) else 0
    decreases length - offset
  {
    hide IsBlockOffset, BlockSize;
    if offset >= length {
      PastEnd(length, offset);
    } else {
      NextBlock(length, offset);
      StoredAfter(length, blocks, o, data, offset + BlockSize(length, offset));
    }
  }

  lemma {:induction false} StoredSameKeys(length: nat, a: map<int, Bytes>, b: map<int, Bytes>, offset: nat)
    requires a.Keys == b.Keys
    ensures StoredFrom(length, a, offset) == StoredFrom(length, b, offset)
    decreases length - offset
  {
    if offset < length {
      assert offset in a.Keys <==> offset in b.Keys;
      StoredSameKeys(length, a, b, offset + BlockSize(length, offset));
    }
  }

  lemma {:induction false} NothingStored(length: nat, offset: nat)
    ensures StoredFrom(length, map[], offset) == 0
    decreases length - offset
  {
    if offset < length {
      NothingStored(length, offset + BlockSize(length, offset));
    }
  }

  lemma ResetIsDisciplined(p: PieceView)
    ensures Disciplined(p.Reset()) && MissingOffsets(p.Reset()) == BlockOffsets(p.length)
  {
    NothingStored(p.length, 0);
  }

  /** A listed block, new or repeated, is accepted and keeps the discipline. */
  lemma AcceptListedBlock(p: PieceView, o: int, data: Bytes)
    requires Disciplined(p) && IsBlockOffset(p.length, o) && |data| == BlockSize(p.length, o)
    ensures p.AddBlock(o, data).Ok? && Disciplined(p.AddBlock(o, data).value)
    ensures MissingOffsets(p.AddBlock(o, data).value) == MissingOffsets(p) - {o}
  {
    var q := p.AddBlock(o, data).value;
    if o in p.blocks {
      StoredSameKeys(p.length, p.blocks, q.blocks, 0);
    } else {
      StoredAfter(p.length, p.blocks, o, data, 0);
    }
  }

  /** The counter and the list agree: received plus missing is the length, complete means none missing. */
  lemma CounterAgrees(p: PieceView)
    requires Disciplined(p)
    ensures p.received + SumSizes(p.MissingBlocks()) == p.length
    ensures p.IsCompleteRaw() <==> p.MissingBlocks() == []
    ensures p.IsCompleteRaw() <==> MissingOffsets(p) == {}
  {
    StoredPlusMissing(p.length, p.blocks, 0);
    MissingExact(p);
    var missing := p.MissingBlocks();
    PositiveSizes(missing);
    if missing != [] {
      assert missing[0] in missing;
    }
    if MissingOffsets(p) != {} {
      var o :| o in MissingOffsets(p);
      assert Block(o, BlockSize(p.length, o)) in missing;
    }
  }

  lemma {:induction false} PositiveSizes(blocks: seq<Block>)
    requires forall b :: b in blocks ==> b.size > 0
    ensures SumSizes(blocks) >= |blocks|
  {
    if blocks != [] {
      PositiveSizes(blocks[1..]);
    }
  }

  /** The list is as long as the set of missing offsets. */
  lemma MissingCount(p: PieceView)
    ensures |p.MissingBlocks()| == |MissingOffsets(p)|
  {
    MissingExact(p);
    var missing := p.MissingBlocks();
    var offsets := seq(|missing|, i requires 0 <= i < |missing| => missing[i].offset);
    forall o | o in MissingOffsets(p) ensures o in offsets {
      var b := Block(o, BlockSize(p.length, o));
      assert b in missing;
      var i :| 0 <= i < |missing| && missing[i] == b;
      assert offsets[i] == o;
    }
    assert Elements(offsets) == MissingOffsets(p);
    IntLessTotal();
    SortedIs(IntLess, offsets);
  }

  function AlignedKeys(n: nat): (keys: seq<int>)
    ensures |keys| == n && forall i :: 0 <= i < n ==> keys[i] == i * BLOCK_SIZE
  {
    seq(n, i => i * BLOCK_SIZE)
  }

  lemma BlockInRange(length: nat, i: nat)
    requires i < (length + BLOCK_SIZE - 1) / BLOCK_SIZE
    ensures IsBlockOffset(length, i * BLOCK_SIZE)
  {
    assert BLOCK_SIZE == 16384;
  }

  lemma AlignedKeysExact(length: nat)
    ensures Elements(AlignedKeys((length + BLOCK_SIZE - 1) / BLOCK_SIZE)) == BlockOffsets(length)
    ensures Sorted(IntLess, BlockOffsets(length)) == AlignedKeys((length + BLOCK_SIZE - 1) / BLOCK_SIZE)
  {
    hide StrictTotal;
    var n := (length + BLOCK_SIZE - 1) / BLOCK_SIZE;
    var keys := AlignedKeys(n);
    IntLessTotal();
    forall o | o in BlockOffsets(length) ensures o in keys {
      assert keys[o / BLOCK_SIZE] == o;
    }
    forall o | o in keys ensures o in BlockOffsets(length) {
      var i :| 0 <= i < n && keys[i] == o;
      BlockInRange(length, i);
    }
    SortedIs(IntLess, keys);
  }

  /** Stored blocks plus missing blocks make `num_blocks`. */
  lemma BlockCount(p: PieceView)
    requires AlignedBlocks(p.length, p.blocks)
    ensures |p.blocks| + |p.MissingBlocks()| == p.NumBlocks()
  {
    hide StrictTotal, IsBlockOffset, IntLess, Ascending, MissingFrom, BlockSize;
    MissingCount(p);
    IntLessTotal();
    AlignedKeysExact(p.length);
    assert |BlockOffsets(p.length)| == p.NumBlocks();
    forall o | o in p.blocks ensures o in BlockOffsets(p.length) {
      BlockOffsetBound(p.length, o);
    }
    assert BlockOffsets(p.length) == p.blocks.Keys + MissingOffsets(p);
    assert |p.blocks| == |p.blocks.Keys|;
  }

  lemma BlockOffsetBound(length: nat, o: int)
    requires IsBlockOffset(length, o)
    ensures 0 <= o < length
  {}

  // ---------------------------------------------------------------------------
  // Assembling the true bytes
  // ---------------------------------------------------------------------------

  /** Every stored block is the slice of `data` at its offset. */
  predicate Agrees(p: PieceView, data: Bytes) {
    |data| == p.length && forall o :: o in p.blocks ==>
      0 <= o && o + |p.blocks[o]| <= |data| && p.blocks[o] == data[o..o + |p.blocks[o]|]
  }

  lemma CompleteOffsets(p: PieceView)
    requires AlignedBlocks(p.length, p.blocks) && MissingOffsets(p) == {}
    ensures Offsets(p.blocks) == AlignedKeys(p.NumBlocks())
  {
    hide StrictTotal, IsBlockOffset, BlockSize, IntLess, Ascending;
    IntLessTotal();
    AlignedKeysExact(p.length);
    forall o ensures o in p.blocks <==> o in BlockOffsets(p.length) {
      if o in p.blocks {
        BlockOffsetBound(p.length, o);
      }
      assert o !in MissingOffsets(p);
    }
    assert p.blocks.Keys == BlockOffsets(p.length);
  }

  /** When nothing is missing and every block agrees with `data`, the assembled bytes are `data`. */
  lemma AssembledIsData(p: PieceView, data: Bytes)
    requires AlignedBlocks(p.length, p.blocks) && MissingOffsets(p) == {} && Agrees(p, data)
    ensures Assembled(p.blocks) == data
  {
    CompleteOffsets(p);
    var n := p.NumBlocks();
    JoinPrefix(p, data, n);
    assert Parts(Offsets(p.blocks), p.blocks)[..n] == Parts(Offsets(p.blocks), p.blocks);
    assert data[..|data|] == data;
  }

  lemma {:induction false} JoinPrefix(p: PieceView, data: Bytes, m: nat)
    requires AlignedBlocks(p.length, p.blocks) && Agrees(p, data)
    requires Offsets(p.blocks) == AlignedKeys(p.NumBlocks()) && m <= p.NumBlocks()
    ensures Join(Parts(Offsets(p.blocks), p.blocks)[..m]) == data[..Min(m * BLOCK_SIZE, |data|)]
  {
    hide Offsets, Parts, Join, Assembled;
    var parts := Parts(Offsets(p.blocks), p.blocks);
    if m == 0 {
      assert parts[..0] == [];
      assert Join([]) == [] by {
        JoinEmpty();
      }
    } else {
      var o := (m - 1) * BLOCK_SIZE;
      JoinPrefix(p, data, m - 1);
      BlockInRange(p.length, m - 1);
      assert parts[..m] == parts[..m - 1] + [parts[m - 1]];
      JoinAppend(parts[..m - 1], parts[m - 1]);
      assert Offsets(p.blocks)[m - 1] == o && o in p.blocks;
      var end := o + BlockSize(p.length, o);
      assert end == Min(m * BLOCK_SIZE, |data|);
      assert data[..o] + data[o..end] == data[..end];
    }
  }

  // ---------------------------------------------------------------------------
  // A block for a piece that is already complete
  // ---------------------------------------------------------------------------

  lemma ReplacedBlock(blocks: map<int, Bytes>, o: int, data: Bytes)
    requires o in blocks
    ensures Assembled(blocks[o := data]) == Assembled(blocks) <==> data == blocks[o]
  {
    hide StrictTotal, IntLess, Ascending, Join;
    IntLessTotal();
    var keys := Offsets(blocks);
    assert blocks[o := data].Keys == blocks.Keys;
    var parts, parts' := Parts(keys, blocks), Parts(keys, blocks[o := data]);
    var k := IndexOf(blocks, o);
    JoinSplit(parts, k);
    JoinSplit(parts', k);
    OthersUnchanged(blocks, o, data, k);
    var a, b := Join(parts[..k]), Join(parts[k + 1..]);
    assert parts[k] == blocks[o] && parts'[k] == data;
    if a + data + b == a + blocks[o] + b {
      assert (a + data + b)[|a|..|a| + |data|] == data;
    }
  }

  lemma OthersUnchanged(blocks: map<int, Bytes>, o: int, data: Bytes, k: nat)
    requires k < |Offsets(blocks)| && Offsets(blocks)[k] == o && o in blocks
    ensures Offsets(blocks[o := data]) == Offsets(blocks)
    ensures Parts(Offsets(blocks), blocks[o := data])[..k] == Parts(Offsets(blocks), blocks)[..k]
    ensures Parts(Offsets(blocks), blocks[o := data])[k + 1..] == Parts(Offsets(blocks), blocks)[k + 1..]
  {
    hide StrictTotal, IntLess, Ascending;
    var with := blocks[o := data];
    assert with.Keys == blocks.Keys;
    var keys := Offsets(blocks);
    DropOne(keys, k);
    OtherParts(keys, blocks, with, k);
  }

  lemma OtherParts(keys: seq<int>, a: map<int, Bytes>, b: map<int, Bytes>, k: nat)
    requires (forall i :: 0 <= i < |keys| ==> keys[i] in a && keys[i] in b) && k < |keys|
    requires keys[k] !in keys[..k] + keys[k + 1..]
    requires forall x :: x in a && x in b && x != keys[k] ==> a[x] == b[x]
    ensures Parts(keys, b)[..k] == Parts(keys, a)[..k] && Parts(keys, b)[k + 1..] == Parts(keys, a)[k + 1..]
  {
    hide Parts;
    var others := keys[..k] + keys[k + 1..];
    forall i | 0 <= i < |keys| && i != k ensures Parts(keys, b)[i] == Parts(keys, a)[i] {
      assert keys[i] == others[if i < k then i else i - 1];
    }
  }

  ghost function IndexOf(blocks: map<int, Bytes>, o: int): (k: nat)
    requires o in blocks
    ensures k < |Offsets(blocks)| && Offsets(blocks)[k] == o
  {
    IntLessTotal();
    assert o in Elements(Sorted(IntLess, blocks.Keys));
    var k: nat :| k < |Offsets(blocks)| && Offsets(blocks)[k] == o;
    k
  }

  lemma InsertedBlock(blocks: map<int, Bytes>, o: int, data: Bytes)
    requires o !in blocks
    ensures Assembled(blocks[o := data]) == Assembled(blocks) <==> data == []
  {
    hide Join, Assembled, Offsets, Parts, IndexOf;
    var with := blocks[o := data];
    var k := IndexOf(with, o);
    RemoveOffset(blocks, o, data, k);
    var keys := Offsets(with);
    var parts := Parts(keys, with);
    JoinSplit(parts, k);
    JoinConcat(parts[..k], parts[k + 1..]);
    assert Assembled(with) == Join(parts) && Assembled(blocks) == Join(parts[..k] + parts[k + 1..]) by {
      AssembledIs(with);
      AssembledIs(blocks);
    }
    var a, b := Join(parts[..k]), Join(parts[k + 1..]);
    assert Assembled(with) == a + data + b && Assembled(blocks) == a + b;
  }

  lemma AssembledIs(blocks: map<int, Bytes>)
    ensures Assembled(blocks) == Join(Parts(Offsets(blocks), blocks))
  {}

  lemma RemoveOffset(blocks: map<int, Bytes>, o: int, data: Bytes, k: nat)
    requires o !in blocks
    requires k < |Offsets(blocks[o := data])| && Offsets(blocks[o := data])[k] == o
    ensures var keys := Offsets(blocks[o := data]);
            var parts := Parts(keys, blocks[o := data]);
            Parts(Offsets(blocks), blocks) == parts[..k] + parts[k + 1..]
  {
    hide Offsets;
    OffsetsWithout(blocks, o, data, k);
    var with := blocks[o := data];
    var keys := Offsets(with);
    var rest := keys[..k] + keys[k + 1..];
    var parts := Parts(keys, with);
    forall i | 0 <= i < |rest| ensures Parts(rest, blocks)[i] == (parts[..k] + parts[k + 1..])[i] {
      assert rest[i] in blocks;
    }
  }

  lemma OffsetsWithout(blocks: map<int, Bytes>, o: int, data: Bytes, k: nat)
    requires o !in blocks
    requires k < |Offsets(blocks[o := data])| && Offsets(blocks[o := data])[k] == o
    ensures Offsets(blocks) == Offsets(blocks[o := data])[..k] + Offsets(blocks[o := data])[k + 1..]
  {
    hide StrictTotal, IntLess, Ascending;
    IntLessTotal();
    var with := blocks[o := data];
    var keys := Offsets(with);
    var rest := keys[..k] + keys[k + 1..];
    DropOne(keys, k);
    assert Elements(rest) == blocks.Keys by {
      assert keys == keys[..k] + [o] + keys[k + 1..];
      forall x ensures x in rest <==> x in blocks {
        assert x in rest || x == o <==> x in Elements(keys);
        assert x in Elements(keys) <==> x in with;
      }
    }
    SortedIs(IntLess, rest);
  }

  lemma DropOne(keys: seq<int>, k: nat)
    requires Ascending(IntLess, keys) && k < |keys|
    ensures Ascending(IntLess, keys[..k] + keys[k + 1..]) && keys[k] !in keys[..k] + keys[k + 1..]
  {
    forall i | 0 <= i < |keys| && i != k ensures keys[i] != keys[k] {
      assert if i < k then IntLess(keys[i], keys[k]) else IntLess(keys[k], keys[i]);
    }
  }

  /** No other bytes have the digest of the piece: what a hash check is worth for it. */
  ghost predicate NoSecondPreimage(sha1: Hash, data: Bytes) {
    forall x: Bytes :: sha1(x) == sha1(data) ==> x == data
  }

  /**
   A block for a COMPLETE piece is stored and the piece is verified again. It stays COMPLETE exactly
   when the block repeats the bytes stored at its offset, or is empty at a new offset.
   */
  lemma StaysComplete(p: PieceView, sha1: Hash, o: int, data: Bytes)
    requires p.state == COMPLETE && p.IsCompleteRaw() && p.HashMatches(sha1)
    requires NoSecondPreimage(sha1, Assembled(p.blocks))
    requires p.AddBlock(o, data).Ok?
    ensures p.AddBlock(o, data).value.Verify(sha1).state == COMPLETE
            <==> data == if o in p.blocks then p.blocks[o] else []
  {
    hide Assembled;
    if o in p.blocks {
      ReplacedBlock(p.blocks, o, data);
    } else {
      InsertedBlock(p.blocks, o, data);
    }
  }

  lemma AssembledSingle(data: Bytes)
    ensures Assembled(map[0 := data]) == data
  {
    var blocks := map[0 := data];
    IntLessTotal();
    SortedIs(IntLess, [0]);
    assert Elements([0]) == blocks.Keys;
    assert Parts(Offsets(blocks), blocks) == [data];
    JoinAppend([], data);
    assert [] + [data] == [data];
  }
}
