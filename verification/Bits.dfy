/** Bits of non-negative integers and the three bit orders that must agree on a bitfield. */
module Bits {
  import opened Basics

  function Pow2(k: nat): (p: nat)
    ensures p > 0
  {
    if k == 0 then 1 else 2 * Pow2(k - 1)
  }

  /** `v >> k`. */
  function ShiftRight(v: nat, k: nat): nat {
    if k == 0 then v else ShiftRight(v / 2, k - 1)
  }

  /** `(v >> k) & 1`. */
  predicate Bit(v: nat, k: nat) {
    ShiftRight(v, k) % 2 == 1
  }

  /** `a | b`. */
  function BitOr(a: nat, b: nat): nat
    decreases a + b
  {
    if a == 0 && b == 0 then
      0
    else
      (if a % 2 == 1 || b % 2 == 1 then 1 else 0) + 2 * BitOr(a / 2, b / 2)
  }

  lemma {:induction false} BitOfZero(k: nat)
    ensures !Bit(0, k)
  {
    if k > 0 {
      BitOfZero(k - 1);
    }
  }

  lemma BitOrHalves(a: nat, b: nat)
    ensures BitOr(a, b) % 2 == 1 <==> a % 2 == 1 || b % 2 == 1
    ensures BitOr(a, b) / 2 == BitOr(a / 2, b / 2)
  {}

  lemma {:induction false} BitOfOr(a: nat, b: nat, k: nat)
    ensures Bit(BitOr(a, b), k) <==> Bit(a, k) || Bit(b, k)
    decreases k
  {
    hide BitOr;
    BitOrHalves(a, b);
    if k > 0 {
      BitOfOr(a / 2, b / 2, k - 1);
    }
  }

  lemma {:induction false} BitOfPow2(j: nat, k: nat)
    ensures Bit(Pow2(j), k) <==> j == k
    decreases j + k
  {
    if j == 0 && k > 0 {
      BitOfZero(k - 1);
    } else if j > 0 && k > 0 {
      BitOfPow2(j - 1, k - 1);
    }
  }

  lemma {:induction false} BitOrBound(a: nat, b: nat, n: nat)
    requires a < Pow2(n) && b < Pow2(n)
    ensures BitOr(a, b) < Pow2(n)
    decreases n
  {
    if n > 0 && (a != 0 || b != 0) {
      BitOrBound(a / 2, b / 2, n - 1);
    }
  }

  lemma {:induction false} Pow2Monotone(j: nat, n: nat)
    requires j < n
    ensures Pow2(j) < Pow2(n)
    decreases n
  {
    if j < n - 1 {
      Pow2Monotone(j, n - 1);
    }
  }

  /** `v | (1 << k)` stays a byte, sets bit `k` and leaves the others. */
  lemma SetBit(v: byte, k: nat)
    requires k < 8
    ensures BitOr(v, Pow2(k)) < 256
    ensures forall j: nat :: Bit(BitOr(v, Pow2(k)), j) <==> Bit(v, j) || j == k
  {
    assert Pow2(8) == 256;
    Pow2Monotone(k, 8);
    BitOrBound(v, Pow2(k), 8);
    forall j: nat ensures Bit(BitOr(v, Pow2(k)), j) <==> Bit(v, j) || j == k {
      BitOfOr(v, Pow2(k), j);
      BitOfPow2(k, j);
    }
  }

  lemma {:induction false} SameBits(v: nat, w: nat, n: nat)
    requires v < Pow2(n) && w < Pow2(n)
    requires forall k: nat :: k < n ==> (Bit(v, k) <==> Bit(w, k))
    ensures v == w
    decreases n
  {
    if n > 0 {
      assert Bit(v, 0) <==> Bit(w, 0);
      forall k: nat | k < n - 1 ensures Bit(v / 2, k) <==> Bit(w / 2, k) {
        assert Bit(v, k + 1) <==> Bit(w, k + 1);
      }
      SameBits(v / 2, w / 2, n - 1);
    }
  }

  // ---------------------------------------------------------------------------
  // Bitfields
  // ---------------------------------------------------------------------------

  /** `BitfieldMessage.has_piece`: bit 7 of byte 0 is piece 0. */
  predicate HasPiece(bitfield: Bytes, index: nat) {
    index / 8 < |bitfield| && Bit(bitfield[index / 8], 7 - index % 8)
  }

  /** The pieces below `numPieces` that a bitfield offers. */
  function Offered(bitfield: Bytes, numPieces: nat): set<nat> {
    set i: nat | i < numPieces && HasPiece(bitfield, i)
  }

  /** A bitfield for `numPieces` pieces that says exactly `have`, its spare bits zero. */
  ghost predicate Represents(bitfield: Bytes, have: set<nat>, numPieces: nat) {
    && |bitfield| == (numPieces + 7) / 8
    && forall i: nat :: HasPiece(bitfield, i) <==> i in have && i < numPieces
  }

  /** The loops of `on_peer_bitfield`, which count bits from the low end of each byte. */
  method ReadBitfield(bitfield: Bytes, numPieces: nat) returns (available: set<nat>)
    ensures available == Offered(bitfield, numPieces)
  {
    available := {};
    for byteI := 0 to |bitfield|
      invariant available == set i: nat | i < numPieces && i < 8 * byteI && HasPiece(bitfield, i)
    {
      for bitI := 0 to 8
        invariant available == set i: nat |
            i < numPieces && i < 8 * byteI + 8 && (i < 8 * byteI || 7 - i % 8 < bitI) && HasPiece(bitfield, i)
      {
        var pieceIndex := byteI * 8 + (7 - bitI);
        assert forall i: nat :: 8 * byteI <= i < 8 * byteI + 8 && 7 - i % 8 == bitI ==> i == pieceIndex;
        assert pieceIndex / 8 == byteI && 7 - pieceIndex % 8 == bitI;
        if pieceIndex < numPieces && Bit(bitfield[byteI], bitI) {
          available := available + {pieceIndex};
        }
      }
    }
    assert forall i: nat :: HasPiece(bitfield, i) ==> i < 8 * |bitfield|;
  }

  /** The loop of `get_bitfield`, which sets one bit per complete piece. */
  method BuildBitfield(complete: seq<bool>) returns (bitfield: Bytes)
    ensures Represents(bitfield, set i: nat | i < |complete| && complete[i], |complete|)
  {
    var nBytes := (|complete| + 7) / 8;
    var bf := new byte[nBytes](_ => 0);
    forall i: nat ensures !HasPiece(bf[..], i) {
      if i / 8 < nBytes {
        BitOfZero(7 - i % 8);
      }
    }
    for i := 0 to |complete|
      invariant forall j: nat :: HasPiece(bf[..], j) <==> j < i && complete[j]
    {
      if complete[i] {
        var byteI := i / 8;
        var bitI := 7 - i % 8;
        SetBit(bf[byteI], bitI);
        ghost var before := bf[..];
        bf[byteI] := BitOr(bf[byteI], Pow2(bitI));
        assert forall j: nat :: j / 8 == byteI && j % 8 == i % 8 ==> j == i;
        assert forall j: nat :: HasPiece(bf[..], j) <==> HasPiece(before, j) || j == i;
      }
    }
    bitfield := bf[..];
  }

  /** The property determines the bytes. */
  lemma RepresentsUnique(a: Bytes, b: Bytes, have: set<nat>, numPieces: nat)
    requires Represents(a, have, numPieces) && Represents(b, have, numPieces)
    ensures a == b
  {
    forall j | 0 <= j < |a| ensures a[j] == b[j] {
      forall k: nat | k < 8 ensures Bit(a[j], k) <==> Bit(b[j], k) {
        var i := 8 * j + (7 - k);
        assert i / 8 == j && 7 - i % 8 == k;
        assert HasPiece(a, i) <==> HasPiece(b, i);
      }
      assert Pow2(8) == 256;
      SameBits(a[j], b[j], 8);
    }
  }

  /** What a peer reads from our bitfield is what we have. */
  lemma BitfieldAgreement(bitfield: Bytes, have: set<nat>, numPieces: nat)
    requires Represents(bitfield, have, numPieces)
    ensures Offered(bitfield, numPieces) == set i | i in have && i < numPieces
    ensures forall i: nat :: numPieces <= i ==> !HasPiece(bitfield, i)
  {}

  // ---------------------------------------------------------------------------
  // The bit order, in numbers
  // ---------------------------------------------------------------------------

  /** What the bit of piece 8j + t is worth in byte j. */
  const BIT_VALUES: seq<nat> := [128, 64, 32, 16, 8, 4, 2, 1]

  lemma {:induction false} ShiftRightDivides(v: nat, k: nat)
    requires k < 8
    ensures ShiftRight(v, k) == v / BIT_VALUES[7 - k]
  {
    if k > 0 {
      ShiftRightDivides(v / 2, k - 1);
    }
  }

  /** Piece 8j + t is offered exactly if byte j, divided by the value of bit t from the top, is odd. */
  lemma OfferedByValue(bitfield: Bytes, j: nat, t: nat)
    requires t < 8
    ensures HasPiece(bitfield, 8 * j + t) <==> j < |bitfield| && bitfield[j] as nat / BIT_VALUES[t] % 2 == 1
  {
    assert (8 * j + t) / 8 == j && (8 * j + t) % 8 == t;
    if j < |bitfield| {
      ShiftRightDivides(bitfield[j], 7 - t);
    }
  }

  /** The bytes as one big-endian integer. */
  function Integer(bytes: Bytes): nat {
    if bytes == [] then 0 else 256 * Integer(bytes[..|bytes| - 1]) + bytes[|bytes| - 1] as nat
  }

  /** The sum of `2^(width - 1 - i)` over the members `i >= from` below `width`. */
  function Powers(have: set<nat>, width: nat, from: nat): nat
    decreases width - from
  {
    if from >= width then 0 else (if from in have then Pow2(width - 1 - from) else 0) + Powers(have, width, from + 1)
  }

  /** One more place at the end doubles the sum. */
  lemma {:induction false} OneMorePlace(have: set<nat>, width: nat, from: nat)
    requires from <= width
    ensures Powers(have, width + 1, from) == 2 * Powers(have, width, from) + if width in have then 1 else 0
    decreases width - from
  {
    if from < width {
      OneMorePlace(have, width, from + 1);
    } else {
      assert Powers(have, width + 1, width + 1) == 0;
    }
  }

  /** Each bit doubles what the bits above it come to. */
  lemma NextBit(v: nat, t: nat)
    requires v < 256 && 0 < t < 8
    ensures v / BIT_VALUES[t] == 2 * (v / BIT_VALUES[t - 1]) + v / BIT_VALUES[t] % 2
  {
    assert v / 2 / 2 == v / 4;
    assert v / 4 / 2 == v / 8;
    assert v / 8 / 2 == v / 16;
    assert v / 16 / 2 == v / 32;
    assert v / 32 / 2 == v / 64;
    assert v / 64 / 2 == v / 128;
  }

  lemma {:induction false} BitsSoFar(have: set<nat>, width: nat, b: byte, t: nat)
    requires forall k: nat :: k < 8 ==> (width + k in have <==> b as nat / BIT_VALUES[k] % 2 == 1)
    requires t < 8
    ensures Powers(have, width + t + 1, 0) == 2 * Pow2(t) * Powers(have, width, 0) + b as nat / BIT_VALUES[t]
  {
    hide Powers;
    OneMorePlace(have, width + t, 0);
    assert width + t in have <==> b as nat / BIT_VALUES[t] % 2 == 1;
    if t > 0 {
      BitsSoFar(have, width, b, t - 1);
      NextBit(b, t);
      Twice(t, Powers(have, width, 0));
    }
  }

  lemma Twice(t: nat, n: nat)
    requires t > 0
    ensures 2 * (2 * Pow2(t - 1) * n) == 2 * Pow2(t) * n
  {}

  lemma EightMorePlaces(have: set<nat>, width: nat, b: byte)
    requires forall t: nat :: t < 8 ==> (width + t in have <==> b as nat / BIT_VALUES[t] % 2 == 1)
    ensures Powers(have, width + 8, 0) == 256 * Powers(have, width, 0) + b as nat
  {
    hide Powers;
    BitsSoFar(have, width, b, 7);
    assert Pow2(7) == 128;
  }

  /** The bytes are those of the sum, read as one big-endian integer, of `2^(8 * |bitfield| - 1 - i)` over the pieces. */
  lemma {:induction false} BytesArePowers(bytes: Bytes, have: set<nat>)
    requires forall j: nat, t: nat :: j < |bytes| && t < 8 ==>
               (8 * j + t in have <==> bytes[j] as nat / BIT_VALUES[t] % 2 == 1)
    ensures Integer(bytes) == Powers(have, 8 * |bytes|, 0)
  {
    if bytes != [] {
      var front, last := bytes[..|bytes| - 1], |bytes| - 1;
      BytesArePowers(front, have);
      EightMorePlaces(have, 8 * last, bytes[last]);
    }
  }

  /** A bitfield is the integer with bit `8 * |bitfield| - 1 - i` set for each piece it has. */
  lemma RepresentsInteger(bitfield: Bytes, have: set<nat>, numPieces: nat)
    requires Represents(bitfield, have, numPieces)
    ensures Integer(bitfield) == Powers(set i | i in have && i < numPieces, 8 * |bitfield|, 0)
  {
    var held := set i | i in have && i < numPieces;
    forall j: nat, t: nat | j < |bitfield| && t < 8
      ensures 8 * j + t in held <==> bitfield[j] as nat / BIT_VALUES[t] % 2 == 1
    {
      OfferedByValue(bitfield, j, t);
      assert HasPiece(bitfield, 8 * j + t) <==> 8 * j + t in held;
    }
    BytesArePowers(bitfield, held);
  }
}
