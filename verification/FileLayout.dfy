/**
 The disk layout of a torrent: files laid end to end form one flat byte string, and a write of a
 range of that string is cut into one chunk per file it overlaps.
 */
module FileLayout {
  import opened Basics

  /** Where file `k` starts: the running offset of the span loop. */
  function StartOf(lens: seq<nat>, k: nat): nat
    requires k <= |lens|
  {
    if k == 0 then 0 else StartOf(lens, k - 1) + lens[k - 1]
  }

  function Total(lens: seq<nat>): nat {
    StartOf(lens, |lens|)
  }

  /** A file's byte at `i`, zero past its end. */
  function ByteOf(content: Bytes, i: nat): byte {
    if i < |content| then content[i] else 0
  }

  function Pad(content: Bytes, length: nat): (p: Bytes)
    ensures |p| == length
  {
    seq(length, i requires 0 <= i < length => ByteOf(content, i))
  }

  /** `count` bytes of a file from `offset`, zeros where it ends early. */
  function Padded(content: Bytes, offset: nat, count: nat): (p: Bytes)
    ensures |p| == count
    ensures forall i :: 0 <= i < count ==> p[i] == ByteOf(content, offset + i)
  {
    seq<byte>(count, i requires 0 <= i < count => ByteOf(content, offset + i))
  }

  function FlatUpTo(files: seq<Bytes>, lens: seq<nat>, n: nat): (flat: Bytes)
    requires |files| == |lens| && n <= |lens|
    ensures |flat| == StartOf(lens, n)
  {
    if n == 0 then [] else FlatUpTo(files, lens, n - 1) + Pad(files[n - 1], lens[n - 1])
  }

  /** The zero-padded concatenation of the files. */
  function Flat(files: seq<Bytes>, lens: seq<nat>): (flat: Bytes)
    requires |files| == |lens|
    ensures |flat| == Total(lens)
  {
    FlatUpTo(files, lens, |lens|)
  }

  /** Seek and write: a gap before `offset` is filled with zeros. */
  function WriteAt(content: Bytes, offset: nat, chunk: Bytes): Bytes {
    if chunk == [] then content
    else
      Pad(content, offset) + chunk + if offset + |chunk| < |content| then content[offset + |chunk|..] else []
  }

  lemma WriteAtBytes(content: Bytes, offset: nat, chunk: Bytes, i: nat)
    ensures ByteOf(WriteAt(content, offset, chunk), i)
         == if offset <= i < offset + |chunk| then chunk[i - offset] else ByteOf(content, i)
    ensures |WriteAt(content, offset, chunk)| == if chunk == [] then |content| else Max(|content|, offset + |chunk|)
  {}

  lemma StartOfZero(lens: seq<nat>)
    ensures StartOf(lens, 0) == 0
  {}

  lemma StartOfNext(lens: seq<nat>, k: nat)
    requires k < |lens|
    ensures StartOf(lens, k + 1) == StartOf(lens, k) + lens[k]
  {}

  lemma {:induction false} StartMonotone(lens: seq<nat>, j: nat, k: nat)
    requires j <= k <= |lens|
    ensures StartOf(lens, j) <= StartOf(lens, k)
    decreases k
  {
    if j < k {
      StartMonotone(lens, j, k - 1);
    }
  }

  lemma {:induction false} Locate(lens: seq<nat>, a: nat, n: nat) returns (k: nat)
    requires n <= |lens| && a < StartOf(lens, n)
    ensures k < n && StartOf(lens, k) <= a < StartOf(lens, k + 1)
  {
    if a >= StartOf(lens, n - 1) {
      k := n - 1;
    } else {
      k := Locate(lens, a, n - 1);
    }
  }

  lemma PadAt(content: Bytes, length: nat, i: nat)
    requires i < length
    ensures Pad(content, length)[i] == ByteOf(content, i)
  {}

  lemma {:induction false} FlatAt(files: seq<Bytes>, lens: seq<nat>, n: nat, k: nat, i: nat)
    requires |files| == |lens| && k < n <= |lens| && i < lens[k]
    ensures StartOf(lens, k) + i < StartOf(lens, n)
    ensures FlatUpTo(files, lens, n)[StartOf(lens, k) + i] == ByteOf(files[k], i)
  {
    hide Pad, ByteOf;
    StartMonotone(lens, k + 1, n);
    StartOfNext(lens, k);
    if k < n - 1 {
      StartMonotone(lens, k + 1, n - 1);
      FlatAt(files, lens, n - 1, k, i);
    } else {
      PadAt(files[k], lens[k], i);
    }
  }

  // ---------------------------------------------------------------------------
  // Cutting a range into chunks
  // ---------------------------------------------------------------------------

  function OverlapStart(lens: seq<nat>, k: nat, start: int): int
    requires k < |lens|
  {
    Max(start, StartOf(lens, k))
  }

  function OverlapEnd(lens: seq<nat>, k: nat, end: int): int
    requires k < |lens|
  {
    Min(end, StartOf(lens, k + 1))
  }

  predicate Overlaps(lens: seq<nat>, k: nat, start: int, end: int) {
    k < |lens| && OverlapStart(lens, k, start) < OverlapEnd(lens, k, end)
  }

  /** The files that the range touches. */
  function Touched(lens: seq<nat>, start: int, end: int): set<nat> {
    set k: nat | k < |lens| && Overlaps(lens, k, start, end)
  }

  /** The content of file `k` after the chunk of `data` at flat address `start` is written to it. */
  function WriteChunk(content: Bytes, lens: seq<nat>, k: nat, start: nat, data: Bytes): Bytes
    requires Overlaps(lens, k, start, start + |data|)
  {
    var lo, hi := OverlapStart(lens, k, start), OverlapEnd(lens, k, start + |data|);
    WriteAt(content, lo - StartOf(lens, k), data[lo - start..hi - start])
  }

  datatype Task = Task(file: nat, offset: nat, chunk: Bytes)

  /** The write queued for file `k`. */
  function TaskOf(lens: seq<nat>, k: nat, start: nat, data: Bytes): Task
    requires Overlaps(lens, k, start, start + |data|)
  {
    var lo, hi := OverlapStart(lens, k, start), OverlapEnd(lens, k, start + |data|);
    Task(k, lo - StartOf(lens, k), data[lo - start..hi - start])
  }

  lemma TaskIsChunk(content: Bytes, lens: seq<nat>, k: nat, start: nat, data: Bytes)
    requires Overlaps(lens, k, start, start + |data|)
    ensures var t := TaskOf(lens, k, start, data);
            t.file == k && WriteAt(content, t.offset, t.chunk) == WriteChunk(content, lens, k, start, data)
  {}

  function TasksFor(lens: seq<nat>, start: nat, data: Bytes): set<Task> {
    set k | k in Touched(lens, start, start + |data|) :: TaskOf(lens, k, start, data)
  }

  /** The writes queued once the first `n` files have been looked at. */
  function TasksBelow(lens: seq<nat>, start: nat, data: Bytes, n: nat): set<Task> {
    set k | k in Touched(lens, start, start + |data|) && k < n :: TaskOf(lens, k, start, data)
  }

  lemma NoTasksBelow(lens: seq<nat>, start: nat, data: Bytes)
    ensures TasksBelow(lens, start, data, 0) == {}
  {}

  lemma TasksBelowStep(lens: seq<nat>, start: nat, data: Bytes, n: nat)
    requires n < |lens|
    ensures TasksBelow(lens, start, data, n + 1)
         == TasksBelow(lens, start, data, n) + if Overlaps(lens, n, start, start + |data|) then {TaskOf(lens, n, start, data)} else {}
  {
    hide TaskOf;
  }

  lemma TasksBelowAll(lens: seq<nat>, start: nat, data: Bytes)
    ensures TasksBelow(lens, start, data, |lens|) == TasksFor(lens, start, data)
  {
    hide TaskOf;
  }

  lemma TaskOwner(lens: seq<nat>, start: nat, data: Bytes, t: Task) returns (k: nat)
    requires t in TasksFor(lens, start, data)
    ensures Overlaps(lens, k, start, start + |data|) && k == t.file && TaskOf(lens, k, start, data) == t
  {
    k :| k in Touched(lens, start, start + |data|) && TaskOf(lens, k, start, data) == t;
  }

  lemma TaskInTasks(lens: seq<nat>, start: nat, data: Bytes, k: nat)
    requires Overlaps(lens, k, start, start + |data|)
    ensures TaskOf(lens, k, start, data) in TasksFor(lens, start, data) && TaskOf(lens, k, start, data).file == k
  {
    assert k in Touched(lens, start, start + |data|);
  }

  /** All chunks of a write applied, each to its own file. */
  function AfterWrite(files: seq<Bytes>, lens: seq<nat>, start: nat, data: Bytes): (after: seq<Bytes>)
    requires |files| == |lens|
    ensures |after| == |files|
  {
    seq(|files|, k requires 0 <= k < |files| =>
      if Overlaps(lens, k, start, start + |data|) then WriteChunk(files[k], lens, k, start, data) else files[k])
  }

  lemma AfterWriteAt(files: seq<Bytes>, lens: seq<nat>, start: nat, data: Bytes, k: nat)
    requires |files| == |lens| && k < |files|
    ensures AfterWrite(files, lens, start, data)[k]
         == if Overlaps(lens, k, start, start + |data|) then WriteChunk(files[k], lens, k, start, data) else files[k]
  {
    hide WriteChunk;
  }

  lemma ChunkBytes(content: Bytes, lens: seq<nat>, k: nat, start: nat, data: Bytes, i: nat)
    requires Overlaps(lens, k, start, start + |data|)
    ensures var a := StartOf(lens, k) + i;
            ByteOf(WriteChunk(content, lens, k, start, data), i)
            == if i < lens[k] && start <= a < start + |data| then data[a - start] else ByteOf(content, i)
    ensures i < |content| ==> i < |WriteChunk(content, lens, k, start, data)|
    ensures i < lens[k] && start <= StartOf(lens, k) + i < start + |data| ==> i < |WriteChunk(content, lens, k, start, data)|
  {
    hide WriteAt, ByteOf, StartOf;
    StartOfNext(lens, k);
    var lo, hi := OverlapStart(lens, k, start), OverlapEnd(lens, k, start + |data|);
    var offset: nat, chunk := lo - StartOf(lens, k), data[lo - start..hi - start];
    assert WriteChunk(content, lens, k, start, data) == WriteAt(content, offset, chunk);
    hide WriteChunk;
    WriteAtBytes(content, offset, chunk, i);
    assert offset <= i < offset + |chunk| <==> i < lens[k] && start <= StartOf(lens, k) + i < start + |data|;
    assert offset <= i < offset + |chunk| ==> chunk[i - offset] == data[StartOf(lens, k) + i - start];
  }

  function Splice(flat: Bytes, start: nat, data: Bytes): (s: Bytes)
    requires start + |data| <= |flat|
    ensures |s| == |flat|
  {
    flat[..start] + data + flat[start + |data|..]
  }

  /** A write replaces exactly its range of the flat string, for any file sizes. */
  lemma WriteIsSplice(files: seq<Bytes>, lens: seq<nat>, start: nat, data: Bytes)
    requires |files| == |lens| && start + |data| <= Total(lens)
    ensures Flat(AfterWrite(files, lens, start, data), lens) == Splice(Flat(files, lens), start, data)
  {
    hide WriteChunk, Splice;
    var after := AfterWrite(files, lens, start, data);
    forall a | 0 <= a < Total(lens) ensures Flat(after, lens)[a] == Splice(Flat(files, lens), start, data)[a] {
      var k := Locate(lens, a, |lens|);
      var i := a - StartOf(lens, k);
      FlatAt(files, lens, |lens|, k, i);
      FlatAt(after, lens, |lens|, k, i);
      SpliceAt(Flat(files, lens), start, data, a);
      if Overlaps(lens, k, start, start + |data|) {
        ChunkBytes(files[k], lens, k, start, data, i);
      }
    }
  }

  lemma SpliceAt(flat: Bytes, start: nat, data: Bytes, a: nat)
    requires start + |data| <= |flat| && a < |flat|
    ensures Splice(flat, start, data)[a] == if start <= a < start + |data| then data[a - start] else flat[a]
  {}

  lemma ChunkLength(content: Bytes, lens: seq<nat>, k: nat, start: nat, data: Bytes)
    requires Overlaps(lens, k, start, start + |data|)
    ensures |content| <= |WriteChunk(content, lens, k, start, data)| <= Max(|content|, lens[k])
  {
    hide WriteAt, ByteOf;
    var lo, hi := OverlapStart(lens, k, start), OverlapEnd(lens, k, start + |data|);
    WriteAtBytes(content, lo - StartOf(lens, k), data[lo - start..hi - start], 0);
    StartOfNext(lens, k);
  }

  /** Bytes of a file past its torrent length are never touched, and no file shrinks. */
  lemma WriteStaysInside(files: seq<Bytes>, lens: seq<nat>, start: nat, data: Bytes, k: nat)
    requires |files| == |lens| && k < |lens|
    ensures |files[k]| <= |AfterWrite(files, lens, start, data)[k]| <= Max(|files[k]|, lens[k])
    ensures forall i :: lens[k] <= i < |files[k]| ==> AfterWrite(files, lens, start, data)[k][i] == files[k][i]
  {
    hide WriteChunk, AfterWrite;
    AfterWriteAt(files, lens, start, data, k);
    if Overlaps(lens, k, start, start + |data|) {
      ChunkLength(files[k], lens, k, start, data);
      forall i | lens[k] <= i < |files[k]| ensures AfterWrite(files, lens, start, data)[k][i] == files[k][i] {
        ChunkBytes(files[k], lens, k, start, data, i);
      }
    }
  }

  // ---------------------------------------------------------------------------
  // True bytes on disk
  // ---------------------------------------------------------------------------

  /** File `k` really holds the true byte at its position `i`: not padding. */
  predicate HoldsTrue(files: seq<Bytes>, lens: seq<nat>, truth: Bytes, k: nat, i: nat)
    requires |files| == |lens| && |truth| == Total(lens)
  {
    k < |lens| && i < lens[k] && i < |files[k]|
    && StartOf(lens, k) + i < |truth| && files[k][i] == truth[StartOf(lens, k) + i]
  }

  /** Every file position whose flat address is in the range holds its true byte. */
  predicate RangeTrue(files: seq<Bytes>, lens: seq<nat>, truth: Bytes, start: nat, end: nat)
    requires |files| == |lens| && |truth| == Total(lens)
  {
    forall k: nat, i: nat :: k < |lens| && i < lens[k] && start <= StartOf(lens, k) + i < end ==> HoldsTrue(files, lens, truth, k, i)
  }

  /** Writing one chunk of true bytes makes its range true and keeps every byte that was true. */
  lemma TrueChunk(files: seq<Bytes>, lens: seq<nat>, truth: Bytes, k: nat, start: nat, data: Bytes)
    requires |files| == |lens| && |truth| == Total(lens)
    requires Overlaps(lens, k, start, start + |data|)
    requires start + |data| <= |truth| && data == truth[start..start + |data|]
    ensures var after := files[k := WriteChunk(files[k], lens, k, start, data)];
            && (forall j: nat, i: nat :: HoldsTrue(files, lens, truth, j, i) ==> HoldsTrue(after, lens, truth, j, i))
            && (forall i: nat :: i < lens[k] && start <= StartOf(lens, k) + i < start + |data| ==> HoldsTrue(after, lens, truth, k, i))
  {
    hide WriteChunk, StartOf, ByteOf;
    forall i: nat | i < lens[k]
      ensures HoldsTrue(files, lens, truth, k, i) ==> HoldsTrue(files[k := WriteChunk(files[k], lens, k, start, data)], lens, truth, k, i)
      ensures start <= StartOf(lens, k) + i < start + |data| ==>
                HoldsTrue(files[k := WriteChunk(files[k], lens, k, start, data)], lens, truth, k, i)
    {
      TrueByte(files, lens, truth, k, start, data, i);
    }
  }

  lemma TrueByte(files: seq<Bytes>, lens: seq<nat>, truth: Bytes, k: nat, start: nat, data: Bytes, i: nat)
    requires |files| == |lens| && |truth| == Total(lens)
    requires Overlaps(lens, k, start, start + |data|) && i < lens[k]
    requires start + |data| <= |truth| && data == truth[start..start + |data|]
    ensures var after := files[k := WriteChunk(files[k], lens, k, start, data)];
            && (HoldsTrue(files, lens, truth, k, i) ==> HoldsTrue(after, lens, truth, k, i))
            && (start <= StartOf(lens, k) + i < start + |data| ==> HoldsTrue(after, lens, truth, k, i))
  {
    hide WriteChunk, StartOf;
    var a := StartOf(lens, k) + i;
    StartMonotone(lens, k + 1, |lens|);
    StartOfNext(lens, k);
    ChunkBytes(files[k], lens, k, start, data, i);
    if start <= a < start + |data| {
      assert data[a - start] == truth[a];
    }
  }

  /** Reading inside one file reads the matching slice of the flat string. */
  lemma PaddedIsFlat(files: seq<Bytes>, lens: seq<nat>, k: nat, offset: nat, count: nat)
    requires |files| == |lens| && k < |lens| && offset + count <= lens[k]
    ensures StartOf(lens, k) + offset + count <= Total(lens)
    ensures Padded(files[k], offset, count) == Flat(files, lens)[StartOf(lens, k) + offset..StartOf(lens, k) + offset + count]
  {
    StartMonotone(lens, k + 1, |lens|);
    var slice := Flat(files, lens)[StartOf(lens, k) + offset..StartOf(lens, k) + offset + count];
    forall i | 0 <= i < count ensures Padded(files[k], offset, count)[i] == slice[i] {
      FlatAt(files, lens, |lens|, k, offset + i);
    }
  }

  /** When every byte of a flat range is true, the range of the flat string is the true slice. */
  lemma TrueRange(files: seq<Bytes>, lens: seq<nat>, truth: Bytes, start: nat, end: nat)
    requires |files| == |lens| && |truth| == Total(lens) && start <= end <= |truth|
    requires RangeTrue(files, lens, truth, start, end)
    ensures Flat(files, lens)[start..end] == truth[start..end]
  {
    forall a | start <= a < end ensures Flat(files, lens)[a] == truth[a] {
      var k := Locate(lens, a, |lens|);
      var i := a - StartOf(lens, k);
      assert HoldsTrue(files, lens, truth, k, i);
      FlatAt(files, lens, |lens|, k, i);
    }
  }

  // ---------------------------------------------------------------------------
  // Pieces
  // ---------------------------------------------------------------------------

  /** The true bytes of piece `i`. */
  function PieceOf(truth: Bytes, pieceLength: nat, i: nat): Bytes {
    var start := i * pieceLength;
    if start <= |truth| then truth[start..Min(start + pieceLength, |truth|)] else []
  }

  /** Pieces written one after another, in any order and any number of times. */
  function WriteAll(files: seq<Bytes>, lens: seq<nat>, pieceLength: nat, truth: Bytes, order: seq<nat>): (after: seq<Bytes>)
    requires |files| == |lens|
    ensures |after| == |files|
  {
    if order == [] then
      files
    else
      var last := |order| - 1;
      AfterWrite(
        WriteAll(files, lens, pieceLength, truth, order[..last]),
        lens, order[last] * pieceLength, PieceOf(truth, pieceLength, order[last]))
  }

  lemma AfterWriteTrue(files: seq<Bytes>, lens: seq<nat>, truth: Bytes, start: nat, data: Bytes)
    requires |files| == |lens| && |truth| == Total(lens)
    requires data == [] || (start + |data| <= |truth| && data == truth[start..start + |data|])
    ensures var after := AfterWrite(files, lens, start, data);
            && (forall k: nat, i: nat :: HoldsTrue(files, lens, truth, k, i) ==> HoldsTrue(after, lens, truth, k, i))
            && RangeTrue(after, lens, truth, start, start + |data|)
  {
    hide WriteChunk;
    var after := AfterWrite(files, lens, start, data);
    forall k: nat, i: nat | k < |lens| && i < lens[k]
      ensures HoldsTrue(files, lens, truth, k, i) ==> HoldsTrue(after, lens, truth, k, i)
      ensures start <= StartOf(lens, k) + i < start + |data| ==> HoldsTrue(after, lens, truth, k, i)
    {
      if Overlaps(lens, k, start, start + |data|) {
        ChunkBytes(files[k], lens, k, start, data, i);
        StartMonotone(lens, k + 1, |lens|);
      }
    }
  }

  lemma {:induction false} WriteAllTrue(files: seq<Bytes>, lens: seq<nat>, pieceLength: nat, truth: Bytes, order: seq<nat>, p: nat)
    requires |files| == |lens| && |truth| == Total(lens) && p in order
    ensures var start: nat := p * pieceLength;
            RangeTrue(WriteAll(files, lens, pieceLength, truth, order), lens, truth, start, start + |PieceOf(truth, pieceLength, p)|)
  {
    hide HoldsTrue, AfterWrite, PieceOf;
    var last := |order| - 1;
    var q := order[last];
    var before := WriteAll(files, lens, pieceLength, truth, order[..last]);
    PieceIsSlice(truth, pieceLength, q);
    AfterWriteTrue(before, lens, truth, q * pieceLength, PieceOf(truth, pieceLength, q));
    if p != q {
      assert order == order[..last] + [q];
      WriteAllTrue(files, lens, pieceLength, truth, order[..last], p);
    }
  }

  lemma PieceIsSlice(truth: Bytes, pieceLength: nat, p: nat)
    ensures var data := PieceOf(truth, pieceLength, p);
            data == [] || (p * pieceLength + |data| <= |truth| && data == truth[p * pieceLength..p * pieceLength + |data|])
  {}

  /** Every address lies in the range of the piece its quotient names: the pieces tile the stream. */
  lemma InPiece(truth: Bytes, pieceLength: nat, a: nat)
    requires pieceLength > 0 && a < |truth|
    ensures var p := a / pieceLength;
            p * pieceLength <= a < p * pieceLength + |PieceOf(truth, pieceLength, p)| <= |truth|
            && PieceOf(truth, pieceLength, p) == truth[p * pieceLength..p * pieceLength + |PieceOf(truth, pieceLength, p)|]
  {
    var p := a / pieceLength;
    assert a == p * pieceLength + a % pieceLength;
    PieceFrom(truth, pieceLength, p, p * pieceLength);
    hide PieceOf;
  }

  lemma PieceFrom(truth: Bytes, pieceLength: nat, p: nat, start: nat)
    requires start == p * pieceLength && start < |truth|
    ensures var data := PieceOf(truth, pieceLength, p);
            |data| == Min(pieceLength, |truth| - start) && data == truth[start..start + |data|]
  {}

  /** Writing every piece, in any order, leaves each file with its own slice of the stream. */
  lemma AllPiecesWritten(files: seq<Bytes>, lens: seq<nat>, pieceLength: nat, truth: Bytes, order: seq<nat>, k: nat)
    requires |files| == |lens| && |truth| == Total(lens) && pieceLength > 0 && k < |lens|
    requires forall p: nat :: p * pieceLength < |truth| ==> p in order
    ensures var file := WriteAll(files, lens, pieceLength, truth, order)[k];
            && StartOf(lens, k + 1) <= |truth|
            && lens[k] <= |file|
            && file[..lens[k]] == truth[StartOf(lens, k)..StartOf(lens, k + 1)]
  {
    hide WriteAll, PieceOf;
    var after := WriteAll(files, lens, pieceLength, truth, order);
    StartMonotone(lens, k + 1, |lens|);
    forall i: nat | i < lens[k] ensures HoldsTrue(after, lens, truth, k, i) {
      var p := (StartOf(lens, k) + i) / pieceLength;
      InPiece(truth, pieceLength, StartOf(lens, k) + i);
      WriteAllTrue(files, lens, pieceLength, truth, order, p);
    }
    TrueFile(after, lens, truth, k);
  }

  /** A file all of whose bytes are true is the slice of the stream between its bounds. */
  lemma TrueFile(files: seq<Bytes>, lens: seq<nat>, truth: Bytes, k: nat)
    requires |files| == |lens| && |truth| == Total(lens) && k < |lens|
    requires forall i: nat :: i < lens[k] ==> HoldsTrue(files, lens, truth, k, i)
    ensures StartOf(lens, k + 1) <= |truth| && lens[k] <= |files[k]|
    ensures files[k][..lens[k]] == truth[StartOf(lens, k)..StartOf(lens, k + 1)]
  {
    StartMonotone(lens, k + 1, |lens|);
    if lens[k] > 0 {
      assert HoldsTrue(files, lens, truth, k, lens[k] - 1);
    }
    StartOfNext(lens, k);
    hide StartOf;
    var slice := truth[StartOf(lens, k)..StartOf(lens, k + 1)];
    forall i | 0 <= i < lens[k] ensures files[k][..lens[k]][i] == slice[i] {
      assert HoldsTrue(files, lens, truth, k, i);
    }
  }
}
