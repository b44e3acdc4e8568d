/** What is on disk put back together: files end to end, pieces end to end, and reading what was written. */
module DiskContent {
  import opened Basics
  import opened FileLayout
  import opened FileWriter
  import opened PoolModel
  import opened ManagerModel
  import opened PoolDisk
  import opened PoolLiveness

  // ---------------------------------------------------------------------------
  // End to end
  // ---------------------------------------------------------------------------

  lemma PadExact(content: Bytes)
    ensures Pad(content, |content|) == content
  {}

  lemma {:induction false} FlatUpToIsJoin(files: seq<Bytes>, lens: seq<nat>, n: nat)
    requires |files| == |lens| && n <= |lens|
    requires forall k :: 0 <= k < |lens| ==> |files[k]| == lens[k]
    ensures FlatUpTo(files, lens, n) == Join(files[..n])
  {
    hide Join, Pad;
    if n == 0 {
      JoinEmpty();
    } else {
      FlatUpToIsJoin(files, lens, n - 1);
      PadExact(files[n - 1]);
      JoinAppend(files[..n - 1], files[n - 1]);
      assert files[..n] == files[..n - 1] + [files[n - 1]];
    }
  }

  /** With every file at its torrent length, addresses count through the files in their order, one after another. */
  lemma FlatIsJoin(files: seq<Bytes>, lens: seq<nat>)
    requires |files| == |lens|
    requires forall k :: 0 <= k < |lens| ==> |files[k]| == lens[k]
    ensures Flat(files, lens) == Join(files)
  {
    FlatUpToIsJoin(files, lens, |lens|);
    assert files[..|lens|] == files;
  }

  function Pieces(truth: Bytes, pieceLength: nat, n: nat): (parts: seq<Bytes>)
    ensures |parts| == n
  {
    seq(n, i requires 0 <= i < n => PieceOf(truth, pieceLength, i))
  }

  lemma {:induction false} PiecesJoinUpTo(truth: Bytes, pieceLength: nat, n: nat)
    requires pieceLength > 0
    ensures Join(Pieces(truth, pieceLength, n)) == truth[..Min(n * pieceLength, |truth|)]
  {
    hide Join;
    if n == 0 {
      JoinEmpty();
    } else {
      PiecesJoinUpTo(truth, pieceLength, n - 1);
      JoinAppend(Pieces(truth, pieceLength, n - 1), PieceOf(truth, pieceLength, n - 1));
      assert Pieces(truth, pieceLength, n) == Pieces(truth, pieceLength, n - 1) + [PieceOf(truth, pieceLength, n - 1)];
      var start := (n - 1) * pieceLength;
      assert n * pieceLength == start + pieceLength;
      if start <= |truth| {
        assert PieceOf(truth, pieceLength, n - 1) == truth[start..Min(start + pieceLength, |truth|)];
        SliceJoin(truth, 0, start, Min(start + pieceLength, |truth|));
      }
    }
  }

  /** The pieces joined in order are the content. */
  lemma PiecesJoin(truth: Bytes, pieceLength: nat, n: nat)
    requires pieceLength > 0 && |truth| <= n * pieceLength
    ensures Join(Pieces(truth, pieceLength, n)) == truth
  {
    PiecesJoinUpTo(truth, pieceLength, n);
    assert truth[..|truth|] == truth;
  }

  /** The first bytes of each file, up to its torrent length. */
  function Fronts(files: seq<Bytes>, lens: seq<nat>): (parts: seq<Bytes>)
    requires |files| == |lens| && forall k :: 0 <= k < |lens| ==> lens[k] <= |files[k]|
    ensures |parts| == |files|
  {
    seq(|files|, k requires 0 <= k < |files| => files[k][..lens[k]])
  }

  /** File k starts with its slice of the content. */
  ghost predicate HoldsSlice(files: seq<Bytes>, lens: seq<nat>, truth: Bytes, k: nat)
    requires |files| == |lens| && k < |lens|
  {
    && StartOf(lens, k) <= StartOf(lens, k + 1) <= |truth| && lens[k] <= |files[k]|
    && files[k][..lens[k]] == truth[StartOf(lens, k)..StartOf(lens, k + 1)]
  }

  lemma {:induction false} FrontsJoinUpTo(files: seq<Bytes>, lens: seq<nat>, truth: Bytes, n: nat)
    requires |files| == |lens| && n <= |lens| && StartOf(lens, n) <= |truth|
    requires forall k :: 0 <= k < |lens| ==> lens[k] <= |files[k]|
    requires forall k: nat :: k < |lens| ==> HoldsSlice(files, lens, truth, k)
    ensures Join(Fronts(files, lens)[..n]) == truth[..StartOf(lens, n)]
  {
    hide Join, StartOf, HoldsSlice;
    var fronts := Fronts(files, lens);
    if n == 0 {
      JoinEmpty();
      StartOfZero(lens);
    } else {
      StartMonotone(lens, n - 1, n);
      FrontsJoinUpTo(files, lens, truth, n - 1);
      JoinAppend(fronts[..n - 1], fronts[n - 1]);
      assert fronts[..n] == fronts[..n - 1] + [fronts[n - 1]];
      FrontIsSlice(files, lens, truth, n - 1);
      SliceJoin(truth, 0, StartOf(lens, n - 1), StartOf(lens, n));
    }
  }

  lemma FrontIsSlice(files: seq<Bytes>, lens: seq<nat>, truth: Bytes, k: nat)
    requires |files| == |lens| && k < |lens| && HoldsSlice(files, lens, truth, k)
    requires forall j :: 0 <= j < |lens| ==> lens[j] <= |files[j]|
    ensures StartOf(lens, k) <= StartOf(lens, k + 1) <= |truth|
    ensures Fronts(files, lens)[k] == truth[StartOf(lens, k)..StartOf(lens, k + 1)]
  {
    hide StartOf;
  }

  /** Files that each hold their slice of the content hold, joined in their order, the content. */
  lemma FrontsJoin(files: seq<Bytes>, lens: seq<nat>, truth: Bytes)
    requires |files| == |lens| && Total(lens) == |truth|
    requires forall k :: 0 <= k < |lens| ==> lens[k] <= |files[k]|
    requires forall k: nat :: k < |lens| ==> HoldsSlice(files, lens, truth, k)
    ensures Join(Fronts(files, lens)) == truth
  {
    hide HoldsSlice, Join;
    FrontsJoinUpTo(files, lens, truth, |lens|);
    assert Fronts(files, lens)[..|lens|] == Fronts(files, lens);
    assert truth[..|truth|] == truth;
  }

  /** So in every run, once the table is done and no chunk waits, the files joined in order are the content. */
  lemma DoneFilesJoin(c: Config, truth: Bytes, st0: Pool, events: seq<Event>, st: Pool)
    requires Genuine(c, truth) && Unforgeable(c, truth) && Init(c, st0) && Run(c, st0, events, st)
    requires st.mgr.IsDone() && Flushed(st)
    ensures |st.disk| == |c.Lens()| && forall k :: 0 <= k < |st.disk| ==> c.Lens()[k] <= |st.disk[k]|
    ensures Join(Fronts(st.disk, c.Lens())) == truth
  {
    hide Unforgeable, Init, Run, Manager.IsDone, Flushed, StartOf, HoldsSlice, Join;
    DoneIsOnDisk(c, truth, st0, events, st);
    forall k: nat | k < |c.Lens()| ensures HoldsSlice(st.disk, c.Lens(), truth, k) && c.Lens()[k] <= |st.disk[k]| {
      SliceOnDisk(c, st, truth, k);
    }
    FrontsJoin(st.disk, c.Lens(), truth);
  }

  lemma SliceOnDisk(c: Config, st: Pool, truth: Bytes, k: nat)
    requires OnDisk(c, st, truth) && k < |c.Lens()|
    ensures HoldsSlice(st.disk, c.Lens(), truth, k) && c.Lens()[k] <= |st.disk[k]|
  {
    hide StartOf;
    assert FileOnDisk(c, st, truth, k);
  }

  // ---------------------------------------------------------------------------
  // Writing and reading a piece
  // ---------------------------------------------------------------------------

  /** What `read_piece` answers on these files. */
  function ReadBack(t: Torrent, files: seq<Bytes>, i: int, length: Option<int>): Result<Bytes, WriteError>
    requires |files| == |t.files|
  {
    match ReadLength(t, i, length)
    case Err(e) => Err(e)
    case Ok(n) =>
      var start := PieceStart(t, i);
      Ok(if n <= 0 then [] else Flat(files, Lengths(t.files))[start..start + n])
  }

  /** A piece that `write_piece` accepts is what `read_piece` then returns, and a shorter read returns its start. */
  lemma ReadAfterWrite(t: Torrent, files: seq<Bytes>, i: int, data: Bytes, n: nat)
    requires |files| == |t.files| && WriteCheck(t, i, |data|).None? && n <= |data|
    ensures var after := AfterWrite(files, Lengths(t.files), PieceStart(t, i), data);
            ReadBack(t, after, i, None) == Ok(data) && ReadBack(t, after, i, Some(n)) == Ok(data[..n])
  {
    hide AfterWrite, StartOf;
    var lens, start := Lengths(t.files), PieceStart(t, i);
    WriteIsSplice(files, lens, start, data);
    var flat := Flat(AfterWrite(files, lens, start, data), lens);
    forall a | start <= a < start + |data| ensures flat[a] == data[a - start] {
      SpliceAt(Flat(files, lens), start, data, a);
    }
    assert flat[start..start + |data|] == data;
    assert flat[start..start + n] == data[..n];
  }

  /** No other piece reads differently. */
  lemma OthersReadTheSame(t: Torrent, files: seq<Bytes>, i: int, data: Bytes, j: int)
    requires |files| == |t.files| && WriteCheck(t, i, |data|).None? && j != i
    ensures ReadBack(t, AfterWrite(files, Lengths(t.files), PieceStart(t, i), data), j, None) == ReadBack(t, files, j, None)
  {
    hide AfterWrite, StartOf;
    var lens, start := Lengths(t.files), PieceStart(t, i);
    WriteIsSplice(files, lens, start, data);
    if ReadLength(t, j, None).Ok? && ReadLength(t, j, None).value > 0 {
      var from, n := PieceStart(t, j), ReadLength(t, j, None).value;
      Apart(i, j, t.pieceLength);
      var before, after := Flat(files, lens), Flat(AfterWrite(files, lens, start, data), lens);
      forall a | from <= a < from + n ensures after[a] == before[a] {
        SpliceAt(before, start, data, a);
      }
      assert after[from..from + n] == before[from..from + n];
    }
  }

  lemma Apart(i: int, j: int, length: nat)
    requires i != j
    ensures i * length + length <= j * length || j * length + length <= i * length
  {
    if i < j {
      Multiples(i + 1, j, length);
    } else {
      Multiples(j + 1, i, length);
    }
  }

  lemma Multiples(i: int, j: int, length: nat)
    requires i <= j
    ensures i * length <= j * length && (i - 1) * length + length == i * length
  {}

  /** With piece numbers that cover the content, a write is accepted exactly for a piece of its true size. */
  lemma WriteAccepted(c: Config, truth: Bytes, i: int, size: nat)
    requires Geometry(c) && |truth| == c.TotalLength()
    ensures WriteCheck(c.torrent, i, size).None? <==>
              0 <= i < |c.hashes| && size == |PieceOf(truth, c.torrent.pieceLength, i)|
  {
    hide PieceOf;
    if 0 <= i < |c.hashes| {
      PieceLengthIsTrue(c, truth, i);
      ExpectedLength(c, truth, i);
    }
  }
}
