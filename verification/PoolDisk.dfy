/**
 End to end: whatever the peers send and however sessions and worker threads interleave, the bytes
 that reach the files are true bytes in the right place, and they stay there.
 */
module PoolDisk {
  import opened Basics
  import opened PieceModel
  import opened PieceAssembly
  import opened ManagerModel
  import opened FileLayout
  import opened FileWriter
  import opened PoolModel
  import opened PoolSafety
  import opened PoolCompletion

  /** There are exactly as many pieces as cover the files; the metainfo parser does not check this. */
  ghost predicate Geometry(c: Config) {
    && c.torrent.pieceLength > 0
    && c.torrent.numPieces == |c.hashes|
    && forall i: nat :: i < |c.hashes| <==> PieceStart(c.torrent, i) < c.TotalLength()
  }

  /** `truth` is the content the metainfo describes. */
  ghost predicate Genuine(c: Config, truth: Bytes) {
    && Geometry(c)
    && |truth| == c.TotalLength()
    && forall i: nat :: i < |c.hashes| ==> c.sha1(PieceOf(truth, c.torrent.pieceLength, i)) == c.hashes[i]
  }

  /** No piece has other bytes with the same digest. */
  ghost predicate Unforgeable(c: Config, truth: Bytes) {
    forall i: nat :: i < |c.hashes| ==> NoSecondPreimage(c.sha1, PieceOf(truth, c.torrent.pieceLength, i))
  }

  lemma RemainderOf(total: nat, length: nat, q: nat)
    requires length > 0 && q * length < total <= q * length + length
    ensures total % length == if total == q * length + length then 0 else total - q * length
  {
    if total == q * length + length {
      assert total == (q + 1) * length + 0;
      ModUnique(total, length, q + 1, 0);
    } else {
      ModUnique(total, length, q, total - q * length);
    }
  }

  lemma ModUnique(n: nat, d: nat, q: nat, r: nat)
    requires d > 0 && n == q * d + r && r < d
    ensures n % d == r
  {
    var k := q - n / d;
    assert k * d == q * d - n / d * d;
    AtLeastOnce(k, d);
  }

  lemma AtLeastOnce(k: int, d: nat)
    ensures k >= 1 ==> k * d >= d
    ensures k <= -1 ==> k * d <= 0 - d
  {}

  /** The table's length of a piece is the length of its true bytes. */
  lemma PieceLengthIsTrue(c: Config, truth: Bytes, i: nat)
    requires Geometry(c) && |truth| == c.TotalLength() && i < |c.hashes|
    ensures var data := PieceOf(truth, c.torrent.pieceLength, i);
            && |data| == PieceLength(|c.hashes|, c.torrent.pieceLength, c.TotalLength(), i)
            && PieceStart(c.torrent, i) + |data| <= |truth|
            && data == truth[PieceStart(c.torrent, i)..PieceStart(c.torrent, i) + |data|]
  {
    var length, total, start := c.torrent.pieceLength, c.TotalLength(), PieceStart(c.torrent, i);
    assert PieceStart(c.torrent, i + 1) == start + length;
    if i == |c.hashes| - 1 {
      RemainderOf(total, length, i);
    }
  }

  // ---------------------------------------------------------------------------
  // What the jobs have written
  // ---------------------------------------------------------------------------

  /** The job carries the true bytes of its piece, is accepted, and each chunk it has written is still on disk. */
  ghost predicate JobTrue(c: Config, st: Pool, truth: Bytes, j: Job)
    requires |st.disk| == |c.Lens()| && |truth| == c.TotalLength()
  {
    var start := PieceStart(c.torrent, j.piece);
    && j.piece < |c.hashes|
    && j.data == PieceOf(truth, c.torrent.pieceLength, j.piece)
    && !j.rejected
    && j.todo <= Touched(c.Lens(), start, start + |j.data|)
    && forall k: nat, i: nat :: InChunk(c, j, k, i) && k !in j.todo ==> HoldsTrue(st.disk, c.Lens(), truth, k, i)
  }

  /** Position `i` of file `k` belongs to the piece of the job. */
  predicate InChunk(c: Config, j: Job, k: nat, i: nat) {
    var start := PieceStart(c.torrent, j.piece);
    k < |c.Lens()| && i < c.Lens()[k] && start <= StartOf(c.Lens(), k) + i < start + |j.data|
  }

  /** Some write of the piece has finished. */
  ghost predicate Written(st: Pool, p: nat) {
    exists j :: 0 <= j < |st.jobs| && st.jobs[j].piece == p && st.jobs[j].Finished()
  }

  ghost predicate DiskOk(c: Config, st: Pool, truth: Bytes) {
    && |st.disk| == |c.Lens()| && |truth| == c.TotalLength()
    && forall j :: 0 <= j < |st.jobs| ==> JobTrue(c, st, truth, st.jobs[j])
  }

  /** Verified bytes are the true bytes, and `write_piece` accepts them. */
  lemma VerifiedJob(c: Config, st: Pool, truth: Bytes, i: nat, data: Bytes)
    requires Genuine(c, truth) && Unforgeable(c, truth) && |st.disk| == |c.Lens()|
    requires i < |c.hashes| && c.sha1(data) == c.hashes[i]
    ensures JobTrue(c, st, truth, StartJob(c, i, data))
  {
    hide PieceOf, PieceStart;
    PieceLengthIsTrue(c, truth, i);
    assert NoSecondPreimage(c.sha1, PieceOf(truth, c.torrent.pieceLength, i));
    assert data == PieceOf(truth, c.torrent.pieceLength, i);
    ExpectedLength(c, truth, i);
    var start := PieceStart(c.torrent, i);
    var lens := c.Lens();
    forall k: nat, n: nat | InChunk(c, StartJob(c, i, data), k, n) ensures k in Touched(lens, start, start + |data|)
    {
      StartOfNext(lens, k);
    }
  }

  lemma ExpectedLength(c: Config, truth: Bytes, i: nat)
    requires Geometry(c) && |truth| == c.TotalLength() && i < |c.hashes|
    ensures |PieceOf(truth, c.torrent.pieceLength, i)| == Min(c.torrent.pieceLength, c.TotalLength() - PieceStart(c.torrent, i))
  {}

  lemma JobKept(c: Config, st: Pool, st': Pool, truth: Bytes, j: Job)
    requires |st.disk| == |c.Lens()| == |st'.disk| && |truth| == c.TotalLength() && JobTrue(c, st, truth, j)
    requires forall k: nat, i: nat :: HoldsTrue(st.disk, c.Lens(), truth, k, i) ==> HoldsTrue(st'.disk, c.Lens(), truth, k, i)
    ensures JobTrue(c, st', truth, j)
  {
    hide HoldsTrue, PieceOf, PieceStart;
  }

  lemma ChunkStepTrue(c: Config, st: Pool, truth: Bytes, j: nat, k: nat)
    requires Genuine(c, truth) && DiskOk(c, st, truth) && j < |st.jobs| && k in st.jobs[j].todo
    ensures DiskOk(c, RunChunk(c, st, j, k), truth)
    ensures forall f: nat, i: nat :: HoldsTrue(st.disk, c.Lens(), truth, f, i) ==> HoldsTrue(RunChunk(c, st, j, k).disk, c.Lens(), truth, f, i)
  {
    hide HoldsTrue, PieceOf, PieceStart, FileLayout.WriteChunk, StartOf, Geometry;
    var job, st', lens := st.jobs[j], RunChunk(c, st, j, k), c.Lens();
    var start := PieceStart(c.torrent, job.piece);
    JobIsTrue(c, st, truth, j);
    TrueChunk(st.disk, lens, truth, k, start, job.data);
    forall n | 0 <= n < |st'.jobs| ensures JobTrue(c, st', truth, st'.jobs[n]) {
      JobKept(c, st, st', truth, st.jobs[n]);
      if n == j {
        forall f: nat, i: nat | InChunk(c, st'.jobs[n], f, i) && f !in st'.jobs[n].todo
          ensures HoldsTrue(st'.disk, lens, truth, f, i)
        {
          assert InChunk(c, job, f, i) && (f == k || f !in job.todo);
        }
      }
    }
  }

  lemma JobIsTrue(c: Config, st: Pool, truth: Bytes, j: nat)
    requires Genuine(c, truth) && DiskOk(c, st, truth) && j < |st.jobs|
    ensures var job := st.jobs[j];
            var start := PieceStart(c.torrent, job.piece);
            start >= 0 && start + |job.data| <= |truth| && job.data == truth[start..start + |job.data|]
  {
    hide HoldsTrue;
    PieceLengthIsTrue(c, truth, st.jobs[j].piece);
  }

  lemma StepKeepsDisk(c: Config, st: Pool, ev: Event, truth: Bytes)
    requires Genuine(c, truth) && Unforgeable(c, truth) && PoolOk(c, st) && DiskOk(c, st, truth) && Enabled(c, st, ev)
    ensures DiskOk(c, Next(c, st, ev), truth)
    ensures forall k: nat, i: nat :: HoldsTrue(st.disk, c.Lens(), truth, k, i) ==> HoldsTrue(Next(c, st, ev).disk, c.Lens(), truth, k, i)
  {
    hide HoldsTrue, JobTrue, LocalStep, RunChunk, Genuine, Unforgeable, StartJob, Next, PoolOk;
    var st' := Next(c, st, ev);
    OtherNext(c, st, ev);
    if ev.WriteChunk? {
      ChunkStepTrue(c, st, truth, ev.job, ev.file);
    } else {
      if IsLocal(ev) {
        LocalStepOk(c, st, ev);
        LocalNext(c, st, ev);
        var l := LocalStep(c, st, ev);
        assert l.completed.Some? ==> l.completed.value.0 < |st.mgr.pieces|;
        if l.completed.Some? {
          HashesInTable(c, st, l.completed.value.0);
          VerifiedJob(c, st', truth, l.completed.value.0, l.completed.value.1);
        }
      }
      forall n | 0 <= n < |st'.jobs| ensures JobTrue(c, st', truth, st'.jobs[n]) {
        if n < |st.jobs| {
          JobKept(c, st, st', truth, st.jobs[n]);
        }
      }
    }
  }

  lemma HashesInTable(c: Config, st: Pool, i: nat)
    requires PoolOk(c, st) && i < |st.mgr.pieces|
    ensures |st.mgr.pieces| == |c.hashes| && st.mgr.pieces[i].expectedHash == c.hashes[i]
  {
    hide ManagerOk, SessionOk, NoOrphan, JobOk;
  }

  lemma {:induction false} RunKeepsDisk(c: Config, st: Pool, events: seq<Event>, st': Pool, truth: Bytes)
    requires Genuine(c, truth) && Unforgeable(c, truth) && PoolOk(c, st) && DiskOk(c, st, truth) && Run(c, st, events, st')
    ensures PoolOk(c, st') && DiskOk(c, st', truth)
    ensures forall k: nat, i: nat :: HoldsTrue(st.disk, c.Lens(), truth, k, i) ==> HoldsTrue(st'.disk, c.Lens(), truth, k, i)
    decreases |events|
  {
    hide PoolOk, DiskOk, Next, Enabled, HoldsTrue, Genuine, Unforgeable;
    if events != [] {
      StepOk(c, st, events[0]);
      StepKeepsDisk(c, st, events[0], truth);
      RunKeepsDisk(c, Next(c, st, events[0]), events[1..], st', truth);
    }
  }

  // ---------------------------------------------------------------------------
  // The end-to-end claims
  // ---------------------------------------------------------------------------

  /**
   Integrity over every run with arbitrary peers: once a piece's write has finished, its range of the
   disk is the true slice, in that state and in every later one.
   */
  lemma FinishedWritesAreTrue(c: Config, truth: Bytes, st0: Pool, before: seq<Event>, st: Pool, j: nat, after: seq<Event>, st': Pool)
    requires Genuine(c, truth) && Unforgeable(c, truth)
    requires Init(c, st0) && Run(c, st0, before, st) && j < |st.jobs| && st.jobs[j].Finished() && Run(c, st, after, st')
    ensures var start := PieceStart(c.torrent, st.jobs[j].piece);
            var end := start + |PieceOf(truth, c.torrent.pieceLength, st.jobs[j].piece)|;
            && 0 <= start <= end <= |truth|
            && |st'.disk| == |c.Lens()|
            && Flat(st'.disk, c.Lens())[start..end] == truth[start..end]
  {
    hide HoldsTrue, PieceOf, PieceStart, Flat, Genuine, Unforgeable, PoolOk, Run, Init;
    InitPoolOk(c, st0);
    InitDisk(c, truth, st0);
    RunKeepsDisk(c, st0, before, st, truth);
    RunKeepsDisk(c, st, after, st', truth);
    JobIsTrue(c, st, truth, j);
    assert JobTrue(c, st, truth, st.jobs[j]);
    var start := PieceStart(c.torrent, st.jobs[j].piece);
    TrueRange(st'.disk, c.Lens(), truth, start, start + |st.jobs[j].data|);
  }

  lemma InitDisk(c: Config, truth: Bytes, st: Pool)
    requires Genuine(c, truth) && Init(c, st)
    ensures DiskOk(c, st, truth)
  {}

  /** Once every piece has a finished write, each file holds exactly its slice of the content. */
  lemma DownloadIsComplete(c: Config, truth: Bytes, st0: Pool, events: seq<Event>, st: Pool, k: nat)
    requires Genuine(c, truth) && Unforgeable(c, truth) && Init(c, st0) && Run(c, st0, events, st) && k < |c.Lens()|
    requires forall p: nat :: p < |c.hashes| ==> Written(st, p)
    ensures |st.disk| == |c.Lens()| && c.Lens()[k] <= |st.disk[k]|
    ensures StartOf(c.Lens(), k + 1) <= |truth|
    ensures st.disk[k][..c.Lens()[k]] == truth[StartOf(c.Lens(), k)..StartOf(c.Lens(), k + 1)]
  {
    hide HoldsTrue, PieceOf, Unforgeable, PoolOk, Run, Init;
    var lens := c.Lens();
    InitPoolOk(c, st0);
    InitDisk(c, truth, st0);
    RunKeepsDisk(c, st0, events, st, truth);
    forall i: nat | i < lens[k] ensures HoldsTrue(st.disk, lens, truth, k, i) {
      ByteIsWritten(c, truth, st, k, i);
    }
    TrueFile(st.disk, lens, truth, k);
  }

  lemma ByteIsWritten(c: Config, truth: Bytes, st: Pool, k: nat, i: nat)
    requires Genuine(c, truth) && DiskOk(c, st, truth) && k < |c.Lens()| && i < c.Lens()[k]
    requires forall p: nat :: p < |c.hashes| ==> Written(st, p)
    ensures HoldsTrue(st.disk, c.Lens(), truth, k, i)
  {
    hide HoldsTrue, PieceOf, StartOf;
    var a := StartOf(c.Lens(), k) + i;
    StartMonotone(c.Lens(), k + 1, |c.Lens()|);
    StartOfNext(c.Lens(), k);
    var p := a / c.torrent.pieceLength;
    InPiece(truth, c.torrent.pieceLength, a);
    assert PieceStart(c.torrent, p) < c.TotalLength();
    assert Written(st, p);
    var j :| 0 <= j < |st.jobs| && st.jobs[j].piece == p && st.jobs[j].Finished();
    assert JobTrue(c, st, truth, st.jobs[j]);
    assert InChunk(c, st.jobs[j], k, i);
  }

  // ---------------------------------------------------------------------------
  // From the piece table to the disk
  // ---------------------------------------------------------------------------

  /** A write of the piece has been started. */
  ghost predicate HasJob(st: Pool, i: nat) {
    exists j :: 0 <= j < |st.jobs| && st.jobs[j].piece == i
  }

  /** Every COMPLETE piece has been handed to the callback. */
  ghost predicate CompleteHaveJobs(st: Pool) {
    forall i: nat :: IsComplete(st, i) ==> HasJob(st, i)
  }

  lemma BlockReports(sha1: Hash, m: Manager, s: Session, j: nat, begin: nat, block: Bytes, pick: nat, i: nat)
    requires ManagerOk(sha1, m) && i < |m.pieces| && m.pieces[i].state != COMPLETE
    ensures var l := OnBlock(sha1, m, s, j, begin, block, pick);
            && i < |l.mgr.pieces|
            && (l.mgr.pieces[i].state == COMPLETE ==> l.completed.Some? && l.completed.value.0 == i)
  {
    hide Top, RemoveFirst, Assembled, ManagerOk, Manager.AddBlock, Manager.Completes;
    if m.AddBlock(sha1, j, begin, block).Ok? {
      var m' := m.AddBlock(sha1, j, begin, block).value;
      AddBlockOk(sha1, m, j, begin, block);
      AddBlockShape(sha1, m, j, begin, block);
      AddedInside(sha1, m, j, begin, block);
      var s1 := s.(inFlight := s.inFlight - {(j, begin)});
      TopSameCompletion(m', s1, pick, i);
      TopSameCompletion(m', s1.(active := RemoveFirst(s1.active, j)), pick, i);
    }
  }

  lemma AddedInside(sha1: Hash, m: Manager, j: nat, begin: int, block: Bytes)
    requires m.AddBlock(sha1, j, begin, block).Ok?
    ensures j < |m.pieces|
  {}

  /** A piece becomes COMPLETE only in a step that reports it. */
  lemma CompletionIsReported(c: Config, st: Pool, ev: Event, i: nat)
    requires PoolOk(c, st) && Enabled(c, st, ev) && IsLocal(ev) && i < |st.mgr.pieces| && st.mgr.pieces[i].state != COMPLETE
    ensures var l := LocalStep(c, st, ev);
            && i < |l.mgr.pieces|
            && (l.mgr.pieces[i].state == COMPLETE ==> l.completed.Some? && l.completed.value.0 == i)
  {
    hide Top, Fill, OnBlock, ManagerOk, SessionOk, SameShape, NoOrphan, JobOk;
    var m, s := st.mgr, st.sessions[ev.id];
    match ev
    case Deliver(_, msg, pick) =>
      TopSameCompletion(m, s, pick, i);
      match msg {
        case Have(h) => TopSameCompletion(m.OnPeerHave(s.peer, h), s, pick, i);
        case Bitfield(bits) => TopSameCompletion(m.OnPeerBitfield(s.peer, bits), s, pick, i);
        case Piece(j, begin, block) => BlockReports(c.sha1, m, s, j, begin, block, pick, i);
        case _ =>
      }
    case Timeout(_, pick) => TopSameCompletion(m, s, pick, i);
    case Returned(_, pick) => TopSameCompletion(m, s, pick, i);
    case Sent(_, pick) =>
      TopSameCompletion(m, s.(inFlight := s.inFlight + {(s.phase.piece, s.phase.offset)}), pick, i);
    case Fail(_) =>
  }

  lemma JobsStay(c: Config, st: Pool, ev: Event, i: nat)
    requires Enabled(c, st, ev) && HasJob(st, i)
    ensures HasJob(Next(c, st, ev), i)
  {
    hide Next, LocalStep, RunChunk, Enabled;
    var j :| 0 <= j < |st.jobs| && st.jobs[j].piece == i;
    OtherNext(c, st, ev);
    if IsLocal(ev) {
      LocalNext(c, st, ev);
      assert Next(c, st, ev).jobs[j] == st.jobs[j];
    } else if ev.WriteChunk? {
      ChunkInJobs(c, st, ev);
      ChunkKeeps(c, st, ev.job, ev.file);
      assert Next(c, st, ev).jobs[j].piece == i;
    }
  }

  lemma ChunkInJobs(c: Config, st: Pool, ev: Event)
    requires Enabled(c, st, ev) && ev.WriteChunk?
    ensures ev.job < |st.jobs|
  {}

  lemma StepKeepsJobs(c: Config, st: Pool, ev: Event)
    requires PoolOk(c, st) && CompleteHaveJobs(st) && Enabled(c, st, ev)
    ensures CompleteHaveJobs(Next(c, st, ev))
  {
    hide PoolOk, Next, LocalStep, HasJob, CompleteHaveJobs, Enabled;
    var st' := Next(c, st, ev);
    forall i: nat | IsComplete(st', i) ensures HasJob(st', i) {
      WasOrIsReported(c, st, ev, i);
      if IsComplete(st, i) {
        CompleteHasJob(st, i);
        JobsStay(c, st, ev, i);
      }
    }
    JobsForAll(st');
  }

  lemma CompleteHasJob(st: Pool, i: nat)
    requires CompleteHaveJobs(st) && IsComplete(st, i)
    ensures HasJob(st, i)
  {}

  lemma JobsForAll(st: Pool)
    requires forall i: nat :: IsComplete(st, i) ==> HasJob(st, i)
    ensures CompleteHaveJobs(st)
  {}

  lemma WasOrIsReported(c: Config, st: Pool, ev: Event, i: nat)
    requires PoolOk(c, st) && Enabled(c, st, ev) && IsComplete(Next(c, st, ev), i)
    ensures IsComplete(st, i) || HasJob(Next(c, st, ev), i)
  {
    hide PoolOk, Next, LocalStep, RunChunk, Enabled, StartJob;
    var st' := Next(c, st, ev);
    if IsLocal(ev) {
      LocalNext(c, st, ev);
      SameNumber(c, st, ev);
      if !IsComplete(st, i) {
        CompletionIsReported(c, st, ev, i);
        JobPiece(c, LocalStep(c, st, ev).completed.value.0, LocalStep(c, st, ev).completed.value.1);
        assert st'.jobs[|st.jobs|].piece == i;
      }
    } else if ev.Release? {
      ReleasedSession(c, st, ev);
      ReleaseAt(c, st, ev);
    } else {
      OtherNext(c, st, ev);
      if ev.WriteChunk? {
        ChunkInJobs(c, st, ev);
        ChunkKeeps(c, st, ev.job, ev.file);
      }
    }
  }

  lemma JobPiece(c: Config, i: nat, data: Bytes)
    ensures StartJob(c, i, data).piece == i
  {}

  lemma SameNumber(c: Config, st: Pool, ev: Event)
    requires PoolOk(c, st) && Enabled(c, st, ev)
    ensures |Next(c, st, ev).mgr.pieces| == |st.mgr.pieces|
  {
    hide Next, Enabled, ManagerOk, NoOrphan, SessionOk, JobOk;
    StepOk(c, st, ev);
  }

  lemma ReleasedSession(c: Config, st: Pool, ev: Event)
    requires Enabled(c, st, ev) && ev.Release?
    ensures ev.id in st.sessions
  {}

  lemma ReleaseAt(c: Config, st: Pool, ev: Event)
    requires Enabled(c, st, ev) && ev.Release? && ev.id in st.sessions
    ensures forall i: nat :: IsComplete(Next(c, st, ev), i) ==> IsComplete(st, i)
  {
    hide Manager.Release, Next, Enabled;
    ReleaseNext(c, st, ev.id);
    ReleaseNeverCompletes(st.mgr, st.sessions[ev.id].Listed());
  }

  lemma ReleaseNeverCompletes(m: Manager, listed: set<nat>)
    ensures forall i: nat :: i < |m.pieces| && m.Release(listed).pieces[i].state == COMPLETE ==> m.pieces[i].state == COMPLETE
  {}

  lemma {:induction false} RunKeepsJobs(c: Config, st: Pool, events: seq<Event>, st': Pool)
    requires PoolOk(c, st) && CompleteHaveJobs(st) && Run(c, st, events, st')
    ensures CompleteHaveJobs(st')
    decreases |events|
  {
    hide PoolOk, Next, Enabled, CompleteHaveJobs;
    if events != [] {
      StepOk(c, st, events[0]);
      StepKeepsJobs(c, st, events[0]);
      RunKeepsJobs(c, Next(c, st, events[0]), events[1..], st');
    }
  }

  /** No chunk is waiting to be written. */
  ghost predicate Flushed(st: Pool) {
    forall j :: 0 <= j < |st.jobs| ==> st.jobs[j].todo == {}
  }

  lemma DoneIsWritten(c: Config, st: Pool, truth: Bytes)
    requires PoolOk(c, st) && DiskOk(c, st, truth) && CompleteHaveJobs(st) && st.mgr.IsDone() && Flushed(st)
    ensures forall p: nat :: p < |c.hashes| ==> Written(st, p)
  {
    hide ManagerOk, SessionOk, NoOrphan, JobOk, PieceOf, PieceStart, InChunk, HoldsTrue;
    forall p: nat | p < |c.hashes| ensures Written(st, p) {
      assert IsComplete(st, p);
      var j :| 0 <= j < |st.jobs| && st.jobs[j].piece == p;
      assert JobTrue(c, st, truth, st.jobs[j]);
      assert st.jobs[j].Finished();
    }
  }

  /**
   In every run, with arbitrary peers: when every piece is COMPLETE and no chunk is waiting to be
   written, the first bytes of each file are its slice of the content.
   */
  lemma DoneMeansOnDisk(c: Config, truth: Bytes, st0: Pool, events: seq<Event>, st: Pool, k: nat)
    requires Genuine(c, truth) && Unforgeable(c, truth) && Init(c, st0) && Run(c, st0, events, st) && k < |c.Lens()|
    requires st.mgr.IsDone() && Flushed(st)
    ensures |st.disk| == |c.Lens()| && c.Lens()[k] <= |st.disk[k]|
    ensures StartOf(c.Lens(), k + 1) <= |truth|
    ensures st.disk[k][..c.Lens()[k]] == truth[StartOf(c.Lens(), k)..StartOf(c.Lens(), k + 1)]
  {
    InitPoolOk(c, st0);
    InitDisk(c, truth, st0);
    InitNoneComplete(c, st0);
    hide PoolOk, DiskOk, Run, Init, Genuine, Unforgeable, CompleteHaveJobs, Manager.IsDone, Flushed, Written;
    RunKeepsDisk(c, st0, events, st, truth);
    RunKeepsJobs(c, st0, events, st);
    DoneIsWritten(c, st, truth);
    DownloadIsComplete(c, truth, st0, events, st, k);
  }

  lemma InitNoneComplete(c: Config, st: Pool)
    requires Init(c, st)
    ensures CompleteHaveJobs(st)
  {}

  /** A byte of a file changes only to become true, and nothing past a file's length changes. */
  lemma StepWritesOnlyTruth(c: Config, st: Pool, ev: Event, truth: Bytes, k: nat, i: nat)
    requires Genuine(c, truth) && DiskOk(c, st, truth) && Enabled(c, st, ev) && k < |c.Lens()|
    ensures |Next(c, st, ev).disk| == |st.disk|
    ensures ByteOf(Next(c, st, ev).disk[k], i) == ByteOf(st.disk[k], i)
            || HoldsTrue(Next(c, st, ev).disk, c.Lens(), truth, k, i)
  {
    hide LocalStep, Genuine, FileLayout.WriteChunk, PieceStart, JobTrue, Next, Touched;
    OtherNext(c, st, ev);
    if IsLocal(ev) {
      LocalNext(c, st, ev);
    } else if ev.WriteChunk? && k == ev.file {
      var job, lens := st.jobs[ev.job], c.Lens();
      var start := PieceStart(c.torrent, job.piece);
      JobIsTrue(c, st, truth, ev.job);
      if Overlaps(lens, k, start, start + |job.data|) {
        ChunkBytes(st.disk[k], lens, k, start, job.data, i);
        StartMonotone(lens, k + 1, |lens|);
        StartOfNext(lens, k);
        var a := StartOf(lens, k) + i;
        assert i < lens[k] && start <= a < start + |job.data| ==> job.data[a - start] == truth[a];
      }
    }
  }
}
