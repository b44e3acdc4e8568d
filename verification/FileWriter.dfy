/** `FileWriter`: one open handle per file, pieces cut into chunks that are written in any order. */
module FileWriter {
  import opened Basics
  import opened FileLayout

  datatype FileInfo = FileInfo(path: string, length: nat)

  datatype Torrent = Torrent(files: seq<FileInfo>, pieceLength: nat, numPieces: nat)

  datatype FileSpan = FileSpan(path: string, globalStart: nat, globalEnd: nat)

  datatype WriteError = Closed | IndexError | ExceedsTotal | WrongLength

  function Lengths(files: seq<FileInfo>): (lens: seq<nat>)
    ensures |lens| == |files|
    ensures forall i :: 0 <= i < |files| ==> lens[i] == files[i].length
  {
    seq(|files|, i requires 0 <= i < |files| => files[i].length)
  }

  predicate DistinctPaths(files: seq<FileInfo>) {
    forall i, j :: 0 <= i < j < |files| ==> files[i].path != files[j].path
  }

  function PieceStart(t: Torrent, i: int): (start: int)
    ensures i >= 0 ==> start >= 0
  {
    i * t.pieceLength
  }

  /** The checks of `write_piece`, in order. */
  function WriteCheck(t: Torrent, i: int, size: nat): Option<WriteError> {
    var total := Total(Lengths(t.files));
    if i < 0 || i >= t.numPieces then Some(IndexError)
    else if PieceStart(t, i) + size > total then Some(ExceedsTotal)
    else if size != Min(t.pieceLength, total - PieceStart(t, i)) then Some(WrongLength)
    else None
  }

  /** The checks of `read_piece`, and the length it settles on. */
  function ReadLength(t: Torrent, i: int, length: Option<int>): Result<int, WriteError> {
    var total := Total(Lengths(t.files));
    if i < 0 || i >= t.numPieces then Err(IndexError)
    else
      var n := if length.Some? then length.value else Min(t.pieceLength, total - PieceStart(t, i));
      if PieceStart(t, i) + n > total then Err(ExceedsTotal) else Ok(n)
  }

  class DiskFile {
    var content: Bytes

    constructor (content: Bytes)
      ensures this.content == content
    {
      this.content := content;
    }

    /** `_write_chunk`: seek, write and flush under the file's lock. */
    method Write(offset: nat, chunk: Bytes)
      modifies this
      ensures content == WriteAt(old(content), offset, chunk)
    {
      content := WriteAt(content, offset, chunk);
    }

    /** `_read_chunk`: what the file has, padded with zeros when it ends early. */
    method Read(offset: nat, count: nat) returns (data: Bytes)
      ensures data == Padded(content, offset, count)
    {
      data := if offset >= |content| then [] else content[offset..Min(offset + count, |content|)];
      if |data| < count {
        data := data + Zeros(count - |data|);
      }
    }
  }

  class FileWriter {
    const torrent: Torrent
    var spans: seq<FileSpan>
    var files: map<string, DiskFile>
    var closed: bool

    ghost function Lens(): (lens: seq<nat>)
      ensures |lens| == |torrent.files|
      ensures forall i :: 0 <= i < |lens| ==> lens[i] == torrent.files[i].length
    {
      Lengths(torrent.files)
    }

    /** The first `n` spans are those of the first `n` files. */
    ghost predicate SpansOk(n: nat)
      reads this
    {
      && n == |spans| <= |torrent.files|
      && forall k :: 0 <= k < |spans| ==>
           && spans[k].path == torrent.files[k].path
           && spans[k].globalStart == StartOf(Lens(), k)
           && spans[k].globalEnd == StartOf(Lens(), k + 1)
    }

    ghost predicate Valid()
      reads this
    {
      && DistinctPaths(torrent.files)
      && SpansOk(|torrent.files|)
      && (forall k :: 0 <= k < |spans| ==> spans[k].path in files)
      && (forall p, q :: p in files && q in files && p != q ==> files[p] != files[q])
    }

    /** The handle of file `k`. */
    ghost function Handle(k: nat): DiskFile
      requires Valid() && k < |spans|
      reads this
    {
      files[spans[k].path]
    }

    ghost function Handles(): set<DiskFile>
      reads this
    {
      set p | p in files :: files[p]
    }

    /** What the disk holds, file by file. */
    ghost function Contents(): (c: seq<Bytes>)
      requires Valid()
      reads this, Handles()
      ensures |c| == |Lens()|
    {
      seq(|spans|, k requires 0 <= k < |spans| && Valid() reads this, Handles() => Handle(k).content)
    }

    /**
     `onDisk` holds the files that already exist; the others are created empty. Equal paths share one
     handle, so the other methods are for distinct ones.
     */
    constructor (torrent: Torrent, onDisk: map<string, Bytes>)
      ensures fresh(Handles()) && !closed && this.torrent == torrent && SpansOk(|torrent.files|)
      ensures forall k :: 0 <= k < |spans| ==>
                && spans[k].path in files
                && files[spans[k].path].content == if spans[k].path in onDisk then onDisk[spans[k].path] else []
      ensures forall p, q :: p in files && q in files && p != q ==> files[p] != files[q]
      ensures DistinctPaths(torrent.files) ==> Valid()
    {
      this.torrent := torrent;
      spans, files, closed := [], map[], false;
      new;
      hide StartOf, Lengths;
      StartOfZero(Lens());
      var currentOffset: nat := 0;
      for k := 0 to |torrent.files|
        invariant currentOffset == StartOf(Lens(), k) && SpansOk(k)
        invariant files == map[] && !closed
      {
        var info := torrent.files[k];
        StartOfNext(Lens(), k);
        assert Lens()[k] == info.length;
        spans := spans + [FileSpan(info.path, currentOffset, currentOffset + info.length)];
        currentOffset := currentOffset + info.length;
      }
      OpenFiles(onDisk);
    }

    method OpenFiles(onDisk: map<string, Bytes>)
      requires files == map[]
      modifies this`files
      ensures fresh(Handles())
      ensures forall k :: 0 <= k < |spans| ==> spans[k].path in files
      ensures forall p :: p in files ==> files[p].content == if p in onDisk then onDisk[p] else []
      ensures forall p, q :: p in files && q in files && p != q ==> files[p] != files[q]
    {
      for k := 0 to |spans|
        invariant fresh(Handles())
        invariant forall p :: p in files ==> files[p].content == if p in onDisk then onDisk[p] else []
        invariant forall j :: 0 <= j < k ==> spans[j].path in files
        invariant forall p, q :: p in files && q in files && p != q ==> files[p] != files[q]
      {
        var key := spans[k].path;
        if key !in files {
          var handle := new DiskFile(if key in onDisk then onDisk[key] else []);
          assert forall p :: p in files ==> files[p] in Handles();
          files := files[key := handle];
        }
      }
    }

    method Close()
      modifies this`closed
      ensures closed
    {
      closed := true;
    }

    /** One write for each file the piece touches. */
    method CutPiece(pieceStart: nat, data: Bytes) returns (tasks: set<Task>)
      requires Valid()
      ensures tasks == TasksFor(Lens(), pieceStart, data)
    {
      hide Touched, TasksBelow, StartOf, Lengths;
      tasks := {};
      var pieceEnd := pieceStart + |data|;
      NoTasksBelow(Lens(), pieceStart, data);
      for k := 0 to |spans|
        invariant tasks == TasksBelow(Lens(), pieceStart, data, k)
      {
        var overlapStart := Max(pieceStart, spans[k].globalStart);
        var overlapEnd := Min(pieceEnd, spans[k].globalEnd);
        if overlapStart < overlapEnd {
          var dataStart := overlapStart - pieceStart;
          var dataLen := overlapEnd - overlapStart;
          tasks := tasks + {Task(k, overlapStart - spans[k].globalStart, data[dataStart..dataStart + dataLen])};
        }
        TasksBelowStep(Lens(), pieceStart, data, k);
      }
      TasksBelowAll(Lens(), pieceStart, data);
    }

    /** The chunks run in worker threads, so in any order. */
    method WritePiece(pieceIndex: int, data: Bytes) returns (r: Result<(), WriteError>)
      requires Valid()
      modifies Handles()
      ensures Valid()
      ensures closed ==> r == Err(Closed)
      ensures !closed ==> r == match WriteCheck(torrent, pieceIndex, |data|) case Some(e) => Err(e) case None => Ok(())
      ensures Contents() == if r.Ok? then AfterWrite(old(Contents()), Lens(), PieceStart(torrent, pieceIndex), data)
                            else old(Contents())
      ensures r.Ok? ==> 0 <= PieceStart(torrent, pieceIndex) && PieceStart(torrent, pieceIndex) + |data| <= Total(Lens())
      ensures r.Ok? ==> Flat(Contents(), Lens()) == Splice(old(Flat(Contents(), Lens())), PieceStart(torrent, pieceIndex), data)
    {
      hide AfterWrite, Flat, StartOf, Lengths, PieceStart, Splice;
      if closed {
        return Err(Closed);
      }
      if pieceIndex < 0 || pieceIndex >= torrent.numPieces {
        return Err(IndexError);
      }
      var pieceStart: nat := PieceStart(torrent, pieceIndex);
      var total := Total(Lengths(torrent.files));
      if pieceStart + |data| > total {
        return Err(ExceedsTotal);
      }
      if |data| != Min(torrent.pieceLength, total - pieceStart) {
        return Err(WrongLength);
      }
      var tasks := CutPiece(pieceStart, data);
      ghost var before := Contents();
      RunTasks(tasks, pieceStart, data);
      WriteIsSplice(before, Lens(), pieceStart, data);
      r := Ok(());
    }

    method RunTasks(tasks: set<Task>, ghost start: nat, ghost data: Bytes)
      requires Valid()
      requires tasks == TasksFor(Lens(), start, data)
      modifies Handles()
      ensures Valid()
      ensures Contents() == AfterWrite(old(Contents()), Lens(), start, data)
    {
      hide WriteChunk, WriteAt, TaskOf, TasksFor, StartOf, Lengths, AfterWrite, Overlaps;
      ghost var before := Contents();
      ghost var after := AfterWrite(before, Lens(), start, data);
      var todo := tasks;
      forall k: nat | k < |before| && !Waiting(k, start, data, todo) ensures before[k] == after[k] {
        AfterWriteAt(before, Lens(), start, data, k);
        if Overlaps(Lens(), k, start, start + |data|) {
          TaskInTasks(Lens(), start, data, k);
        }
      }
      while todo != {}
        invariant todo <= tasks
        invariant forall k: nat :: k < |before| ==>
            Contents()[k] == if Waiting(k, start, data, todo) then before[k] else after[k]
        decreases todo
      {
        var t :| t in todo;
        ghost var f := TaskOwner(Lens(), start, data, t);
        TaskIsChunk(before[f], Lens(), f, start, data);
        AfterWriteAt(before, Lens(), start, data, f);
        assert Waiting(f, start, data, todo);
        WriteOne(t);
        forall k: nat | k < |before| && k != f ensures Waiting(k, start, data, todo - {t}) <==> Waiting(k, start, data, todo) {
          OtherTask(k, start, data, t);
        }
        todo := todo - {t};
      }
    }

    /** The write for file `k` is still queued. */
    ghost predicate Waiting(k: nat, start: nat, data: Bytes, todo: set<Task>) {
      Overlaps(Lens(), k, start, start + |data|) && TaskOf(Lens(), k, start, data) in todo
    }

    lemma OtherTask(k: nat, start: nat, data: Bytes, t: Task)
      requires t in TasksFor(Lens(), start, data) && k != t.file
      ensures Overlaps(Lens(), k, start, start + |data|) ==> TaskOf(Lens(), k, start, data) != t
    {
      hide TasksFor;
      if Overlaps(Lens(), k, start, start + |data|) {
        TaskInTasks(Lens(), start, data, k);
      }
    }

    method WriteOne(t: Task)
      requires Valid() && t.file < |spans|
      modifies Handles()
      ensures Contents() == old(Contents())[t.file := WriteAt(old(Contents())[t.file], t.offset, t.chunk)]
    {
      hide WriteAt, StartOf, Lengths;
      ghost var now := Contents();
      forall k | 0 <= k < |spans| && k != t.file ensures Handle(k) != Handle(t.file) {
        assert torrent.files[Min(k, t.file)].path != torrent.files[Max(k, t.file)].path;
        assert spans[k].path != spans[t.file].path;
      }
      files[spans[t.file].path].Write(t.offset, t.chunk);
      assert forall k :: 0 <= k < |now| && k != t.file ==> Contents()[k] == now[k];
    }

    /** Reads each touched file in turn and joins the parts; they are found in address order. */
    method ReadPiece(pieceIndex: int, length: Option<int>) returns (r: Result<Bytes, WriteError>)
      requires Valid()
      ensures closed ==> r == Err(Closed)
      ensures !closed ==>
        match ReadLength(torrent, pieceIndex, length)
        case Err(e) => r == Err(e)
        case Ok(n) =>
          var start := PieceStart(torrent, pieceIndex);
          r == Ok(if n <= 0 then [] else Flat(Contents(), Lens())[start..start + n])
    {
      hide AfterWrite, Flat, StartOf, Lengths, PieceStart;
      if closed {
        return Err(Closed);
      }
      if pieceIndex < 0 || pieceIndex >= torrent.numPieces {
        return Err(IndexError);
      }
      var pieceStart: nat := PieceStart(torrent, pieceIndex);
      var total := Total(Lengths(torrent.files));
      var n := if length.Some? then length.value else Min(torrent.pieceLength, total - pieceStart);
      var pieceEnd := pieceStart + n;
      if pieceEnd > total {
        return Err(ExceedsTotal);
      }
      var data := ReadParts(pieceStart, pieceEnd);
      r := Ok(data);
    }

    method ReadParts(pieceStart: nat, pieceEnd: int) returns (data: Bytes)
      requires Valid() && pieceEnd <= Total(Lens())
      ensures data == if pieceEnd <= pieceStart then [] else Flat(Contents(), Lens())[pieceStart..pieceEnd]
    {
      hide Padded, Flat, StartOf, Lengths, UpTo;
      StartOfZero(Lens());
      data := [];
      if pieceStart < pieceEnd {
        UpToStart(Flat(Contents(), Lens()), pieceStart, pieceEnd);
      }
      ghost var contents := Contents();
      ghost var flat := Flat(contents, Lens());
      for k := 0 to |spans|
        invariant pieceEnd <= pieceStart ==> data == []
        invariant pieceStart < pieceEnd ==> data == UpTo(flat, pieceStart, pieceEnd, StartOf(Lens(), k))
      {
        StartMonotone(Lens(), k + 1, |Lens()|);
        StartOfNext(Lens(), k);
        var overlapStart := Max(pieceStart, spans[k].globalStart);
        var overlapEnd := Min(pieceEnd, spans[k].globalEnd);
        if overlapStart < overlapEnd {
          var offset := overlapStart - spans[k].globalStart;
          var chunk := files[spans[k].path].Read(offset, overlapEnd - overlapStart);
          assert contents[k] == Handle(k).content;
          PaddedIsFlat(contents, Lens(), k, offset, overlapEnd - overlapStart);
          data := data + chunk;
        }
        if pieceStart < pieceEnd {
          UpToNext(flat, pieceStart, pieceEnd, StartOf(Lens(), k), StartOf(Lens(), k + 1));
        }
      }
      assert Contents() == contents;
      if pieceStart < pieceEnd {
        UpToEnd(flat, pieceStart, pieceEnd);
      }
    }
  }

  /** The part of the range that lies before the given address. */
  function UpTo(flat: Bytes, start: nat, end: nat, address: nat): Bytes
    requires start < end <= |flat|
  {
    flat[start..Max(start, Min(end, address))]
  }

  lemma UpToStart(flat: Bytes, start: nat, end: nat)
    requires start < end <= |flat|
    ensures UpTo(flat, start, end, 0) == []
  {}

  lemma UpToEnd(flat: Bytes, start: nat, end: nat)
    requires start < end <= |flat|
    ensures UpTo(flat, start, end, |flat|) == flat[start..end]
  {}

  /** The file between two addresses adds its overlap with the range. */
  lemma UpToNext(flat: Bytes, start: nat, end: nat, a: nat, b: nat)
    requires start < end <= |flat| && a <= b <= |flat|
    ensures var lo, hi := Max(start, a), Min(end, b);
            UpTo(flat, start, end, b) == UpTo(flat, start, end, a) + if lo < hi then flat[lo..hi] else []
  {
    var lo, hi := Max(start, a), Min(end, b);
    if lo < hi {
      SliceJoin(flat, start, lo, hi);
    }
  }
}
