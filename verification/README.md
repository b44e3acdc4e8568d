# Verified model of the BitTorrent download engine

This project models the download engine of the client and proves what it is for: whatever peers send
and however sessions interleave, only verified bytes reach the disk, and they land in the right place.
`dafny verify dfyconfig.toml` checks the whole project.

## How the model is laid out

- **Values and specifications.** Each stateful part has a value (`Manager`, `PieceView`, `Pool`,
  the flat byte string of the files) and functions on it. The properties are lemmas about these.
- **Classes.** `Piece`, `PieceManager`, `BencodeDecoder`, `BencodeEncoder`, `FileWriter`, `PeerConnection`,
  `PeerSession` and `PeerPoolManager` have the program's fields, loops and in-place updates; their methods are
  proved to leave exactly the state the functions give.
- **The pool as a step system.** Code between two awaits is not interrupted. A session rests at an await
  (`Phase`), and an event takes it to its next one: a message, a timeout, a request written, the callback
  returning, an error or cancellation, the release in `_disconnect`, one chunk written by a worker thread, a
  phase of connecting, or a phase of `shutdown`. Those that wait for the lock get it in the order of their coming.
  A run is any sequence of enabled events; nothing is assumed about peers unless a lemma says so. `min` over the candidate set may take any rarest piece, so that choice is an input (`pick`).
- **SHA-1** is an arbitrary function. Where integrity needs it, the lemmas assume for each piece that no other
  bytes share the digest of its true content.

| file | content |
|---|---|
| Basics, Sorting, Numerals | bytes, joining, searching; `sorted` on a set; decimal numerals |
| Bencode, BencodeValue, BencodeCodec | concrete syntax and its parser; values, encoding, normal form; the decoder and encoder classes |
| TorrentFile | the info-hash slicer and the piece digests |
| Bits, PeerProtocol, WireFormat | bitfields; message and handshake codec, stream framing; the bytes written out |
| PieceModel, PieceAssembly | one piece, and block assembly |
| ManagerModel, PieceManager | the piece table, and the classes |
| FileLayout, FileWriter, DiskContent | the flat disk image, the writer classes, and reading back what was written |
| PoolModel, PoolRuns, PeerPool | the step system, concrete runs of it, and the session and pool classes |
| PoolCauses, PoolTurns | what one step does and why, read off the states around it |
| PoolSafety, PoolConnections, PoolOwnership, PoolCompletion, PoolDisk, PoolPipeline, PoolTermination, PoolCancellation, PoolLiveness | what holds over runs |

## What the proofs found

- `shutdown` cancels the sessions, and a cancellation of its own call cancels them again. One that waits for the lock in
  `_disconnect` then skips its release loop. A wait there needs the lock to be taken across an await, which only the
  closing of a connection turned away at its second check does. `PieceIsLost` is a run in which this happens,
  `PendingWillBeReleased` excludes it when `shutdown` is neither called nor cancelled after such a connection, and
  `LostExactly` says which pieces are lost. They stay PENDING and no session selects them (`LostForGood`), which matters if
  the pool or its piece manager is used again afterwards.
- `add_block` does not look at the piece's state: a block with new bytes for a COMPLETE piece takes it back, also after
  `_done_event` was set (`DoneThenUndone`; `StaysCompleteExactly` gives the exact condition). The bytes on disk stay true.
- Between the two checks of `_connect_one` the address is not looked at again, so one address dialled several times
  at once yields more open sessions than `max_peers` while `_sessions` lists one (`OpenWithoutBound`); the exact
  condition is `InsertKeepsRegistered`.
- `on_peer_have` keeps any index, and `select_piece` then raises for that peer, which ends the session (`StepEnds` says exactly when).
- The info-hash search takes the first `4:info`, which an announce string can hide (`InfoSliceMisled`); `FirstKeyIsTop`
  and `InfoSliceExact` are the exact conditions.
- The idle wait cancels its receive after five seconds and goes on. If the length prefix of a message had come and its body
  had not, the prefix is gone and the stream is read from the wrong place, also with an honest peer (`CancelledReceive`,
  `LostPrefixStalls`).
- Messages without fields are accepted with a payload, which re-encoding drops (`EncodeReceived`).
- Duplicate and unsorted dictionary keys are accepted, so `encode(decode(s))` may differ from s (`EncodeDecode`).

## Model

| member | source | states |
|---|---|---|
| `PoolDisk.FinishedWritesAreTrue` | client/modules/peerPool.py:372-383 | For every run with arbitrary peers, interleavings and chunk orders: once a piece's write has finished, its range of the flat disk image equals the true slice, in that state and every later one (no second preimage of each piece's true bytes assumed, per piece) |
| `PoolDisk.DownloadIsComplete` | client/modules/peerPool.py:372-383 | In every run, when each piece has a finished write, the first bytes of each file, up to its torrent length, are its slice of the true content |
| `PoolDisk.DoneMeansOnDisk` | client/modules/peerPool.py:372-409 | In every run with arbitrary peers, when every piece is COMPLETE and no queued chunk is unwritten, the first bytes of each file, up to its torrent length, are its slice of the true content |
| `PoolDisk.StepKeepsJobs` | client/modules/peerPool.py:372-383 | Every step keeps: each COMPLETE piece has been handed to the callback |
| `PoolDisk.StepWritesOnlyTruth` | client/modules/fileWriter.py:199-234 | Any step changes a byte of any file only by making it the true byte at its place |
| `PoolDisk.StepKeepsDisk` | client/modules/fileWriter.py:199-234 | Every step keeps: each write job carries its piece's true bytes, is accepted by the checks, and all chunks it has written are still on disk; bytes that are true stay true |
| `PoolDisk.VerifiedJob` | client/modules/fileWriter.py:180-219 | Bytes with the expected digest pass every check of `write_piece` and are the true bytes |
| `PoolDisk.PieceLengthIsTrue` | client/modules/pieceManager.py:207-214 | The table's length of piece i is the length of its slice of the content, and the slice lies inside it |
| `PoolSafety.UnfinishedIsSelectableOrHeld` | client/modules/peerPool.py:324-432 | In every reachable state an unfinished piece is NEEDED and outside `_pending`, or on the active list of a session that has not released |
| `PoolCancellation.PendingWillBeReleased` | client/modules/peerPool.py:192-210 | With arbitrary peers, in every run in which `shutdown` is not called, nor its call cancelled, after a connection has been turned away at its second check: every PENDING piece is held by a session that will still release it |
| `PoolCancellation.LostExactly` | client/modules/peerPool.py:418-432 | In every state of a disciplined run a PENDING piece will never be released exactly when a session cancelled in its lock wait, resumed from it or not, has it on its list; so nothing is lost exactly when no such session was downloading a piece |
| `PoolCancellation.PieceIsLost` | client/modules/peerPool.py:147-210 | For every torrent with a piece and every maximum: a run in which one connection too many is being closed under the lock, `shutdown` waits for it, a session fails and queues behind, and is cancelled there; it ends with piece 0 PENDING and no session that will release it |
| `PoolCancellation.LostForGood` | client/modules/peerPool.py:418-432 | With peers that answer only requests, what such a session held stays PENDING in every later state, so no later use of the pool completes the download |
| `PoolSafety.CallbacksAreVerified` | client/modules/peerPool.py:372-383 | In every reachable state each callback's data has the expected digest of its piece |
| `PoolSafety.DoneMeansAllComplete` | client/modules/peerPool.py:407-409 | A step that sets `_done_event` ends with every piece COMPLETE |
| `PoolSafety.RequestsAreGood` | client/modules/peerPool.py:298-344 | In every reachable state at most PIPELINE_DEPTH requests are unanswered, and a request being sent is new, block-aligned, at most 16 KB, a whole block and inside its piece |
| `PoolSafety.NextRequestExact` | client/modules/peerPool.py:300-321 | Step 1 of the fill loop picks a missing block of an active piece not yet in flight; it picks none exactly when every missing block of every active piece is in flight |
| `PoolSafety.StepOk` | client/modules/peerPool.py:225-432 | The pool invariant (table invariant, session invariant, verified jobs, no orphan) survives every step whatever peers send |
| `PoolSafety.RunKeepsPoolOk` | client/modules/peerPool.py:225-432 | The same over every run |
| `PoolSafety.BlockOk` | client/modules/peerPool.py:372-383 | Any block for any piece in any state keeps the invariant; a reported completion carries the expected digest |
| `PoolOwnership.ExclusiveOwnership` | client/modules/peerPool.py:298-396 | When peers answer only outstanding requests with blocks of the requested size, over every run: active lists of unreleased sessions are disjoint and duplicate-free, their union is `_pending`, everything in flight is missing from a piece its session owns, NEEDED pieces hold no blocks |
| `PoolOwnership.StepKeepsOwn` | client/modules/peerPool.py:298-432 | Every disciplined step keeps that and never changes a COMPLETE piece |
| `PoolOwnership.CompletionIsStable` | client/modules/peerPool.py:388-432 | Under the same discipline the COMPLETE set only grows over any run and a done pool stays done |
| `PoolCompletion.StaysCompleteExactly` | client/modules/peerPool.py:372-383 | In any state with arbitrary peers a COMPLETE piece is COMPLETE after a step exactly unless the step delivers to a waiting session a block for it that fits and differs from what is stored at its offset (no second preimage of the stored bytes) |
| `PoolCompletion.StaysCompleteOverRuns` | client/modules/peerPool.py:372-383 | So over every run it stays COMPLETE throughout exactly when no step does that |
| `PoolCompletion.DoneThenUndone` | client/modules/peerPool.py:372-409 | In every torrent of two one-block pieces: a run from the start sets `_done_event` with every piece COMPLETE, and one further block leaves the event set and a piece not COMPLETE |
| `PoolOwnership.BlockStored` | client/modules/pieceManager.py:319-343 | A requested block is always accepted; the piece stays PENDING with one missing block fewer, becomes COMPLETE, or starts over empty |
| `PoolOwnership.ReleaseOwn` | client/modules/peerPool.py:388-395 | Releasing never touches a COMPLETE piece or one outside the list |
| `PoolTermination.StepLowers` | client/modules/peerPool.py:296-432 | With honest peers and no new session every step of progress lowers the measure (sessions to wind down, missing blocks, missing blocks not requested, writes and opening messages left) lexicographically; any other step keeps it |
| `PoolTermination.ProgressEnds` | client/modules/peerPool.py:296-432 | So every endless honest run only waits from some point on |
| `PoolTermination.MeasureFalls` | client/modules/peerPool.py:296-432 | Along an endless honest run the measure never rises |
| `PoolTermination.ReachableIsGood` | client/modules/peerPool.py:225-432 | Every state honest peers can lead to from the start, new sessions included, meets the theorem's assumption |
| `PoolLiveness.DownloadFinishes` | client/modules/peerPool.py:225-432 | From every state honest peers can lead to without a late `shutdown`, and then in every endless honest run without a new session in which a busy session always sees some later progress and an idle one is woken: if one running session, whose peer is known to have every piece and no more, meets no failure, time-out (but an idle one), choke or last opening message without unchoke, and hears no have past the table and no bitfield with a gap, the download is done at some point and stays done |
| `PoolLiveness.SteadySeedStays` | client/modules/peerPool.py:256-405 | In such a run that session goes on until the download is done |
| `PoolLiveness.EventIsSet` | client/modules/peerPool.py:407-409 | And `_done_event` is set for good at some point |
| `PoolLiveness.FilesGetTheContent` | client/modules/peerPool.py:225-432 | If moreover queued chunks get written (and no piece has a second preimage), from some point on every file's first bytes, up to its torrent length, are its slice of the content |
| `PoolLiveness.WakingEndsSeeding` | client/modules/peerPool.py:346-361 | Once such a run only waits, the step that wakes the seeding session cannot leave it seeding |
| `PoolTermination.BlockMissing` | client/modules/pieceManager.py:319-343 | An honest block removes exactly its own entry from the missing blocks of all pieces, and a finished honest piece passes its check |
| `PoolPipeline.FillEnds` | client/modules/peerPool.py:298-344 | For arbitrary peers each request sent leaves exactly one more unanswered, and at PIPELINE_DEPTH the fill loop is over: it terminates |
| `PoolPipeline.LocalWaitsWell` | client/modules/peerPool.py:298-370 | With peers that answer only requests, a session that waits for a message has a full pipeline, or everything its pieces miss is in flight and its peer offers no NEEDED piece |
| `PoolPipeline.IdleLeavesNothing` | client/modules/peerPool.py:346-361 | A session that goes idle holds no piece, and each unfinished piece its peer offers is held by another session that has not released it |
| `PoolPipeline.LoneSeedNeverIdles` | client/modules/peerPool.py:346-361 | While it is the only session left and its peer offers every piece, a session never goes idle |
| `PoolPipeline.RunKeepsIdleEmpty` | client/modules/peerPool.py:346-361 | In every state of a disciplined run an idle session holds no piece and has nothing in flight |
| `PoolPipeline.RestDoesNotLast` | client/modules/peerPool.py:296-361 | In every disciplined run, once each session is idle or closed no piece is PENDING, and the next time-out of a session whose peer offers an unfinished piece (and no index past the table) sends a request |
| `PoolCauses.StepEnds` | client/modules/peerPool.py:256-409 | One step of a session in any state that meets the invariant, peers being arbitrary: it ends in closing the session if and only if there is a cause read off the event and the tables (failure, time-out other than the idle one, choke after unchoke, last opening message without unchoke, block outside its piece, a done table at the loop head, `select_piece` reached with an offered index past the table); otherwise which await comes next follows from what is in flight and missing, and the request written is the lowest block to ask for of the first piece that has one; `_done_event` is set exactly when the loop head finds every piece COMPLETE |
| `PoolCauses.StepEffects` | client/modules/peerPool.py:256-405 | The same step exactly changes what is in flight (a sent request joins, an answered one leaves, a choke clears), what each peer is known to offer (a have adds, a bitfield replaces or is ignored while blocks are awaited, nothing else) and each piece (an accepted block is stored and a full piece checked, a choke empties what was held); a piece is newly taken only when all else is in flight, and no piece left to take is offered by fewer peers |
| `PoolCauses.Stored` | client/modules/pieceManager.py:66-85 | A block is refused exactly if there is no such piece or the block does not lie inside it |
| `PoolCauses.SessionStarts` | client/modules/peerPool.py:170-184 | A connection made while there is room starts one session, with 25 opening messages to go; otherwise nothing starts and the lock is held |
| `PoolTurns.CallsAfter` | client/modules/peerPool.py:155-210 | After each step, which calls are possible: the lock is held from a connection turned away until that is closed, one call of `shutdown` waits at a time until it is cancelled or has had the lock, and it can be cancelled once after that |
| `PoolTurns.TurnsAfter` | client/modules/peerPool.py:192-421 | After each step, who may take the lock: a cancellation ends the wait of its victims and of no other session; a call of `shutdown` goes behind those that wait when it is made and before those that come later; when it is over all may go that were not cancelled |
| `PoolTurns.ShutdownTurn` | client/modules/peerPool.py:192-195 | `shutdown` gets the lock exactly when it is free and all sessions that waited before it have left the queue, and then no session may take it before |
| `PoolTurns.RunKeepsQueueOk` | client/modules/peerPool.py:192-421 | In every run only sessions that have left their download loop are in the queue or were cancelled in it |
| `PoolTurns.DialsOverRun` | client/modules/peerPool.py:147-184 | In every run the open attempts at an address are those that passed the first check less those that failed or got through |
| `PoolConnections.RunKeepsCap` | client/modules/peerPool.py:147-184 | Over any interleaving of check, connect and insert, `_sessions` never exceeds `max_peers` |
| `PoolConnections.InsertKeepsRegistered` | client/modules/peerPool.py:170-175 | Inserting keeps `_sessions` equal to the open sessions exactly when the address is not already listed |
| `PoolConnections.RunWithinCap` | client/modules/peerPool.py:147-184 | While no insertion repeats a listed address, at most `max_peers` sessions are open in every run |
| `PoolConnections.OpenWithoutBound` | client/modules/peerPool.py:147-184 | Without that there is no bound: one address dialled n times at once leaves n open sessions and one listed, for any n and any maximum above one |
| `PoolConnections.StepKeepsRegistered` | client/modules/peerPool.py:147-184 | Every other step keeps `_sessions` equal to the open sessions |
| `PeerPool.PeerPoolManager.constructor` | client/modules/peerPool.py:97-130 | A fresh pool over a valid table: no session, event not set |
| `PeerPool.PeerPoolManager.MayConnect` | client/modules/peerPool.py:148-153 | The first check passes exactly when there is room and the address is not listed |
| `PeerPool.PeerPoolManager.Register` | client/modules/peerPool.py:170-175 | The second check looks at the count alone; the whole new `_sessions` |
| `PeerPool.PeerPoolManager.FillPipeline` | client/modules/peerPool.py:298-348 | The fill loop from any entry to its next await leaves table, session and event as the step system's Fill says, for some rarest pick |
| `PeerPool.PeerPoolManager.FindRequest` | client/modules/peerPool.py:300-312 | The scan of active pieces finds the specified next request |
| `PeerPool.PeerPoolManager.DownloadLoop` | client/modules/peerPool.py:296-361 | The head of the download loop up to the next await, as Top says |
| `PeerPool.PeerPoolManager.HandleOpening` | client/modules/peerPool.py:256-282 | A message before unchoke, as OnOpening says |
| `PeerPool.PeerPoolManager.HandleIdle` | client/modules/peerPool.py:346-361 | A message with nothing in flight, as OnIdle says |
| `PeerPool.PeerPoolManager.HandleBlock` | client/modules/peerPool.py:372-383 | A block, including the exception path, completion and failed verification, as OnBlock says |
| `PeerPool.PeerPoolManager.HandleReceiving` | client/modules/peerPool.py:372-405 | Any message while requests are in flight, as OnReceiving says |
| `PeerPool.PeerPoolManager.Receive` | client/modules/peerPool.py:256-405 | At all three places a message is received, table, event and session end in the state `Next` gives for the step Deliver; a completed piece is handed to the callback |
| `PeerPool.PeerPoolManager.RequestSent` | client/modules/peerPool.py:307-316 | After a request is written it is in flight and filling goes on |
| `PeerPool.PeerPoolManager.ReleasePieces` | client/modules/peerPool.py:388-393 | The release loop over a set, in any order, equals one simultaneous release |
| `PeerPool.PeerPoolManager.Disconnect` | client/modules/peerPool.py:418-434 | `_disconnect` unlists the address and releases everything listed |
| `PeerPool.ReleaseOneMore` | client/modules/peerPool.py:425-432 | Marking one more piece failed, or skipping a COMPLETE one, is releasing one piece more |
| `PeerPool.PeerSession.ListPieces` | client/modules/peerPool.py:386-389 | The pieces gone through are the active ones and those in flight |
| `PieceManager.Piece.AddBlock` | client/modules/pieceManager.py:66-85 | Accepted exactly inside the piece; counter grows only for a new offset, bytes always replaced; unchanged on error |
| `PieceManager.Piece.MissingBlocks` | client/modules/pieceManager.py:92-105 | The loop yields the specified list of missing blocks |
| `PieceManager.Piece.Verify` | client/modules/pieceManager.py:111-138 | True exactly when all bytes are counted and the digest matches; on mismatch the piece is empty and NEEDED |
| `PieceManager.Piece.Assemble` | client/modules/pieceManager.py:140-142 | The stored blocks joined in ascending offset order |
| `PieceManager.Piece.Data` | client/modules/pieceManager.py:154-161 | The bytes of a COMPLETE piece, an error otherwise |
| `PieceManager.PieceManager.constructor` | client/modules/pieceManager.py:189-227 | All pieces NEEDED and empty, with the lengths of the layout, the last taking the remainder |
| `PieceManager.PieceManager.OnPeerBitfield` | client/modules/pieceManager.py:233-245 | Records exactly the in-range indices the bitfield offers |
| `PieceManager.PieceManager.OnPeerHave` | client/modules/pieceManager.py:247-251 | Adds the index as it is, in range or not |
| `PieceManager.PieceManager.SelectPiece` | client/modules/pieceManager.py:265-299 | Raises exactly when the peer offers an index past the table; None exactly when no candidate; otherwise claims a candidate of least rarity and nothing else changes |
| `PieceManager.PieceManager.MarkPending` | client/modules/pieceManager.py:297-299 | The selected piece is PENDING and in `_pending` |
| `PieceManager.PieceManager.AddBlock` | client/modules/pieceManager.py:319-343 | The whole new table for any block, and True exactly for a completed, verified piece |
| `PieceManager.PieceManager.MarkPieceFailed` | client/modules/pieceManager.py:345-352 | The piece is empty and NEEDED and leaves `_pending` |
| `PieceManager.PieceManager.IsDone` | client/modules/pieceManager.py:358-368 | True exactly when every piece is COMPLETE |
| `PieceManager.PieceManager.GetBitfield` | client/modules/pieceManager.py:376-388 | Bits are exactly the COMPLETE pieces, spare bits zero |
| `PieceManager.PieceManager.GetPieceData` | client/modules/pieceManager.py:390-392 | Data of a COMPLETE piece, an error otherwise |
| `PieceManager.PieceManager.NextBlockRequest` | client/modules/pieceManager.py:301-317 | The first missing block, or none |
| `ManagerModel.InitialOk` | client/modules/pieceManager.py:189-227 | The invariant holds at the start |
| `ManagerModel.AddBlockOk` | client/modules/pieceManager.py:319-343 | Any block keeps it: `_pending` is exactly the PENDING pieces, FAILED never visible, COMPLETE exactly when all bytes are counted, and then the digest matches |
| `ManagerModel.ClaimOk` | client/modules/pieceManager.py:296-299 | So does claiming |
| `ManagerModel.ReleaseOk` | client/modules/peerPool.py:425-432 | So does releasing any set |
| `ManagerModel.MarkPieceFailedOk` | client/modules/pieceManager.py:345-352 | So does `mark_piece_failed`, even on a COMPLETE piece |
| `PoolSafety.HaveOk` | client/modules/pieceManager.py:247-251 | So does a have message, with any index; it changes no piece |
| `PoolSafety.BitfieldOk` | client/modules/pieceManager.py:233-245 | So does any bitfield; it changes no piece |
| `ManagerModel.CandidatesAreNeeded` | client/modules/pieceManager.py:279-284 | Under the invariant the candidates are exactly the NEEDED pieces the peer offers |
| `ManagerModel.RarityCounts` | client/modules/pieceManager.py:290-294 | The rarity of a piece is the number of peers known to offer it |
| `ManagerModel.HaveCounts` | client/modules/pieceManager.py:247-251 | A have keeps what was offered before, and raises the rarity of its piece by one exactly if its peer did not offer it, and no other |
| `ManagerModel.BitfieldCounts` | client/modules/pieceManager.py:233-245 | A bitfield replaces what its peer offered; the rarity of each piece loses one for the old offer and gains one for the new |
| `ManagerModel.CommonerIsNotChosen` | client/modules/pieceManager.py:290-296 | A candidate offered by all the peers of another candidate and one more has the higher rarity and is never the one chosen |
| `PieceAssembly.MissingExact` | client/modules/pieceManager.py:92-105 | `missing_blocks` lists exactly the missing aligned offsets, each at full size, ascending, inside the piece |
| `PieceAssembly.AcceptListedBlock` | client/modules/pieceManager.py:66-85 | A listed block is accepted and keeps the discipline; only its offset leaves the missing set; repeats change no count |
| `PieceAssembly.CounterAgrees` | client/modules/pieceManager.py:88-105 | Bytes received plus missing sizes equal the length, and the piece is complete exactly when nothing is missing |
| `PieceAssembly.BlockCount` | client/modules/pieceManager.py:163-166 | Stored plus missing blocks make `num_blocks` |
| `PieceAssembly.AssembledIsData` | client/modules/pieceManager.py:140-142 | Blocks cut from the true data assemble to that data, whatever the arrival order |
| `PieceAssembly.StaysComplete` | client/modules/pieceManager.py:111-138 | A stray block leaves a COMPLETE piece COMPLETE exactly when it repeats the stored bytes, or is empty at a new offset |
| `FileLayout.WriteIsSplice` | client/modules/fileWriter.py:180-219 | All chunks of a write replace exactly its range of the zero-padded concatenation and nothing else, for any file sizes |
| `FileLayout.WriteStaysInside` | client/modules/fileWriter.py:224-234 | No file shrinks, none grows past its torrent length, bytes beyond that length are untouched |
| `FileLayout.AllPiecesWritten` | client/modules/fileWriter.py:180-219 | Every piece written, in any order and with repeats, makes the first bytes of each file, up to its torrent length, its slice of the stream |
| `FileLayout.InPiece` | client/modules/pieceManager.py:207-214 | The piece ranges tile the stream |
| `FileLayout.TrueChunk` | client/modules/fileWriter.py:224-234 | One chunk of true bytes makes its range true and keeps every true byte |
| `FileLayout.PaddedIsFlat` | client/modules/fileWriter.py:294-302 | A padded read inside one file is the matching slice of the concatenation |
| `FileWriter.FileWriter.constructor` | client/modules/fileWriter.py:57-86 | One span for each file at its running offset and one handle for each path, equal paths sharing one; existing contents kept; valid for the other methods when paths are distinct |
| `FileWriter.FileWriter.OpenFiles` | client/modules/fileWriter.py:88-99 | One separate handle for each path, empty when the file does not exist |
| `FileWriter.FileWriter.CutPiece` | client/modules/fileWriter.py:185-213 | The overlap loop queues exactly the chunks of the touched files |
| `FileWriter.FileWriter.WritePiece` | client/modules/fileWriter.py:157-222 | Errors exactly as checked and then nothing changes; otherwise exactly its range of the zero-padded concatenation is replaced |
| `FileWriter.FileWriter.RunTasks` | client/modules/fileWriter.py:215-222 | The chunks written in an arbitrary order give the same files |
| `FileWriter.FileWriter.ReadPiece` | client/modules/fileWriter.py:236-292 | Returns exactly the requested slice of the concatenation, or the error the checks give |
| `FileWriter.DiskFile.Read` | client/modules/fileWriter.py:294-302 | Zero padding where the file ends early |
| `DiskContent.ReadAfterWrite` | client/modules/fileWriter.py:236-292 | A piece that `write_piece` accepts is what `read_piece` then returns, by default and with its length; a shorter read returns its start |
| `DiskContent.OthersReadTheSame` | client/modules/fileWriter.py:180-292 | After the write every other piece reads as before |
| `DiskContent.WriteAccepted` | client/modules/fileWriter.py:165-184 | With piece numbers that cover the content, a write is accepted exactly for a piece of the table with the size of its slice of the content |
| `DiskContent.FlatIsJoin` | client/modules/fileWriter.py:66-76 | With every file at its torrent length the flat image is the files joined in order |
| `DiskContent.PiecesJoin` | client/modules/pieceManager.py:207-214 | The pieces joined in order are the content |
| `DiskContent.DoneFilesJoin` | client/modules/peerPool.py:372-409 | In every run, when every piece is COMPLETE and no queued chunk is unwritten, the files, each up to its torrent length, joined in order are the true content |
| `Bencode.ParsePrint` | client/modules/bencode.py:57-135 | Parsing a printed tree followed by anything gives the tree and stops exactly at its end |
| `Bencode.PrintParse` | client/modules/bencode.py:57-135 | Whatever is accepted is, byte for byte, the text of the tree that was read |
| `Bencode.AcceptsExactlyPrints` | client/modules/bencode.py:57-135 | The parser accepts a prefix and reads a tree exactly when that prefix is the tree's text |
| `Bencode.ParseLocal` | client/modules/bencode.py:57-135 | A successful parse depends only on the bytes it used |
| `Bencode.PrintPrefixFree` | client/modules/bencode.py:145-190 | No text is a proper prefix of another |
| `BencodeValue.DecodeEncode` | client/modules/bencode.py:145-198 | For every value: decode(encode(v)) is v, and with any suffix parsing stops at the end of encode(v) |
| `BencodeValue.EncodePrefixFree` | client/modules/bencode.py:145-190 | Encoding is injective and prefix-free |
| `BencodeValue.DecodeStable` | client/modules/bencode.py:193-198 | decode(encode(decode(s))) is decode(s) for every accepted s |
| `BencodeValue.EncodeDecode` | client/modules/bencode.py:118-185 | encode(decode(s)) is s exactly when keys ascend strictly in every dictionary of s |
| `BencodeValue.CanonAscends` | client/modules/bencode.py:164-185 | The encoder's output has strictly ascending keys at every level |
| `BencodeValue.LexLessIsByteOrder` | client/modules/bencode.py:178-178 | The order of keys: one is below another exactly if it is a proper prefix of it, or has the smaller byte at the first place where they differ |
| `BencodeValue.AscendInByteOrder` | client/modules/bencode.py:164-185 | Ascending keys, in those terms |
| `BencodeValue.EncodedText` | client/modules/bencode.py:145-190 | The bytes of every encoding: `i`, decimal, `e`; length, `:`, bytes; `l`, the items, `e`; `d`, then for each key in byte order its own text and that of its value, `e` |
| `Numerals.PyIntDecimal` | client/modules/bencode.py:73-87 | A printed integer reads back, with no leading or negative zero |
| `Numerals.PyIntReprint` | client/modules/bencode.py:73-108 | An accepted numeral is the only text of its value |
| `Numerals.PyIntPlaces` | client/modules/bencode.py:73-108 | A numeral is read exactly if it is one or more of the bytes 48 to 57 after at most one byte 45, and its value is the sum of its digits by place value |
| `BencodeCodec.BencodeDecoder.Peek` | client/modules/bencode.py:44-47 | The byte at the cursor, an error at the end |
| `BencodeCodec.BencodeDecoder.ReadUntil` | client/modules/bencode.py:49-55 | The bytes up to the first delimiter, cursor just past it; unmoved on error |
| `BencodeCodec.BencodeDecoder.ParseInt` | client/modules/bencode.py:73-87 | The cursor-based reader agrees with the specification on result, error and bytes used, from any start |
| `BencodeCodec.BencodeDecoder.ParseString` | client/modules/bencode.py:89-108 | The same for byte strings |
| `BencodeCodec.BencodeDecoder.ParseNext` | client/modules/bencode.py:57-71 | The same for any value; terminates, and on success and error alike the cursor does not move back and stays within the data |
| `BencodeCodec.BencodeDecoder.ParseList` | client/modules/bencode.py:110-116 | The same for lists |
| `BencodeCodec.BencodeDecoder.ParseDict` | client/modules/bencode.py:118-135 | The same for dictionaries, a later duplicate key winning |
| `BencodeCodec.BencodeDecoder.DecodeData` | client/modules/bencode.py:24-42 | The whole input must be one value |
| `BencodeCodec.BencodeEncoder.Encode` | client/modules/bencode.py:145-190 | The encoder's loops produce the specified text |
| `BencodeCodec.BencodeEncoder.EncodeDict` | client/modules/bencode.py:164-185 | Whatever the insertion order, keys come out sorted |
| `TorrentFile.ComputeInfoHash` | client/modules/torrentFileParser.py:258-285 | The digest of exactly the bytes the decoder consumes after the first `4:info`, or the error |
| `TorrentFile.InfoSliceIsInfo` | client/modules/torrentFileParser.py:258-285 | When the first `4:info` is the top-level key, the hashed bytes are the text of the info value whatever the other entries are |
| `TorrentFile.FirstKeyIsTop` | client/modules/torrentFileParser.py:267-274 | The search stops at the top-level key exactly when the text before it holds no earlier occurrence |
| `TorrentFile.InfoSliceExact` | client/modules/torrentFileParser.py:258-285 | In general the info text is what is hashed exactly when it follows the first `4:info`, wherever that is |
| `TorrentFile.InfoSliceBytes` | client/modules/torrentFileParser.py:258-285 | On any bytes: the item right after the first `4:info`, as six given bytes, is hashed; refused for a missing key exactly if they occur nowhere |
| `TorrentFile.InfoSliceMisled` | client/modules/torrentFileParser.py:267-285 | With the announce string `4:infoi1e`, whatever the info dictionary and the later entries are, the integer in that string is hashed and not the info text |
| `TorrentFile.InfoHashOfEncoded` | client/modules/torrentFileParser.py:258-285 | For an encoded metainfo in which no earlier `4:info` occurs the hashed bytes are encode(meta[info]) |
| `TorrentFile.PieceHashes` | client/modules/torrentFileParser.py:180-189 | The digests concatenate back to `pieces`; refused exactly when the length is no multiple of 20 |
| `PeerProtocol.ReceiveEncoded` | client/modules/peerProtocol.py:495-525 | Whatever follows an encoded message, the framing returns it and stops at its end |
| `PeerProtocol.EncodeReceived` | client/modules/peerProtocol.py:222-271 | A received message re-encodes to its own bytes, except exactly when a field-less message carried a payload |
| `PeerProtocol.StreamRoundTrip` | client/modules/peerProtocol.py:495-525 | Any sequence of encodable messages is received back in order, every byte consumed, whatever follows |
| `PeerProtocol.CancelledReceive` | client/modules/peerProtocol.py:495-525 | A receive cancelled while a message is on its way leaves the stream at a message boundary exactly when the message's length prefix has not come in full, and then the messages from there on are still received |
| `PeerProtocol.LostPrefixStalls` | client/modules/peerProtocol.py:495-525 | Out of step, the start of the body of a message with fields is read as a length above 64 MB, so the next receive ends only with the stream unless that much follows |
| `PeerProtocol.HandshakeRoundTrip` | client/modules/peerProtocol.py:278-328 | A built handshake is 68 bytes and parses to its ids, whatever the reserved bytes |
| `PeerProtocol.PackRead` | client/modules/peerProtocol.py:72-76 | Four bytes read as a big-endian integer pack back to themselves |
| `PeerProtocol.ReadPacked` | client/modules/peerProtocol.py:72-76 | A 32-bit field survives packing |
| `PeerProtocol.PeerConnection.SendMessage` | client/modules/peerProtocol.py:452-481 | Appends exactly the encoding; choke and interest flags follow the messages sent; nothing changes on error |
| `PeerProtocol.PeerConnection.ReceiveMessage` | client/modules/peerProtocol.py:483-537 | Reads exactly one frame from the stream and updates the peer's flags |
| `PeerProtocol.PeerConnection.CancelReceive` | client/modules/peerProtocol.py:495-525 | A cancelled receive has taken the length prefix if it had come, and nothing else |
| `WireFormat.EncodedBytes` | client/modules/peerProtocol.py:48-215 | The bytes of every message: a string is its encoding exactly if it is the given length prefix, the given id and the fields in order, each four bytes by place value; no string is, exactly if a field or the length does not fit |
| `WireFormat.DecodedBytes` | client/modules/peerProtocol.py:222-271 | Which message an id and a payload are, with the fields by place value, and exactly when they are refused, for an unknown id or for a wrong length |
| `WireFormat.ReceivedBytes` | client/modules/peerProtocol.py:495-525 | A receive takes the four bytes that spell a length, and as many more; it ends with the connection exactly if those have not all come |
| `WireFormat.HandshakeBytes` | client/modules/peerProtocol.py:278-299 | The built handshake byte for byte: 19, the protocol name, eight zeros, the two ids |
| `WireFormat.HandshakeAccepted` | client/modules/peerProtocol.py:302-328 | A handshake is accepted exactly if it has 68 bytes and those first 20, and gives bytes 28 to 47 and 48 to 67 |
| `Bits.BitfieldAgreement` | client/modules/pieceManager.py:233-245 | Reading back any bitfield that represents a set gives the set, and the recorded set is the indices `has_piece` accepts |
| `Bits.RepresentsUnique` | client/modules/pieceManager.py:376-388 | Only one byte string represents a set of pieces |
| `Bits.RepresentsInteger` | client/modules/pieceManager.py:376-388 | A bitfield that represents a set is, read as one big-endian integer, the sum over its pieces i of two to the power `8 * |bitfield| - 1 - i` |
| `Bits.OfferedByValue` | client/modules/pieceManager.py:233-245 | In any byte string piece 8j + t is offered exactly if byte j divided by 128, 64, 32, 16, 8, 4, 2 or 1, for t from 0 to 7, is odd |
| `Bits.ReadBitfield` | client/modules/pieceManager.py:233-245 | The byte-and-bit loops record exactly the indices below num_pieces that `has_piece` accepts |
| `Bits.BuildBitfield` | client/modules/pieceManager.py:376-388 | The bit-setting loop builds that byte string |
| `Bits.SetBit` | client/modules/pieceManager.py:376-388 | Or-ing one mask sets its bit and no other |

## Left out

- Sockets, asyncio timeouts, TCP connect and close: replaced by steps that may happen at any await. Of the lock the model keeps who can be made to wait for it and in which order sessions and `shutdown` get it.
- `shutdown`: its call, its wait for the lock, its cancellations and a cancellation of its call are steps; waiting for the sessions afterwards, closing their connections once more and clearing `_sessions` are not, nor is `_tasks` anywhere, so which sessions are cancelled is left open. The end of the event loop, which cancels whatever is left, is not modelled.
- PoolModel.Next: a callback may return while its chunks are still being written, and `main.py` may do anything besides writing the piece; more runs than the program has, so the safety results cover it.
- PoolDisk.Geometry: `num_pieces == ceil(total_length / piece_length)` is a precondition, because the parser does not check it; the lemmas about disk contents rest on it.
- FileWriter.WritePiece: distinct paths are required, because equal paths share one handle.
- Directories, open modes, flushing and file locks: each file is a byte sequence.
- FileWriter.ReadPiece: states one read with no write in between; reads interleaved with chunk writes are not modelled.
- `ValueError` from constructors (digest length, piece length) is a precondition.
- PeerConnection.ReceiveMessage: the stream is everything the peer will ever send. In the pool a time-out is a step that closes the session, or at the idle await goes on; what a session that has lost step with its stream then takes for messages is covered by the results for arbitrary peers only.
- `_do_handshake`: connecting is one step of the pool; the comparison of the two info hashes after parsing is not modelled.
- PieceManager.remove_peer, peer_has_piece, num_needed, get_progress: one-line queries or unused by the pool.
- Numerals.PyInt: an optional minus and digits; Python's `int()` also takes spaces, underscores and a leading plus, and limits digits.
- Bencode values are byte strings, byte keys, lists and unbounded integers; text, tuples, booleans and the encoder's type errors are left out, as is Python's recursion limit.
- TorrentFile: the optional fields of `_from_meta` and the file list are plumbing and left out.
- PoolTermination.ProgressEnds: says that progress stops, not that every piece is COMPLETE then; `DownloadFinishes` says so for fair runs with one undisturbed seeding session. Fairness itself is assumed, not derived from the time-outs.
- Tracker requests, command line, live statistics, logging, speeds and other floats.
