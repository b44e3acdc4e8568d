/**
 The peer pool as a step system. Code between two awaits runs without interruption, so a session
 rests only at an await, and one step takes one session from an await to its next one (or is a
 chunk write, or a phase of connecting). Any enabled step may come next.
 */
module PoolModel {
  import opened Basics
  import opened PieceModel
  import opened ManagerModel
  import opened PeerProtocol
  import opened FileLayout
  import opened FileWriter

  const PIPELINE_DEPTH: nat := 5
  const OPENING_MESSAGES: nat := 25

  type Key = string  // "ip:port"

  /** The await at which a session rests. */
  datatype Phase =
    | Opening(left: nat)                          // before unchoke, with `left` messages still allowed
    | Sending(piece: nat, offset: int, size: int) // a request is being written
    | Idle                                        // nothing in flight: up to 5 seconds for any message
    | Receiving                                   // something in flight: up to 30 seconds for the next message
    | Writing(job: nat)                           // inside the piece-complete callback
    | Closing                                     // in _disconnect, waiting for the lock
    | Closed                                      // pieces released
    | Abandoned                                   // cancelled while waiting for the lock: never released

  datatype Session = Session(
    key: Key,
    peer: PeerId,
    phase: Phase,
    inFlight: set<(nat, int)>,
    active: seq<nat>)
  {
    /** Still running its download loop. */
    predicate Live() {
      phase.Opening? || phase.Sending? || phase.Idle? || phase.Receiving? || phase.Writing?
    }

    /** What `_disconnect` and the choke branch release. */
    function Listed(): set<nat> {
      (set i | i in active) + (set r | r in inFlight :: r.0)
    }
  }

  /** A `write_piece` call: the files whose chunk is still to be written by a worker thread. */
  datatype Job = Job(piece: nat, data: Bytes, rejected: bool, todo: set<nat>)
  {
    predicate Finished() {
      !rejected && todo == {}
    }
  }

  datatype Config = Config(sha1: Hash, hashes: seq<Bytes>, torrent: Torrent, maxPeers: nat)
  {
    function Lens(): seq<nat> {
      Lengths(torrent.files)
    }

    function TotalLength(): nat {
      Total(Lens())
    }
  }

  /**
   The pool's lock. Only the closing of a connection turned away at its second check awaits under it,
   so before the first such connection nobody ever waits for it.
   */
  datatype Lock =
    | Quiet  // no connection turned away yet: never waited for
    | Held   // such a connection is being closed
    | Freed  // free again; those that waited for it may still be taking their turns

  datatype Pool = Pool(
    mgr: Manager,
    sessions: map<nat, Session>,   // every session ever started, by a number of its own
    registered: map<Key, nat>,     // `_sessions`
    dialing: multiset<Key>,        // connection attempts past their first check
    lock: Lock,
    stopping: Option<set<nat>>,    // `shutdown` waits for the lock, behind these sessions
    gathering: bool,               // `shutdown` has had the lock and may be waiting for the sessions to end
    hit: set<nat>,                 // sessions cancelled while they waited for the lock
    done: bool,                    // `_done_event`
    jobs: seq<Job>,
    disk: seq<Bytes>)

  // ---------------------------------------------------------------------------
  // One session between two awaits
  // ---------------------------------------------------------------------------

  /** The outcome of running one session to its next await. */
  datatype Local = Local(mgr: Manager, session: Session, done: bool, completed: Option<(nat, Bytes)>)

  /** The missing blocks of piece `i` that this session has not requested yet. */
  function Unrequested(missing: seq<Block>, i: nat, inFlight: set<(nat, int)>): seq<Block> {
    if missing == [] then
      []
    else
      (if (i, missing[0].offset) in inFlight then [] else [missing[0]]) + Unrequested(missing[1..], i, inFlight)
  }

  /** The first unrequested block of the first active piece that has one. */
  function NextRequest(m: Manager, active: seq<nat>, inFlight: set<(nat, int)>): Option<(nat, Block)> {
    if active == [] then
      None
    else
      var i := active[0];
      var blocks := if i < |m.pieces| then Unrequested(m.pieces[i].MissingBlocks(), i, inFlight) else [];
      if blocks != [] then Some((i, blocks[0])) else NextRequest(m, active[1..], inFlight)
  }

  /** `min` over the candidates: any rarest one, as the set happens to be ordered. */
  ghost function Choose(m: Manager, peer: PeerId, pick: nat): (i: nat)
    requires m.Candidates(peer) != {}
    ensures m.IsRarest(peer, i)
    ensures m.IsRarest(peer, pick) ==> i == pick
  {
    if m.IsRarest(peer, pick) then
      pick
    else
      RarestExists(m, peer);
      var i :| m.IsRarest(peer, i);
      i
  }

  /** After the fill loop. */
  function Wait(m: Manager, s: Session): Local {
    if s.inFlight == {} then
      if m.IsDone() then Local(m, s.(phase := Closing), true, None) else Local(m, s.(phase := Idle), false, None)
    else
      Local(m, s.(phase := Receiving), false, None)
  }

  /** From the head of the fill loop to the next await. */
  ghost function Fill(m: Manager, s: Session, pick: nat): Local {
    if |s.inFlight| >= PIPELINE_DEPTH then
      Wait(m, s)
    else
      match NextRequest(m, s.active, s.inFlight)
      case Some(r) => Local(m, s.(phase := Sending(r.0, r.1.offset, r.1.size)), false, None)
      case None =>
        if m.SelectRaises(s.peer) then
          Local(m, s.(phase := Closing), false, None)
        else if m.Candidates(s.peer) == {} then
          Wait(m, s)
        else
          var i := Choose(m, s.peer, pick);
          var blocks := Unrequested(m.pieces[i].MissingBlocks(), i, s.inFlight);
          var s' := s.(active := s.active + [i]);
          if blocks == [] then Wait(m.Claim(i), s')
          else Local(m.Claim(i), s'.(phase := Sending(i, blocks[0].offset, blocks[0].size)), false, None)
  }

  /** From the head of `while not is_done` to the next await. */
  ghost function Top(m: Manager, s: Session, pick: nat): Local {
    if m.IsDone() then Local(m, s.(phase := Closing), true, None) else Fill(m, s, pick)
  }

  /** `list.remove`. */
  function RemoveFirst(xs: seq<nat>, x: nat): seq<nat> {
    if xs == [] then [] else if xs[0] == x then xs[1..] else [xs[0]] + RemoveFirst(xs[1..], x)
  }

  /** Fields come from 32-bit unsigned integers. */
  predicate FromWire(msg: Message) {
    match msg
    case Have(i) => FitsU32(i)
    case Piece(i, b, _) => FitsU32(i) && FitsU32(b)
    case _ => true
  }

  ghost function OnOpening(m: Manager, s: Session, left: nat, msg: Message, pick: nat): Local
    requires FromWire(msg)
  {
    var waiting := s.(phase := if left <= 1 then Closing else Opening(left - 1));
    match msg
    case Unchoke => Top(m, s, pick)
    case Bitfield(bits) => Local(m.OnPeerBitfield(s.peer, bits), waiting, false, None)
    case Have(i) => Local(m.OnPeerHave(s.peer, i), waiting, false, None)
    case _ => Local(m, waiting, false, None)
  }

  ghost function OnIdle(m: Manager, s: Session, msg: Message, pick: nat): Local
    requires FromWire(msg)
  {
    match msg
    case Have(i) => Top(m.OnPeerHave(s.peer, i), s, pick)
    case Bitfield(bits) => Top(m.OnPeerBitfield(s.peer, bits), s, pick)
    case Choke => Local(m, s.(phase := Closing), false, None)
    case _ => Top(m, s, pick)
  }

  ghost function OnBlock(sha1: Hash, m: Manager, s: Session, i: nat, begin: nat, block: Bytes, pick: nat): Local {
    var s1 := s.(inFlight := s.inFlight - {(i, begin)});
    match m.AddBlock(sha1, i, begin, block)
    case Err(_) => Local(m, s1.(phase := Closing), false, None)
    case Ok(m') =>
      var s2 := s1.(active := RemoveFirst(s1.active, i));
      if m.Completes(sha1, i, begin, block) then
        Local(m', s2, false, Some((i, Assembled(m'.pieces[i].blocks))))
      else if m'.pieces[i].state == NEEDED then
        Top(m', s2, pick)
      else
        Top(m', s1, pick)
  }

  ghost function OnReceiving(sha1: Hash, m: Manager, s: Session, msg: Message, pick: nat): Local
    requires FromWire(msg)
  {
    match msg
    case Piece(i, begin, block) => OnBlock(sha1, m, s, i, begin, block, pick)
    case Choke => Local(m.Release(s.Listed()), s.(phase := Closing, inFlight := {}, active := []), false, None)
    case Have(i) => Top(m.OnPeerHave(s.peer, i), s, pick)
    case _ => Top(m, s, pick)
  }

  // ---------------------------------------------------------------------------
  // Steps
  // ---------------------------------------------------------------------------

  datatype Event =
    | Admit(key: Key)                                   // the first check of a connection attempt passes
    | DialFailed(key: Key)                              // connect or handshake fails
    | Insert(key: Key, id: nat, peer: PeerId)           // connected: the second check, then a session starts
    | Deliver(id: nat, msg: Message, pick: nat)         // a message arrives
    | Timeout(id: nat, pick: nat)
    | Sent(id: nat, pick: nat)                          // a request has been written
    | Returned(id: nat, pick: nat)                      // the callback returned or raised
    | Fail(id: nat)                                     // an exception or a cancellation at an await
    | Release(id: nat)                                  // _disconnect gets the lock
    | Rejected                                          // a connection turned away is closed, the lock is free
    | Shutdown                                          // `shutdown` is called
    | GiveUp                                            // the call of `shutdown` is cancelled in its wait for the lock
    | CancelAll(victims: set<nat>)                      // `shutdown` has had the lock and cancels the sessions of `_tasks`
    | CancelGather(victims: set<nat>)                   // the call is cancelled later, which cancels them again
    | Abort(id: nat)                                    // a cancellation ends a session's wait for the lock
    | WriteChunk(job: nat, file: nat)                   // a worker thread writes one chunk

  /** The sessions in `_disconnect` that do not have the lock yet. */
  ghost function InDisconnect(st: Pool): set<nat> {
    set id | id in st.sessions && st.sessions[id].phase.Closing?
  }

  /** The lock is free and goes to those that wait for it in the order of their coming. */
  ghost predicate HasTurn(st: Pool, id: nat) {
    !st.lock.Held? && id !in st.hit && (st.stopping.Some? ==> id in st.stopping.value)
  }

  ghost predicate Enabled(c: Config, st: Pool, ev: Event) {
    match ev
    case Admit(key) => !st.lock.Held? && |st.registered| < c.maxPeers && key !in st.registered
    case DialFailed(key) => key in st.dialing
    case Insert(key, id, _) => !st.lock.Held? && key in st.dialing && id !in st.sessions
    case Deliver(id, msg, _) =>
      id in st.sessions && FromWire(msg)
      && (st.sessions[id].phase.Opening? || st.sessions[id].phase.Idle? || st.sessions[id].phase.Receiving?)
    case Timeout(id, _) =>
      id in st.sessions
      && (st.sessions[id].phase.Opening? || st.sessions[id].phase.Idle? || st.sessions[id].phase.Receiving?)
    case Sent(id, _) => id in st.sessions && st.sessions[id].phase.Sending?
    case Returned(id, _) => id in st.sessions && st.sessions[id].phase.Writing?
    case Fail(id) => id in st.sessions && st.sessions[id].Live()
    case Release(id) => id in st.sessions && st.sessions[id].phase.Closing? && HasTurn(st, id)
    case Rejected => st.lock.Held?
    case Shutdown => st.stopping.None?
    case GiveUp => st.stopping.Some?
    case CancelAll(victims) =>
      st.stopping.Some? && !st.lock.Held? && st.stopping.value !! InDisconnect(st) && victims <= InDisconnect(st)
    case CancelGather(victims) => st.gathering && victims <= InDisconnect(st) && (st.lock.Quiet? ==> victims == {})
    case Abort(id) => id in st.sessions && st.sessions[id].phase.Closing? && id in st.hit
    case WriteChunk(j, k) => j < |st.jobs| && k in st.jobs[j].todo
  }

  /** Steps of one session from an await to its next. */
  predicate IsLocal(ev: Event) {
    ev.Deliver? || ev.Timeout? || ev.Sent? || ev.Returned? || ev.Fail?
  }

  /** Steps that touch no session and no piece. */
  predicate IsAmbient(ev: Event) {
    ev.Admit? || ev.DialFailed? || ev.Rejected? || ev.Shutdown? || ev.GiveUp? || ev.CancelAll? || ev.CancelGather?
  }

  /** The local part of a step of one session. */
  ghost function LocalStep(c: Config, st: Pool, ev: Event): Local
    requires Enabled(c, st, ev) && IsLocal(ev)
  {
    var s := st.sessions[ev.id];
    match ev
    case Deliver(_, msg, pick) =>
      (match s.phase
       case Opening(left) => OnOpening(st.mgr, s, left, msg, pick)
       case Idle => OnIdle(st.mgr, s, msg, pick)
       case _ => OnReceiving(c.sha1, st.mgr, s, msg, pick))
    case Timeout(_, pick) =>
      if s.phase.Idle? then Top(st.mgr, s, pick) else Local(st.mgr, s.(phase := Closing), false, None)
    case Sent(_, pick) => Fill(st.mgr, s.(inFlight := s.inFlight + {(s.phase.piece, s.phase.offset)}), pick)
    case Returned(_, pick) => Top(st.mgr, s, pick)
    case Fail(_) => Local(st.mgr, s.(phase := Closing), false, None)
  }

  /** `write_piece` on the completed piece: its checks, then one chunk for each touched file. */
  function StartJob(c: Config, i: nat, data: Bytes): Job {
    var start := PieceStart(c.torrent, i);
    if WriteCheck(c.torrent, i, |data|).Some? then Job(i, data, true, {})
    else Job(i, data, false, Touched(c.Lens(), start, start + |data|))
  }

  ghost function Apply(c: Config, st: Pool, id: nat, l: Local): Pool {
    match l.completed
    case None => st.(mgr := l.mgr, sessions := st.sessions[id := l.session], done := st.done || l.done)
    case Some(piece) =>
      st.(mgr := l.mgr,
          sessions := st.sessions[id := l.session.(phase := Writing(|st.jobs|))],
          done := st.done || l.done,
          jobs := st.jobs + [StartJob(c, piece.0, piece.1)])
  }

  ghost function RunChunk(c: Config, st: Pool, j: nat, k: nat): Pool
    requires j < |st.jobs|
  {
    var job := st.jobs[j];
    var start := PieceStart(c.torrent, job.piece);
    st.(jobs := st.jobs[j := job.(todo := job.todo - {k})],
        disk := if k < |st.disk| && start >= 0 && Overlaps(c.Lens(), k, start, start + |job.data|)
                then st.disk[k := FileLayout.WriteChunk(st.disk[k], c.Lens(), k, start, job.data)]
                else st.disk)
  }

  ghost function Next(c: Config, st: Pool, ev: Event): Pool
    requires Enabled(c, st, ev)
  {
    match ev
    case Admit(key) => st.(dialing := st.dialing + multiset{key})
    case DialFailed(key) => st.(dialing := st.dialing - multiset{key})
    case Insert(key, id, peer) =>
      var st1 := st.(dialing := st.dialing - multiset{key});
      if |st.registered| >= c.maxPeers then st1.(lock := Held)
      else st1.(
        registered := st.registered[key := id],
        sessions := st.sessions[id := Session(key, peer, Opening(OPENING_MESSAGES), {}, [])])
    case Release(id) =>
      var s := st.sessions[id];
      st.(mgr := st.mgr.Release(s.Listed()),
          sessions := st.sessions[id := s.(phase := Phase.Closed)],
          registered := st.registered - {s.key})
    case Rejected => st.(lock := Freed)
    case Shutdown =>
      if st.lock.Quiet? then st.(gathering := true) else st.(stopping := Some(InDisconnect(st) - st.hit))
    case GiveUp => st.(stopping := None)
    case CancelAll(victims) => st.(stopping := None, gathering := true, hit := st.hit + victims)
    case CancelGather(victims) => st.(gathering := false, hit := st.hit + victims)
    case Abort(id) => st.(sessions := st.sessions[id := st.sessions[id].(phase := Abandoned)])
    case WriteChunk(j, k) => RunChunk(c, st, j, k)
    case _ => Apply(c, st, ev.id, LocalStep(c, st, ev))
  }

  /** A fresh pool over a table with nothing downloaded; the files may hold anything. */
  ghost predicate Init(c: Config, st: Pool) {
    && c.torrent.pieceLength > 0
    && st.mgr == Initial(c.hashes, c.torrent.pieceLength, c.TotalLength())
    && st.sessions == map[] && st.registered == map[] && st.dialing == multiset{}
    && st.lock == Quiet && st.stopping == None && !st.gathering && st.hit == {}
    && !st.done && st.jobs == []
    && |st.disk| == |c.Lens()|
  }

  /** `st'` is reached from `st` by these steps. */
  ghost predicate Run(c: Config, st: Pool, events: seq<Event>, st': Pool)
    decreases |events|
  {
    if events == [] then
      st' == st
    else
      Enabled(c, st, events[0]) && Run(c, Next(c, st, events[0]), events[1..], st')
  }

  lemma RunStep(c: Config, st: Pool, ev: Event, rest: seq<Event>, st': Pool)
    requires Enabled(c, st, ev) && Run(c, Next(c, st, ev), rest, st')
    ensures Run(c, st, [ev] + rest, st')
  {
    hide Enabled, Next;
    assert ([ev] + rest)[1..] == rest;
  }

  /** The steps that run no session. */
  lemma OtherNext(c: Config, st: Pool, ev: Event)
    requires Enabled(c, st, ev)
    ensures IsAmbient(ev) || (ev.Insert? && |st.registered| >= c.maxPeers) ==>
              var st' := Next(c, st, ev);
              st' == st.(dialing := st'.dialing, lock := st'.lock, stopping := st'.stopping, gathering := st'.gathering, hit := st'.hit)
    ensures ev.Insert? && |st.registered| < c.maxPeers ==>
              Next(c, st, ev) == st.(
                dialing := Next(c, st, ev).dialing,
                registered := st.registered[ev.key := ev.id],
                sessions := st.sessions[ev.id := Session(ev.key, ev.peer, Opening(OPENING_MESSAGES), {}, [])])
    ensures ev.Abort? ==> Next(c, st, ev) == st.(sessions := st.sessions[ev.id := st.sessions[ev.id].(phase := Abandoned)])
    ensures ev.WriteChunk? ==> Next(c, st, ev) == RunChunk(c, st, ev.job, ev.file)
    ensures !IsLocal(ev) && !ev.WriteChunk? ==> Next(c, st, ev).jobs == st.jobs && Next(c, st, ev).disk == st.disk
  {
    hide LocalStep, RunChunk, Apply, Manager.Release;
  }

  lemma ReleaseNext(c: Config, st: Pool, id: nat)
    requires Enabled(c, st, Release(id))
    ensures Next(c, st, Release(id)) == st.(
              mgr := st.mgr.Release(st.sessions[id].Listed()),
              sessions := st.sessions[id := st.sessions[id].(phase := Phase.Closed)],
              registered := st.registered - {st.sessions[id].key})
  {
    hide LocalStep, RunChunk, Apply, Manager.Release;
  }

  /** A session once cancelled in its wait is not forgotten. */
  lemma HitGrows(c: Config, st: Pool, ev: Event)
    requires Enabled(c, st, ev) && !IsLocal(ev) && !ev.WriteChunk?
    ensures st.hit <= Next(c, st, ev).hit
  {
    hide LocalStep, RunChunk, Apply, Manager.Release;
  }

  // ---------------------------------------------------------------------------
  // A local step never ends a session's release
  // ---------------------------------------------------------------------------

  predicate Resumed(s: Session, l: Local) {
    l.session.key == s.key && l.session.peer == s.peer && !l.session.phase.Closed? && !l.session.phase.Abandoned?
  }

  lemma TopResumed(m: Manager, s: Session, pick: nat)
    requires !s.phase.Closed? && !s.phase.Abandoned?
    ensures Resumed(s, Fill(m, s, pick)) && Resumed(s, Top(m, s, pick))
  {
    hide NextRequest, Unrequested;
  }

  lemma MessageResumed(sha1: Hash, m: Manager, s: Session, msg: Message, pick: nat)
    requires s.Live() && FromWire(msg)
    ensures s.phase.Opening? ==> Resumed(s, OnOpening(m, s, s.phase.left, msg, pick))
    ensures Resumed(s, OnIdle(m, s, msg, pick))
    ensures Resumed(s, OnReceiving(sha1, m, s, msg, pick))
  {
    hide Top, OnBlock, Manager.Release, Manager.OnPeerHave, Manager.OnPeerBitfield;
    TopResumed(m, s, pick);
    match msg
    case Have(i) => TopResumed(m.OnPeerHave(s.peer, i), s, pick);
    case Bitfield(bits) => TopResumed(m.OnPeerBitfield(s.peer, bits), s, pick);
    case Piece(i, begin, block) => BlockResumed(sha1, m, s, i, begin, block, pick);
    case _ =>
  }

  lemma BlockResumed(sha1: Hash, m: Manager, s: Session, i: nat, begin: nat, block: Bytes, pick: nat)
    requires s.Live()
    ensures Resumed(s, OnBlock(sha1, m, s, i, begin, block, pick))
  {
    hide Top, Manager.AddBlock, RemoveFirst, Manager.Completes;
    var s1 := s.(inFlight := s.inFlight - {(i, begin)});
    if m.AddBlock(sha1, i, begin, block).Ok? {
      var m' := m.AddBlock(sha1, i, begin, block).value;
      TopResumed(m', s1, pick);
      TopResumed(m', s1.(active := RemoveFirst(s1.active, i)), pick);
    }
  }

  lemma LocalResumed(c: Config, st: Pool, ev: Event)
    requires Enabled(c, st, ev) && IsLocal(ev)
    ensures Resumed(st.sessions[ev.id], LocalStep(c, st, ev))
  {
    hide Top, Fill, OnOpening, OnIdle, OnReceiving;
    var s := st.sessions[ev.id];
    match ev
    case Deliver(_, msg, pick) => MessageResumed(c.sha1, st.mgr, s, msg, pick);
    case Timeout(_, pick) => TopResumed(st.mgr, s, pick);
    case Sent(_, pick) => TopResumed(st.mgr, s.(inFlight := s.inFlight + {(s.phase.piece, s.phase.offset)}), pick);
    case Returned(_, pick) => TopResumed(st.mgr, s, pick);
    case Fail(_) =>
  }

  /** A local step changes the table and its own session; a completed piece adds one write job. */
  lemma LocalNext(c: Config, st: Pool, ev: Event)
    requires Enabled(c, st, ev) && IsLocal(ev)
    ensures var l := LocalStep(c, st, ev);
            var st' := Next(c, st, ev);
            && st' == Apply(c, st, ev.id, l)
            && st'.registered == st.registered && st'.dialing == st.dialing && st'.disk == st.disk
            && st'.lock == st.lock && st'.stopping == st.stopping && st'.gathering == st.gathering && st'.hit == st.hit
            && st'.mgr == l.mgr && st.jobs <= st'.jobs
            && st'.sessions.Keys == st.sessions.Keys
            && (forall o :: o in st.sessions && o != ev.id ==> st'.sessions[o] == st.sessions[o])
            && st'.sessions[ev.id].inFlight == l.session.inFlight && st'.sessions[ev.id].active == l.session.active
            && Resumed(st.sessions[ev.id], Local(l.mgr, st'.sessions[ev.id], l.done, l.completed))
  {
    hide LocalStep;
    LocalResumed(c, st, ev);
  }
}
