/** How many connections the pool holds: the cap on `_sessions`, and when it is a cap on sessions. */
module PoolConnections {
  import opened Basics
  import opened ManagerModel
  import opened PoolModel
  import opened PoolSafety
  import opened PoolRuns

  ghost predicate CapOk(c: Config, st: Pool) {
    |st.registered| <= c.maxPeers
  }

  /** Over any interleaving of checks, connects and insertions `_sessions` never exceeds the maximum. */
  lemma StepKeepsCap(c: Config, st: Pool, ev: Event)
    requires CapOk(c, st) && Enabled(c, st, ev)
    ensures CapOk(c, Next(c, st, ev))
  {
    hide Next, RunChunk;
    var st' := Next(c, st, ev);
    if IsLocal(ev) {
      LocalNext(c, st, ev);
      return;
    }
    OtherNext(c, st, ev);
    if ev.WriteChunk? {
      ChunkKeeps(c, st, ev.job, ev.file);
    } else if ev.Release? {
      ReleaseNext(c, st, ev.id);
      OneFewer(st.registered, st.sessions[ev.id].key);
    } else if ev.Insert? && |st.registered| < c.maxPeers {
      OneMore(st.registered, ev.key, ev.id);
    }
  }

  lemma OneMore(m: map<Key, nat>, key: Key, id: nat)
    ensures |m[key := id]| == if key in m then |m| else |m| + 1
  {
    assert m[key := id].Keys == m.Keys + {key};
    assert |m[key := id].Keys| == |m[key := id]| && |m.Keys| == |m|;
  }

  lemma OneFewer(m: map<Key, nat>, key: Key)
    ensures |m - {key}| <= |m|
  {
    SmallerSet((m - {key}).Keys, m.Keys);
    assert |(m - {key}).Keys| == |m - {key}| && |m.Keys| == |m|;
  }

  lemma {:induction false} RunKeepsCap(c: Config, st: Pool, events: seq<Event>, st': Pool)
    requires CapOk(c, st) && Run(c, st, events, st')
    ensures CapOk(c, st')
    decreases |events|
  {
    hide CapOk, Next, Enabled;
    if events != [] {
      StepKeepsCap(c, st, events[0]);
      RunKeepsCap(c, Next(c, st, events[0]), events[1..], st');
    }
  }

  /** The sessions whose connection is open. */
  ghost function Open(st: Pool): set<nat> {
    set id | id in st.sessions && !st.sessions[id].phase.Closed?
  }

  /** `_sessions` lists exactly the open sessions, each under its own address. */
  ghost predicate Registered(st: Pool) {
    && (forall id :: id in Open(st) ==> st.sessions[id].key in st.registered && st.registered[st.sessions[id].key] == id)
    && (forall k :: k in st.registered ==> st.registered[k] in Open(st) && st.sessions[st.registered[k]].key == k)
  }

  lemma {:induction false} ImageNotLarger(ids: set<nat>, sessions: map<nat, Session>, keys: set<Key>)
    requires forall id :: id in ids ==> id in sessions && sessions[id].key in keys
    requires forall a, b :: a in ids && b in ids && sessions[a].key == sessions[b].key ==> a == b
    ensures |ids| <= |keys|
    decreases ids
  {
    if ids != {} {
      var id :| id in ids;
      ImageNotLarger(ids - {id}, sessions, keys - {sessions[id].key});
    }
  }

  /** Then the cap on `_sessions` caps the open sessions too. */
  lemma OpenWithinCap(c: Config, st: Pool)
    requires CapOk(c, st) && Registered(st)
    ensures |Open(st)| <= c.maxPeers
  {
    ImageNotLarger(Open(st), st.sessions, st.registered.Keys);
    assert |st.registered.Keys| == |st.registered|;
  }

  /** Connecting checks the address only before the connect, so a second session may replace the first. */
  lemma InsertKeepsRegistered(c: Config, st: Pool, key: Key, id: nat, peer: PeerId)
    requires Registered(st) && Enabled(c, st, Insert(key, id, peer)) && |st.registered| < c.maxPeers
    ensures Registered(Next(c, st, Insert(key, id, peer))) <==> key !in st.registered
  {
    hide LocalStep, RunChunk, Apply;
    var st' := Next(c, st, Insert(key, id, peer));
    if key in st.registered {
      var o := st.registered[key];
      assert o in Open(st) && o in Open(st');
      assert st'.registered[key] == id != o;
    } else {
      assert Open(st') == Open(st) + {id};
    }
  }

  lemma SameOpen(st: Pool, st': Pool)
    requires Registered(st) && st'.registered == st.registered && st'.sessions.Keys == st.sessions.Keys
    requires forall id :: id in st.sessions ==>
               st'.sessions[id].key == st.sessions[id].key
               && (st'.sessions[id].phase.Closed? <==> st.sessions[id].phase.Closed?)
    ensures Registered(st')
  {
    assert Open(st') == Open(st);
  }

  lemma ReleaseKeepsRegistered(c: Config, st: Pool, id: nat)
    requires Registered(st) && Enabled(c, st, Release(id))
    ensures Registered(Next(c, st, Release(id)))
  {
    hide LocalStep, RunChunk, Apply, Manager.Release;
    var st' := Next(c, st, Release(id));
    assert id in Open(st);
    assert Open(st') == Open(st) - {id};
  }

  lemma StepKeepsRegistered(c: Config, st: Pool, ev: Event)
    requires Registered(st) && Enabled(c, st, ev)
    requires ev.Insert? ==> ev.key !in st.registered
    ensures Registered(Next(c, st, ev))
  {
    hide Next, RunChunk, Registered;
    var st' := Next(c, st, ev);
    if IsLocal(ev) {
      LocalNext(c, st, ev);
      LocalWasOpen(c, st, ev);
      SameOpen(st, st');
    } else if ev.Release? {
      ReleaseKeepsRegistered(c, st, ev.id);
    } else if ev.Insert? && |st.registered| < c.maxPeers {
      InsertKeepsRegistered(c, st, ev.key, ev.id, ev.peer);
    } else {
      OtherNext(c, st, ev);
      if ev.WriteChunk? {
        ChunkKeeps(c, st, ev.job, ev.file);
      }
      SameOpen(st, st');
    }
  }

  lemma LocalWasOpen(c: Config, st: Pool, ev: Event)
    requires Enabled(c, st, ev) && IsLocal(ev)
    ensures ev.id in st.sessions && !st.sessions[ev.id].phase.Closed?
  {}

  /** No insertion of the run finds its address already listed. */
  ghost predicate DistinctInsertions(c: Config, st: Pool, events: seq<Event>)
    decreases |events|
  {
    events != [] && Enabled(c, st, events[0]) ==>
      && (events[0].Insert? ==> events[0].key !in st.registered)
      && DistinctInsertions(c, Next(c, st, events[0]), events[1..])
  }

  /** While no address is connected twice, at most `max_peers` sessions are open, in every run. */
  lemma {:induction false} RunWithinCap(c: Config, st: Pool, events: seq<Event>, st': Pool)
    requires CapOk(c, st) && Registered(st) && Run(c, st, events, st') && DistinctInsertions(c, st, events)
    ensures |Open(st')| <= c.maxPeers
    decreases |events|
  {
    hide Next, Enabled, Registered, CapOk;
    if events == [] {
      OpenWithinCap(c, st);
    } else {
      StepKeepsCap(c, st, events[0]);
      StepKeepsRegistered(c, st, events[0]);
      RunWithinCap(c, Next(c, st, events[0]), events[1..], st');
    }
  }

  // ---------------------------------------------------------------------------
  // Without that, no bound at all
  // ---------------------------------------------------------------------------

  /** Sessions 0 to n-1, none closed; only `key` is listed, and `waiting` more attempts are under way for it. */
  ghost predicate Crowd(st: Pool, key: Key, n: nat, waiting: nat) {
    && !st.lock.Held?
    && st.registered.Keys == (if n > 0 then {key} else {})
    && st.dialing[key] == waiting
    && (forall id: nat :: id in st.sessions <==> id < n)
    && (forall id :: id in st.sessions ==> !st.sessions[id].phase.Closed?)
  }

  lemma {:induction false} FirstNumbers(n: nat, ids: set<nat>)
    requires forall id: nat :: id in ids <==> id < n
    ensures |ids| == n
  {
    if n > 0 {
      FirstNumbers(n - 1, ids - {n - 1});
    } else {
      assert ids == {};
    }
  }

  lemma CrowdIsOpen(st: Pool, key: Key, n: nat)
    requires Crowd(st, key, n, 0)
    ensures |Open(st)| == n && |st.registered| == if n > 0 then 1 else 0
  {
    forall id: nat ensures id in Open(st) <==> id < n {
      assert id in st.sessions <==> id < n;
    }
    FirstNumbers(n, Open(st));
    assert |st.registered.Keys| == |st.registered|;
  }

  lemma InitIsEmpty(c: Config, st: Pool)
    requires Init(c, st)
    ensures st.registered == map[] && st.sessions == map[] && st.dialing == multiset{} && st.lock.Quiet?
  {}

  lemma EmptyCrowd(st: Pool, key: Key, waiting: nat)
    requires !st.lock.Held? && st.registered == map[] && st.sessions == map[] && st.dialing[key] == waiting
    ensures Crowd(st, key, 0, waiting)
  {
    var none: map<nat, Session> := map[];
    assert forall id :: id !in none;
  }

  /** All attempts at one address pass the first check before any of them is inserted. */
  lemma {:induction false} DialMany(c: Config, st: Pool, key: Key, n: nat) returns (events: seq<Event>, st': Pool)
    requires !st.lock.Held? && st.registered == map[] && c.maxPeers > 0
    ensures Run(c, st, events, st')
    ensures st' == st.(dialing := st'.dialing) && st'.dialing[key] == st.dialing[key] + n
    decreases n
  {
    hide Enabled, Next, Run;
    if n == 0 {
      events, st' := [], st;
      RunNothing(c, st);
    } else {
      AdmitNext(c, st, key);
      events, st' := DialMany(c, Next(c, st, Admit(key)), key, n - 1);
      RunStep(c, st, Admit(key), events, st');
      events := [Admit(key)] + events;
    }
  }

  lemma InsertJoins(c: Config, st: Pool, key: Key, peer: PeerId, n: nat, waiting: nat)
    requires Crowd(st, key, n, waiting) && waiting > 0 && c.maxPeers > 1
    ensures Enabled(c, st, Insert(key, n, peer)) && Crowd(Next(c, st, Insert(key, n, peer)), key, n + 1, waiting - 1)
  {
    hide Enabled, Next;
    assert |st.registered.Keys| == |st.registered|;
    InsertNext(c, st, key, n, peer);
    assert st.registered[key := n].Keys == {key};
  }

  lemma {:induction false} InsertMany(c: Config, st: Pool, key: Key, peer: PeerId, n: nat, waiting: nat)
      returns (events: seq<Event>, st': Pool)
    requires Crowd(st, key, n, waiting) && c.maxPeers > 1
    ensures Run(c, st, events, st') && Crowd(st', key, n + waiting, 0)
    decreases waiting
  {
    hide Enabled, Next, Run, Crowd;
    if waiting == 0 {
      events, st' := [], st;
      RunNothing(c, st);
    } else {
      InsertJoins(c, st, key, peer, n, waiting);
      events, st' := InsertMany(c, Next(c, st, Insert(key, n, peer)), key, peer, n + 1, waiting - 1);
      RunStep(c, st, Insert(key, n, peer), events, st');
      events := [Insert(key, n, peer)] + events;
    }
  }

  /**
   One address dialled n times at once gives n open sessions, for any n and any maximum above one,
   with one of them listed.
   */
  lemma OpenWithoutBound(c: Config, st: Pool, key: Key, peer: PeerId, n: nat)
    requires Init(c, st) && c.maxPeers > 1
    ensures exists events: seq<Event>, st': Pool ::
              Run(c, st, events, st') && |Open(st')| == n && |st'.registered| == if n > 0 then 1 else 0
  {
    InitIsEmpty(c, st);
    hide Init, Run;
    var dials, st1 := DialMany(c, st, key, n);
    EmptyCrowd(st1, key, n);
    var inserts, st2 := InsertMany(c, st1, key, peer, 0, n);
    CrowdIsOpen(st2, key, n);
    RunConcat(c, st, dials, st1, inserts, st2);
  }
}
