/** The shared map of connection pools: any number of getDBConnection callers (read lock, write
    lock, double check) and CloseAllConnections callers, one atomic step of one thread at a time. */
module Pools {

  type Tid = nat
  type PoolId = nat

  /** Where a thread is. A caller carries the data source name it wants. Opened holds a pool that
      sql.Open returned and that is not in the map yet. Got carries the number of removals the
      name had seen when the caller took the pool. A closer carries the names it has still to
      visit; Closed names the entry whose pool it has just closed. */
  datatype Thread =
    | Start(name: string)
    | Reading(name: string)
    | Missed(name: string)
    | NotFound(name: string)
    | Writing(name: string)
    | Opened(name: string, pool: PoolId)
    | Leaving(name: string, result: Result)
    | LeavingRead(name: string, result: Result)
    | Returned(name: string, result: Result)
    | CloserStart
    | Closing(todo: set<string>)
    | Closed(closedName: string, todo: set<string>)
    | CloserDone

  datatype Holder = Nobody | By(tid: Tid)

  datatype Result = Got(pool: PoolId, generation: nat) | Failed

  /** pools is the map; writer and readers are the lock. names and born record, for every pool
      ever opened, its data source and how many removals the name had seen; closed holds the pools
      closed without an error; removals counts deletions per name. */
  datatype State = State(pools: map<string, PoolId>, writer: Holder, readers: set<Tid>,
                         threads: map<Tid, Thread>, names: seq<string>, born: seq<nat>,
                         closed: set<PoolId>, removals: map<string, nat>)

  function Removals(s: State, name: string): nat {
    if name in s.removals then s.removals[name] else 0
  }

  function Go(s: State, t: Tid, at: Thread): State {
    s.(threads := s.threads[t := at])
  }

  /** One step of thread t. ok is the environment's choice: whether the configuration lookup and
      sql.Open succeed, or whether Close reports no error; pick is the entry a closer visits. */
  ghost predicate Next(s: State, s': State, t: Tid, ok: bool, pick: string) {
    t in s.threads &&
    match s.threads[t]
    case Start(name) => s.writer == Nobody && s' == Go(s, t, Reading(name)).(readers := s.readers + {t})
    case Reading(name) =>
      if name in s.pools then s' == Go(s, t, LeavingRead(name, Got(s.pools[name], Removals(s, name))))
      else s' == Go(s, t, Missed(name))
    case LeavingRead(name, result) => s' == Go(s, t, Returned(name, result)).(readers := s.readers - {t})
    case Missed(name) => s' == Go(s, t, NotFound(name)).(readers := s.readers - {t})
    case NotFound(name) => s.writer == Nobody && s.readers == {} && s' == Go(s, t, Writing(name)).(writer := By(t))
    case Writing(name) =>
      if name in s.pools then s' == Go(s, t, Leaving(name, Got(s.pools[name], Removals(s, name))))
      else if !ok then s' == Go(s, t, Leaving(name, Failed))
      else s' == Go(s, t, Opened(name, |s.names|)).(names := s.names + [name], born := s.born + [Removals(s, name)])
    case Opened(name, pool) =>
      s' == Go(s, t, Leaving(name, Got(pool, Removals(s, name)))).(pools := s.pools[name := pool])
    case Leaving(name, result) => s' == Go(s, t, Returned(name, result)).(writer := Nobody)
    case CloserStart => s.writer == Nobody && s.readers == {} && s' == Go(s, t, Closing(s.pools.Keys)).(writer := By(t))
    case Closing(todo) =>
      if todo == {} then s' == Go(s, t, CloserDone).(writer := Nobody)
      else
        pick in todo && pick in s.pools &&
        (if ok then s' == Go(s, t, Closed(pick, todo - {pick})).(closed := s.closed + {s.pools[pick]})
         else s' == Go(s, t, Closing(todo - {pick})))
    case Closed(name, todo) =>
      s' == Go(s, t, Closing(todo)).(pools := s.pools - {name}, removals := s.removals[name := Removals(s, name) + 1])
    case Returned(_, _) => false
    case CloserDone => false
  }

  predicate Fresh(th: Thread) {
    th.Start? || th.CloserStart?
  }

  ghost predicate Init(s: State) {
    && s.pools == map[] && s.writer == Nobody && s.readers == {} && s.names == [] && s.born == []
    && s.closed == {} && s.removals == map[]
    && (forall t :: t in s.threads ==> Fresh(s.threads[t]))
  }

  predicate HoldsWrite(th: Thread) {
    th.Writing? || th.Opened? || th.Leaving? || th.Closing? || th.Closed?
  }

  predicate HoldsRead(th: Thread) {
    th.Reading? || th.Missed? || th.LeavingRead?
  }

  /** The lock: writers and readers are the threads that think they hold it, a writer is alone. */
  ghost predicate Locked(s: State) {
    && (forall t :: t in s.threads && HoldsWrite(s.threads[t]) ==> s.writer == By(t))
    && (forall t :: t in s.threads && HoldsRead(s.threads[t]) ==> t in s.readers)
    && (forall t :: t in s.readers ==> t in s.threads && HoldsRead(s.threads[t]))
    && (s.writer != Nobody ==> s.readers == {} && s.writer.tid in s.threads && HoldsWrite(s.threads[s.writer.tid]))
  }

  /** Some thread has opened p and is about to publish it. */
  ghost predicate Pending(s: State, p: PoolId)
    requires p < |s.names|
  {
    exists t :: t in s.threads && s.threads[t] == Opened(s.names[p], p)
  }

  /** Opened pools: published, or closed, or in the hands of the thread that is about to publish. */
  ghost predicate Accounted(s: State, p: PoolId)
    requires p < |s.names|
  {
    || (s.names[p] in s.pools && s.pools[s.names[p]] == p)
    || p in s.closed
    || Pending(s, p)
  }

  ghost predicate PoolsFit(s: State) {
    && |s.born| == |s.names|
    && (forall n :: n in s.pools ==>
         s.pools[n] < |s.names| && s.names[s.pools[n]] == n && s.born[s.pools[n]] == Removals(s, n))
    && (forall p :: 0 <= p < |s.names| ==> Accounted(s, p))
    && (forall p :: 0 <= p < |s.names| ==> s.born[p] <= Removals(s, s.names[p]))
    && (forall p :: 0 <= p < |s.names| && s.born[p] == Removals(s, s.names[p]) ==> Current(s, p))
    && (forall p, q :: 0 <= p < q < |s.names| && s.names[p] == s.names[q] ==> s.born[p] < s.born[q])
  }

  /** A pool of the current generation of its name is in the map or about to be put there. */
  ghost predicate Current(s: State, p: PoolId)
    requires p < |s.names|
  {
    || (s.names[p] in s.pools && s.pools[s.names[p]] == p)
    || Pending(s, p)
  }

  ghost predicate ThreadFits(s: State, t: Tid)
    requires t in s.threads && |s.born| == |s.names|
  {
    match s.threads[t]
    case Opened(name, pool) =>
      pool < |s.names| && s.names[pool] == name && name !in s.pools && s.born[pool] == Removals(s, name)
    case Leaving(name, result) => ResultFits(s, name, result)
    case LeavingRead(name, result) => ResultFits(s, name, result)
    case Returned(name, result) => ResultFits(s, name, result)
    case Closing(todo) => todo <= s.pools.Keys
    case Closed(name, todo) => name in s.pools && s.pools[name] in s.closed && todo <= s.pools.Keys - {name}
    case _ => true
  }

  /** A returned pool is the one of its name that was born in the generation of the lookup. */
  predicate ResultFits(s: State, name: string, result: Result)
    requires |s.born| == |s.names|
  {
    result.Got? ==> result.pool < |s.names| && s.names[result.pool] == name && s.born[result.pool] == result.generation
  }

  ghost predicate Inv(s: State) {
    && Locked(s) && PoolsFit(s)
    && (forall t :: t in s.threads ==> ThreadFits(s, t))
  }

  lemma InitInv(s: State)
    requires Init(s)
    ensures Inv(s)
  {
  }

  /** A step moves one thread. */
  ghost predicate Moves(s: State, s': State, t: Tid) {
    t in s.threads && t in s'.threads && s'.threads == s.threads[t := s'.threads[t]]
  }

  /** How a step of a thread from a to b treats the lock. */
  ghost predicate LockEffect(s: State, s': State, t: Tid, a: Thread, b: Thread) {
    if HoldsWrite(a) == HoldsWrite(b) && HoldsRead(a) == HoldsRead(b) then
      s'.writer == s.writer && s'.readers == s.readers
    else if HoldsWrite(a) then !HoldsRead(b) && s'.writer == Nobody && s'.readers == s.readers
    else if HoldsRead(a) then !HoldsWrite(b) && s'.writer == s.writer && s'.readers == s.readers - {t}
    else if HoldsRead(b) then s'.writer == s.writer == Nobody && s'.readers == s.readers + {t}
    else s'.writer == By(t) && s.writer == Nobody && s'.readers == s.readers == {}
  }

  lemma NextMoves(s: State, s': State, t: Tid, ok: bool, pick: string)
    requires Next(s, s', t, ok, pick)
    ensures Moves(s, s', t)
  {
  }

  lemma NextLocks(s: State, s': State, t: Tid, ok: bool, pick: string)
    requires Next(s, s', t, ok, pick) && t in s'.threads
    ensures LockEffect(s, s', t, s.threads[t], s'.threads[t])
  {
  }

  lemma LockedNext(s: State, s': State, t: Tid)
    requires Locked(s) && Moves(s, s', t) && LockEffect(s, s', t, s.threads[t], s'.threads[t])
    ensures Locked(s')
  {
  }

  /** The four kinds of step that change anything but a thread and the lock. */
  ghost predicate Opens(s: State, s': State, t: Tid) {
    t in s.threads && t in s'.threads && s.threads[t].Writing? &&
    var name := s.threads[t].name;
    && name !in s.pools
    && s'.pools == s.pools && s'.closed == s.closed && s'.removals == s.removals
    && s'.names == s.names + [name] && s'.born == s.born + [Removals(s, name)]
    && s'.threads[t] == Opened(name, |s.names|)
  }

  ghost predicate Publishes(s: State, s': State, t: Tid) {
    t in s.threads && t in s'.threads && s.threads[t].Opened? &&
    var (name, pool) := (s.threads[t].name, s.threads[t].pool);
    && s' == s.(threads := s'.threads, pools := s.pools[name := pool])
    && s'.threads[t] == Leaving(name, Got(pool, Removals(s, name)))
  }

  ghost predicate Closes(s: State, s': State, t: Tid, name: string) {
    t in s.threads && t in s'.threads && s.threads[t].Closing? && name in s.threads[t].todo && name in s.pools
    && s' == s.(threads := s'.threads, closed := s.closed + {s.pools[name]})
    && s'.threads[t] == Closed(name, s.threads[t].todo - {name})
  }

  ghost predicate Removes(s: State, s': State, t: Tid) {
    t in s.threads && t in s'.threads && s.threads[t].Closed? &&
    var name := s.threads[t].closedName;
    && s' == s.(threads := s'.threads, pools := s.pools - {name}, removals := s.removals[name := Removals(s, name) + 1])
    && s'.threads[t] == Closing(s.threads[t].todo)
  }

  ghost predicate Quiet(s: State, s': State, t: Tid) {
    t in s.threads && SameData(s, s') && !s.threads[t].Opened? && !s.threads[t].Closed?
  }

  predicate SameData(s: State, s': State) {
    && s'.pools == s.pools && s'.names == s.names && s'.born == s.born
    && s'.closed == s.closed && s'.removals == s.removals
  }

  lemma NextKinds(s: State, s': State, t: Tid, ok: bool, pick: string)
    requires Next(s, s', t, ok, pick)
    ensures Quiet(s, s', t) || Opens(s, s', t) || Publishes(s, s', t) || Closes(s, s', t, pick) || Removes(s, s', t)
  {
  }

  /** Whatever changes the map is a publication under a name that had no entry, or the removal of
      a pool that was closed, by the one thread that holds the write lock while nobody reads. */
  lemma WritesAreExclusive(s: State, s': State, t: Tid, ok: bool, pick: string)
    requires Inv(s) && Next(s, s', t, ok, pick) && s'.pools != s.pools
    ensures s.writer == By(t) && s.readers == {}
    ensures (Publishes(s, s', t) && s.threads[t].name !in s.pools)
         || (Removes(s, s', t) && s.threads[t].closedName in s.pools && s.pools[s.threads[t].closedName] in s.closed)
  {
    NextKinds(s, s', t, ok, pick);
    assert ThreadFits(s, t);
    hide Next;
  }

  // ---------- the invariant holds over every run ----------

  /** Only the thread t holds the write lock, so no other thread is between opening and publishing. */
  lemma OneWriter(s: State, t: Tid, u: Tid)
    requires Locked(s) && t in s.threads && u in s.threads && HoldsWrite(s.threads[t]) && HoldsWrite(s.threads[u])
    ensures t == u
  {
  }

  /** A step that only moves a thread. */
  lemma QuietStep(s: State, s': State, t: Tid)
    requires Inv(s) && Moves(s, s', t) && SameData(s, s') && !s.threads[t].Opened? && ThreadFits(s', t)
    ensures PoolsFit(s') && forall u :: u in s'.threads ==> ThreadFits(s', u)
  {
    forall p | 0 <= p < |s.names| ensures Accounted(s', p) && (Current(s, p) ==> Current(s', p)) {
      assert Accounted(s, p);
      AboutToPublish(s, s', t, p);
    }
    forall u | u in s'.threads ensures ThreadFits(s', u) {
      if u != t { assert ThreadFits(s, u); }
    }
  }

  lemma AboutToPublish(s: State, s': State, t: Tid, p: PoolId)
    requires Moves(s, s', t) && p < |s.names| <= |s'.names| && s'.names[p] == s.names[p]
    requires s.threads[t] != Opened(s.names[p], p)
    ensures Pending(s, p) ==> Pending(s', p)
  {
    if Pending(s, p) {
      var u :| u in s.threads && s.threads[u] == Opened(s.names[p], p);
      assert u in s'.threads && s'.threads[u] == Opened(s'.names[p], p);
    }
  }

  lemma OpenStep(s: State, s': State, t: Tid, name: string)
    requires Inv(s) && Moves(s, s', t) && Opens(s, s', t) && s.threads[t].name == name
    ensures PoolsFit(s') && forall u :: u in s'.threads ==> ThreadFits(s', u)
  {
    assert Pending(s', |s.names|);
    forall p | 0 <= p < |s'.names|
      ensures Accounted(s', p) && (s'.born[p] == Removals(s', s'.names[p]) ==> Current(s', p)) {
      if p < |s.names| {
        assert Accounted(s, p);
        AboutToPublish(s, s', t, p);
      }
    }
    forall p | 0 <= p < |s.names| && s.names[p] == name ensures s.born[p] < Removals(s, name) {
      if s.born[p] == Removals(s, name) {
        assert Current(s, p) && Pending(s, p);
        var u :| u in s.threads && s.threads[u] == Opened(s.names[p], p);
        OneWriter(s, t, u);
      }
    }
    forall u | u in s'.threads ensures ThreadFits(s', u) {
      if u != t { assert ThreadFits(s, u); }
    }
  }

  lemma PublishStep(s: State, s': State, t: Tid, name: string, pool: PoolId)
    requires Inv(s) && Moves(s, s', t) && Publishes(s, s', t) && s.threads[t] == Opened(name, pool)
    ensures PoolsFit(s') && forall u :: u in s'.threads ==> ThreadFits(s', u)
  {
    hide *;
    PublishPools(s, s', t, name, pool);
    SameBorn(s');
    forall u | u in s'.threads ensures ThreadFits(s', u) {
      PublishThread(s, s', t, u, name, pool);
    }
  }

  lemma SameBorn(s: State)
    requires PoolsFit(s)
    ensures |s.born| == |s.names|
  {
  }

  lemma PublishPools(s: State, s': State, t: Tid, name: string, pool: PoolId)
    requires Inv(s) && Moves(s, s', t) && Publishes(s, s', t) && s.threads[t] == Opened(name, pool)
    ensures PoolsFit(s')
  {
    assert ThreadFits(s, t);
    hide Moves, Locked, Accounted, Current, Pending, ThreadFits;
    forall p | 0 <= p < |s.names| ensures Accounted(s', p) && (Current(s, p) ==> Current(s', p)) {
      PublishPool(s, s', t, name, pool, p);
    }
  }

  lemma PublishPool(s: State, s': State, t: Tid, name: string, pool: PoolId, p: PoolId)
    requires Inv(s) && Moves(s, s', t) && Publishes(s, s', t) && s.threads[t] == Opened(name, pool)
    requires p < |s.names| == |s'.names|
    ensures Accounted(s', p) && (Current(s, p) ==> Current(s', p))
  {
    assert ThreadFits(s, t) && Accounted(s, p);
    hide Locked, ThreadFits, PoolsFit, Moves, Pending;
    if p != pool {
      AboutToPublish(s, s', t, p);
    }
  }

  lemma PublishThread(s: State, s': State, t: Tid, u: Tid, name: string, pool: PoolId)
    requires Inv(s) && Moves(s, s', t) && Publishes(s, s', t) && s.threads[t] == Opened(name, pool) && u in s'.threads
    ensures |s'.born| == |s'.names| && ThreadFits(s', u)
  {
    hide Accounted, Current;
    assert ThreadFits(s, t) && ThreadFits(s, u);
    if u != t && HoldsWrite(s.threads[u]) { OneWriter(s, t, u); }
  }

  lemma CloseStep(s: State, s': State, t: Tid, name: string, todo: set<string>)
    requires Inv(s) && Moves(s, s', t) && Closes(s, s', t, name) && s.threads[t] == Closing(todo)
    ensures PoolsFit(s') && forall u :: u in s'.threads ==> ThreadFits(s', u)
  {
    hide *;
    ClosePools(s, s', t, name, todo);
    SameBorn(s');
    forall u | u in s'.threads ensures ThreadFits(s', u) {
      CloseThread(s, s', t, u, name, todo);
    }
  }

  lemma ClosePools(s: State, s': State, t: Tid, name: string, todo: set<string>)
    requires Inv(s) && Moves(s, s', t) && Closes(s, s', t, name) && s.threads[t] == Closing(todo)
    ensures PoolsFit(s')
  {
    forall p | 0 <= p < |s.names| ensures Accounted(s', p) && (Current(s, p) ==> Current(s', p)) {
      assert Accounted(s, p);
      AboutToPublish(s, s', t, p);
    }
    hide Moves, Locked, Accounted, Current, Pending, ThreadFits;
  }

  lemma CloseThread(s: State, s': State, t: Tid, u: Tid, name: string, todo: set<string>)
    requires Inv(s) && Moves(s, s', t) && Closes(s, s', t, name) && s.threads[t] == Closing(todo) && u in s'.threads
    ensures |s'.born| == |s'.names| && ThreadFits(s', u)
  {
    hide Accounted, Current, Locked;
    assert ThreadFits(s, t);
    if u != t { assert ThreadFits(s, u); }
  }

  lemma RemoveStep(s: State, s': State, t: Tid, name: string, todo: set<string>)
    requires Inv(s) && Moves(s, s', t) && Removes(s, s', t) && s.threads[t] == Closed(name, todo)
    ensures PoolsFit(s') && forall u :: u in s'.threads ==> ThreadFits(s', u)
  {
    assert ThreadFits(s, t);
    forall p | 0 <= p < |s.names|
      ensures Accounted(s', p) && s.born[p] <= Removals(s', s.names[p])
      ensures s'.born[p] == Removals(s', s'.names[p]) ==> Current(s', p)
    {
      assert Accounted(s, p);
      AboutToPublish(s, s', t, p);
    }
    forall u | u in s'.threads ensures ThreadFits(s', u) {
      assert ThreadFits(s, u);
      if u != t && HoldsWrite(s.threads[u]) { OneWriter(s, t, u); }
    }
  }

  lemma NextInv(s: State, s': State, t: Tid, ok: bool, pick: string)
    requires Inv(s) && Next(s, s', t, ok, pick)
    ensures Inv(s')
  {
    NextMoves(s, s', t, ok, pick);
    NextLocks(s, s', t, ok, pick);
    NextKinds(s, s', t, ok, pick);
    LockedNext(s, s', t);
    if Quiet(s, s', t) {
      assert ThreadFits(s, t);
    }
    hide Next, Locked, PoolsFit, Moves, LockEffect, ThreadFits;
    if Quiet(s, s', t) {
      QuietStep(s, s', t);
    } else if Opens(s, s', t) {
      OpenStep(s, s', t, s.threads[t].name);
    } else if Publishes(s, s', t) {
      PublishStep(s, s', t, s.threads[t].name, s.threads[t].pool);
    } else if Closes(s, s', t, pick) {
      CloseStep(s, s', t, pick, s.threads[t].todo);
    } else {
      RemoveStep(s, s', t, s.threads[t].closedName, s.threads[t].todo);
    }
  }

  ghost predicate Steps(s: State, s': State) {
    exists t, ok, pick :: Next(s, s', t, ok, pick)
  }

  /** A run: any interleaving of any number of threads. */
  ghost predicate Run(states: seq<State>) {
    && states != [] && Init(states[0])
    && (forall i :: 0 <= i < |states| - 1 ==> Steps(states[i], states[i + 1]))
  }

  lemma {:induction false} RunInv(states: seq<State>, i: nat)
    requires Run(states) && i < |states|
    ensures Inv(states[i])
    decreases i
  {
    hide Inv, Init, Next;
    if i == 0 {
      InitInv(states[0]);
    } else {
      RunInv(states, i - 1);
      assert Steps(states[i - 1], states[i - 1 + 1]);
      var t, ok, pick :| Next(states[i - 1], states[i], t, ok, pick);
      NextInv(states[i - 1], states[i], t, ok, pick);
    }
  }

  predicate Finished(th: Thread) {
    th.Returned? || th.CloserDone?
  }

  /** Some thread can take a step. */
  ghost predicate CanStep(s: State, t: Tid) {
    exists s', ok, pick :: Next(s, s', t, ok, pick)
  }

  /** Whoever holds a lock can go on. */
  lemma HolderSteps(s: State, t: Tid)
    requires Inv(s) && t in s.threads && (HoldsWrite(s.threads[t]) || HoldsRead(s.threads[t]))
    ensures CanStep(s, t)
  {
    assert ThreadFits(s, t);
    hide PoolsFit, Locked;
    match s.threads[t]
    case Reading(name) =>
      var th := if name in s.pools then LeavingRead(name, Got(s.pools[name], Removals(s, name))) else Missed(name);
      assert Next(s, Go(s, t, th), t, true, "");
    case LeavingRead(name, result) =>
      assert Next(s, Go(s, t, Returned(name, result)).(readers := s.readers - {t}), t, true, "");
    case Missed(name) => assert Next(s, Go(s, t, NotFound(name)).(readers := s.readers - {t}), t, true, "");
    case Writing(name) =>
      var th := Leaving(name, if name in s.pools then Got(s.pools[name], Removals(s, name)) else Failed);
      assert Next(s, Go(s, t, th), t, false, "");
    case Opened(name, pool) =>
      var th := Leaving(name, Got(pool, Removals(s, name)));
      assert Next(s, Go(s, t, th).(pools := s.pools[name := pool]), t, true, "");
    case Leaving(name, result) =>
      assert Next(s, Go(s, t, Returned(name, result)).(writer := Nobody), t, true, "");
    case Closing(todo) => CloserSteps(s, t, todo);
    case Closed(name, todo) =>
      var left := s.removals[name := Removals(s, name) + 1];
      assert Next(s, Go(s, t, Closing(todo)).(pools := s.pools - {name}, removals := left), t, true, "");
  }

  lemma CloserSteps(s: State, t: Tid, todo: set<string>)
    requires t in s.threads && s.threads[t] == Closing(todo) && todo <= s.pools.Keys
    ensures CanStep(s, t)
  {
    if todo == {} {
      assert Next(s, Go(s, t, CloserDone).(writer := Nobody), t, true, "");
    } else {
      var pick :| pick in todo;
      assert Next(s, Go(s, t, Closing(todo - {pick})), t, false, pick);
    }
  }

  /** When nobody holds the lock, whoever waits for it can take it. */
  lemma WaiterSteps(s: State, t: Tid)
    requires t in s.threads && s.writer == Nobody && s.readers == {}
    requires !Finished(s.threads[t]) && !HoldsWrite(s.threads[t]) && !HoldsRead(s.threads[t])
    ensures CanStep(s, t)
  {
    match s.threads[t]
    case Start(name) => assert Next(s, Go(s, t, Reading(name)).(readers := s.readers + {t}), t, true, "");
    case NotFound(name) => assert Next(s, Go(s, t, Writing(name)).(writer := By(t)), t, true, "");
    case CloserStart => assert Next(s, Go(s, t, Closing(s.pools.Keys)).(writer := By(t)), t, true, "");
  }

  /** No deadlock: in every reachable state, until every caller has its result and every closer is
      done, some thread can step, and if anyone holds the lock it is one who does. */
  lemma SomeoneProceeds(states: seq<State>, i: nat, t: Tid)
    requires Run(states) && i < |states| && t in states[i].threads && !Finished(states[i].threads[t])
    ensures exists u :: Proceeds(states[i], u)
  {
    RunInv(states, i);
    var s := states[i];
    LockFacts(s, t);
    hide Inv, Locked, CanStep;
    if s.writer != Nobody {
      HolderSteps(s, s.writer.tid);
      assert Proceeds(s, s.writer.tid);
    } else if s.readers != {} {
      var u :| u in s.readers;
      HolderSteps(s, u);
      assert Proceeds(s, u);
    } else {
      WaiterSteps(s, t);
      assert Proceeds(s, t);
    }
  }

  ghost predicate Proceeds(s: State, u: Tid) {
    && u in s.threads && CanStep(s, u)
    && (s.writer == By(u) || u in s.readers || (s.writer == Nobody && s.readers == {}))
  }

  lemma LockFacts(s: State, t: Tid)
    requires Inv(s) && t in s.threads
    ensures s.writer != Nobody ==> s.writer.tid in s.threads && HoldsWrite(s.threads[s.writer.tid])
    ensures forall u :: u in s.readers ==> u in s.threads && HoldsRead(s.threads[u])
    ensures s.writer == Nobody && s.readers == {} ==> !HoldsWrite(s.threads[t]) && !HoldsRead(s.threads[t])
  {
    hide PoolsFit, ThreadFits;
  }

  /** In every interleaving, at most one pool of a name is opened between two of its removals. */
  lemma OnePoolPerGeneration(states: seq<State>, i: nat, p: PoolId, q: PoolId)
    requires Run(states) && i < |states| && p < |states[i].names| && q < |states[i].names|
    requires |states[i].born| == |states[i].names|
    requires states[i].names[p] == states[i].names[q] && states[i].born[p] == states[i].born[q]
    ensures p == q
  {
    RunInv(states, i);
  }

  /** Two callers that took a pool of one name between the same removals got the same pool. */
  lemma CallersAgree(states: seq<State>, i: nat, t: Tid, u: Tid, name: string, p: PoolId, q: PoolId, generation: nat)
    requires Run(states) && i < |states| && t in states[i].threads && u in states[i].threads
    requires states[i].threads[t] == Returned(name, Got(p, generation))
    requires states[i].threads[u] == Returned(name, Got(q, generation))
    ensures p == q
  {
    RunInv(states, i);
    assert ThreadFits(states[i], t) && ThreadFits(states[i], u);
  }

  /** Whenever nobody holds the write lock, every pool ever opened is in the map under its name,
      or was closed without an error. */
  lemma NoPoolIsLost(states: seq<State>, i: nat, p: PoolId)
    requires Run(states) && i < |states| && p < |states[i].names| && states[i].writer == Nobody
    ensures var s := states[i];
      (s.names[p] in s.pools && s.pools[s.names[p]] == p) || p in s.closed
  {
    RunInv(states, i);
    assert Accounted(states[i], p);
  }

  lemma StepEntry(s: State, s': State, name: string)
    requires Inv(s) && Steps(s, s')
    ensures Removals(s, name) <= Removals(s', name)
    ensures name in s.pools && Removals(s, name) == Removals(s', name) ==>
      name in s'.pools && s'.pools[name] == s.pools[name]
  {
    var t, ok, pick :| Next(s, s', t, ok, pick);
    NextKinds(s, s', t, ok, pick);
    hide Next, PoolsFit, Locked;
    assert ThreadFits(s, t);
  }

  /** A published entry is never overwritten: it is the same until the name is removed. */
  lemma {:induction false} EntryStays(states: seq<State>, i: nat, j: nat, name: string)
    requires Run(states) && i <= j < |states|
    ensures Removals(states[i], name) <= Removals(states[j], name)
    ensures name in states[i].pools && Removals(states[i], name) == Removals(states[j], name) ==>
      name in states[j].pools && states[j].pools[name] == states[i].pools[name]
    decreases j
  {
    hide Inv, Init, Next;
    if i < j {
      EntryStays(states, i, j - 1, name);
      RunInv(states, j - 1);
      assert Steps(states[j - 1], states[j - 1 + 1]);
      StepEntry(states[j - 1], states[j], name);
    }
  }
}
