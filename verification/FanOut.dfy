/** executeOnMultipleNodes: one goroutine per node, shared result and error slices under a mutex,
    and a WaitGroup. Threads take atomic steps in any order; an append is a load of the slices and a
    store, so that losing an update would be possible without the mutex. */
module FanOut {
  import opened ResultSet

  /** What a node's connection and statement give: an error or a result, never neither. */
  datatype Outcome = Error(message: string) | Success(result: SQLResult)

  datatype Pc =
    | NotStarted
    | Running
    | Waiting
    | Holding
    | Loaded(seenResults: seq<SQLResult>, seenErrors: seq<string>)
    | Stored
    | Released
    | Finished

  /** The spawning thread: about to call wg.Add for node i, about to start goroutine i, in
      wg.Wait, past it. */
  datatype Main = Adding(i: nat) | Spawning(i: nat) | Blocked | Woken

  datatype Lock = Free | HeldBy(i: nat)

  /** log records the order in which the goroutines stored. */
  datatype State = State(main: Main, wg: int, lock: Lock, results: seq<SQLResult>, errors: seq<string>,
                         pcs: seq<Pc>, log: seq<nat>)

  predicate Init(s: State, n: nat) {
    && s.main == Adding(0) && s.wg == 0 && s.lock == Free && s.results == [] && s.errors == [] && s.log == []
    && |s.pcs| == n && (forall i :: 0 <= i < n ==> s.pcs[i] == NotStarted)
  }

  function At(s: State, i: nat, pc: Pc): State
    requires i < |s.pcs|
  {
    s.(pcs := s.pcs[i := pc])
  }

  predicate MainStep(s: State, t: State) {
    match s.main
    case Adding(i) =>
      if i < |s.pcs| then t == s.(main := Spawning(i), wg := s.wg + 1) else t == s.(main := Blocked)
    case Spawning(i) => i < |s.pcs| && t == At(s, i, Running).(main := Adding(i + 1))
    case Blocked => s.wg == 0 && t == s.(main := Woken)
    case Woken => false
  }

  predicate WorkerStep(outcomes: seq<Outcome>, s: State, t: State, i: nat)
    requires |s.pcs| == |outcomes| && i < |outcomes|
  {
    match s.pcs[i]
    case NotStarted => false
    case Running => t == At(s, i, Waiting)
    case Waiting => s.lock == Free && t == At(s, i, Holding).(lock := HeldBy(i))
    case Holding => t == At(s, i, Loaded(s.results, s.errors))
    case Loaded(rs, es) =>
      (match outcomes[i]
       case Error(e) => t == At(s, i, Stored).(results := rs, errors := es + [e], log := s.log + [i])
       case Success(r) => t == At(s, i, Stored).(results := rs + [r], errors := es, log := s.log + [i]))
    case Stored => t == At(s, i, Released).(lock := Free)
    case Released => t == At(s, i, Finished).(wg := s.wg - 1)
    case Finished => false
  }

  /** A step of any thread. */
  ghost predicate Next(outcomes: seq<Outcome>, s: State, t: State)
    requires |s.pcs| == |outcomes|
  {
    MainStep(s, t) || exists i: nat :: i < |outcomes| && WorkerStep(outcomes, s, t, i)
  }

  function SuccessOf(o: Outcome): seq<SQLResult> {
    if o.Success? then [o.result] else []
  }

  function ErrorOf(o: Outcome): seq<string> {
    if o.Error? then [o.message] else []
  }

  /** What nodes contribute, in the order of log. */
  function Collect<T>(parts: seq<seq<T>>, log: seq<nat>): seq<T>
    requires forall k :: 0 <= k < |log| ==> log[k] < |parts|
  {
    if log == [] then [] else Collect(parts, log[..|log| - 1]) + parts[log[|log| - 1]]
  }

  function SuccessParts(outcomes: seq<Outcome>): (r: seq<seq<SQLResult>>)
    ensures |r| == |outcomes|
  {
    seq(|outcomes|, i requires 0 <= i < |outcomes| => SuccessOf(outcomes[i]))
  }

  function ErrorParts(outcomes: seq<Outcome>): (r: seq<seq<string>>)
    ensures |r| == |outcomes|
  {
    seq(|outcomes|, i requires 0 <= i < |outcomes| => ErrorOf(outcomes[i]))
  }

  function Successes(outcomes: seq<Outcome>, log: seq<nat>): seq<SQLResult>
    requires forall k :: 0 <= k < |log| ==> log[k] < |outcomes|
  {
    Collect(SuccessParts(outcomes), log)
  }

  function Failures(outcomes: seq<Outcome>, log: seq<nat>): seq<string>
    requires forall k :: 0 <= k < |log| ==> log[k] < |outcomes|
  {
    Collect(ErrorParts(outcomes), log)
  }

  predicate Critical(pc: Pc) {
    pc.Holding? || pc.Loaded? || pc.Stored?
  }

  predicate HasStored(pc: Pc) {
    pc.Stored? || pc.Released? || pc.Finished?
  }

  /** How many of the first k goroutines have not called Done. */
  function Live(pcs: seq<Pc>, k: nat): nat
    requires k <= |pcs|
  {
    if k == 0 then 0 else Live(pcs, k - 1) + (if pcs[k - 1].Finished? then 0 else 1)
  }

  /** How many nodes wg.Add has been called for, and how many goroutines were started. */
  function Added(s: State): nat {
    match s.main case Adding(i) => i case Spawning(i) => i + 1 case _ => |s.pcs|
  }

  function Started(s: State): nat {
    match s.main case Adding(i) => i case Spawning(i) => i case _ => |s.pcs|
  }

  predicate LockInv(s: State) {
    && (forall i :: 0 <= i < |s.pcs| && Critical(s.pcs[i]) ==> s.lock == HeldBy(i))
    && (s.lock.HeldBy? ==> s.lock.i < |s.pcs| && Critical(s.pcs[s.lock.i]))
    && (forall i :: 0 <= i < |s.pcs| && s.pcs[i].Loaded? ==>
          s.pcs[i].seenResults == s.results && s.pcs[i].seenErrors == s.errors)
  }

  predicate LogInv(outcomes: seq<Outcome>, s: State)
    requires |s.pcs| == |outcomes|
  {
    && (forall k :: 0 <= k < |s.log| ==> s.log[k] < |outcomes|)
    && (forall j, k :: 0 <= j < k < |s.log| ==> s.log[j] != s.log[k])
    && (forall i :: 0 <= i < |s.pcs| ==> (i in s.log <==> HasStored(s.pcs[i])))
    && s.results == Successes(outcomes, s.log)
    && s.errors == Failures(outcomes, s.log)
  }

  predicate WaitInv(s: State) {
    && Started(s) <= Added(s) <= |s.pcs|
    && (s.main.Spawning? ==> s.main.i < |s.pcs|)
    && (forall i :: Started(s) <= i < |s.pcs| ==> s.pcs[i] == NotStarted)
    && (forall i :: 0 <= i < Started(s) ==> s.pcs[i] != NotStarted)
    && s.wg == Live(s.pcs, Added(s))
    && (s.main.Woken? ==> s.wg == 0)
  }

  predicate Inv(outcomes: seq<Outcome>, s: State) {
    |s.pcs| == |outcomes| && LockInv(s) && LogInv(outcomes, s) && WaitInv(s)
  }

  lemma {:induction false} LiveUpdate(pcs: seq<Pc>, k: nat, i: nat, pc: Pc)
    requires k <= |pcs| && i < |pcs| && !pcs[i].Finished?
    ensures Live(pcs[i := pc], k) == Live(pcs, k) - (if i < k && pc.Finished? then 1 else 0)
  {
    if k > 0 {
      LiveUpdate(pcs, k - 1, i, pc);
    }
  }

  lemma InitInv(outcomes: seq<Outcome>, s: State)
    requires Init(s, |outcomes|)
    ensures Inv(outcomes, s)
  {
  }

  lemma MainInv(outcomes: seq<Outcome>, s: State, t: State)
    requires Inv(outcomes, s) && MainStep(s, t)
    ensures Inv(outcomes, t)
  {
    hide Successes, Failures;
    if s.main.Spawning? {
      MainLog(outcomes, s, t);
    }
    hide LogInv;
    MainWait(s, t);
    hide WaitInv, Live;
  }

  lemma MainWait(s: State, t: State)
    requires WaitInv(s) && MainStep(s, t)
    ensures WaitInv(t)
  {
    if s.main.Spawning? {
      LiveUpdate(s.pcs, Added(s), s.main.i, Running);
    }
  }

  lemma MainLog(outcomes: seq<Outcome>, s: State, t: State)
    requires |s.pcs| == |outcomes| && LogInv(outcomes, s) && WaitInv(s) && MainStep(s, t) && s.main.Spawning?
    ensures |t.pcs| == |outcomes| && LogInv(outcomes, t)
  {
    hide Successes, Failures, Live;
    assert s.pcs[s.main.i] == NotStarted;
  }

  lemma WorkerLock(outcomes: seq<Outcome>, s: State, t: State, i: nat)
    requires Inv(outcomes, s) && i < |outcomes| && WorkerStep(outcomes, s, t, i)
    ensures |t.pcs| == |outcomes| && LockInv(t)
  {
  }

  lemma WorkerWait(outcomes: seq<Outcome>, s: State, t: State, i: nat)
    requires Inv(outcomes, s) && i < |outcomes| && WorkerStep(outcomes, s, t, i)
    ensures |t.pcs| == |outcomes| && WaitInv(t)
  {
    assert i < Started(s);
    assert t.pcs == s.pcs[i := t.pcs[i]];
    LiveUpdate(s.pcs, Added(s), i, t.pcs[i]);
  }

  lemma WorkerLog(outcomes: seq<Outcome>, s: State, t: State, i: nat)
    requires Inv(outcomes, s) && i < |outcomes| && WorkerStep(outcomes, s, t, i)
    ensures |t.pcs| == |outcomes| && LogInv(outcomes, t)
  {
    hide Live;
    if s.pcs[i].Loaded? {
      LogAppend(outcomes, s, t, i);
    } else {
      LogKept(outcomes, s, t, i);
    }
  }

  lemma LogKept(outcomes: seq<Outcome>, s: State, t: State, i: nat)
    requires |s.pcs| == |outcomes| && LogInv(outcomes, s) && i < |outcomes|
    requires WorkerStep(outcomes, s, t, i) && !s.pcs[i].Loaded?
    ensures |t.pcs| == |outcomes| && LogInv(outcomes, t)
  {
    hide Successes, Failures;
    assert HasStored(t.pcs[i]) == HasStored(s.pcs[i]);
  }

  lemma LoadedStep(outcomes: seq<Outcome>, s: State, t: State, i: nat)
    requires |s.pcs| == |outcomes| && LockInv(s) && i < |outcomes|
    requires WorkerStep(outcomes, s, t, i) && s.pcs[i].Loaded?
    ensures t.pcs == s.pcs[i := Stored] && t.log == s.log + [i]
    ensures t.results == s.results + SuccessOf(outcomes[i]) && t.errors == s.errors + ErrorOf(outcomes[i])
  {
  }

  lemma Snoc(outcomes: seq<Outcome>, log: seq<nat>, i: nat)
    requires i < |outcomes| && forall k :: 0 <= k < |log| ==> log[k] < |outcomes|
    ensures Successes(outcomes, log + [i]) == Successes(outcomes, log) + SuccessOf(outcomes[i])
    ensures Failures(outcomes, log + [i]) == Failures(outcomes, log) + ErrorOf(outcomes[i])
  {
    CollectSnoc(SuccessParts(outcomes), log, i);
    CollectSnoc(ErrorParts(outcomes), log, i);
  }

  lemma LogAppend(outcomes: seq<Outcome>, s: State, t: State, i: nat)
    requires |s.pcs| == |outcomes| && LogInv(outcomes, s) && LockInv(s) && i < |outcomes|
    requires WorkerStep(outcomes, s, t, i) && s.pcs[i].Loaded?
    ensures |t.pcs| == |outcomes| && LogInv(outcomes, t)
  {
    hide Successes, Failures;
    LoadedStep(outcomes, s, t, i);
    hide WorkerStep, LockInv;
    Snoc(outcomes, s.log, i);
    assert i !in s.log;
  }

  lemma NextInv(outcomes: seq<Outcome>, s: State, t: State)
    requires Inv(outcomes, s) && Next(outcomes, s, t)
    ensures Inv(outcomes, t)
  {
    if MainStep(s, t) {
      MainInv(outcomes, s, t);
    } else {
      var i: nat :| i < |outcomes| && WorkerStep(outcomes, s, t, i);
      WorkerLock(outcomes, s, t, i);
      WorkerWait(outcomes, s, t, i);
      WorkerLog(outcomes, s, t, i);
    }
  }

  // ---------- no deadlock, and an end ----------

  function Rank(pc: Pc): nat {
    match pc
    case NotStarted => 7
    case Running => 6
    case Waiting => 5
    case Holding => 4
    case Loaded(_, _) => 3
    case Stored => 2
    case Released => 1
    case Finished => 0
  }

  function Ranks(pcs: seq<Pc>): nat {
    if pcs == [] then 0 else Rank(pcs[0]) + Ranks(pcs[1..])
  }

  function StepsLeft(s: State): int {
    Ranks(s.pcs) + match s.main
      case Adding(i) => 2 + 2 * (|s.pcs| - i)
      case Spawning(i) => 1 + 2 * (|s.pcs| - i)
      case Blocked => 1
      case Woken => 0
  }

  lemma {:induction false} RanksUpdate(pcs: seq<Pc>, i: nat, pc: Pc)
    requires i < |pcs|
    ensures Ranks(pcs[i := pc]) == Ranks(pcs) - Rank(pcs[i]) + Rank(pc)
  {
    if i > 0 {
      RanksUpdate(pcs[1..], i - 1, pc);
      assert pcs[i := pc][1..] == pcs[1..][i - 1 := pc];
    } else {
      assert pcs[i := pc][1..] == pcs[1..];
    }
  }

  /** Every step brings the end nearer, so every run is finite. */
  lemma StepsDecrease(outcomes: seq<Outcome>, s: State, t: State)
    requires Inv(outcomes, s) && Next(outcomes, s, t)
    ensures 0 <= StepsLeft(t) < StepsLeft(s)
  {
    hide LogInv, LockInv, Live, Ranks;
    if MainStep(s, t) {
      if s.main.Spawning? {
        RanksUpdate(s.pcs, s.main.i, Running);
      }
    } else {
      var i: nat :| i < |outcomes| && WorkerStep(outcomes, s, t, i);
      WorkerRank(outcomes, s, t, i);
    }
  }

  lemma WorkerRank(outcomes: seq<Outcome>, s: State, t: State, i: nat)
    requires |s.pcs| == |outcomes| && i < |outcomes| && WorkerStep(outcomes, s, t, i)
    ensures t.main == s.main && |t.pcs| == |s.pcs| && Ranks(t.pcs) < Ranks(s.pcs)
  {
    hide Ranks;
    assert t.pcs == s.pcs[i := t.pcs[i]];
    RanksUpdate(s.pcs, i, t.pcs[i]);
  }

  lemma {:induction false} SomeLive(pcs: seq<Pc>, k: nat) returns (i: nat)
    requires k <= |pcs| && Live(pcs, k) > 0
    ensures i < k && !pcs[i].Finished?
  {
    if pcs[k - 1].Finished? {
      i := SomeLive(pcs, k - 1);
    } else {
      i := k - 1;
    }
  }

  /** As long as wg.Wait has not returned, some thread can take a step. */
  lemma NoDeadlock(outcomes: seq<Outcome>, s: State) returns (t: State)
    requires Inv(outcomes, s) && !s.main.Woken?
    ensures Next(outcomes, s, t)
  {
    match s.main {
      case Adding(i) =>
        t := if i < |s.pcs| then s.(main := Spawning(i), wg := s.wg + 1) else s.(main := Blocked);
      case Spawning(i) => t := At(s, i, Running).(main := Adding(i + 1));
      case Blocked =>
        if s.wg == 0 {
          t := s.(main := Woken);
        } else {
          var i := SomeLive(s.pcs, |s.pcs|);
          if s.pcs[i].Waiting? && s.lock.HeldBy? {
            i := s.lock.i;
          }
          t := Advance(outcomes, s, i);
          assert WorkerStep(outcomes, s, t, i);
        }
    }
  }

  function Advance(outcomes: seq<Outcome>, s: State, i: nat): State
    requires |s.pcs| == |outcomes| && i < |outcomes|
  {
    match s.pcs[i]
    case Running => At(s, i, Waiting)
    case Waiting => At(s, i, Holding).(lock := HeldBy(i))
    case Holding => At(s, i, Loaded(s.results, s.errors))
    case Loaded(rs, es) =>
      At(s, i, Stored).(results := rs + SuccessOf(outcomes[i]), errors := es + ErrorOf(outcomes[i]), log := s.log + [i])
    case Stored => At(s, i, Released).(lock := Free)
    case Released => At(s, i, Finished).(wg := s.wg - 1)
    case _ => s
  }

  // ---------- after Wait ----------

  ghost predicate Run(outcomes: seq<Outcome>, states: seq<State>) {
    && states != [] && Init(states[0], |outcomes|)
    && (forall i :: 0 <= i < |states| ==> |states[i].pcs| == |outcomes|)
    && (forall i :: 0 <= i < |states| - 1 ==> Next(outcomes, states[i], states[i + 1]))
  }

  lemma {:induction false} RunInv(outcomes: seq<Outcome>, states: seq<State>, i: nat)
    requires Run(outcomes, states) && i < |states|
    ensures Inv(outcomes, states[i])
    decreases i
  {
    hide Inv, Init, Next;
    if i == 0 {
      InitInv(outcomes, states[0]);
    } else {
      RunInv(outcomes, states, i - 1);
      assert Next(outcomes, states[i - 1], states[i - 1 + 1]);
      NextInv(outcomes, states[i - 1], states[i]);
    }
  }

  lemma {:induction false} AllFinished(pcs: seq<Pc>, k: nat, i: nat)
    requires i < k <= |pcs| && Live(pcs, k) == 0
    ensures pcs[i].Finished?
  {
    if i < k - 1 {
      AllFinished(pcs, k - 1, i);
    }
  }

  /** Node order. */
  function Order(n: nat): (r: seq<nat>)
    ensures |r| == n && forall k :: 0 <= k < n ==> r[k] == k
  {
    seq(n, k requires 0 <= k < n => k)
  }

  /** Storing in another order permutes the slices. */
  lemma {:induction false} SamePermutation<T>(parts: seq<seq<T>>, a: seq<nat>, b: seq<nat>)
    requires forall k :: 0 <= k < |a| ==> a[k] < |parts|
    requires forall k :: 0 <= k < |b| ==> b[k] < |parts|
    requires multiset(a) == multiset(b)
    ensures multiset(Collect(parts, a)) == multiset(Collect(parts, b))
    decreases |a|
  {
    if a == [] {
      assert |multiset(b)| == 0;
      assert b == [];
    } else {
      var init, x := a[..|a| - 1], a[|a| - 1];
      assert a == init + [x];
      var k := Pick(init, x, b);
      SamePermutation(parts, init, b[..k] + b[k + 1..]);
      hide Collect;
      MoveLast(parts, b, k);
      CollectSnoc(parts, init, x);
    }
  }

  /** A permutation of t and x holds x somewhere; without it, it is a permutation of t. */
  lemma Pick<T>(t: seq<T>, x: T, b: seq<T>) returns (k: nat)
    requires multiset(t + [x]) == multiset(b)
    ensures k < |b| && b[k] == x
    ensures multiset(t) == multiset(b[..k] + b[k + 1..])
  {
    assert multiset(t + [x]) == multiset(t) + multiset{x};
    assert x in multiset(b);
    k :| 0 <= k < |b| && b[k] == x;
    assert b == b[..k] + [b[k]] + b[k + 1..];
    assert multiset(b) == multiset(b[..k] + b[k + 1..]) + multiset{x};
    assert multiset(t) == multiset(b) - multiset{x};
  }

  lemma {:induction false} MoveLast<T>(parts: seq<seq<T>>, b: seq<nat>, k: nat)
    requires k < |b| && forall j :: 0 <= j < |b| ==> b[j] < |parts|
    ensures multiset(Collect(parts, b)) == multiset(Collect(parts, b[..k] + b[k + 1..])) + multiset(parts[b[k]])
    decreases |b|
  {
    hide *;
    var last := |b| - 1;
    var c := b[..k] + b[k + 1..];
    var short, y := b[..last], b[last];
    assert b == short + [y];
    if k == last {
      assert c == short;
      CollectSnoc(parts, short, y);
    } else {
      var c0 := short[..k] + short[k + 1..];
      assert c == c0 + [y];
      MoveLast(parts, short, k);
      CollectSnoc(parts, short, y);
      CollectSnoc(parts, c0, y);
      calc {
        multiset(Collect(parts, b));
        multiset(Collect(parts, short)) + multiset(parts[y]);
        multiset(Collect(parts, c0)) + multiset(parts[short[k]]) + multiset(parts[y]);
        multiset(Collect(parts, c)) + multiset(parts[b[k]]);
      }
    }
  }

  lemma CollectSnoc<T>(parts: seq<seq<T>>, t: seq<nat>, y: nat)
    requires y < |parts| && forall j :: 0 <= j < |t| ==> t[j] < |parts|
    ensures Collect(parts, t + [y]) == Collect(parts, t) + parts[y]
    ensures multiset(Collect(parts, t + [y])) == multiset(Collect(parts, t)) + multiset(parts[y])
  {
    assert (t + [y])[..|t|] == t;
  }

  /** After Wait, in every interleaving, each node has stored exactly once: the slices are
      permutations of the nodes' successes and failures in node order. */
  lemma AfterWait(outcomes: seq<Outcome>, states: seq<State>, i: nat)
    requires Run(outcomes, states) && i < |states| && states[i].main.Woken?
    ensures var s := states[i];
      && multiset(s.results) == multiset(Successes(outcomes, Order(|outcomes|)))
      && multiset(s.errors) == multiset(Failures(outcomes, Order(|outcomes|)))
      && |s.results| + |s.errors| == |outcomes|
  {
    RunInv(outcomes, states, i);
    var s := states[i];
    forall j | 0 <= j < |s.pcs| ensures j in s.log {
      AllFinished(s.pcs, |s.pcs|, j);
    }
    LogIsPermutation(s.log, |outcomes|);
    SamePermutation(SuccessParts(outcomes), s.log, Order(|outcomes|));
    SamePermutation(ErrorParts(outcomes), s.log, Order(|outcomes|));
    Lengths(outcomes, s.log);
  }

  lemma LogIsPermutation(log: seq<nat>, n: nat)
    requires forall k :: 0 <= k < |log| ==> log[k] < n
    requires forall j, k :: 0 <= j < k < |log| ==> log[j] != log[k]
    requires forall j :: 0 <= j < n ==> j in log
    ensures multiset(log) == multiset(Order(n)) && |log| == n
  {
    DistinctMultiset(log);
    DistinctMultiset(Order(n));
    forall x: nat ensures multiset(log)[x] == multiset(Order(n))[x] {
      if x < n { assert Order(n)[x] == x; }
    }
    assert |multiset(log)| == |log|;
  }

  lemma {:induction false} DistinctMultiset(s: seq<nat>)
    requires forall j, k :: 0 <= j < k < |s| ==> s[j] != s[k]
    ensures forall x: nat :: multiset(s)[x] == if x in s then 1 else 0
    decreases |s|
  {
    if s != [] {
      var t := s[..|s| - 1];
      assert s == t + [s[|s| - 1]];
      DistinctMultiset(t);
    }
  }

  lemma {:induction false} Lengths(outcomes: seq<Outcome>, log: seq<nat>)
    requires forall k :: 0 <= k < |log| ==> log[k] < |outcomes|
    ensures |Successes(outcomes, log)| + |Failures(outcomes, log)| == |log|
    decreases |log|
  {
    if log != [] {
      Lengths(outcomes, log[..|log| - 1]);
    }
  }

  lemma {:induction false} CollectMember<T>(parts: seq<seq<T>>, log: seq<nat>, x: T)
    requires forall k :: 0 <= k < |log| ==> log[k] < |parts|
    requires x in Collect(parts, log)
    ensures exists k :: 0 <= k < |parts| && x in parts[k]
    decreases |log|
  {
    var last := |log| - 1;
    if x !in parts[log[last]] {
      CollectMember(parts, log[..last], x);
    }
  }

  lemma {:induction false} CollectHas<T>(parts: seq<seq<T>>, log: seq<nat>, i: nat, x: T)
    requires forall k :: 0 <= k < |log| ==> log[k] < |parts|
    requires i < |log| && x in parts[log[i]]
    ensures x in Collect(parts, log)
    decreases |log|
  {
    if i < |log| - 1 {
      CollectHas(parts, log[..|log| - 1], i, x);
    }
  }
}
