/** What holds over every run of the transaction manager: the table invariant, conservation of
    physical transactions, and what a failed commit leaves behind for good. */
module TransactionRuns {
  import opened Transactions

  predicate Distinct(txs: seq<TxId>) {
    forall i, j :: 0 <= i < j < |txs| ==> txs[i] != txs[j]
  }

  /** How many transactions a commit loop commits before it fails or ends. */
  function CommitCount(phase: seq<Phase>, txs: seq<TxId>, refused: set<TxId>): (n: nat)
    requires forall i :: 0 <= i < |txs| ==> txs[i] < |phase|
    ensures n <= |txs|
    ensures forall i :: 0 <= i < n ==> phase[txs[i]] == Open && txs[i] !in refused
    ensures n < |txs| ==> phase[txs[n]] != Open || txs[n] in refused
    decreases |txs|
  {
    if txs == [] || phase[txs[0]] != Open || txs[0] in refused then 0
    else 1 + CommitCount(phase, txs[1..], refused)
  }

  function AfterCommits(phase: seq<Phase>, txs: seq<TxId>, n: nat, t: TxId): Phase
    requires n <= |txs| && t < |phase|
  {
    if t in txs[..n] then Committed
    else if n < |txs| && t == txs[n] && phase[t] == Open then Failed
    else phase[t]
  }

  /** The commit loop, pointwise: the first CommitCount transactions are committed, the next one
      fails if it was open, and nothing else changes. */
  lemma {:induction false} CommitListIs(phase: seq<Phase>, txs: seq<TxId>, refused: set<TxId>)
    requires forall i :: 0 <= i < |txs| ==> txs[i] < |phase|
    requires Distinct(txs)
    ensures var n := CommitCount(phase, txs, refused); var (after, ok) := CommitList(phase, txs, refused);
      && ok == (n == |txs|)
      && (forall t :: 0 <= t < |phase| ==> after[t] == AfterCommits(phase, txs, n, t))
    decreases |txs|
  {
    var n := CommitCount(phase, txs, refused);
    if n > 0 {
      var next, tail := phase[txs[0] := Committed], txs[1..];
      CountFrame(phase, next, tail, refused);
      CommitListIs(next, tail, refused);
      hide CommitList, CommitCount;
      forall t | 0 <= t < |phase| ensures AfterCommits(next, tail, n - 1, t) == AfterCommits(phase, txs, n, t) {
        AfterShift(phase, txs, n, t);
      }
    }
  }

  lemma AfterShift(phase: seq<Phase>, txs: seq<TxId>, n: nat, t: TxId)
    requires 0 < n <= |txs| && t < |phase| && txs[0] < |phase| && Distinct(txs)
    ensures AfterCommits(phase[txs[0] := Committed], txs[1..], n - 1, t) == AfterCommits(phase, txs, n, t)
  {
    assert txs[..n] == [txs[0]] + txs[1..][..n - 1];
    if n < |txs| { assert txs[1..][n - 1] == txs[n] != txs[0]; }
  }

  lemma {:induction false} CountFrame(p: seq<Phase>, q: seq<Phase>, txs: seq<TxId>, refused: set<TxId>)
    requires |p| == |q| && forall i :: 0 <= i < |txs| ==> txs[i] < |p|
    requires forall i :: 0 <= i < |txs| ==> p[txs[i]] == q[txs[i]]
    ensures CommitCount(p, txs, refused) == CommitCount(q, txs, refused)
    decreases |txs|
  {
    if txs != [] {
      CountFrame(p, q, txs[1..], refused);
    }
  }

  lemma {:induction false} RollbackListIs(phase: seq<Phase>, txs: seq<TxId>)
    requires forall i :: 0 <= i < |txs| ==> txs[i] < |phase|
    ensures forall t :: 0 <= t < |phase| ==>
      RollbackList(phase, txs)[t] == (if t in txs && phase[t] == Open then RolledBack else phase[t])
    decreases |txs|
  {
    if txs != [] {
      RollbackListIs(if phase[txs[0]] == Open then phase[txs[0] := RolledBack] else phase, txs[1..]);
    }
  }

  // ---------- the invariant ----------

  ghost predicate Owned(s: State) {
    && Wf(s) && OwnIds(s)
    && (forall tx :: 0 <= tx < |s.phase| ==> OwnsTx(s, s.owner[tx].0, s.owner[tx].1, tx))
    && (forall id, ds :: id in s.ctxs && ds in s.ctxs[id].sources ==> s.owner[s.ctxs[id].sources[ds]] == (id, ds))
  }

  ghost predicate OwnsTx(s: State, id: string, ds: string, tx: TxId) {
    id in s.ctxs && ds in s.ctxs[id].sources && s.ctxs[id].sources[ds] == tx
  }

  /** Some transaction of the context ended in a refused commit. */
  ghost predicate Stuck(s: State, id: string)
    requires |s.owner| == |s.phase|
  {
    exists tx :: 0 <= tx < |s.phase| && s.owner[tx].0 == id && s.phase[tx] == Failed
  }

  /** What the phase of a transaction may be, given its context. */
  predicate PhaseFits(s: State, tx: TxId)
    requires |s.owner| == |s.phase| && tx < |s.phase|
  {
    var id := s.owner[tx].0;
    && id in s.ctxs
    && (id in s.live && id !in s.failed ==> s.phase[tx] == Open)
    && (id !in s.live ==> s.phase[tx] != Open)
    && (id !in s.live && s.ctxs[id].status == StatusCommitted ==> s.phase[tx] == Committed)
    && (id !in s.live && s.ctxs[id].status != StatusCommitted && id !in s.failed ==> s.phase[tx] == RolledBack)
  }

  ghost predicate Inv(s: State) {
    && Owned(s)
    && (forall id :: id in s.live ==> s.ctxs[id].status == Active)
    && (forall id :: id in s.ctxs ==> s.ctxs[id].sources != map[])
    && (forall id :: id in s.failed ==> id in s.ctxs && Stuck(s, id))
    && (forall tx :: 0 <= tx < |s.phase| ==> PhaseFits(s, tx))
  }

  lemma InvParts(s: State, id: string)
    requires Inv(s)
    ensures Wf(s) && Owned(s)
    ensures id in s.live ==> id in s.ctxs && s.ctxs[id].status == Active
    ensures id in s.failed ==> id in s.ctxs && Stuck(s, id)
  {
  }

  /** The invariant of a state that differs from s in phases and the failure record. */
  lemma InvFromParts(s: State, t: State, id: string)
    requires Inv(s) && Wf(t) && id in s.ctxs && t == s.(phase := t.phase, failed := s.failed + {id})
    requires |t.phase| == |s.phase|
    requires forall tx :: 0 <= tx < |s.phase| ==> PhaseFits(t, tx)
    requires forall tx :: 0 <= tx < |s.phase| && s.phase[tx] == Failed ==> t.phase[tx] == Failed
    requires Stuck(t, id)
    ensures Inv(t)
  {
    hide PhaseFits;
    OwnedFrame(s, t);
    forall j | j in t.failed ensures j in t.ctxs && Stuck(t, j) {
      if j in s.failed {
        StuckStays(s, t, j);
      }
    }
  }

  /** The transactions an operation iterates over are exactly those of the context. */
  lemma OrderOwns(s: State, id: string, order: seq<string>)
    requires Owned(s) && id in s.ctxs && IsOrder(order, s.ctxs[id].sources)
    ensures Distinct(Txs(order, s.ctxs[id].sources))
    ensures forall i :: 0 <= i < |order| ==> Txs(order, s.ctxs[id].sources)[i] < |s.phase|
    ensures forall tx :: 0 <= tx < |s.phase| ==>
      (tx in Txs(order, s.ctxs[id].sources) <==> s.owner[tx].0 == id)
  {
    var sources := s.ctxs[id].sources;
    var txs := Txs(order, sources);
    forall i | 0 <= i < |order| ensures s.owner[txs[i]] == (id, order[i]) {
      assert order[i] in sources;
    }
    forall tx | 0 <= tx < |s.phase| && s.owner[tx].0 == id ensures tx in txs {
      var ds := s.owner[tx].1;
      assert OwnsTx(s, id, ds, tx);
      var i :| 0 <= i < |order| && order[i] == ds;
      assert txs[i] == tx;
    }
  }

  /** A step that only changes phases, statuses and the two id sets keeps ownership. */
  lemma OwnedFrame(s: State, t: State)
    requires Owned(s) && Wf(t)
    requires t.ctxs.Keys == s.ctxs.Keys && t.owner == s.owner
    requires forall id :: id in s.ctxs ==> t.ctxs[id].sources == s.ctxs[id].sources && t.ctxs[id].id == id
    ensures Owned(t)
  {
    forall tx | 0 <= tx < |t.phase| ensures OwnsTx(t, t.owner[tx].0, t.owner[tx].1, tx) {
      assert OwnsTx(s, s.owner[tx].0, s.owner[tx].1, tx);
    }
  }

  lemma StuckStays(s: State, t: State, id: string)
    requires |s.owner| == |s.phase| <= |t.phase| == |t.owner| && s.owner <= t.owner && Stuck(s, id)
    requires forall tx :: 0 <= tx < |s.phase| && s.phase[tx] == Failed ==> t.phase[tx] == Failed
    ensures Stuck(t, id)
  {
    var tx :| 0 <= tx < |s.phase| && s.owner[tx].0 == id && s.phase[tx] == Failed;
    assert t.owner[tx] == s.owner[tx] && t.phase[tx] == Failed;
  }

  lemma AddTxOwned(s: State, ctx: Ctx, ds: string)
    requires Owned(s) && ds !in ctx.sources
    requires if ctx.id in s.ctxs then s.ctxs[ctx.id] == ctx else ctx.sources == map[]
    ensures Owned(AddTx(s, ctx, ds))
  {
    var t := AddTx(s, ctx, ds);
    forall tx | 0 <= tx < |t.phase| ensures OwnsTx(t, t.owner[tx].0, t.owner[tx].1, tx) {
      if tx < |s.phase| {
        assert OwnsTx(s, s.owner[tx].0, s.owner[tx].1, tx);
      }
    }
  }

  lemma AddTxKeeps(s: State, ctx: Ctx, ds: string)
    requires Inv(s) && ctx.status == Active && ds !in ctx.sources
    requires if ctx.id in s.ctxs then ctx.id in s.live && s.ctxs[ctx.id] == ctx else ctx.sources == map[]
    ensures Inv(AddTx(s, ctx, ds))
  {
    hide *;
    var t := AddTx(s, ctx, ds);
    InvOwns(s);
    AddTxOwned(s, ctx, ds);
    AddTxActive(s, ctx, ds);
    forall tx | 0 <= tx < |t.phase| ensures PhaseFits(t, tx) {
      AddTxPhase(s, ctx, ds, tx);
    }
    forall id | id in t.failed ensures id in t.ctxs && Stuck(t, id) {
      AddTxStuck(s, ctx, ds, id);
    }
    InvOf(t);
  }

  lemma InvOwns(s: State)
    requires Inv(s)
    ensures Owned(s) && |s.owner| == |s.phase|
  {
  }

  lemma InvOf(t: State)
    requires Owned(t) && |t.owner| == |t.phase|
    requires forall id :: id in t.live ==> id in t.ctxs && t.ctxs[id].status == Active
    requires forall id :: id in t.ctxs ==> t.ctxs[id].sources != map[]
    requires forall id :: id in t.failed ==> id in t.ctxs && Stuck(t, id)
    requires forall tx :: 0 <= tx < |t.phase| ==> PhaseFits(t, tx)
    ensures Inv(t)
  {
    hide Stuck, PhaseFits, Owned;
  }

  lemma AddTxActive(s: State, ctx: Ctx, ds: string)
    requires Inv(s) && ctx.status == Active
    ensures var t := AddTx(s, ctx, ds);
      && |t.owner| == |t.phase| == |s.phase| + 1 && t.failed == s.failed
      && (forall id :: id in t.live ==> id in t.ctxs && t.ctxs[id].status == Active)
      && (forall id :: id in t.ctxs ==> t.ctxs[id].sources != map[])
  {
    hide Stuck, PhaseFits;
    assert ds in AddTx(s, ctx, ds).ctxs[ctx.id].sources;
  }

  lemma AddTxPhase(s: State, ctx: Ctx, ds: string, tx: TxId)
    requires Inv(s) && (ctx.id in s.ctxs ==> ctx.id in s.live && s.ctxs[ctx.id] == ctx)
    requires tx < |AddTx(s, ctx, ds).phase|
    ensures PhaseFits(AddTx(s, ctx, ds), tx)
  {
    if tx < |s.phase| {
      assert PhaseFits(s, tx);
    }
  }

  lemma AddTxStuck(s: State, ctx: Ctx, ds: string, id: string)
    requires Inv(s) && id in s.failed
    ensures id in AddTx(s, ctx, ds).ctxs && Stuck(AddTx(s, ctx, ds), id)
  {
    StuckStays(s, AddTx(s, ctx, ds), id);
  }

  lemma CommitOkKeeps(s: State, id: string, order: seq<string>, rb: seq<string>, refused: set<TxId>)
    requires Inv(s) && ValidOp(s, Commit(id, order, rb, refused)) && id in s.live
    requires CommitStep(s, id, order, rb, refused).1 == Ok
    ensures Inv(CommitStep(s, id, order, rb, refused).0)
    ensures id !in s.failed
  {
    hide CommitList, RollbackList, Txs, CommitCount;
    var sources := s.ctxs[id].sources;
    var txs := Txs(order, sources);
    OrderOwns(s, id, order);
    CommitListIs(s.phase, txs, refused);
    assert txs[..|txs|] == txs;
    var t := CommitStep(s, id, order, rb, refused).0;
    forall tx | 0 <= tx < |s.phase| && s.owner[tx].0 == id ensures s.phase[tx] == Open && t.phase[tx] == Committed {
      var i :| 0 <= i < |txs| && txs[i] == tx;
    }
    assert !Stuck(s, id);
    PhasesMoved(s, t, id);
  }

  /** Leaving: the phases of id's transactions are final, nothing else moves. */
  lemma PhasesMoved(s: State, t: State, id: string)
    requires Inv(s) && Wf(t) && id in s.live && id in t.ctxs && t.live == s.live - {id}
    requires t.ctxs == s.ctxs[id := s.ctxs[id].(status := t.ctxs[id].status)] && t.owner == s.owner
    requires t.failed == s.failed
    requires forall tx :: 0 <= tx < |s.phase| && s.owner[tx].0 != id ==> t.phase[tx] == s.phase[tx]
    requires forall tx :: 0 <= tx < |s.phase| && s.phase[tx] == Failed ==> t.phase[tx] == Failed
    requires forall tx :: 0 <= tx < |s.phase| && s.owner[tx].0 == id ==> t.phase[tx] != Open && PhaseFits(t, tx)
    ensures Inv(t)
  {
    OwnedFrame(s, t);
    forall tx | 0 <= tx < |t.phase| ensures PhaseFits(t, tx) {
      assert PhaseFits(s, tx);
    }
    forall i | i in t.failed ensures i in t.ctxs && Stuck(t, i) {
      StuckStays(s, t, i);
    }
  }

  lemma RollbackKeeps(s: State, id: string, order: seq<string>, status: Status)
    requires Inv(s) && id in s.live && IsOrder(order, s.ctxs[id].sources) && status != StatusCommitted
    ensures Inv(Leave(s, id, RollbackList(s.phase, Txs(order, s.ctxs[id].sources)), status))
  {
    hide RollbackList, Txs;
    var txs := Txs(order, s.ctxs[id].sources);
    OrderOwns(s, id, order);
    RollbackListIs(s.phase, txs);
    var t := Leave(s, id, RollbackList(s.phase, txs), status);
    forall tx | 0 <= tx < |s.phase| && s.owner[tx].0 == id ensures t.phase[tx] != Open && PhaseFits(t, tx) {
      assert PhaseFits(s, tx) && tx in txs;
    }
    PhasesMoved(s, t, id);
  }

  /** What a failed commit does: the transactions before the failing one are committed, every
      other open one is ended without a commit, the context stays in the table as Active. */
  lemma FailedCommit(s: State, id: string, order: seq<string>, rb: seq<string>, refused: set<TxId>)
    requires Wf(s) && Owned(s) && |s.owner| == |s.phase| && id in s.ctxs && ValidOp(s, Commit(id, order, rb, refused))
    requires id in s.live && s.ctxs[id].status == Active
    requires CommitStep(s, id, order, rb, refused).1 != Ok
    ensures CommitStep(s, id, order, rb, refused).1 == DriverError
    ensures var txs := Txs(order, s.ctxs[id].sources);
            FailureAt(s, CommitStep(s, id, order, rb, refused).0, id, txs, CommitCount(s.phase, txs, refused))
  {
    hide Wf, Owned, OwnsTx;
    hide CommitList, RollbackList, Txs, CommitCount;
    var txs, rtxs := Txs(order, s.ctxs[id].sources), Txs(rb, s.ctxs[id].sources);
    OrderOwns(s, id, order);
    OrderOwns(s, id, rb);
    CommitListIs(s.phase, txs, refused);
    FailurePhases(s.phase, txs, rtxs, refused);
  }

  lemma FailurePhases(phase: seq<Phase>, txs: seq<TxId>, rtxs: seq<TxId>, refused: set<TxId>)
    requires forall i :: 0 <= i < |txs| ==> txs[i] < |phase|
    requires forall i :: 0 <= i < |rtxs| ==> rtxs[i] < |phase|
    requires Distinct(txs) && forall t :: 0 <= t < |phase| ==> (t in txs <==> t in rtxs)
    ensures var n := CommitCount(phase, txs, refused);
      var after := RollbackList(CommitList(phase, txs, refused).0, rtxs);
      && (forall i :: 0 <= i < n ==> phase[txs[i]] == Open && after[txs[i]] == Committed)
      && (forall i :: n <= i < |txs| ==> after[txs[i]] == AfterFailure(phase[txs[i]], i == n))
      && (forall t :: 0 <= t < |phase| && t !in txs ==> after[t] == phase[t])
  {
    hide CommitList, RollbackList, CommitCount;
    var n := CommitCount(phase, txs, refused);
    var mid := CommitList(phase, txs, refused).0;
    CommitListIs(phase, txs, refused);
    RollbackListIs(mid, rtxs);
    forall i | 0 <= i < |txs| ensures (txs[i] in txs[..n] <==> i < n) && txs[i] in rtxs {
      assert txs[i] in txs;
      if i < n { assert txs[..n][i] == txs[i]; }
    }
  }

  function AfterFailure(before: Phase, failing: bool): Phase {
    if before != Open then before else if failing then Failed else RolledBack
  }

  /** From s to t the first n of id's transactions were committed, the n-th one failed if it was
      open, the remaining open ones were rolled back; all else but the failure record is the same. */
  ghost predicate FailureAt(s: State, t: State, id: string, txs: seq<TxId>, n: nat) {
    && n < |txs| && |t.phase| == |s.phase| == |s.owner|
    && t == s.(phase := t.phase, failed := s.failed + {id})
    && (forall i :: 0 <= i < |txs| ==> txs[i] < |s.phase|)
    && (forall i :: 0 <= i < n ==> s.phase[txs[i]] == Open && t.phase[txs[i]] == Committed)
    && (forall i :: n <= i < |txs| ==> t.phase[txs[i]] == AfterFailure(s.phase[txs[i]], i == n))
    && (forall tx :: 0 <= tx < |s.phase| && s.owner[tx].0 != id ==> t.phase[tx] == s.phase[tx])
  }

  lemma FailureKeeps(s: State, t: State, id: string, txs: seq<TxId>, n: nat)
    requires Inv(s) && id in s.live && FailureAt(s, t, id, txs, n)
    requires forall tx :: 0 <= tx < |s.phase| ==> (tx in txs <==> s.owner[tx].0 == id)
    ensures forall tx :: 0 <= tx < |s.phase| ==> PhaseFits(t, tx)
    ensures forall tx :: 0 <= tx < |s.phase| && s.phase[tx] == Failed ==> t.phase[tx] == Failed
    ensures forall tx :: 0 <= tx < |s.phase| && s.owner[tx].0 == id ==> t.phase[tx] != Open
    ensures Stuck(t, id)
  {
    forall tx | 0 <= tx < |s.phase|
      ensures PhaseFits(t, tx)
      ensures s.phase[tx] == Failed ==> t.phase[tx] == Failed
      ensures s.owner[tx].0 == id ==> t.phase[tx] != Open
    {
      assert PhaseFits(s, tx);
      if s.owner[tx].0 == id {
        var i :| 0 <= i < |txs| && txs[i] == tx;
      }
    }
    if id in s.failed {
      StuckStays(s, t, id);
    } else {
      assert txs[n] in txs && PhaseFits(s, txs[n]);
      assert t.phase[txs[n]] == Failed;
    }
  }

  /** A failed commit keeps the invariant and leaves no transaction of the context open. */
  lemma FailedCommitKeeps(s: State, id: string, order: seq<string>, rb: seq<string>, refused: set<TxId>)
    requires Inv(s) && ValidOp(s, Commit(id, order, rb, refused)) && id in s.live
    requires CommitStep(s, id, order, rb, refused).1 != Ok
    ensures Inv(CommitStep(s, id, order, rb, refused).0)
    ensures forall tx :: 0 <= tx < |s.phase| && s.owner[tx].0 == id ==>
      CommitStep(s, id, order, rb, refused).0.phase[tx] != Open
  {
    InvParts(s, id);
    hide Inv, Wf, Owned, OwnsTx, FailureAt;
    hide CommitList, RollbackList, Txs, CommitCount;
    FailedCommit(s, id, order, rb, refused);
    OrderOwns(s, id, order);
    var txs := Txs(order, s.ctxs[id].sources);
    var t := CommitStep(s, id, order, rb, refused).0;
    FailureKeeps(s, t, id, txs, CommitCount(s.phase, txs, refused));
    hide CommitStep;
    InvFromParts(s, t, id);
  }

  /** Every operation keeps the invariant. */
  lemma StepKeeps(s: State, op: Op)
    requires Inv(s) && ValidOp(s, op)
    ensures Inv(Step(s, op).0)
  {
    match op {
      case Begin(ds, freshId, granted) =>
        if granted { AddTxKeeps(s, Ctx(freshId, |s.phase|, map[], Active), ds); }
      case Join(id, ds, granted) =>
        if id in s.live && ds !in s.ctxs[id].sources && granted { AddTxKeeps(s, s.ctxs[id], ds); }
      case Commit(id, order, rb, refused) =>
        if id in s.live {
          if CommitStep(s, id, order, rb, refused).1 == Ok { CommitOkKeeps(s, id, order, rb, refused); }
          else { FailedCommitKeeps(s, id, order, rb, refused); }
        }
      case Rollback(id, order) =>
        if id in s.live { RollbackKeeps(s, id, order, StatusRolledBack); }
      case Close(id, order) =>
        if id in s.live { RollbackKeeps(s, id, order, Active); }
    }
  }

  // ---------- runs ----------

  ghost predicate ValidRun(s: State, ops: seq<Op>)
    requires Inv(s)
    decreases |ops|
  {
    ops == [] || (ValidOp(s, ops[0]) && (StepKeeps(s, ops[0]); ValidRun(Step(s, ops[0]).0, ops[1..])))
  }

  ghost function RunState(s: State, ops: seq<Op>): State
    requires Inv(s) && ValidRun(s, ops)
    decreases |ops|
  {
    if ops == [] then s else StepKeeps(s, ops[0]); RunState(Step(s, ops[0]).0, ops[1..])
  }

  ghost function Outcomes(s: State, ops: seq<Op>): (r: seq<Outcome>)
    requires Inv(s) && ValidRun(s, ops)
    ensures |r| == |ops|
    decreases |ops|
  {
    if ops == [] then [] else
      StepKeeps(s, ops[0]);
      [Step(s, ops[0]).1] + Outcomes(Step(s, ops[0]).0, ops[1..])
  }

  /** A state that some run from the empty table reaches. */
  ghost predicate Reachable(s: State) {
    Inv(EMPTY) && exists ops :: ValidRun(EMPTY, ops) && RunState(EMPTY, ops) == s
  }

  lemma {:induction false} RunKeeps(s: State, ops: seq<Op>)
    requires Inv(s) && ValidRun(s, ops)
    ensures Inv(RunState(s, ops))
    decreases |ops|
  {
    if ops != [] {
      StepKeeps(s, ops[0]);
      RunKeeps(Step(s, ops[0]).0, ops[1..]);
    }
  }

  /** In every reachable state: a table entry is Active under its own id; a physical transaction
      belongs to exactly one context and data source; a context that left the table has no open
      transaction; Committed means all its transactions are committed; any other end without an
      earlier failed commit means that none is. */
  lemma TableInvariant(s: State)
    requires Reachable(s)
    ensures forall id :: id in s.live ==> id in s.ctxs && s.ctxs[id].id == id && s.ctxs[id].status == Active
    ensures forall tx: TxId, id, ds :: 0 <= tx < |s.phase| ==>
      (OwnsTx(s, id, ds, tx) <==> |s.owner| == |s.phase| && s.owner[tx] == (id, ds))
    ensures forall id, ds, tx: TxId :: OwnsTx(s, id, ds, tx) && id !in s.live ==>
      && tx < |s.phase| && s.phase[tx] != Open
      && (s.ctxs[id].status == StatusCommitted ==> s.phase[tx] == Committed)
      && (s.ctxs[id].status != StatusCommitted && id !in s.failed ==> s.phase[tx] == RolledBack)
  {
    var ops :| ValidRun(EMPTY, ops) && RunState(EMPTY, ops) == s;
    RunKeeps(EMPTY, ops);
    forall tx: TxId, id, ds | 0 <= tx < |s.phase| ensures OwnsTx(s, id, ds, tx) <==> s.owner[tx] == (id, ds) {
      assert OwnsTx(s, s.owner[tx].0, s.owner[tx].1, tx);
    }
    forall id, ds, tx: TxId | OwnsTx(s, id, ds, tx) ensures tx < |s.phase| && PhaseFits(s, tx) && s.owner[tx].0 == id {
    }
  }

  /** An id that has failed a commit stays failed through a step. */
  lemma FailedStays(s: State, op: Op, id: string)
    requires Inv(s) && ValidOp(s, op) && id in s.failed
    ensures id in Step(s, op).0.failed
    ensures op.Commit? && op.id == id ==> Step(s, op).1 != Ok
  {
    match op {
      case Commit(i, order, rb, refused) =>
        if i in s.live && i == id && CommitStep(s, i, order, rb, refused).1 == Ok {
          CommitOkKeeps(s, i, order, rb, refused);
          assert false;
        }
      case _ =>
    }
  }

  /** After a failed commit no later commit of that id succeeds, whatever calls come between. */
  lemma {:induction false} NeverCommits(s: State, ops: seq<Op>, id: string, k: nat)
    requires Inv(s) && ValidRun(s, ops) && id in s.failed
    requires k < |ops| && ops[k].Commit? && ops[k].id == id
    ensures Outcomes(s, ops)[k] != Ok
    decreases |ops|
  {
    StepKeeps(s, ops[0]);
    FailedStays(s, ops[0], id);
    if k > 0 {
      NeverCommits(Step(s, ops[0]).0, ops[1..], id, k - 1);
    }
  }

  /** The first failed commit of an id: the ones before the failing transaction are committed,
      all others of the context are ended without one, none stays open, the context is still in
      the table and Active; from here on NeverCommits applies. */
  lemma FirstFailure(s: State, id: string, order: seq<string>, rb: seq<string>, refused: set<TxId>)
    requires Inv(s) && ValidOp(s, Commit(id, order, rb, refused)) && id in s.live && id !in s.failed
    requires Step(s, Commit(id, order, rb, refused)).1 != Ok
    ensures var t := Step(s, Commit(id, order, rb, refused)).0;
      && Inv(t) && id in t.live && id in t.failed && t.ctxs == s.ctxs && t.ctxs[id].status == Active
      && (exists n :: 0 <= n < |order| && FailedAt(t, Txs(order, s.ctxs[id].sources), n))
  {
    hide CommitList, RollbackList, Txs, CommitCount;
    InvParts(s, id);
    hide Wf, Owned, OwnsTx, FailureAt, FailedAt, Inv;
    FailedCommit(s, id, order, rb, refused);
    FailedCommitKeeps(s, id, order, rb, refused);
    OrderOwns(s, id, order);
    var t := CommitStep(s, id, order, rb, refused).0;
    var txs := Txs(order, s.ctxs[id].sources);
    FromAllOpen(s, t, id, txs, CommitCount(s.phase, txs, refused));
  }

  lemma FromAllOpen(s: State, t: State, id: string, txs: seq<TxId>, n: nat)
    requires Inv(s) && FailureAt(s, t, id, txs, n) && id in s.live && id !in s.failed
    requires forall i :: 0 <= i < |txs| ==> s.owner[txs[i]].0 == id
    ensures FailedAt(t, txs, n)
  {
    forall i | 0 <= i < |txs| ensures s.phase[txs[i]] == Open {
      assert PhaseFits(s, txs[i]);
    }
  }

  predicate FailedAt(t: State, txs: seq<TxId>, n: nat) {
    && (forall i :: 0 <= i < |txs| ==> txs[i] < |t.phase|)
    && (forall i :: 0 <= i < |txs| ==> t.phase[txs[i]] == if i < n then Committed else AfterFailure(Open, i == n))
  }
}
