/** The distributed transaction manager. A physical transaction (sql.Tx) is a number; the driver
    keeps its phase. The specification is a state machine over values; the manager is a class
    whose methods are proved to take exactly its steps. */
module Transactions {

  type TxId = nat

  /** A physical transaction is open once; the first Commit or Rollback ends it. */
  datatype Phase = Open | Committed | RolledBack | Failed

  datatype Status = Active | Prepared | StatusCommitted | StatusRolledBack

  datatype Ctx = Ctx(id: string, first: TxId, sources: map<string, TxId>, status: Status)

  /** ctxs holds every context ever begun under its id, live the ids that are in the manager's
      map. owner and failed are history: the context and data source each transaction was begun
      for, and the ids for which a commit has failed. */
  datatype State = State(ctxs: map<string, Ctx>, live: set<string>, phase: seq<Phase>,
                         owner: seq<(string, string)>, failed: set<string>)

  const EMPTY := State(map[], {}, [], [], {})

  /** Operations with what the environment decides: whether a connection and Begin succeed, the
      order of each map iteration, and which open transactions the driver fails to commit. */
  datatype Op =
    | Begin(dataSource: string, freshId: string, granted: bool)
    | Join(id: string, dataSource: string, granted: bool)
    | Commit(id: string, order: seq<string>, rollbackOrder: seq<string>, refused: set<TxId>)
    | Rollback(id: string, order: seq<string>)
    | Close(id: string, order: seq<string>)

  datatype Outcome = Ok | NotFound | NotActive | DriverError

  ghost predicate IsOrder(order: seq<string>, sources: map<string, TxId>) {
    && (forall i, j :: 0 <= i < j < |order| ==> order[i] != order[j])
    && (forall k :: k in order <==> k in sources)
  }

  ghost function Txs(order: seq<string>, sources: map<string, TxId>): (r: seq<TxId>)
    requires forall k :: k in order ==> k in sources
    ensures |r| == |order|
    ensures forall i :: 0 <= i < |r| ==> r[i] == sources[order[i]]
  {
    seq(|order|, i requires 0 <= i < |order| => sources[order[i]])
  }

  /** Commit one after the other, up to the first failure. */
  function CommitList(phase: seq<Phase>, txs: seq<TxId>, refused: set<TxId>): (r: (seq<Phase>, bool))
    requires forall i :: 0 <= i < |txs| ==> txs[i] < |phase|
    ensures |r.0| == |phase|
    decreases |txs|
  {
    if txs == [] then (phase, true)
    else if phase[txs[0]] != Open then (phase, false)
    else if txs[0] in refused then (phase[txs[0] := Failed], false)
    else CommitList(phase[txs[0] := Committed], txs[1..], refused)
  }

  function RollbackList(phase: seq<Phase>, txs: seq<TxId>): (r: seq<Phase>)
    requires forall i :: 0 <= i < |txs| ==> txs[i] < |phase|
    ensures |r| == |phase|
    decreases |txs|
  {
    if txs == [] then phase
    else RollbackList(if phase[txs[0]] == Open then phase[txs[0] := RolledBack] else phase, txs[1..])
  }

  /** The map's contexts were begun, and their transactions exist. */
  ghost predicate Wf(s: State) {
    && |s.owner| == |s.phase|
    && s.live <= s.ctxs.Keys
    && (forall id, ds :: id in s.ctxs && ds in s.ctxs[id].sources ==> s.ctxs[id].sources[ds] < |s.phase|)
  }

  ghost predicate ValidOp(s: State, op: Op)
    requires Wf(s)
  {
    match op
    case Begin(_, freshId, _) => freshId !in s.ctxs
    case Join(_, _, _) => true
    case Commit(id, order, rb, _) =>
      id in s.live ==> IsOrder(order, s.ctxs[id].sources) && IsOrder(rb, s.ctxs[id].sources)
    case Rollback(id, order) => id in s.live ==> IsOrder(order, s.ctxs[id].sources)
    case Close(id, order) => id in s.live ==> IsOrder(order, s.ctxs[id].sources)
  }

  /** A context leaves the map with a final status. */
  function Leave(s: State, id: string, phase: seq<Phase>, status: Status): State
    requires id in s.ctxs
  {
    s.(ctxs := s.ctxs[id := s.ctxs[id].(status := status)], live := s.live - {id}, phase := phase)
  }

  ghost function CommitStep(s: State, id: string, order: seq<string>, rb: seq<string>, refused: set<TxId>): (State,
                            Outcome)
    requires Wf(s) && id in s.live && IsOrder(order, s.ctxs[id].sources) && IsOrder(rb, s.ctxs[id].sources)
  {
    var ctx := s.ctxs[id];
    if ctx.status != Active then (s, NotActive)
    else
      var (phase, ok) := CommitList(s.phase, Txs(order, ctx.sources), refused);
      if ok then (Leave(s, id, phase, StatusCommitted), Ok)
      else (s.(phase := RollbackList(phase, Txs(rb, ctx.sources)), failed := s.failed + {id}), DriverError)
  }

  /** A context gets a new open transaction for a data source. */
  function AddTx(s: State, ctx: Ctx, ds: string): State {
    s.(ctxs := s.ctxs[ctx.id := ctx.(sources := ctx.sources[ds := |s.phase|])],
       live := s.live + {ctx.id}, phase := s.phase + [Open], owner := s.owner + [(ctx.id, ds)])
  }

  ghost function Step(s: State, op: Op): (State, Outcome)
    requires Wf(s) && ValidOp(s, op)
  {
    match op
    case Begin(ds, freshId, granted) =>
      if !granted then (s, DriverError)
      else (AddTx(s, Ctx(freshId, |s.phase|, map[], Active), ds), Ok)
    case Join(id, ds, granted) =>
      if id !in s.live then (s, NotFound)
      else if s.ctxs[id].status != Active then (s, NotActive)
      else if ds in s.ctxs[id].sources then (s, Ok)
      else if !granted then (s, DriverError)
      else (AddTx(s, s.ctxs[id], ds), Ok)
    case Commit(id, order, rb, refused) =>
      if id !in s.live then (s, NotFound) else CommitStep(s, id, order, rb, refused)
    case Rollback(id, order) =>
      if id !in s.live then (s, NotFound)
      else (Leave(s, id, RollbackList(s.phase, Txs(order, s.ctxs[id].sources)), StatusRolledBack), Ok)
    case Close(id, order) =>
      if id !in s.live then (s, Ok)
      else
        var ctx := s.ctxs[id];
        var phase := if ctx.status == Active then RollbackList(s.phase, Txs(order, ctx.sources)) else s.phase;
        (Leave(s, id, phase, ctx.status), Ok)
  }

  lemma WfSources(s: State, id: string)
    requires Wf(s) && id in s.ctxs
    ensures forall ds :: ds in s.ctxs[id].sources ==> s.ctxs[id].sources[ds] < |s.phase|
  {
  }

  /** Every context is stored under its own id. */
  ghost predicate OwnIds(s: State) {
    forall id :: id in s.ctxs ==> s.ctxs[id].id == id
  }

  lemma StepWf(s: State, op: Op)
    requires Wf(s) && OwnIds(s) && ValidOp(s, op)
    ensures Wf(Step(s, op).0) && OwnIds(Step(s, op).0)
  {
    hide CommitList;
    hide RollbackList;
    hide IsOrder;
  }

  // ---------- the manager ----------

  /** database/sql by its contract. */
  class Driver {
    var phase: seq<Phase>

    constructor ()
      ensures phase == []
    {
      phase := [];
    }

    method Begin() returns (tx: TxId)
      modifies this
      ensures tx == old(|phase|) && phase == old(phase) + [Open]
    {
      tx := |phase|;
      phase := phase + [Open];
    }

    method Commit(tx: TxId, refused: set<TxId>) returns (ok: bool)
      requires tx < |phase|
      modifies this
      ensures (phase, ok) == CommitList(old(phase), [tx], refused)
    {
      ok := phase[tx] == Open && tx !in refused;
      if phase[tx] == Open {
        phase := phase[tx := if ok then Committed else Failed];
      }
    }

    method Rollback(tx: TxId)
      requires tx < |phase|
      modifies this
      ensures phase == RollbackList(old(phase), [tx])
    {
      if phase[tx] == Open {
        phase := phase[tx := RolledBack];
      }
    }
  }

  /** The manager: the transactions map, and as history every context it ever began (ctxs), whom
      each transaction belongs to, and which commits failed. */
  class TransactionManager {
    const driver: Driver
    var transactions: map<string, Ctx>
    ghost var ctxs: map<string, Ctx>
    ghost var owner: seq<(string, string)>
    ghost var failed: set<string>

    constructor ()
      ensures Valid() && Snapshot() == EMPTY && fresh(driver)
    {
      driver := new Driver();
      transactions, ctxs, owner, failed := map[], map[], [], {};
    }

    ghost predicate Valid()
      reads this, driver
    {
      && (forall k :: k in transactions ==> k in ctxs && transactions[k] == ctxs[k])
      && Wf(Snapshot()) && OwnIds(Snapshot())
    }

    ghost function Snapshot(): State
      reads this, driver
    {
      State(ctxs, transactions.Keys, driver.phase, owner, failed)
    }

    /** tm.transactions[id] = ctx, or an update of a context that is in the map. */
    method Store(ctx: Ctx)
      modifies this`transactions, this`ctxs
      ensures transactions == old(transactions)[ctx.id := ctx]
      ensures ctxs == old(ctxs)[ctx.id := ctx]
    {
      transactions, ctxs := transactions[ctx.id := ctx], ctxs[ctx.id := ctx];
    }

    /** The final status is set and the entry deleted. */
    method Delete(ctx: Ctx)
      modifies this`transactions, this`ctxs
      ensures transactions == old(transactions) - {ctx.id}
      ensures ctxs == old(ctxs)[ctx.id := ctx]
    {
      transactions, ctxs := transactions - {ctx.id}, ctxs[ctx.id := ctx];
    }

    method BeginTransaction(dataSource: string, freshId: string, granted: bool) returns (r: Outcome)
      requires Valid() && ValidOp(Snapshot(), Begin(dataSource, freshId, granted))
      modifies this, driver
      ensures Valid()
      ensures (Snapshot(), r) == Step(old(Snapshot()), Begin(dataSource, freshId, granted))
    {
      hide Wf, OwnIds;
      StepWf(Snapshot(), Begin(dataSource, freshId, granted));
      if !granted {
        return DriverError;
      }
      var tx := driver.Begin();
      var ctx := Ctx(freshId, tx, map[dataSource := tx], Active);
      assert map[][dataSource := tx] == map[dataSource := tx];
      Store(ctx);
      owner := owner + [(freshId, dataSource)];
      assert transactions.Keys == old(transactions.Keys) + {freshId};
      r := Ok;
    }

    method JoinTransaction(txID: string, dataSource: string, granted: bool) returns (r: Outcome)
      requires Valid()
      modifies this, driver
      ensures Valid()
      ensures (Snapshot(), r) == Step(old(Snapshot()), Join(txID, dataSource, granted))
    {
      hide Wf;
      StepWf(Snapshot(), Join(txID, dataSource, granted));
      if txID !in transactions {
        return NotFound;
      }
      var ctx := transactions[txID];
      if ctx.status != Active {
        return NotActive;
      }
      if dataSource in ctx.sources {
        return Ok;
      }
      if !granted {
        return DriverError;
      }
      var tx := driver.Begin();
      Store(ctx.(sources := ctx.sources[dataSource := tx]));
      owner := owner + [(txID, dataSource)];
      assert transactions.Keys == old(transactions.Keys) + {txID};
      r := Ok;
    }

    method CommitTransaction(txID: string, order: seq<string>, rollbackOrder: seq<string>, refused: set<TxId>)
      returns (r: Outcome)
      requires Valid() && ValidOp(Snapshot(), Commit(txID, order, rollbackOrder, refused))
      modifies this, driver
      ensures Valid()
      ensures (Snapshot(), r) == Step(old(Snapshot()), Commit(txID, order, rollbackOrder, refused))
    {
      hide Wf, CommitList, RollbackList, IsOrder, Txs;
      StepWf(Snapshot(), Commit(txID, order, rollbackOrder, refused));
      if txID !in transactions {
        return NotFound;
      }
      var ctx := transactions[txID];
      WfSources(Snapshot(), txID);
      if ctx.status != Active {
        return NotActive;
      }
      var ok := CommitAll(ctx, order, refused);
      if !ok {
        RollbackAll(ctx, rollbackOrder);
        failed := failed + {txID};
        return DriverError;
      }
      Delete(ctx.(status := StatusCommitted));
      assert transactions.Keys == old(transactions.Keys) - {txID};
      r := Ok;
    }

    method CommitAll(ctx: Ctx, order: seq<string>, refused: set<TxId>) returns (ok: bool)
      requires IsOrder(order, ctx.sources)
      requires forall ds :: ds in ctx.sources ==> ctx.sources[ds] < |driver.phase|
      modifies driver
      ensures (driver.phase, ok) == CommitList(old(driver.phase), Txs(order, ctx.sources), refused)
    {
      ghost var txs := Txs(order, ctx.sources);
      for i := 0 to |order|
        invariant |driver.phase| == |old(driver.phase)|
        invariant CommitList(driver.phase, txs[i..], refused) == CommitList(old(driver.phase), txs, refused)
      {
        assert txs[i..][1..] == txs[i + 1..];
        ok := driver.Commit(ctx.sources[order[i]], refused);
        if !ok {
          return;
        }
      }
      ok := true;
    }

    method RollbackAll(ctx: Ctx, order: seq<string>)
      requires IsOrder(order, ctx.sources)
      requires forall ds :: ds in ctx.sources ==> ctx.sources[ds] < |driver.phase|
      modifies driver
      ensures driver.phase == RollbackList(old(driver.phase), Txs(order, ctx.sources))
    {
      ghost var txs := Txs(order, ctx.sources);
      for i := 0 to |order|
        invariant |driver.phase| == |old(driver.phase)|
        invariant RollbackList(driver.phase, txs[i..]) == RollbackList(old(driver.phase), txs)
      {
        assert txs[i..][1..] == txs[i + 1..];
        driver.Rollback(ctx.sources[order[i]]);
      }
    }

    method RollbackTransaction(txID: string, order: seq<string>) returns (r: Outcome)
      requires Valid() && ValidOp(Snapshot(), Rollback(txID, order))
      modifies this, driver
      ensures Valid()
      ensures (Snapshot(), r) == Step(old(Snapshot()), Rollback(txID, order))
    {
      hide Wf, RollbackList, IsOrder, Txs;
      StepWf(Snapshot(), Rollback(txID, order));
      if txID !in transactions {
        return NotFound;
      }
      var ctx := transactions[txID];
      WfSources(Snapshot(), txID);
      RollbackAll(ctx, order);
      Delete(ctx.(status := StatusRolledBack));
      assert transactions.Keys == old(transactions.Keys) - {txID};
      r := Ok;
    }

    method CloseTransaction(txID: string, order: seq<string>) returns (r: Outcome)
      requires Valid() && ValidOp(Snapshot(), Close(txID, order))
      modifies this, driver
      ensures Valid()
      ensures (Snapshot(), r) == Step(old(Snapshot()), Close(txID, order))
    {
      hide Wf, RollbackList, IsOrder, Txs;
      StepWf(Snapshot(), Close(txID, order));
      if txID in transactions {
        var ctx := transactions[txID];
        WfSources(Snapshot(), txID);
        if ctx.status == Active {
          RollbackAll(ctx, order);
        }
        Delete(ctx);
        assert transactions.Keys == old(transactions.Keys) - {txID};
      }
      r := Ok;
    }
  }
}
