/** Executing a route, and what a sharded SELECT means: the rows of the pruned nodes, of the
    broadcast, and of the logical table are the same. */
module Meaning {
  import opened Bits
  import opened ResultSet
  import opened FanOut
  import opened Merge
  import opened DataNodes
  import opened Expansion
  import opened Routing
  import Qualify
  import Extract
  import Evaluators
  import GoStrings

  // ---------- executing a route ----------

  /** What a data source gives for a statement. */
  type Servers = (string, string) -> Outcome

  function OnNode(run: Servers, sql: string, n: DataNode): Outcome {
    run(n.dataSource, Qualify.RewriteTableInSQL(sql, n.table))
  }

  function OnNodes(run: Servers, sql: string, nodes: seq<DataNode>): (r: seq<Outcome>)
    ensures |r| == |nodes| && forall i :: 0 <= i < |nodes| ==> r[i] == OnNode(run, sql, nodes[i])
  {
    seq(|nodes|, i requires 0 <= i < |nodes| => OnNode(run, sql, nodes[i]))
  }

  function Reply(o: Outcome): Answer {
    match o case Error(e) => Failure(e) case Success(r) => Answer.Answer(r)
  }

  /** executeRoute: no node is the default source with the statement as it stands, one node is
      asked directly, several are asked concurrently; states is any run of that. */
  method ExecuteRoute(kind: Kind, sql: string, nodes: seq<DataNode>, run: Servers, fallback: string,
                      ghost states: seq<State>, end: State)
    returns (a: Answer)
    requires |nodes| > 1 ==> Run(OnNodes(run, sql, nodes), states) && states[|states| - 1] == end && end.main.Woken?
    ensures |nodes| == 0 ==> a == Reply(run(fallback, sql))
    ensures |nodes| == 1 ==> a == Reply(OnNode(run, sql, nodes[0]))
    ensures |nodes| > 1 ==> (a.Failure? <==> forall i :: 0 <= i < |nodes| ==> OnNode(run, sql, nodes[i]).Error?)
    ensures |nodes| > 1 && a.Answer? && kind == Select ==>
      multiset(a.result.rows) == multiset(RowsOf(Successes(OnNodes(run, sql, nodes), Order(|nodes|))))
    ensures |nodes| > 1 && a.Failure? ==> Error(a.message) in OnNodes(run, sql, nodes)
    ensures |nodes| > 1 && a.Answer? && kind == OtherKind ==>
      a.result.affected == Wrap64(Affected(Successes(OnNodes(run, sql, nodes), Order(|nodes|))))
    ensures |nodes| > 1 && a.Answer? && kind == OtherKind && a.result.lastInsertID != 0 ==>
      a.result.lastInsertID > 0 &&
      exists o :: o in OnNodes(run, sql, nodes) && o.Success? && o.result.lastInsertID == a.result.lastInsertID
  {
    if |nodes| == 0 {
      return Reply(run(fallback, sql));
    }
    if |nodes| == 1 {
      return Reply(OnNode(run, sql, nodes[0]));
    }
    var outcomes := OnNodes(run, sql, nodes);
    a := ExecuteOnMultipleNodes(kind, outcomes, states, end);
    assert forall i :: 0 <= i < |nodes| ==> outcomes[i] in outcomes;
  }

  // ---------- row-wise queries ----------

  /** A query that looks at one row at a time. */
  datatype Query = Query(pred: Row -> bool, proj: Row -> Row)

  /** The rows of every node, and the columns its two strategies shard by. */
  datatype Store = Store(shard: DataNode -> seq<Row>, dbKey: Row -> int, tableKey: Row -> int)

  /** The rows that satisfy the query, projected, in order. */
  function Answers(rows: seq<Row>, query: Query): seq<Row> {
    if rows == [] then [] else (if query.pred(rows[0]) then [query.proj(rows[0])] else []) + Answers(rows[1..], query)
  }

  /** The logical table: the rows of all nodes. */
  function AllRows(nodes: seq<DataNode>, store: Store): seq<Row> {
    if nodes == [] then [] else store.shard(nodes[0]) + AllRows(nodes[1..], store)
  }

  /** The answers of the nodes, one after the other. */
  function Gather(nodes: seq<DataNode>, store: Store, query: Query): seq<Row> {
    if nodes == [] then [] else Answers(store.shard(nodes[0]), query) + Gather(nodes[1..], store, query)
  }

  lemma {:induction false} AnswersConcat(a: seq<Row>, b: seq<Row>, query: Query)
    ensures Answers(a + b, query) == Answers(a, query) + Answers(b, query)
  {
    hide Answers;
    if a == [] {
      NoAnswers([], query);
      assert a + b == b;
    } else {
      AnswersConcat(a[1..], b, query);
      AnswersCons(a, query);
      AnswersCons(a + b, query);
      assert (a + b)[1..] == a[1..] + b;
    }
  }

  lemma AnswersCons(rows: seq<Row>, query: Query)
    requires rows != []
    ensures Answers(rows, query) ==
      (if query.pred(rows[0]) then [query.proj(rows[0])] else []) + Answers(rows[1..], query)
  {
  }

  lemma {:induction false} NoAnswers(rows: seq<Row>, query: Query)
    requires forall x :: x in rows ==> !query.pred(x)
    ensures Answers(rows, query) == []
  {
    if rows != [] {
      assert rows[0] in rows;
      NoAnswers(rows[1..], query);
    }
  }

  /** Asking every node is filtering the logical table. */
  lemma {:induction false} GatherIsFilter(nodes: seq<DataNode>, store: Store, query: Query)
    ensures Gather(nodes, store, query) == Answers(AllRows(nodes, store), query)
  {
    if nodes != [] {
      GatherIsFilter(nodes[1..], store, query);
      AnswersConcat(store.shard(nodes[0]), AllRows(nodes[1..], store), query);
    }
  }

  /** Nodes without an answer may be left out. */
  lemma {:induction false} GatherKeep(nodes: seq<DataNode>, keep: DataNode -> bool, store: Store, query: Query)
    requires forall n :: n in nodes && !keep(n) ==> Answers(store.shard(n), query) == []
    ensures Gather(Keep(nodes, keep), store, query) == Gather(nodes, store, query)
  {
    if nodes != [] {
      assert nodes[0] in nodes;
      GatherKeep(nodes[1..], keep, store, query);
      if keep(nodes[0]) {
        assert Keep(nodes, keep)[0] == nodes[0] && Keep(nodes, keep)[1..] == Keep(nodes[1..], keep);
      } else {
        assert Keep(nodes, keep) == Keep(nodes[1..], keep);
      }
    }
  }

  // ---------- placement ----------

  /** The names and sizes of p_${0..m-1}.q_${0..n-1}. */
  datatype Grid = Grid(p: string, m: nat, q: string, n: nat)

  function GridNode(g: Grid, i: int, j: int): DataNode {
    DataNode(Numbered(g.p, i), Numbered(g.q, j))
  }

  predicate GoesTo(k: int, m: nat, i: int) {
    m > 0 && k >= 0 && k % m == i
  }

  /** Every row is in source dbKey mod m and table tableKey mod n. INSERT does not establish this. */
  ghost predicate Placed(store: Store, g: Grid) {
    forall i, j, x :: 0 <= i < g.m && 0 <= j < g.n && x in store.shard(GridNode(g, i, j)) ==>
                        GoesTo(store.dbKey(x), g.m, i) && GoesTo(store.tableKey(x), g.n, j)
  }

  /** The rule of a grid with at least two sources and two tables. */
  predicate RuleOf(r: DataNodeRange, g: Grid) {
    && r.dataSourcePattern == g.p && r.dsLow == 0 && r.dsHigh == g.m - 1 && g.m >= 2
    && r.tablePattern == g.q && r.tableLow == 0 && r.tableHigh == g.n - 1 && g.n >= 2
  }

  lemma NodeIs(r: DataNodeRange, g: Grid, node: DataNode) returns (i: nat, j: nat)
    requires RuleOf(r, g) && node in Expand(r, "", "")
    ensures i < g.m && j < g.n && node == GridNode(g, i, j)
  {
    CrossIn(AllSources(r), AllTables(r), node);
    i :| 0 <= i < |AllSources(r)| && AllSources(r)[i] == node.dataSource;
    j :| 0 <= j < |AllTables(r)| && AllTables(r)[j] == node.table;
  }

  /** The query asks for one database key, or for one table key. */
  ghost predicate OneSource(store: Store, query: Query, v: nat) {
    forall x :: query.pred(x) ==> store.dbKey(x) == v
  }

  ghost predicate OneTable(store: Store, query: Query, w: nat) {
    forall x :: query.pred(x) ==> store.tableKey(x) == w
  }

  lemma AskedSource(store: Store, query: Query, v: nat, x: Row)
    requires OneSource(store, query, v)
    ensures query.pred(x) ==> store.dbKey(x) == v
  {
  }

  lemma AskedTable(store: Store, query: Query, w: nat, x: Row)
    requires OneTable(store, query, w)
    ensures query.pred(x) ==> store.tableKey(x) == w
  {
  }

  lemma RowIn(store: Store, g: Grid, i: nat, j: nat, x: Row)
    requires Placed(store, g) && i < g.m && j < g.n && x in store.shard(GridNode(g, i, j))
    ensures GoesTo(store.dbKey(x), g.m, i) && GoesTo(store.tableKey(x), g.n, j)
  {
  }

  lemma GridNames(g: Grid, i: nat, j: nat)
    ensures GridNode(g, i, j).dataSource == Numbered(g.p, i) && GridNode(g, i, j).table == Numbered(g.q, j)
  {
  }

  lemma Apart(k: int, m: nat, i: nat, v: nat)
    requires m > 0 && GoesTo(k, m, i) && i != v % m
    ensures k != v
  {
  }

  /** Nodes of other sources have no answer to a query for one database key. */
  lemma OtherSources(r: DataNodeRange, g: Grid, store: Store, query: Query, v: nat, node: DataNode)
    requires RuleOf(r, g) && Placed(store, g) && OneSource(store, query, v) && node in Expand(r, "", "") && g.m > 0
    requires node.dataSource != Numbered(g.p, v % g.m)
    ensures Answers(store.shard(node), query) == []
  {
    hide *;
    var i, j := NodeIs(r, g, node);
    GridNames(g, i, j);
    forall x | x in store.shard(node) ensures !query.pred(x) {
      RowIn(store, g, i, j, x);
      AskedSource(store, query, v, x);
      Apart(store.dbKey(x), g.m, i, v);
    }
    NoAnswers(store.shard(node), query);
  }

  lemma OtherTables(r: DataNodeRange, g: Grid, store: Store, query: Query, w: nat, node: DataNode)
    requires RuleOf(r, g) && Placed(store, g) && OneTable(store, query, w) && node in Expand(r, "", "") && g.n > 0
    requires node.table != Numbered(g.q, w % g.n)
    ensures Answers(store.shard(node), query) == []
  {
    hide *;
    var i, j := NodeIs(r, g, node);
    GridNames(g, i, j);
    forall x | x in store.shard(node) ensures !query.pred(x) {
      RowIn(store, g, i, j, x);
      AskedTable(store, query, w, x);
      Apart(store.tableKey(x), g.n, j, w);
    }
    NoAnswers(store.shard(node), query);
  }

  /** The router's list for a known database key keeps every answer. */
  lemma SourcePruning(r: DataNodeRange, g: Grid, store: Store, query: Query, v: nat)
    requires RuleOf(r, g) && Placed(store, g) && OneSource(store, query, v)
    ensures Gather(Expand(r, Numbered(g.p, v % g.m), ""), store, query) == Gather(Expand(r, "", ""), store, query)
  {
    var d, all := Numbered(g.p, v % g.m), Expand(r, "", "");
    forall node | node in all && !FromSource(d)(node) ensures Answers(store.shard(node), query) == [] {
      OtherSources(r, g, store, query, v, node);
    }
    NumberedNonempty(g.p, v % g.m);
    SourceNames(r, g.p, v % g.m);
    hide Expand, Numbered, Gather, Answers, Placed, AllSources, AllTables;
    PrunedBySource(r, d);
    GatherKeep(all, FromSource(d), store, query);
  }

  lemma TablePruning(r: DataNodeRange, g: Grid, store: Store, query: Query, w: nat)
    requires RuleOf(r, g) && Placed(store, g) && OneTable(store, query, w)
    ensures Gather(Expand(r, "", Numbered(g.q, w % g.n)), store, query) == Gather(Expand(r, "", ""), store, query)
  {
    var t, all := Numbered(g.q, w % g.n), Expand(r, "", "");
    forall node | node in all && !OfTable(t)(node) ensures Answers(store.shard(node), query) == [] {
      OtherTables(r, g, store, query, w, node);
    }
    NumberedNonempty(g.q, w % g.n);
    TableNames(r, g.q, w % g.n);
    hide Expand, Numbered, Gather, Answers, Placed, AllSources, AllTables;
    PrunedByTable(r, t);
    GatherKeep(all, OfTable(t), store, query);
  }

  lemma BothPruning(r: DataNodeRange, g: Grid, store: Store, query: Query, v: nat, w: nat)
    requires RuleOf(r, g) && Placed(store, g) && OneSource(store, query, v) && OneTable(store, query, w)
    ensures Gather(Expand(r, Numbered(g.p, v % g.m), Numbered(g.q, w % g.n)), store, query) ==
      Gather(Expand(r, "", ""), store, query)
  {
    var d, t := Numbered(g.p, v % g.m), Numbered(g.q, w % g.n);
    SourcePruning(r, g, store, query, v);
    NumberedNonempty(g.p, v % g.m);
    NumberedNonempty(g.q, w % g.n);
    SourceNames(r, g.p, v % g.m);
    TableNames(r, g.q, w % g.n);
    ExpandPieces(r, d, t);
    AllDistinct(r);
    KeepInRow(d, AllTables(r), t);
    var row := NodesOf(d, AllTables(r));
    forall node | node in row && !OfTable(t)(node) ensures Answers(store.shard(node), query) == [] {
      InRow(d, AllTables(r), node);
      CrossIn(AllSources(r), AllTables(r), node);
      OtherTables(r, g, store, query, w, node);
    }
    hide Expand, Numbered, Gather, Answers, Placed, Cross, AllSources, AllTables;
    GatherKeep(row, OfTable(t), store, query);
  }

  // ---------- the meaning of a sharded SELECT ----------

  /** The source and table the router may have computed: none, or the one of the query's key. */
  ghost predicate Targets(g: Grid, store: Store, query: Query, ds: string, table: string)
    requires g.m > 0 && g.n > 0
  {
    && (ds != "" ==> exists v: nat :: OneSource(store, query, v) && ds == Numbered(g.p, v % g.m))
    && (table != "" ==> exists w: nat :: OneTable(store, query, w) && table == Numbered(g.q, w % g.n))
  }

  /** The pruned nodes, the broadcast nodes and the logical table give the same rows. */
  lemma PruningKeepsMeaning(r: DataNodeRange, g: Grid, store: Store, query: Query, ds: string, table: string)
    requires RuleOf(r, g) && Placed(store, g) && Targets(g, store, query, ds, table)
    ensures Gather(Expand(r, ds, table), store, query) == Gather(Expand(r, "", ""), store, query)
         == Answers(AllRows(Expand(r, "", ""), store), query)
  {
    GatherIsFilter(Expand(r, "", ""), store, query);
    hide Expand, Gather, Answers, Placed, Numbered, OneSource, OneTable, AllRows;
    if ds != "" {
      var v: nat :| OneSource(store, query, v) && ds == Numbered(g.p, v % g.m);
      if table != "" {
        var w: nat :| OneTable(store, query, w) && table == Numbered(g.q, w % g.n);
        BothPruning(r, g, store, query, v, w);
      } else {
        SourcePruning(r, g, store, query, v);
      }
    } else if table != "" {
      var w: nat :| OneTable(store, query, w) && table == Numbered(g.q, w % g.n);
      TablePruning(r, g, store, query, w);
    }
  }

  /** Every node answers the rewritten statement with the query's rows of its own shard. */
  ghost predicate Serves(run: Servers, sql: string, nodes: seq<DataNode>, store: Store, query: Query) {
    forall n :: n in nodes ==>
      OnNode(run, sql, n).Success? && OnNode(run, sql, n).result.rows == Answers(store.shard(n), query)
  }

  lemma {:induction false} GatherUpTo(run: Servers, sql: string, nodes: seq<DataNode>, store: Store, query: Query,
                                      k: nat)
    requires Serves(run, sql, nodes, store, query) && k <= |nodes|
    ensures RowsOf(Successes(OnNodes(run, sql, nodes), Order(k))) == Gather(nodes[..k], store, query)
  {
    hide *;
    var os := OnNodes(run, sql, nodes);
    if k == 0 {
      NoneYet(os, nodes, store, query);
    } else {
      GatherUpTo(run, sql, nodes, store, query, k - 1);
      ServesAt(run, sql, nodes, store, query, k - 1);
      SuccessSnoc(os, k);
      assert nodes[..k] == nodes[..k - 1] + [nodes[k - 1]];
      RowsAppend(Successes(os, Order(k - 1)), [os[k - 1].result]);
      OneResult(os[k - 1].result);
      GatherSnoc(nodes[..k - 1], nodes[k - 1], store, query);
    }
  }

  lemma NoneYet(os: seq<Outcome>, nodes: seq<DataNode>, store: Store, query: Query)
    ensures RowsOf(Successes(os, Order(0))) == Gather(nodes[..0], store, query)
  {
  }

  lemma ServesAt(run: Servers, sql: string, nodes: seq<DataNode>, store: Store, query: Query, i: nat)
    requires Serves(run, sql, nodes, store, query) && i < |nodes|
    ensures var o := OnNodes(run, sql, nodes)[i]; o.Success? && o.result.rows == Answers(store.shard(nodes[i]), query)
  {
    assert nodes[i] in nodes;
    hide OnNode, Answers;
  }

  lemma SuccessSnoc(os: seq<Outcome>, k: nat)
    requires 0 < k <= |os| && os[k - 1].Success?
    ensures Successes(os, Order(k)) == Successes(os, Order(k - 1)) + [os[k - 1].result]
  {
    assert Order(k)[..k - 1] == Order(k - 1);
  }

  lemma {:induction false} GatherSnoc(nodes: seq<DataNode>, n: DataNode, store: Store, query: Query)
    ensures Gather(nodes + [n], store, query) == Gather(nodes, store, query) + Answers(store.shard(n), query)
  {
    if nodes == [] {
      assert Gather([n], store, query) == Answers(store.shard(n), query) + Gather([n][1..], store, query);
    } else {
      GatherSnoc(nodes[1..], n, store, query);
      assert (nodes + [n])[1..] == nodes[1..] + [n];
    }
  }

  /** A sharded SELECT whose nodes all answer gives, in every interleaving of their goroutines,
      the rows of the logical table that satisfy the query. */
  method ShardedSelect(sql: string, r: DataNodeRange, ds: string, table: string, run: Servers, fallback: string,
                       ghost g: Grid, ghost store: Store, ghost query: Query, ghost states: seq<State>, end: State)
    returns (a: Answer)
    requires RuleOf(r, g) && Placed(store, g) && Targets(g, store, query, ds, table)
    requires Serves(run, sql, Expand(r, ds, table), store, query)
    requires |Expand(r, ds, table)| > 1 ==>
      Run(OnNodes(run, sql, Expand(r, ds, table)), states) && states[|states| - 1] == end && end.main.Woken?
    ensures a.Answer? && multiset(a.result.rows) == multiset(Answers(AllRows(Expand(r, "", ""), store), query))
  {
    var nodes := Expand(r, ds, table);
    a := ExecuteRoute(Select, sql, nodes, run, fallback, states, end);
    hide *;
    RouteRows(sql, r, ds, table, nodes, run, g, store, query);
  }

  /** What the route's nodes contribute, together. */
  lemma RouteRows(sql: string, r: DataNodeRange, ds: string, table: string, nodes: seq<DataNode>, run: Servers,
                  g: Grid, store: Store, query: Query)
    requires RuleOf(r, g) && Placed(store, g) && Targets(g, store, query, ds, table) && nodes == Expand(r, ds, table)
    requires Serves(run, sql, nodes, store, query)
    ensures |nodes| > 0 && OnNode(run, sql, nodes[0]).Success?
    ensures RowsOf(Successes(OnNodes(run, sql, nodes), Order(|nodes|))) ==
      Answers(AllRows(Expand(r, "", ""), store), query)
    ensures var a := Reply(OnNode(run, sql, nodes[0]));
            |nodes| == 1 ==> a.Answer? && a.result.rows == Answers(AllRows(Expand(r, "", ""), store), query)
  {
    SomeNode(r, g, ds, table);
    hide *;
    PruningKeepsMeaning(r, g, store, query, ds, table);
    GatherUpTo(run, sql, nodes, store, query, |nodes|);
    assert nodes[..|nodes|] == nodes;
    if |nodes| == 1 {
      OneGathered(nodes, store, query);
    }
  }

  lemma OneGathered(nodes: seq<DataNode>, store: Store, query: Query)
    requires |nodes| == 1
    ensures Gather(nodes, store, query) == Answers(store.shard(nodes[0]), query)
  {
    assert Gather(nodes[1..], store, query) == [];
  }

  lemma SomeNode(r: DataNodeRange, g: Grid, ds: string, table: string)
    requires RuleOf(r, g)
    ensures |Expand(r, ds, table)| > 0
  {
    CrossAt(TargetSources(r, ds), TargetTables(r, table), 0, 0);
  }

  /** The keys a statement names are keys its query asks for. */
  ghost predicate Meant(dbKey: Key, tableKey: Key, store: Store, query: Query) {
    && (dbKey.Key? ==> OneSource(store, query, dbKey.k))
    && (tableKey.Key? ==> OneTable(store, query, tableKey.k))
  }

  lemma MeantTargets(dbKey: Key, tableKey: Key, g: Grid, store: Store, query: Query)
    requires Meant(dbKey, tableKey, store, query) && g.m > 0 && g.n > 0
    ensures Targets(g, store, query, Target(g.p, g.m, dbKey), Target(g.q, g.n, tableKey))
  {
    hide Numbered, OneSource, OneTable;
  }

  /** ParseSQLType, as far as executing a route asks. */
  function KindOf(sql: string): Kind {
    if GoStrings.HasPrefix(GoStrings.TrimSpace(GoStrings.ToUpper(sql)), "SELECT") then Select else OtherKind
  }

  lemma SelectKind(q: Qualify.Sql)
    requires Qualify.HeadOk(q.head) && q.head.Select? && GoStrings.AllSpace(q.lead)
    ensures KindOf(Qualify.SqlText(q)) == Select
  {
    var rest := Qualify.HeadText(q.head) + Qualify.NameIn(q.name, q.table) + q.glued + q.tail;
    assert Qualify.SqlText(q) == q.lead + rest;
    GoStrings.UpperConcat(q.lead, rest);
    GoStrings.UpperSpaces(q.lead);
    Qualify.SelectStarts(q.head, Qualify.NameIn(q.name, q.table) + q.glued + q.tail, rest) by {
      assert rest == Qualify.HeadText(q.head) + (Qualify.NameIn(q.name, q.table) + q.glued + q.tail);
    }
    hide Qualify.SqlText, Qualify.HeadText, Qualify.HeadOk;
    KeepsStart(q.lead, GoStrings.ToUpper(rest), "SELECT");
  }

  /** Trimming leaves what the text begins with, when that ends and begins with no space. */
  lemma KeepsStart(lead: string, s: string, p: string)
    requires GoStrings.AllSpace(lead) && GoStrings.Solid(p) && GoStrings.HasPrefix(s, p)
    ensures GoStrings.HasPrefix(GoStrings.TrimSpace(lead + s), p)
  {
    var z := s[|p|..];
    assert s == p + z && lead + s == lead + p + z;
    GoStrings.TrimAround(lead, p, z);
  }

  /** A data source answers the query on one of its tables, under the name the statement gives it. */
  ghost predicate AnswersFor(run: Servers, q: Qualify.Sql, nodes: seq<DataNode>, store: Store, query: Query) {
    forall n :: n in nodes ==> AnswersAs(run(n.dataSource, Qualify.Renamed(q, n.table)), store.shard(n), query)
  }

  predicate AnswersAs(o: Outcome, rows: seq<Row>, query: Query) {
    o.Success? && o.result.rows == Answers(rows, query)
  }

  predicate WordRunes(p: string) {
    forall i :: 0 <= i < |p| ==> GoStrings.IsWord(p[i])
  }

  lemma NumberedWord(p: string, i: nat)
    requires WordRunes(p)
    ensures GoStrings.WordText(Numbered(p, i))
  {
  }

  /** The tables of every route of the rule have names of word runes. */
  lemma TableWords(r: DataNodeRange, g: Grid, dbKey: Key, tableKey: Key, node: DataNode)
    requires RuleOf(r, g) && WordRunes(g.q) && node in Expand(r, Target(g.p, g.m, dbKey), Target(g.q, g.n, tableKey))
    ensures GoStrings.WordText(node.table)
  {
    var ds, t := Target(g.p, g.m, dbKey), Target(g.q, g.n, tableKey);
    CrossIn(TargetSources(r, ds), TargetTables(r, t), node);
    if tableKey.Key? {
      NumberedNonempty(g.q, tableKey.k % g.n);
      NumberedWord(g.q, tableKey.k % g.n);
    } else {
      var j :| 0 <= j < |AllTables(r)| && AllTables(r)[j] == node.table;
      NumberedWord(g.q, j);
    }
    hide Numbered, WordRunes, GoStrings.WordText;
  }

  /** Then every node answers the rewritten statement. */
  lemma ServesFromText(run: Servers, q: Qualify.Sql, r: DataNodeRange, g: Grid, dbKey: Key, tableKey: Key,
                       nodes: seq<DataNode>, store: Store, query: Query)
    requires RuleOf(r, g) && WordRunes(g.q) && nodes == Expand(r, Target(g.p, g.m, dbKey), Target(g.q, g.n, tableKey))
    requires Qualify.Readable(q) && AnswersFor(run, q, nodes, store, query)
    ensures Serves(run, Qualify.SqlText(q), nodes, store, query)
  {
    var sql := Qualify.SqlText(q);
    forall n | n in nodes
      ensures OnNode(run, sql, n).Success? && OnNode(run, sql, n).result.rows == Answers(store.shard(n), query) {
      TableWords(r, g, dbKey, tableKey, n);
      hide Qualify.Readable, Qualify.RewriteTableInSQL, Qualify.Renamed, Qualify.SqlText, Answers;
      Qualify.TableRewritten(q, n.table);
      assert AnswersAs(run(n.dataSource, Qualify.Renamed(q, n.table)), store.shard(n), query);
    }
  }

  /** From the statement's text to the answer. Whichever of the two sharding columns the text
      compares with a key, neither, either or both, however it spells the table and whatever white
      space it holds, as long as both are found, and in whatever order the nodes answer, the result
      holds the rows of the logical table that satisfy the query. Of the data sources it is asked
      only that each answers the query on its own tables. */
  method SelectFromText(sql: string, rule: Rule, r: DataNodeRange, algorithms: Evaluators.Algorithms, run: Servers,
                        fallback: string, ghost q: Qualify.Sql, ghost dbKey: Key, ghost tableKey: Key, ghost g: Grid,
                        ghost c: string, ghost w1: string, ghost w2: string, ghost d: string,
                        ghost e: string, ghost w3: string, ghost w4: string, ghost f: string,
                        ghost store: Store, ghost query: Query, ghost states: seq<State>, end: State)
    returns (a: Answer)
    requires Qualify.Readable(q) && q.head.Select? && sql == Qualify.SqlText(q) && WordRunes(g.q)
    requires Says(sql, rule.dbColumn, dbKey) && Says(sql, rule.tableColumn, tableKey)
    requires RuleOf(r, g) && Placed(store, g) && Meant(dbKey, tableKey, store, query)
    requires dbKey.Key? ==> Shards(algorithms, rule.dbAlgorithm, g.p, g.m, c, w1, w2, d)
    requires tableKey.Key? ==> Shards(algorithms, rule.tableAlgorithm, g.q, g.n, e, w3, w4, f)
    requires var nodes := Expand(r, Target(g.p, g.m, dbKey), Target(g.q, g.n, tableKey));
      AnswersFor(run, q, nodes, store, query) &&
      (|nodes| > 1 ==> Run(OnNodes(run, sql, nodes), states) && states[|states| - 1] == end && end.main.Woken?)
    ensures a.Answer? && multiset(a.result.rows) == multiset(Answers(AllRows(Expand(r, "", ""), store), query))
  {
    assert g.m > 0 && g.n > 0;
    ReadableHead(q);
    hide *;
    StatementRoutes(sql, dbKey, tableKey, rule, r, algorithms, g.p, g.m, c, w1, w2, d, g.q, g.n, e, w3, w4, f);
    MeantTargets(dbKey, tableKey, g, store, query);
    SelectKind(q);
    var route := BuildRouteContext(sql, rule, Range(r), algorithms);
    ServesFromText(run, q, r, g, dbKey, tableKey, route.nodes, store, query);
    a := ExecuteRoute(KindOf(sql), sql, route.nodes, run, fallback, states, end);
    RouteRows(sql, r, route.dataSource, route.table, route.nodes, run, g, store, query);
  }

  lemma ReadableHead(q: Qualify.Sql)
    requires Qualify.Readable(q)
    ensures Qualify.HeadOk(q.head) && GoStrings.AllSpace(q.lead)
  {
  }

  /** From the statement's text: a point query on the column that shards both ways is routed to
      one node, and that node's rows are the logical table's. */
  lemma PointSelect(st: Extract.Statement, column: string, k: nat, rule: Rule, r: DataNodeRange,
                    algorithms: Evaluators.Algorithms,
                    g: Grid, c: string, w1: string, w2: string, d: string,
                    e: string, w3: string, w4: string, f: string, store: Store, query: Query)
    requires Extract.Extractable(st, column) && st.literal.v == GoStrings.Itoa(k) && k <= GoStrings.INT_MAX
    requires rule.dbColumn == rule.tableColumn == column && RuleOf(r, g)
    requires Shards(algorithms, rule.dbAlgorithm, g.p, g.m, c, w1, w2, d)
    requires Shards(algorithms, rule.tableAlgorithm, g.q, g.n, e, w3, w4, f)
    requires Placed(store, g) && OneSource(store, query, k) && OneTable(store, query, k)
    ensures var node := GridNode(g, k % g.m, k % g.n);
            BuildRouteContext(Extract.Text(st), rule, Range(r), algorithms)
            == Routed(node.dataSource, node.table, [node])
    ensures Answers(store.shard(GridNode(g, k % g.m, k % g.n)), query) ==
      Answers(AllRows(Expand(r, "", ""), store), query)
  {
    var ds, t := Numbered(g.p, k % g.m), Numbered(g.q, k % g.n);
    var node := DataNode(ds, t);
    assert node == GridNode(g, k % g.m, k % g.n);
    assert !FixedTables(r);
    hide *;
    PointQuery(st, column, k, rule, r, algorithms, g.p, g.m, c, w1, w2, d, g.q, g.n, e, w3, w4, f);
    BothPruning(r, g, store, query, k, k);
    GatherIsFilter(Expand(r, "", ""), store, query);
    NumberedNonempty(g.p, k % g.m);
    NumberedNonempty(g.q, k % g.n);
    PrunedByBoth(r, ds, t);
    OneGathered([node], store, query);
  }

  /** The sentinel: a rule p_${0..0} names the source p in a broadcast, while every routed source
      is numbered, so what is stored in p_0 is never asked for. */
  lemma SentinelMissesSource(r: DataNodeRange, table: string, i: int, node: DataNode)
    requires FixedSources(r) && node in Expand(r, "", table)
    ensures node.dataSource == r.dataSourcePattern != Numbered(r.dataSourcePattern, i)
  {
    CrossIn(TargetSources(r, ""), TargetTables(r, table), node);
    assert |Numbered(r.dataSourcePattern, i)| > |r.dataSourcePattern|;
  }
}
