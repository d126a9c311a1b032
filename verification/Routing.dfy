/** buildRouteContext and executeRoute: from a statement and a table rule to the data nodes. */
module Routing {
  import opened GoStrings
  import opened Regex
  import opened DataNodes
  import opened Expansion
  import opened Evaluators
  import opened Reach
  import Extract

  /** The sharding columns and algorithm names of a table; "" means none. */
  datatype Rule = Rule(dbColumn: string, dbAlgorithm: string, tableColumn: string, tableAlgorithm: string)

  /** Refused is an error (the caller falls back to the default source); Crashed a panic. */
  datatype Routed = Routed(dataSource: string, table: string, nodes: seq<DataNode>) | Refused | Crashed

  function DbValue(sql: string, rule: Rule): Extract.Extracted {
    if rule.dbColumn == "" then Extract.NoColumn else Extract.ShardingValue(sql, rule.dbColumn)
  }

  /** One column for both: the value is extracted once. */
  function TableValue(sql: string, rule: Rule): Extract.Extracted {
    if rule.tableColumn == "" then Extract.NoColumn
    else if rule.tableColumn != rule.dbColumn then Extract.ShardingValue(sql, rule.tableColumn)
    else DbValue(sql, rule)
  }

  function Source(algorithms: Algorithms, rule: Rule, v: Extract.Extracted): Outcome {
    if v.Found? then CalculateDataSource(algorithms, rule.dbAlgorithm, Str(v.text)) else Text("")
  }

  function Table(algorithms: Algorithms, rule: Rule, v: Extract.Extracted): Outcome {
    if v.Found? then CalculateTable(algorithms, rule.tableAlgorithm, Str(v.text)) else Text("")
  }

  function BuildRouteContext(sql: string, rule: Rule, nodes: Parsed, algorithms: Algorithms): Routed {
    var ds := Source(algorithms, rule, DbValue(sql, rule));
    if !ds.Text? then (if ds.Panic? then Crashed else Refused)
    else
      var t := Table(algorithms, rule, TableValue(sql, rule));
      if !t.Text? then (if t.Panic? then Crashed else Refused)
      else
        match ExpandParsed(nodes, ds.text, t.text)
        case Nodes(list) => Routed(ds.text, t.text, list)
        case BadType => Refused
  }

  // ---------- pruning ----------

  function Keep(nodes: seq<DataNode>, keep: DataNode -> bool): seq<DataNode> {
    if nodes == [] then [] else (if keep(nodes[0]) then [nodes[0]] else []) + Keep(nodes[1..], keep)
  }

  lemma {:induction false} KeepConcat(a: seq<DataNode>, b: seq<DataNode>, keep: DataNode -> bool)
    ensures Keep(a + b, keep) == Keep(a, keep) + Keep(b, keep)
  {
    hide Keep;
    if a == [] {
      KeepNone([], keep);
      assert a + b == b;
    } else {
      KeepConcat(a[1..], b, keep);
      KeepCons(a, keep);
      KeepCons(a + b, keep);
      assert (a + b)[1..] == a[1..] + b;
    }
  }

  lemma KeepCons(nodes: seq<DataNode>, keep: DataNode -> bool)
    requires nodes != []
    ensures Keep(nodes, keep) == (if keep(nodes[0]) then [nodes[0]] else []) + Keep(nodes[1..], keep)
  {
  }

  lemma {:induction false} KeepAll(nodes: seq<DataNode>, keep: DataNode -> bool)
    requires forall n :: n in nodes ==> keep(n)
    ensures Keep(nodes, keep) == nodes
  {
    if nodes != [] {
      assert nodes[0] in nodes;
      KeepAll(nodes[1..], keep);
    }
  }

  lemma {:induction false} KeepNone(nodes: seq<DataNode>, keep: DataNode -> bool)
    requires forall n :: n in nodes ==> !keep(n)
    ensures Keep(nodes, keep) == []
  {
    if nodes != [] {
      assert nodes[0] in nodes;
      KeepNone(nodes[1..], keep);
    }
  }

  function FromSource(d: string): DataNode -> bool {
    (n: DataNode) => n.dataSource == d
  }

  function OfTable(t: string): DataNode -> bool {
    (n: DataNode) => n.table == t
  }

  /** Keeping one source of a product of distinct sources. */
  lemma {:induction false} KeepSource(sources: seq<string>, tables: seq<string>, d: string)
    requires Distinct(sources)
    ensures Keep(Cross(sources, tables), FromSource(d)) == if d in sources then NodesOf(d, tables) else []
  {
    if sources != [] {
      var row, rest := NodesOf(sources[0], tables), Cross(sources[1..], tables);
      KeepConcat(row, rest, FromSource(d));
      KeepSource(sources[1..], tables, d);
      if sources[0] == d {
        KeepAll(row, FromSource(d));
        assert forall i :: 0 < i < |sources| ==> sources[i] != d;
        assert d !in sources[1..];
      } else {
        KeepNone(row, FromSource(d));
        assert d in sources <==> d in sources[1..];
      }
    }
  }

  /** Keeping one table of a row of distinct tables. */
  lemma {:induction false} KeepInRow(source: string, tables: seq<string>, t: string)
    requires Distinct(tables)
    ensures Keep(NodesOf(source, tables), OfTable(t)) == if t in tables then [DataNode(source, t)] else []
  {
    if tables != [] {
      assert NodesOf(source, tables) == [DataNode(source, tables[0])] + NodesOf(source, tables[1..]);
      KeepInRow(source, tables[1..], t);
      if tables[0] == t {
        assert forall i :: 0 < i < |tables| ==> tables[i] != t;
        assert t !in tables[1..];
      } else {
        assert t in tables <==> t in tables[1..];
      }
    } else {
      assert NodesOf(source, tables) == [];
    }
  }

  lemma {:induction false} KeepTable(sources: seq<string>, tables: seq<string>, t: string)
    requires Distinct(tables)
    ensures Keep(Cross(sources, tables), OfTable(t)) == if t in tables then Cross(sources, [t]) else []
  {
    if sources != [] {
      var row, rest := NodesOf(sources[0], tables), Cross(sources[1..], tables);
      KeepConcat(row, rest, OfTable(t));
      KeepInRow(sources[0], tables, t);
      KeepTable(sources[1..], tables, t);
      assert NodesOf(sources[0], [t]) == [DataNode(sources[0], t)];
    }
  }

  lemma AllDistinct(r: DataNodeRange)
    ensures Distinct(AllSources(r)) && Distinct(AllTables(r))
  {
    NamesDistinct(r.dataSourcePattern, r.dsLow, r.dsHigh);
    NamesDistinct(r.tablePattern, r.tableLow, r.tableHigh);
  }

  lemma ExpandPieces(r: DataNodeRange, d: string, t: string)
    requires d != "" && t != ""
    ensures Expand(r, "", "") == Cross(AllSources(r), AllTables(r))
    ensures Expand(r, d, "") == NodesOf(d, AllTables(r))
    ensures !FixedTables(r) ==> Expand(r, "", t) == Cross(AllSources(r), [t]) && Expand(r, d, t) == [DataNode(d, t)]
    ensures FixedTables(r) ==> Expand(r, "", t) == Expand(r, "", "")
  {
    CrossOne(d, AllTables(r));
    CrossOne(d, [t]);
    assert NodesOf(d, [t]) == [DataNode(d, t)];
  }

  /** With a target source the router's list is the order-preserving sub-list of the broadcast
      that lies in that source, exactly when the source is one of the broadcast's (or nothing is
      expanded at all). */
  lemma PrunedBySource(r: DataNodeRange, d: string)
    requires d != ""
    ensures Expand(r, d, "") == Keep(Expand(r, "", ""), FromSource(d)) <==> d in AllSources(r) || AllTables(r) == []
  {
    ExpandPieces(r, d, d);
    AllDistinct(r);
    KeepSource(AllSources(r), AllTables(r), d);
    assert NodesOf(d, AllTables(r)) == [] <==> AllTables(r) == [];
  }

  /** The same for a target table. */
  lemma PrunedByTable(r: DataNodeRange, t: string)
    requires t != "" && !FixedTables(r)
    ensures Expand(r, "", t) == Keep(Expand(r, "", ""), OfTable(t)) <==> t in AllTables(r) || AllSources(r) == []
  {
    ExpandPieces(r, t, t);
    AllDistinct(r);
    KeepTable(AllSources(r), AllTables(r), t);
    if AllSources(r) != [] { assert Cross(AllSources(r), [t]) != []; }
  }

  /** With both, the one node; it is a node of the broadcast exactly when both names are. */
  lemma PrunedByBoth(r: DataNodeRange, d: string, t: string)
    requires d != "" && t != "" && !FixedTables(r)
    ensures Expand(r, d, t) == [DataNode(d, t)]
    ensures DataNode(d, t) in Expand(r, "", "") <==> d in AllSources(r) && t in AllTables(r)
  {
    ExpandPieces(r, d, t);
    CrossIn(AllSources(r), AllTables(r), DataNode(d, t));
  }

  /** Which numbered names are sources of a range. */
  lemma SourceNames(r: DataNodeRange, p: string, i: int)
    ensures Numbered(p, i) in AllSources(r) <==>
      if FixedSources(r) then r.dataSourcePattern == Numbered(p, i)
      else p == r.dataSourcePattern && r.dsLow <= i <= r.dsHigh
  {
    RoutedNameIsNode(p, i, r.dataSourcePattern, r.dsLow, r.dsHigh);
  }

  lemma TableNames(r: DataNodeRange, p: string, i: int)
    ensures Numbered(p, i) in AllTables(r) <==>
      if FixedTables(r) then r.tablePattern == Numbered(p, i) else p == r.tablePattern && r.tableLow <= i <= r.tableHigh
  {
    RoutedNameIsNode(p, i, r.tablePattern, r.tableLow, r.tableHigh);
  }

  // ---------- the node of a key ----------

  /** An algorithm p${c % d} with modulus n. */
  predicate Shards(algorithms: Algorithms, name: string, p: string, n: nat, c: string, w1: string, w2: string,
                   d: string) {
    && name != "" && name in algorithms && '$' !in p && ShardParts(c, w1, w2, d)
    && algorithms[name] == p + ShardText(c, w1, w2, d) && Atoi(d).value == n
  }

  /** The names a nonnegative key goes to. */
  lemma KeyNames(algorithms: Algorithms, name: string, p: string, n: nat, c: string, w1: string, w2: string, d: string,
                 k: nat)
    requires Shards(algorithms, name, p, n, c, w1, w2, d) && n > 0 && k <= INT_MAX
    ensures CalculateDataSource(algorithms, name, Str(Itoa(k))) == Text(Numbered(p, k % n))
    ensures CalculateTable(algorithms, name, Str(Itoa(k))) == Text(Numbered(p, k % n))
  {
    var e, v := algorithms[name], Str(Itoa(k));
    assert p + ShardText(c, w1, w2, d) + "" == e;
    hide ShardText, ShardParts, RoutedName, CalculateShardingExpression, InlineCalculate, CalculateShardingValue;
    hide ModCalculate, GoMod, IntValue, Numbered, Itoa, Atoi;
    SameKey(k);
    OnePlaceholder(p, c, w1, w2, d, "", e, v, n);
  }

  /** Some int64 key is routed to source i and table j. */
  ghost predicate RoutesTo(algorithms: Algorithms, rule: Rule, k: nat, ds: string, t: string) {
    && CalculateDataSource(algorithms, rule.dbAlgorithm, Str(Itoa(k))) == Text(ds)
    && CalculateTable(algorithms, rule.tableAlgorithm, Str(Itoa(k))) == Text(t)
  }

  /** The nodes that keys of one column reach: (i, j) with i and j equal modulo the gcd of the
      moduli, and no other. */
  lemma ReachableNodes(algorithms: Algorithms, rule: Rule, p: string, m: nat, c: string, w1: string, w2: string,
                       d: string,
                       q: string, n: nat, e: string, w3: string, w4: string, g: string, i: nat, j: nat)
    requires Shards(algorithms, rule.dbAlgorithm, p, m, c, w1, w2, d)
    requires Shards(algorithms, rule.tableAlgorithm, q, n, e, w3, w4, g)
    requires i < m && j < n && Lcm(m, n) <= INT_MAX + 1
    ensures (exists k: nat :: k <= INT_MAX && RoutesTo(algorithms, rule, k, Numbered(p, i), Numbered(q, j)))
       <==> Divides(Gcd(m, n), i - j)
  {
    hide Shards, CalculateDataSource, CalculateTable, Numbered, Itoa, Lcm, Gcd;
    if Divides(Gcd(m, n), i - j) {
      var k := Solve(i, j, m, n);
      KeyNames(algorithms, rule.dbAlgorithm, p, m, c, w1, w2, d, k);
      KeyNames(algorithms, rule.tableAlgorithm, q, n, e, w3, w4, g, k);
      assert RoutesTo(algorithms, rule, k, Numbered(p, i), Numbered(q, j));
    }
    forall k: nat | k <= INT_MAX && RoutesTo(algorithms, rule, k, Numbered(p, i), Numbered(q, j))
      ensures Divides(Gcd(m, n), i - j)
    {
      KeyNames(algorithms, rule.dbAlgorithm, p, m, c, w1, w2, d, k);
      KeyNames(algorithms, rule.tableAlgorithm, q, n, e, w3, w4, g, k);
      NumberedUnique(p, k % m, p, i);
      NumberedUnique(q, k % n, q, j);
      Agree(k, m, n);
    }
  }

  // ---------- from a statement to its nodes ----------

  /** Without a WHERE clause (an INSERT, say) the statement goes to every node. */
  lemma NoWhereBroadcasts(sql: string, rule: Rule, nodes: Parsed, algorithms: Algorithms)
    requires !Extract.HasWhere(sql)
    ensures BuildRouteContext(sql, rule, nodes, algorithms)
         == match ExpandParsed(nodes, "", "") case Nodes(list) => Routed("", "", list) case BadType => Refused
  {
    hide Extract.HasWhere, ExpandParsed;
  }

  /** What a statement says about a sharding column: nothing, or which key it equals. */
  datatype Key = Unnamed | Key(k: nat)

  /** A conjunction whose only comparison of the column is column = k, bare or quoted. */
  ghost predicate AsksFor(sql: string, column: string, k: nat) {
    k <= INT_MAX && exists st :: AsksIn(st, sql, column, k)
  }

  ghost predicate AsksIn(st: Extract.Statement, sql: string, column: string, k: nat) {
    Extract.Extractable(st, column) && Extract.Text(st) == sql && st.literal.v == Itoa(k)
  }

  /** No comparison of the column in the clause; "" is no column, and no clause is "". */
  ghost predicate Silent(sql: string, column: string) {
    column == "" || (WordText(column) && forall j: nat :: !Extract.Compared(Extract.Clause(sql), column, j))
  }

  ghost predicate Says(sql: string, column: string, key: Key) {
    match key case Unnamed => Silent(sql, column) case Key(k) => AsksFor(sql, column, k)
  }

  /** The target that a key gives under a prefix and a modulus. */
  function Target(p: string, m: nat, key: Key): string
    requires key.Key? ==> m > 0
  {
    match key case Unnamed => "" case Key(k) => Numbered(p, k % m)
  }

  /** The value extracted for a column that may be "". */
  function ColumnValue(sql: string, column: string): Extract.Extracted {
    if column == "" then Extract.NoColumn else Extract.ShardingValue(sql, column)
  }

  lemma SilentValue(sql: string, column: string)
    requires Silent(sql, column)
    ensures !ColumnValue(sql, column).Found?
  {
    if column != "" && Extract.HasWhere(sql) {
      var s, re := Extract.Clause(sql), Extract.ColumnPattern(column);
      forall j | 0 <= j <= |s| ensures Match(re, s, j) == Fail {
        Extract.ColumnIff(s, column, j);
      }
      hide Extract.Compared, Extract.ColumnPattern, Extract.Clause;
      FindNone(re, s, 0);
    }
  }

  lemma AskedValue(sql: string, column: string, k: nat)
    requires AsksFor(sql, column, k)
    ensures column != "" && ColumnValue(sql, column) == Extract.Found(Itoa(k))
  {
    var st :| AsksIn(st, sql, column, k);
    hide Extract.Extractable, Extract.ComesBack, Extract.Text, Extract.ShardingValue;
    KeyComesBack(st.literal, k);
    Extract.ExtractionInverts(st, column);
  }

  /** Digits come back from a literal, bare or quoted. */
  lemma KeyComesBack(l: Extract.Literal, k: nat)
    requires l.v == Itoa(k)
    ensures Extract.ComesBack(l)
  {
    var s := Itoa(k);
    assert IsDigit(s[0]) && IsDigit(s[|s| - 1]);
    assert ToUpper(s)[0] == s[0];
  }

  /** What a target is computed to, from what the statement says about its column. */
  lemma TargetIs(sql: string, column: string, key: Key, algorithms: Algorithms, name: string,
                 p: string, m: nat, c: string, w1: string, w2: string, d: string)
    requires Says(sql, column, key) && (key.Key? ==> m > 0 && Shards(algorithms, name, p, m, c, w1, w2, d))
    ensures var v := ColumnValue(sql, column);
      && (if v.Found? then CalculateDataSource(algorithms, name, Str(v.text)) else Text("")) == Text(Target(p, m, key))
      && (if v.Found? then CalculateTable(algorithms, name, Str(v.text)) else Text("")) == Text(Target(p, m, key))
  {
    hide Shards, CalculateDataSource, CalculateTable, Numbered, Itoa, Silent, ColumnValue;
    match key
    case Unnamed => SilentValue(sql, column);
    case Key(k) =>
      AskedValue(sql, column, k);
      KeyNames(algorithms, name, p, m, c, w1, w2, d, k);
  }

  /** From the text: whatever combination of the two sharding columns a statement compares, it
      goes to the expansion for exactly the targets of the keys it names. */
  lemma StatementRoutes(sql: string, dbKey: Key, tableKey: Key, rule: Rule, r: DataNodeRange, algorithms: Algorithms,
                        p: string, m: nat, c: string, w1: string, w2: string, d: string,
                        q: string, n: nat, e: string, w3: string, w4: string, g: string)
    requires Says(sql, rule.dbColumn, dbKey) && Says(sql, rule.tableColumn, tableKey)
    requires dbKey.Key? ==> m > 0 && Shards(algorithms, rule.dbAlgorithm, p, m, c, w1, w2, d)
    requires tableKey.Key? ==> n > 0 && Shards(algorithms, rule.tableAlgorithm, q, n, e, w3, w4, g)
    ensures BuildRouteContext(sql, rule, Range(r), algorithms)
         == Routed(Target(p, m, dbKey), Target(q, n, tableKey), Expand(r, Target(p, m, dbKey), Target(q, n, tableKey)))
  {
    hide *;
    TargetIs(sql, rule.dbColumn, dbKey, algorithms, rule.dbAlgorithm, p, m, c, w1, w2, d);
    TargetIs(sql, rule.tableColumn, tableKey, algorithms, rule.tableAlgorithm, q, n, e, w3, w4, g);
    RouteUnfolds(sql, rule, r, algorithms, Target(p, m, dbKey), Target(q, n, tableKey));
  }

  lemma RouteUnfolds(sql: string, rule: Rule, r: DataNodeRange, algorithms: Algorithms, ds: string, t: string)
    requires var v := ColumnValue(sql, rule.dbColumn);
      (if v.Found? then CalculateDataSource(algorithms, rule.dbAlgorithm, Str(v.text)) else Text("")) == Text(ds)
    requires var v := ColumnValue(sql, rule.tableColumn);
      (if v.Found? then CalculateTable(algorithms, rule.tableAlgorithm, Str(v.text)) else Text("")) == Text(t)
    ensures BuildRouteContext(sql, rule, Range(r), algorithms) == Routed(ds, t, Expand(r, ds, t))
  {
    hide Extract.ShardingValue, CalculateDataSource, CalculateTable, Expand;
  }

  /** A point query on a column that shards both ways goes to the node of its key. */
  lemma PointQuery(st: Extract.Statement, column: string, k: nat, rule: Rule, r: DataNodeRange, algorithms: Algorithms,
                   p: string, m: nat, c: string, w1: string, w2: string, d: string,
                   q: string, n: nat, e: string, w3: string, w4: string, g: string)
    requires Extract.Extractable(st, column) && st.literal.v == Itoa(k) && k <= INT_MAX
    requires rule.dbColumn == rule.tableColumn == column && !FixedTables(r) && m > 0 && n > 0
    requires Shards(algorithms, rule.dbAlgorithm, p, m, c, w1, w2, d)
    requires Shards(algorithms, rule.tableAlgorithm, q, n, e, w3, w4, g)
    ensures BuildRouteContext(Extract.Text(st), rule, Range(r), algorithms)
         == Routed(Numbered(p, k % m), Numbered(q, k % n), [DataNode(Numbered(p, k % m), Numbered(q, k % n))])
  {
    hide Extract.Extractable, Extract.Text, BuildRouteContext, Expand, Shards, Numbered, Itoa;
    assert AsksIn(st, Extract.Text(st), column, k);
    StatementRoutes(Extract.Text(st), Key(k), Key(k), rule, r, algorithms, p, m, c, w1, w2, d, q, n, e, w3, w4, g);
    NumberedNonempty(p, k % m);
    NumberedNonempty(q, k % n);
    PrunedByBoth(r, Numbered(p, k % m), Numbered(q, k % n));
  }

  lemma NumberedNonempty(p: string, i: int)
    ensures Numbered(p, i) != ""
  {
  }

  /** The routed node is one of the rule's nodes exactly when both expression prefixes are the
      rule's patterns; a prefix with a trailing '_' never is. */
  lemma RoutedNodeExists(r: DataNodeRange, p: string, i: nat, q: string, j: nat)
    requires !FixedSources(r) && !FixedTables(r)
    requires r.dsLow <= i <= r.dsHigh && r.tableLow <= j <= r.tableHigh
    ensures DataNode(Numbered(p, i), Numbered(q, j)) in Expand(r, "", "") <==>
      p == r.dataSourcePattern && q == r.tablePattern
  {
    NumberedNonempty(p, i);
    NumberedNonempty(q, j);
    PrunedByBoth(r, Numbered(p, i), Numbered(q, j));
    SourceNames(r, p, i);
    TableNames(r, q, j);
    hide Expand, Numbered, AllSources, AllTables;
  }
}
