/** Expanding a data node range into concrete nodes: the parser's expander, the router's
    expander with its optional targets, and when the two agree. */
module Expansion {
  import opened GoStrings
  import opened DataNodes

  /** fmt.Sprintf("%s_%d", p, i) */
  function Numbered(p: string, i: int): string {
    p + "_" + Itoa(i)
  }

  /** The numbered names from low to high; none when the range is inverted. */
  function Names(p: string, low: int, high: int): (r: seq<string>)
    ensures |r| == (if low <= high then high - low + 1 else 0)
    ensures forall k :: 0 <= k < |r| ==> r[k] == Numbered(p, low + k)
  {
    seq(if low <= high then high - low + 1 else 0, k => Numbered(p, low + k))
  }

  /** Every source with every table, sources outermost. */
  function Cross(sources: seq<string>, tables: seq<string>): seq<DataNode> {
    if sources == [] then [] else NodesOf(sources[0], tables) + Cross(sources[1..], tables)
  }

  function NodesOf(source: string, tables: seq<string>): (r: seq<DataNode>)
    ensures |r| == |tables| && forall k :: 0 <= k < |r| ==> r[k] == DataNode(source, tables[k])
  {
    seq(|tables|, k requires 0 <= k < |tables| => DataNode(source, tables[k]))
  }

  predicate FixedSources(r: DataNodeRange) {
    r.dsLow == 0 && r.dsHigh == 0
  }

  predicate FixedTables(r: DataNodeRange) {
    r.tableLow == 0 && r.tableHigh == 0
  }

  /** The tables of a range: [0,0] stands for the pattern itself. */
  function AllTables(r: DataNodeRange): seq<string> {
    if FixedTables(r) then [r.tablePattern] else Names(r.tablePattern, r.tableLow, r.tableHigh)
  }

  /** The sources as the parser's expander names them: always numbered. */
  function PhysicalSources(r: DataNodeRange): seq<string> {
    Names(if r.isReadWriteSplitting then "primary_ds" else r.dataSourcePattern, r.dsLow, r.dsHigh)
  }

  /** The sources as the router names them: [0,0] stands for the pattern itself. */
  function AllSources(r: DataNodeRange): seq<string> {
    if FixedSources(r) then [r.dataSourcePattern] else Names(r.dataSourcePattern, r.dsLow, r.dsHigh)
  }

  function TargetSources(r: DataNodeRange, targetDS: string): seq<string> {
    if targetDS != "" then [targetDS] else AllSources(r)
  }

  /** A target table is ignored when the table is fixed. */
  function TargetTables(r: DataNodeRange, targetTable: string): seq<string> {
    if targetTable != "" && !FixedTables(r) then [targetTable] else AllTables(r)
  }

  function Expand(r: DataNodeRange, targetDS: string, targetTable: string): seq<DataNode> {
    Cross(TargetSources(r, targetDS), TargetTables(r, targetTable))
  }

  datatype Expanded = Nodes(nodes: seq<DataNode>) | BadType

  /** What the router makes of parsed nodes; a rule without nodes is Invalid here. */
  function ExpandParsed(p: Parsed, targetDS: string, targetTable: string): Expanded {
    match p
    case Node(n) => Nodes([n])
    case Range(r) => Nodes(Expand(r, targetDS, targetTable))
    case _ => BadType
  }

  // ---------- the two expanders ----------

  lemma {:induction false} CrossSnoc(sources: seq<string>, s: string, tables: seq<string>)
    ensures Cross(sources + [s], tables) == Cross(sources, tables) + NodesOf(s, tables)
  {
    if sources == [] {
      assert [s][1..] == [];
    } else {
      CrossSnoc(sources[1..], s, tables);
      assert (sources + [s])[1..] == sources[1..] + [s];
      assert NodesOf(sources[0], tables) + (Cross(sources[1..], tables) + NodesOf(s, tables))
          == NodesOf(sources[0], tables) + Cross(sources[1..], tables) + NodesOf(s, tables);
    }
  }

  lemma NamesSnoc(p: string, low: int, high: int)
    requires low <= high + 1
    ensures Names(p, low, high + 1) == Names(p, low, high) + [Numbered(p, high + 1)]
  {
  }

  lemma Empties(r: DataNodeRange, tables: seq<string>)
    ensures Cross([], tables) == []
    ensures Names(r.dataSourcePattern, r.dsLow, r.dsLow - 1) == [] && Names("primary_ds", r.dsLow, r.dsLow - 1) == []
    ensures Names(r.tablePattern, r.tableLow, r.tableLow - 1) == []
  {
  }

  /** What a counting loop has covered when it ends. */
  lemma LoopEnd(p: string, low: int, high: int, x: int)
    requires x > high && (x == low || low <= x <= high + 1)
    ensures Names(p, low, x - 1) == Names(p, low, high)
  {
  }

  lemma RowSnoc(source: string, tables: seq<string>, t: string)
    ensures NodesOf(source, tables + [t]) == NodesOf(source, tables) + [DataNode(source, t)]
  {
  }

  method ExpandDataNodeRange(rng: DataNodeRange) returns (nodes: seq<DataNode>)
    ensures nodes == Cross(PhysicalSources(rng), AllTables(rng))
  {
    hide Cross, NodesOf, Numbered;
    Empties(rng, AllTables(rng));
    nodes := [];
    var p := if rng.isReadWriteSplitting then "primary_ds" else rng.dataSourcePattern;
    var ds := rng.dsLow;
    while ds <= rng.dsHigh
      invariant ds == rng.dsLow || rng.dsLow <= ds <= rng.dsHigh + 1
      invariant nodes == Cross(Names(p, rng.dsLow, ds - 1), AllTables(rng))
    {
      var dsName := Numbered(rng.dataSourcePattern, ds);
      if rng.isReadWriteSplitting {
        dsName := Numbered("primary_ds", ds);
      }
      ghost var before := nodes;
      if rng.tableLow == rng.tableHigh && rng.tableLow == 0 {
        nodes := nodes + [DataNode(dsName, rng.tablePattern)];
        RowSnoc(dsName, [], rng.tablePattern);
      } else {
        var t := rng.tableLow;
        while t <= rng.tableHigh
          invariant t == rng.tableLow || rng.tableLow <= t <= rng.tableHigh + 1
          invariant nodes == before + NodesOf(dsName, Names(rng.tablePattern, rng.tableLow, t - 1))
        {
          NamesSnoc(rng.tablePattern, rng.tableLow, t - 1);
          RowSnoc(dsName, Names(rng.tablePattern, rng.tableLow, t - 1), Numbered(rng.tablePattern, t));
          nodes := nodes + [DataNode(dsName, Numbered(rng.tablePattern, t))];
          t := t + 1;
        }
        LoopEnd(rng.tablePattern, rng.tableLow, rng.tableHigh, t);
      }
      assert nodes == before + NodesOf(dsName, AllTables(rng));
      NamesSnoc(p, rng.dsLow, ds - 1);
      CrossSnoc(Names(p, rng.dsLow, ds - 1), dsName, AllTables(rng));
      ds := ds + 1;
    }
    LoopEnd(p, rng.dsLow, rng.dsHigh, ds);
  }

  method ExpandDataNodes(nodes: Parsed, targetDS: string, targetTable: string) returns (result: Expanded)
    ensures result == ExpandParsed(nodes, targetDS, targetTable)
  {
    match nodes
    case Node(n) => result := Nodes([n]);
    case Range(rng) =>
      hide *;
      var list;
      if rng.tableLow == 0 && rng.tableHigh == 0 {
        list := FixedTableList(rng, targetDS);
      } else {
        var dsList := SourceList(rng, targetDS);
        list := TableLoop(rng, dsList, targetTable);
      }
      result := Nodes(list);
      RangeExpands(rng, targetDS, targetTable);
    case _ => result := BadType;
  }

  lemma RangeExpands(rng: DataNodeRange, targetDS: string, targetTable: string)
    ensures ExpandParsed(Range(rng), targetDS, targetTable)
         == Nodes(Cross(TargetSources(rng, targetDS), TargetTables(rng, targetTable)))
    ensures FixedTables(rng) <==> rng.tableLow == 0 && rng.tableHigh == 0
    ensures FixedTables(rng) ==> TargetTables(rng, targetTable) == [rng.tablePattern]
  {
  }

  /** The branch of a fixed table. */
  method FixedTableList(rng: DataNodeRange, targetDS: string) returns (list: seq<DataNode>)
    ensures list == Cross(TargetSources(rng, targetDS), [rng.tablePattern])
  {
    hide Cross, NodesOf, Numbered;
    Empties(rng, [rng.tablePattern]);
    list := [];
    if targetDS != "" {
      list := [DataNode(targetDS, rng.tablePattern)];
      CrossOne(targetDS, [rng.tablePattern]);
    } else if rng.dsLow == 0 && rng.dsHigh == 0 {
      list := [DataNode(rng.dataSourcePattern, rng.tablePattern)];
      CrossOne(rng.dataSourcePattern, [rng.tablePattern]);
    } else {
      var ds := rng.dsLow;
      while ds <= rng.dsHigh
        invariant ds == rng.dsLow || rng.dsLow <= ds <= rng.dsHigh + 1
        invariant list == Cross(Names(rng.dataSourcePattern, rng.dsLow, ds - 1), [rng.tablePattern])
      {
        NamesSnoc(rng.dataSourcePattern, rng.dsLow, ds - 1);
        CrossSnoc(Names(rng.dataSourcePattern, rng.dsLow, ds - 1), Numbered(rng.dataSourcePattern, ds),
                  [rng.tablePattern]);
        list := list + [DataNode(Numbered(rng.dataSourcePattern, ds), rng.tablePattern)];
        ds := ds + 1;
      }
      LoopEnd(rng.dataSourcePattern, rng.dsLow, rng.dsHigh, ds);
    }
  }

  /** The dsList of the table-sharding branch. */
  method SourceList(rng: DataNodeRange, targetDS: string) returns (dsList: seq<string>)
    ensures dsList == TargetSources(rng, targetDS)
  {
    dsList := [];
    if targetDS != "" {
      dsList := [targetDS];
    } else if rng.dsLow == 0 && rng.dsHigh == 0 {
      dsList := [rng.dataSourcePattern];
    } else {
      var ds := rng.dsLow;
      while ds <= rng.dsHigh
        invariant ds == rng.dsLow || rng.dsLow <= ds <= rng.dsHigh + 1
        invariant dsList == Names(rng.dataSourcePattern, rng.dsLow, ds - 1)
      {
        NamesSnoc(rng.dataSourcePattern, rng.dsLow, ds - 1);
        dsList := dsList + [Numbered(rng.dataSourcePattern, ds)];
        ds := ds + 1;
      }
      LoopEnd(rng.dataSourcePattern, rng.dsLow, rng.dsHigh, ds);
    }
  }

  method TableLoop(rng: DataNodeRange, dsList: seq<string>, targetTable: string) returns (list: seq<DataNode>)
    requires !FixedTables(rng)
    ensures list == Cross(dsList, TargetTables(rng, targetTable))
  {
    hide Cross, NodesOf, Numbered;
    Empties(rng, TargetTables(rng, targetTable));
    assert dsList[..0] == [];
    list := [];
    for k := 0 to |dsList|
      invariant list == Cross(dsList[..k], TargetTables(rng, targetTable))
    {
      var ds := dsList[k];
      ghost var before := list;
      if targetTable != "" {
        list := list + [DataNode(ds, targetTable)];
        RowSnoc(ds, [], targetTable);
      } else {
        var t := rng.tableLow;
        while t <= rng.tableHigh
          invariant t == rng.tableLow || rng.tableLow <= t <= rng.tableHigh + 1
          invariant list == before + NodesOf(ds, Names(rng.tablePattern, rng.tableLow, t - 1))
        {
          NamesSnoc(rng.tablePattern, rng.tableLow, t - 1);
          RowSnoc(ds, Names(rng.tablePattern, rng.tableLow, t - 1), Numbered(rng.tablePattern, t));
          list := list + [DataNode(ds, Numbered(rng.tablePattern, t))];
          t := t + 1;
        }
        LoopEnd(rng.tablePattern, rng.tableLow, rng.tableHigh, t);
      }
      assert list == before + NodesOf(ds, TargetTables(rng, targetTable));
      assert dsList[..k + 1] == dsList[..k] + [ds];
      CrossSnoc(dsList[..k], ds, TargetTables(rng, targetTable));
    }
    assert dsList[..|dsList|] == dsList;
  }

  lemma CrossOne(s: string, tables: seq<string>)
    ensures Cross([s], tables) == NodesOf(s, tables)
  {
    assert [s][1..] == [];
    assert NodesOf(s, tables) + [] == NodesOf(s, tables);
  }

  // ---------- the ordered product ----------

  lemma {:induction false} CrossLength(sources: seq<string>, tables: seq<string>)
    ensures |Cross(sources, tables)| == |sources| * |tables|
  {
    if sources != [] {
      CrossLength(sources[1..], tables);
      MulStep(|sources|, |tables|);
    }
  }

  lemma MulStep(m: nat, n: nat)
    requires m > 0
    ensures n + (m - 1) * n == m * n
  {
  }

  /** The node of source i and table j stands at i * |tables| + j. */
  lemma {:induction false} CrossAt(sources: seq<string>, tables: seq<string>, i: nat, j: nat)
    requires i < |sources| && j < |tables|
    ensures i * |tables| + j < |Cross(sources, tables)|
    ensures Cross(sources, tables)[i * |tables| + j] == DataNode(sources[i], tables[j])
  {
    if i > 0 {
      CrossAt(sources[1..], tables, i - 1, j);
      MulStep(i, |tables|);
    }
  }

  lemma CrossIn(sources: seq<string>, tables: seq<string>, n: DataNode)
    ensures n in Cross(sources, tables) <==> n.dataSource in sources && n.table in tables
  {
    if sources != [] {
      CrossIn(sources[1..], tables, n);
      InRow(sources[0], tables, n);
      assert n.dataSource in sources <==> n.dataSource == sources[0] || n.dataSource in sources[1..];
    }
  }

  lemma InRow(source: string, tables: seq<string>, n: DataNode)
    ensures n in NodesOf(source, tables) <==> n.dataSource == source && n.table in tables
  {
    if n.dataSource == source && n.table in tables {
      var k :| 0 <= k < |tables| && tables[k] == n.table;
      assert NodesOf(source, tables)[k] == n;
    }
  }

  ghost predicate Distinct<T>(s: seq<T>) {
    forall i, j :: 0 <= i < j < |s| ==> s[i] != s[j]
  }

  lemma NumberedInjective(p: string, i: int, j: int)
    requires Numbered(p, i) == Numbered(p, j)
    ensures i == j
  {
    assert Numbered(p, i)[|p| + 1..] == Itoa(i) && Numbered(p, j)[|p| + 1..] == Itoa(j);
    ItoaInjective(i, j);
  }

  lemma NamesDistinct(p: string, low: int, high: int)
    ensures Distinct(Names(p, low, high))
  {
    var names := Names(p, low, high);
    forall i, j | 0 <= i < j < |names| ensures names[i] != names[j] {
      if names[i] == names[j] { NumberedInjective(p, low + i, low + j); }
    }
  }

  lemma {:induction false} CrossDistinct(sources: seq<string>, tables: seq<string>)
    requires Distinct(sources) && Distinct(tables)
    ensures Distinct(Cross(sources, tables))
  {
    if sources != [] {
      var row, rest := NodesOf(sources[0], tables), Cross(sources[1..], tables);
      CrossDistinct(sources[1..], tables);
      forall i, j | 0 <= i < |row| && 0 <= j < |rest| ensures row[i] != rest[j] {
        CrossIn(sources[1..], tables, rest[j]);
        assert rest[j] in rest;
      }
    }
  }

  /** The broadcast of a two-range rule is the ordered product of its numbered names. */
  lemma TwoRangeProduct(r: DataNodeRange, e: seq<DataNode>, m: nat, w: nat, i: nat, j: nat, k: nat)
    requires !FixedSources(r) && !FixedTables(r) && m == r.dsHigh - r.dsLow + 1 && w == r.tableHigh - r.tableLow + 1
    requires e == Expand(r, "", "") && i < m && j < w && k == i * w + j
    ensures |e| == m * w && Distinct(e)
    ensures k < |e|
    ensures e[k] == DataNode(Numbered(r.dataSourcePattern, r.dsLow + i), Numbered(r.tablePattern, r.tableLow + j))
  {
    var ss, ts := Names(r.dataSourcePattern, r.dsLow, r.dsHigh), Names(r.tablePattern, r.tableLow, r.tableHigh);
    hide *;
    NoTargets(r);
    NamesDistinct(r.dataSourcePattern, r.dsLow, r.dsHigh);
    NamesDistinct(r.tablePattern, r.tableLow, r.tableHigh);
    ProductOf(ss, ts, m, w, i, j, k);
  }

  lemma ProductOf(ss: seq<string>, ts: seq<string>, m: nat, w: nat, i: nat, j: nat, k: nat)
    requires Distinct(ss) && Distinct(ts) && |ss| == m && |ts| == w && i < m && j < w && k == i * w + j
    ensures var e := Cross(ss, ts); |e| == m * w && Distinct(e) && k < |e| && e[k] == DataNode(ss[i], ts[j])
  {
    hide *;
    CrossLength(ss, ts);
    CrossDistinct(ss, ts);
    CrossAt(ss, ts, i, j);
  }

  lemma NoTargets(r: DataNodeRange)
    requires !FixedSources(r) && !FixedTables(r)
    ensures Expand(r, "", "") ==
      Cross(Names(r.dataSourcePattern, r.dsLow, r.dsHigh), Names(r.tablePattern, r.tableLow, r.tableHigh))
  {
  }

  /** Printing, parsing and expanding the two-range form. */
  lemma PrintParseExpand(p: string, a: nat, b: nat, t: string, c: nat, d: nat)
    requires Canonical(Both(p, a, b, t, c, d)) && (a, b) != (0, 0) && (c, d) != (0, 0)
    ensures ExpandParsed(Parse(Print(Both(p, a, b, t, c, d))), "", "") == Nodes(Cross(Names(p, a, b), Names(t, c, d)))
  {
    hide *;
    ParsePrint(Both(p, a, b, t, c, d));
    BothExpands(p, a, b, t, c, d);
  }

  lemma BothExpands(p: string, a: nat, b: nat, t: string, c: nat, d: nat)
    requires (a, b) != (0, 0) && (c, d) != (0, 0)
    ensures ExpandParsed(Meaning(Both(p, a, b, t, c, d)), "", "") == Nodes(Cross(Names(p, a, b), Names(t, c, d)))
  {
    hide Names, Cross;
    NoTargets(DataNodeRange(p, t, a, b, c, d, false));
  }

  // ---------- the two expanders agree, and when not ----------

  /** Whether the two expanders name the same sources. */
  predicate SameSources(r: DataNodeRange) {
    if r.isReadWriteSplitting then
      if FixedSources(r) then r.dataSourcePattern == "primary_ds_0"
      else r.dsLow > r.dsHigh || r.dataSourcePattern == "primary_ds"
    else !FixedSources(r)
  }

  lemma NumberedSame(p: string, q: string, i: int)
    requires Numbered(p, i) == Numbered(q, i)
    ensures p == q
  {
    assert |p| == |q|;
    assert Numbered(p, i)[..|p|] == p && Numbered(q, i)[..|q|] == q;
  }

  lemma SameSourcesIff(r: DataNodeRange)
    ensures PhysicalSources(r) == AllSources(r) <==> SameSources(r)
  {
    var p := if r.isReadWriteSplitting then "primary_ds" else r.dataSourcePattern;
    if FixedSources(r) {
      assert Itoa(0) == "0";
      assert Numbered(p, 0) == p + "_0";
      assert PhysicalSources(r) == [p + "_0"];
      assert |r.dataSourcePattern + "_0"| != |r.dataSourcePattern|;
      assert "primary_ds" + "_0" == "primary_ds_0";
    } else if r.dsLow <= r.dsHigh && PhysicalSources(r) == AllSources(r) {
      assert PhysicalSources(r)[0] == Numbered(p, r.dsLow);
      assert AllSources(r)[0] == Numbered(r.dataSourcePattern, r.dsLow);
      NumberedSame(p, r.dataSourcePattern, r.dsLow);
    }
  }

  lemma {:induction false} CrossInjective(a: seq<string>, b: seq<string>, tables: seq<string>)
    requires tables != [] && Cross(a, tables) == Cross(b, tables)
    ensures a == b
  {
    if a != [] && b != [] {
      assert Cross(a, tables)[0].dataSource == a[0] && Cross(b, tables)[0].dataSource == b[0];
      assert Cross(a, tables)[|tables|..] == Cross(a[1..], tables);
      assert Cross(b, tables)[|tables|..] == Cross(b[1..], tables);
      CrossInjective(a[1..], b[1..], tables);
      assert a == [a[0]] + a[1..] && b == [b[0]] + b[1..];
    }
  }

  lemma {:induction false} CrossNoTables(sources: seq<string>)
    ensures Cross(sources, []) == []
  {
    if sources != [] { CrossNoTables(sources[1..]); }
  }

  /** The parser's expander and the router's broadcast give the same list exactly when the
      table range is inverted (both lists are empty) or they name the same sources. Without
      read-write splitting that means: the data source range is not the sentinel [0,0]. */
  lemma ExpandersAgree(r: DataNodeRange)
    ensures Cross(PhysicalSources(r), AllTables(r)) == Expand(r, "", "")
      <==> r.tableLow > r.tableHigh || SameSources(r)
  {
    SameSourcesIff(r);
    if r.tableLow > r.tableHigh {
      assert AllTables(r) == [];
      CrossNoTables(PhysicalSources(r));
      CrossNoTables(AllSources(r));
    } else if Cross(PhysicalSources(r), AllTables(r)) == Cross(AllSources(r), AllTables(r)) {
      CrossInjective(PhysicalSources(r), AllSources(r), AllTables(r));
    }
  }
}
