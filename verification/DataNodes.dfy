/** actualDataNodes: parsing with Go's ordered patterns, printing the four canonical forms, and
    expanding a range into concrete data nodes. */
module DataNodes {
  import opened GoStrings
  import opened Regex

  datatype DataNode = DataNode(dataSource: string, table: string)

  datatype DataNodeRange = DataNodeRange(dataSourcePattern: string, tablePattern: string,
                                         dsLow: int, dsHigh: int, tableLow: int, tableHigh: int,
                                         isReadWriteSplitting: bool)

  /** Crash stands for the index panic of the pattern that asks for a group it does not have. */
  datatype Parsed = Node(node: DataNode) | Range(range: DataNodeRange) | Invalid | Crash

  // ---------- the patterns, in the order they are tried ----------

  /** \$\{(\d+)\.\.(\d+)\} followed by k, and its tails */
  function Braces(k: Re): Re {
    Lit("${", Low(k))
  }

  function Low(k: Re): Re {
    Mark(Plus(Digit, true, AfterLow(k)))
  }

  function AfterLow(k: Re): Re {
    Mark(Lit("..", High(k)))
  }

  function High(k: Re): Re {
    Mark(Plus(Digit, true, AfterHigh(k)))
  }

  function AfterHigh(k: Re): Re {
    Mark(Lit("}", k))
  }

  /** _? followed by k */
  function OptUnder(k: Re): Re {
    Or(One(Ch('_'), k), k)
  }

  /** (.+?) followed by k */
  function LazyName(k: Re): Re {
    Mark(Plus(ANY, false, Mark(k)))
  }

  /** ^(readwrite_ds_\$\{)(\d+)\.\.(\d+)\}\.(.+?)\.\$\{(\d+)\.\.(\d+)\}$ */
  function RwPattern(): Re {
    Mark(Lit("readwrite_ds_${", Mark(Mark(Plus(Digit, true,
    AfterLow(Lit(".", LazyName(Lit(".", Braces(End(Done)))))))))))
  }

  /** ^(.+?)_?\$\{(\d+)\.\.(\d+)\}\.(.+?)_?\$\{(\d+)\.\.(\d+)\}$ */
  function RangePattern(): Re {
    LazyName(OptUnder(Braces(Lit(".", TableRange()))))
  }

  /** (.+?)_?\$\{(\d+)\.\.(\d+)\}$ */
  function TableRange(): Re {
    LazyName(OptUnder(Braces(End(Done))))
  }

  /** ^(.+?)\.\$\{(\d+)\.\.(\d+)\}$ */
  function SimplePattern(): Re {
    LazyName(Lit(".", Braces(End(Done))))
  }

  /** ^(.+?)_?\$\{(\d+)\.\.(\d+)\}\.(.+)$ */
  function FixedTable(): Re {
    LazyName(OptUnder(Braces(Lit(".", Mark(Plus(ANY, true, Mark(End(Done))))))))
  }

  /** ^([^.]+)\.(.+?)_?\$\{(\d+)\.\.(\d+)\}$ */
  function FixedSource(): Re {
    Mark(Plus(Not('.'), true, Mark(Lit(".", TableRange()))))
  }

  /** ^(readwrite_ds_\d+)\.(.+)$ */
  function RwFixed(): Re {
    Mark(Lit("readwrite_ds_", Plus(Digit, true, Mark(Lit(".", Mark(Plus(ANY, true, Mark(End(Done)))))))))
  }

  /** The number in a group; Atoi's error is ignored. */
  function IntGroup(s: string, r: Result, g: nat): int {
    Atoi(Group(s, r, g)).value
  }

  function FromRw(s: string, r: Result): Parsed {
    Range(DataNodeRange("readwrite_ds_", Group(s, r, 4),
      IntGroup(s, r, 2), IntGroup(s, r, 3), IntGroup(s, r, 5), IntGroup(s, r, 6), true))
  }

  function FromBoth(s: string, r: Result): Parsed {
    Range(DataNodeRange(Group(s, r, 1), Group(s, r, 4),
      IntGroup(s, r, 2), IntGroup(s, r, 3), IntGroup(s, r, 5), IntGroup(s, r, 6), false))
  }

  function FromFixedTable(s: string, r: Result): Parsed {
    Range(DataNodeRange(Group(s, r, 1), Group(s, r, 4), IntGroup(s, r, 2), IntGroup(s, r, 3), 0, 0, false))
  }

  function FromFixedSource(s: string, r: Result): Parsed {
    Range(DataNodeRange(Group(s, r, 1), Group(s, r, 2), 0, 0, IntGroup(s, r, 3), IntGroup(s, r, 4), false))
  }

  function Parse(s: string): Parsed {
    var rw := Match(RwPattern(), s, 0);
    var both := Match(RangePattern(), s, 0);
    var fixedTable := Match(FixedTable(), s, 0);
    var fixedSource := Match(FixedSource(), s, 0);
    var rwFixed := Match(RwFixed(), s, 0);
    if rw.Ok? then FromRw(s, rw)
    else if both.Ok? then FromBoth(s, both)
    else if Match(SimplePattern(), s, 0).Ok? then Crash
    else if fixedTable.Ok? && Index(Group(s, fixedTable, 4), "${") < 0 then FromFixedTable(s, fixedTable)
    else if fixedSource.Ok? then FromFixedSource(s, fixedSource)
    else if rwFixed.Ok? then Node(DataNode(Group(s, rwFixed, 1), Group(s, rwFixed, 2)))
    else
      var dot := Index(s, ".");
      if dot >= 0 && Index(s[dot + 1..], ".") < 0 then Node(DataNode(s[..dot], s[dot + 1..])) else Invalid
  }

  // ---------- printing ----------

  predicate Name(p: string) {
    p != "" && forall i :: 0 <= i < |p| ==> p[i] !in ".${}\n"
  }

  predicate Bound(n: int) {
    0 <= n <= INT_MAX
  }

  function BracesText(a: nat, b: nat): string {
    BracesOf(Decimal(a), Decimal(b))
  }

  function BracesOf(low: string, high: string): (r: string)
    ensures |r| == |low| + |high| + 5
  {
    "${" + low + ".." + high + "}"
  }

  // ---------- matching a printed range ----------

  function Prepend(m: seq<nat>, r: Result): Result {
    match r case Fail => Fail case Ok(n) => Ok(m + n)
  }

  function BracesMarks(i: nat, a: nat, b: nat): (r: seq<nat>)
    ensures |r| == 4
  {
    var j := i + 2 + |Decimal(a)|;
    [i + 2, j, j + 2, j + 2 + |Decimal(b)|]
  }

  lemma BracesMatch(k: Re, s: string, i: nat, a: nat, b: nat)
    requires OccursAt(s, BracesText(a, b), i)
    ensures Match(Braces(k), s, i) == Prepend(BracesMarks(i, a, b), Match(k, s, i + |BracesText(a, b)|))
  {
    hide Match, Braces, Low, High, Decimal, BracesText, OccursAt, BracesMarks, AllDigits;
    var da, db := Decimal(a), Decimal(b);
    Pieces(s, i, a, b);
    BracesOpen(k, s, i);
    LowMatch(k, s, i + 2, da);
    HighMatch(k, s, i + 4 + |da|, db);
  }

  lemma Pieces(s: string, i: nat, a: nat, b: nat)
    requires OccursAt(s, BracesText(a, b), i)
    ensures var da, db := Decimal(a), Decimal(b);
      && OccursAt(s, "${", i) && OccursAt(s, da, i + 2) && OccursAt(s, "..", i + 2 + |da|)
      && OccursAt(s, db, i + 4 + |da|) && OccursAt(s, "}", i + 4 + |da| + |db|)
      && AllDigits(da) && AllDigits(db) && |BracesText(a, b)| == |da| + |db| + 5
      && BracesMarks(i, a, b) == [i + 2, i + 2 + |da|, i + 4 + |da|, i + 4 + |da| + |db|]
  {
    hide BracesOf, Decimal, OccursAt;
    Parts(s, i, Decimal(a), Decimal(b));
  }

  lemma BracesOpen(k: Re, s: string, i: nat)
    requires OccursAt(s, "${", i)
    ensures Match(Braces(k), s, i) == Match(Low(k), s, i + 2)
  {
    LitMatch("${", Low(k), s, i);
  }

  lemma LowMatch(k: Re, s: string, i: nat, d: string)
    requires AllDigits(d) && OccursAt(s, d, i) && OccursAt(s, "..", i + |d|)
    ensures Match(Low(k), s, i) == Note(i, Note(i + |d|, Match(High(k), s, i + |d| + 2)))
  {
    DigitsMatch(d, "..", High(k), s, i);
  }

  lemma HighMatch(k: Re, s: string, i: nat, d: string)
    requires AllDigits(d) && OccursAt(s, d, i) && OccursAt(s, "}", i + |d|)
    ensures Match(High(k), s, i) == Note(i, Note(i + |d|, Match(k, s, i + |d| + 1)))
  {
    DigitsMatch(d, "}", k, s, i);
  }

  /** Where the pieces of a printed range lie. */
  lemma Parts(s: string, i: nat, da: string, db: string)
    requires OccursAt(s, BracesOf(da, db), i)
    ensures OccursAt(s, "${", i) && OccursAt(s, da, i + 2) && OccursAt(s, "..", i + 2 + |da|)
    ensures OccursAt(s, db, i + 4 + |da|) && OccursAt(s, "}", i + 4 + |da| + |db|)
  {
    var t := BracesOf(da, db);
    assert t[0..2] == "${" && t[2..2 + |da|] == da && t[2 + |da|..4 + |da|] == ".."
        && t[4 + |da|..4 + |da| + |db|] == db && t[4 + |da| + |db|..] == "}";
    SubOccurs(s, t, i, 0, "${");
    SubOccurs(s, t, i, 2, da);
    SubOccurs(s, t, i, 2 + |da|, "..");
    SubOccurs(s, t, i, 4 + |da|, db);
    SubOccurs(s, t, i, 4 + |da| + |db|, "}");
  }

  /** (.+?)_? before a printed range: the name ends where the optional underscore begins. */
  lemma LazyNameMatch(k: Re, s: string, i: nat, p: string, a: nat, b: nat)
    requires Name(p) && OccursAt(s, p, i) && OccursAt(s, "_", i + |p|) && OccursAt(s, BracesText(a, b), i + |p| + 1)
    requires Match(k, s, i + |p| + 1 + |BracesText(a, b)|).Ok?
    ensures Match(LazyName(OptUnder(Braces(k))), s, i)
         == Prepend([i, i + |p|] + BracesMarks(i + |p| + 1, a, b), Match(k, s, i + |p| + 1 + |BracesText(a, b)|))
  {
    hide Match, Braces, OptUnder, BracesText, BracesMarks, OccursAt, Name, In;
    var j := i + |p|;
    var c := Mark(OptUnder(Braces(k)));
    UnderAt(s, j);
    NameStops(k, s, i, p);
    StarSkips(ANY, false, c, s, i + 1, j);
    NameEnd(k, s, j, a, b);
    NameStart(c, s, i);
    LazyStops(ANY, c, s, j);
    var rest := Match(k, s, j + 1 + |BracesText(a, b)|);
    calc {
      Match(LazyName(OptUnder(Braces(k))), s, i);
      Note(i, Match(c, s, j));
      Prepend([i], Prepend([j] + BracesMarks(j + 1, a, b), rest));
      { assert [i] + ([j] + BracesMarks(j + 1, a, b)) == [i, j] + BracesMarks(j + 1, a, b); }
      Prepend([i, j] + BracesMarks(j + 1, a, b), rest);
    }
  }

  lemma UnderAt(s: string, j: nat)
    requires OccursAt(s, "_", j)
    ensures j < |s| && s[j] == '_'
  {
    OccursChars(s, "_", j);
  }

  /** The end of the name: the underscore, then the range. */
  lemma NameEnd(k: Re, s: string, j: nat, a: nat, b: nat)
    requires OccursAt(s, "_", j) && OccursAt(s, BracesText(a, b), j + 1)
    requires Match(k, s, j + 1 + |BracesText(a, b)|).Ok?
    ensures Match(Mark(OptUnder(Braces(k))), s, j)
         == Prepend([j] + BracesMarks(j + 1, a, b), Match(k, s, j + 1 + |BracesText(a, b)|))
  {
    OccursChars(s, "_", j);
    assert s[j] == '_';
    BracesMatch(k, s, j + 1, a, b);
    UnderMatch(Braces(k), s, j);
    assert Match(Mark(OptUnder(Braces(k))), s, j) == Note(j, Match(OptUnder(Braces(k)), s, j));
  }

  lemma NameStart(c: Re, s: string, i: nat)
    requires i < |s| && In(ANY, s[i])
    ensures Match(Mark(Plus(ANY, false, c)), s, i) == Note(i, Match(Star(ANY, false, c), s, i + 1))
  {
  }

  lemma LazyStops(cls: Class, k: Re, s: string, j: nat)
    requires j <= |s| && Match(k, s, j).Ok?
    ensures Match(Star(cls, false, k), s, j) == Match(k, s, j)
  {
  }

  lemma UnderMatch(k: Re, s: string, j: nat)
    requires j < |s| && s[j] == '_' && Match(k, s, j + 1).Ok?
    ensures Match(OptUnder(k), s, j) == Match(k, s, j + 1)
  {
  }

  /** Inside a name, the optional underscore and the range cannot match, except at its end. */
  lemma NameStops(k: Re, s: string, i: nat, p: string)
    requires Name(p) && OccursAt(s, p, i) && i + |p| < |s| && s[i + |p|] != '$'
    ensures |p| > 0 && i < |s| && In(ANY, s[i])
    ensures forall q :: i + 1 <= q < i + |p| ==> In(ANY, s[q]) && Match(Mark(OptUnder(Braces(k))), s, q) == Fail
  {
    hide *;
    NameRunes(s, i, p);
    forall q | i + 1 <= q < i + |p| ensures Match(Mark(OptUnder(Braces(k))), s, q) == Fail {
      NoDollar(k, s, q);
      NoDollar(k, s, q + 1);
      UnderFails(Braces(k), s, q);
    }
  }

  lemma NameRunes(s: string, i: nat, p: string)
    requires Name(p) && OccursAt(s, p, i)
    ensures |p| > 0 && i + |p| <= |s|
    ensures forall q :: i <= q < i + |p| ==> In(ANY, s[q]) && s[q] != '$'
  {
    OccursChars(s, p, i);
    forall q | i <= q < i + |p| ensures In(ANY, s[q]) && s[q] != '$' {
      assert s[q] == p[q - i];
    }
  }

  lemma UnderFails(k: Re, s: string, q: nat)
    requires q < |s| && Match(k, s, q) == Fail && Match(k, s, q + 1) == Fail
    ensures Match(Mark(OptUnder(k)), s, q) == Fail
  {
    assert Match(One(Ch('_'), k), s, q) == Fail;
    assert Match(OptUnder(k), s, q) == Fail;
  }

  lemma NoDollar(k: Re, s: string, q: nat)
    requires q <= |s| && (q < |s| ==> s[q] != '$')
    ensures Match(Braces(k), s, q) == Fail
  {
    LitFails("${", Low(k), s, q);
  }

  // ---------- patterns that do not apply ----------

  lemma {:induction false} NeedsLit(t: string, k: Re, u: string)
    requires Needs(k, u)
    ensures Needs(Lit(t, k), u)
  {
    if t != "" {
      NeedsLit(t[1..], k, u);
    }
  }

  lemma NeedsBraces(k: Re, u: string)
    ensures Needs(Braces(k), "${")
    ensures Needs(k, u) ==> Needs(Braces(k), u)
  {
    StartsLit("${", Low(k));
    if Needs(k, u) {
      NeedsLit("}", k, u);
      assert Needs(AfterHigh(k), u);
      assert Needs(Star(Digit, true, AfterHigh(k)), u);
      assert Needs(Plus(Digit, true, AfterHigh(k)), u);
      assert Needs(High(k), u);
      NeedsLit("..", High(k), u);
      assert Needs(AfterLow(k), u);
      assert Needs(Star(Digit, true, AfterLow(k)), u);
      assert Needs(Plus(Digit, true, AfterLow(k)), u);
      assert Needs(Low(k), u);
      NeedsLit("${", Low(k), u);
    }
  }

  lemma NeedsLazyName(k: Re, u: string)
    requires Needs(k, u)
    ensures Needs(LazyName(k), u)
  {
    assert Needs(Mark(k), u);
    assert Needs(Star(ANY, false, Mark(k)), u);
    assert Needs(Plus(ANY, false, Mark(k)), u);
  }

  lemma NeedsUnder(k: Re, u: string)
    requires Needs(k, u)
    ensures Needs(OptUnder(k), u)
  {
    assert Needs(One(Ch('_'), k), u);
  }

  lemma SimpleNeeds()
    ensures Needs(SimplePattern(), ".${")
  {
    NeedsLazyName(Lit(".", Braces(End(Done))), ".${");
  }

  lemma RwNeeds()
    ensures Needs(RwPattern(), ".${")
  {
    hide Needs, Lit;
    SimpleNeeds();
    var k := Lit(".", SimplePattern());
    NeedsLit(".", SimplePattern(), ".${");
    RwHead(k);
  }

  lemma RwHead(k: Re)
    requires Needs(k, ".${")
    ensures Needs(Mark(Lit("readwrite_ds_${", Mark(Mark(Plus(Digit, true, AfterLow(k)))))), ".${")
  {
    hide Lit;
    NeedsLit("}", k, ".${");
    assert Needs(AfterHigh(k), ".${");
    assert Needs(Star(Digit, true, AfterHigh(k)), ".${");
    assert Needs(Plus(Digit, true, AfterHigh(k)), ".${");
    assert Needs(High(k), ".${");
    NeedsLit("..", High(k), ".${");
    assert Needs(AfterLow(k), ".${");
    assert Needs(Star(Digit, true, AfterLow(k)), ".${");
    assert Needs(Plus(Digit, true, AfterLow(k)), ".${");
    var m := Mark(Mark(Plus(Digit, true, AfterLow(k))));
    assert Needs(Mark(Plus(Digit, true, AfterLow(k))), ".${");
    assert Needs(m, ".${");
    NeedsLit("readwrite_ds_${", m, ".${");
  }

  lemma RangeNeeds()
    ensures Needs(TableRange(), "${") && Needs(RangePattern(), "${") && Needs(FixedTable(), "${")
    ensures Needs(FixedSource(), "${")
  {
    hide Needs;
    NeedsBraces(End(Done), "${");
    NeedsUnder(Braces(End(Done)), "${");
    NeedsLazyName(OptUnder(Braces(End(Done))), "${");
    FrontNeeds(Lit(".", TableRange()));
    FrontNeeds(Lit(".", Mark(Plus(ANY, true, Mark(End(Done))))));
    SourceNeeds();
  }

  lemma FrontNeeds(k: Re)
    ensures Needs(LazyName(OptUnder(Braces(k))), "${")
  {
    hide Needs;
    NeedsBraces(k, "${");
    NeedsUnder(Braces(k), "${");
    NeedsLazyName(OptUnder(Braces(k)), "${");
  }

  lemma SourceNeeds()
    requires Needs(TableRange(), "${")
    ensures Needs(FixedSource(), "${")
  {
    var k := Mark(Lit(".", TableRange()));
    NeedsLit(".", TableRange(), "${");
    assert Needs(k, "${");
    assert Needs(Star(Not('.'), true, k), "${");
    assert Needs(Plus(Not('.'), true, k), "${");
  }

  /** Every '$' follows an '_'. */
  predicate DollarsUnder(s: string) {
    forall j :: 0 <= j < |s| && s[j] == '$' ==> j > 0 && s[j - 1] == '_'
  }

  lemma DollarsJoin(u: string, v: string)
    requires DollarsUnder(u) && DollarsUnder(v)
    ensures DollarsUnder(u + v)
  {
    forall j | 0 <= j < |u + v| && (u + v)[j] == '$' ensures j > 0 && (u + v)[j - 1] == '_' {
      if j >= |u| { assert v[j - |u|] == '$'; }
    }
  }

  lemma NoDotDollar(s: string)
    requires DollarsUnder(s)
    ensures forall j: nat :: !OccursAt(s, ".${", j)
    ensures Match(RwPattern(), s, 0) == Fail && Match(SimplePattern(), s, 0) == Fail
  {
    forall j: nat ensures !OccursAt(s, ".${", j) {
      OccursChars(s, ".${", j);
      if j + 2 < |s| && s[j + 1] == '$' { assert s[j] == '_'; }
    }
    hide Needs, Match;
    RwNeeds();
    SimpleNeeds();
    NeedsFails(RwPattern(), ".${", s, 0);
    NeedsFails(SimplePattern(), ".${", s, 0);
  }

  // ---------- the four canonical forms ----------

  datatype Form =
    | Both(p: string, a: nat, b: nat, t: string, c: nat, d: nat)
    | Sources(p: string, a: nat, b: nat, t: string)
    | Tables(p: string, t: string, c: nat, d: nat)
    | Single(p: string, t: string)

  predicate Canonical(f: Form) {
    && Name(f.p) && Name(f.t)
    && (f.Both? || f.Sources? ==> Bound(f.a) && Bound(f.b))
    && (f.Both? || f.Tables? ==> Bound(f.c) && Bound(f.d))
  }

  function Ranged(p: string, a: nat, b: nat): string {
    p + ("_" + BracesText(a, b))
  }

  function Print(f: Form): string {
    match f
    case Both(p, a, b, t, c, d) => Ranged(p, a, b) + "." + Ranged(t, c, d)
    case Sources(p, a, b, t) => Ranged(p, a, b) + "." + t
    case Tables(p, t, c, d) => p + "." + Ranged(t, c, d)
    case Single(p, t) => p + "." + t
  }

  function Meaning(f: Form): Parsed {
    match f
    case Both(p, a, b, t, c, d) => Range(DataNodeRange(p, t, a, b, c, d, false))
    case Sources(p, a, b, t) => Range(DataNodeRange(p, t, a, b, 0, 0, false))
    case Tables(p, t, c, d) => Range(DataNodeRange(p, t, 0, 0, c, d, false))
    case Single(p, t) => Node(DataNode(p, t))
  }

  lemma NameDollars(p: string)
    requires Name(p)
    ensures DollarsUnder(p) && DollarsUnder(".")
  {
  }

  lemma RangedDollars(p: string, a: nat, b: nat)
    requires Name(p)
    ensures DollarsUnder(Ranged(p, a, b))
  {
    NameDollars(p);
    DollarsJoin(p, "_" + BracesText(a, b));
  }

  lemma PrintDollars(f: Form)
    requires Name(f.p) && Name(f.t)
    ensures DollarsUnder(Print(f))
  {
    hide DollarsUnder, Ranged, Name;
    NameDollars(f.p);
    NameDollars(f.t);
    var front := if f.Both? || f.Sources? then Ranged(f.p, f.a, f.b) else f.p;
    var back := if f.Both? || f.Tables? then Ranged(f.t, f.c, f.d) else f.t;
    if f.Both? || f.Sources? { RangedDollars(f.p, f.a, f.b); }
    if f.Both? || f.Tables? { RangedDollars(f.t, f.c, f.d); }
    DollarsJoin(front, ".");
    DollarsJoin(front + ".", back);
  }

  /** A ranged name at i lies where LazyNameMatch wants it. */
  lemma RangedAt(s: string, i: nat, p: string, a: nat, b: nat)
    requires OccursAt(s, Ranged(p, a, b), i)
    ensures OccursAt(s, p, i) && OccursAt(s, "_", i + |p|) && OccursAt(s, BracesText(a, b), i + |p| + 1)
    ensures |Ranged(p, a, b)| == |p| + 1 + |BracesText(a, b)|
  {
    hide BracesText;
    var r := Ranged(p, a, b);
    assert r[0..|p|] == p && r[|p|..|p| + 1] == "_" && r[|p| + 1..] == BracesText(a, b);
    SubOccurs(s, r, i, 0, p);
    SubOccurs(s, r, i, |p|, "_");
    SubOccurs(s, r, i, |p| + 1, BracesText(a, b));
  }

  lemma RangedMatch(k: Re, s: string, i: nat, p: string, a: nat, b: nat)
    requires Name(p) && OccursAt(s, Ranged(p, a, b), i) && Match(k, s, i + |Ranged(p, a, b)|).Ok?
    ensures Match(LazyName(OptUnder(Braces(k))), s, i)
         == Prepend([i, i + |p|] + BracesMarks(i + |p| + 1, a, b), Match(k, s, i + |Ranged(p, a, b)|))
  {
    hide Match, BracesText, BracesMarks, OccursAt, Name, LazyName, Braces;
    RangedAt(s, i, p, a, b);
    LazyNameMatch(k, s, i, p, a, b);
  }

  lemma EndMatch(s: string)
    ensures Match(End(Done), s, |s|) == Ok([|s|])
  {
  }

  lemma NumberGroup(s: string, r: Result, g: nat, i: nat, n: nat)
    requires r.Ok? && 1 <= g && 2 * g <= |r.marks| && r.marks[2 * g - 2] == i && r.marks[2 * g - 1] == i + |Decimal(n)|
    requires OccursAt(s, Decimal(n), i) && Bound(n)
    ensures IntGroup(s, r, g) == n
  {
    GroupIs(s, r, g, i, Decimal(n));
    AtoiItoa(n);
    hide Atoi, Decimal, Group;
  }

  /** What six marks from k on say when they come from a ranged name at i. */
  lemma RangedGroups(s: string, r: Result, g: nat, i: nat, p: string, a: nat, b: nat)
    requires Bound(a) && Bound(b) && OccursAt(s, Ranged(p, a, b), i)
    requires r.Ok? && 1 <= g && 2 * g + 4 <= |r.marks|
    requires r.marks[2 * g - 2..2 * g + 4] == [i, i + |p|] + BracesMarks(i + |p| + 1, a, b)
    ensures Group(s, r, g) == p && IntGroup(s, r, g + 1) == a && IntGroup(s, r, g + 2) == b
  {
    hide Atoi, Decimal, BracesText, AllDigits, OccursAt, Group, IntGroup;
    RangedAt(s, i, p, a, b);
    var j := i + |p| + 1;
    Pieces(s, j, a, b);
    var m := r.marks[2 * g - 2..2 * g + 4];
    assert forall k :: 0 <= k < 6 ==> r.marks[2 * g - 2 + k] == m[k];
    assert m == [i, i + |p|, j + 2, j + 2 + |Decimal(a)|, j + 4 + |Decimal(a)|, j + 4 + |Decimal(a)| + |Decimal(b)|];
    GroupIs(s, r, g, i, p);
    NumberGroup(s, r, g + 1, j + 2, a);
    NumberGroup(s, r, g + 2, j + 4 + |Decimal(a)|, b);
  }

  lemma DotThen(k: Re, s: string, i: nat)
    requires OccursAt(s, ".", i)
    ensures Match(Lit(".", k), s, i) == Match(k, s, i + 1)
  {
    LitMatch(".", k, s, i);
  }

  lemma BothMarks(p: string, a: nat, b: nat, t: string, c: nat, d: nat, x: string, z: string, s: string)
    requires Name(p) && Name(t) && x == Ranged(p, a, b) && z == Ranged(t, c, d) && s == x + "." + z
    ensures Match(RangePattern(), s, 0) == Prepend([0, |p|] + BracesMarks(|p| + 1, a, b),
      Prepend([|x| + 1, |x| + 1 + |t|] + BracesMarks(|x| + 1 + |t| + 1, c, d), Ok([|s|])))
  {
    hide *;
    ThreeParts(x, ".", z);
    TailMatch(s, |x| + 1, t, c, d);
    DotThen(TableRange(), s, |x|);
    PrependOk([|x| + 1, |x| + 1 + |t|] + BracesMarks(|x| + 1 + |t| + 1, c, d), [|s|]);
    RangedMatch(Lit(".", TableRange()), s, 0, p, a, b);
    RangeUnfolds();
  }

  lemma RangeUnfolds()
    ensures RangePattern() == LazyName(OptUnder(Braces(Lit(".", TableRange()))))
  {
  }

  lemma PrependOk(m: seq<nat>, n: seq<nat>)
    ensures Prepend(m, Ok(n)) == Ok(m + n)
  {
  }

  /** A ranged table name at the end of s. */
  lemma TailMatch(s: string, i: nat, t: string, c: nat, d: nat)
    requires Name(t) && OccursAt(s, Ranged(t, c, d), i) && |s| == i + |Ranged(t, c, d)|
    ensures Match(TableRange(), s, i) == Prepend([i, i + |t|] + BracesMarks(i + |t| + 1, c, d), Ok([|s|]))
  {
    EndMatch(s);
    RangedMatch(End(Done), s, i, t, c, d);
    hide Match, BracesMarks, Ranged, OccursAt, Name, BracesText;
  }

  lemma ParseBoth(s: string)
    requires Match(RwPattern(), s, 0) == Fail && Match(RangePattern(), s, 0).Ok?
    ensures Parse(s) == FromBoth(s, Match(RangePattern(), s, 0))
  {
    hide Match, LazyName, Lit, Braces, OptUnder, Group, IntGroup;
  }

  lemma BothParse(p: string, a: nat, b: nat, t: string, c: nat, d: nat)
    requires Canonical(Both(p, a, b, t, c, d))
    ensures Parse(Print(Both(p, a, b, t, c, d))) == Meaning(Both(p, a, b, t, c, d))
  {
    var f := Both(p, a, b, t, c, d);
    PrintDollars(f);
    hide Ranged, Name, DollarsUnder, Bound, Parse;
    BothValues(p, a, b, t, c, d, Ranged(p, a, b), Ranged(t, c, d), Print(f));
  }

  lemma BothValues(p: string, a: nat, b: nat, t: string, c: nat, d: nat, x: string, z: string, s: string)
    requires Name(p) && Name(t) && Bound(a) && Bound(b) && Bound(c) && Bound(d)
    requires x == Ranged(p, a, b) && z == Ranged(t, c, d) && s == x + "." + z && DollarsUnder(s)
    ensures Parse(s) == Range(DataNodeRange(p, t, a, b, c, d, false))
  {
    hide *;
    var r := Match(RangePattern(), s, 0);
    BothMarks(p, a, b, t, c, d, x, z, s);
    ThreeParts(x, ".", z);
    NoDotDollar(s);
    BothFlat(p, a, b, t, c, d, x, z, s, r);
    ParseBoth(s);
    RangedGroups(s, r, 1, 0, p, a, b);
    RangedGroups(s, r, 4, |x| + 1, t, c, d);
    BothRead(p, a, b, t, c, d, s, r);
  }

  lemma BothRead(p: string, a: nat, b: nat, t: string, c: nat, d: nat, s: string, r: Result)
    requires Group(s, r, 1) == p && IntGroup(s, r, 2) == a && IntGroup(s, r, 3) == b
    requires Group(s, r, 4) == t && IntGroup(s, r, 5) == c && IntGroup(s, r, 6) == d
    ensures FromBoth(s, r) == Range(DataNodeRange(p, t, a, b, c, d, false))
  {
    hide Group, IntGroup;
  }

  lemma BothFlat(p: string, a: nat, b: nat, t: string, c: nat, d: nat, x: string, z: string, s: string, r: Result)
    requires r == Prepend([0, |p|] + BracesMarks(|p| + 1, a, b),
      Prepend([|x| + 1, |x| + 1 + |t|] + BracesMarks(|x| + 1 + |t| + 1, c, d), Ok([|s|])))
    ensures r.Ok? && |r.marks| == 13
    ensures r.marks[0..6] == [0, |p|] + BracesMarks(|p| + 1, a, b)
    ensures r.marks[6..12] == [|x| + 1, |x| + 1 + |t|] + BracesMarks(|x| + 1 + |t| + 1, c, d)
  {
    hide BracesMarks;
  }


  // ---------- the other three forms ----------

  /** All of the remaining text: (.+)$ */
  lemma RestMatch(s: string, i: nat)
    requires i < |s| && forall q :: i <= q < |s| ==> s[q] != '\n'
    ensures Match(Mark(Plus(ANY, true, Mark(End(Done)))), s, i) == Ok([i, |s|, |s|])
  {
    var k := Mark(End(Done));
    StarSkips(ANY, true, k, s, i + 1, |s|);
    StarEnds(ANY, true, k, s, |s|);
    EndMatch(s);
    assert Match(k, s, |s|) == Ok([|s|, |s|]);
  }

  /** A range pattern in front cannot match when what follows the only range cannot. */
  lemma FrontFails(k: Re, s: string, x: nat, a: nat, b: nat)
    requires OccursAt(s, BracesText(a, b), x) && Match(k, s, x + |BracesText(a, b)|) == Fail
    requires forall q :: 0 <= q < |s| && q != x ==> s[q] != '$'
    ensures Match(LazyName(OptUnder(Braces(k))), s, 0) == Fail
  {
    BracesMatch(k, s, x, a, b);
    forall q | 0 <= q <= |s| ensures Match(Braces(k), s, q) == Fail {
      if q != x { NoDollar(k, s, q); }
    }
    hide Braces, BracesText;
    UnderNever(Braces(k), s);
    if |s| > 0 {
      StarFails(ANY, false, Mark(OptUnder(Braces(k))), s, 1);
    }
  }

  lemma UnderNever(k: Re, s: string)
    requires forall q :: 0 <= q <= |s| ==> Match(k, s, q) == Fail
    ensures forall q :: 0 <= q <= |s| ==> Match(Mark(OptUnder(k)), s, q) == Fail
  {
    forall q | 0 <= q <= |s| ensures Match(Mark(OptUnder(k)), s, q) == Fail {
      assert Match(One(Ch('_'), k), s, q) == Fail;
      assert Match(OptUnder(k), s, q) == Fail;
    }
  }

  /** Where the '$' of a printed range is, and that there is no other. */
  lemma OneDollar(u: string, a: nat, b: nat, v: string)
    requires '$' !in u && '$' !in v
    ensures forall q :: 0 <= q < |u + BracesText(a, b) + v| && q != |u| ==> (u + BracesText(a, b) + v)[q] != '$'
  {
    var t := BracesText(a, b);
    var s := u + t + v;
    forall q | 0 <= q < |s| && q != |u| ensures s[q] != '$' {
      if |u| < q < |u| + |t| { assert s[q] == t[q - |u|]; }
    }
  }

  lemma FixedTableUnfolds()
    ensures FixedTable() == LazyName(OptUnder(Braces(Lit(".", Mark(Plus(ANY, true, Mark(End(Done))))))))
    ensures FixedSource() == Mark(Plus(Not('.'), true, Mark(Lit(".", TableRange()))))
  {
  }

  lemma SourcesMarks(p: string, a: nat, b: nat, t: string, x: string, s: string)
    requires Name(p) && Name(t) && x == Ranged(p, a, b) && s == x + "." + t
    ensures Match(FixedTable(), s, 0) == Prepend([0, |p|] + BracesMarks(|p| + 1, a, b), Ok([|x| + 1, |s|, |s|]))
  {
    hide *;
    ThreeParts(x, ".", t);
    NameAt(s, |x| + 1, t);
    RestMatch(s, |x| + 1);
    DotThen(Mark(Plus(ANY, true, Mark(End(Done)))), s, |x|);
    RangedMatch(Lit(".", Mark(Plus(ANY, true, Mark(End(Done))))), s, 0, p, a, b);
    FixedTableUnfolds();
  }

  lemma NameAt(s: string, i: nat, t: string)
    requires Name(t) && OccursAt(s, t, i)
    ensures |t| > 0 && i < |s|
    ensures forall q :: i <= q < i + |t| ==> s[q] != '\n' && s[q] != '.' && s[q] != '$'
  {
    OccursChars(s, t, i);
    forall q | i <= q < i + |t| ensures s[q] != '\n' && s[q] != '.' && s[q] != '$' {
      assert s[q] == t[q - i];
    }
  }

  /** With a fixed table the two-range pattern fails: no second range follows. */
  lemma SourcesNoRange(p: string, a: nat, b: nat, t: string, s: string)
    requires Name(p) && Name(t) && s == Ranged(p, a, b) + "." + t
    ensures Match(RangePattern(), s, 0) == Fail
  {
    var u, br := p + "_", BracesText(a, b);
    var v := "." + t;
    assert s == u + br + v;
    assert '$' !in u && '$' !in v;
    hide *;
    OneDollar(u, a, b, v);
    ThreeParts(u, br, v);
    NoRangeAfter(u, br, t, s);
    FrontFails(Lit(".", TableRange()), s, |u|, a, b);
    RangeUnfolds();
  }

  lemma NoRangeAfter(u: string, br: string, t: string, s: string)
    requires Name(t) && s == u + br + ("." + t)
    ensures Match(Lit(".", TableRange()), s, |u| + |br|) == Fail
  {
    hide *;
    var x := |u| + |br|;
    DotTail(u + br, t, s);
    DotThen(TableRange(), s, x);
    RangeNeeds();
    DotAt(s, x);
    NeedsFails(TableRange(), "${", s, x + 1);
  }

  lemma DotTail(u: string, t: string, s: string)
    requires Name(t) && s == u + ("." + t)
    ensures OccursAt(s, ".", |u|) && forall j: nat :: |u| + 1 <= j ==> !OccursAt(s, "${", j)
  {
    assert s[|u|..|u| + 1] == ".";
    forall j: nat | |u| + 1 <= j ensures !OccursAt(s, "${", j) {
      OccursChars(s, "${", j);
      assert j < |s| ==> s[j] == t[j - |u| - 1];
    }
  }

  lemma SourcesParse(p: string, a: nat, b: nat, t: string, x: string, s: string)
    requires Name(p) && Name(t) && Bound(a) && Bound(b)
    requires x == Ranged(p, a, b) && s == x + "." + t && DollarsUnder(s)
    ensures Parse(s) == Range(DataNodeRange(p, t, a, b, 0, 0, false))
  {
    hide *;
    var r := Match(FixedTable(), s, 0);
    SourcesMarks(p, a, b, t, x, s);
    SourcesNoRange(p, a, b, t, s);
    NoDotDollar(s);
    ThreeParts(x, ".", t);
    SourcesFlat(p, a, b, x, s, r);
    RangedGroups(s, r, 1, 0, p, a, b);
    GroupIs(s, r, 4, |x| + 1, t);
    NoRangeIn(t);
    ParseFixedTable(s);
    SourcesRead(p, a, b, t, s, r);
  }

  lemma NoRangeIn(t: string)
    requires Name(t)
    ensures Index(t, "${") < 0 && Index(t, ".") < 0
  {
    forall j: nat ensures !OccursAt(t, "${", j) && !OccursAt(t, ".", j) {
      OccursChars(t, "${", j);
      OccursChars(t, ".", j);
      assert j < |t| ==> t[j] != '$' && t[j] != '.';
    }
  }

  lemma SourcesFlat(p: string, a: nat, b: nat, x: string, s: string, r: Result)
    requires r == Prepend([0, |p|] + BracesMarks(|p| + 1, a, b), Ok([|x| + 1, |s|, |s|]))
    ensures r.Ok? && |r.marks| == 9 && r.marks[0..6] == [0, |p|] + BracesMarks(|p| + 1, a, b)
    ensures r.marks[6] == |x| + 1 && r.marks[7] == |s|
  {
    hide BracesMarks;
  }

  lemma ParseFixedTable(s: string)
    requires Match(RwPattern(), s, 0) == Fail && Match(RangePattern(), s, 0) == Fail
    requires Match(SimplePattern(), s, 0) == Fail
    requires Match(FixedTable(), s, 0).Ok? && Index(Group(s, Match(FixedTable(), s, 0), 4), "${") < 0
    ensures Parse(s) == FromFixedTable(s, Match(FixedTable(), s, 0))
  {
    hide Match, RwPattern, RangePattern, SimplePattern, FixedTable, FixedSource, RwFixed, Index, Group;
  }

  lemma SourcesRead(p: string, a: nat, b: nat, t: string, s: string, r: Result)
    requires Group(s, r, 1) == p && IntGroup(s, r, 2) == a && IntGroup(s, r, 3) == b && Group(s, r, 4) == t
    ensures FromFixedTable(s, r) == Range(DataNodeRange(p, t, a, b, 0, 0, false))
  {
    hide Group, IntGroup;
  }

  // A fixed data source with a table range.

  lemma TablesMarks(p: string, t: string, c: nat, d: nat, z: string, s: string)
    requires Name(p) && Name(t) && z == Ranged(t, c, d) && s == p + "." + z
    ensures Match(FixedSource(), s, 0) ==
      Prepend([0, |p|, |p| + 1, |p| + 1 + |t|] + BracesMarks(|p| + 1 + |t| + 1, c, d), Ok([|s|]))
  {
    hide *;
    ThreeParts(p, ".", z);
    TailMatch(s, |p| + 1, t, c, d);
    DotThen(TableRange(), s, |p|);
    NameAt(s, 0, p);
    DotHead(TableRange());
    DotAt(s, |p|);
    UpToDot(Lit(".", TableRange()), s, |p|);
    FixedTableUnfolds();
    Flatten(0, |p|, [|p| + 1, |p| + 1 + |t|], BracesMarks(|p| + 1 + |t| + 1, c, d), |s|);
  }

  lemma DotHead(k: Re)
    ensures Lit(".", k) == One(Ch('.'), k)
  {
    assert "."[1..] == "";
  }

  lemma DotAt(s: string, i: nat)
    requires OccursAt(s, ".", i)
    ensures i < |s| && s[i] == '.'
  {
    OccursChars(s, ".", i);
  }

  lemma Flatten(i: nat, j: nat, u: seq<nat>, v: seq<nat>, e: nat)
    requires |u| == 2
    ensures Note(i, Note(j, Prepend(u + v, Ok([e])))) == Prepend([i, j, u[0], u[1]] + v, Ok([e]))
  {
  }

  /** ([^.]+) up to the first dot, when the rest begins with a dot. */
  lemma UpToDot(k: Re, s: string, n: nat)
    requires 0 < n < |s| && (forall q :: 0 <= q < n ==> s[q] != '.') && s[n] == '.'
    requires k.One? && k.cls == Ch('.')
    ensures Match(Mark(Plus(Not('.'), true, Mark(k))), s, 0) == Note(0, Note(n, Match(k, s, n)))
  {
    forall q | 0 <= q < n ensures Match(Mark(k), s, q) == Fail {
    }
    StarSkips(Not('.'), true, Mark(k), s, 1, n);
    StarEnds(Not('.'), true, Mark(k), s, n);
  }

  lemma TablesNoRange(p: string, t: string, c: nat, d: nat, s: string, k: Re)
    requires Name(p) && Name(t) && s == p + "." + Ranged(t, c, d)
    ensures Match(LazyName(OptUnder(Braces(Lit(".", k)))), s, 0) == Fail
  {
    var u, br := p + "." + t + "_", BracesText(c, d);
    assert s == u + br + "";
    assert '$' !in u;
    hide *;
    OneDollar(u, c, d, "");
    ThreeParts(u, br, "");
    FrontFails(Lit(".", k), s, |u|, c, d);
  }

  lemma TablesParse(p: string, t: string, c: nat, d: nat, z: string, s: string)
    requires Name(p) && Name(t) && Bound(c) && Bound(d)
    requires z == Ranged(t, c, d) && s == p + "." + z && DollarsUnder(s)
    ensures Parse(s) == Range(DataNodeRange(p, t, 0, 0, c, d, false))
  {
    hide *;
    var r := Match(FixedSource(), s, 0);
    TablesMarks(p, t, c, d, z, s);
    TablesNoRange(p, t, c, d, s, TableRange());
    TablesNoRange(p, t, c, d, s, Mark(Plus(ANY, true, Mark(End(Done)))));
    RangeUnfolds();
    FixedTableUnfolds();
    NoDotDollar(s);
    ThreeParts(p, ".", z);
    TablesFlat(p, t, c, d, s, r);
    GroupIs(s, r, 1, 0, p);
    RangedGroups(s, r, 2, |p| + 1, t, c, d);
    ParseFixedSource(s);
    TablesRead(p, t, c, d, s, r);
  }

  lemma TablesFlat(p: string, t: string, c: nat, d: nat, s: string, r: Result)
    requires r == Prepend([0, |p|, |p| + 1, |p| + 1 + |t|] + BracesMarks(|p| + 1 + |t| + 1, c, d), Ok([|s|]))
    ensures r.Ok? && |r.marks| == 9 && r.marks[0] == 0 && r.marks[1] == |p|
    ensures r.marks[2..8] == [|p| + 1, |p| + 1 + |t|] + BracesMarks(|p| + 1 + |t| + 1, c, d)
  {
    hide BracesMarks;
  }

  lemma ParseFixedSource(s: string)
    requires Match(RwPattern(), s, 0) == Fail && Match(RangePattern(), s, 0) == Fail
    requires Match(SimplePattern(), s, 0) == Fail
    requires Match(FixedTable(), s, 0) == Fail && Match(FixedSource(), s, 0).Ok?
    ensures Parse(s) == FromFixedSource(s, Match(FixedSource(), s, 0))
  {
    hide Match, RwPattern, RangePattern, SimplePattern, FixedTable, FixedSource, RwFixed, Index, Group;
  }

  lemma TablesRead(p: string, t: string, c: nat, d: nat, s: string, r: Result)
    requires Group(s, r, 1) == p && Group(s, r, 2) == t && IntGroup(s, r, 3) == c && IntGroup(s, r, 4) == d
    ensures FromFixedSource(s, r) == Range(DataNodeRange(p, t, 0, 0, c, d, false))
  {
    hide Group, IntGroup;
  }

  // A single node: the patterns with braces fail, and the read-write form gives the same split.

  lemma SingleFails(s: string)
    requires '$' !in s
    ensures Match(RwPattern(), s, 0) == Fail && Match(RangePattern(), s, 0) == Fail
    ensures Match(SimplePattern(), s, 0) == Fail
    ensures Match(FixedTable(), s, 0) == Fail && Match(FixedSource(), s, 0) == Fail
  {
    assert DollarsUnder(s);
    NoOpening(s);
    hide *;
    NoDotDollar(s);
    RangeNeeds();
    NeedsFails(RangePattern(), "${", s, 0);
    NeedsFails(FixedTable(), "${", s, 0);
    NeedsFails(FixedSource(), "${", s, 0);
  }

  /** A star whose rest can only match at x either fails or is the rest's match at x. */
  lemma {:induction false} StarOnly(cls: Class, greedy: bool, k: Re, s: string, i: nat, x: nat)
    requires i <= |s| && x <= |s| && forall q :: i <= q <= |s| && q != x ==> Match(k, s, q) == Fail
    ensures Match(Star(cls, greedy, k), s, i) == Fail || Match(Star(cls, greedy, k), s, i) == Match(k, s, x)
    decreases |s| - i
  {
    if i < |s| {
      StarOnly(cls, greedy, k, s, i + 1, x);
    }
  }

  lemma RwFixedUnfolds()
    ensures RwFixed() ==
      Mark(Lit("readwrite_ds_", Plus(Digit, true, Mark(Lit(".", Mark(Plus(ANY, true, Mark(End(Done)))))))))
  {
  }

  lemma NoOpening(s: string)
    requires '$' !in s
    ensures forall j: nat :: !OccursAt(s, "${", j)
  {
    forall j: nat ensures !OccursAt(s, "${", j) {
      OccursChars(s, "${", j);
      assert j < |s| ==> s[j] != '$';
    }
  }

  /** .(.+)$ matches only at a dot. */
  lemma DotRestFails(k: Re, s: string, x: nat)
    requires forall q :: 0 <= q < |s| && q != x ==> s[q] != '.'
    ensures forall q :: 0 <= q <= |s| && q != x ==> Match(Mark(Lit(".", k)), s, q) == Fail
  {
    forall q | 0 <= q <= |s| && q != x ensures Match(Mark(Lit(".", k)), s, q) == Fail {
      hide Lit;
      LitFails(".", k, s, q);
    }
  }

  lemma OneDot(p: string, t: string, s: string)
    requires Name(p) && Name(t) && s == p + "." + t
    ensures forall q :: 0 <= q < |s| && q != |p| ==> s[q] != '.' && s[q] != '$'
    ensures '$' !in s
  {
    forall q | 0 <= q < |s| && q != |p| ensures s[q] != '.' && s[q] != '$' {
      assert s[q] == if q < |p| then p[q] else t[q - |p| - 1];
    }
  }

  lemma RwFixedMatch(p: string, t: string, s: string)
    requires Name(p) && Name(t) && s == p + "." + t
    ensures Match(RwFixed(), s, 0) == Fail || Match(RwFixed(), s, 0) == Ok([0, |p|, |p| + 1, |s|, |s|])
  {
    hide *;
    var rest := Mark(Plus(ANY, true, Mark(End(Done))));
    OneDot(p, t, s);
    DotRestFails(rest, s, |p|);
    ThreeParts(p, ".", t);
    NameAt(s, |p| + 1, t);
    RestMatch(s, |p| + 1);
    DotThen(rest, s, |p|);
    MarkIs(Lit(".", rest), s, |p|, [|p| + 1, |s|, |s|]);
    RwFixedSteps(Mark(Lit(".", rest)), s, |p|, Ok([|p|] + [|p| + 1, |s|, |s|]));
    NoteOk(0, [|p|] + [|p| + 1, |s|, |s|]);
    RwFixedUnfolds();
  }

  lemma NoteOk(i: nat, m: seq<nat>)
    ensures Note(i, Ok(m)) == Ok([i] + m)
  {
  }

  lemma MarkIs(k: Re, s: string, i: nat, m: seq<nat>)
    requires i <= |s| && Match(k, s, i) == Ok(m)
    ensures Match(Mark(k), s, i) == Ok([i] + m)
  {
  }

  lemma RwFixedSteps(k: Re, s: string, x: nat, r: Result)
    requires x <= |s| && (Match(k, s, x) == r && forall q :: 0 <= q <= |s| && q != x ==> Match(k, s, q) == Fail)
    ensures Match(Mark(Lit("readwrite_ds_", Plus(Digit, true, k))), s, 0) == Fail
         || Match(Mark(Lit("readwrite_ds_", Plus(Digit, true, k))), s, 0) == Note(0, r)
  {
    hide Lit;
    LitMatch("readwrite_ds_", Plus(Digit, true, k), s, 0);
    if OccursAt(s, "readwrite_ds_", 0) && 13 < |s| {
      StarOnly(Digit, true, k, s, 14, x);
    }
  }

  /** The last resort splits at the only dot. */
  lemma SplitAtDot(p: string, t: string, s: string)
    requires Name(p) && Name(t) && s == p + "." + t
    ensures Index(s, ".") == |p| && s[..|p|] == p && s[|p| + 1..] == t && Index(t, ".") < 0
  {
    NoRangeIn(t);
    OneDot(p, t, s);
    assert OccursAt(s, ".", |p|);
    forall j | 0 <= j < |p| ensures !OccursAt(s, ".", j) {
      OccursChars(s, ".", j);
    }
    IndexIs(s, ".", |p|);
  }

  lemma ParseSingle(s: string, p: string, t: string)
    requires Match(RwPattern(), s, 0) == Fail && Match(RangePattern(), s, 0) == Fail
    requires Match(SimplePattern(), s, 0) == Fail
    requires Match(FixedTable(), s, 0) == Fail && Match(FixedSource(), s, 0) == Fail
    requires var r := Match(RwFixed(), s, 0); r.Ok? ==> Group(s, r, 1) == p && Group(s, r, 2) == t
    requires Index(s, ".") == |p| && |p| < |s| && s[..|p|] == p && s[|p| + 1..] == t && Index(t, ".") < 0
    ensures Parse(s) == Node(DataNode(p, t))
  {
    hide Match, RwPattern, RangePattern, SimplePattern, FixedTable, FixedSource, RwFixed, Index, Group;
  }

  lemma SingleParse(p: string, t: string, s: string)
    requires Name(p) && Name(t) && s == p + "." + t
    ensures Parse(s) == Node(DataNode(p, t))
  {
    hide *;
    OneDot(p, t, s);
    SingleFails(s);
    SplitAtDot(p, t, s);
    RwFixedMatch(p, t, s);
    ThreeParts(p, ".", t);
    var r := Match(RwFixed(), s, 0);
    if r.Ok? {
      GroupIs(s, r, 1, 0, p);
      GroupIs(s, r, 2, |p| + 1, t);
    }
    ParseSingle(s, p, t);
  }

  /** Parsing inverts printing: the ordered lazy patterns pick the right form and give back its
      names and bounds. */
  lemma ParsePrint(f: Form)
    requires Canonical(f)
    ensures Parse(Print(f)) == Meaning(f)
  {
    PrintDollars(f);
    hide Parse, Ranged, Name, Bound, DollarsUnder;
    match f
    case Both(p, a, b, t, c, d) => BothParse(p, a, b, t, c, d);
    case Sources(p, a, b, t) => SourcesParse(p, a, b, t, Ranged(p, a, b), Print(f));
    case Tables(p, t, c, d) => TablesParse(p, t, c, d, Ranged(t, c, d), Print(f));
    case Single(p, t) => SingleParse(p, t, Print(f));
  }

  // ---------- the texts that cannot be parsed ----------

  predicate Line(p: string) {
    p != "" && '\n' !in p
  }

  /** p.${x..y}: the simple pattern matches it and then asks for a fourth group. */
  predicate BareIs(s: string, p: string, x: string, y: string) {
    Line(p) && AllDigits(x) && AllDigits(y) && s == p + "." + BracesOf(x, y)
  }

  ghost predicate Bare(s: string) {
    exists p, x, y :: BareIs(s, p, x, y)
  }

  /** p${x..y}.q${z..w}, read-write or not. */
  predicate TwoIs(s: string, p: string, x: string, y: string, q: string, z: string, w: string) {
    && Line(p) && AllDigits(x) && AllDigits(y) && Line(q) && AllDigits(z) && AllDigits(w)
    && s == p + BracesOf(x, y) + "." + q + BracesOf(z, w)
  }

  ghost predicate Two(s: string) {
    exists p, x, y, q, z, w :: TwoIs(s, p, x, y, q, z, w)
  }

  lemma DigitsFind(t: string, k: Re, s: string, i: nat) returns (j: nat)
    requires i <= |s| && Match(Mark(Plus(Digit, true, Mark(Lit(t, k)))), s, i).Ok?
    ensures i < j <= |s| && AllDigits(s[i..j]) && OccursAt(s, t, j) && Match(k, s, j + |t|).Ok?
  {
    hide Lit;
    var m := Mark(Lit(t, k));
    assert Match(Plus(Digit, true, m), s, i).Ok?;
    j := StarStops(Digit, true, m, s, i + 1);
    assert Match(Lit(t, k), s, j).Ok?;
    LitMatch(t, k, s, j);
    hide Match;
    forall q | 0 <= q < j - i ensures IsDigit(s[i..j][q]) {
      assert s[i..j][q] == s[i + q];
    }
  }

  lemma BracesFind(k: Re, s: string, i: nat) returns (x: string, y: string)
    requires i <= |s| && Match(Braces(k), s, i).Ok?
    ensures AllDigits(x) && AllDigits(y) && OccursAt(s, BracesOf(x, y), i) && Match(k, s, i + |BracesOf(x, y)|).Ok?
  {
    LitMatch("${", Low(k), s, i);
    hide Lit, Match;
    var j := DigitsFind("..", High(k), s, i + 2);
    var l := DigitsFind("}", k, s, j + 2);
    x, y := s[i + 2..j], s[j + 2..l];
    BracesGather(s, i, j, l, x, y);
  }

  lemma BracesGather(s: string, i: nat, j: nat, l: nat, x: string, y: string)
    requires i + 2 <= j && j + 2 <= l < |s| && x == s[i + 2..j] && y == s[j + 2..l]
    requires OccursAt(s, "${", i) && OccursAt(s, "..", j) && OccursAt(s, "}", l)
    ensures OccursAt(s, BracesOf(x, y), i) && |BracesOf(x, y)| == l + 1 - i
  {
    hide *;
    Splits(s, i, i + 2, j);
    Splits(s, j, j + 2, l);
    Splits(s, i, j, l + 1);
    Splits(s, j, l, l + 1);
    BracesJoin(s, i, j, l, x, y);
  }

  lemma Splits(s: string, i: nat, j: nat, l: nat)
    requires i <= j <= l <= |s|
    ensures s[i..l] == s[i..j] + s[j..l]
  {
  }

  lemma BracesJoin(s: string, i: nat, j: nat, l: nat, x: string, y: string)
    requires i + 2 <= j && j + 2 <= l < |s| && x == s[i + 2..j] && y == s[j + 2..l]
    requires OccursAt(s, "${", i) && OccursAt(s, "..", j) && OccursAt(s, "}", l)
    requires s[i..j] == s[i..i + 2] + x && s[j..l] == s[j..j + 2] + y
    requires s[i..l + 1] == s[i..j] + s[j..l + 1] && s[j..l + 1] == s[j..l] + s[l..l + 1]
    ensures OccursAt(s, BracesOf(x, y), i) && |BracesOf(x, y)| == l + 1 - i
  {
    assert s[i..l + 1] == "${" + x + ".." + y + "}";
  }

  lemma BracesOk(k: Re, s: string, i: nat, x: string, y: string)
    requires AllDigits(x) && AllDigits(y) && OccursAt(s, BracesOf(x, y), i)
    requires i + |BracesOf(x, y)| <= |s| && Match(k, s, i + |BracesOf(x, y)|).Ok?
    ensures Match(Braces(k), s, i).Ok?
  {
    hide Match, Braces, Low, High, BracesOf, OccursAt, AllDigits;
    Parts(s, i, x, y);
    BracesOpen(k, s, i);
    LowMatch(k, s, i + 2, x);
    HighMatch(k, s, i + 4 + |x|, y);
  }

  lemma NameFind(k: Re, s: string, i: nat) returns (j: nat)
    requires i <= |s| && Match(LazyName(k), s, i).Ok?
    ensures i < j <= |s| && Line(s[i..j]) && Match(k, s, j).Ok?
  {
    assert Match(Plus(ANY, false, Mark(k)), s, i).Ok?;
    j := StarStops(ANY, false, Mark(k), s, i + 1);
  }

  lemma NameCan(k: Re, s: string, i: nat, j: nat)
    requires i < j <= |s| && Line(s[i..j]) && Match(k, s, j).Ok?
    ensures Match(LazyName(k), s, i).Ok?
  {
    forall q | i <= q < j ensures In(ANY, s[q]) {
      assert s[q] == s[i..j][q - i];
    }
    assert Match(Mark(k), s, j).Ok?;
    StarCan(ANY, false, Mark(k), s, i + 1, j);
    NameStart(Mark(k), s, i);
  }

  lemma UnderFind(k: Re, s: string, i: nat) returns (j: nat)
    requires i <= |s| && Match(OptUnder(k), s, i).Ok?
    ensures i <= j <= i + 1 && j <= |s| && s[i..j] in ["", "_"] && Match(k, s, j).Ok?
  {
    j := if Match(k, s, i).Ok? then i else i + 1;
    assert s[i..j] == if j == i then "" else "_";
  }

  lemma UnderCan(k: Re, s: string, i: nat)
    requires i <= |s| && Match(k, s, i).Ok?
    ensures Match(OptUnder(k), s, i).Ok?
  {
  }

  lemma DotFind(k: Re, s: string, i: nat)
    requires i <= |s| && Match(Lit(".", k), s, i).Ok?
    ensures i < |s| && s[i] == '.' && Match(k, s, i + 1).Ok?
  {
    hide Lit;
    LitMatch(".", k, s, i);
    OccursChars(s, ".", i);
  }

  lemma EndFind(s: string, i: nat)
    requires i <= |s| && Match(End(Done), s, i).Ok?
    ensures i == |s|
  {
  }

  /** A name and a range, which an underscore may separate: it counts as part of the name. */
  lemma NamedRangeFind(k: Re, s: string, i: nat) returns (p: string, x: string, y: string)
    requires i <= |s| && Match(LazyName(OptUnder(Braces(k))), s, i).Ok?
    ensures Line(p) && AllDigits(x) && AllDigits(y) && OccursAt(s, p + BracesOf(x, y), i)
    ensures Match(k, s, i + |p + BracesOf(x, y)|).Ok?
  {
    hide Match, LazyName, OptUnder, Braces, BracesOf, AllDigits;
    var j := NameFind(OptUnder(Braces(k)), s, i);
    var l := UnderFind(Braces(k), s, j);
    x, y := BracesFind(k, s, l);
    p := s[i..l];
    assert s[i..l] == s[i..j] + s[j..l];
    var b := BracesOf(x, y);
    assert s[i..l + |b|] == s[i..l] + s[l..l + |b|];
  }

  lemma NamedRangeCan(k: Re, s: string, i: nat, p: string, x: string, y: string)
    requires Line(p) && AllDigits(x) && AllDigits(y) && OccursAt(s, p + BracesOf(x, y), i)
    requires Match(k, s, i + |p + BracesOf(x, y)|).Ok?
    ensures Match(LazyName(OptUnder(Braces(k))), s, i).Ok?
  {
    hide Match, LazyName, OptUnder, Braces, BracesOf, AllDigits;
    var b := BracesOf(x, y);
    ThreeParts(p, b, "");
    assert p + b + "" == p + b;
    SubOccurs(s, p + b, i, 0, p);
    SubOccurs(s, p + b, i, |p|, b);
    BracesOk(k, s, i + |p|, x, y);
    UnderCan(Braces(k), s, i + |p|);
    NameCan(OptUnder(Braces(k)), s, i, i + |p|);
  }

  lemma TwoIffRange(s: string)
    ensures Match(RangePattern(), s, 0).Ok? <==> Two(s)
  {
    RangeUnfolds();
    hide Match, RangePattern, Two, BracesOf, AllDigits, Line;
    if Match(RangePattern(), s, 0).Ok? {
      var p, x, y := NamedRangeFind(Lit(".", TableRange()), s, 0);
      var n := |p + BracesOf(x, y)|;
      DotFind(TableRange(), s, n);
      var q, z, w := NamedRangeFind(End(Done), s, n + 1);
      EndFind(s, n + 1 + |q + BracesOf(z, w)|);
      assert s == s[..n] + s[n..n + 1] + s[n + 1..];
      TwoOf(s, p, x, y, q, z, w);
    }
    if Two(s) { RangeOfTwo(s); }
  }

  lemma TwoOf(s: string, p: string, x: string, y: string, q: string, z: string, w: string)
    requires Line(p) && AllDigits(x) && AllDigits(y) && Line(q) && AllDigits(z) && AllDigits(w)
    requires var u, v := p + BracesOf(x, y), q + BracesOf(z, w);
      |s| == |u| + 1 + |v| && s[..|u|] == u && s[|u|] == '.' && s[|u| + 1..] == v
    ensures Two(s)
  {
    hide BracesOf, AllDigits, Line;
    var u, v := p + BracesOf(x, y), q + BracesOf(z, w);
    assert s == u + "." + v;
    assert u + "." + v == p + BracesOf(x, y) + "." + q + BracesOf(z, w);
    assert TwoIs(s, p, x, y, q, z, w);
  }

  lemma RangeOfTwo(s: string)
    requires Two(s)
    ensures Match(RangePattern(), s, 0).Ok?
  {
    hide TwoIs, RangePattern, Match;
    var p, x, y, q, z, w :| TwoIs(s, p, x, y, q, z, w);
    RangeCan(s, p, x, y, q, z, w, p + BracesOf(x, y), q + BracesOf(z, w));
  }

  lemma RangeCan(s: string, p: string, x: string, y: string, q: string, z: string, w: string, u: string, v: string)
    requires TwoIs(s, p, x, y, q, z, w) && u == p + BracesOf(x, y) && v == q + BracesOf(z, w)
    ensures Match(RangePattern(), s, 0).Ok?
  {
    hide Match, LazyName, OptUnder, Braces, BracesOf, AllDigits, Line, OccursAt, RangePattern, TwoIs, Lit;
    TwoParts(s, p, x, y, q, z, w, u, v);
    ThreeParts(u, ".", v);
    RangeUnfolds();
    EndMatch(s);
    NamedRangeCan(End(Done), s, |u| + 1, q, z, w);
    DotThen(TableRange(), s, |u|);
    NamedRangeCan(Lit(".", TableRange()), s, 0, p, x, y);
  }

  lemma TwoParts(s: string, p: string, x: string, y: string, q: string, z: string, w: string, u: string, v: string)
    requires TwoIs(s, p, x, y, q, z, w) && u == p + BracesOf(x, y) && v == q + BracesOf(z, w)
    ensures s == u + "." + v && Line(p) && AllDigits(x) && AllDigits(y) && Line(q) && AllDigits(z) && AllDigits(w)
  {
    hide BracesOf, Line, AllDigits;
  }

  lemma BareIffSimple(s: string)
    ensures Match(SimplePattern(), s, 0).Ok? <==> Bare(s)
  {
    hide SimplePattern, Match, Bare;
    if Match(SimplePattern(), s, 0).Ok? { SimpleIsBare(s); }
    if Bare(s) { BareIsSimple(s); }
  }

  lemma SimpleIsBare(s: string)
    requires Match(SimplePattern(), s, 0).Ok?
    ensures Bare(s)
  {
    hide Match, BracesOf, AllDigits, Bare;
    var j := NameFind(Lit(".", Braces(End(Done))), s, 0);
    hide *;
    DotFind(Braces(End(Done)), s, j);
    var x, y := BracesFind(End(Done), s, j + 1);
    EndFind(s, j + 1 + |BracesOf(x, y)|);
    BareOf(s, j, x, y);
  }

  lemma BareOf(s: string, j: nat, x: string, y: string)
    requires j < |s| && s[j] == '.' && Line(s[0..j]) && AllDigits(x) && AllDigits(y)
    requires OccursAt(s, BracesOf(x, y), j + 1) && j + 1 + |BracesOf(x, y)| == |s|
    ensures Bare(s)
  {
    hide BracesOf, AllDigits, Line;
    assert s == s[0..j] + "." + s[j + 1..];
    assert BareIs(s, s[0..j], x, y);
  }

  lemma BareIsSimple(s: string)
    requires Bare(s)
    ensures Match(SimplePattern(), s, 0).Ok?
  {
    hide BareIs, SimplePattern, Match;
    var p, x, y :| BareIs(s, p, x, y);
    SimpleCan(s, p, x, y);
  }

  lemma SimpleCan(s: string, p: string, x: string, y: string)
    requires BareIs(s, p, x, y)
    ensures Match(SimplePattern(), s, 0).Ok?
  {
    assert |p| > 0;
    hide Match, BracesOf, AllDigits, Line;
    ThreeParts(p, ".", BracesOf(x, y));
    EndMatch(s);
    BracesOk(End(Done), s, |p| + 1, x, y);
    DotThen(Braces(End(Done)), s, |p|);
    assert s[0..|p|] == p;
    NameCan(Lit(".", Braces(End(Done))), s, 0, |p|);
  }

  /** A read-write text is a two-range text: its dot before the second range joins the name. */
  lemma RwIsTwo(s: string)
    requires Match(RwPattern(), s, 0).Ok?
    ensures Two(s)
  {
    hide Match, BracesOf, AllDigits, Line, Two, Lit;
    var k := Lit(".", LazyName(Lit(".", Braces(End(Done)))));
    var rw := "readwrite_ds_";
    RwHeadFind(k, s);
    var x, y := BracesFind(k, s, 13);
    var n := 13 + |BracesOf(x, y)|;
    DotFind(LazyName(Lit(".", Braces(End(Done)))), s, n);
    var j := NameFind(Lit(".", Braces(End(Done))), s, n + 1);
    DotFind(Braces(End(Done)), s, j);
    var z, w := BracesFind(End(Done), s, j + 1);
    EndFind(s, j + 1 + |BracesOf(z, w)|);
    var q := s[n + 1..j + 1];
    assert q == s[n + 1..j] + ".";
    LineDot(s[n + 1..j]);
    assert s[..n] == s[..13] + s[13..n];
    assert s[n + 1..] == q + s[j + 1..];
    TwoOf(s, rw, x, y, q, z, w);
  }

  lemma LineDot(p: string)
    requires Line(p)
    ensures Line(p + ".") && Line("readwrite_ds_")
  {
  }

  /** The read-write pattern up to its first range. */
  lemma RwHeadFind(k: Re, s: string)
    requires Match(Mark(Lit("readwrite_ds_${", Mark(Mark(Plus(Digit, true, AfterLow(k)))))), s, 0).Ok?
    ensures |s| >= 13 && s[..13] == "readwrite_ds_" && Match(Braces(k), s, 13).Ok?
  {
    hide *;
    var t := "readwrite_ds_${";
    LitFind(t, Mark(Mark(Plus(Digit, true, AfterLow(k)))), s);
    LowOpens(k, s);
    SubOccurs(s, t, 0, 0, "readwrite_ds_");
    SubOccurs(s, t, 0, 13, "${");
    BracesOpen(k, s, 13);
  }

  lemma LitFind(t: string, k: Re, s: string)
    requires Match(Mark(Lit(t, k)), s, 0).Ok?
    ensures OccursAt(s, t, 0) && Match(k, s, |t|).Ok?
  {
    hide Lit;
    LitMatch(t, k, s, 0);
  }

  lemma LowOpens(k: Re, s: string)
    requires 15 <= |s| && Match(Mark(Mark(Plus(Digit, true, AfterLow(k)))), s, 15).Ok?
    ensures Match(Low(k), s, 15).Ok?
  {
    hide AfterLow;
  }

  /** Parsing panics exactly on the texts p.${x..y} that are no two-range texts. */
  lemma CrashIff(s: string)
    ensures Parse(s) == Crash <==> Bare(s) && !Two(s)
  {
    hide *;
    BareIffSimple(s);
    TwoIffRange(s);
    if Match(RwPattern(), s, 0).Ok? { RwIsTwo(s); }
    CrashBranch(s);
  }

  lemma CrashBranch(s: string)
    ensures Parse(s) == Crash
       <==> Match(RwPattern(), s, 0) == Fail && Match(RangePattern(), s, 0) == Fail && Match(SimplePattern(), s, 0).Ok?
  {
    hide Match, RwPattern, RangePattern, SimplePattern, FixedTable, FixedSource, RwFixed, Index, Group;
  }

  /** In particular on name.${a..b} for every name. */
  lemma BareRangeCrashes(p: string, a: nat, b: nat, s: string)
    requires Name(p) && s == p + "." + BracesText(a, b)
    ensures Parse(s) == Crash
  {
    hide *;
    BareText(p, a, b, s);
    NotTwo(p, a, b, s);
    CrashIff(s);
  }

  lemma BareText(p: string, a: nat, b: nat, s: string)
    requires Name(p) && s == p + "." + BracesText(a, b)
    ensures Bare(s)
  {
    hide BracesOf;
    assert BareIs(s, p, Decimal(a), Decimal(b));
  }

  /** A text with one dollar is no two-range text. */
  lemma NotTwo(p: string, a: nat, b: nat, s: string)
    requires Name(p) && s == p + "." + BracesText(a, b)
    ensures !Two(s)
  {
    assert '$' !in p + ".";
    OneDollar(p + ".", a, b, "");
    assert s == p + "." + BracesText(a, b) + "";
    hide TwoIs, BracesText;
    forall q, x, y, r, z, w | TwoIs(s, q, x, y, r, z, w) ensures false {
      TwoDollars(s, q, x, y, r, z, w);
    }
  }

  lemma TwoDollars(s: string, p: string, x: string, y: string, q: string, z: string, w: string)
    requires TwoIs(s, p, x, y, q, z, w)
    ensures exists i, j :: 0 <= i < j < |s| && s[i] == '$' && s[j] == '$'
  {
    var i, j := |p|, |p| + |BracesOf(x, y)| + 1 + |q|;
    assert BracesOf(x, y)[0] == '$' && BracesOf(z, w)[0] == '$';
    assert s[i] == '$' && s[j] == '$';
  }
}
