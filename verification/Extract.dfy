/** Pulling the sharding value out of a WHERE clause, and why it inverts printing a conjunction. */
module Extract {
  import opened GoStrings
  import opened Regex

  datatype Extracted = Found(text: string) | NoWhere | NoColumn

  // ---------- the column pattern ----------

  /** A literal under (?i). */
  function FoldLit(t: string, k: Re): Re {
    if t == "" then k else One(Fold(t[0]), FoldLit(t[1..], k))
  }

  /** (=|!=|<>|<|>|>=|<=|IN\s*\(|BETWEEN\s+) */
  function Operator(): Re {
    Or(Lit("=", Done), NotEquals())
  }

  function NotEquals(): Re {
    Or(Lit("!=", Done), Or(Lit("<>", Done), Or(Lit("<", Done), Or(Lit(">", Done), Or(Lit(">=", Done),
    Or(Lit("<=", Done), Words()))))))
  }

  /** IN\s*\(|BETWEEN\s+ */
  function Words(): Re {
    Or(FoldLit("IN", InTail()), FoldLit("BETWEEN", Plus(Space, true, Done)))
  }

  function InTail(): Re {
    Star(Space, true, Lit("(", Done))
  }

  /** (?i)\bcolumn\s*operator */
  function ColumnPattern(column: string): Re {
    WordB(FoldLit(column, AfterName()))
  }

  function AfterName(): Re {
    Star(Space, true, Operator())
  }

  // ---------- the extraction ----------

  const CLAUSE_ENDS: seq<string> := ["ORDER BY", "GROUP BY", "LIMIT", "HAVING"]
  const JOINERS: seq<string> := [" AND ", " OR "]

  /** The least of end and the first places of the keywords in t. */
  function FirstOf(t: string, keywords: seq<string>, end: nat): (r: nat)
    ensures r <= end
    ensures r == end || exists k :: 0 <= k < |keywords| && OccursAt(t, keywords[k], r)
    ensures forall k, j :: 0 <= k < |keywords| && 0 <= j < r ==> !OccursAt(t, keywords[k], j)
  {
    if keywords == [] then end
    else
      var rest := FirstOf(t, keywords[1..], end);
      var i := Index(t, keywords[0]);
      assert forall k :: 0 < k < |keywords| ==> keywords[k] == keywords[1..][k - 1];
      if i != -1 && i < rest then i else rest
  }

  /** The loop that shrinks endIdx, and the one that shrinks condEnd. */
  method Shrink(t: string, keywords: seq<string>, end: nat) returns (r: nat)
    requires end <= |t|
    ensures r == FirstOf(t, keywords, end)
  {
    r := end;
    for n := 0 to |keywords|
      invariant r <= end
      invariant r == end || exists k :: 0 <= k < n && OccursAt(t, keywords[k], r)
      invariant forall k, j :: 0 <= k < n && 0 <= j < r ==> !OccursAt(t, keywords[k], j)
    {
      var i := Index(t, keywords[n]);
      if i != -1 && i < r {
        r := i;
      }
    }
    FirstOfUnique(t, keywords, end, r);
  }

  lemma FirstOfUnique(t: string, keywords: seq<string>, end: nat, r: nat)
    requires r <= end && (r == end || exists k :: 0 <= k < |keywords| && OccursAt(t, keywords[k], r))
    requires forall k, j :: 0 <= k < |keywords| && 0 <= j < r ==> !OccursAt(t, keywords[k], j)
    ensures FirstOf(t, keywords, end) == r
  {
  }

  /** The WHERE clause without the keyword, up to its end. */
  function Clause(sql: string): string {
    var s := TrimSpace(sql);
    var i := Index(ToUpper(s), "WHERE");
    if i < 0 then ""
    else
      var rest := s[i + 5..];
      TrimSpace(rest[..FirstOf(ToUpper(rest), CLAUSE_ENDS, |rest|)])
  }

  function HasWhere(sql: string): bool {
    Index(ToUpper(TrimSpace(sql)), "WHERE") >= 0
  }

  function ConditionIn(clause: string, column: string): Extracted {
    match Find(ColumnPattern(column), clause)
    case NoMatch => NoColumn
    case At(start, m) => Extracted.Found(CutCondition(clause, start, m[|m| - 1]))
  }

  /** From the column to the first joiner after the operator. */
  function CutCondition(clause: string, start: nat, operatorEnd: nat): string
    requires start <= operatorEnd <= |clause|
  {
    var rest := clause[operatorEnd..];
    TrimSpace(clause[start..operatorEnd + FirstOf(ToUpper(rest), JOINERS, |rest|)])
  }

  function ShardingCondition(sql: string, column: string): Extracted {
    if !HasWhere(sql) then NoWhere else ConditionIn(Clause(sql), column)
  }

  method ExtractShardingCondition(sql: string, column: string) returns (r: Extracted)
    ensures r == ShardingCondition(sql, column)
  {
    hide ColumnPattern, Find, TrimSpace, ToUpper, Index, FirstOf;
    var s := TrimSpace(sql);
    var whereIdx := Index(ToUpper(s), "WHERE");
    if whereIdx == -1 {
      return NoWhere;
    }
    var whereClause := s[whereIdx + 5..];
    var endIdx := Shrink(ToUpper(whereClause), CLAUSE_ENDS, |whereClause|);
    whereClause := TrimSpace(whereClause[..endIdx]);
    match Find(ColumnPattern(column), whereClause) {
      case NoMatch => return NoColumn;
      case At(start, m) =>
        var rest := whereClause[m[|m| - 1]..];
        var condEnd := Shrink(ToUpper(rest), JOINERS, |rest|);
        return Extracted.Found(TrimSpace(whereClause[start..m[|m| - 1] + condEnd]));
    }
  }

  const QUOTES: string := "'\"`"
  const CUT: string := "'\"` "

  /** strings.Split(s, sep)[0] */
  function UpTo(s: string, sep: string): string {
    if Index(s, sep) < 0 then s else s[..Index(s, sep)]
  }

  function TrimPrefix(s: string, p: string): string {
    if HasPrefix(s, p) then s[|p|..] else s
  }

  /** The value left when the column and the operator are removed from a condition. */
  function ValueOfCondition(condition: string, column: string): string {
    ValueOf(TrimSpace(ReplaceAll(ColumnPattern(column), condition, Always(""))))
  }

  /** The three branches on what remains of the condition. */
  function ValueOf(remainder: string): string {
    if TakesIn(remainder) then
      Trim(TrimSpace(UpTo(Trim(TrimSpace(TrimPrefix(remainder, "IN")), "() "), ",")), QUOTES)
    else if TakesBetween(remainder) then
      Trim(TrimSpace(UpTo(TrimSpace(TrimPrefix(remainder, "BETWEEN")), "AND")), QUOTES)
    else Trim(remainder, CUT)
  }

  predicate TakesIn(remainder: string) {
    HasPrefix(ToUpper(remainder), "IN")
  }

  predicate TakesBetween(remainder: string) {
    HasPrefix(ToUpper(remainder), "BETWEEN")
  }

  function ShardingValue(sql: string, column: string): Extracted {
    var c := ShardingCondition(sql, column);
    if c.Found? then Extracted.Found(ValueOfCondition(c.text, column)) else c
  }

  // ---------- what a printed condition looks like ----------

  /** t at i of s, ignoring the case of ASCII letters. */
  predicate FoldAt(s: string, t: string, i: nat) {
    i + |t| <= |s| && forall q :: i <= q < i + |t| ==> Upper(s[q]) == Upper(t[q - i])
  }

  /** The first rune at or after i that is no blank. */
  function SkipBlanks(s: string, i: nat): (r: nat)
    requires i <= |s|
    ensures i <= r <= |s|
    ensures forall q :: i <= q < r ==> In(Space, s[q])
    ensures r < |s| ==> !In(Space, s[r])
    decreases |s| - i
  {
    if i < |s| && In(Space, s[i]) then SkipBlanks(s, i + 1) else i
  }

  predicate ParenthesisAt(s: string, i: nat) {
    i <= |s| && SkipBlanks(s, i) < |s| && s[SkipBlanks(s, i)] == '('
  }

  /** An operator of the pattern begins at e. */
  predicate OperatorText(s: string, e: nat) {
    e < |s| && (s[e] in "=<>" || OccursAt(s, "!=", e) || (FoldAt(s, "IN", e) && ParenthesisAt(s, e + 2))
                || (FoldAt(s, "BETWEEN", e) && e + 7 < |s| && In(Space, s[e + 7])))
  }

  /** At j a word begins with the column's name in any case, and an operator follows it. */
  predicate Compared(s: string, column: string, j: nat) {
    FoldAt(s, column, j) && !WordAt(s, j - 1) && OperatorText(s, SkipBlanks(s, j + |column|))
  }

  /** No comparison of the column before x. */
  ghost predicate FirstAt(s: string, column: string, x: nat) {
    forall j: nat :: j < x ==> !Compared(s, column, j)
  }

  /** No comparison of the column after the beginning. */
  ghost predicate OnlyFirst(s: string, column: string) {
    forall j: nat :: 0 < j ==> !Compared(s, column, j)
  }

  // ---------- matching the column ----------

  lemma {:induction false} FoldMatch(t: string, k: Re, s: string, i: nat)
    requires i <= |s|
    ensures Match(FoldLit(t, k), s, i) == if FoldAt(s, t, i) then Match(k, s, i + |t|) else Fail
    decreases |t|
  {
    if t != "" && i < |s| {
      FoldMatch(t[1..], k, s, i + 1);
    }
  }

  lemma UpperWord(c: char, d: char)
    requires Upper(c) == Upper(d) && IsWord(d)
    ensures IsWord(c)
  {
  }

  lemma OrIff(a: Re, b: Re, s: string, p: nat)
    requires p <= |s|
    ensures Match(Or(a, b), s, p).Ok? <==> Match(a, s, p).Ok? || Match(b, s, p).Ok?
  {
  }

  /** One more literal in front of the alternatives b. */
  lemma LitIff(t: string, b: Re, s: string, p: nat)
    requires p <= |s|
    ensures Match(Or(Lit(t, Done), b), s, p).Ok? <==> OccursAt(s, t, p) || Match(b, s, p).Ok?
  {
    LitMatch(t, Done, s, p);
    hide Lit, OccursAt;
    if OccursAt(s, t, p) { TextFits(s, t, p); }
    OrIff(Lit(t, Done), b, s, p);
  }

  lemma SymbolIff(t: string, s: string, e: nat)
    ensures |t| == 1 ==> (OccursAt(s, t, e) <==> e < |s| && s[e] == t[0])
    ensures |t| > 1 && OccursAt(s, t, e) ==> e < |s| && s[e] == t[0]
  {
    OccursChars(s, t, e);
  }

  lemma OperatorIff(s: string, e: nat)
    requires e <= |s|
    ensures Match(Operator(), s, e).Ok? <==> OperatorText(s, e)
  {
    hide Lit, Match, Words, OccursAt, FoldAt, ParenthesisAt;
    var le := Or(Lit("<=", Done), Words());
    var greater := Or(Lit(">=", Done), le);
    var less := Or(Lit(">", Done), greater);
    var unlike := Or(Lit("<", Done), less);
    var differs := Or(Lit("<>", Done), unlike);
    LitIff("<=", Words(), s, e);
    LitIff(">=", le, s, e);
    LitIff(">", greater, s, e);
    LitIff("<", less, s, e);
    LitIff("<>", unlike, s, e);
    LitIff("!=", differs, s, e);
    LitIff("=", NotEquals(), s, e);
    SymbolIff("<=", s, e);
    SymbolIff(">=", s, e);
    SymbolIff(">", s, e);
    SymbolIff("<", s, e);
    SymbolIff("<>", s, e);
    SymbolIff("!=", s, e);
    SymbolIff("=", s, e);
    WordsIff(s, e);
  }

  lemma WordsIff(s: string, e: nat)
    requires e <= |s|
    ensures Match(Words(), s, e).Ok?
       <==> e < |s| && ((FoldAt(s, "IN", e) && ParenthesisAt(s, e + 2))
                        || (FoldAt(s, "BETWEEN", e) && e + 7 < |s| && In(Space, s[e + 7])))
  {
    FoldMatch("IN", InTail(), s, e);
    FoldMatch("BETWEEN", Plus(Space, true, Done), s, e);
    if FoldAt(s, "IN", e) { ParenthesisIff(s, e + 2); }
    if FoldAt(s, "BETWEEN", e) { BlankIff(s, e + 7); }
    hide FoldLit, InTail, Match;
    OrIff(FoldLit("IN", InTail()), FoldLit("BETWEEN", Plus(Space, true, Done)), s, e);
  }

  lemma ParenthesisIff(s: string, i: nat)
    requires i <= |s|
    ensures Match(InTail(), s, i).Ok? <==> ParenthesisAt(s, i)
  {
    var f := SkipBlanks(s, i);
    forall q | i <= q < f ensures Match(Lit("(", Done), s, q) == Fail {
      LitFails("(", Done, s, q);
    }
    LitMatch("(", Done, s, f);
    SymbolIff("(", s, f);
    hide Lit, OccursAt;
    RunMatch(Space, Lit("(", Done), s, i, f);
  }

  /** \s+ and nothing more. */
  lemma BlankIff(s: string, i: nat)
    requires i <= |s|
    ensures Match(Plus(Space, true, Done), s, i).Ok? <==> i < |s| && In(Space, s[i])
  {
    if i < |s| && In(Space, s[i]) { StarDone(s, i + 1); }
  }

  lemma {:induction false} StarDone(s: string, i: nat)
    requires i <= |s|
    ensures Match(Star(Space, true, Done), s, i).Ok?
  {
  }

  /** The pattern matches exactly at the comparisons of the column. */
  lemma ColumnIff(s: string, column: string, i: nat)
    requires i <= |s| && WordText(column)
    ensures Match(ColumnPattern(column), s, i).Ok? <==> Compared(s, column, i)
  {
    FoldMatch(column, AfterName(), s, i);
    if FoldAt(s, column, i) {
      assert Upper(s[i]) == Upper(column[0]);
      UpperWord(s[i], column[0]);
      AfterNameIff(s, i + |column|);
    }
    hide FoldLit, AfterName, OperatorText;
  }

  lemma AfterNameIff(s: string, i: nat)
    requires i <= |s|
    ensures Match(AfterName(), s, i).Ok? <==> OperatorText(s, SkipBlanks(s, i))
  {
    var e := SkipBlanks(s, i);
    forall q | i <= q < e ensures Match(Operator(), s, q) == Fail {
      OperatorAtBlank(s, q);
    }
    OperatorIff(s, e);
    hide Operator, OperatorText;
    RunMatch(Space, Operator(), s, i, e);
  }

  /** No operator starts with a space. */
  lemma OperatorAtBlank(s: string, p: nat)
    requires p < |s| && In(Space, s[p])
    ensures Match(Operator(), s, p) == Fail
  {
    hide Lit, FoldLit, Match;
    NoSymbol(s, p);
    FoldFails("IN", InTail(), s, p);
    FoldFails("BETWEEN", Plus(Space, true, Done), s, p);
    OrSecond(FoldLit("IN", InTail()), FoldLit("BETWEEN", Plus(Space, true, Done)), s, p);
  }

  /** Where no symbol stands only IN and BETWEEN can match. */
  lemma NoSymbol(s: string, p: nat)
    requires p < |s| && s[p] !in "=!<>"
    ensures Match(Operator(), s, p) == Match(Words(), s, p)
  {
    hide Lit, Words, Match;
    LitOr("<=", Words(), s, p);
    LitOr(">=", Or(Lit("<=", Done), Words()), s, p);
    var greater := Or(Lit(">=", Done), Or(Lit("<=", Done), Words()));
    LitOr(">", greater, s, p);
    LitOr("<", Or(Lit(">", Done), greater), s, p);
    LitOr("<>", Or(Lit("<", Done), Or(Lit(">", Done), greater)), s, p);
    LitOr("!=", Or(Lit("<>", Done), Or(Lit("<", Done), Or(Lit(">", Done), greater))), s, p);
    LitOr("=", NotEquals(), s, p);
  }

  lemma LitOr(t: string, b: Re, s: string, p: nat)
    requires t != "" && p < |s| && s[p] != t[0]
    ensures Match(Or(Lit(t, Done), b), s, p) == Match(b, s, p)
  {
    LitFails(t, Done, s, p);
    hide Lit;
    OrSecond(Lit(t, Done), b, s, p);
  }

  lemma OrSecond(a: Re, b: Re, s: string, p: nat)
    requires p <= |s| && Match(a, s, p) == Fail
    ensures Match(Or(a, b), s, p) == Match(b, s, p)
  {
  }

  lemma FoldFails(t: string, k: Re, s: string, p: nat)
    requires t != "" && p < |s| && Upper(s[p]) != Upper(t[0])
    ensures Match(FoldLit(t, k), s, p) == Fail
  {
  }

  /** An operator from e to f. */
  predicate OperatorAt(s: string, e: nat, f: nat) {
    e < f <= |s| && !In(Space, s[e]) && Match(Operator(), s, e) == Ok([f])
  }

  lemma EqualsMatch(s: string, e: nat)
    requires e < |s| && s[e] == '='
    ensures OperatorAt(s, e, e + 1)
  {
    hide Match, Lit, NotEquals;
    assert s[e..e + 1] == "=";
    LitMatch("=", Done, s, e);
    DoneMatch(s, e + 1);
    OrFirst(Lit("=", Done), NotEquals(), s, e);
  }

  /** The pattern tries > before >=, so the = is left over. */
  lemma GreaterMatch(s: string, e: nat)
    requires e < |s| && s[e] == '>'
    ensures OperatorAt(s, e, e + 1)
  {
    hide Match, Lit, Words;
    var greater := Or(Lit(">=", Done), Or(Lit("<=", Done), Words()));
    assert s[e..e + 1] == ">";
    LitMatch(">", Done, s, e);
    DoneMatch(s, e + 1);
    OrFirst(Lit(">", Done), greater, s, e);
    LitOr("<", Or(Lit(">", Done), greater), s, e);
    LitOr("<>", Or(Lit("<", Done), Or(Lit(">", Done), greater)), s, e);
    LitOr("!=", Or(Lit("<>", Done), Or(Lit("<", Done), Or(Lit(">", Done), greater))), s, e);
    LitOr("=", NotEquals(), s, e);
  }

  /** IN and the parenthesis are one operator. */
  lemma InMatch(s: string, e: nat, f: nat)
    requires FoldAt(s, "IN", e) && e + 2 <= f < |s| && s[f] == '(' && forall q :: e + 2 <= q < f ==> In(Space, s[q])
    ensures OperatorAt(s, e, f + 1)
  {
    assert s[f..f + 1] == "(";
    forall q | e + 2 <= q < f ensures Match(Lit("(", Done), s, q) == Fail {
      LitFails("(", Done, s, q);
    }
    hide Match, FoldLit, Lit;
    NoSymbol(s, e);
    FoldMatch("IN", InTail(), s, e);
    LitMatch("(", Done, s, f);
    DoneMatch(s, f + 1);
    RunMatch(Space, Lit("(", Done), s, e + 2, f);
    OrFirst(FoldLit("IN", InTail()), FoldLit("BETWEEN", Plus(Space, true, Done)), s, e);
  }

  lemma DoneMatch(s: string, i: nat)
    requires i <= |s|
    ensures Match(Done, s, i) == Ok([i])
  {
  }

  lemma OrFirst(a: Re, b: Re, s: string, p: nat)
    requires p <= |s| && Match(a, s, p).Ok?
    ensures Match(Or(a, b), s, p) == Match(a, s, p)
  {
  }

  lemma AfterNameMatch(s: string, j: nat, e: nat, f: nat)
    requires j <= e && OperatorAt(s, e, f) && forall q :: j <= q < e ==> In(Space, s[q])
    ensures Match(AfterName(), s, j) == Ok([f])
  {
    forall q | j <= q < e ensures Match(Operator(), s, q) == Fail {
      OperatorAtBlank(s, q);
    }
    hide Operator;
    StarSkips(Space, true, Operator(), s, j, e);
    StarEnds(Space, true, Operator(), s, e);
  }

  /** The column at i, blanks, and an operator. */
  lemma ColumnMatch(s: string, column: string, i: nat, e: nat, f: nat)
    requires WordText(column) && FoldAt(s, column, i) && !WordAt(s, i - 1)
    requires i + |column| <= e && OperatorAt(s, e, f) && forall q :: i + |column| <= q < e ==> In(Space, s[q])
    ensures Match(ColumnPattern(column), s, i) == Ok([f])
  {
    FoldMatch(column, AfterName(), s, i);
    AfterNameMatch(s, i + |column|, e, f);
    assert Upper(s[i]) == Upper(column[0]);
    UpperWord(s[i], column[0]);
    hide FoldLit, AfterName, OperatorAt;
  }

  lemma FindColumn(s: string, column: string, x: nat, e: nat, f: nat)
    requires WordText(column) && FirstAt(s, column, x) && FoldAt(s, column, x) && !WordAt(s, x - 1)
    requires x + |column| <= e && OperatorAt(s, e, f) && forall q :: x + |column| <= q < e ==> In(Space, s[q])
    ensures Find(ColumnPattern(column), s) == At(x, [f])
  {
    ColumnMatch(s, column, x, e, f);
    forall j | 0 <= j < x ensures Match(ColumnPattern(column), s, j) == Fail {
      ColumnIff(s, column, j);
    }
    hide ColumnPattern, OperatorAt;
    FindSkips(ColumnPattern(column), s, 0, x);
  }

  lemma RemoveColumn(s: string, column: string, e: nat, f: nat)
    requires WordText(column) && OnlyFirst(s, column) && FoldAt(s, column, 0)
    requires |column| <= e && OperatorAt(s, e, f) && forall q :: |column| <= q < e ==> In(Space, s[q])
    ensures f <= |s| && ReplaceAll(ColumnPattern(column), s, Always("")) == s[f..]
  {
    ColumnMatch(s, column, 0, e, f);
    forall j | 0 < j <= |s| ensures Match(ColumnPattern(column), s, j) == Fail {
      ColumnIff(s, column, j);
    }
    hide ColumnPattern;
    ReplaceOne(ColumnPattern(column), s, 0, f, Always(""));
  }

  // ---------- the value of a printed condition ----------

  datatype Literal = Bare(v: string) | Quoted(quote: char, v: string)

  predicate Printable(l: Literal) {
    match l
    case Bare(v) => Solid(v)
    case Quoted(q, _) => q in QUOTES
  }

  function PrintLiteral(l: Literal): string {
    match l
    case Bare(v) => v
    case Quoted(q, v) => [q] + v + [q]
  }

  /** The literals whose value comes back: a quoted one when it has no quote or space at either
      end; bare text under the same condition, and if it begins with the letters of IN or BETWEEN
      only when these are not both upper-case and the branch finds nothing to cut. */
  predicate ComesBack(l: Literal) {
    match l
    case Quoted(_, v) => Edge(v, OneOf(CUT))
    case Bare(v) =>
      if TakesIn(v) then !HasPrefix(v, "IN") && ',' !in v && Edge(v, OneOf("() ")) && Edge(v, OneOf(QUOTES))
      else if TakesBetween(v) then !HasPrefix(v, "BETWEEN") && Index(v, "AND") < 0 && Edge(v, OneOf(QUOTES))
      else Edge(v, OneOf(CUT))
  }

  /** Trimming gives a text back exactly when there is nothing to trim; otherwise it is shorter. */
  lemma TrimSame(t: string, f: char -> bool)
    ensures |TrimFunc(t, f)| <= |t|
    ensures TrimFunc(t, f) == t <==> Edge(t, f)
    ensures |TrimFunc(t, f)| == |t| ==> TrimFunc(t, f) == t
  {
    TrimEdge(t, f);
    if Edge(t, f) { TrimNothing(t, f); }
    TrimLeftShrinks(t, f);
    TrimRightShrinks(TrimLeftFunc(t, f), f);
  }

  lemma {:induction false} TrimLeftShrinks(t: string, f: char -> bool)
    ensures |TrimLeftFunc(t, f)| <= |t|
    ensures |TrimLeftFunc(t, f)| == |t| ==> TrimLeftFunc(t, f) == t
  {
    if t != "" && f(t[0]) { TrimLeftShrinks(t[1..], f); }
  }

  lemma {:induction false} TrimRightShrinks(t: string, f: char -> bool)
    ensures |TrimRightFunc(t, f)| <= |t|
    ensures |TrimRightFunc(t, f)| == |t| ==> TrimRightFunc(t, f) == t
  {
    if t != "" && f(t[|t| - 1]) { TrimRightShrinks(t[..|t| - 1], f); }
  }

  /** So does cutting at a separator. */
  lemma UpToSame(t: string, sep: string)
    requires sep != ""
    ensures |UpTo(t, sep)| <= |t| && (UpTo(t, sep) == t <==> Index(t, sep) < 0)
    ensures |UpTo(t, sep)| == |t| ==> UpTo(t, sep) == t
  {
    if Index(t, sep) >= 0 { TextFits(t, sep, Index(t, sep)); }
    hide Index, OccursAt;
  }

  lemma CommaIndex(t: string)
    ensures Index(t, ",") < 0 <==> ',' !in t
  {
    if Index(t, ",") < 0 {
      forall i | 0 <= i < |t| ensures t[i] != ',' {
        assert !OccursAt(t, ",", i);
        SymbolIff(",", t, i);
      }
    } else {
      SymbolIff(",", t, Index(t, ","));
    }
  }

  /** The branch for IN gives bare text back exactly when none of its steps changes it. */
  lemma InBranchSame(v: string)
    requires Solid(v)
    ensures Trim(TrimSpace(UpTo(Trim(TrimSpace(TrimPrefix(v, "IN")), "() "), ",")), QUOTES) == v
       <==> !HasPrefix(v, "IN") && ',' !in v && Edge(v, OneOf("() ")) && Edge(v, OneOf(QUOTES))
  {
    var a := TrimPrefix(v, "IN");
    var b := TrimSpace(a);
    var c := Trim(b, "() ");
    var d := UpTo(c, ",");
    assert |a| <= |v| && (|a| == |v| <==> !HasPrefix(v, "IN"));
    TrimSolid(v);
    hide *;
    TrimStep(a, b, IsSpace);
    TrimCutStep(b, c, "() ");
    UpToSame(c, ",");
    CommaIndex(c);
    TrimStep(d, TrimSpace(d), IsSpace);
    TrimCutStep(TrimSpace(d), Trim(TrimSpace(d), QUOTES), QUOTES);
    if !HasPrefix(v, "IN") { PrefixKept(v, "IN"); }
  }

  lemma PrefixKept(v: string, p: string)
    requires !HasPrefix(v, p)
    ensures TrimPrefix(v, p) == v
  {
  }

  lemma TrimStep(t: string, r: string, f: char -> bool)
    requires r == TrimSpace(t) && f == IsSpace
    ensures |r| <= |t| && (|r| == |t| ==> r == t)
  {
    hide TrimFunc;
    TrimSame(t, IsSpace);
  }

  lemma TrimCutStep(t: string, r: string, cutset: string)
    requires r == Trim(t, cutset)
    ensures |r| <= |t| && (r == t <==> Edge(t, OneOf(cutset))) && (|r| == |t| ==> r == t)
  {
    hide TrimFunc;
    TrimSame(t, OneOf(cutset));
  }

  lemma BetweenBranchSame(v: string)
    requires Solid(v)
    ensures Trim(TrimSpace(UpTo(TrimSpace(TrimPrefix(v, "BETWEEN")), "AND")), QUOTES) == v
       <==> !HasPrefix(v, "BETWEEN") && Index(v, "AND") < 0 && Edge(v, OneOf(QUOTES))
  {
    var a := TrimPrefix(v, "BETWEEN");
    var b := TrimSpace(a);
    var d := UpTo(b, "AND");
    assert |a| <= |v| && (|a| == |v| <==> !HasPrefix(v, "BETWEEN"));
    TrimSolid(v);
    hide *;
    TrimStep(a, b, IsSpace);
    UpToSame(b, "AND");
    TrimStep(d, TrimSpace(d), IsSpace);
    TrimCutStep(TrimSpace(d), Trim(TrimSpace(d), QUOTES), QUOTES);
    if !HasPrefix(v, "BETWEEN") { PrefixKept(v, "BETWEEN"); }
  }

  lemma QuotedSame(q: char, v: string)
    requires q in QUOTES
    ensures Trim([q] + v + [q], CUT) == v <==> Edge(v, OneOf(CUT))
  {
    var t, f := [q] + v + [q], OneOf(CUT);
    TrimEdge(t, f);
    if v == "" {
      assert t == [q, q] + "";
      TrimLeftSkips([q, q], "", f);
    } else if Edge(v, f) {
      TrimCore([q], v, [q], f);
    }
  }

  lemma LiteralSolid(l: Literal)
    requires Printable(l)
    ensures Solid(PrintLiteral(l))
    ensures l.Quoted? ==> !TakesIn(PrintLiteral(l)) && !TakesBetween(PrintLiteral(l))
  {
    if l.Quoted? {
      var t := PrintLiteral(l);
      assert t[0] == l.quote && t[|t| - 1] == l.quote;
      assert ToUpper(t)[0] == l.quote;
    }
  }

  /** What remains of column = literal gives the value back exactly for those literals. */
  lemma LiteralComesBack(l: Literal)
    requires Printable(l)
    ensures ValueOf(PrintLiteral(l)) == l.v <==> ComesBack(l)
  {
    LiteralSolid(l);
    hide TakesIn, TakesBetween, Trim, TrimSpace, UpTo, TrimPrefix, HasPrefix, Index, Edge;
    match l
    case Quoted(q, v) => QuotedSame(q, v);
    case Bare(v) =>
      InBranchSame(v);
      BetweenBranchSame(v);
      TrimCutStep(v, Trim(v, CUT), CUT);
  }

  /** column = literal, printed with blanks. */
  function PrintCondition(name: string, b1: string, b2: string, l: Literal): string {
    name + b1 + "=" + (b2 + PrintLiteral(l))
  }

  lemma ConditionValue(name: string, b1: string, b2: string, l: Literal, column: string, s: string)
    requires s == PrintCondition(name, b1, b2, l) && Printable(l) && WordText(column)
    requires |name| == |column| && FoldAt(s, column, 0) && OnlyFirst(s, column) && Blanks(b1) && AllSpace(b2)
    ensures ValueOfCondition(s, column) == l.v <==> ComesBack(l)
  {
    var e := |name| + |b1|;
    var t := PrintLiteral(l);
    assert s[e] == '=' && s[e + 1..] == b2 + t;
    forall q | |column| <= q < e ensures In(Space, s[q]) { assert s[q] == b1[q - |name|]; }
    hide FoldAt, OnlyFirst, PrintCondition, ColumnPattern, Operator;
    EqualsMatch(s, e);
    RemoveColumn(s, column, e, e + 1);
    LiteralSolid(l);
    TrimLead(b2, t);
    LiteralComesBack(l);
    hide PrintLiteral, ValueOf, TrimSpace, ComesBack;
  }

  /** Of column IN (list) the pattern takes the keyword and the parenthesis, so what remains is
      the whole rest of the list. It is returned without its outer quotes and spaces, unless it
      begins with the letters of IN or BETWEEN itself. */
  lemma InListValue(name: string, b1: string, word: string, b2: string, list: string, column: string, s: string)
    requires s == name + b1 + word + b2 + "(" + list && WordText(column) && ToUpper(word) == "IN"
    requires |name| == |column| && FoldAt(s, column, 0) && OnlyFirst(s, column) && Blanks(b1) && Blanks(b2)
    requires Solid(list)
    ensures ValueOfCondition(s, column) == ValueOf(list)
    ensures !TakesIn(list) && !TakesBetween(list) ==> ValueOfCondition(s, column) == Trim(list, CUT)
  {
    var e, f := |name| + |b1|, |name| + |b1| + 2 + |b2|;
    InLayout(name, b1, word, b2, list, s, e, f);
    hide FoldAt, OnlyFirst, ColumnPattern, Operator, ToUpper;
    InMatch(s, e, f);
    RemoveColumn(s, column, e, f + 1);
    TrimSolid(list);
    hide Trim, TrimSpace, HasPrefix;
  }

  /** No rune of v is trimmed, or separates values. */
  predicate PlainValue(v: string) {
    forall i :: 0 <= i < |v| ==> !IsSpace(v[i]) && v[i] !in ",()'\"` "
  }

  /** The list trimmed of parentheses and cut at its first comma. */
  lemma FirstValue(x: string, z: string)
    requires PlainValue(x) && (z == "" || z == ")" || z[0] == ',')
    ensures UpTo(Trim(x + z, "() "), ",") == x
  {
    var f := OneOf("() ");
    var t := Trim(x + z, "() ");
    if z != "" && z[0] == ',' {
      assert x + z == (x + ",") + z[1..];
      assert TrimLeftFunc(x + z, f) == x + z by { assert (x + z)[0] == if x == "" then ',' else x[0]; }
      TrimRightPast(x + ",", z[1..], f);
      assert t[..|x| + 1] == x + ",";
      CommaFirst(x, t);
    } else {
      if x == "" {
        assert x + z == z + "";
        TrimLeftSkips(z, "", f);
      } else {
        assert x + z == "" + x + z;
        TrimCore("", x, z, f);
      }
      assert t == x;
      CommaIndex(x);
    }
  }

  lemma CommaFirst(x: string, t: string)
    requires ',' !in x && |x| < |t| && t[..|x| + 1] == x + ","
    ensures UpTo(t, ",") == x
  {
    SymbolIff(",", t, |x|);
    assert t[|x|] == (x + ",")[|x|];
    forall j | 0 <= j < |x| ensures !OccursAt(t, ",", j) {
      SymbolIff(",", t, j);
      assert t[j] == (x + ",")[j];
    }
    hide OccursAt;
    IndexIs(t, ",", |x|);
  }

  /** The branch for IN is entered by every remainder whose first two letters are IN in any case,
      a bare value as well as a list: it returns the first value, and cuts the letters off when
      they are upper-case. */
  lemma InBranchCuts(v: string, z: string)
    requires |v| >= 2 && TakesIn(v) && PlainValue(v) && (z == "" || z == ")" || z[0] == ',') && Solid(v + z)
    ensures TakesIn(v + z) && ValueOf(v + z) == TrimPrefix(v, "IN")
  {
    var x := TrimPrefix(v, "IN");
    StillIn(v, z, x);
    InRemainder(v, z, x);
    hide *;
    FirstValue(x, z);
    PlainKept(x);
    InUnfolds(v + z, x + z, x);
  }

  lemma StillIn(v: string, z: string, x: string)
    requires |v| >= 2 && TakesIn(v) && x == TrimPrefix(v, "IN") && PlainValue(v)
    ensures TakesIn(v + z) && TrimPrefix(v + z, "IN") == x + z && PlainValue(x)
  {
    assert (v + z)[..2] == v[..2] && ToUpper(v + z)[..2] == ToUpper(v)[..2];
    hide IsSpace;
  }

  lemma InRemainder(v: string, z: string, x: string)
    requires |v| >= 2 && x == TrimPrefix(v, "IN") && PlainValue(v) && Solid(v + z)
    requires (z == "" || z == ")" || z[0] == ',')
    ensures TrimSpace(x + z) == x + z
  {
    var t := x + z;
    if t != "" {
      assert t[|t| - 1] == (v + z)[|v + z| - 1];
      assert t[0] == if x == "" then z[0] else x[0];
      assert x != "" ==> x[0] in v;
      assert !IsSpace(')') && !IsSpace(',');
    }
    hide IsSpace;
    TrimNothing(t, IsSpace);
  }

  lemma PlainKept(x: string)
    requires PlainValue(x)
    ensures TrimSpace(x) == x && Trim(x, QUOTES) == x
  {
    TrimNothing(x, IsSpace);
    TrimNothing(x, OneOf(QUOTES));
  }

  lemma InUnfolds(remainder: string, t: string, x: string)
    requires TakesIn(remainder) && TrimPrefix(remainder, "IN") == t && TrimSpace(t) == t
    requires UpTo(Trim(t, "() "), ",") == x && TrimSpace(x) == x && Trim(x, QUOTES) == x
    ensures ValueOf(remainder) == x
  {
    hide TrimPrefix, TrimSpace, UpTo, Trim, TakesIn;
  }

  /** For example, of id IN (INX, 5) it returns X. */
  lemma InListLosesLetters()
    ensures ValueOfCondition("id IN (INX, 5)", "id") == "X"
  {
    hide *;
    var s := "id IN (INX, 5)";
    ExampleText(s);
    ExampleColumn(s);
    ExampleValue("INX", ", 5)");
    InListValue("id", " ", "IN", " ", "INX, 5)", "id", s);
    InBranchCuts("INX", ", 5)");
  }

  lemma ExampleText(s: string)
    requires s == "id IN (INX, 5)"
    ensures s == "id" + " " + "IN" + " " + "(" + "INX, 5)" && Blanks(" ") && ToUpper("IN") == "IN" && WordText("id")
  {
  }

  lemma ExampleColumn(s: string)
    requires s == "id IN (INX, 5)"
    ensures FoldAt(s, "id", 0) && OnlyFirst(s, "id")
  {
    hide OperatorText;
    assert forall q :: 0 <= q < 14 && q != 1 ==> Upper(s[q]) != 'D';
    forall j: nat | 0 < j ensures !FoldAt(s, "id", j) {
      assert j + 2 <= |s| ==> Upper(s[j + 1]) != Upper("id"[1]);
    }
  }

  lemma ExampleValue(v: string, z: string)
    requires v == "INX" && z == ", 5)"
    ensures v + z == "INX, 5)" && PlainValue(v) && TakesIn(v) && Solid(v + z) && TrimPrefix(v, "IN") == "X"
  {
    assert v + z == "INX, 5)";
    assert ToUpper(v)[..2] == "IN";
    assert v[2..] == "X";
  }

  lemma InLayout(name: string, b1: string, word: string, b2: string, list: string, s: string, e: nat, f: nat)
    requires s == name + b1 + word + b2 + "(" + list && ToUpper(word) == "IN" && Blanks(b1) && Blanks(b2)
    requires e == |name| + |b1| && f == e + 2 + |b2|
    ensures FoldAt(s, "IN", e) && f < |s| && s[f] == '(' && s[f + 1..] == list
    ensures (forall q :: |name| <= q < e ==> In(Space, s[q])) && forall q :: e + 2 <= q < f ==> In(Space, s[q])
  {
    forall q | e <= q < e + 2 ensures Upper(s[q]) == Upper("IN"[q - e]) {
      assert s[q] == word[q - e] && Upper(word[q - e]) == ToUpper(word)[q - e];
    }
    forall q | |name| <= q < e ensures In(Space, s[q]) { assert s[q] == b1[q - |name|]; }
    forall q | e + 2 <= q < f ensures In(Space, s[q]) { assert s[q] == b2[q - e - 2]; }
  }

  /** Of column >= v the value begins with the '='. */
  lemma AtLeastValue(name: string, b1: string, rest: string, column: string, s: string)
    requires s == name + b1 + ">" + ("=" + rest) && WordText(column) && Blanks(b1)
    requires |name| == |column| && FoldAt(s, column, 0) && OnlyFirst(s, column)
    requires rest != "" ==> !IsSpace(rest[|rest| - 1])
    ensures ValueOfCondition(s, column) == "=" + TrimRight(rest, CUT)
  {
    var e, t := |name| + |b1|, "=" + rest;
    assert s[e] == '>' && s[e + 1..] == t && t[|t| - 1] == if rest == "" then '=' else rest[|rest| - 1];
    forall q | |column| <= q < e ensures In(Space, s[q]) { assert s[q] == b1[q - |name|]; }
    assert ToUpper(t)[0] == '=';
    TrimRightPast("=", rest, OneOf(CUT));
    hide FoldAt, OnlyFirst, ColumnPattern, Operator, ToUpper;
    GreaterMatch(s, e);
    RemoveColumn(s, column, e, e + 1);
    TrimSolid(t);
    hide TrimSpace, TrimRightFunc;
  }

  // ---------- the condition inside a clause ----------

  predicate Joiner(kw: string) {
    kw == " AND " || kw == " OR "
  }

  lemma JoinersAre()
    ensures |JOINERS| == 2 && JOINERS[0] == " AND " && JOINERS[1] == " OR "
  {
  }

  predicate SomeJoiner(t: string, j: nat) {
    OccursAt(t, " AND ", j) || OccursAt(t, " OR ", j)
  }

  /** The first joiner of z is at n, or there is none and n is its length. */
  predicate JoinerAt(z: string, n: nat) {
    n == FirstOf(ToUpper(z), JOINERS, |z|)
  }

  lemma JoinerFacts(z: string, n: nat)
    requires JoinerAt(z, n)
    ensures n <= |z| == |ToUpper(z)| && (n < |z| ==> SomeJoiner(ToUpper(z), n))
    ensures forall j: nat :: j < n ==> !SomeJoiner(ToUpper(z), j)
  {
    JoinersAre();
    hide FirstOf, OccursAt;
    forall j: nat | j < n ensures !SomeJoiner(ToUpper(z), j) {
      assert !OccursAt(ToUpper(z), JOINERS[0], j) && !OccursAt(ToUpper(z), JOINERS[1], j);
    }
  }

  /** What follows a condition in its clause: nothing, or AND or OR in any case, white space or
      none on both sides, and any text. */
  datatype After = End | Joined(w1: string, word: string, w2: string, text: string)

  predicate JoinWord(word: string) {
    ToUpper(word) == "AND" || ToUpper(word) == "OR"
  }

  /** w2 is all the white space after the word, and the word goes no further. */
  predicate AfterOk(a: After) {
    a.Joined? ==>
      && JoinWord(a.word) && AllSpace(a.w1) && AllSpace(a.w2) && (a.text == "" || !IsSpace(a.text[0]))
      && (a.w2 == "" ==> a.text == "" || !IsWord(a.text[0]))
  }

  /** The word stands between plain spaces. */
  predicate SetOff(a: After) {
    a.Joined? ==> a.w1 != "" && a.w1[|a.w1| - 1] == ' ' && a.w2 != "" && a.w2[0] == ' '
  }

  function Follow(a: After): string {
    match a
    case End => ""
    case Joined(w1, word, w2, text) => w1 + word + (w2 + text)
  }

  function JoinLength(a: After): nat {
    match a
    case End => 0
    case Joined(w1, word, w2, _) => |w1| + |word| + |w2|
  }

  /** In a, spaces, AND or OR, and the rest, a joiner starts before the end of that word only if
      it is that word, set off by plain spaces. */
  lemma NoJoinerBefore(a: string, w: string, word: string, rest: string, t: string, kw: string, j: nat)
    requires t == a + w + word + rest && Joiner(kw) && AllSpace(w) && (word == "AND" || word == "OR")
    requires a != "" && !IsSpace(a[|a| - 1]) && !OccursAt(a + " ", kw, j)
    requires j < |a| + |w| + |word| && OccursAt(t, kw, j)
    ensures j + 1 == |a| + |w| && w != "" && w[|w| - 1] == ' ' && rest != "" && rest[0] == ' '
  {
    var m := |a| + |w|;
    assert t == a + (w + word + rest);
    assert (w + word + rest)[0] == if w == "" then word[0] else w[0];
    if j < |a| { NoJoinerInside(a, w + word + rest, t, kw, j); }
    JoinerText(t, kw, j);
    forall q | |a| <= q < m ensures t[q] == w[q - |a|] && IsSpace(t[q]) {}
    assert forall q :: m <= q < m + |word| ==> t[q] == word[q - m];
    if |t| > m + |word| { assert t[m + |word|] == rest[0]; }
    hide OccursAt;
  }

  /** None starts in a when a followed by a space holds none, and what follows begins with a space
      or the A or O of a word. */
  lemma NoJoinerInside(a: string, b: string, t: string, kw: string, j: nat)
    requires t == a + b && b != "" && (IsSpace(b[0]) || b[0] == 'A' || b[0] == 'O') && Joiner(kw)
    requires a != "" && !IsSpace(a[|a| - 1]) && !OccursAt(a + " ", kw, j) && j < |a|
    ensures !OccursAt(t, kw, j)
  {
    OccursChars(t, kw, j);
    OccursChars(a + " ", kw, j);
    assert forall q :: 0 <= q < |a| ==> t[q] == a[q] == (a + " ")[q];
    assert t[|a|] == b[0] && (a + " ")[|a|] == ' ';
    assert IsSpace(' ') && forall q :: 1 <= q < |kw| - 1 ==> !IsSpace(kw[q]);
    assert forall q :: 2 <= q < |kw| - 1 ==> kw[q] != 'A' && kw[q] != 'O';
    hide OccursAt, IsSpace;
  }

  lemma JoinerText(t: string, kw: string, j: nat)
    requires Joiner(kw) && OccursAt(t, kw, j)
    ensures j + |kw| <= |t| && forall q :: 0 <= q < |kw| ==> t[j + q] == kw[q]
    ensures t[j] == ' ' && t[j + |kw| - 1] == ' ' && !IsSpace(t[j + 1]) && !IsSpace(t[j + 2])
  {
    OccursChars(t, kw, j);
    forall q | 0 <= q < |kw| ensures t[j + q] == kw[q] {
      assert t[j + q] == kw[j + q - j];
    }
  }

  /** The condition ends at the joiner after it if that is set off, and past the word if not. */
  lemma FirstJoiner(r: string, after: After, n: nat)
    requires AfterOk(after) && r != "" && !IsSpace(r[|r| - 1]) && NoneOf(ToUpper(r) + " ", JOINERS)
    requires JoinerAt(r + Follow(after), n)
    ensures after.End? ==> n == |r|
    ensures after.Joined? && SetOff(after) ==> n + 1 == |r| + |after.w1|
    ensures after.Joined? && !SetOff(after) ==> n >= |r| + |after.w1| + |after.word|
  {
    JoinerFacts(r + Follow(after), n);
    match after
    case End =>
      assert r + "" == r;
      NoneAtAll(ToUpper(r));
    case Joined(w1, word, w2, text) =>
      var t := ToUpper(r + Follow(after));
      JoinedUpper(r, w1, word, w2 + text, t);
      hide NoneOf, ToUpper, SomeJoiner, JoinerAt;
      if n < |r| + |w1| + |word| { JoinerIsWord(r, after, t, n); }
      if SetOff(after) { JoinerThere(r, after, t); }
  }

  lemma NoneAtAll(a: string)
    requires NoneOf(a + " ", JOINERS)
    ensures forall j: nat :: !SomeJoiner(a, j)
  {
    JoinersAre();
    forall j: nat ensures !SomeJoiner(a, j) {
      assert !OccursAt(a + " ", JOINERS[0], j) && !OccursAt(a + " ", JOINERS[1], j);
      assert (a + " ")[..|a|] == a;
      OccursChars(a, " AND ", j);
      OccursChars(a, " OR ", j);
      OccursChars(a + " ", " AND ", j);
      OccursChars(a + " ", " OR ", j);
    }
  }

  lemma JoinedUpper(r: string, w1: string, word: string, rest: string, t: string)
    requires AllSpace(w1) && t == ToUpper(r + (w1 + word + rest))
    ensures t == ToUpper(r) + w1 + ToUpper(word) + ToUpper(rest) && |ToUpper(r)| == |r| && |ToUpper(word)| == |word|
  {
    UpperSpaces(w1);
    UpperConcat(r, w1 + word + rest);
    UpperConcat(w1 + word, rest);
    UpperConcat(w1, word);
  }

  lemma JoinerIsWord(r: string, after: After, t: string, n: nat)
    requires AfterOk(after) && after.Joined? && r != "" && !IsSpace(r[|r| - 1]) && NoneOf(ToUpper(r) + " ", JOINERS)
    requires t == ToUpper(r) + after.w1 + ToUpper(after.word) + ToUpper(after.w2 + after.text)
    requires SomeJoiner(t, n) && n < |r| + |after.w1| + |after.word|
    ensures SetOff(after) && n + 1 == |r| + |after.w1|
  {
    var a, rest := ToUpper(r), after.w2 + after.text;
    JoinersAre();
    assert !OccursAt(a + " ", JOINERS[0], n) && !OccursAt(a + " ", JOINERS[1], n);
    assert !IsSpace(a[|a| - 1]) by { assert a[|a| - 1] == Upper(r[|r| - 1]); }
    var kw := if OccursAt(t, " AND ", n) then " AND " else " OR ";
    NoJoinerBefore(a, after.w1, ToUpper(after.word), ToUpper(rest), t, kw, n);
    assert ToUpper(rest)[0] == Upper(rest[0]);
    RestStart(after.w2, after.text);
    hide OccursAt, NoneOf;
  }

  lemma RestStart(w: string, text: string)
    ensures w + text != "" ==> (w + text)[0] == if w == "" then text[0] else w[0]
  {
  }

  lemma JoinerThere(r: string, after: After, t: string)
    requires AfterOk(after) && after.Joined? && SetOff(after)
    requires t == ToUpper(r) + after.w1 + ToUpper(after.word) + ToUpper(after.w2 + after.text)
    ensures SomeJoiner(t, |r| + |after.w1| - 1)
  {
    var i, w := |r| + |after.w1| - 1, ToUpper(after.word);
    assert ToUpper(after.w2 + after.text)[0] == Upper(after.w2[0]) == ' ';
    assert t[i] == ' ' && t[i + 1..i + 1 + |w|] == w && t[i + 1 + |w|] == ' ';
    assert t[i..i + |w| + 2] == " " + w + " ";
  }

  predicate SameName(name: string, column: string) {
    |name| == |column| && FoldAt(name, column, 0)
  }

  /** Where the pieces of a clause are: u, the condition, w. */
  lemma ClausePieces(u: string, name: string, b1: string, r: string, column: string, w: string, clause: string, e: nat)
    requires clause == u + (name + b1 + "=" + r) + w && e == |u| + |name| + |b1|
    requires SameName(name, column) && Blanks(b1) && (u != "" ==> !IsWord(u[|u| - 1]))
    ensures |name| == |column| && FoldAt(clause, column, |u|) && !WordAt(clause, |u| - 1)
    ensures e < |clause| && clause[e] == '=' && clause[e + 1..] == r + w
    ensures forall q :: |u| + |column| <= q < e ==> In(Space, clause[q])
  {
    forall q | |u| <= q < |u| + |column| ensures Upper(clause[q]) == Upper(column[q - |u|]) {
      assert clause[q] == name[q - |u|];
    }
    forall q | |u| + |column| <= q < e ensures In(Space, clause[q]) {
      assert clause[q] == b1[q - |u| - |column|];
    }
  }

  /** The condition that is found runs from the column to the first joiner after the =. */
  lemma CutFound(u: string, name: string, b1: string, h: string, z: string, column: string, y: string, n: nat)
    requires h == name + b1 + "=" && y == u + (h + z) && WordText(column) && SameName(name, column) && Blanks(b1)
    requires (u != "" ==> !IsWord(u[|u| - 1])) && FirstAt(y, column, |u|) && JoinerAt(z, n)
    ensures n <= |z| && ConditionIn(y, column) == Extracted.Found(TrimSpace(h + z[..n]))
  {
    hide *;
    JoinerFacts(z, n);
    FoundThere(u, name, b1, h, z, column, y);
    ConditionThere(u, h, z, y, n);
  }

  lemma FoundThere(u: string, name: string, b1: string, h: string, z: string, column: string, y: string)
    requires h == name + b1 + "=" && y == u + (h + z) && WordText(column) && SameName(name, column) && Blanks(b1)
    requires (u != "" ==> !IsWord(u[|u| - 1])) && FirstAt(y, column, |u|)
    ensures ConditionIn(y, column) == Extracted.Found(CutCondition(y, |u|, |u| + |h|))
  {
    hide *;
    var e := |u| + |name| + |b1|;
    assert y == u + (h + z) + "";
    ClausePieces(u, name, b1, z, column, "", y, e);
    EqualsMatch(y, e);
    FindColumn(y, column, |u|, e, e + 1);
    FoundIs(y, column, |u|, e + 1);
  }

  lemma FoundIs(clause: string, column: string, x: nat, e: nat)
    requires Find(ColumnPattern(column), clause) == At(x, [e]) && x <= e <= |clause|
    ensures ConditionIn(clause, column) == Extracted.Found(CutCondition(clause, x, e))
  {
    hide ColumnPattern, Find, CutCondition;
  }

  lemma ConditionThere(u: string, h: string, z: string, y: string, n: nat)
    requires y == u + (h + z) && JoinerAt(z, n) && n <= |z|
    ensures CutCondition(y, |u|, |u| + |h|) == TrimSpace(h + z[..n])
  {
    hide *;
    CutLayout(u, h, z, y, n);
    CutUnfolds(y, |u|, |u| + |h|, z, n);
  }

  lemma CutLayout(u: string, h: string, z: string, y: string, n: nat)
    requires y == u + (h + z) && n <= |z|
    ensures |u| + |h| + n <= |y| && y[|u| + |h|..] == z && y[|u|..|u| + |h| + n] == h + z[..n]
  {
  }

  lemma CutUnfolds(y: string, x: nat, e: nat, z: string, n: nat)
    requires x <= e <= |y| && y[e..] == z && JoinerAt(z, n) && n <= |z|
    ensures CutCondition(y, x, e) == TrimSpace(y[x..e + n])
  {
    hide FirstOf, TrimSpace, ToUpper;
  }

  /** How far the condition that is found goes: not into what follows it when the joiner there is
      set off by plain spaces, and past the joiner's word when it is not. */
  lemma ConditionRuns(u: string, name: string, b1: string, h: string, r: string, column: string, after: After,
                      clause: string)
    returns (x: string)
    requires h == name + b1 + "=" && clause == u + (h + r) + Follow(after) && WordText(column) && AfterOk(after)
    requires SameName(name, column) && Blanks(b1) && (u != "" ==> !IsWord(u[|u| - 1])) && FirstAt(clause, column, |u|)
    requires Solid(h + r) && r != "" && NoneOf(ToUpper(r) + " ", JOINERS)
    ensures ConditionIn(clause, column) == Extracted.Found(h + r + TrimRightFunc(x, IsSpace)) && x <= Follow(after)
    ensures if SetOff(after) then AllSpace(x) else after.w1 + after.word <= x
  {
    hide *;
    var z := r + Follow(after);
    var n := FindJoiner(z);
    JoinerFacts(z, n);
    LastSolid(h, r);
    FirstJoiner(r, after, n);
    x := RunsTo(r, after, n);
    assert clause == u + (h + z);
    CutFound(u, name, b1, h, z, column, clause, n);
    assert z[..n] == r + x && h + z[..n] == "" + (h + r) + x;
    NoSpaces();
    TrimAround("", h + r, x);
  }

  lemma NoSpaces()
    ensures AllSpace("")
  {
  }

  lemma FindJoiner(z: string) returns (n: nat)
    ensures JoinerAt(z, n)
  {
    n := FirstOf(ToUpper(z), JOINERS, |z|);
  }

  lemma LastSolid(h: string, r: string)
    requires Solid(h + r) && r != ""
    ensures !IsSpace(r[|r| - 1])
  {
    assert (h + r)[|h + r| - 1] == r[|r| - 1];
  }

  lemma RunsTo(r: string, after: After, n: nat) returns (x: string)
    requires AfterOk(after) && n <= |r + Follow(after)| && (after.End? ==> n == |r|)
    requires after.Joined? && SetOff(after) ==> n + 1 == |r| + |after.w1|
    requires after.Joined? && !SetOff(after) ==> n >= |r| + |after.w1| + |after.word|
    ensures (r + Follow(after))[..n] == r + x && x <= Follow(after)
    ensures if SetOff(after) then AllSpace(x) else after.w1 + after.word <= x
  {
    var w := Follow(after);
    x := w[..n - |r|];
    if after.Joined? && SetOff(after) {
      assert forall q :: 0 <= q < |x| ==> x[q] == after.w1[q];
    }
  }

  /** The condition is cut out of the clause exactly when it ends the clause or the joiner after it
      is set off by plain spaces. */
  lemma ConditionFound(u: string, name: string, b1: string, h: string, r: string, column: string, after: After,
                       clause: string)
    requires h == name + b1 + "=" && clause == u + (h + r) + Follow(after) && WordText(column) && AfterOk(after)
    requires SameName(name, column) && Blanks(b1) && (u != "" ==> !IsWord(u[|u| - 1])) && FirstAt(clause, column, |u|)
    requires Solid(h + r) && r != "" && NoneOf(ToUpper(r) + " ", JOINERS)
    ensures ConditionIn(clause, column) == Extracted.Found(h + r) <==> SetOff(after)
  {
    hide *;
    var x := ConditionRuns(u, name, b1, h, r, column, after, clause);
    TrimsAway(x, IsSpace);
    var y := TrimRightFunc(x, IsSpace);
    assert |h + r + y| == |h + r| + |y|;
    SpacesOrWord(after, x);
    assert y == "" ==> h + r + y == h + r;
  }

  lemma SpacesOrWord(after: After, x: string)
    requires AfterOk(after) && if SetOff(after) then AllSpace(x) else after.w1 + after.word <= x
    ensures (forall q :: 0 <= q < |x| ==> IsSpace(x[q])) <==> SetOff(after)
  {
    if !SetOff(after) {
      assert x[|after.w1|] == after.word[0] && Upper(after.word[0]) == ToUpper(after.word)[0];
    }
  }

  // ---------- the clause inside a statement ----------

  predicate ClauseEnd(kw: string) {
    kw == "ORDER BY" || kw == "GROUP BY" || kw == "LIMIT" || kw == "HAVING"
  }

  lemma EndsAre()
    ensures |CLAUSE_ENDS| == 4 && forall k :: 0 <= k < 4 ==> ClauseEnd(CLAUSE_ENDS[k])
  {
  }

  /** The only space a keyword may have is before its BY. */
  lemma KeywordSpaces(kw: string)
    requires ClauseEnd(kw)
    ensures |kw| > 0 && kw[0] in "OGLH" && !IsSpace(kw[0])
    ensures forall o :: 0 <= o < |kw| && IsSpace(kw[o]) ==> o == 5 && |kw| == 8 && kw[6] == 'B'
  {
  }

  /** In blanks, clause, blanks, keyword, no keyword starts before the last one but in the clause. */
  lemma NoEndBefore(g: string, x: string, h: string, k: string, t: string, kw: string, j: nat)
    requires t == g + x + h + k && ClauseEnd(kw) && AllSpace(g) && AllSpace(h) && j < |g| + |x| + |h|
    requires j >= |g| ==> !OccursAt(x, kw, j - |g|)
    requires if k == "" then h == "" else h != "" && k[0] in "OGLH"
    ensures !OccursAt(t, kw, j)
  {
    var y := |g| + |x|;
    KeywordSpaces(kw);
    assert t[|g|..y] == x;
    if |g| <= j && j + |kw| <= y { InPart(g, x, t, kw, j); }
    assert j < |g| ==> IsSpace(t[j]) by { assert j < |g| ==> t[j] == g[j]; }
    assert j >= y ==> IsSpace(t[j]) by { assert j >= y ==> t[j] == h[j - y]; }
    CharOf(t, kw, j, j);
    if j < y < j + |kw| { CharOf(t, kw, j, y); }
    if j + 6 < j + |kw| { CharOf(t, kw, j, j + 6); }
    hide IsSpace, ClauseEnd, OccursAt;
  }

  ghost predicate NoneBefore(t: string, keywords: seq<string>, y: nat) {
    forall n, j: nat :: 0 <= n < |keywords| && j < y ==> !OccursAt(t, keywords[n], j)
  }

  /** Where the clause ends: at its first keyword, or at the one after it. */
  lemma ClauseEndsAt(g: string, x: string, h: string, k: string, t: string, p: nat, y: nat)
    requires t == g + x + h + k && AllSpace(g) && AllSpace(h)
    requires if k == "" then h == "" else h != "" && k[0] in "OGLH" && Starts(k)
    requires p == FirstOf(x, CLAUSE_ENDS, |x|) && y == if p < |x| then |g| + p else |g| + |x| + |h|
    ensures FirstOf(t, CLAUSE_ENDS, |t|) == y
  {
    FirstEnd(x);
    EndsAtBody(g, x, h, k, t, p, y);
    FirstOfIs(t, y);
  }

  lemma EndsAtBody(g: string, x: string, h: string, k: string, t: string, p: nat, y: nat)
    requires t == g + x + h + k && AllSpace(g) && AllSpace(h)
    requires if k == "" then h == "" else h != "" && k[0] in "OGLH" && Starts(k)
    requires p <= |x| && NoneBefore(x, CLAUSE_ENDS, p) && (p < |x| ==> EndAt(x, p))
    requires y == if p < |x| then |g| + p else |g| + |x| + |h|
    ensures y <= |t| && NoneBefore(t, CLAUSE_ENDS, y) && (y == |t| || EndAt(t, y))
  {
    hide *;
    NoEndsBefore(g, x, h, k, t, p, y);
    if p < |x| {
      KeywordShifts(g, x, h + k, t, p);
    } else if k != "" {
      StartsAfter(g + x + h, k);
    }
  }

  lemma FirstEnd(x: string)
    ensures var p := FirstOf(x, CLAUSE_ENDS, |x|);
      p <= |x| && NoneBefore(x, CLAUSE_ENDS, p) && (p < |x| ==> EndAt(x, p))
  {
    hide FirstOf, OccursAt;
  }

  lemma FirstOfIs(t: string, y: nat)
    requires y <= |t| && NoneBefore(t, CLAUSE_ENDS, y) && (y == |t| || EndAt(t, y))
    ensures FirstOf(t, CLAUSE_ENDS, |t|) == y
  {
    FirstOfUnique(t, CLAUSE_ENDS, |t|, y);
  }

  lemma NoEndsBefore(g: string, x: string, h: string, k: string, t: string, p: nat, y: nat)
    requires t == g + x + h + k && AllSpace(g) && AllSpace(h)
    requires if k == "" then h == "" else h != "" && k[0] in "OGLH"
    requires NoneBefore(x, CLAUSE_ENDS, p) && p <= |x| && y == if p < |x| then |g| + p else |g| + |x| + |h|
    ensures NoneBefore(t, CLAUSE_ENDS, y)
  {
    EndsAre();
    hide OccursAt, AllSpace, ClauseEnd;
    forall n, j: nat | 0 <= n < |CLAUSE_ENDS| && j < y ensures !OccursAt(t, CLAUSE_ENDS[n], j) {
      if j >= |g| { NotBefore(x, CLAUSE_ENDS[n], p, j - |g|); }
      NoEndBefore(g, x, h, k, t, CLAUSE_ENDS[n], j);
    }
  }

  lemma NotBefore(x: string, kw: string, p: nat, i: nat)
    requires ClauseEnd(kw) && (i < p ==> !OccursAt(x, kw, i)) && (i < |x| ==> i < p)
    ensures !OccursAt(x, kw, i)
  {
  }

  lemma KeywordShifts(g: string, x: string, r: string, t: string, p: nat)
    requires t == g + x + r && EndAt(x, p)
    ensures EndAt(t, |g| + p)
  {
    var n :| 0 <= n < |CLAUSE_ENDS| && OccursAt(x, CLAUSE_ENDS[n], p);
    ThreeParts(g, x, r);
    SubOccurs(t, x, |g|, p, CLAUSE_ENDS[n]);
  }

  /** A keyword at p. */
  ghost predicate EndAt(t: string, p: nat) {
    exists n :: 0 <= n < |CLAUSE_ENDS| && OccursAt(t, CLAUSE_ENDS[n], p)
  }

  ghost predicate Starts(k: string) {
    EndAt(k, 0)
  }

  lemma StartsAfter(a: string, k: string)
    requires Starts(k)
    ensures EndAt(a + k, |a|)
  {
    var n :| 0 <= n < |CLAUSE_ENDS| && OccursAt(k, CLAUSE_ENDS[n], 0);
    var kw := CLAUSE_ENDS[n];
    assert (a + k)[|a|..|a| + |kw|] == k[0..|kw|];
  }

  lemma EndLetter(t: string, p: nat)
    requires EndAt(t, p)
    ensures p < |t| && t[p] in "OGLH"
  {
    EndsAre();
    var n :| 0 <= n < |CLAUSE_ENDS| && OccursAt(t, CLAUSE_ENDS[n], p);
    KeywordSpaces(CLAUSE_ENDS[n]);
    OccursChars(t, CLAUSE_ENDS[n], p);
  }

  lemma StartsLetter(k: string)
    requires Starts(k)
    ensures k != "" && k[0] in "OGLH"
  {
    EndLetter(k, 0);
  }

  /** Where the clause x is cut: at its first keyword. */
  function Cut(x: string): (p: nat)
    ensures p <= |x|
  {
    FirstOf(ToUpper(x), CLAUSE_ENDS, |x|)
  }

  /** The clause of a statement head WHERE clause tail: the text up to the first keyword, be it
      the tail's or a part of some name or value. */
  lemma ClauseFound(head: string, wh: string, g: string, x: string, h: string, k: string, rest: string, sql: string)
    requires sql == head + wh + rest && rest == g + x + h + k && Solid(sql) && Solid(x)
    requires ToUpper(wh) == "WHERE" && Index(ToUpper(head + wh), "WHERE") == |head|
    requires AllSpace(g) && AllSpace(h)
    requires if k == "" then h == "" else h != "" && Starts(ToUpper(k))
    ensures HasWhere(sql) && Clause(sql) == TrimSpace(x[..Cut(x)])
  {
    hide *;
    TrimLead("", sql);
    assert "" + sql == sql;
    WhereAt(head, wh, rest, sql);
    UpperRest(g, x, h, k, rest);
    if k != "" { StartsLetter(ToUpper(k)); }
    CutIsFirst(x);
    var p := Cut(x);
    var y := if p < |x| then |g| + p else |g| + |x| + |h|;
    ClauseEndsAt(g, ToUpper(x), h, ToUpper(k), ToUpper(rest), p, y);
    TrimClause(g, x, h, k, rest, p, y);
    ClauseOf(sql, head, rest, y, TrimSpace(x[..p]));
  }

  lemma CutIsFirst(x: string)
    ensures Cut(x) == FirstOf(ToUpper(x), CLAUSE_ENDS, |ToUpper(x)|) && Cut(x) <= |x| == |ToUpper(x)|
  {
    hide FirstOf;
  }

  lemma TrimClause(g: string, x: string, h: string, k: string, rest: string, p: nat, y: nat)
    requires rest == g + x + h + k && AllSpace(g) && AllSpace(h) && Solid(x)
    requires p <= |x| && y == if p < |x| then |g| + p else |g| + |x| + |h|
    ensures y <= |rest| && TrimSpace(rest[..y]) == TrimSpace(x[..p])
  {
    var z := x[..p];
    TrimLeftSkips("", z, IsSpace);
    assert "" + z == z;
    if p < |x| {
      assert rest[..y] == g + z;
      TrimLeftSkips(g, z, IsSpace);
    } else {
      assert z == x && rest[..y] == g + x + h;
      TrimCore(g, x, h, IsSpace);
      TrimSolid(x);
    }
  }

  lemma UpperRest(g: string, x: string, h: string, k: string, rest: string)
    requires rest == g + x + h + k && AllSpace(g) && AllSpace(h)
    ensures ToUpper(rest) == g + ToUpper(x) + h + ToUpper(k)
    ensures |ToUpper(x)| == |x| && |ToUpper(rest)| == |rest| && |ToUpper(k)| == |k|
  {
    UpperSpaces(g);
    UpperSpaces(h);
    UpperConcat(g + x + h, k);
    UpperConcat(g + x, h);
    UpperConcat(g, x);
  }

  lemma WhereAt(head: string, wh: string, rest: string, sql: string)
    requires sql == head + wh + rest && ToUpper(wh) == "WHERE" && Index(ToUpper(head + wh), "WHERE") == |head|
    ensures |wh| == 5 && Index(ToUpper(sql), "WHERE") == |head|
  {
    var s, t := ToUpper(head + wh), ToUpper(sql);
    UpperConcat(head + wh, rest);
    assert |wh| == |ToUpper(wh)|;
    forall j | 0 <= j <= |head| ensures OccursAt(t, "WHERE", j) <==> OccursAt(s, "WHERE", j) {
      assert t[j..j + 5] == s[j..j + 5];
    }
    hide ToUpper, OccursAt;
    IndexIs(t, "WHERE", |head|);
  }

  lemma ClauseOf(sql: string, head: string, rest: string, y: nat, x: string)
    requires TrimSpace(sql) == sql && Index(ToUpper(sql), "WHERE") == |head| && |head| + 5 <= |sql|
    requires sql[|head| + 5..] == rest
    requires FirstOf(ToUpper(rest), CLAUSE_ENDS, |ToUpper(rest)|) == y && y <= |rest| && TrimSpace(rest[..y]) == x
    ensures HasWhere(sql) && Clause(sql) == x
  {
    hide TrimSpace, FirstOf, Index;
  }

  // ---------- a condition anywhere in a clause ----------

  /** head WHERE lead name = literal after, and what may follow the clause: blanks and a keyword
      with the rest of the statement. lead is any text before the condition. */
  datatype Statement = Statement(head: string, whereText: string, gap: string, lead: string,
                                 name: string, b1: string, b2: string, literal: Literal,
                                 after: After, gap2: string, tail: string)

  function ConditionText(st: Statement): string {
    PrintCondition(st.name, st.b1, st.b2, st.literal)
  }

  function ClauseText(st: Statement): string {
    st.lead + ConditionText(st) + Follow(st.after)
  }

  function RestText(st: Statement): string {
    st.gap + ClauseText(st) + st.gap2 + st.tail
  }

  function Text(st: Statement): string {
    st.head + st.whereText + RestText(st)
  }

  /** The column is compared nowhere between the first WHERE and the condition, nor inside its
      value; a joiner that touches the value touches a quote. */
  ghost predicate Shaped(st: Statement, column: string) {
    && WordText(column) && SameName(st.name, column) && Blanks(st.b1) && AllSpace(st.b2) && Printable(st.literal)
    && AfterOk(st.after) && (st.after.Joined? && st.after.w1 == "" ==> st.literal.Quoted?)
    && (st.lead != "" ==> !IsWord(st.lead[|st.lead| - 1]))
    && FirstAt(ClauseText(st), column, |st.lead|) && OnlyFirst(ConditionText(st), column)
    && ToUpper(st.whereText) == "WHERE" && Index(ToUpper(st.head + st.whereText), "WHERE") == |st.head|
    && AllSpace(st.gap) && AllSpace(st.gap2) && Solid(ClauseText(st)) && Solid(Text(st))
    && (if st.tail == "" then st.gap2 == "" else st.gap2 != "" && Starts(ToUpper(st.tail)))
  }

  /** No joiner inside the literal. */
  ghost predicate JoinerFree(st: Statement) {
    NoneOf(ToUpper(st.b2 + PrintLiteral(st.literal)) + " ", JOINERS)
  }

  /** The first keyword inside the clause, if any, comes after the condition and its joiner, and
      not right after them: a name like limits begins with a keyword. */
  predicate Uncut(st: Statement) {
    UncutAt(ClauseText(st), |st.lead| + |ConditionText(st)| + JoinLength(st.after), Cut(ClauseText(st)))
  }

  predicate UncutAt(clause: string, m: nat, p: nat)
    requires p <= |clause|
  {
    p == |clause| || (m <= p && !AllSpace(clause[m..p]))
  }

  ghost predicate Extractable(st: Statement, column: string) {
    Shaped(st, column) && JoinerFree(st) && Uncut(st) && SetOff(st.after)
  }

  lemma ConditionSolid(name: string, b1: string, b2: string, l: Literal, column: string)
    requires WordText(column) && SameName(name, column) && Printable(l)
    ensures Solid(PrintCondition(name, b1, b2, l))
  {
    var t := PrintCondition(name, b1, b2, l);
    LiteralSolid(l);
    assert t[0] == name[0] && t[|t| - 1] == PrintLiteral(l)[|PrintLiteral(l)| - 1];
    assert Upper(name[0]) == Upper(column[0]);
    UpperWord(name[0], column[0]);
  }

  /** Extraction inverts printing: from any such clause the value comes back, exactly for the
      literals of ComesBack. */
  lemma ExtractionInverts(st: Statement, column: string)
    requires Extractable(st, column)
    ensures ShardingValue(Text(st), column) == Extracted.Found(st.literal.v) <==> ComesBack(st.literal)
  {
    hide *;
    var u, cond, clause, sql := st.lead, ConditionText(st), ClauseText(st), Text(st);
    ExtractableIs(st, column);
    Unfolded(st, column);
    ClauseStep(st, column, u, cond, clause, sql);
    ConditionStep(st, column, u, cond, clause, sql, Cut(clause));
    ValueStep(st, column, u, cond, clause, sql);
    Assembled(sql, column, TrimSpace(clause[..Cut(clause)]), cond);
  }

  lemma ExtractableIs(st: Statement, column: string)
    requires Extractable(st, column)
    ensures Shaped(st, column) && NoneOf(ToUpper(st.b2 + PrintLiteral(st.literal)) + " ", JOINERS) && SetOff(st.after)
    ensures UncutAt(ClauseText(st), |st.lead| + |ConditionText(st)| + JoinLength(st.after), Cut(ClauseText(st)))
  {
    hide Shaped, NoneOf, UncutAt, Cut, ClauseText, ConditionText, PrintLiteral, SetOff, JoinLength;
  }

  lemma Unfolded(st: Statement, column: string)
    requires Shaped(st, column)
    ensures Facts(st, column, st.lead, ConditionText(st), ClauseText(st), Text(st))
  {
    hide FirstAt, OnlyFirst, Solid, ToUpper, PrintCondition, Starts, Index, AfterOk;
  }

  /** The hypotheses, over the pieces. */
  ghost predicate Facts(st: Statement, column: string, u: string, cond: string, clause: string, sql: string) {
    && WordText(column) && SameName(st.name, column) && Blanks(st.b1) && AllSpace(st.b2) && Printable(st.literal)
    && AfterOk(st.after) && (st.after.Joined? && st.after.w1 == "" ==> st.literal.Quoted?)
    && cond == PrintCondition(st.name, st.b1, st.b2, st.literal) && clause == u + cond + Follow(st.after)
    && sql == st.head + st.whereText + (st.gap + clause + st.gap2 + st.tail)
    && (u != "" ==> !IsWord(u[|u| - 1])) && FirstAt(clause, column, |u|) && OnlyFirst(cond, column)
    && ToUpper(st.whereText) == "WHERE" && Index(ToUpper(st.head + st.whereText), "WHERE") == |st.head|
    && AllSpace(st.gap) && AllSpace(st.gap2) && Solid(clause) && Solid(sql)
    && (if st.tail == "" then st.gap2 == "" else st.gap2 != "" && Starts(ToUpper(st.tail)))
  }

  lemma ClauseStep(st: Statement, column: string, u: string, cond: string, clause: string, sql: string)
    requires Facts(st, column, u, cond, clause, sql)
    ensures HasWhere(sql) && Clause(sql) == TrimSpace(clause[..Cut(clause)])
  {
    hide FirstAt, OnlyFirst, Solid, ToUpper, PrintCondition, Starts, HasWhere, Clause, AllSpace, WordText, SameName;
    hide TrimSpace, Cut, Printable, Blanks, Index, AfterOk;
    ClauseFound(st.head, st.whereText, st.gap, clause, st.gap2, st.tail, st.gap + clause + st.gap2 + st.tail, sql);
  }

  /** A comparison in a prefix is one in the whole text. */
  lemma ComparedPrefix(z: string, s: string, column: string, j: nat)
    requires z <= s && Compared(z, column, j)
    ensures Compared(s, column, j)
  {
    SkipPrefix(z, s, j + |column|);
    OperatorPrefix(z, s, SkipBlanks(z, j + |column|));
    hide OperatorText;
  }

  lemma OperatorPrefix(z: string, s: string, e: nat)
    requires z <= s && OperatorText(z, e)
    ensures OperatorText(s, e)
  {
    OccursChars(z, "!=", e);
    OccursChars(s, "!=", e);
    FoldPrefix(z, s, "IN", e);
    FoldPrefix(z, s, "BETWEEN", e);
    if ParenthesisAt(z, e + 2) { SkipPrefix(z, s, e + 2); }
    hide FoldAt, OccursAt, In;
  }

  lemma FoldPrefix(z: string, s: string, t: string, e: nat)
    requires z <= s
    ensures FoldAt(z, t, e) ==> FoldAt(s, t, e)
  {
  }

  lemma {:induction false} SkipPrefix(z: string, s: string, i: nat)
    requires z <= s && i <= |z|
    ensures SkipBlanks(z, i) < |z| ==> SkipBlanks(s, i) == SkipBlanks(z, i)
    decreases |z| - i
  {
    if i < |z| && In(Space, z[i]) { SkipPrefix(z, s, i + 1); }
  }

  lemma FirstInPrefix(z: string, s: string, column: string, x: nat)
    requires z <= s && FirstAt(s, column, x)
    ensures FirstAt(z, column, x)
  {
    forall j: nat | j < x && Compared(z, column, j) ensures false { ComparedPrefix(z, s, column, j); }
  }

  lemma OnlyInPrefix(z: string, s: string, column: string)
    requires z <= s && OnlyFirst(s, column)
    ensures OnlyFirst(z, column)
  {
    forall j: nat | 0 < j && Compared(z, column, j) ensures false { ComparedPrefix(z, s, column, j); }
  }

  /** A clause cut after the condition and its joiner is again a condition and what follows it; a
      cut right after the joiner leaves the word without the space it needs. */
  lemma CutAfter(c: string, after: After, clause: string, p: nat) returns (b: After)
    requires clause == c + Follow(after) && Solid(clause) && Solid(c) && AfterOk(after)
    requires p == |clause| || |c| + JoinLength(after) <= p < |clause|
    ensures TrimSpace(clause[..p]) == c + Follow(b) <= clause && AfterOk(b)
    ensures if after.End? then b.End? else b.Joined? && b.w1 == after.w1 && b.word == after.word
    ensures SetOff(b) <==> SetOff(after) && UncutAt(clause, |c| + JoinLength(after), p)
    ensures !UncutAt(clause, |c| + JoinLength(after), p) ==> b.Joined? && Follow(b) == b.w1 + b.word
  {
    hide *;
    var k := p - |c|;
    CutPlain(c, after, clause, p, k);
    TrimAround("", c, Follow(after)[..k]);
    if p == |clause| {
      b := after;
      WholeAfter(c, after, clause, p);
    } else {
      PastIsJoined(c, after, clause, p);
      b := CutText(after, k);
      AtCut(c, after, clause, p, k);
      assert c + Follow(b) == clause[..|c + Follow(b)|];
    }
  }

  lemma CutPlain(c: string, after: After, clause: string, p: nat, k: int)
    requires clause == c + Follow(after) && k == p - |c| && (p == |clause| || |c| + JoinLength(after) <= p < |clause|)
    ensures 0 <= k <= |Follow(after)| && clause[..p] == "" + c + Follow(after)[..k] && AllSpace("")
  {
    hide Follow;
  }

  lemma WholeAfter(c: string, after: After, clause: string, p: nat)
    requires clause == c + Follow(after) && Solid(clause) && p == |clause|
    ensures UncutAt(clause, |c| + JoinLength(after), p) && c + Follow(after) <= clause
    ensures TrimRightFunc(Follow(after)[..p - |c|], IsSpace) == Follow(after)
  {
    var w := Follow(after);
    hide Follow;
    assert w[..|w|] == w;
    if w != "" { assert w[|w| - 1] == clause[|clause| - 1]; }
  }

  lemma PastIsJoined(c: string, after: After, clause: string, p: nat)
    requires clause == c + Follow(after) && |c| + JoinLength(after) <= p < |clause|
    ensures after.Joined?
  {
  }

  lemma AtCut(c: string, after: After, clause: string, p: nat, k: nat)
    requires clause == c + Follow(after) && |c| + JoinLength(after) <= p < |clause| && k == p - |c| && after.Joined?
    ensures JoinLength(after) <= k <= |Follow(after)| && k - JoinLength(after) <= |after.text|
    ensures UncutAt(clause, |c| + JoinLength(after), p) <==> !AllSpace(after.text[..k - JoinLength(after)])
  {
    hide AllSpace;
    assert clause[|c| + JoinLength(after)..p] == after.text[..k - JoinLength(after)];
  }

  lemma CutText(after: After, k: nat) returns (b: After)
    requires after.Joined? && AfterOk(after) && JoinLength(after) <= k <= |Follow(after)|
    ensures b.Joined? && b.w1 == after.w1 && b.word == after.word && AfterOk(b)
    ensures TrimRightFunc(Follow(after)[..k], IsSpace) == Follow(b) <= Follow(after)
    ensures k - JoinLength(after) <= |after.text|
    ensures if AllSpace(after.text[..k - JoinLength(after)]) then !SetOff(b) && Follow(b) == b.w1 + b.word
            else SetOff(b) <==> SetOff(after)
  {
    var n := k - JoinLength(after);
    assert n <= |after.text|;
    if AllSpace(after.text[..n]) {
      b := NoText(after, k, n);
    } else {
      b := SomeOfText(after, k, n);
    }
  }

  lemma NoText(after: After, k: nat, n: nat) returns (b: After)
    requires after.Joined? && AfterOk(after) && k == JoinLength(after) + n && n <= |after.text|
    requires AllSpace(after.text[..n])
    ensures b == Joined(after.w1, after.word, "", "") && AfterOk(b) && Follow(b) == b.w1 + b.word
    ensures k <= |Follow(after)| && TrimRightFunc(Follow(after)[..k], IsSpace) == Follow(b) <= Follow(after)
  {
    var x, head := after.text[..n], after.w1 + after.word;
    b := Joined(after.w1, after.word, "", "");
    WordEnds(after);
    assert Follow(after)[..k] == head + (after.w2 + x);
    assert Follow(b) == head == Follow(after)[..|head|];
    hide Follow, JoinWord;
    TrimRightSkips(head, after.w2 + x, IsSpace);
  }

  lemma SomeOfText(after: After, k: nat, n: nat) returns (b: After)
    requires after.Joined? && AfterOk(after) && k == JoinLength(after) + n && n <= |after.text|
    requires !AllSpace(after.text[..n])
    ensures b.Joined? && b.w1 == after.w1 && b.word == after.word && AfterOk(b) && (SetOff(b) <==> SetOff(after))
    ensures k <= |Follow(after)| && TrimRightFunc(Follow(after)[..k], IsSpace) == Follow(b) <= Follow(after)
  {
    var x := after.text[..n];
    var j := TrimRightSlice(x, IsSpace);
    var y, z := x[..j], x[j..];
    assert x == y + z && y <= after.text && y != "";
    b := after.(text := y);
    var f := Follow(b);
    FollowCut(after, y, z, k, n, f);
    LastOfText(after, y, f);
    hide Follow, JoinWord, IsSpace;
    TrimRightSkips(f, z, IsSpace);
  }

  lemma FollowCut(after: After, y: string, z: string, k: nat, n: nat, f: string)
    requires after.Joined? && k == JoinLength(after) + n && n <= |after.text| && after.text[..n] == y + z
    requires f == Follow(after.(text := y))
    ensures k <= |Follow(after)| && Follow(after)[..k] == f + z && f <= Follow(after)
  {
    assert Follow(after)[..k] == after.w1 + after.word + (after.w2 + (y + z));
    assert f <= Follow(after)[..k];
  }

  lemma LastOfText(after: After, y: string, f: string)
    requires after.Joined? && f == Follow(after.(text := y)) && y != ""
    ensures f != "" && f[|f| - 1] == y[|y| - 1]
  {
  }

  lemma WordEnds(after: After)
    requires after.Joined? && AfterOk(after)
    ensures var h := after.w1 + after.word; h != "" && !IsSpace(h[|h| - 1])
  {
    var n := |after.word|;
    assert n == |ToUpper(after.word)| && Upper(after.word[n - 1]) == ToUpper(after.word)[n - 1];
  }

  lemma ConditionStep(st: Statement, column: string, u: string, cond: string, clause: string, sql: string, p: nat)
    requires Facts(st, column, u, cond, clause, sql) && p <= |clause| && SetOff(st.after)
    requires UncutAt(clause, |u| + |cond| + JoinLength(st.after), p)
    requires NoneOf(ToUpper(st.b2 + PrintLiteral(st.literal)) + " ", JOINERS)
    ensures ConditionIn(TrimSpace(clause[..p]), column) == Extracted.Found(cond)
  {
    hide *;
    var h, r := st.name + st.b1 + "=", st.b2 + PrintLiteral(st.literal);
    FactPieces(st, column, u, cond, clause, sql, h, r);
    UncutRange(clause, |u| + |cond| + JoinLength(st.after), p);
    assert |u + cond| == |u| + |cond|;
    var b := CutAfter(u + cond, st.after, clause, p);
    FirstInPrefix(u + cond + Follow(b), clause, column, |u|);
    ConditionFound(u, st.name, st.b1, h, r, column, b, u + cond + Follow(b));
  }

  lemma UncutRange(clause: string, m: nat, p: nat)
    requires p <= |clause| && UncutAt(clause, m, p)
    ensures p == |clause| || m <= p < |clause|
  {
  }

  lemma FactPieces(st: Statement, column: string, u: string, cond: string, clause: string, sql: string, h: string,
                   r: string)
    requires Facts(st, column, u, cond, clause, sql) && h == st.name + st.b1 + "="
    requires r == st.b2 + PrintLiteral(st.literal)
    ensures cond == h + r && r != "" && Solid(h + r) && clause == u + cond + Follow(st.after) && Solid(clause)
    ensures WordText(column) && SameName(st.name, column) && Blanks(st.b1) && AfterOk(st.after)
    ensures (u != "" ==> !IsWord(u[|u| - 1])) && FirstAt(clause, column, |u|) && Solid(u + cond)
  {
    ConditionSolid(st.name, st.b1, st.b2, st.literal, column);
    LiteralSolid(st.literal);
    assert (u + cond)[0] == clause[0] && (u + cond)[|u + cond| - 1] == cond[|cond| - 1];
    hide FirstAt, OnlyFirst, ToUpper, Starts, AllSpace, WordText, SameName, Blanks, PrintLiteral, AfterOk, Index;
  }

  lemma ValueStep(st: Statement, column: string, u: string, cond: string, clause: string, sql: string)
    requires Facts(st, column, u, cond, clause, sql)
    ensures ValueOfCondition(cond, column) == st.literal.v <==> ComesBack(st.literal)
  {
    SameLength(st.name, column) by { hide FirstAt, OnlyFirst, ToUpper, Index, AfterOk; }
    hide FirstAt, OnlyFirst, Solid, ToUpper, Starts, AllSpace, WordText, SameName, Printable, Blanks, Index, AfterOk;
    hide PrintLiteral, PrintCondition, FoldAt, ValueOfCondition, ComesBack;
    ConditionValue(st.name, st.b1, st.b2, st.literal, column, cond);
  }

  lemma SameLength(name: string, column: string)
    requires SameName(name, column)
    ensures |name| == |column|
  {
  }

  lemma Assembled(sql: string, column: string, clause: string, cond: string)
    requires HasWhere(sql) && Clause(sql) == clause && ConditionIn(clause, column) == Extracted.Found(cond)
    ensures ShardingValue(sql, column) == Extracted.Found(ValueOfCondition(cond, column))
  {
    hide HasWhere, Clause, ConditionIn, ValueOfCondition;
  }
}
