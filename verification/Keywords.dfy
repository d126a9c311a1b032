/** What keywords and white space inside a WHERE clause do to extraction: the clause is cut at the
    first place of ORDER BY, GROUP BY, LIMIT or HAVING and the condition at the first AND or OR
    between plain spaces, even inside a name or a value. Here is exactly when the sharding value
    comes back all the same. */
module Keywords {
  import opened GoStrings
  import opened Regex
  import opened Extract

  predicate Letter(c: char) {
    'A' <= Upper(c) <= 'Z'
  }

  /** A quoted literal, or a bare one without letters and spaces, such as a number. */
  predicate Plain(l: Literal) {
    match l
    case Quoted(q, _) => q in QUOTES
    case Bare(v) => v != "" && forall i :: 0 <= i < |v| ==> !IsSpace(v[i]) && !Letter(v[i])
  }

  lemma PlainComesBack(l: Literal)
    requires Plain(l)
    ensures Printable(l) && (ComesBack(l) <==> Edge(l.v, OneOf(CUT)))
  {
    if l.Bare? { NoLetterFirst(l.v); }
    hide Edge, TakesIn, TakesBetween;
  }

  lemma NoLetterFirst(t: string)
    requires t != "" && !Letter(t[0])
    ensures !TakesIn(t) && !TakesBetween(t)
  {
    assert ToUpper(t)[0] == Upper(t[0]);
  }

  lemma LastPlain(l: Literal)
    requires Plain(l)
    ensures var t := PrintLiteral(l); t != "" && !Letter(t[|t| - 1]) && !Letter(t[0]) && Solid(t)
  {
  }

  /** column = literal anywhere in a clause: its value comes back exactly when it has no quote or
      space at either end and holds no joiner, the condition ends the clause or the joiner after it
      stands between plain spaces, and the first keyword of the clause, if any, comes after that
      joiner and not right after it. */
  lemma ExtractionIff(st: Statement, column: string)
    requires Shaped(st, column) && Plain(st.literal) && !JoinWord(column)
    ensures ShardingValue(Text(st), column) == Extracted.Found(st.literal.v)
       <==> Edge(st.literal.v, OneOf(CUT)) && JoinerFree(st) && Uncut(st) && SetOff(st.after)
  {
    hide *;
    PlainComesBack(st.literal);
    if JoinerFree(st) && Uncut(st) && SetOff(st.after) {
      AllHold(st, column);
      ExtractionInverts(st, column);
    } else {
      Lost(st, column);
    }
  }

  lemma AllHold(st: Statement, column: string)
    requires Shaped(st, column) && JoinerFree(st) && Uncut(st) && SetOff(st.after)
    ensures Extractable(st, column)
  {
    hide Shaped, JoinerFree, Uncut, SetOff;
  }

  /** Otherwise it is lost. */
  lemma Lost(st: Statement, column: string)
    requires Shaped(st, column) && Plain(st.literal) && !JoinWord(column)
    requires !(JoinerFree(st) && Uncut(st) && SetOff(st.after))
    ensures ShardingValue(Text(st), column) != Extracted.Found(st.literal.v)
  {
    hide *;
    var u, cond, clause, sql := st.lead, ConditionText(st), ClauseText(st), Text(st);
    var p := Cut(clause);
    Unfolded(st, column);
    ClauseStep(st, column, u, cond, clause, sql);
    CutWord(clause);
    PiecesHold(st, column, u, cond, clause, sql, p);
    NotAll(st, u, cond, clause);
    LostIn(st, column, u, cond, clause, p);
    LostUnfolds(sql, column, TrimSpace(clause[..p]), st.literal.v);
  }

  lemma NotAll(st: Statement, u: string, cond: string, clause: string)
    requires u == st.lead && cond == ConditionText(st) && clause == ClauseText(st)
    requires !(JoinerFree(st) && Uncut(st) && SetOff(st.after))
    ensures Fails(st, |u| + |cond|, clause, Cut(clause))
  {
    hide NoneOf, UncutAt, Cut, ClauseText, ConditionText, PrintLiteral, SetOff, JoinLength;
  }

  /** A joiner in the literal, a keyword before the text after the joiner, or a joiner that is not
      set off. */
  ghost predicate Fails(st: Statement, n: nat, clause: string, p: nat)
    requires p <= |clause|
  {
    || !NoneOf(ToUpper(st.b2 + PrintLiteral(st.literal)) + " ", JOINERS)
    || !UncutAt(clause, n + JoinLength(st.after), p)
    || !SetOff(st.after)
  }

  lemma LostUnfolds(sql: string, column: string, y: string, v: string)
    requires HasWhere(sql) && Clause(sql) == y
    requires ConditionIn(y, column) == NoColumn
          || (ConditionIn(y, column).Found? && ValueOfCondition(ConditionIn(y, column).text, column) != v)
    ensures ShardingValue(sql, column) != Extracted.Found(v)
  {
    hide HasWhere, Clause, ConditionIn, ValueOfCondition;
  }

  /** A keyword at p begins with five letters, the first of which is one of four. */
  predicate KeywordAt(clause: string, p: nat) {
    p + 5 <= |clause| && Upper(clause[p]) in "OGLH" && forall q :: p <= q < p + 5 ==> Letter(clause[q])
  }

  lemma CutWord(x: string)
    ensures Cut(x) < |x| ==> KeywordAt(x, Cut(x))
  {
    CutIsFirst(x);
    FirstEnd(ToUpper(x));
    if Cut(x) < |x| { EndLetters(ToUpper(x), Cut(x)); }
    hide Cut, FirstOf;
  }

  lemma EndLetters(t: string, p: nat)
    requires EndAt(t, p)
    ensures p + 5 <= |t| && t[p] in "OGLH" && forall q :: p <= q < p + 5 ==> 'A' <= t[q] <= 'Z'
  {
    EndsAre();
    var n :| 0 <= n < |CLAUSE_ENDS| && OccursAt(t, CLAUSE_ENDS[n], p);
    var kw := CLAUSE_ENDS[n];
    OccursChars(t, kw, p);
    assert |kw| >= 5 && forall o :: 0 <= o < 5 ==> 'A' <= kw[o] <= 'Z';
    forall q | p <= q < p + 5 ensures 'A' <= t[q] <= 'Z' { assert t[q] == kw[q - p]; }
  }

  /** The clause in pieces, cut at p. */
  ghost predicate Pieces(st: Statement, column: string, u: string, cond: string, clause: string, p: nat) {
    && WordText(column) && !JoinWord(column) && SameName(st.name, column) && Blanks(st.b1) && AllSpace(st.b2)
    && Plain(st.literal) && AfterOk(st.after) && (st.after.Joined? && st.after.w1 == "" ==> st.literal.Quoted?)
    && cond == st.name + st.b1 + "=" + (st.b2 + PrintLiteral(st.literal)) && clause == u + cond + Follow(st.after)
    && (u != "" ==> !IsWord(u[|u| - 1])) && FirstAt(clause, column, |u|) && OnlyFirst(cond, column)
    && Solid(clause) && Solid(cond) && p <= |clause| && (p < |clause| ==> KeywordAt(clause, p))
  }

  lemma PiecesHold(st: Statement, column: string, u: string, cond: string, clause: string, sql: string, p: nat)
    requires Facts(st, column, u, cond, clause, sql) && Plain(st.literal) && !JoinWord(column)
    requires p <= |clause| && (p < |clause| ==> KeywordAt(clause, p))
    ensures Pieces(st, column, u, cond, clause, p)
  {
    ConditionSolid(st.name, st.b1, st.b2, st.literal, column);
    hide FirstAt, OnlyFirst, Solid, ToUpper, Starts, AllSpace, WordText, SameName, Printable, Blanks, PrintLiteral;
    hide Plain, KeywordAt, JoinWord, AfterOk, Index;
  }

  lemma LostIn(st: Statement, column: string, u: string, cond: string, clause: string, p: nat)
    requires Pieces(st, column, u, cond, clause, p) && Fails(st, |u| + |cond|, clause, p)
    ensures var c := ConditionIn(TrimSpace(clause[..p]), column);
      c == NoColumn || (c.Found? && ValueOfCondition(c.text, column) != st.literal.v)
  {
    hide *;
    if p <= |u| + |st.name| + |st.b1| {
      NothingFound(st, column, u, cond, clause, p);
    } else if p < |u| + |cond| {
      CutInLiteral(st, column, u, cond, clause, p);
    } else {
      CutBehind(st, column, u, cond, clause, p);
    }
  }

  /** A keyword right after the joiner, which may only be the beginning of a name: the joiner
      becomes a part of the value. */
  lemma KeywordNext(st: Statement, column: string)
    requires Shaped(st, column) && Plain(st.literal) && !JoinWord(column) && JoinerFree(st) && !Uncut(st)
    requires Cut(ClauseText(st)) >= |st.lead| + |ConditionText(st)|
    ensures st.after.Joined?
    ensures ShardingValue(Text(st), column)
         == Extracted.Found(Trim(PrintLiteral(st.literal) + (st.after.w1 + st.after.word), CUT))
  {
    hide *;
    var u, cond, clause, sql := st.lead, ConditionText(st), ClauseText(st), Text(st);
    var p := Cut(clause);
    Unfolded(st, column);
    ClauseStep(st, column, u, cond, clause, sql);
    CutWord(clause);
    PiecesHold(st, column, u, cond, clause, sql, p);
    NotAll(st, u, cond, clause);
    FreeIs(st);
    CutIs(st);
    CutBehind(st, column, u, cond, clause, p);
    Assembled(sql, column, TrimSpace(clause[..p]), ConditionIn(TrimSpace(clause[..p]), column).text);
  }

  lemma FreeIs(st: Statement)
    requires JoinerFree(st)
    ensures NoneOf(ToUpper(st.b2 + PrintLiteral(st.literal)) + " ", JOINERS)
  {
    hide NoneOf;
  }

  lemma CutIs(st: Statement)
    requires !Uncut(st)
    ensures !UncutAt(ClauseText(st), |st.lead| + |ConditionText(st)| + JoinLength(st.after), Cut(ClauseText(st)))
  {
    hide UncutAt, Cut, ClauseText, ConditionText, JoinLength;
  }

  // ---------- two statements that lose their key ----------

  /** limits is taken for LIMIT, and the value is no longer 5. */
  lemma NameTakenForKeyword()
    ensures ShardingValue("SELECT * FROM t WHERE " + "id = 5 AND limits = 3", "id") == Extracted.Found("5 AND")
  {
    hide *;
    NamePieces("id = 5 AND limits = 3", "5 AND");
    ExampleIs("id = 5 AND limits = 3", 11, "5 AND", " ");
  }

  lemma NamePieces(x: string, v: string)
    requires x == "id = 5 AND limits = 3" && v == "5 AND"
    ensures Cut(x) == 11 <= |x| && x[..11] == "id = " + v + " " && x[0] == 'i' && Solid(x) && AllSpace(" ")
    ensures ExampleText(v)
  {
    LimitThere(x);
    hide EndAt;
    CutsAt(x, 11);
    assert x[..11] == "id = " + v + " ";
    NameText(v);
    hide ExampleText;
  }

  lemma LimitThere(x: string)
    requires x == "id = 5 AND limits = 3"
    ensures EndAt(ToUpper(x), 11)
  {
    var t := ToUpper(x);
    assert t[11..16] == "LIMIT";
    assert OccursAt(t, CLAUSE_ENDS[2], 11);
  }

  lemma NameText(v: string)
    requires v == "5 AND"
    ensures ExampleText(v)
  {
  }

  /** A line break before AND hides it from the search for " AND ". */
  lemma LineBreakHidesAnd()
    ensures ShardingValue("SELECT * FROM t WHERE " + "id = 5\nAND a = 1", "id") == Extracted.Found("5\nAND a = 1")
  {
    hide *;
    LinePieces("id = 5\nAND a = 1", "5\nAND a = 1");
    ExampleIs("id = 5\nAND a = 1", 16, "5\nAND a = 1", "");
  }

  lemma LinePieces(x: string, v: string)
    requires x == "id = 5\nAND a = 1" && v == "5\nAND a = 1"
    ensures Cut(x) == 16 <= |x| && x[..16] == "id = " + v + "" && x[0] == 'i' && Solid(x) && AllSpace("")
    ensures ExampleText(v)
  {
    CutsAt(x, 16);
    LineText(v);
    hide ExampleText, Cut;
  }

  lemma LineText(v: string)
    requires v == "5\nAND a = 1"
    ensures ExampleText(v)
  {
  }

  /** A value with no joiner, no second id, and nothing to trim. */
  predicate ExampleText(v: string) {
    && Solid(v) && !Letter(v[0]) && Edge(v, OneOf(CUT)) && NoJoinerRunes(" " + v)
    && forall j :: 0 <= j < |v| ==> Upper(v[j]) != 'I'
  }

  lemma CutsAt(x: string, p: nat)
    requires p <= |x| && (p == |x| || EndAt(ToUpper(x), p)) && forall j :: 0 <= j < p ==> Upper(x[j]) !in "OGLH"
    ensures Cut(x) == p
  {
    var t := ToUpper(x);
    EndsAre();
    forall n, j: nat | 0 <= n < |CLAUSE_ENDS| && j < p ensures !OccursAt(t, CLAUSE_ENDS[n], j) {
      KeywordSpaces(CLAUSE_ENDS[n]);
      CharOf(t, CLAUSE_ENDS[n], j, j);
    }
    hide OccursAt, ToUpper, FirstOf;
    FirstOfIs(t, p);
  }

  /** The value is everything after the = when no joiner is found there. */
  lemma ExampleIs(x: string, p: nat, v: string, w: string)
    requires Solid(x) && x[0] == 'i' && p <= |x| && Cut(x) == p && x[..p] == "id = " + v + w && AllSpace(w)
    requires ExampleText(v)
    ensures ShardingValue("SELECT * FROM t WHERE " + x, "id") == Extracted.Found(v)
  {
    hide *;
    var name, b1, h, z, y := "id", " ", "id =", " " + v, "id = " + v;
    ExampleNames(name, b1, h, z, y, v);
    OneId(y, v);
    assert x[..p] == "" + y + w;
    TrimCore("", y, w, IsSpace) by { SpacesAre(w, y); }
    ExampleClause(x, "SELECT * FROM t ", "SELECT * FROM t WHERE " + x);
    NoJoiners(z);
    CutFound("", name, b1, h, z, name, y, |z|);
    CutValue(name, b1, h, z, name, y);
    ExampleValue(z, v);
    TrimIs(x[..p]);
    Assembled("SELECT * FROM t WHERE " + x, name, y, TrimSpace(h + z));
  }

  lemma TrimIs(s: string)
    ensures TrimSpace(s) == TrimFunc(s, IsSpace)
  {
  }

  lemma SpacesAre(w: string, y: string)
    requires AllSpace(w) && Solid(y)
    ensures y != "" && !IsSpace(y[0]) && !IsSpace(y[|y| - 1]) && forall i :: 0 <= i < |w| ==> IsSpace(w[i])
  {
  }

  lemma ExampleNames(name: string, b1: string, h: string, z: string, y: string, v: string)
    requires name == "id" && b1 == " " && h == "id =" && z == " " + v && y == "id = " + v && ExampleText(v)
    ensures h == name + b1 + "=" && y == h + z == "" + (h + z) && WordText(name) && SameName(name, name) && Blanks(b1)
    ensures FirstAt(y, name, 0) && Solid(y) && NoJoinerRunes(z) && z != "" && z[|z| - 1] != ' ' && z[..|z|] == z
  {
    hide Edge, NoJoinerRunes, FirstAt;
    assert y[|y| - 1] == v[|v| - 1];
    StartFirst(y, name);
  }

  lemma StartFirst(y: string, name: string)
    ensures FirstAt(y, name, 0)
  {
  }

  lemma OneId(y: string, v: string)
    requires y == "id = " + v && ExampleText(v)
    ensures OnlyFirst(y, "id")
  {
    forall q | 0 < q < |y| ensures Upper(y[q]) != 'I' {
      assert q >= 5 ==> y[q] == v[q - 5];
    }
    forall j: nat | 0 < j ensures !FoldAt(y, "id", j) {
      assert j + 2 <= |y| ==> Upper(y[j]) != Upper("id"[0]);
    }
    hide OperatorText, Edge, NoJoinerRunes;
  }

  lemma ExampleClause(x: string, head: string, sql: string)
    requires head == "SELECT * FROM t " && sql == "SELECT * FROM t WHERE " + x && Solid(x)
    ensures HasWhere(sql) && Clause(sql) == TrimSpace(x[..Cut(x)])
  {
    var rest := " " + x;
    assert head + "WHERE" + rest == sql && " " + x + "" + "" == rest;
    assert sql[0] == 'S' && sql[|sql| - 1] == x[|x| - 1];
    ExampleHead(head);
    assert AllSpace(" ") && AllSpace("") && ToUpper("WHERE") == "WHERE";
    hide *;
    SolidIs(sql) by { assert !IsSpace('S'); }
    ClauseFound(head, "WHERE", " ", x, "", "", rest, sql);
  }

  lemma ExampleHead(head: string)
    requires head == "SELECT * FROM t "
    ensures Index(ToUpper(head + "WHERE"), "WHERE") == |head|
  {
    var t := ToUpper(head + "WHERE");
    assert t[16..21] == "WHERE";
    assert forall q :: 0 <= q < 16 ==> t[q] != 'W';
    forall j | 0 <= j < 16 ensures !OccursAt(t, "WHERE", j) { CharOf(t, "WHERE", j, j); }
    hide ToUpper;
    IndexIs(t, "WHERE", 16);
  }

  lemma ExampleValue(z: string, v: string)
    requires z == " " + v && ExampleText(v)
    ensures Extract.ValueOf(TrimSpace(z)) == v
  {
    NoLetterFirst(v);
    assert AllSpace(" ");
    hide TakesIn, TakesBetween, NoJoinerRunes;
    TrimLead(" ", v);
    TrimNothing(v, OneOf(CUT));
  }

  predicate NoJoinerRunes(z: string) {
    forall j :: 0 <= j && j + 4 < |z| && z[j] == ' ' ==> Upper(z[j + 1]) !in "AO" || Upper(z[j + 2]) !in "NR"
  }

  lemma NoJoiners(z: string)
    requires NoJoinerRunes(z) && (z != "" ==> z[|z| - 1] != ' ')
    ensures JoinerAt(z, |z|) && z[..|z|] == z
  {
    var t := ToUpper(z);
    JoinersAre();
    forall k, j: nat | 0 <= k < |JOINERS| && j < |z| ensures !OccursAt(t, JOINERS[k], j) {
      if OccursAt(t, JOINERS[k], j) { JoinerText(t, JOINERS[k], j); }
    }
    hide OccursAt, ToUpper, FirstOf;
    FirstOfUnique(t, JOINERS, |z|, |z|);
  }

  // ---------- cut before the value ----------

  lemma {:induction false} SkipShift(u: string, c: string, i: nat)
    requires i <= |c|
    ensures SkipBlanks(u + c, |u| + i) == |u| + SkipBlanks(c, i)
    decreases |c| - i
  {
    if i < |c| {
      assert (u + c)[|u| + i] == c[i];
      SkipShift(u, c, i + 1);
    }
  }

  lemma FoldShift(u: string, c: string, t: string, i: nat)
    ensures FoldAt(u + c, t, |u| + i) ==> FoldAt(c, t, i)
  {
    var s := u + c;
    if FoldAt(s, t, |u| + i) {
      forall q | i <= q < i + |t| ensures Upper(c[q]) == Upper(t[q - i]) {
        assert s[|u| + q] == c[q] && Upper(s[|u| + q]) == Upper(t[|u| + q - (|u| + i)]);
      }
    }
  }

  /** A comparison inside the second part is one of that part. */
  lemma ComparedShift(u: string, c: string, column: string, j: nat)
    requires 0 < j && Compared(u + c, column, |u| + j)
    ensures Compared(c, column, j)
  {
    FoldShift(u, c, column, j);
    SkipShift(u, c, j + |column|);
    assert (u + c)[|u| + j - 1] == c[j - 1];
    hide OperatorText, FoldAt;
    OperatorShift(u, c, SkipBlanks(c, j + |column|));
  }

  lemma OperatorShift(u: string, c: string, e: nat)
    requires OperatorText(u + c, |u| + e)
    ensures OperatorText(c, e)
  {
    assert (u + c)[|u| + e] == c[e];
    FoldShift(u, c, "IN", e);
    FoldShift(u, c, "BETWEEN", e);
    if FoldAt(u + c, "IN", |u| + e) && ParenthesisAt(u + c, |u| + e + 2) { SkipShift(u, c, e + 2); }
    if |u| + e + 7 < |u + c| { assert (u + c)[|u| + e + 7] == c[e + 7]; }
    hide FoldAt, OccursAt, In;
  }

  /** A text that begins with no space is trimmed to a prefix. */
  lemma TrimPrefixOf(x: string)
    requires x != "" ==> !IsSpace(x[0])
    ensures TrimSpace(x) <= x
  {
    var i, j := TrimSlice(x, IsSpace);
    hide TrimFunc, IsSpace;
    assert i > 0 ==> i == j;
  }

  lemma NothingFound(st: Statement, column: string, u: string, cond: string, clause: string, p: nat)
    requires Pieces(st, column, u, cond, clause, p) && p <= |u| + |st.name| + |st.b1|
    ensures ConditionIn(TrimSpace(clause[..p]), column) == NoColumn
  {
    var e := |u| + |st.name| + |st.b1|;
    var y := TrimSpace(clause[..p]);
    PieceAt(st, column, u, cond, clause, p, e);
    hide *;
    TrimPrefixOf(clause[..p]);
    forall j | 0 <= j <= |y| ensures Match(ColumnPattern(column), y, j) == Fail {
      NoneThere(st, column, u, cond, clause, p, e, y, j);
      ColumnIff(y, column, j);
    }
    FindNone(ColumnPattern(column), y, 0);
  }

  /** The condition's name, its blanks, and its = at e. */
  lemma PieceAt(st: Statement, column: string, u: string, cond: string, clause: string, p: nat, e: nat)
    requires Pieces(st, column, u, cond, clause, p) && e == |u| + |st.name| + |st.b1|
    ensures |st.name| == |column| && e < |u + cond| <= |clause| && SkipBlanks(clause, |u| + |column|) == e
    ensures u + cond <= clause && WordText(column) && (clause[..p] != "" ==> !IsSpace(clause[..p][0]))
  {
    hide FirstAt, OnlyFirst, FoldAt, PrintLiteral, Plain, AfterOk, KeywordAt, JoinWord, Follow;
    forall q | |u| + |column| <= q < e ensures In(Space, clause[q]) {
      assert clause[q] == st.b1[q - |u| - |column|];
    }
    assert clause[e] == '=';
    assert clause[..|u + cond|] == u + cond;
  }

  lemma NoneThere(st: Statement, column: string, u: string, cond: string, clause: string, p: nat, e: nat, y: string,
                  j: nat)
    requires Pieces(st, column, u, cond, clause, p) && y <= clause && |y| <= e < |u + cond| && u + cond <= clause
    requires |u| + |column| <= |clause| && SkipBlanks(clause, |u| + |column|) == e
    ensures !Compared(y, column, j)
  {
    hide Compared, PrintLiteral, Plain, SameName, AfterOk, KeywordAt, JoinWord, Follow;
    if j < |u| {
      PrefixNot(y, clause, column, j);
    } else if j == |u| {
      TooShort(y, clause, column, j, e);
    } else {
      ShiftNot(u, cond, column, j - |u|);
      assert y == clause[..|y|] == (u + cond)[..|y|];
      PrefixNot(y, u + cond, column, j);
    }
  }

  lemma PrefixNot(y: string, s: string, column: string, j: nat)
    requires y <= s && !Compared(s, column, j)
    ensures !Compared(y, column, j)
  {
    hide Compared;
    if Compared(y, column, j) { ComparedPrefix(y, s, column, j); }
  }

  lemma ShiftNot(u: string, c: string, column: string, j: nat)
    requires 0 < j && !Compared(c, column, j)
    ensures !Compared(u + c, column, |u| + j)
  {
    hide Compared;
    if Compared(u + c, column, |u| + j) { ComparedShift(u, c, column, j); }
  }

  lemma TooShort(y: string, s: string, column: string, j: nat, e: nat)
    requires y <= s && j + |column| <= |s| && SkipBlanks(s, j + |column|) == e && |y| <= e
    ensures !Compared(y, column, j)
  {
    if j + |column| <= |y| { SkipPrefix(y, s, j + |column|); }
  }

  // ---------- cut in the value ----------

  lemma CutValue(name: string, b1: string, h: string, x: string, column: string, s: string)
    requires h == name + b1 + "=" && s == h + x && WordText(column) && SameName(name, column) && Blanks(b1)
    requires OnlyFirst(s, column)
    ensures ValueOfCondition(TrimSpace(s), column) == Extract.ValueOf(TrimSpace(x))
  {
    hide *;
    var t := TrimRightFunc(x, IsSpace);
    var c := h + t;
    var e := |name| + |b1|;
    ConditionHead(name, b1, column, h, t, c, e);
    TrimHead(h, x, t, s, c);
    OnlyInPrefix(c, s, column);
    EqualsMatch(c, e);
    RemoveColumn(c, column, e, e + 1);
    TrimTail(x);
    ValueUnfolds(c, column, t);
  }

  lemma TrimHead(h: string, x: string, t: string, s: string, c: string)
    requires Solid(h) && s == h + x && t == TrimRightFunc(x, IsSpace) && c == h + t
    ensures TrimSpace(s) == c && c <= s
  {
    hide *;
    assert s == "" + h + x;
    TrimAround("", h, x);
    var j := TrimRightSlice(x, IsSpace);
    assert c == s[..|h| + j];
  }

  lemma ConditionHead(name: string, b1: string, column: string, h: string, t: string, c: string, e: nat)
    requires h == name + b1 + "=" && c == h + t && WordText(column) && SameName(name, column) && Blanks(b1)
    requires e == |name| + |b1|
    ensures Solid(h) && FoldAt(c, column, 0) && AllSpace("") && |column| <= e < |c| && c[e] == '=' && c[e + 1..] == t
    ensures forall q :: |column| <= q < e ==> In(Space, c[q])
  {
    forall q | |column| <= q < e ensures In(Space, c[q]) { assert c[q] == b1[q - |name|]; }
    assert forall q :: 0 <= q < |name| ==> c[q] == name[q];
    assert Upper(name[0]) == Upper(column[0]);
    UpperWord(name[0], column[0]);
  }

  lemma ValueUnfolds(c: string, column: string, t: string)
    requires ReplaceAll(ColumnPattern(column), c, Always("")) == t
    ensures ValueOfCondition(c, column) == Extract.ValueOf(TrimSpace(t))
  {
    hide ReplaceAll, ColumnPattern, TrimSpace, Extract.ValueOf;
  }

  /** The pieces around the = of the condition. */
  lemma PieceFacts(st: Statement, column: string, u: string, cond: string, clause: string, p: nat, h: string, r: string)
    requires Pieces(st, column, u, cond, clause, p) && h == st.name + st.b1 + "="
    requires r == st.b2 + PrintLiteral(st.literal)
    ensures WordText(column) && SameName(st.name, column) && Blanks(st.b1) && AllSpace(st.b2) && Plain(st.literal)
    ensures cond == h + r && r != "" && |h| == |st.name| + |st.b1| + 1 && clause == u + cond + Follow(st.after)
    ensures Solid(clause) && Solid(cond) && Solid(u + h) && Solid(u + cond) && FirstAt(clause, column, |u|)
    ensures OnlyFirst(cond, column) && (u != "" ==> !IsWord(u[|u| - 1])) && AfterOk(st.after) && !JoinWord(column)
    ensures st.after.Joined? && st.after.w1 == "" ==> st.literal.Quoted?
    ensures p <= |clause| && (p < |clause| ==> KeywordAt(clause, p))
  {
    LastPlain(st.literal);
    hide FirstAt, OnlyFirst, SameName, ToUpper, WordText, Blanks, Plain, PrintLiteral, AllSpace, Upper, KeywordAt;
    hide AfterOk, JoinWord, Follow;
    assert (u + h)[0] == clause[0] && (u + h)[|u + h| - 1] == '=';
    assert (u + cond)[0] == clause[0] && (u + cond)[|u + cond| - 1] == cond[|cond| - 1];
  }

  lemma CutInLiteral(st: Statement, column: string, u: string, cond: string, clause: string, p: nat)
    requires Pieces(st, column, u, cond, clause, p) && |u| + |st.name| + |st.b1| < p < |u| + |cond|
    ensures var c := ConditionIn(TrimSpace(clause[..p]), column);
      c.Found? && ValueOfCondition(c.text, column) != st.literal.v
  {
    hide *;
    var h, r := st.name + st.b1 + "=", st.b2 + PrintLiteral(st.literal);
    PieceFacts(st, column, u, cond, clause, p, h, r);
    var k := p - |u + h|;
    LetterThere(u, h, r, Follow(st.after), clause, p, k);
    var z := TrimRightFunc(r[..k], IsSpace);
    var n := FindJoiner(z);
    TrimHead(u + h, r[..k], z, clause[..p], u + h + z);
    FirstInPrefix(u + h + z, clause, column, |u|);
    assert u + h + z == u + (h + z);
    CutFound(u, st.name, st.b1, h, z, column, u + h + z, n);
    var j := TrimRightSlice(r[..k], IsSpace);
    assert z[..n] == r[..k][..n];
    InsideLiteral(st.b2, st.literal, r, k, z[..n]);
    assert h + z[..n] == cond[..|h + z[..n]|];
    OnlyInPrefix(h + z[..n], cond, column);
    CutValue(st.name, st.b1, h, z[..n], column, h + z[..n]);
  }

  lemma LetterThere(u: string, h: string, r: string, w: string, clause: string, p: nat, k: int)
    requires clause == u + (h + r) + w && |u + h| <= p < |u + h| + |r| && k == p - |u + h| && KeywordAt(clause, p)
    ensures 0 <= k < |r| && Letter(r[k]) && clause[..p] == u + h + r[..k] && u + h + r[..k] <= clause
  {
    assert clause[p] == r[k];
    hide Letter;
    assert clause[..p] == u + h + r[..k];
  }

  lemma InsideLiteral(b2: string, l: Literal, r: string, k: nat, y: string)
    requires AllSpace(b2) && Plain(l) && r == b2 + PrintLiteral(l) && k < |r| && Letter(r[k]) && y <= r[..k]
    ensures Extract.ValueOf(TrimSpace(y)) != l.v
  {
    hide *;
    var m := LetterInLiteral(b2, l, r, k);
    QuoteIn(l);
    ShortValue(b2, l.quote, l.v, m, y);
  }

  /** A letter of the printed literal lies between its quotes. */
  lemma LetterInLiteral(b2: string, l: Literal, r: string, i: nat) returns (m: nat)
    requires Plain(l) && AllSpace(b2) && r == b2 + PrintLiteral(l) && i < |r| && Letter(r[i])
    ensures l.Quoted? && m < |l.v| && i == |b2| + 1 + m && r[..i] == b2 + [l.quote] + l.v[..m]
  {
    forall x | 0 <= x < |b2| ensures IsSpace(r[x]) { assert r[x] == b2[x]; }
    assert r[i] == PrintLiteral(l)[i - |b2|];
    m := i - |b2| - 1;
  }

  /** A beginning of it that is too short loses the value. */
  lemma ShortValue(b2: string, q: char, v: string, m: nat, y: string)
    requires AllSpace(b2) && q in QUOTES && m < |v| && y <= b2 + [q] + v[..m]
    ensures Extract.ValueOf(TrimSpace(y)) != v
  {
    var t := b2 + [q] + v[..m];
    var i, j := TrimSlice(y, IsSpace);
    var l := TrimSpace(y);
    assert forall x :: 0 <= x < |b2| ==> t[x] == b2[x];
    assert t[|b2|] == q && !IsSpace(q);
    assert forall x :: 0 <= x < |y| ==> y[x] == t[x];
    if i < j {
      assert i == |b2|;
      assert l[0] == q;
      NoLetterFirst(l);
      hide TrimFunc, TakesIn, TakesBetween;
      TrimSame(l, OneOf(CUT));
    } else {
      assert l == "" && ToUpper(l) == "";
      assert Trim("", CUT) == "";
    }
  }

  lemma QuoteIn(l: Literal)
    requires Plain(l)
    ensures l.Quoted? ==> l.quote in QUOTES
  {
  }

  // ---------- cut behind the value ----------

  lemma CutBehind(st: Statement, column: string, u: string, cond: string, clause: string, p: nat)
    requires Pieces(st, column, u, cond, clause, p) && Fails(st, |u| + |cond|, clause, p) && p >= |u| + |cond|
    ensures var c := ConditionIn(TrimSpace(clause[..p]), column);
      c.Found? && ValueOfCondition(c.text, column) != st.literal.v &&
      (NoneOf(ToUpper(st.b2 + PrintLiteral(st.literal)) + " ", JOINERS)
       && !UncutAt(clause, |u| + |cond| + JoinLength(st.after), p) ==>
         st.after.Joined? &&
         ValueOfCondition(c.text, column) == Trim(PrintLiteral(st.literal) + (st.after.w1 + st.after.word), CUT))
  {
    hide *;
    var h, r := st.name + st.b1 + "=", st.b2 + PrintLiteral(st.literal);
    PieceFacts(st, column, u, cond, clause, p, h, r);
    PastJoiner(u + cond, st.after, clause, p);
    var b := CutAfter(u + cond, st.after, clause, p);
    var y := u + cond + Follow(b);
    FirstInPrefix(y, clause, column, |u|);
    if !NoneOf(ToUpper(r) + " ", JOINERS) {
      JoinerInside(st, column, u, h, r, cond, y, Follow(b));
    } else {
      FailsBehind(st, u, cond, clause, p, b);
      var x := ConditionRuns(u, st.name, st.b1, h, r, column, b, y);
      JoinedValue(st.name, st.b1, h, st.b2, st.literal, r, column, b, x);
      WholeText(b, x);
    }
  }

  lemma FailsBehind(st: Statement, u: string, cond: string, clause: string, p: nat, b: After)
    requires p <= |clause| && Fails(st, |u| + |cond|, clause, p)
    requires NoneOf(ToUpper(st.b2 + PrintLiteral(st.literal)) + " ", JOINERS)
    requires SetOff(b) <==> SetOff(st.after) && UncutAt(clause, |u + cond| + JoinLength(st.after), p)
    ensures b.Joined? && !SetOff(b) && |u + cond| == |u| + |cond|
  {
    hide NoneOf, UncutAt, JoinLength;
  }

  /** With no text behind the joiner's word the condition ends there. */
  lemma WholeText(b: After, x: string)
    requires b.Joined? && b.w1 + b.word <= x <= Follow(b)
    ensures Follow(b) == b.w1 + b.word ==> x == b.w1 + b.word
  {
    hide Follow;
  }

  /** No keyword starts in a joiner. */
  lemma PastJoiner(c: string, after: After, clause: string, p: nat)
    requires clause == c + Follow(after) && AfterOk(after) && |c| <= p <= |clause|
    requires (p < |clause| ==> KeywordAt(clause, p))
    ensures p == |clause| || |c| + JoinLength(after) <= p < |clause|
  {
    if p < |clause| && p < |c| + JoinLength(after) {
      NotInJoiner(after, c, clause, p - |c|);
    }
  }

  lemma NotInJoiner(after: After, c: string, clause: string, i: nat)
    requires clause == c + Follow(after) && AfterOk(after) && i < JoinLength(after) && |c| + i < |clause|
    ensures !KeywordAt(clause, |c| + i)
  {
    var (w1, word, w2) := (after.w1, after.word, after.w2);
    var w, n := Follow(after), |w1| + |word|;
    assert |word| == |ToUpper(word)| && clause[|c| + i] == w[i];
    if i < |w1| {
      assert w[i] == w1[i];
    } else if i < n {
      assert w[i] == word[i - |w1|] && Upper(word[i - |w1|]) == ToUpper(word)[i - |w1|];
      if n < |w| { assert clause[|c| + n] == w[n] == (w2 + after.text)[0]; }
      RestStart(w2, after.text);
    } else {
      assert w[i] == w2[i - n];
    }
  }

  /** A joiner inside the literal cuts it. */
  lemma JoinerInside(st: Statement, column: string, u: string, h: string, r: string, cond: string, y: string, w: string)
    requires h == st.name + st.b1 + "=" && r == st.b2 + PrintLiteral(st.literal) && cond == h + r && y == u + cond + w
    requires WordText(column) && SameName(st.name, column) && Blanks(st.b1) && AllSpace(st.b2) && Plain(st.literal)
    requires (u != "" ==> !IsWord(u[|u| - 1])) && FirstAt(y, column, |u|) && OnlyFirst(cond, column)
    requires !NoneOf(ToUpper(r) + " ", JOINERS)
    ensures var c := ConditionIn(y, column); c.Found? && ValueOfCondition(c.text, column) != st.literal.v
  {
    hide *;
    var z := r + w;
    var n := FindJoiner(z);
    assert y == u + (h + z);
    CutFound(u, st.name, st.b1, h, z, column, y, n);
    JoinerCuts(st.b2, st.literal, r, w, z, n);
    assert h + z[..n] == cond[..|h + z[..n]|];
    OnlyInPrefix(h + z[..n], cond, column);
    CutValue(st.name, st.b1, h, z[..n], column, h + z[..n]);
  }

  lemma JoinerCuts(b2: string, l: Literal, r: string, x: string, z: string, n: nat)
    requires AllSpace(b2) && Plain(l) && r == b2 + PrintLiteral(l) && z == r + x && JoinerAt(z, n)
    requires !NoneOf(ToUpper(r) + " ", JOINERS)
    ensures n <= |z| && z[..n] <= r && Extract.ValueOf(TrimSpace(z[..n])) != l.v
  {
    hide *;
    var kw, i := GetJoiner(ToUpper(r) + " ");
    var m := JoinerInLiteral(b2, l, r, kw, i);
    JoinerFacts(z, n);
    UpperConcat(r, x);
    JoinerStays(ToUpper(r), ToUpper(x), ToUpper(z), kw, i);
    assert z[..n] <= r[..i] by { assert z[..n] == r[..i][..n]; }
    QuoteIn(l);
    ShortValue(b2, l.quote, l.v, m, z[..n]);
  }

  lemma JoinerStays(a: string, b: string, t: string, kw: string, i: nat)
    requires t == a + b && Joiner(kw) && i + |kw| <= |a| && OccursAt(a, kw, i)
    ensures SomeJoiner(t, i)
  {
    assert t[i..i + |kw|] == a[i..i + |kw|];
  }

  lemma GetJoiner(t: string) returns (kw: string, i: nat)
    requires !NoneOf(t, JOINERS)
    ensures Joiner(kw) && kw in JOINERS && OccursAt(t, kw, i)
  {
    JoinersAre();
    var k, j: nat :| 0 <= k < |JOINERS| && OccursAt(t, JOINERS[k], j);
    kw, i := JOINERS[k], j;
  }

  /** It lies between the quotes. */
  lemma JoinerInLiteral(b2: string, l: Literal, r: string, kw: string, i: nat) returns (m: nat)
    requires AllSpace(b2) && Plain(l) && r == b2 + PrintLiteral(l) && Joiner(kw) && OccursAt(ToUpper(r) + " ", kw, i)
    ensures l.Quoted? && m < |l.v| && i == |b2| + 1 + m && r[..i] == b2 + [l.quote] + l.v[..m]
    ensures i + |kw| <= |r| && OccursAt(ToUpper(r), kw, i)
  {
    JoinerRunes(r, kw, i);
    hide OccursAt, ToUpper, Joiner, AllSpace, Upper;
    var k := LetterInLiteral(b2, l, r, i + 1);
    LastPlain(l);
    assert r[|r| - 1] == PrintLiteral(l)[|PrintLiteral(l)| - 1];
    assert r[|b2|] == PrintLiteral(l)[0];
    m := k - 1;
    assert r[..i] == r[..i + 1][..i];
    assert l.v[..k][..m] == l.v[..m];
  }

  lemma JoinerRunes(r: string, kw: string, i: nat)
    requires Joiner(kw) && OccursAt(ToUpper(r) + " ", kw, i)
    ensures i + 2 < |r| && r[i] == ' ' && Letter(r[i + 1]) && !IsSpace(r[i + 1])
    ensures i + |kw| <= |r| ==> OccursAt(ToUpper(r), kw, i)
    ensures i + |kw| > |r| ==> Letter(r[|r| - 1])
  {
    var t := ToUpper(r) + " ";
    OccursChars(t, kw, i);
    assert t[i] == ' ' && t[i + 1] == kw[1] && t[i + 2] == kw[2];
    assert Upper(r[i]) == ToUpper(r)[i] == t[i];
    assert Upper(r[i + 1]) == ToUpper(r)[i + 1] == t[i + 1];
    if i + |kw| <= |r| {
      assert ToUpper(r)[i..i + |kw|] == t[i..i + |kw|];
    } else {
      assert i + |kw| == |r| + 1;
      assert t[|r| - 1] == kw[|kw| - 2];
      assert Upper(r[|r| - 1]) == ToUpper(r)[|r| - 1] == t[|r| - 1];
    }
  }

  // ---------- a joiner that is not set off ----------

  /** The condition goes on past the joiner's word, and so does what remains of it. */
  lemma JoinedValue(name: string, b1: string, h: string, b2: string, l: Literal, r: string, column: string, b: After,
                    x: string)
    requires h == name + b1 + "=" && r == b2 + PrintLiteral(l) && WordText(column) && SameName(name, column)
    requires Blanks(b1)
    requires AllSpace(b2) && Plain(l) && OnlyFirst(h + r, column) && !JoinWord(column) && AfterOk(b) && b.Joined?
    requires (b.w1 == "" ==> l.Quoted?) && b.w1 + b.word <= x <= Follow(b)
    ensures var s := h + r + TrimRightFunc(x, IsSpace);
      && ValueOfCondition(s, column) != l.v
      && (x == b.w1 + b.word ==> ValueOfCondition(s, column) == Trim(PrintLiteral(l) + (b.w1 + b.word), CUT))
  {
    hide *;
    var g := b.w1 + b.word;
    var y := RestOf(b, x);
    var c, s := h + r, h + r + TrimRightFunc(x, IsSpace);
    assert s == c + g + y;
    LastOfCondition(h, r, b2, l, c);
    forall j: nat | 0 < j < |c + g| ensures !Compared(s, column, j) {
      NoNewComparison(c, b, y, s, column, j);
    }
    var t := RemoveUpTo(name, b1, h, r + g, y, column, s);
    LiteralThere(b2, l, b, t);
    Remainder(b2, l, b, t, r + g + t);
    ValueUnfolds(s, column, r + g + t);
  }

  /** What trimming leaves behind the word: nothing, or a rune that is in no word and more. */
  lemma RestOf(b: After, x: string) returns (y: string)
    requires AfterOk(b) && b.Joined? && b.w1 + b.word <= x <= Follow(b)
    ensures TrimRightFunc(x, IsSpace) == b.w1 + b.word + y && (y == "" || !IsWord(y[0]))
    ensures x == b.w1 + b.word ==> y == ""
  {
    var g := b.w1 + b.word;
    var z := x[|g|..];
    assert x == g + z;
    WordEnds(b);
    y := TrimRightFunc(z, IsSpace);
    var j := TrimRightSlice(z, IsSpace);
    assert z <= b.w2 + b.text;
    RestStart(b.w2, b.text);
    assert y != "" ==> y[0] == (b.w2 + b.text)[0];
    hide JoinWord, Follow;
    TrimRightPast(g, z, IsSpace);
    if b.w2 != "" { SpaceIsNoWord(b.w2[0]); }
  }

  lemma SpaceIsNoWord(c: char)
    ensures IsSpace(c) ==> !IsWord(c) && !Letter(c) && c !in "=<>!("
  {
  }

  lemma LastOfCondition(h: string, r: string, b2: string, l: Literal, c: string)
    requires r == b2 + PrintLiteral(l) && Plain(l) && c == h + r
    ensures c != "" && !Letter(c[|c| - 1]) && (l.Quoted? ==> !IsWord(c[|c| - 1]))
  {
    var t := PrintLiteral(l);
    LastPlain(l);
    assert c[|c| - 1] == t[|t| - 1];
  }

  /** No comparison of the column starts in the condition, after its name, or in the joiner. */
  lemma NoNewComparison(c: string, b: After, y: string, s: string, column: string, j: nat)
    requires b.Joined? && AfterOk(b) && s == c + (b.w1 + b.word) + y && (y == "" || !IsWord(y[0]))
    requires c != "" && !Letter(c[|c| - 1]) && (b.w1 == "" ==> !IsWord(c[|c| - 1]))
    requires WordText(column) && !JoinWord(column) && OnlyFirst(c, column) && 0 < j < |c| + |b.w1 + b.word|
    ensures !Compared(s, column, j)
  {
    hide *;
    JoinRunes(c, b, y, s);
    if j < |c| {
      NotInCondition(c, b, y, s, column, j);
    } else if j < |c| + |b.w1| {
      NotAtSpace(s, column, j);
    } else if j > |c| + |b.w1| {
      NotInsideWord(s, column, j);
    } else {
      NotTheWord(c, b, y, s, column, j);
    }
  }

  /** The runes of the joiner in s. */
  lemma JoinRunes(c: string, b: After, y: string, s: string)
    requires b.Joined? && AfterOk(b) && s == c + (b.w1 + b.word) + y
    ensures var m := |c| + |b.w1|;
      && 2 <= |b.word| <= 3 && m + |b.word| + |y| == |s| && Upper(s[m]) in "AO" && c <= s
      && (forall q :: |c| <= q < m ==> IsSpace(s[q]) && !IsWord(s[q]) && !Letter(s[q]) && s[q] !in "=<>!(")
      && (forall q :: m <= q < m + |b.word| ==> Upper(s[q]) == ToUpper(b.word)[q - m] && IsWord(s[q]))
      && (forall q :: m < q < m + |b.word| ==> Upper(s[q]) in "NDR")
  {
    var m, word := |c| + |b.w1|, b.word;
    assert |ToUpper(word)| == |word|;
    forall q | |c| <= q < m ensures IsSpace(s[q]) && !IsWord(s[q]) && !Letter(s[q]) && s[q] !in "=<>!(" {
      assert s[q] == b.w1[q - |c|];
      SpaceIsNoWord(s[q]);
    }
    forall q | m <= q < m + |word| ensures Upper(s[q]) == ToUpper(word)[q - m] && IsWord(s[q]) {
      assert s[q] == word[q - m];
    }
    assert s[..|c|] == c;
  }

  lemma NotAtSpace(s: string, column: string, j: nat)
    requires WordText(column) && j < |s| && !IsWord(s[j])
    ensures !Compared(s, column, j)
  {
    if FoldAt(s, column, j) { UpperWord(s[j], column[0]); }
    hide OperatorText;
  }

  lemma NotInsideWord(s: string, column: string, j: nat)
    requires 0 < j <= |s| && IsWord(s[j - 1])
    ensures !Compared(s, column, j)
  {
    hide OperatorText, FoldAt;
  }

  lemma NotTheWord(c: string, b: After, y: string, s: string, column: string, m: nat)
    requires b.Joined? && AfterOk(b) && s == c + (b.w1 + b.word) + y && (y == "" || !IsWord(y[0]))
    requires WordText(column) && !JoinWord(column) && m == |c| + |b.w1|
    ensures !Compared(s, column, m)
  {
    hide *;
    var n := |b.word|;
    JoinRunes(c, b, y, s);
    if |column| < n {
      InsideWord(s, column, m, n);
      NoOperator(s, m + |column|);
      NotFollowed(s, column, m);
    } else if |column| == n {
      IsJoinWord(b);
      if FoldAt(s, column, m) { SameWord(s, column, b.word, m); }
      NotFolded(s, column, m);
    } else {
      RuneAfter(c, b, y, s, m + n);
      NotSoLong(s, column, m, n);
    }
  }

  lemma InsideWord(s: string, column: string, m: nat, n: nat)
    requires WordText(column) && |column| < n && m + n <= |s| && forall q :: m < q < m + n ==> Upper(s[q]) in "NDR"
    ensures var c := s[m + |column|]; c !in "=<>!" && Upper(c) !in "IB" && !In(Space, c)
  {
    var c := s[m + |column|];
    assert Upper(c) in "NDR";
  }

  lemma NotFollowed(s: string, column: string, m: nat)
    requires m + |column| <= |s| && !OperatorText(s, SkipBlanks(s, m + |column|))
    ensures !Compared(s, column, m)
  {
    hide OperatorText, FoldAt;
  }

  lemma IsJoinWord(b: After)
    requires b.Joined? && AfterOk(b)
    ensures JoinWord(b.word)
  {
  }

  lemma NotFolded(s: string, column: string, m: nat)
    requires !FoldAt(s, column, m)
    ensures !Compared(s, column, m)
  {
    hide OperatorText, FoldAt;
  }

  lemma RuneAfter(c: string, b: After, y: string, s: string, i: nat)
    requires b.Joined? && s == c + (b.w1 + b.word) + y && (y == "" || !IsWord(y[0])) && i == |c| + |b.w1| + |b.word|
    ensures i <= |s| && (i < |s| ==> !IsWord(s[i]))
  {
    if i < |s| { assert s[i] == y[0]; }
  }

  /** A name does not go on over a rune that is in no word. */
  lemma NotSoLong(s: string, column: string, m: nat, n: nat)
    requires WordText(column) && n < |column| && (m + n < |s| ==> !IsWord(s[m + n]))
    ensures !Compared(s, column, m)
  {
    if FoldAt(s, column, m) {
      forall q | m <= q < m + |column| ensures IsWord(s[q]) {
        assert Upper(s[q]) == Upper(column[q - m]);
        UpperWord(s[q], column[q - m]);
      }
    }
    hide OperatorText;
  }

  lemma SameWord(s: string, column: string, word: string, m: nat)
    requires |column| == |word| && m + |word| <= |s| && FoldAt(s, column, m) && JoinWord(word)
    requires forall q :: m <= q < m + |word| ==> Upper(s[q]) == ToUpper(word)[q - m]
    ensures JoinWord(column)
  {
    assert |ToUpper(word)| == |ToUpper(column)| == |word|;
    forall q | 0 <= q < |word| ensures ToUpper(column)[q] == ToUpper(word)[q] {
      assert Upper(s[m + q]) == Upper(column[m + q - m]) && Upper(s[m + q]) == ToUpper(word)[m + q - m];
    }
    assert ToUpper(column) == ToUpper(word);
  }

  /** No operator begins at a rune that begins none. */
  lemma NoOperator(s: string, e: nat)
    requires e < |s| && s[e] !in "=<>!" && Upper(s[e]) !in "IB" && !In(Space, s[e])
    ensures SkipBlanks(s, e) == e && !OperatorText(s, e)
  {
    OccursChars(s, "!=", e);
    assert FoldAt(s, "IN", e) ==> Upper(s[e]) == Upper("IN"[0]);
    assert FoldAt(s, "BETWEEN", e) ==> Upper(s[e]) == Upper("BETWEEN"[0]);
    hide FoldAt, OccursAt;
  }

  lemma NotInCondition(c: string, b: After, y: string, s: string, column: string, j: nat)
    requires b.Joined? && AfterOk(b) && s == c + (b.w1 + b.word) + y && (y == "" || !IsWord(y[0]))
    requires c != "" && !Letter(c[|c| - 1]) && (b.w1 == "" ==> !IsWord(c[|c| - 1]))
    requires WordText(column) && OnlyFirst(c, column) && 0 < j < |c|
    ensures !Compared(s, column, j)
  {
    hide *;
    JoinRunes(c, b, y, s);
    NotComparedIn(c, column, j);
    if FoldAt(s, column, j) {
      NameInside(c, b, s, column, j);
      BeforeJoiner(c, b, y, s, j + |column|);
    }
    ComparedParts(c, s, column, j);
  }

  lemma NotComparedIn(c: string, column: string, j: nat)
    requires OnlyFirst(c, column) && 0 < j
    ensures !Compared(c, column, j)
  {
  }

  /** The name does not reach over the end of the condition. */
  lemma NameInside(c: string, b: After, s: string, column: string, j: nat)
    requires c <= s && b.Joined? && WordText(column) && FoldAt(s, column, j) && j < |c| < |s| && 0 < |c|
    requires b.w1 == "" ==> !IsWord(c[|c| - 1])
    requires b.w1 != "" ==> !IsWord(s[|c|])
    ensures j + |column| <= |c|
  {
    assert s[|c| - 1] == c[|c| - 1];
    forall q | j <= q < j + |column| ensures IsWord(s[q]) {
      assert Upper(s[q]) == Upper(column[q - j]);
      UpperWord(s[q], column[q - j]);
    }
  }

  /** Comparing in s and in its prefix c, when the name and the operator lie in c. */
  lemma ComparedParts(c: string, s: string, column: string, j: nat)
    requires c <= s && 0 < j < |c| && !Compared(c, column, j)
    requires FoldAt(s, column, j) ==>
      j + |column| <= |c| && (OperatorText(s, SkipBlanks(s, j + |column|)) ==>
        SkipBlanks(c, j + |column|) == SkipBlanks(s, j + |column|) && OperatorText(c, SkipBlanks(c, j + |column|)))
    ensures !Compared(s, column, j)
  {
    hide OperatorText;
    assert s[..|c|] == c && s[j - 1] == c[j - 1];
    if FoldAt(s, column, j) {
      forall q | j <= q < j + |column| ensures Upper(c[q]) == Upper(column[q - j]) { assert s[q] == c[q]; }
    }
  }

  lemma BeforeJoiner(c: string, b: After, y: string, s: string, i: nat)
    requires b.Joined? && AfterOk(b) && s == c + (b.w1 + b.word) + y && i <= |c|
    requires c != "" && !Letter(c[|c| - 1]) && (b.w1 == "" ==> !IsWord(c[|c| - 1]))
    ensures OperatorText(s, SkipBlanks(s, i)) ==>
      SkipBlanks(c, i) == SkipBlanks(s, i) && OperatorText(c, SkipBlanks(c, i))
  {
    hide *;
    JoinRunes(c, b, y, s);
    var e := SkipBlanks(s, i);
    SkipStops(s, i, |c| + |b.w1|);
    if e >= |c| {
      NotJoinerRune(s, e);
    } else {
      SkipInPrefix(c, s, i);
      OperatorInside(c, s, |c| + |b.w1|, e);
    }
  }

  lemma NotJoinerRune(s: string, e: nat)
    requires e < |s| && !In(Space, s[e])
    requires ((IsSpace(s[e]) && !Letter(s[e]) && s[e] !in "=<>!(") || Upper(s[e]) in "AO")
    ensures !OperatorText(s, e)
  {
    NoOperator(s, e);
    hide OperatorText;
  }

  /** Skipping blanks goes no further than a rune that is none. */
  lemma {:induction false} SkipStops(s: string, i: nat, m: nat)
    requires i <= m < |s| && Upper(s[m]) in "AO"
    ensures SkipBlanks(s, i) <= m && !In(Space, s[SkipBlanks(s, i)])
    decreases m - i
  {
    if i < m && In(Space, s[i]) { SkipStops(s, i + 1, m); }
  }

  /** An operator that begins in c ends in c. */
  lemma OperatorInside(c: string, s: string, m: nat, e: nat)
    requires c <= s && e < |c| <= m < |s| && Upper(s[m]) in "AO" && !Letter(c[|c| - 1])
    requires forall q :: |c| <= q < m ==> !Letter(s[q]) && s[q] !in "=<>!("
    ensures OperatorText(s, e) ==> OperatorText(c, e)
  {
    assert s[e] == c[e];
    BangInside(c, s, m, e);
    FoldInside(c, s, "IN", e);
    FoldInside(c, s, "BETWEEN", e);
    if FoldAt(s, "IN", e) { ParenthesisInside(c, s, m, e + 2); }
    if e + 7 < |c| { assert s[e + 7] == c[e + 7]; }
    hide OccursAt, FoldAt, In, Letter, ParenthesisAt, Upper;
  }

  lemma BangInside(c: string, s: string, m: nat, e: nat)
    requires c <= s && e < |c| <= m < |s| && Upper(s[m]) in "AO"
    requires forall q :: |c| <= q < m ==> s[q] !in "=<>!("
    ensures OccursAt(s, "!=", e) ==> OccursAt(c, "!=", e)
  {
    OccursChars(s, "!=", e);
    OccursChars(c, "!=", e);
    assert s[..|c|] == c && s[|c|] != '=';
    hide OccursAt;
  }

  lemma ParenthesisInside(c: string, s: string, m: nat, i: nat)
    requires c <= s && i <= |c| <= m < |s| && Upper(s[m]) in "AO"
    requires forall q :: |c| <= q < m ==> s[q] !in "=<>!("
    ensures ParenthesisAt(s, i) ==> ParenthesisAt(c, i)
  {
    SkipStops(s, i, m);
    SkipInPrefix(c, s, i);
    assert s[..|c|] == c;
    hide In;
  }

  /** A word that begins in c ends before its last rune, which is no letter. */
  lemma FoldInside(c: string, s: string, t: string, e: nat)
    requires c <= s && (t == "IN" || t == "BETWEEN") && e < |c| && !Letter(c[|c| - 1])
    ensures FoldAt(s, t, e) ==> e + |t| < |c| && FoldAt(c, t, e)
  {
    if FoldAt(s, t, e) {
      assert s[|c| - 1] == c[|c| - 1];
      forall q | e <= q < e + |t| ensures Letter(s[q]) { assert Upper(s[q]) == Upper(t[q - e]); }
    }
  }

  lemma {:induction false} SkipInPrefix(z: string, s: string, i: nat)
    requires z <= s && i <= |s|
    ensures SkipBlanks(s, i) < |z| ==> i <= |z| && SkipBlanks(z, i) == SkipBlanks(s, i)
    decreases |s| - i
  {
    if i < |s| && In(Space, s[i]) { SkipInPrefix(z, s, i + 1); }
  }

  /** Removing the comparisons leaves the text up to the end of the word as it is. */
  lemma RemoveUpTo(name: string, b1: string, h: string, k: string, y: string, column: string,
                   s: string) returns (t: string)
    requires h == name + b1 + "=" && s == h + k + y && WordText(column) && SameName(name, column) && Blanks(b1)
    requires forall j: nat :: 0 < j < |h + k| ==> !Compared(s, column, j)
    ensures ReplaceAll(ColumnPattern(column), s, Always("")) == k + t && (y == "" ==> t == "")
  {
    hide *;
    var re, e, f := ColumnPattern(column), |name| + |b1|, |h + k|;
    var put := Always("");
    assert s == h + (k + y);
    ConditionHead(name, b1, column, h, k + y, s, e);
    EqualsMatch(s, e);
    ColumnAtStart(s, column, e);
    forall j | e + 1 <= j < f ensures Match(re, s, j) == Fail { ColumnIff(s, column, j); }
    HitFirst(re, s, e + 1);
    ReplaceCopies(re, s, e + 1, f, put);
    t := ReplaceFrom(re, s, f, put);
    assert s[e + 1..f] == k;
    if y == "" { ReplaceEnd(re, s, put); }
  }

  lemma ColumnAtStart(s: string, column: string, e: nat)
    requires WordText(column) && FoldAt(s, column, 0) && |column| <= e && OperatorAt(s, e, e + 1)
    requires forall q :: |column| <= q < e ==> In(Space, s[q])
    ensures Match(ColumnPattern(column), s, 0) == Ok([e + 1])
  {
    hide *;
    Outside(s);
    ColumnMatch(s, column, 0, e, e + 1);
  }

  lemma Outside(s: string)
    ensures !WordAt(s, 0 - 1)
  {
  }

  lemma HitFirst(re: Re, s: string, f: nat)
    requires 0 < f <= |s| && Match(re, s, 0) == Ok([f])
    ensures ReplaceAll(re, s, Always("")) == ReplaceFrom(re, s, f, Always(""))
  {
    hide Match;
    ReplaceHit(re, s, 0, f, Always(""));
  }

  /** The literal, the joiner and what is left, seen from the literal. */
  lemma LiteralThere(b2: string, l: Literal, b: After, t: string)
    requires AllSpace(b2) && Plain(l) && AfterOk(b) && b.Joined?
    ensures var c := PrintLiteral(l) + (b.w1 + b.word);
      TrimSpace(b2 + PrintLiteral(l) + (b.w1 + b.word) + t) == c + TrimRightFunc(t, IsSpace)
  {
    var c, g := PrintLiteral(l) + (b.w1 + b.word), b.w1 + b.word;
    LastPlain(l);
    WordEnds(b);
    assert c[0] == PrintLiteral(l)[0] && c[|c| - 1] == g[|g| - 1];
    hide *;
    SolidIs(c);
    assert b2 + PrintLiteral(l) + (b.w1 + b.word) + t == b2 + c + t;
    TrimAround(b2, c, t);
  }

  lemma SolidIs(c: string)
    requires c != "" && !IsSpace(c[0]) && !IsSpace(c[|c| - 1])
    ensures Solid(c)
  {
  }

  lemma Remainder(b2: string, l: Literal, b: After, t: string, k: string)
    requires AllSpace(b2) && Plain(l) && AfterOk(b) && b.Joined? && k == b2 + PrintLiteral(l) + (b.w1 + b.word) + t
    requires TrimSpace(k) == PrintLiteral(l) + (b.w1 + b.word) + TrimRightFunc(t, IsSpace)
    ensures Extract.ValueOf(TrimSpace(k)) != l.v
    ensures t == "" ==> Extract.ValueOf(TrimSpace(k)) == Trim(PrintLiteral(l) + (b.w1 + b.word), CUT)
  {
    var c, s := PrintLiteral(l), TrimSpace(k);
    var i := |c| + |b.w1|;
    LastPlain(l);
    assert s[0] == c[0] && s[i] == b.word[0] && Upper(b.word[0]) == ToUpper(b.word)[0];
    assert s[i] !in CUT && c <= s;
    NoLetterFirst(s);
    hide TakesIn, TakesBetween, TrimSpace, Trim, PrintLiteral, Letter, JoinWord;
    NotTheValue(l, s, i);
    assert t == "" ==> s == c + (b.w1 + b.word);
  }

  /** Text that goes on after the literal with a rune that is not trimmed is not the value. */
  lemma NotTheValue(l: Literal, s: string, i: nat)
    requires Plain(l) && PrintLiteral(l) <= s && |PrintLiteral(l)| <= i < |s| && s[i] !in CUT
    ensures Trim(s, CUT) != l.v
  {
    var a, b := TrimSlice(s, OneOf(CUT));
    var o := if l.Quoted? then 1 else 0;
    hide TrimFunc;
    assert a <= i < b;
    assert l.v != "" ==> s[o] == PrintLiteral(l)[o] == l.v[0];
    assert Trim(s, CUT)[0] == s[a];
  }
}
