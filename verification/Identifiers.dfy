/** Reading a name out of SQL text: extractFirstIdentifier, what it makes of a qualified name in
    each of its spellings and of an unqualified one, and where the name it reads can stand. */
module Identifiers {
  import opened GoStrings
  import opened Regex
  import opened Rewrite

  /** extractFirstIdentifier after its first trim, for text that begins with a backtick and has a
      nonempty quoted name of length n. */
  function Quoted(s: string, n: nat): string
    requires n + 2 <= |s|
  {
    var afterFirst := TrimSpace(s[n + 2..]);
    if !HasPrefix(afterFirst, ".") then s[1..n + 1]
    else
      var afterDot := TrimSpace(afterFirst[1..]);
      if HasPrefix(afterDot, "`") then
        var m := Index(afterDot[1..], "`");
        if m > 0 then afterDot[1..m + 1] else s[1..n + 1]
      else if FirstField(afterDot) != "" then TrimRight(FirstField(afterDot), ",")
      else s[1..n + 1]
  }

  function Unquoted(s: string): string {
    if FirstField(s) == "" then s
    else
      var name := TrimRight(FirstField(s), ",");
      var dot := Index(name, ".");
      Trim(if dot != -1 then name[dot + 1..] else name, "`")
  }

  function FirstIdentifier(text: string): string {
    var s := TrimSpace(text);
    var n := if HasPrefix(s, "`") then Index(s[1..], "`") else -1;
    var m := if HasPrefix(s, "\"") then Index(s[1..], "\"") else -1;
    if n > 0 then Quoted(s, n)
    else if m > 0 then s[1..m + 1]
    else if HasPrefix(s, "'") then s
    else Unquoted(s)
  }

  // ---------- a word of a text ----------

  /** t at w, with no rune of a word on either side. */
  predicate WholeAt(s: string, t: string, w: nat) {
    OccursAt(s, t, w) && !WordAt(s, w - 1) && !WordAt(s, w + |t|)
  }

  lemma WholeIsToken(s: string, t: string, w: nat)
    requires WordText(t) && WholeAt(s, t, w)
    ensures t in Tokens(s)
  {
    var a, b := s[..w], s[w + |t|..];
    assert s == a + t + b;
    assert Apart(a, t) && Apart(a + t, b);
    hide Tokens;
    WordTokens(t);
    TokensConcat(a, t);
    TokensConcat(a + t, b);
    assert t in [t];
  }

  /** A whole word stops before a rune of no word. */
  lemma StopsBefore(s: string, t: string, w: nat, x: nat)
    requires WordText(t) && OccursAt(s, t, w) && w <= x < |s| && !IsWord(s[x])
    ensures w + |t| <= x
  {
    OccursChars(s, t, w);
    assert forall q :: w <= q < w + |t| ==> IsWord(s[q]) by {
      forall q | w <= q < w + |t| ensures IsWord(s[q]) { assert s[q] == t[q - w]; }
    }
  }

  /** A part of a text that no word reaches out of. */
  lemma WholeInSlice(s: string, i: nat, j: nat, d: string, t: string, w: nat)
    requires i <= j <= |s| && d == s[i..j] && WholeAt(d, t, w) && !WordAt(s, i - 1) && !WordAt(s, j)
    ensures WholeAt(s, t, i + w)
  {
    SubOccurs(s, d, i, w, t);
    OccursChars(d, t, w);
    assert forall q :: 0 <= q < |d| ==> d[q] == s[i + q];
  }

  lemma SpaceChars(c: char)
    requires IsSpace(c)
    ensures c != '.' && c != '`' && !IsWord(c)
  {
  }

  /** Trimming spaces leaves such a part. */
  lemma WholeInTrimmed(s: string, t: string, w: nat) returns (x: nat)
    requires WholeAt(TrimSpace(s), t, w)
    ensures WholeAt(s, t, x) && x >= w
  {
    var i, j := TrimSlice(s, IsSpace);
    if i > 0 { SpaceChars(s[i - 1]); }
    if j < |s| { SpaceChars(s[j]); }
    hide TrimFunc;
    WholeInSlice(s, i, j, TrimSpace(s), t, w);
    x := i + w;
  }

  predicate NoSpace(e: string) {
    forall i :: 0 <= i < |e| ==> !IsSpace(e[i])
  }

  /** After the glued text: nothing, or a space and anything. */
  predicate Tail(v: string) {
    v == "" || IsSpace(v[0])
  }

  predicate AllOf(e: string, c: char) {
    forall i :: 0 <= i < |e| ==> e[i] == c
  }

  lemma {:induction false} TailTrimmed(w: string)
    requires Tail(w)
    ensures var v := TrimRightFunc(w, IsSpace); Tail(v) && (v != "" ==> !IsSpace(v[|v| - 1]))
  {
    if w != "" && IsSpace(w[|w| - 1]) { TailTrimmed(w[..|w| - 1]); }
  }

  lemma TrimmedEnd(tail: string)
    ensures var v := TrimRightFunc(tail, IsSpace); v != "" ==> !IsSpace(v[|v| - 1])
  {
    var j := TrimRightSlice(tail, IsSpace);
  }

  /** Text that ends in post or, without one, in u, has no space at its end. */
  lemma SolidWith(u: string, post: string)
    requires Solid(u) && (post != "" ==> !IsSpace(post[|post| - 1]))
    ensures Solid(u + post)
  {
    hide IsSpace;
    var t := u + post;
    assert t[0] == u[0];
    assert t[|t| - 1] == if post == "" then u[|u| - 1] else post[|post| - 1];
  }

  lemma SolidGlued(u: string, e: string)
    requires Solid(u) && NoSpace(e)
    ensures Solid(u + e)
  {
    SolidWith(u, e);
  }

  /** The first field of text that begins with w and then ends or goes on with a space. */
  lemma FieldIs(w: string, post: string)
    requires w != "" && (forall i :: 0 <= i < |w| ==> !IsSpace(w[i])) && (post != "" ==> IsSpace(post[0]))
    ensures FirstField(w + post) == w
  {
    var t := w + post;
    assert t[0] == w[0];
    var e := FieldEnd(t, 0);
    assert forall i :: 0 <= i < |w| ==> t[i] == w[i];
    assert post != "" ==> t[|w|] == post[0];
    hide FieldEnd, IsSpace;
    assert t[..|w|] == w;
  }

  lemma WordChars(t: string)
    requires WordText(t)
    ensures forall i :: 0 <= i < |t| ==>
      !IsSpace(t[i]) && t[i] != '`' && t[i] != '.' && t[i] != ',' && t[i] != '"' && t[i] != '\''
  {
  }

  lemma FirstBacktick(u: string, rest: string)
    requires '`' !in u
    ensures Index(u + "`" + rest, "`") == |u|
  {
    var t := u + "`" + rest;
    assert OccursAt(t, "`", |u|);
    forall j | 0 <= j < |u| ensures !OccursAt(t, "`", j) {
      OccursChars(t, "`", j);
      assert t[j] == u[j];
    }
    IndexIs(t, "`", |u|);
  }

  lemma DotIndex(p: string, n: string, u: string)
    requires u == p + "." + n && '.' !in p
    ensures Index(u, ".") == |p|
  {
    assert OccursAt(u, ".", |p|);
    forall j | 0 <= j < |p| ensures !OccursAt(u, ".", j) {
      OccursChars(u, ".", j);
      assert u[j] == p[j];
    }
    IndexIs(u, ".", |p|);
  }

  // ---------- a qualified name ----------

  /** A qualified name: the database and the table, each with or without backticks. */
  datatype Spelling = Spelling(db: string, dbQuoted: bool, tableQuoted: bool)

  function DbText(sp: Spelling): string {
    if sp.dbQuoted then "`" + sp.db + "`" else sp.db
  }

  function TableText(sp: Spelling, t: string): string {
    if sp.tableQuoted then "`" + t + "`" else t
  }

  function Spell(sp: Spelling, t: string): string {
    DbText(sp) + "." + TableText(sp, t)
  }

  predicate Spelled(sp: Spelling) {
    if sp.dbQuoted then sp.db != "" && '`' !in sp.db
    else WordText(sp.db) && In(IdentHead, sp.db[0])
  }

  lemma TableChars(sp: Spelling, t: string)
    requires WordText(t)
    ensures var n := TableText(sp, t); n != "" && Solid(n) && n[|n| - 1] != ',' && '.' !in n && NoSpace(n)
  {
    WordChars(t);
  }

  /** The name that is read when the text e is glued to the table. Between the backticks of a
      doubly quoted spelling it is the table; otherwise e is part of it, but for trailing commas
      and, where backticks are trimmed, backticks. */
  function ExtractedName(sp: Spelling, t: string, e: string): string {
    if sp.dbQuoted then (if sp.tableQuoted then t else t + TrimRight(e, ","))
    else t + TrimRight((if sp.tableQuoted then "`" else "") + TrimRight(e, ","), "`")
  }

  /** What may be glued to the table: commas; after an unquoted database also backticks before
      them; after a doubly quoted name anything. */
  predicate GluedOk(sp: Spelling, e: string) {
    if sp.dbQuoted then sp.tableQuoted || AllOf(e, ',') else AllOf(TrimRight(e, ","), '`')
  }

  lemma GluedIff(sp: Spelling, t: string, e: string)
    ensures ExtractedName(sp, t, e) == t <==> GluedOk(sp, e)
  {
    var h := TrimRight(e, ",");
    var k := (if sp.tableQuoted then "`" else "") + h;
    TrimsAll(e, ',', ",");
    TrimsAll(k, '`', "`");
    assert AllOf(k, '`') <==> AllOf(h, '`') by {
      assert sp.tableQuoted ==> forall i :: 0 <= i < |h| ==> k[i + 1] == h[i];
      assert sp.tableQuoted ==> forall i :: 0 < i < |k| ==> k[i] == h[i - 1];
      assert !sp.tableQuoted ==> k == h;
    }
    hide TrimRight, AllOf;
    NothingAdded(t, h);
    NothingAdded(t, TrimRight(k, "`"));
  }

  lemma NothingAdded(t: string, x: string)
    ensures t + x == t <==> x == ""
  {
    assert |t + x| == |t| + |x|;
  }

  lemma TrimsAll(e: string, c: char, cutset: string)
    requires cutset == [c]
    ensures TrimRight(e, cutset) == "" <==> AllOf(e, c)
  {
    TrimsAway(e, OneOf(cutset));
  }

  /** What is glued begins no word then. */
  lemma GluedApart(sp: Spelling, e: string, tail: string)
    requires GluedOk(sp, e) && !sp.tableQuoted && Tail(tail)
    ensures e + tail == "" || !IsWord((e + tail)[0])
  {
    var j := TrimRightSlice(e, OneOf(","));
    if e != "" {
      assert e[0] == ',' || e[0] == e[..j][0];
    } else if tail != "" {
      SpaceChars(tail[0]);
      assert (e + tail)[0] == tail[0];
    }
  }

  /** `db`.t and `db`.`t` */
  lemma QuotedDbIs(sp: Spelling, t: string, e: string, v: string)
    requires WordText(t) && Spelled(sp) && sp.dbQuoted && NoSpace(e) && Tail(v) && (v != "" ==> !IsSpace(v[|v| - 1]))
    ensures FirstIdentifier(Spell(sp, t) + e + v) == ExtractedName(sp, t, e)
  {
    hide *;
    var n := TableText(sp, t);
    var d, x := n + e + v, Spell(sp, t) + e + v;
    TableChars(sp, t);
    SolidGlued(n, e);
    SolidWith(n + e, v);
    QuotedText(sp, t, e, v, x, d);
    TrimSolid(d);
    TrimSolid("." + d);
    TrimSolid(x);
    FirstBacktick(sp.db, "." + d);
    AfterTheDot(sp, t, e, v, d);
    QuotedUnfolds(x, |sp.db|, d, sp.tableQuoted, t, t + e, t + TrimRight(e, ","));
    QuotedName(sp, t, e);
  }

  lemma QuotedName(sp: Spelling, t: string, e: string)
    requires sp.dbQuoted
    ensures ExtractedName(sp, t, e) == if sp.tableQuoted then t else t + TrimRight(e, ",")
  {
  }

  lemma QuotedText(sp: Spelling, t: string, e: string, v: string, x: string, d: string)
    requires WordText(t) && Spelled(sp) && sp.dbQuoted && x == Spell(sp, t) + e + v && d == TableText(sp, t) + e + v
    requires Solid(d)
    ensures t != "" && sp.db != "" && '`' !in sp.db && |x| == |sp.db| + 3 + |d| && x[0] == '`'
    ensures x[1..] == sp.db + "`" + ("." + d) && x[|sp.db| + 2..] == "." + d && Solid("." + d) && Solid(x)
  {
    QuotedPieces(sp, TableText(sp, t), e, v, x, d);
    hide TableText, Solid, Spell, DbText;
  }

  lemma QuotedPieces(sp: Spelling, n: string, e: string, v: string, x: string, d: string)
    requires sp.dbQuoted && x == DbText(sp) + "." + n + e + v && d == n + e + v
    ensures x == "`" + sp.db + "`" + ("." + d)
  {
  }

  lemma AfterTheDot(sp: Spelling, t: string, e: string, v: string, d: string)
    requires WordText(t) && NoSpace(e) && Tail(v) && d == TableText(sp, t) + e + v
    ensures if sp.tableQuoted then HasPrefix(d, "`") && Index(d[1..], "`") ==
      |t| && |t| + 1 <= |d| && d[1..|t| + 1] == t
            else !HasPrefix(d, "`") && FirstField(d) == t + e && TrimRight(t + e, ",") == t + TrimRight(e, ",")
  {
    WordChars(t);
    if sp.tableQuoted {
      assert d[1..] == t + "`" + (e + v);
      FirstBacktick(t, e + v);
    } else {
      assert d[0] == t[0];
      GluedField(t, e, v);
      TrimRightPast(t, e, OneOf(","));
    }
  }

  lemma GluedField(u: string, e: string, v: string)
    requires u != "" && NoSpace(u) && NoSpace(e) && Tail(v)
    ensures FirstField(u + e + v) == u + e
  {
    hide IsSpace, FirstField;
    FieldIs(u + e, v);
  }

  lemma QuotedUnfolds(x: string, n: nat, d: string, quoted: bool, t: string, w: string, r: string)
    requires x != "" && x[0] == '`' && TrimSpace(x) == x && 0 < n && n + 2 <= |x| && Index(x[1..], "`") == n && t != ""
    requires w != ""
    requires x[n + 2..] == "." + d && TrimSpace("." + d) == "." + d && TrimSpace(d) == d
    requires if quoted then HasPrefix(d, "`") && Index(d[1..], "`") == |t| && |t| + 1 <= |d| && d[1..|t| + 1] == t
             else !HasPrefix(d, "`") && FirstField(d) == w && TrimRight(w, ",") == r
    ensures FirstIdentifier(x) == if quoted then t else r
  {
    hide TrimSpace, Index, FirstField, TrimRight;
    assert ("." + d)[1..] == d;
    assert Quoted(x, n) == if quoted then t else r;
  }

  lemma SpellingSolid(sp: Spelling, t: string)
    requires WordText(t) && Spelled(sp)
    ensures Solid(Spell(sp, t))
  {
    TableChars(sp, t);
    var u := Spell(sp, t);
    assert u[|u| - 1] == TableText(sp, t)[|TableText(sp, t)| - 1];
    assert u[0] == DbText(sp)[0];
    if !sp.dbQuoted { WordChars(sp.db); }
  }

  /** db.t and db.`t` */
  lemma PlainDbIs(sp: Spelling, t: string, e: string, v: string)
    requires WordText(t) && Spelled(sp) && !sp.dbQuoted && NoSpace(e) && Tail(v) && (v != "" ==> !IsSpace(v[|v| - 1]))
    ensures FirstIdentifier(Spell(sp, t) + e + v) == ExtractedName(sp, t, e)
  {
    hide *;
    var u, n, h := Spell(sp, t), TableText(sp, t), TrimRight(e, ",");
    var x := u + e + v;
    SpellingSolid(sp, t);
    SolidGlued(u, e);
    SolidWith(u + e, v);
    TrimSolid(x);
    TableChars(sp, t);
    PlainText(sp, t, u, n);
    GluedField(u, e, v);
    CommasGone(u, e, h);
    assert u + h == sp.db + "." + (n + h);
    DotIndex(sp.db, n + h, u + h);
    assert x[0] == u[0];
    BackticksGone(sp, t, n, e, h);
    PlainUnfolds(x, u + e, u + h, sp.db, n + h, ExtractedName(sp, t, e));
  }

  lemma CommasGone(u: string, e: string, h: string)
    requires h == TrimRight(e, ",") && u != "" && u[|u| - 1] != ','
    ensures TrimRight(u + e, ",") == u + h
  {
    TrimRightPast(u, e, OneOf(","));
  }

  lemma BackticksGone(sp: Spelling, t: string, n: string, e: string, h: string)
    requires WordText(t) && !sp.dbQuoted && n == TableText(sp, t) && h == TrimRight(e, ",")
    ensures Trim(n + h, "`") == ExtractedName(sp, t, e)
  {
    WordChars(t);
    var f := OneOf("`");
    hide WordText, IsSpace;
    if sp.tableQuoted {
      assert n + h == "`" + (t + ("`" + h)) && (t + ("`" + h))[0] == t[0];
      TrimLeftSkips("`", t + ("`" + h), f);
      TrimRightPast(t, "`" + h, f);
    } else {
      assert "" + h == h && (t + h)[0] == t[0];
      TrimRightPast(t, h, f);
    }
  }

  lemma PlainText(sp: Spelling, t: string, u: string, n: string)
    requires WordText(t) && Spelled(sp) && !sp.dbQuoted && u == Spell(sp, t) && n == TableText(sp, t)
    requires n != "" && n[|n| - 1] != ',' && NoSpace(n)
    ensures u == sp.db + "." + n && '.' !in sp.db && u[|u| - 1] != ','
    ensures u[0] != '`' && u[0] != '"' && u[0] != '\'' && NoSpace(u)
  {
    WordChars(sp.db);
    assert u == sp.db + "." + n;
    assert !IsSpace('.');
    hide IsSpace;
    assert u[|u| - 1] == n[|n| - 1] && u[0] == sp.db[0];
    forall i | 0 <= i < |u| ensures !IsSpace(u[i]) {
      assert u[i] == if i < |sp.db| then sp.db[i] else if i == |sp.db| then '.' else n[i - |sp.db| - 1];
    }
  }

  lemma PlainUnfolds(x: string, field: string, name: string, p: string, n: string, r: string)
    requires x != "" && x[0] != '`' && x[0] != '"' && x[0] != '\'' && TrimSpace(x) == x && FirstField(x) == field
    requires field != ""
    requires TrimRight(field, ",") == name && name == p + "." + n && Index(name, ".") == |p| && Trim(n, "`") == r
    ensures FirstIdentifier(x) == r
  {
    hide TrimSpace, FirstField, Index, Trim, TrimRight;
    assert name[|p| + 1..] == n;
  }

  // ---------- an unqualified name ----------

  /** A dot and a second name follow the closing backtick. */
  predicate SecondName(post: string) {
    var p := TrimSpace(post);
    HasPrefix(p, ".") &&
    (var d := TrimSpace(p[1..]); if HasPrefix(d, "`") then Index(d[1..], "`") > 0 else d != "")
  }

  /** The name up to a dot in the glued text is not what is extracted, and what follows the dot is
      not the table, which is no word of the text after it. */
  lemma BareIff(t: string, e: string, tail: string, v: string)
    requires WordText(t) && NoSpace(e) && Tail(tail) && Tail(v) && (v != "" ==> !IsSpace(v[|v| - 1]))
    requires t !in Tokens(e + tail)
    ensures FirstIdentifier(t + e + v) == t <==> AllOf(TrimRight(e, ","), '`')
  {
    hide *;
    var x, h := t + e + v, TrimRight(e, ",");
    BareStart(t, e, v, x, h);
    GluedField(t, e, v);
    CommasGone(t, e, h);
    var k := Index(t + h, ".");
    if k == -1 {
      BareUnfolds(x, t + e, t + h, t + h);
      BareNoDot(t, h);
    } else {
      BareDot(t, h, k);
      BareUnfolds(x, t + e, t + h, (t + h)[k + 1..]);
      AfterDotIs(t, h, k);
      if Trim(h[k - |t| + 1..], "`") == t {
        var w := AfterDotWhole(t, e, tail, h, k - |t|);
        WholeIsToken(e + tail, t, w);
      }
    }
  }

  lemma BareStart(t: string, e: string, v: string, x: string, h: string)
    requires WordText(t) && NoSpace(e) && (v != "" ==> !IsSpace(v[|v| - 1])) && x == t + e + v
    ensures t != "" && NoSpace(t) && t[|t| - 1] != ',' && TrimSpace(x) == x
    ensures x[0] != '`' && x[0] != '"' && x[0] != '\''
  {
    WordChars(t);
    assert x[0] == t[0];
    hide IsSpace;
    SolidGlued(t, e);
    SolidWith(t + e, v);
    TrimSolid(x);
  }

  lemma BareUnfolds(x: string, field: string, name: string, r: string)
    requires x != "" && x[0] != '`' && x[0] != '"' && x[0] != '\'' && TrimSpace(x) == x && FirstField(x) == field
    requires field != ""
    requires TrimRight(field, ",") == name && -1 <= Index(name, ".") < |name|
    requires r == if Index(name, ".") == -1 then name else name[Index(name, ".") + 1..]
    ensures FirstIdentifier(x) == Trim(r, "`")
  {
    hide TrimSpace, FirstField, Index, Trim, TrimRight;
  }

  lemma BareNoDot(t: string, h: string)
    requires WordText(t)
    ensures Trim(t + h, "`") == t <==> AllOf(h, '`')
  {
    WordChars(t);
    assert (t + h)[0] == t[0];
    TrimRightPast(t, h, OneOf("`"));
    TrimsAway(h, OneOf("`"));
    var r := TrimRight(h, "`");
    assert t + r == t <==> r == "";
    hide TrimRightFunc, IsSpace, WordText;
  }

  lemma BareDot(t: string, h: string, k: int)
    requires WordText(t) && k == Index(t + h, ".") && k != -1
    ensures |t| <= k < |t + h| && h[k - |t|] == '.' && !AllOf(h, '`')
  {
    WordChars(t);
    OccursChars(t + h, ".", k);
    assert (t + h)[k] == '.';
    forall i | 0 <= i < |t| ensures (t + h)[i] != '.' { assert (t + h)[i] == t[i]; }
    hide IsSpace, WordText;
  }

  lemma AfterDotIs(t: string, h: string, k: int)
    requires |t| <= k < |t + h|
    ensures (t + h)[k + 1..] == h[k - |t| + 1..]
  {
  }

  /** The table after a dot in the glued text, but for backticks, is a word of it. */
  lemma AfterDotWhole(t: string, e: string, tail: string, h: string, k: nat) returns (w: nat)
    requires WordText(t) && h == TrimRight(e, ",") && k < |h| && h[k] == '.' && Trim(h[k + 1..], "`") == t && Tail(tail)
    ensures WholeAt(e + tail, t, w)
  {
    var c := TrimRightSlice(e, OneOf(","));
    var r := h[k + 1..];
    var i, j := TrimSlice(r, OneOf("`"));
    if tail != "" { SpaceChars(tail[0]); }
    hide TrimRightFunc, TrimFunc;
    w := k + 1 + i;
    var s := e + tail;
    forall q | 0 <= q < |t| ensures s[w + q] == t[q] {
      assert t[q] == r[i + q] == h[w + q] == e[w + q];
    }
    OccursChars(s, t, w);
    hide IsSpace;
    TableBefore(e, tail, s, h, r, i, k, c);
    TableAfter(e, tail, s, r, i, j, k, c);
    assert w + |t| == k + 1 + j;
  }

  lemma TableBefore(e: string, tail: string, s: string, h: string, r: string, i: nat, k: nat, c: nat)
    requires s == e + tail && c <= |e| && h == e[..c] && k < c && h[k] == '.' && r == h[k + 1..] && i <= |r|
    requires forall q :: 0 <= q < i ==> r[q] in "`"
    ensures k + i < |s| && s[k + i] in ".`"
  {
    assert s[k + i] == if i > 0 then r[i - 1] else h[k];
  }

  lemma TableAfter(e: string, tail: string, s: string, r: string, i: nat, j: nat, k: nat, c: nat)
    requires s == e + tail && k < c <= |e| && r == e[..c][k + 1..] && j <= |r| && (tail != "" ==> !IsWord(tail[0]))
    requires (forall q :: j <= q < |r| ==> r[q] in "`") && forall q :: c <= q < |e| ==> e[q] in ","
    ensures !WordAt(s, k + 1 + j)
  {
    var z := k + 1 + j;
    if j < |r| {
      assert s[z] == r[j];
    } else if z < |e| {
      assert s[z] == e[z];
    } else if tail != "" {
      assert s[z] == tail[0];
    }
  }

  /** The quoted table. */
  lemma QuotedIff(t: string, post: string, u: string)
    requires WordText(t) && u == "`" + t + "`" && t !in Tokens(post)
    ensures FirstIdentifier(u + TrimRightFunc(post, IsSpace)) == t <==> !SecondName(post)
  {
    hide *;
    var v := TrimRightFunc(post, IsSpace);
    var x := u + v;
    TrimmedEnd(post);
    QuotedAlone(t, v, u, x);
    SolidWith(u, v);
    TrimSolid(x);
    FirstBacktick(t, v);
    TrimTail(post);
    if !SecondName(post) {
      QuotedFirst(x, t, v, post);
    } else {
      var d := SecondUnfolds(x, t, v, post);
      if FirstIdentifier(x) == t {
        var y := SecondWhole(d, t);
        var z := WholeInTrimmed(TrimSpace(post)[1..], t, y);
        WholeAfterDot(TrimSpace(post), t, z);
        var w := WholeInTrimmed(post, t, z + 1);
        WholeIsToken(post, t, w);
      }
    }
  }

  lemma QuotedAlone(t: string, v: string, u: string, x: string)
    requires WordText(t) && u == "`" + t + "`" && x == u + v
    ensures t != "" && '`' !in t && Solid(u)
    ensures |x| == |t| + 2 + |v| && x[0] == '`' && x[1..] == t + "`" + v && x[|t| + 2..] == v && x[1..|t| + 1] == t
  {
    WordChars(t);
  }

  lemma QuotedFirst(x: string, t: string, v: string, post: string)
    requires |x| >= |t| + 2 && t != "" && x[0] == '`' && TrimSpace(x) == x && Index(x[1..], "`") == |t|
    requires x[|t| + 2..] == v && TrimSpace(v) == TrimSpace(post) && !SecondName(post) && x[1..|t| + 1] == t
    ensures FirstIdentifier(x) == t
  {
    var p := TrimSpace(post);
    if p != "" { EmptyField(TrimSpace(p[1..])); }
    hide TrimSpace, Index, FirstField, TrimRight;
    assert Quoted(x, |t|) == t;
  }

  lemma EmptyField(d: string)
    ensures d == "" ==> FirstField(d) == ""
  {
  }

  /** What is read as the second name. */
  function Second(d: string): string {
    if HasPrefix(d, "`") then (var m := Index(d[1..], "`"); if m > 0 && m < |d| then d[1..m + 1] else "")
    else TrimRight(FirstField(d), ",")
  }

  lemma SecondUnfolds(x: string, t: string, v: string, post: string) returns (d: string)
    requires |x| >= |t| + 2 && t != "" && x[0] == '`' && TrimSpace(x) == x && Index(x[1..], "`") == |t|
    requires x[|t| + 2..] == v && TrimSpace(v) == TrimSpace(post) && SecondName(post)
    ensures TrimSpace(post) != "" && TrimSpace(post)[0] == '.' && d == TrimSpace(TrimSpace(post)[1..])
    ensures FirstIdentifier(x) == Second(d) && d != "" && !IsSpace(d[0])
  {
    var p := TrimSpace(post);
    d := TrimSpace(p[1..]);
    TrimEdge(p[1..], IsSpace);
    hide TrimSpace, Index, FirstField, TrimRight;
    assert Quoted(x, |t|) == Second(d);
  }

  /** If it is the table, the table is a word there. */
  lemma SecondWhole(d: string, t: string) returns (w: nat)
    requires WordText(t) && d != "" && !IsSpace(d[0]) && Second(d) == t
    ensures WholeAt(d, t, w) && w <= 1 && (w == 1 ==> d[0] == '`')
  {
    if HasPrefix(d, "`") {
      w := 1;
      var m := Index(d[1..], "`");
      OccursChars(d[1..], "`", m);
      assert d[1..][m] == '`';
    } else {
      w := 0;
      var k := FieldEnd(d, 0);
      var j := TrimRightSlice(d[..k], OneOf(","));
      assert FirstField(d) == d[..k];
      assert d[..k][..j] == d[..j] == t;
      assert j < k ==> d[j] == d[..k][j];
      if k < |d| { SpaceChars(d[k]); }
    }
  }

  lemma WholeAfterDot(p: string, t: string, z: nat)
    requires p != "" && p[0] == '.' && WholeAt(p[1..], t, z)
    ensures WholeAt(p, t, z + 1)
  {
    hide OccursAt;
    assert p[1..] == p[1..|p|];
    WholeInSlice(p, 1, |p|, p[1..], t, z);
  }

  // ---------- where the name stands that is read ----------

  /** A dot at d, then spaces and backticks, and the table at w. */
  predicate Dotted(s: string, d: nat, w: nat, t: string) {
    && d < |s| && s[d] == '.' && d < w && WholeAt(s, t, w)
    && forall q :: d < q < w && q < |s| ==> IsSpace(s[q]) || s[q] == '`'
  }

  /** The name at w follows a dot at d, which follows the quoted name that c closes. */
  predicate AfterQuoted(x: string, t: string, w: nat, c: nat, d: nat) {
    && 0 < c < d < |x| && x[0] == '`' && x[c] == '`' && (forall q :: 0 < q < c ==> x[q] != '`')
    && (forall q :: c < q < d ==> IsSpace(x[q])) && Dotted(x, d, w, t)
  }

  /** A table that is read stands in the first field, or after a quoted name and a dot. */
  lemma IdentifierIs(x: string, t: string) returns (w: nat, c: nat, d: nat)
    requires WordText(t) && TrimSpace(x) == x && FirstIdentifier(x) == t
    ensures w <= |x| && WholeAt(x, t, w) && (NoSpace(x[..w]) || AfterQuoted(x, t, w, c, d))
  {
    w, c, d := 0, 0, 0;
    var n := if HasPrefix(x, "`") then Index(x[1..], "`") else -1;
    var m := if HasPrefix(x, "\"") then Index(x[1..], "\"") else -1;
    NoWordInQuote(x);
    hide TrimSpace, Quoted, Unquoted, Index, WholeAt, AfterQuoted;
    if n > 0 {
      w, c, d := QuotedReads(x, t, n);
    } else if m > 0 {
      w := 1;
      BetweenMarks(x, t, "\"", m);
    } else if !HasPrefix(x, "'") {
      w := UnquotedReads(x, t);
    }
  }

  lemma NoWordInQuote(x: string)
    ensures HasPrefix(x, "'") ==> !WordText(x)
  {
    assert HasPrefix(x, "'") ==> x[0] == '\'' && !IsWord(x[0]);
  }

  lemma BetweenMarks(x: string, t: string, mark: string, m: nat)
    requires |mark| == 1 && !IsWord(mark[0]) && !IsSpace(mark[0]) && HasPrefix(x, mark) && Index(x[1..], mark) == m
    requires m + 2 <= |x| ==> x[1..m + 1] == t
    ensures m + 2 <= |x| && WholeAt(x, t, 1) && NoSpace(x[..1])
  {
    MarkAt(x, mark, m);
    OccursChars(x, t, 1);
    assert forall q :: 1 <= q < m + 1 ==> x[1..m + 1][q - 1] == x[q];
  }

  lemma MarkAt(x: string, mark: string, m: nat)
    requires |mark| == 1 && HasPrefix(x, mark) && Index(x[1..], mark) == m
    ensures m + 2 <= |x| && x[0] == mark[0] && x[m + 1] == mark[0] && forall q :: 0 < q <= m ==> x[q] != mark[0]
  {
    var y := x[1..];
    OccursChars(y, mark, m);
    assert x[m + 1] == y[m];
    forall q | 0 < q <= m ensures x[q] != mark[0] {
      assert !OccursAt(y, mark, q - 1);
      OccursChars(y, mark, q - 1);
      assert x[q] == y[q - 1];
    }
  }

  lemma QuotedReads(x: string, t: string, n: nat) returns (w: nat, c: nat, d: nat)
    requires WordText(t) && HasPrefix(x, "`") && n > 0 && Index(x[1..], "`") == n && TrimSpace(x) == x
    requires n + 2 <= |x| ==> Quoted(x, n) == t
    ensures w <= |x| && WholeAt(x, t, w) && (NoSpace(x[..w]) || AfterQuoted(x, t, w, c, d))
  {
    MarkAt(x, "`", n);
    var p := TrimSpace(x[n + 2..]);
    c, d := n + 1, 0;
    QuotedCases(x, n, p);
    hide Quoted, TrimSpace, Second, WholeAt;
    if Quoted(x, n) == x[1..n + 1] {
      w := 1;
      BetweenMarks(x, t, "`", n);
    } else {
      var y := SecondWhole(TrimSpace(p[1..]), t);
      d, w := SecondPlace(x, t, n, p, y);
    }
  }

  lemma QuotedCases(x: string, n: nat, p: string)
    requires n + 2 <= |x| && p == TrimSpace(x[n + 2..])
    ensures Quoted(x, n) == x[1..n + 1] || (HasPrefix(p, ".") && Quoted(x, n) == Second(TrimSpace(p[1..]))
            && TrimSpace(p[1..]) != "" && !IsSpace(TrimSpace(p[1..])[0]))
  {
    if HasPrefix(p, ".") {
      TrimEdge(p[1..], IsSpace);
      EmptyField(TrimSpace(p[1..]));
      MarkFits(TrimSpace(p[1..]));
    }
    hide TrimSpace, Index, FirstField, TrimRight;
  }

  lemma MarkFits(d: string)
    ensures HasPrefix(d, "`") && Index(d[1..], "`") > 0 ==> Index(d[1..], "`") < |d|
  {
    if HasPrefix(d, "`") && Index(d[1..], "`") > 0 { MarkAt(d, "`", Index(d[1..], "`")); }
  }

  /** Where the second name is in x. */
  lemma SecondPlace(x: string, t: string, n: nat, p: string, y: nat) returns (d: nat, w: nat)
    requires n + 2 <= |x| && p == TrimSpace(x[n + 2..]) && HasPrefix(p, ".") && WordText(t)
    requires x[0] == '`' && x[n + 1] == '`' && forall q :: 0 < q <= n ==> x[q] != '`'
    requires var z := TrimSpace(p[1..]); WholeAt(z, t, y) && y <= 1 && (y == 1 ==> z != "" && z[0] == '`')
    ensures w <= |x| && WholeAt(x, t, w) && AfterQuoted(x, t, w, n + 1, d)
  {
    hide WholeAt, IsSpace, TrimFunc, AfterQuoted;
    var z := TrimSpace(p[1..]);
    var i, j := TrimSlice(x[n + 2..], IsSpace);
    var k, l := TrimSlice(p[1..], IsSpace);
    hide TrimSpace;
    d := n + 2 + i;
    var o := d + 1 + k;
    w := o + y;
    PlaceOf(x, n, p, z, i, j, k, l);
    Borders(x, n, x[n + 2..], p, p[1..], i, j, k, l);
    WholeInSlice(x, o, o + |z|, z, t, y);
    if y == 1 { assert x[o] == z[0]; }
    TextFits(x, t, w) by { Fits(x, t, w); }
    QuotedPlace(x, t, n, d, o, w);
  }

  lemma QuotedPlace(x: string, t: string, n: nat, d: nat, o: nat, w: nat)
    requires n + 1 < d < o <= w <= o + 1 && w <= |x| && x[0] == '`' && x[n + 1] == '`' && x[d] == '.'
    requires WholeAt(x, t, w)
    requires (forall q :: 0 < q <= n ==> x[q] != '`') && forall q :: n + 1 < q < d ==> IsSpace(x[q])
    requires (forall q :: d < q < o ==> IsSpace(x[q])) && (w == o + 1 ==> x[o] == '`')
    ensures AfterQuoted(x, t, w, n + 1, d)
  {
    hide WholeAt, IsSpace;
  }

  lemma Fits(x: string, t: string, w: nat)
    requires WholeAt(x, t, w)
    ensures OccursAt(x, t, w)
  {
  }

  lemma PlaceOf(x: string, n: nat, p: string, z: string, i: nat, j: nat, k: nat, l: nat)
    requires n + 2 <= |x| && i <= j <= |x[n + 2..]| && p == x[n + 2..][i..j] && HasPrefix(p, ".")
    requires k <= l <= |p[1..]| && z == p[1..][k..l]
    ensures var o := n + 3 + i + k; o + |z| <= |x| && z == x[o..o + |z|] && x[n + 2 + i] == '.'
    ensures |p| == j - i && |z| == l - k
  {
    var o := n + 3 + i + k;
    forall q | 0 <= q < |p| ensures p[q] == x[n + 2 + i + q] { assert p[q] == x[n + 2..][i + q]; }
    forall q | 0 <= q < |z| ensures z[q] == x[o + q] { assert z[q] == p[1..][k + q] == p[1 + k + q]; }
    assert z == x[o..o + |z|];
  }

  /** What stands around the second name. */
  lemma Borders(x: string, n: nat, xs: string, p: string, ps: string, i: nat, j: nat, k: nat, l: nat)
    requires n + 2 <= |x| && xs == x[n + 2..] && i < j <= |xs| && p == xs[i..j] && p[0] == '.' && ps == p[1..]
    requires k <= l <= |ps|
    requires (forall q :: 0 <= q < i ==> IsSpace(xs[q])) && (forall q :: j <= q < |xs| ==> IsSpace(xs[q]))
    requires (forall q :: 0 <= q < k ==> IsSpace(ps[q])) && (forall q :: l <= q < |ps| ==> IsSpace(ps[q]))
    ensures var o := n + 3 + i + k; !WordAt(x, o - 1) && !WordAt(x, o + (l - k))
    ensures forall q :: n + 1 < q < n + 2 + i ==> IsSpace(x[q])
    ensures forall q :: n + 2 + i < q < n + 3 + i + k ==> IsSpace(x[q])
  {
    var d := n + 2 + i;
    assert forall q :: 0 <= q < |ps| ==> ps[q] == x[d + 1 + q];
    assert x[d] == '.';
    forall q | n + 1 < q < d ensures IsSpace(x[q]) { assert x[q] == xs[q - n - 2]; }
    forall q | d < q < d + 1 + k ensures IsSpace(x[q]) { assert x[q] == ps[q - d - 1]; }
    if k > 0 { SpaceChars(x[d + k]); }
    var e := d + 1 + l;
    if e < |x| {
      assert x[e] == if l < |ps| then ps[l] else xs[j];
      SpaceChars(x[e]);
    }
  }

  lemma UnquotedReads(x: string, t: string) returns (w: nat)
    requires WordText(t) && TrimSpace(x) == x && Unquoted(x) == t
    ensures w <= |x| && WholeAt(x, t, w) && NoSpace(x[..w])
  {
    TrimEdge(x, IsSpace);
    var k := FieldEnd(x, 0);
    assert x != "" ==> FirstField(x) == x[..k];
    assert x == "" ==> FirstField(x) == "";
    hide TrimSpace, FieldEnd, IsSpace;
    var name := TrimRight(x[..k], ",");
    var j := TrimRightSlice(x[..k], OneOf(","));
    var dot := Index(name, ".");
    var o := if dot != -1 then dot + 1 else 0;
    DotFits(name, dot);
    var r := name[o..];
    var i, l := TrimSlice(r, OneOf("`"));
    assert name[0..] == name;
    w := o + i;
    hide TrimRight, FirstField, Index, Trim, TrimFunc;
    TableAt(x, t, k, j, name, dot, o, r, i, l);
  }

  lemma DotFits(name: string, dot: int)
    requires dot == Index(name, ".")
    ensures -1 <= dot < |name| && (dot >= 0 ==> name[dot] == '.')
  {
    if dot >= 0 { OccursChars(name, ".", dot); }
  }

  lemma TableAt(x: string, t: string, k: nat, j: nat, name: string, dot: int, o: nat, r: string, i: nat, l: nat)
    requires k <= |x| && j <= k && name == x[..k][..j] && o <= |name| && r == name[o..] && i <= l <= |r| && t == r[i..l]
    requires (forall q :: 0 <= q < k ==> !IsSpace(x[q])) && (k < |x| ==> IsSpace(x[k]))
    requires (forall q :: j <= q < k ==> x[..k][q] in ",") && (o > 0 ==> name[o - 1] == '.')
    requires (forall q :: 0 <= q < i ==> r[q] in "`") && forall q :: l <= q < |r| ==> r[q] in "`"
    ensures o + i <= |x| && WholeAt(x, t, o + i) && NoSpace(x[..o + i])
  {
    hide *;
    assert name == x[..j];
    InName(x, t, j, o, r, i, l);
    BeforeTable(x, j, name, o, r, i);
    AfterTable(x, k, j, o, r, l);
    WholeIs(x, t, o + i);
    Beginning(x, k, o + i);
  }

  lemma WholeIs(x: string, t: string, w: nat)
    requires OccursAt(x, t, w) && !WordAt(x, w - 1) && !WordAt(x, w + |t|)
    ensures WholeAt(x, t, w)
  {
  }

  lemma Beginning(x: string, k: nat, w: nat)
    requires w <= k <= |x| && forall q :: 0 <= q < k ==> !IsSpace(x[q])
    ensures NoSpace(x[..w])
  {
    hide IsSpace;
  }

  lemma InName(x: string, t: string, j: nat, o: nat, r: string, i: nat, l: nat)
    requires o <= j <= |x| && r == x[..j][o..] && i <= l <= |r| && t == r[i..l]
    ensures OccursAt(x, t, o + i) && o + l == o + i + |t| <= j
  {
    assert r == x[o..j];
    forall q | 0 <= q < l - i ensures x[o + i + q] == r[i..l][q] { assert r[i + q] == x[o + i + q]; }
    assert x[o + i..o + l] == r[i..l];
  }

  lemma BeforeTable(x: string, j: nat, name: string, o: nat, r: string, i: nat)
    requires o <= j <= |x| && name == x[..j] && r == name[o..] && i <= |r| && (o > 0 ==> name[o - 1] == '.')
    requires forall q :: 0 <= q < i ==> r[q] in "`"
    ensures !WordAt(x, o + i - 1)
  {
    if i > 0 { assert x[o + i - 1] == r[i - 1]; }
  }

  lemma AfterTable(x: string, k: nat, j: nat, o: nat, r: string, l: nat)
    requires o <= j <= k <= |x| && r == x[..j][o..] && l <= |r| && (k < |x| ==> IsSpace(x[k]))
    requires (forall q :: j <= q < k ==> x[..k][q] in ",") && forall q :: l <= q < |r| ==> r[q] in "`"
    ensures !WordAt(x, o + l)
  {
    var z := o + l;
    if l < |r| {
      assert x[z] == r[l];
    } else if z < k {
      assert x[z] == x[..k][z];
    } else if k < |x| {
      SpaceChars(x[k]);
    }
  }
}
