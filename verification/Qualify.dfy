/** Qualified table names: extracting the table from a statement, dropping its qualifier and
    rewriting it, and which statements this works for. */
module Qualify {
  import opened GoStrings
  import opened Regex
  import opened Rewrite
  import opened Identifiers

  // ---------- the qualifier patterns ----------

  function ExtractTableName(text: string): string {
    var sql := TrimSpace(text);
    var upper := ToUpper(sql);
    var from := Index(upper, " FROM ");
    var join := Index(upper, " JOIN ");
    if HasPrefix(upper, "SELECT") && from != -1 then FirstIdentifier(TrimSpace(sql[from + 6..]))
    else if HasPrefix(upper, "SELECT") && join != -1 then FirstIdentifier(TrimSpace(sql[join + 6..]))
    else if HasPrefix(upper, "INSERT INTO") then FirstIdentifier(TrimSpace(sql[11..]))
    else if HasPrefix(upper, "UPDATE ") then FirstIdentifier(TrimSpace(sql[7..]))
    else if HasPrefix(upper, "DELETE FROM ") then FirstIdentifier(TrimSpace(sql[12..]))
    else ""
  }

  /** \.\s*`(t)` */
  function DotQuoted(t: string): Re {
    Lit(".", Star(Space, true, Lit("`" + t + "`", Done)))
  }

  /** \.\s*(t)\b */
  function DotName(t: string): Re {
    Lit(".", Star(Space, true, Lit(t, WordB(Done))))
  }

  /** `[^`]+`\s* followed by k */
  function BackQual(k: Re): Re {
    Lit("`", Plus(Not('`'), true, Lit("`", Star(Space, true, k))))
  }

  /** [A-Za-z_][A-Za-z0-9_]*\s* followed by k */
  function IdentQual(k: Re): Re {
    One(IdentHead, Star(Word, true, Star(Space, true, k)))
  }

  /** The four passes that drop a qualifier. The group they put back is always t itself. */
  function DropQualifiers(sql: string, t: string): string {
    var put := Always("`" + t + "`");
    ReplaceAll(IdentQual(DotName(t)), ReplaceAll(IdentQual(DotQuoted(t)),
      ReplaceAll(BackQual(DotName(t)), ReplaceAll(BackQual(DotQuoted(t)), sql, put), put), put), put)
  }

  function RewriteTableInSQL(sql: string, newName: string): string {
    var t := ExtractTableName(sql);
    if t == "" then sql else RewriteTableName(DropQualifiers(sql, t), t, newName)
  }

  // ---------- where the patterns can match ----------

  /** A dot that is followed by the table: where the table is. */
  lemma DotOk(s: string, j: nat, t: string) returns (w: nat)
    requires j <= |s| && WordText(t) && (Match(DotQuoted(t), s, j).Ok? || Match(DotName(t), s, j).Ok?)
    ensures j < w && j < |s| && s[j] == '.' && WholeAt(s, t, w)
    ensures forall q :: j < q < w && q < |s| ==> In(Space, s[q]) || s[q] == '`'
  {
    if Match(DotName(t), s, j).Ok? {
      w := DotNameOk(s, j, t);
    } else {
      w := DotQuotedOk(s, j, t);
    }
  }

  lemma DotNameOk(s: string, j: nat, t: string) returns (w: nat)
    requires j <= |s| && WordText(t) && Match(DotName(t), s, j).Ok?
    ensures j < w && j < |s| && s[j] == '.' && WholeAt(s, t, w)
    ensures forall q :: j < q < w && q < |s| ==> In(Space, s[q])
  {
    var k := Lit(t, WordB(Done));
    DotFirst(s, j, Star(Space, true, k));
    w := StarStops(Space, true, k, s, j + 1);
    LitMatch(t, WordB(Done), s, w);
    OccursChars(s, t, w);
    assert IsWord(s[w + |t| - 1]);
    Before(s, j, w);
    hide Lit, OccursAt, Match;
  }

  /** What stands just before the table is no rune of a word. */
  lemma Before(s: string, j: nat, w: nat)
    requires j < w <= |s| && s[j] == '.' && forall q :: j < q < w ==> In(Space, s[q]) || s[q] == '`'
    ensures !WordAt(s, w - 1)
  {
  }

  lemma DotFirst(s: string, j: nat, k: Re)
    requires j <= |s| && Match(Lit(".", k), s, j).Ok?
    ensures j < |s| && s[j] == '.' && Match(k, s, j + 1).Ok?
  {
    LitMatch(".", k, s, j);
    OccursChars(s, ".", j);
    hide Lit;
  }

  lemma DotQuotedOk(s: string, j: nat, t: string) returns (w: nat)
    requires j <= |s| && WordText(t) && Match(DotQuoted(t), s, j).Ok?
    ensures j < w && j < |s| && s[j] == '.' && WholeAt(s, t, w)
    ensures forall q :: j < q < w && q < |s| ==> In(Space, s[q]) || s[q] == '`'
  {
    var k := Lit("`" + t + "`", Done);
    DotFirst(s, j, Star(Space, true, k));
    var v := StarStops(Space, true, k, s, j + 1);
    LitMatch("`" + t + "`", Done, s, v);
    hide Lit, Match;
    w := v + 1;
    QuotedWhole(s, v, t);
  }

  lemma QuotedWhole(s: string, v: nat, t: string)
    requires OccursAt(s, "`" + t + "`", v)
    ensures v < |s| && s[v] == '`' && WholeAt(s, t, v + 1)
  {
    var u := "`" + t + "`";
    OccursChars(s, u, v);
    assert u[1..1 + |t|] == t;
    SubOccurs(s, u, v, 1, t);
    assert s[v] == u[0] && s[v + |t| + 1] == u[|t| + 1];
  }

  ghost predicate NoDotted(s: string, d: nat, t: string) {
    forall w: nat :: !Dotted(s, d, w, t)
  }

  /** Where no dot is followed by the table the patterns do not match. */
  lemma NoMatch(s: string, d: nat, t: string)
    requires d <= |s| && WordText(t) && NoDotted(s, d, t)
    ensures Match(DotQuoted(t), s, d) == Fail && Match(DotName(t), s, d) == Fail
  {
    hide NoDotted;
    if Match(DotQuoted(t), s, d).Ok? || Match(DotName(t), s, d).Ok? { MatchDotted(s, d, t); }
  }

  lemma MatchDotted(s: string, d: nat, t: string)
    requires d <= |s| && WordText(t) && (Match(DotQuoted(t), s, d).Ok? || Match(DotName(t), s, d).Ok?)
    ensures !NoDotted(s, d, t)
  {
    var w := DotOk(s, d, t);
    assert Dotted(s, d, w, t);
  }

  lemma NotADot(s: string, d: nat, t: string)
    requires d < |s| ==> s[d] != '.'
    ensures NoDotted(s, d, t)
  {
  }

  // ---------- the statement around the name ----------

  /** The text before the name ends in a word and then spaces. */
  ghost predicate LeadIn(pre: string) {
    exists m :: WordThenSpaces(pre, m)
  }

  predicate WordThenSpaces(pre: string, m: int) {
    0 <= m < |pre| - 1 && IsWord(pre[m]) && AllSpace(pre[m + 1..])
  }

  /** pre is the text before the name, post the text after it; neither has t as a word. */
  ghost predicate Around(pre: string, post: string, t: string) {
    WordText(t) && LeadIn(pre) && t !in Tokens(pre) && t !in Tokens(post)
  }

  lemma LeadSpace(pre: string, s: string)
    requires LeadIn(pre) && pre <= s
    ensures |pre| > 0 && IsSpace(s[|pre| - 1])
  {
    var m :| WordThenSpaces(pre, m);
    assert pre[m + 1..][|pre| - m - 2] == pre[|pre| - 1];
  }

  /** No dot of the text before the name is followed by the table. */
  lemma NoDotBefore(pre: string, s: string, t: string, d: nat)
    requires WordText(t) && LeadIn(pre) && t !in Tokens(pre) && pre <= s && d < |pre|
    ensures NoDotted(s, d, t)
  {
    var m :| WordThenSpaces(pre, m);
    forall w: nat ensures !Dotted(s, d, w, t) {
      if Dotted(s, d, w, t) {
        WithinPre(pre, s, t, d, w, m);
        hide Tokens;
        WholeIsToken(pre, t, w);
      }
    }
  }

  lemma WithinPre(pre: string, s: string, t: string, d: nat, w: nat, m: nat)
    requires WordText(t) && WordThenSpaces(pre, m) && pre <= s && d < |pre| && Dotted(s, d, w, t)
    ensures WholeAt(pre, t, w)
  {
    forall q | m < q < |pre| ensures IsSpace(s[q]) { assert s[q] == pre[m + 1..][q - m - 1]; }
    assert s[..|pre|] == pre && s[m] == pre[m];
    SpaceChars(s[m + 1]);
    if d > m { SpaceChars(s[d]); }
    assert w <= m;
    StopsBefore(s, t, w, m + 1);
    InPart("", pre, s, t, w);
    assert forall q :: 0 <= q < |pre| ==> s[q] == pre[q];
  }

  lemma NoDotAfter(u: string, post: string, s: string, t: string, d: nat)
    requires WordText(t) && t !in Tokens(post) && s == u + post && |u| <= d
    ensures NoDotted(s, d, t)
  {
    forall w: nat ensures !Dotted(s, d, w, t) {
      if Dotted(s, d, w, t) {
        WholeInPost(u, post, s, t, w);
        hide Tokens;
        WholeIsToken(post, t, w - |u|);
      }
    }
  }

  lemma WholeInPost(u: string, post: string, s: string, t: string, w: nat)
    requires s == u + post && WholeAt(s, t, w) && |u| < w
    ensures WholeAt(post, t, w - |u|)
  {
    assert s[|u|..] == post;
    OccursChars(s, t, w);
    OccursChars(post, t, w - |u|);
    assert forall q :: |u| <= q < |s| ==> s[q] == post[q - |u|];
  }

  // ---------- one pass ----------

  lemma {:induction false} EndsLit(t: string, r: Re, k: Re)
    requires EndsIn(r, k)
    ensures EndsIn(Lit(t, r), k)
  {
    if t != "" { EndsLit(t[1..], r, k); }
  }

  lemma QualifiersEnd(k: Re)
    ensures EndsIn(BackQual(k), k) && EndsIn(IdentQual(k), k)
  {
    assert EndsIn(Star(Space, true, k), k);
    assert EndsIn(Star(Word, true, Star(Space, true, k)), k);
    var r := Lit("`", Star(Space, true, k));
    EndsLit("`", Star(Space, true, k), k);
    assert EndsIn(Star(Not('`'), true, r), k);
    assert EndsIn(Plus(Not('`'), true, r), k);
    EndsLit("`", Plus(Not('`'), true, r), k);
  }

  /** Without a qualified table nothing changes. */
  lemma PassNone(re: Re, k: Re, s: string, u: string)
    requires EndsIn(re, k) && forall d :: 0 <= d <= |s| ==> Match(k, s, d) == Fail
    ensures ReplaceAll(re, s, Always(u)) == s
  {
    forall i | 0 <= i <= |s| ensures Match(re, s, i) == Fail {
      EndsFails(re, k, s, i);
    }
    hide EndsIn, ReplaceAll;
    ReplaceNone(re, s, Always(u));
  }

  /** A qualified name from x to z, its dot at y. */
  lemma PassOnce(re: Re, k: Re, s: string, x: nat, y: nat, z: nat, u: string)
    requires EndsIn(re, k) && x <= y < z <= |s| && Match(re, s, x) == Ok([z])
    requires forall d :: 0 <= d <= |s| && d != y ==> Match(k, s, d) == Fail
    requires forall i :: 0 <= i < x ==> Match(re, s, i) == Fail
    ensures ReplaceAll(re, s, Always(u)) == s[..x] + u + s[z..]
  {
    forall i | z <= i <= |s| ensures Match(re, s, i) == Fail {
      EndsFails(re, k, s, i);
    }
    hide EndsIn, ReplaceAll, Match;
    ReplaceOne(re, s, x, z, Always(u));
  }

  // ---------- the two qualifiers ----------

  lemma BackQualOk(s: string, i: nat, k: Re) returns (c: nat, d: nat)
    requires i <= |s| && Match(BackQual(k), s, i).Ok?
    ensures i < c < d <= |s| && s[i] == '`' && s[c] == '`' && Match(k, s, d).Ok?
    ensures (forall q :: i < q < c ==> s[q] != '`') && forall q :: c < q < d ==> In(Space, s[q])
  {
    var r := Lit("`", Star(Space, true, k));
    LitMatch("`", Plus(Not('`'), true, r), s, i);
    OccursChars(s, "`", i);
    hide Lit;
    assert Match(Plus(Not('`'), true, r), s, i + 1).Ok?;
    c := StarStops(Not('`'), true, r, s, i + 2);
    LitMatch("`", Star(Space, true, k), s, c);
    OccursChars(s, "`", c);
    d := StarStops(Space, true, k, s, c + 1);
  }

  lemma IdentQualOk(s: string, i: nat, k: Re) returns (c: nat, d: nat)
    requires i <= |s| && Match(IdentQual(k), s, i).Ok?
    ensures i < c <= d <= |s| && IsWord(s[i]) && Match(k, s, d).Ok?
    ensures (forall q :: i < q < c ==> IsWord(s[q])) && forall q :: c <= q < d ==> In(Space, s[q])
  {
    c := StarStops(Word, true, Star(Space, true, k), s, i + 1);
    d := StarStops(Space, true, k, s, c);
  }

  lemma BackQualMatch(s: string, x: nat, y: nat, k: Re)
    requires x + 2 < y < |s| && s[x] == '`' && s[y - 1] == '`' && !In(Space, s[y])
    requires forall q :: x < q < y - 1 ==> s[q] != '`'
    ensures Match(BackQual(k), s, x) == Match(k, s, y)
  {
    var r := Lit("`", Star(Space, true, k));
    assert OccursAt(s, "`", x) && OccursAt(s, "`", y - 1);
    LitMatch("`", Plus(Not('`'), true, r), s, x);
    LitMatch("`", Star(Space, true, k), s, y - 1);
    forall q | x < q < y - 1 ensures Match(r, s, q) == Fail {
      LitFails("`", Star(Space, true, k), s, q);
    }
    hide Lit, OccursAt;
    RunMatch(Not('`'), r, s, x + 2, y - 1);
    StarEnds(Space, true, k, s, y);
  }

  lemma IdentQualMatch(s: string, x: nat, y: nat, k: Re)
    requires x < y < |s| && In(IdentHead, s[x]) && !IsWord(s[y]) && !In(Space, s[y])
    requires forall q :: x < q < y ==> IsWord(s[q]) && Match(k, s, q) == Fail
    ensures Match(IdentQual(k), s, x) == Match(k, s, y)
  {
    forall q | x < q < y ensures Match(Star(Space, true, k), s, q) == Fail {
      StarEnds(Space, true, k, s, q);
    }
    StarEnds(Space, true, k, s, y);
    RunMatch(Word, Star(Space, true, k), s, x + 1, y);
  }

  /** No quoted qualifier starts before the one at x. */
  lemma BackQualBefore(s: string, i: nat, x: nat, y: nat, k: Re)
    requires i < x && x + 1 < y <= |s| && s[x] == '`' && s[y - 1] == '`'
    requires forall d :: 0 <= d <= |s| && d != y ==> Match(k, s, d) == Fail
    ensures Match(BackQual(k), s, i) == Fail
  {
    if Match(BackQual(k), s, i).Ok? {
      var c, d := BackQualOk(s, i, k);
    }
  }

  /** No quoted qualifier ends in an unquoted name. */
  lemma BackQualNever(s: string, i: nat, y: nat, k: Re)
    requires i <= |s| && 0 < y <= |s| && IsWord(s[y - 1])
    requires forall d :: 0 <= d <= |s| && d != y ==> Match(k, s, d) == Fail
    ensures Match(BackQual(k), s, i) == Fail
  {
    if Match(BackQual(k), s, i).Ok? {
      var c, d := BackQualOk(s, i, k);
    }
  }

  /** No unquoted qualifier starts before the one at x, which follows a space. */
  lemma IdentQualBefore(s: string, i: nat, x: nat, y: nat, k: Re)
    requires i < x < y <= |s| && IsSpace(s[x - 1]) && IsWord(s[x])
    requires forall d :: 0 <= d <= |s| && d != y ==> Match(k, s, d) == Fail
    ensures Match(IdentQual(k), s, i) == Fail
  {
    if Match(IdentQual(k), s, i).Ok? {
      var c, d := IdentQualOk(s, i, k);
      SpaceChars(s[x - 1]);
    }
  }

  lemma DotQuotedMatch(s: string, y: nat, t: string)
    requires OccursAt(s, ".", y) && OccursAt(s, "`" + t + "`", y + 1)
    ensures Match(DotQuoted(t), s, y) == Ok([y + |t| + 3])
  {
    var k := Lit("`" + t + "`", Done);
    LitMatch(".", Star(Space, true, k), s, y);
    LitMatch("`" + t + "`", Done, s, y + 1);
    OccursChars(s, "`" + t + "`", y + 1);
    assert s[y + 1] == '`';
    hide Lit, OccursAt;
    StarEnds(Space, true, k, s, y + 1);
  }

  lemma DotNameMatch(s: string, y: nat, t: string)
    requires WordText(t) && OccursAt(s, ".", y) && OccursAt(s, t, y + 1) && !WordAt(s, y + 1 + |t|)
    ensures Match(DotName(t), s, y) == Ok([y + 1 + |t|])
  {
    var k := Lit(t, WordB(Done));
    LitMatch(".", Star(Space, true, k), s, y);
    LitMatch(t, WordB(Done), s, y + 1);
    OccursChars(s, t, y + 1);
    assert s[y + 1] == t[0] && s[y + |t|] == t[|t| - 1];
    hide Lit, OccursAt;
    StarEnds(Space, true, k, s, y + 1);
  }

  /** The two table forms exclude each other. */
  lemma DotNameAtQuote(s: string, y: nat, t: string)
    requires WordText(t) && y + 1 < |s| && s[y + 1] == '`'
    ensures Match(DotName(t), s, y) == Fail
  {
    var k := Lit(t, WordB(Done));
    LitMatch(".", Star(Space, true, k), s, y);
    LitFails(t, WordB(Done), s, y + 1);
    hide Lit, OccursAt;
    StarEnds(Space, true, k, s, y + 1);
  }

  lemma DotQuotedAtWord(s: string, y: nat, t: string)
    requires y + 1 < |s| && IsWord(s[y + 1])
    ensures Match(DotQuoted(t), s, y) == Fail
  {
    var k := Lit("`" + t + "`", Done);
    LitMatch(".", Star(Space, true, k), s, y);
    LitFails("`" + t + "`", Done, s, y + 1);
    hide Lit, OccursAt;
    StarEnds(Space, true, k, s, y + 1);
  }

  // ---------- dropping the qualifier ----------

  /** A dot inside a quoted database name is not followed by the table. */
  ghost predicate DotFree(sp: Spelling, t: string) {
    sp.dbQuoted ==> '.' !in sp.db || t !in Tokens(sp.db)
  }

  lemma Layout(pre: string, q: string, n: string, post: string, s: string, y: nat, z: nat)
    requires s == pre + q + "." + n + post && y == |pre| + |q| && z == y + 1 + |n|
    ensures y < z <= |s| && s[y] == '.' && OccursAt(s, ".", y) && OccursAt(s, n, y + 1)
    ensures s[..|pre|] == pre && s[z..] == post && s[|pre|..y] == q
  {
  }

  /** The only dot followed by the table is the spelling's. */
  lemma OnlyDotted(sp: Spelling, pre: string, post: string, s: string, t: string, y: nat)
    requires Around(pre, post, t) && Spelled(sp) && DotFree(sp, t) && y == |pre| + |DbText(sp)|
    requires s == pre + DbText(sp) + "." + TableText(sp, t) + post
    ensures forall d: nat :: d != y ==> NoDotted(s, d, t)
  {
    var q, n := DbText(sp), TableText(sp, t);
    var u := pre + q + "." + n;
    assert s == pre + (q + "." + n + post) && s == u + post;
    assert s[|pre|..y] == q;
    TableChars(sp, t);
    hide Tokens, DbText, TableText, NoDotted;
    forall d: nat | d != y ensures NoDotted(s, d, t) {
      if d < |pre| {
        NoDotBefore(pre, s, t, d);
      } else if d >= |u| {
        NoDotAfter(u, post, s, t, d);
      } else if d < y {
        NoDotInDb(sp, t, s, |pre|, y, d);
      } else {
        assert s[d] == n[d - y - 1];
        NotADot(s, d, t);
      }
    }
  }

  lemma NoDotInDb(sp: Spelling, t: string, s: string, x: nat, y: nat, d: nat)
    requires WordText(t) && Spelled(sp) && DotFree(sp, t) && x <= d < y < |s| && s[x..y] == DbText(sp) && s[y] == '.'
    ensures NoDotted(s, d, t)
  {
    DbRunes(sp, s, x, y);
    if s[d] == '.' {
      forall w: nat ensures !Dotted(s, d, w, t) {
        if Dotted(s, d, w, t) {
          assert sp.dbQuoted;
          WithinDb(s, sp.db, t, x, y, d, w);
          hide Tokens;
          WholeIsToken(sp.db, t, w - x - 1);
        }
      }
    }
  }

  lemma BetweenTicks(s: string, db: string, x: nat, y: nat)
    requires x < y < |s| && s[x..y] == "`" + db + "`"
    ensures y == x + |db| + 2 && s[x + 1..y - 1] == db
  {
    var q := s[x..y];
    assert |q| == |db| + 2;
    forall i | 0 <= i < |db| ensures s[x + 1 + i] == db[i] {
      assert s[x + 1 + i] == q[1 + i];
    }
  }

  lemma WithinDb(s: string, db: string, t: string, x: nat, y: nat, d: nat, w: nat)
    requires WordText(t) && x < d < y < |s| && s[x..y] == "`" + db + "`" && s[y] == '.' && Dotted(s, d, w, t)
    ensures w >= x + 1 && WholeAt(db, t, w - x - 1) && '.' in db
  {
    assert s[y - 1] == s[x..y][y - 1 - x];
    BetweenTicks(s, db, x, y);
    OccursChars(s, t, w);
    assert s[w] == t[0];
    assert w <= y;
    StopsBefore(s, t, w, y - 1);
    InPart(s[..x + 1], db, s, t, w);
    assert forall q :: x + 1 <= q < y - 1 ==> s[q] == db[q - x - 1];
    assert db[d - x - 1] == '.';
  }

  /** An unqualified name is not followed by a dot and the table anywhere. */
  lemma NoDots(pre: string, m: string, post: string, s: string, t: string)
    requires Around(pre, post, t) && s == pre + m + post && '.' !in m
    ensures forall d: nat :: NoDotted(s, d, t)
  {
    var u := pre + m;
    assert s == pre + (m + post) && s == u + post;
    hide Tokens, NoDotted;
    forall d: nat ensures NoDotted(s, d, t) {
      if d < |pre| {
        NoDotBefore(pre, s, t, d);
      } else if d >= |u| {
        NoDotAfter(u, post, s, t, d);
      } else {
        assert s[d] == m[d - |pre|];
        NotADot(s, d, t);
      }
    }
  }

  lemma NoMatches(s: string, t: string, y: nat)
    requires WordText(t) && forall d: nat :: d != y ==> NoDotted(s, d, t)
    ensures forall d :: 0 <= d <= |s| && d != y ==> Match(DotQuoted(t), s, d) == Fail && Match(DotName(t), s, d) == Fail
  {
    hide NoDotted, DotQuoted, DotName, Match;
    forall d | 0 <= d <= |s| && d != y
      ensures Match(DotQuoted(t), s, d) == Fail && Match(DotName(t), s, d) == Fail {
      NoMatch(s, d, t);
    }
  }

  /** What the two dot patterns say at the spelling's dot. */
  lemma AtDot(sp: Spelling, t: string, post: string, s: string, y: nat, z: nat)
    requires WordText(t) && OccursAt(s, ".", y) && OccursAt(s, TableText(sp, t), y + 1)
    requires z == y + 1 + |TableText(sp, t)| <= |s|
    requires s[z..] == post && (sp.tableQuoted || post == "" || !IsWord(post[0]))
    ensures Match(DotQuoted(t), s, y) == if sp.tableQuoted then Ok([z]) else Fail
    ensures Match(DotName(t), s, y) == if sp.tableQuoted then Fail else Ok([z])
  {
    OccursChars(s, TableText(sp, t), y + 1);
    assert s[y + 1] == TableText(sp, t)[0];
    assert z < |s| ==> s[z] == post[0];
    hide DotQuoted, DotName, Match, OccursAt;
    if sp.tableQuoted {
      DotQuotedMatch(s, y, t);
      DotNameAtQuote(s, y, t);
    } else {
      DotNameMatch(s, y, t);
      DotQuotedAtWord(s, y, t);
    }
  }

  /** The first rune of a database name and its last. */
  lemma DbRunes(sp: Spelling, s: string, x: nat, y: nat)
    requires Spelled(sp) && y <= |s| && x + |DbText(sp)| == y && s[x..y] == DbText(sp)
    ensures x < y
    ensures sp.dbQuoted ==> x + 2 < y && s[x] == '`' && s[y - 1] == '`' && forall q :: x < q < y - 1 ==> s[q] != '`'
    ensures !sp.dbQuoted ==> In(IdentHead, s[x]) && forall q :: x <= q < y ==> IsWord(s[q])
  {
    var q := DbText(sp);
    assert forall i :: x <= i < y ==> s[i] == q[i - x];
  }

  /** One qualifier pass over a spelled statement: it drops a qualifier of its own kind before a
      table of its own kind, and does nothing otherwise. */
  lemma BackPass(sp: Spelling, k: Re, s: string, x: nat, y: nat, z: nat, u: string, r: Regex.Result)
    requires Spelled(sp) && y < z <= |s| && x + |DbText(sp)| == y && s[x..y] == DbText(sp) && s[y] == '.'
    requires (forall d :: 0 <= d <= |s| && d != y ==> Match(k, s, d) == Fail) && Match(k, s, y) == r
    requires r == Fail || r == Ok([z])
    ensures ReplaceAll(BackQual(k), s, Always(u)) == if sp.dbQuoted && r.Ok? then s[..x] + u + s[z..] else s
  {
    QualifiersEnd(k);
    DbRunes(sp, s, x, y);
    hide BackQual, ReplaceAll, Spelled, DbText, EndsIn;
    if r == Fail {
      PassNone(BackQual(k), k, s, u);
    } else if sp.dbQuoted {
      BackQualMatch(s, x, y, k);
      forall i | 0 <= i < x ensures Match(BackQual(k), s, i) == Fail {
        BackQualBefore(s, i, x, y, k);
      }
      PassOnce(BackQual(k), k, s, x, y, z, u);
    } else {
      forall i | 0 <= i <= |s| ensures Match(BackQual(k), s, i) == Fail {
        BackQualNever(s, i, y, k);
      }
      ReplaceNone(BackQual(k), s, Always(u));
    }
  }

  lemma IdentPass(sp: Spelling, k: Re, s: string, x: nat, y: nat, z: nat, u: string, r: Regex.Result)
    requires Spelled(sp) && !sp.dbQuoted && y < z <= |s| && x + |DbText(sp)| == y && s[x..y] == DbText(sp)
    requires s[y] == '.'
    requires (forall d :: 0 <= d <= |s| && d != y ==> Match(k, s, d) == Fail) && Match(k, s, y) == r
    requires (r == Fail || r == Ok([z])) && x > 0 && IsSpace(s[x - 1])
    ensures ReplaceAll(IdentQual(k), s, Always(u)) == if r.Ok? then s[..x] + u + s[z..] else s
  {
    QualifiersEnd(k);
    DbRunes(sp, s, x, y);
    hide IdentQual, ReplaceAll, Spelled, DbText, EndsIn;
    if r == Fail {
      PassNone(IdentQual(k), k, s, u);
    } else {
      IdentQualMatch(s, x, y, k);
      forall i | 0 <= i < x ensures Match(IdentQual(k), s, i) == Fail {
        IdentQualBefore(s, i, x, y, k);
      }
      PassOnce(IdentQual(k), k, s, x, y, z, u);
    }
  }

  /** No pass changes a statement without qualified tables. */
  lemma DropNothing(s: string, t: string)
    requires forall d :: 0 <= d <= |s| ==> Match(DotQuoted(t), s, d) == Fail && Match(DotName(t), s, d) == Fail
    ensures ReplaceAll(BackQual(DotQuoted(t)), s, Always("`" + t + "`")) == s
    ensures ReplaceAll(BackQual(DotName(t)), s, Always("`" + t + "`")) == s
    ensures ReplaceAll(IdentQual(DotQuoted(t)), s, Always("`" + t + "`")) == s
    ensures ReplaceAll(IdentQual(DotName(t)), s, Always("`" + t + "`")) == s
  {
    hide DotQuoted, DotName, BackQual, IdentQual, ReplaceAll, EndsIn, Match;
    QualifiersEnd(DotQuoted(t));
    QualifiersEnd(DotName(t));
    PassNone(BackQual(DotQuoted(t)), DotQuoted(t), s, "`" + t + "`");
    PassNone(BackQual(DotName(t)), DotName(t), s, "`" + t + "`");
    PassNone(IdentQual(DotQuoted(t)), DotQuoted(t), s, "`" + t + "`");
    PassNone(IdentQual(DotName(t)), DotName(t), s, "`" + t + "`");
  }

  /** The four passes leave the table alone between backticks, whatever the spelling. */
  lemma DropSpelling(sp: Spelling, pre: string, post: string, t: string, s: string, s2: string)
    requires Around(pre, post, t) && Spelled(sp) && DotFree(sp, t) && s == pre + Spell(sp, t) + post
    requires sp.tableQuoted || post == "" || !IsWord(post[0])
    requires s2 == pre + ("`" + t + "`") + post
    ensures DropQualifiers(s, t) == s2
  {
    hide *;
    var q, n := DbText(sp), TableText(sp, t);
    var x, y, z := |pre|, |pre| + |q|, |pre| + |q| + 1 + |n|;
    var u := "`" + t + "`";
    SpellParts(pre, sp, t, post, s);
    AroundNames(pre, post, t);
    NoDotInQuotes(t);
    Layout(pre, q, n, post, s, y, z);
    LeadSpace(pre, s);
    DbRunes(sp, s, x, y);
    OnlyDotted(sp, pre, post, s, t, y);
    NoMatches(s, t, y);
    AtDot(sp, t, post, s, y, z);
    NoDots(pre, u, post, s2, t);
    NoMatches(s2, t, |s2| + 1);
    FourPasses(sp, s, s2, t, x, y, z, u);
  }

  lemma NoDotInQuotes(t: string)
    requires WordText(t)
    ensures '.' !in "`" + t + "`"
  {
  }

  lemma AroundNames(pre: string, post: string, t: string)
    requires Around(pre, post, t)
    ensures WordText(t) && LeadIn(pre) && t !in Tokens(pre) && t !in Tokens(post) && t != ""
  {
  }

  lemma SpellParts(pre: string, sp: Spelling, t: string, post: string, s: string)
    requires s == pre + Spell(sp, t) + post
    ensures s == pre + DbText(sp) + "." + TableText(sp, t) + post
  {
  }

  /** The passes, one of which fires. */
  lemma FourPasses(sp: Spelling, s: string, s2: string, t: string, x: nat, y: nat, z: nat, u: string)
    requires Spelled(sp) && 0 < x && y < z <= |s| && x + |DbText(sp)| == y && s[x..y] == DbText(sp) && s[y] == '.'
    requires IsSpace(s[x - 1]) && u == "`" + t + "`" && s[..x] + u + s[z..] == s2
    requires forall d :: 0 <= d <= |s| && d != y ==>
      Match(DotQuoted(t), s, d) == Fail && Match(DotName(t), s, d) == Fail
    requires Match(DotQuoted(t), s, y) == if sp.tableQuoted then Ok([z]) else Fail
    requires Match(DotName(t), s, y) == if sp.tableQuoted then Fail else Ok([z])
    requires forall d :: 0 <= d <= |s2| ==> Match(DotQuoted(t), s2, d) == Fail && Match(DotName(t), s2, d) == Fail
    ensures DropQualifiers(s, t) == s2
  {
    hide *;
    DropNothing(s2, t);
    var rq, rn := Match(DotQuoted(t), s, y), Match(DotName(t), s, y);
    BackPass(sp, DotQuoted(t), s, x, y, z, u, rq);
    BackPass(sp, DotName(t), s, x, y, z, u, rn);
    if !sp.dbQuoted {
      IdentPass(sp, DotQuoted(t), s, x, y, z, u, rq);
      IdentPass(sp, DotName(t), s, x, y, z, u, rn);
    }
    DropUnfolds(s, t, u);
  }

  lemma DropUnfolds(s: string, t: string, u: string)
    requires u == "`" + t + "`"
    ensures DropQualifiers(s, t) == ReplaceAll(IdentQual(DotName(t)), ReplaceAll(IdentQual(DotQuoted(t)),
      ReplaceAll(BackQual(DotName(t)), ReplaceAll(BackQual(DotQuoted(t)), s, Always(u)), Always(u)), Always(u)),
      Always(u))
  {
  }

  // ---------- rewriting ----------

  /** The name between backticks is the only word to be rewritten. */
  lemma RewriteAround(pre: string, t: string, post: string, newName: string)
    requires WordText(t) && WordText(newName) && t !in Tokens(pre) && t !in Tokens(post)
    ensures RewriteTableName(pre + ("`" + t + "`") + post, t, newName) == pre + ("`" + newName + "`") + post
  {
    hide *;
    RewriteIsTokenMap(pre + ("`" + t + "`") + post, t, newName);
    QuoteApart(pre, t, post);
    MapConcat(pre + ("`" + t + "`"), post, t, newName);
    MapConcat(pre, "`" + t + "`", t, newName);
    MapQuoted(t, t, newName);
    Untouched(pre, t, newName);
    Untouched(post, t, newName);
  }

  lemma QuoteApart(pre: string, t: string, post: string)
    ensures Apart(pre, "`" + t + "`") && Apart(pre + ("`" + t + "`"), post)
  {
    var u := "`" + t + "`";
    assert u[0] == '`' && (pre + u)[|pre + u| - 1] == '`';
  }

  lemma Untouched(s: string, t: string, newName: string)
    requires t !in Tokens(s)
    ensures MapWords(s, t, newName) == s
  {
    ConcatTokens(s);
  }

  lemma RewriteUnfolds(s: string, newName: string, t: string)
    requires ExtractTableName(s) == t && t != ""
    ensures RewriteTableInSQL(s, newName) == RewriteTableName(DropQualifiers(s, t), t, newName)
  {
    hide ExtractTableName, RewriteTableName, DropQualifiers;
  }

  function NameText(quoted: bool, t: string): string {
    if quoted then "`" + t + "`" else t
  }

  lemma NameTextIs(quoted: bool, t: string)
    ensures NameText(quoted, t) == if quoted then "`" + t + "`" else t
  {
  }

  lemma NameTextSolid(quoted: bool, t: string)
    requires WordText(t)
    ensures Solid(NameText(quoted, t)) && '.' !in NameText(quoted, t)
    ensures NameText(quoted, t) == if quoted then "`" + t + "`" else t
  {
    WordChars(t);
  }

  lemma BareApart(e: string, tail: string)
    requires AllOf(TrimRight(e, ","), '`') && Tail(tail)
    ensures e + tail == "" || !IsWord((e + tail)[0])
  {
    GluedApart(Spelling("db", false, false), e, tail);
  }

  lemma RewriteBare(pre: string, t: string, post: string, newName: string)
    requires WordText(t) && WordText(newName) && t !in Tokens(pre) && t !in Tokens(post)
    requires pre != "" && IsSpace(pre[|pre| - 1]) && (post == "" || !IsWord(post[0]))
    ensures RewriteTableName(pre + t + post, t, newName) == pre + newName + post
  {
    SpaceChars(pre[|pre| - 1]);
    assert Apart(pre, t) && Apart(pre + t, post);
    hide *;
    RewriteIsTokenMap(pre + t + post, t, newName);
    MapConcat(pre + t, post, t, newName);
    MapConcat(pre, t, t, newName);
    MapWord(t, newName);
    Untouched(pre, t, newName);
    Untouched(post, t, newName);
  }

  lemma MapWord(t: string, newName: string)
    requires WordText(t)
    ensures MapWords(t, t, newName) == newName
  {
    WordTokens(t);
    assert Swap([t], t, newName) == [newName];
    assert Concat([newName]) == newName + Concat([newName][1..]);
    assert [newName][1..] == [] && newName + "" == newName;
  }

  // ---------- the beginning of a statement ----------

  /** The text before the table: words of SQL and the white space after each. */
  datatype Head =
    | Select(a: string, w1: string, from: string, w2: string)
    | Insert(insert: string, w1: string, into: string, w2: string)
    | Update(update: string, w2: string)
    | Delete(delete: string, w1: string, from: string, w2: string)

  function HeadText(h: Head): string {
    match h
    case Select(a, w1, from, w2) => a + w1 + from + w2
    case Insert(insert, w1, into, w2) => insert + w1 + into + w2
    case Update(update, w2) => update + w2
    case Delete(delete, w1, from, w2) => delete + w1 + from + w2
  }

  predicate Gap(w: string) {
    w != "" && AllSpace(w)
  }

  /** SELECT anything FROM, INSERT INTO, UPDATE or DELETE FROM in any case, any white space. */
  predicate HeadOk(h: Head) {
    Gap(h.w2) &&
    match h
    case Select(a, w1, from, _) => HasPrefix(ToUpper(a), "SELECT") && Gap(w1) && ToUpper(from) == "FROM"
    case Insert(insert, w1, into, _) => ToUpper(insert) == "INSERT" && Gap(w1) && ToUpper(into) == "INTO"
    case Update(update, _) => ToUpper(update) == "UPDATE"
    case Delete(delete, w1, from, _) => ToUpper(delete) == "DELETE" && Gap(w1) && ToUpper(from) == "FROM"
  }

  /** The code finds the keyword: the first " FROM " of a SELECT is the one before the name, and the
      other keywords hold one plain space and are followed by one where the code asks for it. */
  predicate Reads(h: Head) {
    match h
    case Select(a, w1, _, _) => Index(ToUpper(HeadText(h)), " FROM ") == |a| + |w1| - 1
    case Insert(_, w1, _, _) => w1 == " "
    case Update(_, w2) => w2 != "" && w2[0] == ' '
    case Delete(_, w1, _, w2) => w1 == " " && w2 != "" && w2[0] == ' '
  }

  /** Without an earlier FROM this asks for a plain space on both sides of it. */
  lemma ReadsIff(h: Head)
    requires HeadOk(h) && h.Select? && NoneOf(ToUpper(h.a + h.w1), [" FROM "])
    ensures Reads(h) <==> h.w1[|h.w1| - 1] == ' ' && h.w2[0] == ' '
  {
    var n, u := |h.a| + |h.w1|, h.a + h.w1;
    var t := ToUpper(HeadText(h));
    FromThere(h, t, n);
    hide ToUpper, HeadText, Index;
    forall j | 0 <= j < n - 1 ensures !OccursAt(t, " FROM ", j) {
      NoFromBefore(ToUpper(u), t, n, j);
    }
    if OccursAt(t, " FROM ", n - 1) { IndexIs(t, " FROM ", n - 1); }
  }

  lemma FromThere(h: Head, t: string, n: nat)
    requires HeadOk(h) && h.Select? && t == ToUpper(HeadText(h)) && n == |h.a| + |h.w1|
    ensures n < |t| && t[n] == 'F' && n > 0 && IsSpace(t[n - 1]) && t[..n] == ToUpper(h.a + h.w1)
    ensures OccursAt(t, " FROM ", n - 1) <==> h.w1[|h.w1| - 1] == ' ' && h.w2[0] == ' '
  {
    FromRunes(h, HeadText(h), n);
    UpperCut(HeadText(h), h.a + h.w1, n);
    OccursChars(t, " FROM ", n - 1);
    assert t[n - 1] == Upper(HeadText(h)[n - 1]) && t[n + 4] == Upper(HeadText(h)[n + 4]);
    hide OccursAt, HeadText, HeadOk;
  }

  lemma UpperCut(s: string, u: string, n: nat)
    requires n <= |s| && s[..n] == u
    ensures ToUpper(s)[..n] == ToUpper(u)
  {
  }

  lemma FromRunes(h: Head, s: string, n: nat)
    requires HeadOk(h) && h.Select? && s == HeadText(h) && n == |h.a| + |h.w1|
    ensures 0 < n && n + 4 < |s| && s[n - 1] == h.w1[|h.w1| - 1] && s[n + 4] == h.w2[0] && s[..n] == h.a + h.w1
    ensures IsSpace(s[n - 1]) && forall q :: 0 <= q < 4 ==> Upper(s[n + q]) == "FROM"[q]
  {
    assert |h.from| == |ToUpper(h.from)| == 4;
    forall q | 0 <= q < 4 ensures Upper(s[n + q]) == "FROM"[q] {
      assert s[n + q] == h.from[q] && Upper(h.from[q]) == ToUpper(h.from)[q];
    }
    hide IsSpace;
  }

  lemma NoFromBefore(u: string, t: string, n: nat, j: nat)
    requires n < |t| && t[n] == 'F' && t[..n] == u && NoneOf(u, [" FROM "]) && j < n - 1 && IsSpace(t[n - 1])
    ensures !OccursAt(t, " FROM ", j)
  {
    assert !OccursAt(u, [" FROM "][0], j);
    OccursChars(t, " FROM ", j);
    OccursChars(u, " FROM ", j);
    assert forall q :: 0 <= q < n ==> t[q] == u[q];
    assert forall q :: 1 <= q < 5 ==> !IsSpace(" FROM "[q]);
    hide OccursAt, IsSpace;
  }

  // ---------- the name that is read ----------

  /** Extraction reads the identifier that begins the rest c of the statement. */
  lemma ExtractAt(lead: string, h: Head, c: string, tail: string, s: string)
    requires HeadOk(h) && Reads(h) && AllSpace(lead) && Solid(c) && s == lead + HeadText(h) + c + tail
    ensures ExtractTableName(s) == FirstIdentifier(c + TrimRightFunc(tail, IsSpace))
  {
    hide *;
    var v := TrimRightFunc(tail, IsSpace);
    var x := HeadText(h) + (c + v);
    Trimmed(lead, h, c, tail, s);
    TrimmedEnd(tail);
    SolidWith(c, v);
    if h.Select? {
      SelectRead(h, c + v, x);
      SelectUnfolds(s, x, c + v);
    } else {
      KeywordRead(h, c + v, x);
      KeywordUnfolds(s, x, c + v);
    }
  }

  lemma Trimmed(lead: string, h: Head, c: string, tail: string, s: string)
    requires HeadOk(h) && AllSpace(lead) && Solid(c) && s == lead + HeadText(h) + c + tail
    ensures TrimSpace(s) == HeadText(h) + (c + TrimRightFunc(tail, IsSpace))
  {
    var k := HeadText(h);
    HeadStart(h);
    hide HeadText;
    assert (k + c)[0] == k[0] && (k + c)[|k + c| - 1] == c[|c| - 1];
    assert s == lead + (k + c) + tail;
    TrimAround(lead, k + c, tail);
  }

  lemma HeadStart(h: Head)
    requires HeadOk(h)
    ensures HeadText(h) != "" && Upper(HeadText(h)[0]) in "SIUD" && !IsSpace(HeadText(h)[0])
    ensures Upper(HeadText(h)[0]) == 'S' <==> h.Select?
  {
    var t := HeadText(h);
    match h
    case Select(a, _, _, _) => assert t[0] == a[0] && Upper(a[0]) == ToUpper(a)[0];
    case Insert(a, _, _, _) => assert t[0] == a[0] && Upper(a[0]) == ToUpper(a)[0];
    case Update(a, _) => assert t[0] == a[0] && Upper(a[0]) == ToUpper(a)[0];
    case Delete(a, _, _, _) => assert t[0] == a[0] && Upper(a[0]) == ToUpper(a)[0];
  }

  lemma SelectRead(h: Head, r: string, x: string)
    requires HeadOk(h) && h.Select? && Reads(h) && x == HeadText(h) + r && Solid(r)
    ensures HasPrefix(ToUpper(x), "SELECT") && 0 <= Index(ToUpper(x), " FROM ") <= |x| - 6
    ensures TrimSpace(x[Index(ToUpper(x), " FROM ") + 6..]) == r
  {
    hide *;
    var k, i := HeadText(h), |h.a| + |h.w1| - 1;
    FromPlace(h, r, x);
    UpperConcat(k, r);
    SelectStarts(h, r, x);
    IndexStays(ToUpper(k), ToUpper(r), ToUpper(x), " FROM ", i);
    TrimLead(h.w2[1..], r);
  }

  lemma FromPlace(h: Head, r: string, x: string)
    requires HeadOk(h) && h.Select? && Reads(h) && x == HeadText(h) + r
    ensures h.w2 != "" && |h.a| + |h.w1| > 0
    ensures var i := |h.a| + |h.w1| - 1; 0 <= i && i + 6 <= |x| && x[i + 6..] == h.w2[1..] + r
    ensures AllSpace(h.w2[1..]) && |ToUpper(x)| == |x| && |ToUpper(HeadText(h))| == |HeadText(h)|
    ensures Index(ToUpper(HeadText(h)), " FROM ") == |h.a| + |h.w1| - 1
  {
    assert |h.from| == |ToUpper(h.from)| == 4;
    hide Index, ToUpper;
    assert x == h.a + h.w1 + h.from + h.w2[..1] + (h.w2[1..] + r);
  }

  lemma IndexStays(a: string, b: string, t: string, p: string, i: nat)
    requires t == a + b && Index(a, p) == i && p != ""
    ensures Index(t, p) == i && i + |p| <= |a|
  {
    assert OccursAt(a, p, i) && t[i..i + |p|] == a[i..i + |p|];
    forall j | 0 <= j < i ensures !OccursAt(t, p, j) {
      assert !OccursAt(a, p, j) && t[j..j + |p|] == a[j..j + |p|];
    }
    hide Index;
    IndexIs(t, p, i);
  }

  lemma SelectUnfolds(text: string, x: string, r: string)
    requires TrimSpace(text) == x && HasPrefix(ToUpper(x), "SELECT")
    requires 0 <= Index(ToUpper(x), " FROM ") <= |x| - 6 && TrimSpace(x[Index(ToUpper(x), " FROM ") + 6..]) == r
    ensures ExtractTableName(text) == FirstIdentifier(r)
  {
    hide TrimSpace, ToUpper, Index, FirstIdentifier;
  }

  /** Which of the three other keywords begins a trimmed statement. */
  predicate Begins(x: string, keyword: string) {
    HasPrefix(ToUpper(x), keyword)
  }

  lemma KeywordRead(h: Head, r: string, x: string)
    requires HeadOk(h) && !h.Select? && Reads(h) && x == HeadText(h) + r && Solid(r)
    ensures x != "" && Upper(x[0]) != 'S'
    ensures || (Begins(x, "INSERT INTO") && |x| >= 11 && TrimSpace(x[11..]) == r)
            || (Begins(x, "UPDATE ") && |x| >= 7 && TrimSpace(x[7..]) == r)
            || (Begins(x, "DELETE FROM ") && |x| >= 12 && TrimSpace(x[12..]) == r)
  {
    HeadStart(h);
    assert x[0] == HeadText(h)[0];
    hide *;
    match h
    case Insert(a, w1, b, w2) => InsertRead(h, r, x);
    case Update(a, w2) => UpdateRead(h, r, x);
    case Delete(a, w1, b, w2) => DeleteRead(h, r, x);
  }

  lemma InsertRead(h: Head, r: string, x: string)
    requires HeadOk(h) && h.Insert? && Reads(h) && x == HeadText(h) + r && Solid(r)
    ensures Begins(x, "INSERT INTO") && |x| >= 11 && TrimSpace(x[11..]) == r
  {
    hide ToUpper, TrimSpace, AllSpace, IsSpace;
    TwoWords(h.insert, h.into, h.w2, x, r, "INSERT", "INTO");
    TrimLead(h.w2, r);
  }

  lemma TwoWords(a: string, b: string, w2: string, x: string, r: string, p: string, o: string)
    requires x == a + " " + b + w2 + r && ToUpper(a) == p && ToUpper(b) == o
    ensures |x| >= |p| + 1 + |o| && ToUpper(x)[..|p| + 1 + |o|] == p + " " + o && x[|p| + 1 + |o|..] == w2 + r
  {
    assert |a| == |ToUpper(a)| && |b| == |ToUpper(b)|;
    UpperWords(a, b, w2, x, r, p, o);
    hide ToUpper;
  }

  lemma UpdateRead(h: Head, r: string, x: string)
    requires HeadOk(h) && h.Update? && Reads(h) && x == HeadText(h) + r && Solid(r)
    ensures Begins(x, "UPDATE ") && |x| >= 7 && TrimSpace(x[7..]) == r
  {
    assert |h.update| == |ToUpper(h.update)|;
    UpperWord1(h.update, h.w2, x, r);
    assert x[7..] == h.w2[1..] + r;
    hide ToUpper, TrimSpace;
    TrimLead(h.w2[1..], r);
  }

  lemma DeleteRead(h: Head, r: string, x: string)
    requires HeadOk(h) && h.Delete? && Reads(h) && x == HeadText(h) + r && Solid(r)
    ensures Begins(x, "DELETE FROM ") && |x| >= 12 && TrimSpace(x[12..]) == r
  {
    hide ToUpper, TrimSpace, AllSpace, IsSpace;
    TwoWords(h.delete, h.from, h.w2, x, r, "DELETE", "FROM");
    FirstSpace(x, h.w2, r);
    LastSpace(x);
    TrimLead(h.w2[1..], r) by { TailSpaces(h.w2); }
  }

  lemma FirstSpace(x: string, w: string, r: string)
    requires |x| >= 11 && x[11..] == w + r && w != "" && w[0] == ' '
    ensures |x| >= 12 && x[11] == ' ' && x[12..] == w[1..] + r
  {
    assert x[11] == x[11..][0];
    assert x[12..] == x[11..][1..];
  }

  lemma TailSpaces(w: string)
    requires w != "" && AllSpace(w)
    ensures AllSpace(w[1..])
  {
    hide IsSpace;
  }

  lemma LastSpace(x: string)
    requires |x| >= 12 && ToUpper(x)[..11] == "DELETE FROM" && x[11] == ' '
    ensures Begins(x, "DELETE FROM ")
  {
    assert ToUpper(x)[..12] == ToUpper(x)[..11] + [Upper(x[11])];
  }

  lemma UpperWords(a: string, b: string, w2: string, x: string, r: string, p: string, q: string)
    requires x == a + " " + b + w2 + r && ToUpper(a) == p && ToUpper(b) == q
    ensures |x| >= |p| + 1 + |q| && ToUpper(x)[..|p| + 1 + |q|] == p + " " + q
  {
    var u := a + " " + b;
    assert x == u + (w2 + r) && ToUpper(" ") == " ";
    UpperConcat(u, w2 + r);
    UpperConcat(a + " ", b);
    UpperConcat(a, " ");
  }

  lemma UpperWord1(a: string, w2: string, x: string, r: string)
    requires x == a + w2 + r && ToUpper(a) == "UPDATE" && w2 != "" && w2[0] == ' '
    ensures |x| >= 7 && ToUpper(x)[..7] == "UPDATE "
  {
    assert |a| == |ToUpper(a)| && x[..6] == a && x[6] == ' ';
    assert forall q :: 0 <= q < 6 ==> ToUpper(x)[q] == Upper(x[q]) == Upper(a[q]) == ToUpper(a)[q];
  }

  lemma KeywordUnfolds(text: string, x: string, r: string)
    requires TrimSpace(text) == x && x != "" && Upper(x[0]) != 'S'
    requires || (Begins(x, "INSERT INTO") && |x| >= 11 && TrimSpace(x[11..]) == r)
             || (Begins(x, "UPDATE ") && |x| >= 7 && TrimSpace(x[7..]) == r)
             || (Begins(x, "DELETE FROM ") && |x| >= 12 && TrimSpace(x[12..]) == r)
    ensures ExtractTableName(text) == FirstIdentifier(r)
  {
    hide TrimSpace, Index, FirstIdentifier;
    assert ToUpper(x)[0] == Upper(x[0]);
    hide ToUpper;
  }

  /** The exact name that is extracted, whatever follows the table: e up to the next space. */
  lemma NameExtracted(sp: Spelling, lead: string, h: Head, t: string, e: string, tail: string, s: string)
    requires HeadOk(h) && Reads(h) && AllSpace(lead) && WordText(t) && Spelled(sp) && NoSpace(e) && Tail(tail)
    requires s == lead + HeadText(h) + Spell(sp, t) + e + tail
    ensures ExtractTableName(s) == ExtractedName(sp, t, e)
  {
    hide *;
    var u, v := Spell(sp, t), TrimRightFunc(tail, IsSpace);
    SpellingSolid(sp, t);
    SolidGlued(u, e);
    TailTrimmed(tail);
    assert s == lead + HeadText(h) + (u + e) + tail;
    ExtractAt(lead, h, u + e, tail, s);
    if sp.dbQuoted {
      QuotedDbIs(sp, t, e, v);
    } else {
      PlainDbIs(sp, t, e, v);
    }
  }

  // ---------- when the keyword is not found ----------

  predicate Keyword(kw: string) {
    kw == " FROM " || kw == " JOIN "
  }

  /** What is used of the name u in the trimmed statement s: only the dot at y, if it is not
      negative, is followed by the table, and no keyword begins inside the name. */
  ghost predicate NameFits(pre: string, u: string, s: string, t: string, y: int) {
    && pre + u <= s && (forall d: nat :: d != y ==> NoDotted(s, d, t))
    && (y >= 0 ==> |pre| < y < |s| && !IsSpace(s[y - 1]) && (s[y - 1] == '`' ==> |pre| < y - 1 && s[|pre|] == '`'))
    && (forall i, kw | |pre| <= i < |pre + u| && Keyword(kw) :: !OccursAt(ToUpper(s), kw, i))
    && (|u| > 4 && |pre| > 0 ==> forall kw | Keyword(kw) :: !OccursAt(ToUpper(s), kw, |pre| - 1))
  }

  /** Where a FROM or a JOIN can stand that is not the one before the name. */
  lemma OtherKeyword(h: Head, u: string, s: string, t: string, y: int, kw: string, i: nat)
    requires HeadOk(h) && h.Select? && NameFits(HeadText(h), u, s, t, y) && Keyword(kw) && OccursAt(ToUpper(s), kw, i)
    requires !(kw == " FROM " && i + 1 == |h.a| + |h.w1|)
    ensures i + 6 <= |h.a| + |h.w1| || i + 6 > |HeadText(h)| + |u|
  {
    var n, b := |HeadText(h)|, |h.a| + |h.w1|;
    HeadRunes(h, s, b);
    KeywordRunes(s, kw, i);
    hide HeadText, ToUpper, NoDotted;
  }

  /** The FROM and the spaces around it. */
  lemma HeadRunes(h: Head, s: string, b: nat)
    requires HeadOk(h) && h.Select? && HeadText(h) <= s && b == |h.a| + |h.w1|
    ensures 0 < b && b + 4 < |HeadText(h)| && IsSpace(s[b - 1]) && Upper(s[b]) == 'F'
    ensures forall q :: b <= q < b + 4 ==> !IsSpace(s[q])
    ensures forall q :: b + 4 <= q < |HeadText(h)| ==> IsSpace(s[q])
  {
    var k := HeadText(h);
    assert |h.from| == |ToUpper(h.from)| == 4;
    assert s[b - 1] == k[b - 1] == h.w1[|h.w1| - 1];
    forall q | b <= q < b + 4 ensures !IsSpace(s[q]) && Upper(s[q]) == "FROM"[q - b] {
      assert s[q] == k[q] == h.from[q - b] && Upper(h.from[q - b]) == ToUpper(h.from)[q - b];
    }
    forall q | b + 4 <= q < |k| ensures IsSpace(s[q]) {
      assert s[q] == k[q] == h.w2[q - b - 4];
    }
  }

  lemma KeywordRunes(s: string, kw: string, i: nat)
    requires Keyword(kw) && OccursAt(ToUpper(s), kw, i)
    ensures i + 6 <= |s| && s[i] == ' ' && s[i + 5] == ' ' && Upper(s[i + 1]) == kw[1]
    ensures forall q :: i < q < i + 5 ==> !IsSpace(s[q]) && s[q] !in "`."
  {
    var t := ToUpper(s);
    OccursChars(t, kw, i);
    assert t[i] == Upper(s[i]) && t[i + 5] == Upper(s[i + 5]) && t[i + 1] == Upper(s[i + 1]);
    forall q | i < q < i + 5 ensures !IsSpace(s[q]) && s[q] !in "`." {
      assert Upper(s[q]) == t[q] == kw[q - i];
    }
  }

  /** Nothing that is read elsewhere is the table. */
  lemma NotReadAt(pre: string, u: string, post: string, s: string, t: string, y: int, k: nat, o: nat)
    requires Around(pre, post, t) && s == pre + (u + post) && NameFits(pre, u, s, t, y)
    requires 0 < k <= |s| && !WordAt(s, k - 1)
    requires k > |pre| + |u| || (k <= o < |pre| - 1 && !IsSpace(s[o]))
    ensures FirstIdentifier(TrimSpace(s[k..])) != t
  {
    hide *;
    var x := TrimSpace(s[k..]);
    AroundNames(pre, post, t);
    if FirstIdentifier(x) == t {
      TrimTwice(s[k..]);
      ReadsTrimmed(s[k..]);
      var w, c, d := IdentifierIs(x, t);
      var i, j := TrimSlice(s[k..], IsSpace);
      TrimIs(s[k..]);
      WholeInRest(s, k, x, i, j, t, w);
      if k > |pre| + |u| {
        assert s == (pre + u) + post;
        WholeInPost(pre + u, post, s, t, k + i + w);
        WholeIsToken(post, t, k + i + w - |pre + u|);
      } else {
        StartsBy(s, k, o, i);
        assert x == s[k + i..k + j] by { SliceOf(s, k, i, j); }
        NotAfterQuoted(pre, u, s, t, y, k + i, k + j, x, w, c, d);
        StaysBefore(pre, s, t, k + i, k + j, x, w);
        WholeIsToken(pre, t, k + i + w);
      }
    }
  }

  lemma TrimIs(s: string)
    ensures TrimSpace(s) == TrimFunc(s, IsSpace)
  {
  }

  lemma TrimTwice(d: string)
    ensures TrimSpace(TrimSpace(d)) == TrimSpace(d)
  {
    TrimEdge(d, IsSpace);
    TrimNothing(TrimSpace(d), IsSpace);
  }

  lemma ReadsTrimmed(d: string)
    ensures FirstIdentifier(TrimSpace(d)) == FirstIdentifier(d)
  {
    TrimTwice(d);
    hide TrimSpace, Index, Quoted, Unquoted;
  }

  lemma WholeInRest(s: string, k: nat, x: string, i: nat, j: nat, t: string, w: nat)
    requires 0 < k <= |s| && !WordAt(s, k - 1) && i <= j <= |s[k..]| && x == s[k..][i..j] && WholeAt(x, t, w)
    requires (forall q :: 0 <= q < i ==> IsSpace(s[k..][q])) && forall q :: j <= q < |s[k..]| ==> IsSpace(s[k..][q])
    ensures WholeAt(s, t, k + i + w)
  {
    var o, e := k + i, k + j;
    assert x == s[o..e];
    if i > 0 { assert s[o - 1] == s[k..][i - 1]; SpaceChars(s[o - 1]); }
    if e < |s| { assert s[e] == s[k..][j]; SpaceChars(s[e]); }
    hide WholeAt, IsSpace;
    WholeInSlice(s, o, e, x, t, w);
  }

  lemma SliceOf(s: string, k: nat, i: nat, j: nat)
    requires k <= |s| && i <= j <= |s[k..]|
    ensures s[k..][i..j] == s[k + i..k + j]
  {
  }

  /** Trimming stops at a rune that is no space. */
  lemma StartsBy(s: string, k: nat, o: nat, i: nat)
    requires k <= o < |s| && !IsSpace(s[o]) && i <= |s[k..]| && forall q :: 0 <= q < i ==> IsSpace(s[k..][q])
    ensures k + i <= o
  {
    forall q | k <= q < k + i ensures IsSpace(s[q]) { assert s[q] == s[k..][q - k]; }
  }

  /** What is read without passing a space ends before the space in front of the name. */
  lemma StaysBefore(pre: string, s: string, t: string, b: nat, e: nat, x: string, w: nat)
    requires WordText(t) && LeadIn(pre) && pre <= s && b < |pre| - 1 && b <= e <= |s| && x == s[b..e]
    requires w <= |x| && NoSpace(x[..w]) && WholeAt(s, t, b + w)
    ensures WholeAt(pre, t, b + w)
  {
    var m := |pre| - 1;
    LeadSpace(pre, s);
    SpaceChars(s[m]);
    forall q | b <= q < b + w ensures !IsSpace(s[q]) { assert s[q] == x[..w][q - b]; }
    OccursChars(s, t, b + w);
    assert s[b + w] == t[0];
    StopsBefore(s, t, b + w, m);
    OccursChars(pre, t, b + w);
    assert forall q :: 0 <= q < |pre| ==> s[q] == pre[q];
    hide IsSpace, OccursAt;
  }

  /** Nor is it read after a quoted name that begins before the table's own. */
  lemma NotAfterQuoted(pre: string, u: string, s: string, t: string, y: int, b: nat, e: nat, x: string,
                       w: nat, c: nat, d: nat)
    requires NameFits(pre, u, s, t, y) && b < |pre| - 1 && b <= e <= |s| && x == s[b..e] && w <= |x|
    requires WholeAt(s, t, b + w)
    ensures !AfterQuoted(x, t, w, c, d)
  {
    hide NameFits, AfterQuoted, NoDotted, WholeAt;
    DotsThere(s, x, t, b, e, w, c, d);
    TheDot(pre, u, s, t, y, b + d);
    QuoteCloses(s, x, t, b, e, w, c, d, |pre|);
  }

  lemma DotsThere(s: string, x: string, t: string, b: nat, e: nat, w: nat, c: nat, d: nat)
    requires b <= e <= |s| && x == s[b..e] && WholeAt(s, t, b + w) && w <= |x|
    ensures AfterQuoted(x, t, w, c, d) ==> !NoDotted(s, b + d, t)
  {
    assert forall q :: 0 <= q < |x| ==> x[q] == s[b + q];
    if AfterQuoted(x, t, w, c, d) {
      forall q | b + d < q < b + w && q < |s| ensures IsSpace(s[q]) || s[q] == '`' { assert s[q] == x[q - b]; }
      assert Dotted(s, b + d, b + w, t);
    }
  }

  lemma TheDot(pre: string, u: string, s: string, t: string, y: int, d: nat)
    requires NameFits(pre, u, s, t, y)
    ensures !NoDotted(s, d, t) ==>
      |pre| < d < |s| && !IsSpace(s[d - 1]) && (s[d - 1] == '`' ==> |pre| < d - 1 && s[|pre|] == '`')
  {
    hide NoDotted;
  }

  /** The backtick that closes the quoted name stands right before the dot, and none before it. */
  lemma QuoteCloses(s: string, x: string, t: string, b: nat, e: nat, w: nat, c: nat, d: nat, n: nat)
    requires b <= e <= |s| && x == s[b..e] && b < n
    ensures AfterQuoted(x, t, w, c, d) && 0 < b + d <= |s| && !IsSpace(s[b + d - 1]) ==>
      s[b + d - 1] == '`' && (n < b + d - 1 ==> s[n] != '`')
  {
    assert forall q :: 0 <= q < |x| ==> x[q] == s[b + q];
    if AfterQuoted(x, t, w, c, d) {
      assert x[d - 1] == s[b + d - 1];
      if n < b + d - 1 { assert s[n] == x[n - b]; }
    }
  }

  /** So a statement whose keyword is not found yields another name or none. */
  lemma NotExtracted(lead: string, h: Head, u: string, post: string, t: string, y: int, s: string)
    requires HeadOk(h) && !Reads(h) && AllSpace(lead) && Solid(u) && s == lead + HeadText(h) + u + post
    requires Around(lead + HeadText(h), post, t)
    requires NameFits(HeadText(h), u, HeadText(h) + (u + TrimRightFunc(post, IsSpace)), t, y)
    ensures ExtractTableName(s) != t
  {
    hide *;
    var v := TrimRightFunc(post, IsSpace);
    var x := HeadText(h) + (u + v);
    Trimmed(lead, h, u, post, s);
    HeadAround(lead, h, post, t);
    AroundNames(HeadText(h), v, t);
    if h.Select? {
      SelectStarts(h, u + v, x);
      var kw, i := ElseUnfolds(s, x);
      if kw != "" {
        NotOurs(h, u, x, t, y, kw, i);
        OtherKeyword(h, u, x, t, y, kw, i);
        AfterKeyword(x, kw, i);
        HeadBorder(h, x);
        FitsPrefix(HeadText(h), u, x, t, y);
        NotReadAt(HeadText(h), u, v, x, t, y, i + 6, |h.a| + |h.w1|);
      }
    } else {
      KeywordMissed(h, u + v, x);
      NoneUnfolds(s, x);
    }
  }

  lemma FitsPrefix(pre: string, u: string, s: string, t: string, y: int)
    requires NameFits(pre, u, s, t, y)
    ensures pre <= s && pre + u <= s
  {
    assert pre <= pre + u;
  }

  /** Without the spaces around the statement. */
  lemma HeadAround(lead: string, h: Head, post: string, t: string)
    requires Around(lead + HeadText(h), post, t) && AllSpace(lead) && HeadOk(h)
    ensures Around(HeadText(h), TrimRightFunc(post, IsSpace), t)
  {
    hide *;
    AroundNames(lead + HeadText(h), post, t);
    HeadLeads(h);
    TokensInside(lead, HeadText(h), t);
    TokensTrimmed(post, t);
    AroundIs(HeadText(h), TrimRightFunc(post, IsSpace), t);
  }

  lemma AroundIs(pre: string, post: string, t: string)
    requires WordText(t) && LeadIn(pre) && t !in Tokens(pre) && t !in Tokens(post)
    ensures Around(pre, post, t)
  {
    hide Tokens, LeadIn;
  }

  lemma TokensInside(lead: string, k: string, t: string)
    requires AllSpace(lead) && t !in Tokens(lead + k)
    ensures t !in Tokens(k)
  {
    if lead != "" { SpaceChars(lead[|lead| - 1]); }
    hide Tokens, IsSpace;
    TokensConcat(lead, k);
  }

  lemma TokensTrimmed(post: string, t: string)
    requires t !in Tokens(post)
    ensures t !in Tokens(TrimRightFunc(post, IsSpace))
  {
    var v := TrimRightFunc(post, IsSpace);
    var j := TrimRightSlice(post, IsSpace);
    if j < |post| { SpaceChars(post[j]); }
    hide Tokens, TrimRightFunc, IsSpace;
    assert post == v + post[j..];
    TokensConcat(v, post[j..]);
  }

  lemma HeadLeads(h: Head)
    requires HeadOk(h)
    ensures LeadIn(HeadText(h))
  {
    var k := HeadText(h);
    var m := |k| - |h.w2| - 1;
    var word := match h
      case Select(_, _, from, _) => from
      case Insert(_, _, into, _) => into
      case Update(update, _) => update
      case Delete(_, _, from, _) => from;
    assert |word| == |ToUpper(word)| && Upper(word[|word| - 1]) == ToUpper(word)[|word| - 1];
    assert k[m] == word[|word| - 1] && k[m + 1..] == h.w2;
    assert WordThenSpaces(k, m);
  }

  lemma SelectStarts(h: Head, r: string, x: string)
    requires HeadOk(h) && h.Select? && x == HeadText(h) + r
    ensures HasPrefix(ToUpper(x), "SELECT")
  {
    assert |ToUpper(h.a)| == |h.a|;
    assert forall q :: 0 <= q < 6 ==> ToUpper(x)[q] == Upper(x[q]) == Upper(h.a[q]) == ToUpper(h.a)[q];
  }

  /** What a SELECT is read for: its first FROM, or without one its first JOIN. */
  lemma ElseUnfolds(text: string, x: string) returns (kw: string, i: nat)
    requires TrimSpace(text) == x && HasPrefix(ToUpper(x), "SELECT")
    ensures kw == "" ==> ExtractTableName(text) == ""
    ensures kw != "" ==> Keyword(kw) && i == Index(ToUpper(x), kw) && OccursAt(ToUpper(x), kw, i) && i + 6 <= |x|
    ensures kw != "" ==> ExtractTableName(text) == FirstIdentifier(TrimSpace(x[i + 6..]))
  {
    hide *;
    var from, join := Index(ToUpper(x), " FROM "), Index(ToUpper(x), " JOIN ");
    KeywordsAre();
    IndexFound(ToUpper(x), " FROM ");
    IndexFound(ToUpper(x), " JOIN ");
    kw, i := "", 0;
    SelectBranches(text, x, from, join);
    if from != -1 { kw, i := " FROM ", from; } else if join != -1 { kw, i := " JOIN ", join; }
  }

  lemma KeywordsAre()
    ensures Keyword(" FROM ") && Keyword(" JOIN ")
  {
  }

  lemma IndexFound(t: string, p: string)
    ensures -1 <= Index(t, p) && (Index(t, p) >= 0 ==> OccursAt(t, p, Index(t, p)) && Index(t, p) + |p| <= |t|)
  {
    if Index(t, p) >= 0 { TextFits(t, p, Index(t, p)); }
    hide OccursAt;
  }

  lemma SelectBranches(text: string, x: string, from: int, join: int)
    requires TrimSpace(text) == x && HasPrefix(ToUpper(x), "SELECT")
    requires from == Index(ToUpper(x), " FROM ") && join == Index(ToUpper(x), " JOIN ")
    requires (from >= 0 ==> from + 6 <= |ToUpper(x)|) && (join >= 0 ==> join + 6 <= |ToUpper(x)|)
    ensures |ToUpper(x)| == |x| && -1 <= from && -1 <= join
    ensures from != -1 ==> ExtractTableName(text) == FirstIdentifier(TrimSpace(x[from + 6..]))
    ensures from == -1 && join != -1 ==> ExtractTableName(text) == FirstIdentifier(TrimSpace(x[join + 6..]))
    ensures from == -1 && join == -1 ==> ExtractTableName(text) == ""
  {
    assert ToUpper(x)[0] == 'S';
    hide TrimSpace, FirstIdentifier, ToUpper, OccursAt;
  }

  /** If it were the FROM before the name, the code would find it. */
  lemma NotOurs(h: Head, u: string, x: string, t: string, y: int, kw: string, i: nat)
    requires HeadOk(h) && h.Select? && !Reads(h) && NameFits(HeadText(h), u, x, t, y)
    requires Keyword(kw) && i == Index(ToUpper(x), kw) && OccursAt(ToUpper(x), kw, i)
    ensures !(kw == " FROM " && i + 1 == |h.a| + |h.w1|)
  {
    var k := HeadText(h);
    if kw == " FROM " && i + 1 == |h.a| + |h.w1| {
      HeadRunes(h, x, i + 1);
      IndexWithin(ToUpper(k), ToUpper(x), kw, i) by { UpperPrefix(k, x); }
    }
  }

  lemma UpperPrefix(k: string, x: string)
    requires k <= x
    ensures ToUpper(k) <= ToUpper(x)
  {
  }

  lemma IndexWithin(a: string, t: string, p: string, i: nat)
    requires a <= t && Index(t, p) == i && i + |p| <= |a| && p != ""
    ensures Index(a, p) == i
  {
    assert a[i..i + |p|] == t[i..i + |p|];
    forall j | 0 <= j < i ensures !OccursAt(a, p, j) {
      assert !OccursAt(t, p, j) && t[j..j + |p|] == a[j..j + |p|];
    }
    hide Index;
    IndexIs(a, p, i);
  }

  lemma AfterKeyword(x: string, kw: string, i: nat)
    requires Keyword(kw) && OccursAt(ToUpper(x), kw, i)
    ensures 0 < i + 6 <= |x| && !WordAt(x, i + 6 - 1)
  {
    KeywordRunes(x, kw, i);
  }

  lemma HeadBorder(h: Head, x: string)
    requires HeadOk(h) && h.Select? && HeadText(h) <= x
    ensures var b := |h.a| + |h.w1|; b < |HeadText(h)| - 1 && !IsSpace(x[b])
  {
    HeadRunes(h, x, |h.a| + |h.w1|);
  }

  lemma KeywordMissed(h: Head, r: string, x: string)
    requires HeadOk(h) && !h.Select? && !Reads(h) && x == HeadText(h) + r
    ensures x != "" && Upper(x[0]) != 'S' && !Begins(x, "INSERT INTO") && !Begins(x, "UPDATE ")
    ensures !Begins(x, "DELETE FROM ")
  {
    var t := ToUpper(x);
    HeadStart(h);
    assert x[0] == HeadText(h)[0] && t[0] == Upper(x[0]);
    match h
    case Insert(a, w1, b, w2) => assert |a| == |ToUpper(a)|; MissedTwo(a, w1, b, w2, x, r, "INSERT", "INTO");
    case Update(a, w2) => assert |a| == |ToUpper(a)|; MissedOne(a, w2, x, r);
    case Delete(a, w1, b, w2) => assert |a| == |ToUpper(a)|; MissedTwo(a, w1, b, w2, x, r, "DELETE", "FROM");
  }

  lemma FirstWords(t: string)
    ensures HasPrefix(t, "UPDATE ") ==> |t| >= 7 && t[0] == 'U' && t[6] == ' '
    ensures HasPrefix(t, "INSERT INTO") ==> |t| >= 11 && t[0] == 'I' && t[6] == ' ' && t[7] == 'I'
    ensures HasPrefix(t, "DELETE FROM ") ==> |t| >= 12 && t[0] == 'D' && t[6] == ' ' && t[7] == 'F' && t[11] == ' '
  {
  }

  lemma MissedOne(a: string, w2: string, x: string, r: string)
    requires x == a + w2 + r && ToUpper(a) == "UPDATE" && |a| == 6 && Gap(w2) && w2[0] != ' '
    ensures !Begins(x, "UPDATE ") && !Begins(x, "INSERT INTO") && !Begins(x, "DELETE FROM ")
  {
    var t := ToUpper(x);
    assert x[6] == w2[0] && t[6] == Upper(x[6]) && x[0] == a[0] && t[0] == Upper(a[0]) == ToUpper(a)[0];
    FirstWords(t);
  }

  /** The rune after the first word, or the one after that, is not the keyword's. */
  lemma MissedTwo(a: string, w1: string, b: string, w2: string, x: string, r: string, p: string, o: string)
    requires x == a + w1 + b + w2 + r && ToUpper(a) == p && |a| == 6 && Gap(w1) && Gap(w2) && ToUpper(b) == o
    requires (p == "INSERT" && o == "INTO" && w1 != " ")
          || (p == "DELETE" && o == "FROM" && !(w1 == " " && w2[0] == ' '))
    ensures !Begins(x, "UPDATE ") && !Begins(x, "INSERT INTO") && !Begins(x, "DELETE FROM ")
  {
    var t := ToUpper(x);
    assert x[0] == a[0] && t[0] == Upper(a[0]) == ToUpper(a)[0] == p[0];
    assert |b| == |ToUpper(b)| == 4;
    assert x[6] == w1[0] && t[6] == Upper(x[6]) && t[7] == Upper(x[7]);
    assert |w1| > 1 ==> x[7] == w1[1];
    assert |w1| == 1 ==> x[11] == w2[0] && t[11] == Upper(x[11]) && w1 == [w1[0]];
    FirstWords(t);
  }

  lemma NoneUnfolds(text: string, x: string)
    requires TrimSpace(text) == x && x != "" && Upper(x[0]) != 'S'
    requires !Begins(x, "INSERT INTO") && !Begins(x, "UPDATE ") && !Begins(x, "DELETE FROM ")
    ensures ExtractTableName(text) == ""
  {
    assert ToUpper(x)[0] == Upper(x[0]);
    hide TrimSpace, Index, FirstIdentifier, ToUpper;
  }

  // ---------- qualified names ----------

  /** A quoted database name holds no FROM and no JOIN between spaces. */
  ghost predicate KeywordFree(sp: Spelling) {
    sp.dbQuoted ==> forall i, kw | 0 <= i && Keyword(kw) :: !OccursAt(ToUpper(sp.db), kw, i)
  }

  lemma SpellFits(sp: Spelling, pre: string, post: string, t: string, s: string, y: nat)
    requires Around(pre, post, t) && Spelled(sp) && DotFree(sp, t) && KeywordFree(sp)
    requires s == pre + (Spell(sp, t) + post) && y == |pre| + |DbText(sp)|
    ensures NameFits(pre, Spell(sp, t), s, t, y)
  {
    hide *;
    assert s == pre + Spell(sp, t) + post;
    SpellParts(pre, sp, t, post, s);
    OnlyDotted(sp, pre, post, s, t, y);
    AroundNames(pre, post, t);
    SpellRunes(sp, pre, post, t, s, y);
    forall i, kw | |pre| <= i < |pre + Spell(sp, t)| && Keyword(kw) ensures !OccursAt(ToUpper(s), kw, i) {
      NoKeywordInName(sp, pre, t, s, y, kw, i);
    }
    forall kw | Keyword(kw) && |pre| > 0 ensures !OccursAt(ToUpper(s), kw, |pre| - 1) {
      NoKeywordBefore(sp, pre, t, s, y, kw);
    }
    FitsIs(pre, Spell(sp, t), s, t, y);
  }

  lemma FitsIs(pre: string, u: string, s: string, t: string, y: int)
    requires pre + u <= s && forall d: nat :: d != y ==> NoDotted(s, d, t)
    requires y >= 0 ==> |pre| < y < |s| && !IsSpace(s[y - 1]) && (s[y - 1] == '`' ==> |pre| < y - 1 && s[|pre|] == '`')
    requires forall i, kw | |pre| <= i < |pre + u| && Keyword(kw) :: !OccursAt(ToUpper(s), kw, i)
    requires |u| > 4 && |pre| > 0 ==> forall kw | Keyword(kw) :: !OccursAt(ToUpper(s), kw, |pre| - 1)
    ensures NameFits(pre, u, s, t, y)
  {
    hide NoDotted, OccursAt, ToUpper, Keyword;
  }

  /** The runes of a spelling at the end of pre. */
  lemma SpellRunes(sp: Spelling, pre: string, post: string, t: string, s: string, y: nat)
    requires WordText(t) && Spelled(sp) && s == pre + (Spell(sp, t) + post) && y == |pre| + |DbText(sp)|
    ensures |pre| < y < |pre + Spell(sp, t)| <= |s| && pre + Spell(sp, t) <= s && s[y] == '.'
    ensures !IsSpace(s[y - 1]) && (s[y - 1] == '`' ==> |pre| < y - 1 && s[|pre|] == '`')
    ensures forall q :: y < q < |pre + Spell(sp, t)| ==> !IsSpace(s[q])
    ensures !sp.dbQuoted ==> forall q :: |pre| <= q < y ==> IsWord(s[q])
    ensures sp.dbQuoted ==>
      y == |pre| + |sp.db| + 2 && s[|pre|] == '`' && s[y - 1] == '`' && s[|pre| + 1..y - 1] == sp.db
  {
    var q, n, u := DbText(sp), TableText(sp, t), Spell(sp, t);
    TableChars(sp, t);
    assert s == pre + q + "." + n + post && s[|pre|..y] == q;
    DbRunes(sp, s, |pre|, y);
    if sp.dbQuoted { BetweenTicks(s, sp.db, |pre|, y); }
    forall i | y < i < |pre + u| ensures !IsSpace(s[i]) { assert s[i] == n[i - y - 1]; }
    if !sp.dbQuoted { SpaceIsNoWord(s[y - 1]); }
    hide TableText, DbText;
  }

  lemma SpaceIsNoWord(c: char)
    ensures IsWord(c) ==> !IsSpace(c) && c != '`'
  {
  }

  lemma NoKeywordInName(sp: Spelling, pre: string, t: string, s: string, y: nat, kw: string, i: nat)
    requires Keyword(kw) && KeywordFree(sp) && |pre| < y < |pre + Spell(sp, t)| <= |s| && s[y] == '.'
    requires forall q :: y < q < |pre + Spell(sp, t)| ==> !IsSpace(s[q])
    requires !sp.dbQuoted ==> forall q :: |pre| <= q < y ==> IsWord(s[q])
    requires sp.dbQuoted ==>
      y == |pre| + |sp.db| + 2 && s[|pre|] == '`' && s[y - 1] == '`' && s[|pre| + 1..y - 1] == sp.db
    requires |pre| <= i < |pre + Spell(sp, t)|
    ensures !OccursAt(ToUpper(s), kw, i)
  {
    hide Spell;
    if OccursAt(ToUpper(s), kw, i) {
      KeywordRunes(s, kw, i);
      if sp.dbQuoted && i + 6 <= y - 1 && i > |pre| { InDb(s, sp.db, |pre|, y, kw, i); }
    }
  }

  lemma InDb(s: string, db: string, x: nat, y: nat, kw: string, i: nat)
    requires x < i && i + 6 <= y - 1 && y <= |s| && s[x + 1..y - 1] == db && OccursAt(ToUpper(s), kw, i) && |kw| == 6
    ensures OccursAt(ToUpper(db), kw, i - x - 1)
  {
    var a, b := ToUpper(s), ToUpper(db);
    assert forall q :: x < q < y - 1 ==> b[q - x - 1] == Upper(db[q - x - 1]) == Upper(s[q]) == a[q];
    OccursChars(a, kw, i);
    OccursChars(b, kw, i - x - 1);
  }

  lemma NoKeywordBefore(sp: Spelling, pre: string, t: string, s: string, y: nat, kw: string)
    requires Keyword(kw) && 0 < |pre| < y < |s| && s[y] == '.'
    requires !sp.dbQuoted ==> forall q :: |pre| <= q < y ==> IsWord(s[q])
    requires sp.dbQuoted ==> s[|pre|] == '`'
    ensures !OccursAt(ToUpper(s), kw, |pre| - 1)
  {
    if OccursAt(ToUpper(s), kw, |pre| - 1) { KeywordRunes(s, kw, |pre| - 1); }
  }

  /** A qualified table is found exactly when its keyword is found and what is glued to it may be.
      Then all spellings rewrite to one statement: the new name between backticks, without a
      qualifier. */
  lemma SpellingsAgree(sp: Spelling, lead: string, h: Head, t: string, e: string, tail: string, newName: string,
                       s: string)
    requires HeadOk(h) && AllSpace(lead) && Around(lead + HeadText(h), e + tail, t) && NoSpace(e) && Tail(tail)
    requires Spelled(sp) && DotFree(sp, t) && WordText(newName) && s == lead + HeadText(h) + Spell(sp, t) + e + tail
    ensures Reads(h) || KeywordFree(sp) ==> (ExtractTableName(s) == t <==> Reads(h) && GluedOk(sp, e))
    ensures Reads(h) && GluedOk(sp, e) ==>
      RewriteTableInSQL(s, newName) == lead + HeadText(h) + ("`" + newName + "`") + e + tail
  {
    hide *;
    var pre, post := lead + HeadText(h), e + tail;
    AroundNames(pre, post, t);
    assert s == pre + Spell(sp, t) + post;
    if Reads(h) {
      NameExtracted(sp, lead, h, t, e, tail, s);
      GluedIff(sp, t, e);
      if GluedOk(sp, e) {
        if !sp.tableQuoted { GluedApart(sp, e, tail); }
        DropSpelling(sp, pre, post, t, s, pre + ("`" + t + "`") + post);
        RewriteAround(pre, t, post, newName);
        RewriteUnfolds(s, newName, t);
        assert pre + ("`" + newName + "`") + post == pre + ("`" + newName + "`") + e + tail;
      }
    } else if KeywordFree(sp) {
      var v := TrimRightFunc(post, IsSpace);
      HeadAround(lead, h, post, t);
      SpellFits(sp, HeadText(h), v, t, HeadText(h) + (Spell(sp, t) + v), |HeadText(h)| + |DbText(sp)|);
      SpellingSolid(sp, t);
      NotExtracted(lead, h, Spell(sp, t), post, t, |HeadText(h)| + |DbText(sp)|, s);
    }
  }

  /** One of the four spellings of db and t finds t and rewrites to the common statement. */
  ghost predicate Agrees(sp: Spelling, pre: string, t: string, post: string, newName: string) {
    && ExtractTableName(pre + Spell(sp, t) + post) == t
    && RewriteTableInSQL(pre + Spell(sp, t) + post, newName) == pre + ("`" + newName + "`") + post
  }

  /** The four spellings agree exactly when the keyword is found and only commas are glued to the
      table. */
  lemma FourSpellings(db: string, lead: string, h: Head, t: string, e: string, tail: string, newName: string)
    requires HeadOk(h) && AllSpace(lead) && Around(lead + HeadText(h), e + tail, t) && NoSpace(e) && Tail(tail)
    requires WordText(db) && In(IdentHead, db[0]) && WordText(newName)
    ensures (forall d, q :: Agrees(Spelling(db, d, q), lead + HeadText(h), t, e + tail, newName))
       <==> Reads(h) && AllOf(e, ',')
  {
    hide *;
    var pre, post := lead + HeadText(h), e + tail;
    forall d, q
      ensures Agrees(Spelling(db, d, q), pre, t, post, newName) <==> Reads(h) && GluedOk(Spelling(db, d, q), e) {
      var sp := Spelling(db, d, q);
      var s := pre + Spell(sp, t) + post;
      WordDb(sp, t);
      assert s == pre + Spell(sp, t) + e + tail;
      SpellingsAgree(sp, lead, h, t, e, tail, newName, s);
      assert pre + ("`" + newName + "`") + post == pre + ("`" + newName + "`") + e + tail;
      AgreesIff(sp, pre, t, post, newName);
    }
    assert Agrees(Spelling(db, true, false), pre, t, post, newName)
      <==> Reads(h) && GluedOk(Spelling(db, true, false), e);
    AllGlued(db, e);
  }

  lemma AgreesIff(sp: Spelling, pre: string, t: string, post: string, newName: string)
    ensures Agrees(sp, pre, t, post, newName) <==>
      ExtractTableName(pre + Spell(sp, t) + post) == t
      && RewriteTableInSQL(pre + Spell(sp, t) + post, newName) == pre + ("`" + newName + "`") + post
  {
  }

  lemma WordDb(sp: Spelling, t: string)
    requires WordText(sp.db) && In(IdentHead, sp.db[0])
    ensures Spelled(sp) && DotFree(sp, t) && KeywordFree(sp)
  {
    WordChars(sp.db);
    forall i, kw | 0 <= i && Keyword(kw) ensures !OccursAt(ToUpper(sp.db), kw, i) {
      if OccursAt(ToUpper(sp.db), kw, i) { KeywordRunes(sp.db, kw, i); }
    }
  }

  lemma AllGlued(db: string, e: string)
    ensures AllOf(e, ',') <==> GluedOk(Spelling(db, true, false), e)
    ensures AllOf(e, ',') ==> forall d, q :: GluedOk(Spelling(db, d, q), e)
  {
    TrimsAway(e, OneOf(","));
  }

  // ---------- unqualified names ----------

  lemma PlainFits(quoted: bool, pre: string, post: string, t: string, s: string)
    requires Around(pre, post, t) && s == pre + (NameText(quoted, t) + post)
    ensures NameFits(pre, NameText(quoted, t), s, t, -1)
  {
    hide *;
    var u := NameText(quoted, t);
    AroundNames(pre, post, t);
    assert s == pre + u + post;
    NameTextSolid(quoted, t);
    NoDots(pre, u, post, s, t);
    PlainRunes(quoted, pre, post, t, s);
    forall i, kw | |pre| <= i < |pre + u| && Keyword(kw) ensures !OccursAt(ToUpper(s), kw, i) {
      NoSpaceHere(s, kw, i);
    }
    forall kw | Keyword(kw) && |pre| > 0 && |u| > 4 ensures !OccursAt(ToUpper(s), kw, |pre| - 1) {
      NoSpaceThere(s, kw, |pre| - 1);
    }
    FitsIs(pre, u, s, t, -1);
  }

  lemma PlainRunes(quoted: bool, pre: string, post: string, t: string, s: string)
    requires WordText(t) && s == pre + (NameText(quoted, t) + post)
    ensures pre + NameText(quoted, t) <= s
    ensures forall q :: |pre| <= q < |pre + NameText(quoted, t)| ==> !IsSpace(s[q])
  {
    var u := NameText(quoted, t);
    WordChars(t);
    forall q | |pre| <= q < |pre + u| ensures !IsSpace(s[q]) { assert s[q] == u[q - |pre|]; }
  }

  lemma NoSpaceHere(s: string, kw: string, i: nat)
    requires Keyword(kw) && i < |s| && !IsSpace(s[i])
    ensures !OccursAt(ToUpper(s), kw, i)
  {
    if OccursAt(ToUpper(s), kw, i) { KeywordRunes(s, kw, i); }
  }

  lemma NoSpaceThere(s: string, kw: string, i: nat)
    requires Keyword(kw) && i + 5 < |s| && !IsSpace(s[i + 5])
    ensures !OccursAt(ToUpper(s), kw, i)
  {
    if OccursAt(ToUpper(s), kw, i) { KeywordRunes(s, kw, i); }
  }

  /** An unqualified table is found exactly when its keyword is found and, bare, only backticks and
      then commas are glued to it, or, quoted, no dot and second name follow it; it is then
      rewritten in place. */
  lemma UnqualifiedRewrites(quoted: bool, lead: string, h: Head, t: string, e: string, tail: string, newName: string,
                            s: string)
    requires HeadOk(h) && AllSpace(lead) && Around(lead + HeadText(h), e + tail, t) && NoSpace(e) && Tail(tail)
    requires WordText(newName) && s == lead + HeadText(h) + NameText(quoted, t) + e + tail
    ensures ExtractTableName(s) == t <==>
      Reads(h) && if quoted then !SecondName(e + tail) else AllOf(TrimRight(e, ","), '`')
    ensures ExtractTableName(s) == t ==>
      RewriteTableInSQL(s, newName) == lead + HeadText(h) + NameText(quoted, newName) + e + tail
  {
    hide *;
    var pre, u, post := lead + HeadText(h), NameText(quoted, t), e + tail;
    AroundNames(pre, post, t);
    NameTextSolid(quoted, t);
    assert s == pre + u + post;
    if !Reads(h) {
      HeadAround(lead, h, post, t);
      PlainFits(quoted, HeadText(h), TrimRightFunc(post, IsSpace), t, HeadText(h) + (u + TrimRightFunc(post, IsSpace)));
      NotExtracted(lead, h, u, post, t, -1, s);
    } else if quoted {
      ExtractAt(lead, h, u, post, s);
      QuotedIff(t, post, u);
    } else {
      SolidGlued(u, e);
      TailTrimmed(tail);
      assert s == pre + (u + e) + tail;
      ExtractAt(lead, h, u + e, tail, s);
      BareIff(t, e, tail, TrimRightFunc(tail, IsSpace));
    }
    if ExtractTableName(s) == t { PlainRewrite(quoted, pre, t, e, tail, post, newName, s); }
    assert pre + NameText(quoted, newName) + post == pre + NameText(quoted, newName) + e + tail;
  }

  lemma PlainRewrite(quoted: bool, pre: string, t: string, e: string, tail: string, post: string, newName: string,
                     s: string)
    requires Around(pre, post, t) && WordText(newName) && s == pre + NameText(quoted, t) + post
    requires ExtractTableName(s) == t
    requires post == e + tail && Tail(tail) && (!quoted ==> AllOf(TrimRight(e, ","), '`'))
    ensures RewriteTableInSQL(s, newName) == pre + NameText(quoted, newName) + post
  {
    hide *;
    AroundNames(pre, post, t);
    NameTextSolid(quoted, t);
    NameTextIs(quoted, newName);
    NoDots(pre, NameText(quoted, t), post, s, t);
    NoMatches(s, t, |s| + 1);
    DropNothing(s, t);
    DropUnfolds(s, t, "`" + t + "`");
    RewriteUnfolds(s, newName, t);
    if quoted {
      RewriteAround(pre, t, post, newName);
    } else {
      BareApart(e, tail);
      LeadSpace(pre, pre);
      RewriteBare(pre, t, post, newName);
    }
  }

  // ---------- any statement whose table is found ----------

  datatype TableName = Qualified(spelling: Spelling) | Plain(quoted: bool)

  function NameIn(name: TableName, t: string): string {
    match name
    case Qualified(sp) => Spell(sp, t)
    case Plain(quoted) => NameText(quoted, t)
  }

  /** A statement around the name of a table, and the text glued to it. */
  datatype Sql = Sql(lead: string, head: Head, name: TableName, table: string, glued: string, tail: string)

  function SqlText(q: Sql): string {
    q.lead + HeadText(q.head) + NameIn(q.name, q.table) + q.glued + q.tail
  }

  /** The same statement for another table: the qualifier is gone, and backticks are kept or, where
      there was a qualifier, added. */
  function Renamed(q: Sql, newName: string): string {
    q.lead + HeadText(q.head) + NameText(q.name.Qualified? || q.name.quoted, newName) + q.glued + q.tail
  }

  ghost predicate Readable(q: Sql) {
    && HeadOk(q.head) && Reads(q.head) && AllSpace(q.lead) && NoSpace(q.glued) && Tail(q.tail)
    && Around(q.lead + HeadText(q.head), q.glued + q.tail, q.table)
    && (q.name.Qualified? ==> Spelled(q.name.spelling) && DotFree(q.name.spelling, q.table))
    && ExtractTableName(SqlText(q)) == q.table
  }

  /** A statement whose table is found is rewritten for any other. */
  lemma TableRewritten(q: Sql, newName: string)
    requires Readable(q) && WordText(newName)
    ensures RewriteTableInSQL(SqlText(q), newName) == Renamed(q, newName)
  {
    hide HeadOk, Reads, Around, ExtractTableName, RewriteTableInSQL, HeadText, Spell, NameText, NoSpace, Tail, Spelled;
    match q.name
    case Qualified(sp) =>
      SpellingsAgree(sp, q.lead, q.head, q.table, q.glued, q.tail, newName, SqlText(q));
      NameTextIs(true, newName);
    case Plain(quoted) =>
      UnqualifiedRewrites(quoted, q.lead, q.head, q.table, q.glued, q.tail, newName, SqlText(q));
  }

  // ---------- statements whose table is lost ----------

  /** A column list or a semicolon right after the table: three of the four spellings take it for
      a part of the name. */
  lemma GluedExamples()
    ensures ExtractTableName("INSERT INTO db.t(id) VALUES (1)") == "t(id)"
    ensures ExtractTableName("INSERT INTO `db`.`t`(id) VALUES (1)") == "t"
    ensures ExtractTableName("DELETE FROM db.t;") == "t;"
  {
    hide *;
    var plain, quoted := Spelling("db", false, false), Spelling("db", true, true);
    var insert, delete := Insert("INSERT", " ", "INTO", " "), Delete("DELETE", " ", "FROM", " ");
    ExampleHeads(insert, delete);
    ExampleDb(plain, quoted);
    ExampleTexts();
    Example(plain, insert, "(id)", " VALUES (1)", "INSERT INTO db.t(id) VALUES (1)");
    Example(quoted, insert, "(id)", " VALUES (1)", "INSERT INTO `db`.`t`(id) VALUES (1)");
    PlainGlued("(id)");
    PlainGlued(";");
    QuotedName(quoted, "t", "(id)");
    Example(plain, delete, ";", "", "DELETE FROM db.t;");
  }

  lemma Example(sp: Spelling, h: Head, e: string, tail: string, s: string)
    requires HeadOk(h) && Reads(h) && Spelled(sp) && NoSpace(e) && Tail(tail)
    requires s == HeadText(h) + Spell(sp, "t") + e + tail
    ensures ExtractTableName(s) == ExtractedName(sp, "t", e)
  {
    OneRune("t");
    hide *;
    assert "" + HeadText(h) == HeadText(h);
    NameExtracted(sp, "", h, "t", e, tail, s);
  }

  lemma OneRune(t: string)
    requires t == "t"
    ensures WordText(t) && AllSpace("")
  {
  }

  lemma ExampleHeads(insert: Head, delete: Head)
    requires insert == Insert("INSERT", " ", "INTO", " ") && delete == Delete("DELETE", " ", "FROM", " ")
    ensures HeadOk(insert) && HeadOk(delete) && Reads(insert) && Reads(delete)
    ensures HeadText(insert) == "INSERT INTO " && HeadText(delete) == "DELETE FROM "
    ensures NoSpace("(id)") && NoSpace(";") && Tail(" VALUES (1)") && Tail("")
  {
    assert ToUpper("INSERT") == "INSERT" && ToUpper("INTO") == "INTO";
    assert ToUpper("DELETE") == "DELETE" && ToUpper("FROM") == "FROM";
    hide ToUpper;
  }

  lemma ExampleDb(plain: Spelling, quoted: Spelling)
    requires plain == Spelling("db", false, false) && quoted == Spelling("db", true, true)
    ensures Spelled(plain) && Spelled(quoted) && Spell(plain, "t") == "db.t" && Spell(quoted, "t") == "`db`.`t`"
  {
    assert WordText("db");
  }

  lemma ExampleTexts()
    ensures "INSERT INTO db.t(id) VALUES (1)" == "INSERT INTO " + "db.t" + "(id)" + " VALUES (1)"
    ensures "INSERT INTO `db`.`t`(id) VALUES (1)" == "INSERT INTO " + "`db`.`t`" + "(id)" + " VALUES (1)"
    ensures "DELETE FROM db.t;" == "DELETE FROM " + "db.t" + ";" + ""
  {
  }

  lemma PlainGlued(e: string)
    requires e != "" && e[|e| - 1] != ',' && e[|e| - 1] != '`'
    ensures ExtractedName(Spelling("db", false, false), "t", e) == "t" + e
  {
    assert TrimRight(e, ",") == e && "" + e == e && TrimRight(e, "`") == e;
  }

  /** A line break, a tab or a second space where the code looks for one plain space: no table is
      found, and the statement goes on as it stands. A subquery: its table is found instead. */
  lemma KeywordExamples()
    ensures ExtractTableName("SELECT *\nFROM db.t") == ""
    ensures forall newName :: RewriteTableInSQL("SELECT *\nFROM db.t", newName) == "SELECT *\nFROM db.t"
    ensures ExtractTableName("UPDATE\tdb.t SET a = 1") == ""
    ensures ExtractTableName("DELETE  FROM db.t") == ""
    ensures ExtractTableName("SELECT (SELECT 1 FROM x.u) FROM db.t") == "u)"
  {
    hide ExtractTableName, RewriteTableName, DropQualifiers;
    BreakExample("SELECT *\nFROM db.t");
    TabExample("UPDATE\tdb.t SET a = 1");
    SpaceExample("DELETE  FROM db.t");
    SubqueryExample();
  }

  lemma BreakExample(s: string)
    requires s == "SELECT *\nFROM db.t"
    ensures ExtractTableName(s) == ""
  {
    var t := ToUpper(s);
    TrimSolid(s);
    assert forall q :: 0 <= q < |s| && s[q] == ' ' ==> q == 6 || q == 13;
    assert s[7] == '*' && s[14] == 'd';
    forall i: nat ensures !OccursAt(t, " FROM ", i) && !OccursAt(t, " JOIN ", i) {
      if OccursAt(t, " FROM ", i) { KeywordRunes(s, " FROM ", i); }
      if OccursAt(t, " JOIN ", i) { KeywordRunes(s, " JOIN ", i); }
    }
    assert t[0] == 'S';
    hide TrimSpace, ToUpper, OccursAt, FirstIdentifier;
  }

  lemma TabExample(s: string)
    requires s == "UPDATE\tdb.t SET a = 1"
    ensures ExtractTableName(s) == ""
  {
    TrimSolid(s);
    FirstWords(ToUpper(s));
    assert ToUpper(s)[0] == 'U' && ToUpper(s)[6] == '\t';
    hide TrimSpace, ToUpper, Index, FirstIdentifier;
  }

  lemma SpaceExample(s: string)
    requires s == "DELETE  FROM db.t"
    ensures ExtractTableName(s) == ""
  {
    TrimSolid(s);
    FirstWords(ToUpper(s));
    assert ToUpper(s)[0] == 'D' && ToUpper(s)[7] == ' ';
    hide TrimSpace, ToUpper, Index, FirstIdentifier;
  }

  /** The first FROM is the subquery's, whose table has a parenthesis glued to it. */
  lemma SubqueryExample()
    ensures ExtractTableName("SELECT (SELECT 1 FROM x.u) FROM db.t") == "u)"
  {
    hide *;
    var h, sp := Select("SELECT (SELECT 1", " ", "FROM", " "), Spelling("x", false, false);
    SubqueryHead(h);
    SubqueryText(h, sp);
    NameExtracted(sp, "", h, "u", ")", " FROM db.t", "SELECT (SELECT 1 FROM x.u) FROM db.t");
    SubqueryName(sp);
  }

  lemma SubqueryHead(h: Head)
    requires h == Select("SELECT (SELECT 1", " ", "FROM", " ")
    ensures HeadOk(h) && Reads(h) && HeadText(h) == "SELECT (SELECT 1 FROM "
  {
    assert HeadText(h) == "SELECT (SELECT 1 FROM ";
    SubqueryFrom(HeadText(h));
    SubqueryWords(h);
    hide HeadText, ToUpper, HeadOk, Index;
  }

  lemma SubqueryFrom(s: string)
    requires s == "SELECT (SELECT 1 FROM "
    ensures Index(ToUpper(s), " FROM ") == 16
  {
    var t := ToUpper(s);
    assert t[16..22] == " FROM " && forall q :: 0 <= q < 17 ==> t[q] != 'F';
    forall j | 0 <= j < 16 ensures !OccursAt(t, " FROM ", j) { CharOf(t, " FROM ", j, j + 1); }
    hide ToUpper;
    IndexIs(t, " FROM ", 16);
  }

  lemma SubqueryWords(h: Head)
    requires h == Select("SELECT (SELECT 1", " ", "FROM", " ")
    ensures HeadOk(h)
  {
    assert ToUpper(h.a)[..6] == "SELECT" && ToUpper(h.from) == "FROM";
    hide ToUpper;
  }

  lemma SubqueryText(h: Head, sp: Spelling)
    requires HeadText(h) == "SELECT (SELECT 1 FROM " && sp == Spelling("x", false, false)
    ensures "SELECT (SELECT 1 FROM x.u) FROM db.t" == "" + HeadText(h) + Spell(sp, "u") + ")" + " FROM db.t"
    ensures AllSpace("") && WordText("u") && Spelled(sp) && NoSpace(")") && Tail(" FROM db.t")
  {
    hide HeadText;
    assert Spell(sp, "u") == "x.u";
    assert "SELECT (SELECT 1 FROM " + "x.u" == "SELECT (SELECT 1 FROM x.u";
  }

  lemma SubqueryName(sp: Spelling)
    requires sp == Spelling("x", false, false)
    ensures ExtractedName(sp, "u", ")") == "u)"
  {
    assert TrimRight(")", ",") == ")" && "" + ")" == ")" && TrimRight(")", "`") == ")";
  }
}
