/** Rewriting a table name: the two regular-expression passes, and the token map they refine. */
module Rewrite {
  import opened GoStrings
  import opened Regex

  /** `old` */
  function BackPattern(oldName: string): Re {
    Lit("`" + oldName + "`", Done)
  }

  /** \bold\b */
  function WordPattern(oldName: string): Re {
    WordB(Lit(oldName, WordB(Done)))
  }

  /** RewriteTableName: the backtick pass, then the word pass. */
  function RewriteTableName(sql: string, oldName: string, newName: string): string {
    ReplaceAll(WordPattern(oldName), ReplaceAll(BackPattern(oldName), sql, Always("`" + newName + "`")),
               Always(newName))
  }

  // ---------- tokens ----------

  /** The length of the word that s begins with. */
  function Run(s: string): (n: nat)
    ensures n <= |s|
    ensures forall i :: 0 <= i < n ==> IsWord(s[i])
    ensures n < |s| ==> !IsWord(s[n])
    ensures s != "" && IsWord(s[0]) ==> n > 0
  {
    if s == "" || !IsWord(s[0]) then 0 else 1 + Run(s[1..])
  }

  /** The maximal words of s and its other runes, in order. */
  function Tokens(s: string): (ts: seq<string>)
    decreases |s|
  {
    if s == "" then []
    else if IsWord(s[0]) then [s[..Run(s)]] + Tokens(s[Run(s)..])
    else [[s[0]]] + Tokens(s[1..])
  }

  function Concat(ts: seq<string>): string {
    if ts == [] then "" else ts[0] + Concat(ts[1..])
  }

  /** Every token old becomes new. */
  function Swap(ts: seq<string>, oldName: string, newName: string): (r: seq<string>)
    ensures |r| == |ts|
    ensures forall i :: 0 <= i < |ts| ==> r[i] == if ts[i] == oldName then newName else ts[i]
  {
    if ts == [] then [] else [if ts[0] == oldName then newName else ts[0]] + Swap(ts[1..], oldName, newName)
  }

  /** The token map. */
  function MapWords(s: string, oldName: string, newName: string): string {
    Concat(Swap(Tokens(s), oldName, newName))
  }

  lemma {:induction false} ConcatTokens(s: string)
    ensures Concat(Tokens(s)) == s
    decreases |s|
  {
    if s != "" {
      var n := if IsWord(s[0]) then Run(s) else 1;
      ConcatTokens(s[n..]);
      assert Tokens(s)[1..] == Tokens(s[n..]);
      assert s == s[..n] + s[n..];
    }
  }

  // ---------- the word pass ----------

  /** The map, one token on. */
  lemma MapStep(s: string, oldName: string, newName: string, n: nat)
    requires s != "" && n == (if IsWord(s[0]) then Run(s) else 1)
    ensures 0 < n <= |s|
    ensures MapWords(s, oldName, newName) ==
      (if s[..n] == oldName then newName else s[..n]) + MapWords(s[n..], oldName, newName)
  {
    var ts := Tokens(s);
    assert ts[0] == s[..n] && ts[1..] == Tokens(s[n..]);
    assert Swap(ts, oldName, newName)[1..] == Swap(ts[1..], oldName, newName);
  }

  /** A run of s that starts at i. */
  lemma RunAt(s: string, i: nat, n: nat)
    requires i < |s| && n == Run(s[i..])
    ensures i + n <= |s| && (forall q :: i <= q < i + n ==> IsWord(s[q])) && !WordAt(s, i + n)
    ensures IsWord(s[i]) ==> n > 0
  {
    assert forall q :: i <= q < i + n ==> s[q] == s[i..][q - i];
  }

  /** At the start of a run the pattern matches exactly when the run is old. */
  lemma WordMatch(s: string, i: nat, n: nat, oldName: string)
    requires i + n <= |s| && n > 0 && !WordAt(s, i - 1) && !WordAt(s, i + n) && WordText(oldName)
    requires forall q :: i <= q < i + n ==> IsWord(s[q])
    ensures Match(WordPattern(oldName), s, i) == if s[i..i + n] == oldName then Ok([i + n]) else Fail
  {
    LitMatch(oldName, WordB(Done), s, i);
    if OccursAt(s, oldName, i) {
      OccursChars(s, oldName, i);
      var m := |oldName|;
      if m < n {
        assert IsWord(s[i + m]) && IsWord(s[i + m - 1]);
        assert s[i..i + n] != oldName;
      }
      assert forall q :: i <= q < i + m ==> s[q] == oldName[q - i];
    }
    hide Lit;
  }

  /** Inside a word, and at a rune that is none, the pattern fails. */
  lemma WordFails(s: string, q: nat, oldName: string)
    requires q < |s| && WordText(oldName) && (!IsWord(s[q]) || WordAt(s, q - 1))
    ensures Match(WordPattern(oldName), s, q) == Fail
  {
    if !IsWord(s[q]) {
      LitFails(oldName, WordB(Done), s, q);
    }
    hide Lit;
  }

  lemma {:induction false} WordPassFrom(s: string, i: nat, oldName: string, newName: string)
    requires i <= |s| && WordText(oldName) && !(WordAt(s, i - 1) && WordAt(s, i))
    ensures ReplaceFrom(WordPattern(oldName), s, i, Always(newName)) == MapWords(s[i..], oldName, newName)
    decreases |s| - i
  {
    hide *;
    if i == |s| {
      WordPassEnds(s, i, oldName, newName);
    } else {
      var n := if IsWord(s[i]) then Run(s[i..]) else 1;
      RunAt(s, i, Run(s[i..]));
      CutAfter(s, i, n);
      WordPassFrom(s, i + n, oldName, newName);
      WordPassStep(s, i, n, oldName, newName);
      MapStep(s[i..], oldName, newName, n);
      assert s[i..][..n] == s[i..i + n] && s[i..][n..] == s[i + n..];
    }
  }

  lemma WordPassEnds(s: string, i: nat, oldName: string, newName: string)
    requires i == |s|
    ensures ReplaceFrom(WordPattern(oldName), s, i, Always(newName)) == MapWords(s[i..], oldName, newName)
  {
    assert s[i..] == "";
    hide WordPattern, Match;
  }

  lemma WordPassStep(s: string, i: nat, n: nat, oldName: string, newName: string)
    requires i < |s| && WordText(oldName) && 0 < n <= |s| - i && !(WordAt(s, i - 1) && WordAt(s, i))
    requires if IsWord(s[i]) then !WordAt(s, i + n) && (forall q :: i <= q < i + n ==> IsWord(s[q])) else n == 1
    ensures ReplaceFrom(WordPattern(oldName), s, i, Always(newName))
         == (if s[i..i + n] == oldName then newName else s[i..i + n])
            + ReplaceFrom(WordPattern(oldName), s, i + n, Always(newName))
  {
    hide WordPattern;
    if IsWord(s[i]) && s[i..i + n] == oldName {
      WordMatch(s, i, n, oldName);
    } else {
      forall q | i <= q < i + n ensures Match(WordPattern(oldName), s, q) == Fail {
        if q > i || !IsWord(s[i]) { WordFails(s, q, oldName); } else { WordMatch(s, i, n, oldName); }
      }
      ReplaceCopies(WordPattern(oldName), s, i, i + n, Always(newName));
    }
  }

  lemma WordPass(s: string, oldName: string, newName: string)
    requires WordText(oldName)
    ensures ReplaceAll(WordPattern(oldName), s, Always(newName)) == MapWords(s, oldName, newName)
  {
    WordPassFrom(s, 0, oldName, newName);
    assert s[0..] == s;
  }

  // ---------- the backtick pass changes nothing that the word pass would not ----------

  /** A cut that is not inside a word. */
  predicate Apart(a: string, b: string) {
    a == "" || b == "" || !IsWord(a[|a| - 1]) || !IsWord(b[0])
  }

  lemma {:induction false} TokensConcat(a: string, b: string)
    requires Apart(a, b)
    ensures Tokens(a + b) == Tokens(a) + Tokens(b)
    decreases |a|
  {
    hide *;
    if a == "" {
      assert a + b == b;
      NoTokens();
    } else {
      var n := if IsWord(a[0]) then Run(a) else 1;
      SplitHere(a, b, n);
      TokensConcat(a[n..], b);
      assert [a[..n]] + (Tokens(a[n..]) + Tokens(b)) == [a[..n]] + Tokens(a[n..]) + Tokens(b);
    }
  }

  lemma NoTokens()
    ensures Tokens("") == []
  {
  }

  lemma SplitHere(a: string, b: string, n: nat)
    requires Apart(a, b) && a != "" && n == if IsWord(a[0]) then Run(a) else 1
    ensures 0 < n <= |a| && Tokens(a) == [a[..n]] + Tokens(a[n..]) && Apart(a[n..], b)
    ensures Tokens(a + b) == [a[..n]] + Tokens(a[n..] + b)
  {
    hide *;
    RunConcat(a, b);
    assert (a + b)[0] == a[0] && a + b != "";
    TokensStep(a, n);
    TokensStep(a + b, n);
    assert (a + b)[..n] == a[..n] && (a + b)[n..] == a[n..] + b;
    TailApart(a, b, n);
  }

  lemma TailApart(a: string, b: string, n: nat)
    requires Apart(a, b) && n <= |a|
    ensures Apart(a[n..], b)
  {
    assert a[n..] != "" ==> a[n..][|a[n..]| - 1] == a[|a| - 1];
  }

  lemma TokensStep(s: string, n: nat)
    requires s != "" && n == (if IsWord(s[0]) then Run(s) else 1)
    ensures 0 < n <= |s| && Tokens(s) == [s[..n]] + Tokens(s[n..])
  {
    assert s[..1] == [s[0]];
  }

  lemma {:induction false} RunConcat(a: string, b: string)
    requires Apart(a, b) && a != ""
    ensures Run(a + b) == Run(a)
    decreases |a|
  {
    assert (a + b)[0] == a[0] && (a + b)[1..] == a[1..] + b;
    if IsWord(a[0]) {
      if |a| == 1 {
        assert a[1..] + b == b;
      } else {
        RunConcat(a[1..], b);
      }
    }
  }

  lemma {:induction false} ConcatAppend(a: seq<string>, b: seq<string>)
    ensures Concat(a + b) == Concat(a) + Concat(b)
  {
    hide *;
    if a == [] {
      assert a + b == b;
      ConcatNothing();
    } else {
      ConcatAppend(a[1..], b);
      assert (a + b)[1..] == a[1..] + b;
      ConcatStep(a);
      ConcatStep(a + b);
      assert a[0] + (Concat(a[1..]) + Concat(b)) == a[0] + Concat(a[1..]) + Concat(b);
    }
  }

  lemma ConcatNothing()
    ensures Concat([]) == ""
  {
  }

  lemma ConcatStep(ts: seq<string>)
    requires ts != []
    ensures Concat(ts) == ts[0] + Concat(ts[1..])
  {
  }

  lemma SwapAppend(a: seq<string>, b: seq<string>, oldName: string, newName: string)
    ensures Swap(a + b, oldName, newName) == Swap(a, oldName, newName) + Swap(b, oldName, newName)
  {
  }

  lemma MapConcat(a: string, b: string, oldName: string, newName: string)
    requires Apart(a, b)
    ensures MapWords(a + b, oldName, newName) == MapWords(a, oldName, newName) + MapWords(b, oldName, newName)
  {
    TokensConcat(a, b);
    SwapAppend(Tokens(a), Tokens(b), oldName, newName);
    ConcatAppend(Swap(Tokens(a), oldName, newName), Swap(Tokens(b), oldName, newName));
  }

  lemma {:induction false} WordRun(w: string)
    requires forall i :: 0 <= i < |w| ==> IsWord(w[i])
    ensures Run(w) == |w|
  {
    if w != "" { WordRun(w[1..]); }
  }

  lemma WordTokens(w: string)
    requires WordText(w)
    ensures Tokens(w) == [w]
  {
    WordRun(w);
    assert w[..|w|] == w && w[|w|..] == "";
  }

  /** A quoted name: the quotes stay, the name is mapped. */
  lemma QuotedTokens(w: string)
    requires WordText(w)
    ensures Tokens("`" + w + "`") == ["`", w, "`"]
  {
    WordTokens(w);
    assert Tokens("`") == ["`"] by { assert "`"[1..] == ""; }
    TokensConcat("`", w);
    TokensConcat("`" + w, "`");
  }

  lemma Concat3(a: string, b: string, c: string)
    ensures Concat([a, b, c]) == a + b + c
  {
    assert [a, b, c][1..] == [b, c] && [b, c][1..] == [c] && [c][1..] == [];
    assert Concat([c]) == c;
    assert Concat([b, c]) == b + c;
    assert a + (b + c) == a + b + c;
  }

  lemma MapQuoted(w: string, oldName: string, newName: string)
    requires WordText(w) && WordText(oldName)
    ensures MapWords("`" + w + "`", oldName, newName) == "`" + (if w == oldName then newName else w) + "`"
  {
    QuotedTokens(w);
    var v := if w == oldName then newName else w;
    assert Swap(["`", w, "`"], oldName, newName) == ["`", v, "`"];
    Concat3("`", v, "`");
  }

  function BackFrom(s: string, i: nat, oldName: string, newName: string): string
    requires i <= |s|
  {
    ReplaceFrom(BackPattern(oldName), s, i, Always("`" + newName + "`"))
  }

  lemma BackHit(s: string, i: nat, oldName: string, newName: string)
    requires i <= |s| && OccursAt(s, "`" + oldName + "`", i)
    ensures i + |oldName| + 2 <= |s|
    ensures BackFrom(s, i, oldName, newName) == "`" + newName + "`" + BackFrom(s, i + |oldName| + 2, oldName, newName)
  {
    LitMatch("`" + oldName + "`", Done, s, i);
    hide Lit;
  }

  lemma BackMiss(s: string, i: nat, oldName: string, newName: string)
    requires i < |s| && !OccursAt(s, "`" + oldName + "`", i)
    ensures BackFrom(s, i, oldName, newName) == [s[i]] + BackFrom(s, i + 1, oldName, newName)
  {
    LitMatch("`" + oldName + "`", Done, s, i);
    hide Lit, OccursAt;
  }

  lemma BackCopies(s: string, i: nat, j: nat, oldName: string, newName: string)
    requires i <= j <= |s| && forall q :: i <= q < j ==> IsWord(s[q])
    ensures BackFrom(s, i, oldName, newName) == s[i..j] + BackFrom(s, j, oldName, newName)
  {
    forall q | i <= q < j ensures Match(BackPattern(oldName), s, q) == Fail {
      LitFails("`" + oldName + "`", Done, s, q);
    }
    hide BackPattern;
    ReplaceCopies(BackPattern(oldName), s, i, j, Always("`" + newName + "`"));
  }

  /** The pass keeps the cut: what follows a word still begins with a rune of no word. */
  lemma BackFirst(s: string, i: nat, oldName: string, newName: string)
    requires i <= |s| && !WordAt(s, i)
    ensures var r := BackFrom(s, i, oldName, newName); r == "" || !IsWord(r[0])
  {
    if i < |s| {
      if OccursAt(s, "`" + oldName + "`", i) {
        BackHit(s, i, oldName, newName);
      } else {
        BackMiss(s, i, oldName, newName);
      }
    }
  }

  lemma QuotedFirst(w: string, x: string, oldName: string, newName: string)
    requires WordText(w) && WordText(oldName)
    ensures MapWords("`" + w + "`" + x, oldName, newName)
         == "`" + (if w == oldName then newName else w) + "`" + MapWords(x, oldName, newName)
  {
    MapQuoted(w, oldName, newName);
    hide MapWords;
    MapConcat("`" + w + "`", x, oldName, newName);
  }

  lemma {:induction false} BackPassFrom(s: string, i: nat, oldName: string, newName: string)
    requires i <= |s| && WordText(oldName) && WordText(newName) && !(WordAt(s, i - 1) && WordAt(s, i))
    ensures MapWords(BackFrom(s, i, oldName, newName), oldName, newName) == MapWords(s[i..], oldName, newName)
    decreases |s| - i
  {
    hide *;
    if i == |s| {
      NothingLeft(s, i, oldName, newName);
    } else if OccursAt(s, "`" + oldName + "`", i) {
      QuoteEnds(s, i, oldName);
      BackPassFrom(s, i + |oldName| + 2, oldName, newName);
      HitCase(s, i, i + |oldName| + 2, oldName, newName);
    } else {
      var n := if IsWord(s[i]) then Run(s[i..]) else 1;
      RunAt(s, i, Run(s[i..]));
      CutAfter(s, i, n);
      BackPassFrom(s, i + n, oldName, newName);
      BackToken(s, i, n, oldName, newName);
      assert s[i..] == s[i..i + n] + s[i + n..];
      MapSame(s[i..i + n], BackFrom(s, i + n, oldName, newName), s[i + n..], oldName, newName);
    }
  }

  lemma NothingLeft(s: string, i: nat, oldName: string, newName: string)
    requires i == |s|
    ensures BackFrom(s, i, oldName, newName) == s[i..]
  {
  }

  lemma HitCase(s: string, i: nat, j: nat, oldName: string, newName: string)
    requires OccursAt(s, "`" + oldName + "`", i) && WordText(oldName) && WordText(newName)
    requires j == i + |oldName| + 2 <= |s|
    requires MapWords(BackFrom(s, j, oldName, newName), oldName, newName) == MapWords(s[j..], oldName, newName)
    ensures MapWords(BackFrom(s, i, oldName, newName), oldName, newName) == MapWords(s[i..], oldName, newName)
  {
    hide *;
    TextFits(s, "`" + oldName + "`", i);
    BackHit(s, i, oldName, newName);
    QuoteEnds(s, i, oldName);
    QuotedFirst(newName, BackFrom(s, j, oldName, newName), oldName, newName);
    QuotedFirst(oldName, s[j..], oldName, newName);
  }

  lemma MapSame(x: string, y: string, z: string, oldName: string, newName: string)
    requires Apart(x, y) && Apart(x, z) && MapWords(y, oldName, newName) == MapWords(z, oldName, newName)
    ensures MapWords(x + y, oldName, newName) == MapWords(x + z, oldName, newName)
  {
    hide MapWords, Apart;
    MapConcat(x, y, oldName, newName);
    MapConcat(x, z, oldName, newName);
  }

  lemma CutAfter(s: string, i: nat, n: nat)
    requires i < |s| && 0 < n <= |s| - i && if IsWord(s[i]) then !WordAt(s, i + n) else n == 1
    ensures !(WordAt(s, i + n - 1) && WordAt(s, i + n))
  {
  }

  lemma QuoteEnds(s: string, i: nat, oldName: string)
    requires OccursAt(s, "`" + oldName + "`", i)
    ensures var j := i + |oldName| + 2; j <= |s| && !WordAt(s, j - 1) && s[i..] == "`" + oldName + "`" + s[j..]
  {
    OccursChars(s, "`" + oldName + "`", i);
    var j := i + |oldName| + 2;
    assert s[j - 1] == '`';
    assert s[i..] == s[i..j] + s[j..];
  }

  lemma BackToken(s: string, i: nat, n: nat, oldName: string, newName: string)
    requires i < |s| && !OccursAt(s, "`" + oldName + "`", i) && 0 < n <= |s| - i
    requires if IsWord(s[i]) then !WordAt(s, i + n) && (forall q :: i <= q < i + n ==> IsWord(s[q])) else n == 1
    ensures BackFrom(s, i, oldName, newName) == s[i..i + n] + BackFrom(s, i + n, oldName, newName)
    ensures Apart(s[i..i + n], BackFrom(s, i + n, oldName, newName)) && Apart(s[i..i + n], s[i + n..])
  {
    hide BackFrom, OccursAt;
    if IsWord(s[i]) {
      BackCopies(s, i, i + n, oldName, newName);
      BackFirst(s, i + n, oldName, newName);
    } else {
      BackMiss(s, i, oldName, newName);
      assert s[i..i + n] == [s[i]];
    }
  }

  /** The two passes are the token map: each maximal word equal to old becomes new, and every
      other rune stays. */
  lemma RewriteIsTokenMap(s: string, oldName: string, newName: string)
    requires WordText(oldName) && WordText(newName)
    ensures RewriteTableName(s, oldName, newName) == MapWords(s, oldName, newName)
  {
    var t := BackFrom(s, 0, oldName, newName);
    BackPassFrom(s, 0, oldName, newName);
    assert s[0..] == s;
    hide BackPattern, WordPattern, MapWords, WordText;
    WordPass(t, oldName, newName);
  }

  // ---------- consequences ----------

  /** Token lists that came from tokenising: words and single other runes, no two words adjacent. */
  predicate Tokenised(ts: seq<string>) {
    && (forall i :: 0 <= i < |ts| ==> WordText(ts[i]) || (|ts[i]| == 1 && !IsWord(ts[i][0])))
    && (forall i :: 0 < i < |ts| ==> !(WordText(ts[i - 1]) && WordText(ts[i])))
  }

  lemma TokenisedCons(t: string, ts: seq<string>)
    requires WordText(t) || (|t| == 1 && !IsWord(t[0]))
    requires Tokenised(ts) && (ts != [] && WordText(t) ==> !WordText(ts[0]))
    ensures Tokenised([t] + ts)
  {
    hide WordText;
  }

  lemma {:induction false} TokensTokenised(s: string)
    ensures Tokenised(Tokens(s))
    ensures s != "" ==> Tokens(s) != [] && (WordText(Tokens(s)[0]) <==> IsWord(s[0]))
    ensures s == "" ==> Tokens(s) == []
    decreases |s|
  {
    if s != "" {
      var n := if IsWord(s[0]) then Run(s) else 1;
      TokensStep(s, n);
      TokensTokenised(s[n..]);
      FirstToken(s, n);
      hide Tokens, Run, IsWord, WordText, Tokenised;
      TokenisedCons(s[..n], Tokens(s[n..]));
    }
  }

  lemma FirstToken(s: string, n: nat)
    requires s != "" && n == (if IsWord(s[0]) then Run(s) else 1)
    ensures 0 < n <= |s| && (WordText(s[..n]) <==> IsWord(s[0]))
    ensures (!IsWord(s[0]) ==> |s[..n]| == 1 && !IsWord(s[..n][0]))
    ensures IsWord(s[0]) && s[n..] != "" ==> !IsWord(s[n..][0])
  {
    assert s[..n][0] == s[0];
  }

  lemma {:induction false} Retokenise(ts: seq<string>)
    requires Tokenised(ts)
    ensures Tokens(Concat(ts)) == ts
    ensures ts != [] ==> Concat(ts) != "" && Concat(ts)[0] == ts[0][0]
  {
    hide *;
    if ts == [] {
      ConcatNothing();
      NoTokens();
    } else {
      var rest := ts[1..];
      TokenisedTail(ts);
      Retokenise(rest);
      ConcatStep(ts);
      ConcatNothing();
      TokensConcat(ts[0], Concat(rest));
      TokensOne(ts[0]);
    }
  }

  /** The first token, the rest, and the cut between them. */
  lemma TokenisedTail(ts: seq<string>)
    requires Tokenised(ts) && ts != []
    ensures Tokenised(ts[1..]) && ts[0] != "" && (WordText(ts[0]) || (|ts[0]| == 1 && !IsWord(ts[0][0])))
    ensures forall c: string :: (ts[1..] == [] ==> c == "") && (ts[1..] != [] ==> c != "" && c[0] == ts[1][0]) ==>
      Apart(ts[0], c)
  {
    assert |ts| > 1 ==> ts[1..][0] == ts[1];
  }

  lemma TokensOne(t: string)
    requires WordText(t) || (|t| == 1 && !IsWord(t[0]))
    ensures Tokens(t) == [t]
  {
    if WordText(t) {
      WordTokens(t);
    } else {
      assert t == [t[0]] && t[1..] == "";
    }
  }

  /** Rewriting maps the tokens one by one. */
  lemma TokensOfRewrite(s: string, oldName: string, newName: string)
    requires WordText(oldName) && WordText(newName)
    ensures Tokens(RewriteTableName(s, oldName, newName)) == Swap(Tokens(s), oldName, newName)
  {
    RewriteIsTokenMap(s, oldName, newName);
    TokensTokenised(s);
    var ts := Swap(Tokens(s), oldName, newName);
    assert Tokenised(ts);
    hide Tokens, RewriteTableName;
    Retokenise(ts);
  }

  /** No whole word old remains. */
  lemma NoOldRemains(s: string, oldName: string, newName: string)
    requires WordText(oldName) && WordText(newName) && oldName != newName
    ensures oldName !in Tokens(RewriteTableName(s, oldName, newName))
  {
    hide RewriteTableName, Tokens;
    TokensOfRewrite(s, oldName, newName);
  }

  /** Swapping the names undoes the rewrite exactly when new was not a word of the statement. */
  lemma SwapUndoes(s: string, oldName: string, newName: string)
    requires WordText(oldName) && WordText(newName) && oldName != newName
    ensures RewriteTableName(RewriteTableName(s, oldName, newName), newName, oldName) == s <==> newName !in Tokens(s)
  {
    hide RewriteTableName, Tokens, Concat;
    var r := RewriteTableName(s, oldName, newName);
    var b := RewriteTableName(r, newName, oldName);
    TokensOfRewrite(s, oldName, newName);
    TokensOfRewrite(r, newName, oldName);
    ConcatTokens(s);
    ConcatTokens(b);
    if newName in Tokens(s) {
      var i :| 0 <= i < |Tokens(s)| && Tokens(s)[i] == newName;
      assert Tokens(b)[i] == oldName;
    } else {
      assert Tokens(b) == Tokens(s);
    }
  }
}
