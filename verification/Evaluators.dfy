/** Shard arithmetic: the six evaluators of ${column % n}, Go's truncated remainder, and the
    wrapping string hash. */
module Evaluators {
  import opened Bits
  import opened GoStrings
  import opened Regex
  import opened Expansion

  /** A sharding value; Other carries what %v prints. */
  datatype Value = Int(n: int) | Int64(n: int) | Str(s: string) | Other(printed: string)

  /** Panic is Go's division by zero. */
  datatype Outcome = Text(text: string) | Index(index: int) | Panic | NoAlgorithm

  // ---------- the hash ----------

  /** The base-31 polynomial of the runes, unbounded. */
  function Poly(s: string): int {
    if s == "" then 0 else 31 * Poly(s[..|s| - 1]) + s[|s| - 1] as int
  }

  function Pow31(n: nat): int {
    if n == 0 then 1 else 31 * Pow31(n - 1)
  }

  method HashString(s: string) returns (h: int)
    ensures h == Wrap64(Poly(s))
  {
    h := 0;
    for k := 0 to |s|
      invariant h == Wrap64(Poly(s[..k]))
    {
      assert s[..k + 1][..k] == s[..k];
      WrapStep(Poly(s[..k]), s[k] as int);
      h := Wrap64(31 * h + s[k] as int);
    }
    assert s[..|s|] == s;
  }

  /** Wrapping at every step or once at the end is the same. */
  lemma WrapStep(x: int, c: int)
    ensures Wrap64(31 * Wrap64(x) + c) == Wrap64(31 * x + c)
  {
    var m := 0x1_0000_0000_0000_0000;
    WrapCongruent(x);
    var k :| Wrap64(x) == x + k * m;
    WrapShift(31 * x + c, 31 * k);
  }

  lemma {:induction false} PolyConcat(a: string, b: string)
    ensures Poly(a + b) == Poly(a) * Pow31(|b|) + Poly(b)
    decreases |b|
  {
    if b == "" {
      assert a + b == a;
    } else {
      var c := b[..|b| - 1];
      PolyConcat(a, c);
      assert (a + b)[..|a + b| - 1] == a + c;
      calc {
        Poly(a + b);
        31 * (Poly(a) * Pow31(|c|) + Poly(c)) + b[|b| - 1] as int;
        Poly(a) * (31 * Pow31(|c|)) + Poly(b);
      }
    }
  }

  function HashOf(s: string): int {
    Wrap64(Poly(s))
  }

  /** Hashing a concatenation, from the hashes of its parts. */
  lemma HashConcat(a: string, b: string)
    ensures HashOf(a + b) == Wrap64(HashOf(a) * Pow31(|b|) + HashOf(b))
  {
    hide *;
    PolyConcat(a, b);
    HashUnfolds(a + b);
    HashUnfolds(a);
    HashUnfolds(b);
    WrapBoth(Poly(a), Poly(b), Pow31(|b|), HashOf(a), HashOf(b));
  }

  lemma WrapBoth(x: int, y: int, q: int, u: int, v: int)
    requires u == Wrap64(x) && v == Wrap64(y)
    ensures Wrap64(u * q + v) == Wrap64(x * q + y)
  {
    WrapCongruent(x);
    WrapCongruent(y);
    hide *;
    var i :| u == x + i * 0x1_0000_0000_0000_0000;
    var j :| v == y + j * 0x1_0000_0000_0000_0000;
    WrapMix(x, y, i, j, q);
  }

  lemma HashUnfolds(s: string)
    ensures HashOf(s) == Wrap64(Poly(s))
  {
  }

  lemma WrapMix(x: int, y: int, i: int, j: int, q: int)
    ensures Wrap64((x + i * 0x1_0000_0000_0000_0000) * q + (y + j * 0x1_0000_0000_0000_0000)) == Wrap64(x * q + y)
  {
    var m := 0x1_0000_0000_0000_0000;
    Collect(i * q, j, m);
    WrapShift(x * q + y, i * q + j);
    hide *;
  }

  lemma Collect(u: int, j: int, m: int)
    ensures u * m + j * m == (u + j) * m
  {
  }

  // ---------- the remainder ----------

  function Abs(x: int): nat {
    if x < 0 then -x else x
  }

  /** Go's %: the sign is the dividend's. */
  function GoMod(a: int, m: int): int
    requires m != 0
  {
    if a < 0 then -(-a % Abs(m)) else a % Abs(m)
  }

  lemma GoModRange(a: int, m: int)
    requires m > 0
    ensures -m < GoMod(a, m) < m
    ensures a >= 0 ==> GoMod(a, m) == a % m >= 0
    ensures exists k :: a == k * m + GoMod(a, m)
  {
    if a >= 0 {
      assert a == (a / m) * m + GoMod(a, m);
    } else {
      assert -a == (-a / m) * m + (-a % m);
      assert a == (-(-a / m)) * m + GoMod(a, m);
    }
  }

  /** The integer behind a sharding value. */
  function IntValue(v: Value): int {
    match v
    case Int(n) => n
    case Int64(n) => n
    case Str(s) => if Atoi(s).ok then Atoi(s).value else HashOf(s)
    case Other(p) => HashOf(p)
  }

  function Printed(v: Value): string {
    match v
    case Int(n) => Itoa(n)
    case Int64(n) => Itoa(n)
    case Str(s) => s
    case Other(p) => p
  }

  /** A decimal string and the number it prints shard alike. */
  lemma SameKey(k: int)
    requires INT_MIN <= k <= INT_MAX
    ensures IntValue(Str(Itoa(k))) == IntValue(Int(k)) == IntValue(Int64(k)) == k
  {
    AtoiItoa(k);
  }

  // ---------- the patterns ----------

  /** \$\{(\w+)\s*%\s*(\d+)\} and its tails */
  function ModPattern(): Re {
    Lit("${", Column())
  }

  function Column(): Re {
    Mark(Plus(Word, true, AfterColumn()))
  }

  function AfterColumn(): Re {
    Mark(Star(Space, true, Percent()))
  }

  function Percent(): Re {
    Lit("%", Star(Space, true, Modulus()))
  }

  function Modulus(): Re {
    Mark(Plus(Digit, true, Mark(Lit("}", Done))))
  }

  /** \$\{(\w+)\} */
  function SimplePattern(): Re {
    Lit("${", Mark(Plus(Word, true, Mark(Lit("}", Done)))))
  }

  function ModulusOf(e: string, marks: seq<nat>): int {
    Atoi(Group(e, Ok(marks), 2)).value
  }

  // ---------- the evaluators ----------

  function Substitute(e: string, v: Value): string {
    ReplaceAll(SimplePattern(), e, Always(Printed(v)))
  }

  /** InlineShardingStrategy.Calculate */
  function InlineCalculate(e: string, v: Value): Outcome {
    match Find(ModPattern(), e)
    case NoMatch => Text(Substitute(e, v))
    case At(_, m) =>
      var n := ModulusOf(e, m);
      if n == 0 then Panic
      else Text(Substitute(ReplaceAll(ModPattern(), e, Always(Itoa(GoMod(IntValue(v), n)))), v))
  }

  /** ModShardingStrategy.Calculate */
  function ModCalculate(modulo: int, v: Value): Outcome {
    if modulo == 0 then Panic else Text(Itoa(GoMod(IntValue(v), modulo)))
  }

  function CalculateShardingExpression(e: string, v: Value): Outcome {
    match Find(ModPattern(), e)
    case NoMatch => Text(Substitute(e, v))
    case At(_, m) =>
      var n := ModulusOf(e, m);
      if n == 0 then Panic else Index(GoMod(IntValue(v), n))
  }

  /** The configuration package's evaluator. */
  function CalculateShardingValue(e: string, v: Value): Outcome {
    match Find(ModPattern(), e)
    case NoMatch => Text(e)
    case At(_, m) =>
      var n := ModulusOf(e, m);
      if n == 0 then Panic
      else Text(ReplaceAll(ModPattern(), e, Always(Itoa(GoMod(IntValue(v), n)))))
  }

  /** The name the router makes of an expression. */
  function RoutedName(e: string, v: Value): Outcome {
    match Find(ModPattern(), e)
    case NoMatch => Text(e)
    case At(start, m) =>
      var n := ModulusOf(e, m);
      var whole := e[start..m[|m| - 1]];
      if n == 0 then Panic
      else Text(Numbered(TrimSuffix(TrimSuffix(e, whole), "$"), GoMod(IntValue(v), n)))
  }

  /** The algorithm expressions of the configuration, by algorithm name. */
  type Algorithms = map<string, string>

  function CalculateDataSource(algorithms: Algorithms, name: string, v: Value): Outcome {
    if name == "" || name !in algorithms then NoAlgorithm
    else if CalculateShardingExpression(algorithms[name], v).Panic? then Panic
    else RoutedName(algorithms[name], v)
  }

  function CalculateTable(algorithms: Algorithms, name: string, v: Value): Outcome {
    if name == "" then Text("")
    else if name !in algorithms then NoAlgorithm
    else RoutedName(algorithms[name], v)
  }

  // ---------- matching one printed expression ----------

  function ShardText(c: string, w1: string, w2: string, d: string): string {
    Front(c, w1) + Back(w2, d)
  }

  function Front(c: string, w: string): string {
    "${" + c + w
  }

  function Back(w: string, d: string): string {
    "%" + w + (d + "}")
  }

  predicate ShardParts(c: string, w1: string, w2: string, d: string) {
    WordText(c) && Blanks(w1) && Blanks(w2) && AllDigits(d)
  }

  lemma ModulusMatch(s: string, i: nat, d: string)
    requires AllDigits(d) && OccursAt(s, d, i) && OccursAt(s, "}", i + |d|)
    ensures Match(Modulus(), s, i) == Ok([i, i + |d|, i + |d| + 1])
  {
    DigitsMatch(d, "}", Done, s, i);
  }

  lemma PercentMatch(s: string, i: nat, w: string, d: string)
    requires Blanks(w) && AllDigits(d) && OccursAt(s, "%", i) && OccursAt(s, w, i + 1) && OccursAt(s, d, i + 1 + |w|)
    ensures Match(Percent(), s, i) == Match(Modulus(), s, i + 1 + |w|)
  {
    LitMatch("%", Star(Space, true, Modulus()), s, i);
    BlankRun(s, i + 1, w);
    FirstDigit(s, i + 1 + |w|, d);
    hide Modulus, OccursAt, Blanks, AllDigits;
    RunMatch(Space, Modulus(), s, i + 1, i + 1 + |w|);
  }

  /** A modulus does not begin with a space. */
  lemma BlankRun(s: string, i: nat, w: string)
    requires Blanks(w) && OccursAt(s, w, i)
    ensures forall p :: i <= p < i + |w| ==> In(Space, s[p]) && Match(Modulus(), s, p) == Fail
  {
    OccursChars(s, w, i);
    forall p | i <= p < i + |w| ensures In(Space, s[p]) && Match(Modulus(), s, p) == Fail {
      assert s[p] == w[p - i];
    }
  }

  lemma FirstDigit(s: string, i: nat, d: string)
    requires AllDigits(d) && OccursAt(s, d, i)
    ensures i < |s| && !In(Space, s[i])
  {
    OccursChars(s, d, i);
    assert s[i] == d[0];
  }

  lemma AfterColumnMatch(s: string, i: nat, w: string)
    requires Blanks(w) && OccursAt(s, w, i) && OccursAt(s, "%", i + |w|)
    ensures Match(AfterColumn(), s, i) == Note(i, Match(Percent(), s, i + |w|))
  {
    var j := i + |w|;
    OccursChars(s, w, i);
    OccursChars(s, "%", j);
    assert s[j] == '%';
    forall p | i <= p < j ensures In(Space, s[p]) && Match(Percent(), s, p) == Fail {
      assert s[p] == w[p - i];
      LitFails("%", Star(Space, true, Modulus()), s, p);
    }
    hide Percent;
    RunMatch(Space, Percent(), s, i, j);
  }

  lemma ColumnMatch(s: string, i: nat, c: string, j: nat)
    requires WordText(c) && OccursAt(s, c, i) && j == i + |c| && j < |s| && !IsWord(s[j])
    ensures Match(Column(), s, i) == Note(i, Match(AfterColumn(), s, j))
  {
    OccursChars(s, c, i);
    forall p | i <= p < j ensures In(Word, s[p]) && Match(AfterColumn(), s, p) == Fail {
      assert s[p] == c[p - i];
      InWord(s, p);
    }
    hide AfterColumn;
    RunMatch(Word, AfterColumn(), s, i + 1, j);
  }

  lemma InWord(s: string, p: nat)
    requires p < |s| && IsWord(s[p])
    ensures Match(AfterColumn(), s, p) == Fail
  {
    StarEnds(Space, true, Percent(), s, p);
    LitFails("%", Star(Space, true, Modulus()), s, p);
  }

  lemma Open(s: string, i: nat)
    requires OccursAt(s, "${", i)
    ensures Match(ModPattern(), s, i) == Match(Column(), s, i + 2)
  {
    LitMatch("${", Column(), s, i);
  }

  /** Where the pieces lie. */
  lemma ShardPieces(s: string, i: nat, c: string, w1: string, w2: string, d: string)
    requires OccursAt(s, ShardText(c, w1, w2, d), i)
    ensures var j := i + 2 + |c| + |w1|;
      && OccursAt(s, "${", i) && OccursAt(s, c, i + 2) && OccursAt(s, w1, i + 2 + |c|) && OccursAt(s, "%", j)
      && OccursAt(s, w2, j + 1) && OccursAt(s, d, j + 1 + |w2|) && OccursAt(s, "}", j + 1 + |w2| + |d|)
  {
    hide OccursAt;
    ThreeParts(Front(c, w1), Back(w2, d), "");
    assert Front(c, w1) + Back(w2, d) + "" == ShardText(c, w1, w2, d);
    SubOccurs(s, ShardText(c, w1, w2, d), i, 0, Front(c, w1));
    SubOccurs(s, ShardText(c, w1, w2, d), i, |Front(c, w1)|, Back(w2, d));
    FrontPieces(s, i, c, w1);
    BackPieces(s, i + 2 + |c| + |w1|, w2, d);
  }

  lemma FrontPieces(s: string, i: nat, c: string, w: string)
    requires OccursAt(s, Front(c, w), i)
    ensures |Front(c, w)| == 2 + |c| + |w|
    ensures OccursAt(s, "${", i) && OccursAt(s, c, i + 2) && OccursAt(s, w, i + 2 + |c|)
  {
    hide OccursAt;
    ThreeParts("${", c, w);
    SubOccurs(s, Front(c, w), i, 0, "${");
    SubOccurs(s, Front(c, w), i, 2, c);
    SubOccurs(s, Front(c, w), i, 2 + |c|, w);
  }

  lemma BackPieces(s: string, j: nat, w: string, d: string)
    requires OccursAt(s, Back(w, d), j)
    ensures OccursAt(s, "%", j) && OccursAt(s, w, j + 1) && OccursAt(s, d, j + 1 + |w|)
    ensures OccursAt(s, "}", j + 1 + |w| + |d|)
  {
    hide OccursAt;
    ThreeParts("%", w, d + "}");
    ThreeParts(d, "}", "");
    assert d + "}" + "" == d + "}";
    SubOccurs(s, Back(w, d), j, 0, "%");
    SubOccurs(s, Back(w, d), j, 1, w);
    SubOccurs(s, Back(w, d), j, 1 + |w|, d + "}");
    SubOccurs(s, d + "}", j + 1 + |w|, 0, d);
    SubOccurs(s, d + "}", j + 1 + |w|, |d|, "}");
  }

  lemma AfterWord(s: string, j: nat, w: string)
    requires Blanks(w) && OccursAt(s, w, j) && OccursAt(s, "%", j + |w|)
    ensures j < |s| && !IsWord(s[j])
  {
    OccursChars(s, w, j);
    OccursChars(s, "%", j + |w|);
    assert s[j] == if w == "" then '%' else w[0];
  }

  lemma ShardMatch(s: string, i: nat, c: string, w1: string, w2: string, d: string, g: nat)
    requires ShardParts(c, w1, w2, d) && OccursAt(s, ShardText(c, w1, w2, d), i)
    requires g == i + 2 + |c| + |w1| + 1 + |w2|
    ensures Match(ModPattern(), s, i) == Ok([i + 2, i + 2 + |c|, g, g + |d|, g + |d| + 1])
    ensures OccursAt(s, d, g) && g + |d| + 1 == i + |ShardText(c, w1, w2, d)|
  {
    TextLength(c, w1, w2, d);
    hide *;
    Unfold(c, w1, w2, d);
    ShardPieces(s, i, c, w1, w2, d);
    Open(s, i);
    AfterWord(s, i + 2 + |c|, w1);
    ColumnMatch(s, i + 2, c, i + 2 + |c|);
    AfterColumnMatch(s, i + 2 + |c|, w1);
    PercentMatch(s, i + 2 + |c| + |w1|, w2, d);
    ModulusMatch(s, g, d);
    TwoNotes(i + 2, i + 2 + |c|, [g, g + |d|, g + |d| + 1]);
  }

  lemma TextLength(c: string, w1: string, w2: string, d: string)
    ensures |ShardText(c, w1, w2, d)| == 4 + |c| + |w1| + |w2| + |d|
  {
  }

  lemma Unfold(c: string, w1: string, w2: string, d: string)
    requires ShardParts(c, w1, w2, d)
    ensures WordText(c) && Blanks(w1) && Blanks(w2) && AllDigits(d)
  {
  }

  lemma TwoNotes(i: nat, j: nat, m: seq<nat>)
    requires |m| == 3
    ensures Note(i, Note(j, Ok(m))) == Ok([i, j, m[0], m[1], m[2]])
  {
  }

  lemma NoDollarNoMatch(s: string, q: nat)
    requires q <= |s| && (q < |s| ==> s[q] != '$')
    ensures Match(ModPattern(), s, q) == Fail && Match(SimplePattern(), s, q) == Fail
  {
    LitFails("${", Column(), s, q);
    LitFails("${", Mark(Plus(Word, true, Mark(Lit("}", Done)))), s, q);
  }

  lemma FindShard(s: string, x: nat, r: seq<nat>)
    requires x < |s| && Match(ModPattern(), s, x) == Ok(r) && forall q: nat :: q < x ==> !OccursAt(s, "${", q)
    ensures Find(ModPattern(), s) == At(x, r)
  {
    forall q | 0 <= q < x ensures Match(ModPattern(), s, q) == Fail {
      LitMatch("${", Column(), s, q);
    }
    hide ModPattern;
    FindSkips(ModPattern(), s, 0, x);
  }

  /** The first placeholder is replaced, and every later one in the text z after it. */
  lemma ReplaceShard(p: string, t: string, z: string, s: string, r: seq<nat>, i: string)
    requires s == p + t + z && t != "" && Match(ModPattern(), s, |p|) == Ok(r) && |r| > 0 && r[|r| - 1] == |p| + |t|
    requires forall q: nat :: q < |p| ==> !OccursAt(s, "${", q)
    ensures ReplaceAll(ModPattern(), s, Always(i)) == p + i + ReplaceAll(ModPattern(), z, Always(i))
  {
    hide *;
    var re, x, y := ModPattern(), |p|, |p| + |t|;
    forall q | 0 <= q < x ensures Match(re, s, q) == Fail { NoMarker(s, q); }
    ModLocal();
    ReplaceCopies(re, s, 0, x, Always(i));
    HitTo(re, s, x, y, r, i);
    ReplaceMoves(re, p + t, z, 0, i);
    AllFrom(re, s, i);
    AllFrom(re, z, i);
    assert s[0..x] == p;
    Grouped(p, i, ReplaceFrom(re, z, 0, Always(i)));
  }

  lemma NoMarker(s: string, q: nat)
    requires q <= |s| && !OccursAt(s, "${", q)
    ensures Match(ModPattern(), s, q) == Fail
  {
    LitMatch("${", Column(), s, q);
  }

  lemma HitTo(re: Re, s: string, x: nat, y: nat, r: seq<nat>, i: string)
    requires x < y <= |s| && Match(re, s, x) == Ok(r) && |r| > 0 && r[|r| - 1] == y
    ensures ReplaceFrom(re, s, x, Always(i)) == i + ReplaceFrom(re, s, y, Always(i))
  {
    hide Match, ReplaceFrom;
    ReplaceHit(re, s, x, y, Always(i));
  }

  lemma AllFrom(re: Re, s: string, i: string)
    ensures ReplaceAll(re, s, Always(i)) == ReplaceFrom(re, s, 0, Always(i))
  {
  }

  lemma Grouped(a: string, b: string, c: string)
    ensures a + (b + c) == a + b + c
  {
  }

  lemma ModLocal()
    ensures Local(ModPattern())
  {
  }

  lemma NoMod(z: string, i: string)
    requires '$' !in z
    ensures ReplaceAll(ModPattern(), z, Always(i)) == z
  {
    hide SimplePattern, ModPattern;
    forall q | 0 <= q <= |z| ensures Match(ModPattern(), z, q) == Fail {
      NoDollarNoMatch(z, q);
    }
    ReplaceNone(ModPattern(), z, Always(i));
  }

  lemma NoSimple(s: string, v: Value)
    requires '$' !in s
    ensures Substitute(s, v) == s
  {
    hide SimplePattern, ModPattern;
    forall q | 0 <= q <= |s| ensures Match(SimplePattern(), s, q) == Fail {
      NoDollarNoMatch(s, q);
    }
    ReplaceNone(SimplePattern(), s, Always(Printed(v)));
  }

  lemma ItoaPlain(n: int)
    ensures '$' !in Itoa(n) && '_' !in Itoa(n)
  {
  }

  /** The prefix that is left when the expression is trimmed away. */
  lemma TrimmedPrefix(p: string, t: string, z: string, s: string)
    requires s == p + t + z && t != "" && t[0] == '$' && forall q :: 0 <= q < |s| && q != |p| ==> s[q] != '$'
    ensures TrimSuffix(TrimSuffix(s, t), "$") == if z == "" then p else s
  {
    hide TrimSuffix;
    if z == "" {
      assert s == p + t;
      SuffixCut(p, t);
      assert p != "" ==> p[|p| - 1] == s[|p| - 1];
      SuffixKept(p, "$");
    } else {
      SuffixKept(s, t);
      SuffixKept(s, "$");
    }
  }

  lemma SuffixCut(p: string, t: string)
    ensures TrimSuffix(p + t, t) == p
  {
  }

  lemma SuffixKept(s: string, t: string)
    requires t != "" && (|t| <= |s| ==> s[|s| - |t|] != t[0])
    ensures TrimSuffix(s, t) == s
  {
    if |t| <= |s| { assert s[|s| - |t|..][0] == s[|s| - |t|]; }
  }

  /** What the pattern finds when ${c % d} is at x and no "${" before it. */
  lemma ShardFound(s: string, x: nat, c: string, w1: string, w2: string, d: string, r: seq<nat>, g: nat)
    requires ShardParts(c, w1, w2, d) && OccursAt(s, ShardText(c, w1, w2, d), x)
    requires forall q: nat :: q < x ==> !OccursAt(s, "${", q)
    requires g == x + 3 + |c| + |w1| + |w2| && r == [x + 2, x + 2 + |c|, g, g + |d|, g + |d| + 1]
    ensures Match(ModPattern(), s, x) == Ok(r) && Find(ModPattern(), s) == At(x, r)
    ensures ModulusOf(s, r) == Atoi(d).value && g + |d| + 1 == x + |ShardText(c, w1, w2, d)| <= |s|
  {
    TextLength(c, w1, w2, d);
    TextFits(s, ShardText(c, w1, w2, d), x);
    hide *;
    ShardMatch(s, x, c, w1, w2, d, g);
    FindShard(s, x, r);
    GroupIs(s, Ok(r), 2, g, d);
  }

  /** All evaluators of p${c % d}z use the same truncated remainder i, in (-n, n) and nonnegative
      for a nonnegative key; they panic together when the modulus is 0. Further placeholders in z
      get the index of the first one, whatever their own modulus. */
  lemma OneIndex(p: string, c: string, w1: string, w2: string, d: string, z: string, s: string, v: Value, n: int)
    requires ShardParts(c, w1, w2, d) && s == p + ShardText(c, w1, w2, d) + z && n == Atoi(d).value
    requires forall q: nat :: q < |p| ==> !OccursAt(s, "${", q)
    ensures n >= 0
    ensures n == 0 ==> InlineCalculate(s, v) == ModCalculate(n, v) == CalculateShardingExpression(s, v) == Panic
    ensures n == 0 ==> CalculateShardingValue(s, v) == RoutedName(s, v) == Panic
    ensures n > 0 ==> var i := GoMod(IntValue(v), n);
      var text := p + Itoa(i) + ReplaceAll(ModPattern(), z, Always(Itoa(i)));
      && -n < i < n && (IntValue(v) >= 0 ==> i == IntValue(v) % n >= 0)
      && CalculateShardingExpression(s, v) == Index(i) && ModCalculate(n, v) == Text(Itoa(i))
      && CalculateShardingValue(s, v) == Text(text) && InlineCalculate(s, v) == Text(Substitute(text, v))
      && RoutedName(s, v) == Text(Numbered(TrimSuffix(TrimSuffix(s, ShardText(c, w1, w2, d)), "$"), i))
  {
    var t, g := ShardText(c, w1, w2, d), |p| + 3 + |c| + |w1| + |w2|;
    var r := [|p| + 2, |p| + 2 + |c|, g, g + |d|, g + |d| + 1];
    ShardFound(s, |p|, c, w1, w2, d, r, g);
    AtoiDigits(d);
    assert t[0] == '$';
    assert s[|p|..|p| + |t|] == t;
    hide ModPattern, SimplePattern, ShardText, Find, Match, ModulusOf, Atoi, GoMod, ReplaceAll;
    hide Itoa, Substitute, TrimSuffix, IntValue, Numbered, OccursAt;
    if n > 0 {
      GoModRange(IntValue(v), n);
      ReplaceShard(p, t, z, s, r, Itoa(GoMod(IntValue(v), n)));
    }
  }

  /** With one placeholder and no other '$' the router's names append the index to the prefix, or to
      the whole expression when something follows the placeholder. */
  lemma OnePlaceholder(p: string, c: string, w1: string, w2: string, d: string, z: string, s: string, v: Value, n: int)
    requires ShardParts(c, w1, w2, d) && s == p + ShardText(c, w1, w2, d) + z && n == Atoi(d).value
    requires '$' !in p && '$' !in z
    ensures n >= 0
    ensures n == 0 ==> InlineCalculate(s, v) == RoutedName(s, v) == CalculateShardingExpression(s, v) == Panic
    ensures n > 0 ==> var i := GoMod(IntValue(v), n);
      && CalculateShardingExpression(s, v) == Index(i)
      && InlineCalculate(s, v) == CalculateShardingValue(s, v) == Text(p + Itoa(i) + z)
      && RoutedName(s, v) == Text(Numbered(if z == "" then p else s, i))
  {
    var t := ShardText(c, w1, w2, d);
    assert t[0] == '$';
    FirstDollar(p, t, z, s);
    hide ModPattern, SimplePattern, ShardText, Atoi, GoMod, ReplaceAll, RoutedName, InlineCalculate;
    hide CalculateShardingValue, CalculateShardingExpression, Itoa, Substitute, TrimSuffix, IntValue;
    hide Numbered, OccursAt;
    OneIndex(p, c, w1, w2, d, z, s, v, n);
    if n > 0 {
      var i := GoMod(IntValue(v), n);
      NoMod(z, Itoa(i));
      ItoaPlain(i);
      NoSimple(p + Itoa(i) + z, v);
      OnlyDollar(p, c, w1, w2, d, z, s);
      TrimmedPrefix(p, t, z, s);
    }
  }

  lemma FirstDollar(p: string, t: string, z: string, s: string)
    requires '$' !in p && s == p + t + z
    ensures forall q: nat :: q < |p| ==> !OccursAt(s, "${", q)
  {
    forall q: nat | q < |p| ensures !OccursAt(s, "${", q) {
      OccursChars(s, "${", q);
      assert s[q] == p[q];
    }
  }

  lemma OnlyDollar(p: string, c: string, w1: string, w2: string, d: string, z: string, s: string)
    requires ShardParts(c, w1, w2, d) && '$' !in p && '$' !in z && s == p + ShardText(c, w1, w2, d) + z
    ensures forall q :: 0 <= q < |s| && q != |p| ==> s[q] != '$'
  {
    var t := ShardText(c, w1, w2, d);
    forall q | 0 < q < |t| ensures t[q] != '$' {
      assert t == "${" + c + w1 + "%" + w2 + d + "}";
    }
    forall q | 0 <= q < |s| && q != |p| ensures s[q] != '$' {
      assert s[q] == if q < |p| then p[q] else if q < |p| + |t| then t[q - |p|] else z[q - |p| - |t|];
    }
    hide ShardText;
  }

  lemma AtoiDigits(d: string)
    requires AllDigits(d)
    ensures Atoi(d).value >= 0
  {
    DigitsNat(d);
    assert IsDigit(d[0]);
  }

  lemma {:induction false} DigitsNat(d: string)
    requires forall i :: 0 <= i < |d| ==> IsDigit(d[i])
    ensures Digits(d) >= 0
  {
    if d != "" { DigitsNat(d[..|d| - 1]); }
  }

  /** The router's table name of p${c % n} is the inline result of p_${c % n}. */
  lemma TableIsInline(p: string, c: string, w1: string, w2: string, d: string, v: Value, algorithms: Algorithms,
                      name: string)
    requires ShardParts(c, w1, w2, d) && '$' !in p
    requires name != "" && name in algorithms && algorithms[name] == p + ShardText(c, w1, w2, d)
    ensures CalculateTable(algorithms, name, v) == CalculateDataSource(algorithms, name, v)
         == InlineCalculate(p + "_" + ShardText(c, w1, w2, d), v)
  {
    hide *;
    var t, n := ShardText(c, w1, w2, d), Atoi(d).value;
    assert p + t + "" == p + t && p + "_" + t + "" == p + "_" + t;
    assert '$' !in p + "_";
    OnePlaceholder(p, c, w1, w2, d, "", p + t, v, n);
    OnePlaceholder(p + "_", c, w1, w2, d, "", p + "_" + t, v, n);
    CalculateIs(algorithms, name, v);
    NumberedIs(p);
  }

  lemma CalculateIs(algorithms: Algorithms, name: string, v: Value)
    requires name != "" && name in algorithms
    ensures CalculateTable(algorithms, name, v) == RoutedName(algorithms[name], v)
    ensures CalculateDataSource(algorithms, name, v)
         == if CalculateShardingExpression(algorithms[name], v).Panic? then Panic else RoutedName(algorithms[name], v)
  {
    hide RoutedName, CalculateShardingExpression;
  }

  lemma NumberedIs(p: string)
    ensures forall i :: p + "_" + Itoa(i) + "" == Numbered(p, i)
  {
    hide Itoa;
  }

  /** Without "${" nothing is evaluated: the expression itself is the name. */
  lemma Verbatim(e: string, v: Value)
    requires forall j: nat :: !OccursAt(e, "${", j)
    ensures RoutedName(e, v) ==
      CalculateShardingValue(e, v) == CalculateShardingExpression(e, v) == InlineCalculate(e, v) == Text(e)
  {
    PatternsNeed();
    hide ModPattern, SimplePattern;
    forall j | 0 <= j <= |e| ensures Match(ModPattern(), e, j) == Fail && Match(SimplePattern(), e, j) == Fail {
      NeedsFails(ModPattern(), "${", e, j);
      NeedsFails(SimplePattern(), "${", e, j);
    }
    FindNone(ModPattern(), e, 0);
    ReplaceNone(SimplePattern(), e, Always(Printed(v)));
  }

  lemma PatternsNeed()
    ensures Needs(ModPattern(), "${") && Needs(SimplePattern(), "${")
  {
    StartsLit("${", Column());
    StartsLit("${", Mark(Plus(Word, true, Mark(Lit("}", Done)))));
  }

  /** The shipped configuration's spelling p$->{...} is taken verbatim for every key. */
  lemma ArrowIsVerbatim(p: string, q: string, v: Value)
    requires '$' !in p && '$' !in q
    ensures RoutedName(p + "$->" + q, v) == Text(p + "$->" + q)
  {
    var e := p + "$->" + q;
    forall j: nat ensures !OccursAt(e, "${", j) {
      OccursChars(e, "${", j);
      if j + 2 <= |e| { ArrowAt(p, q, e, j); }
    }
    Verbatim(e, v);
  }

  lemma ArrowAt(p: string, q: string, e: string, j: nat)
    requires '$' !in p && '$' !in q && e == p + "$->" + q && j + 2 <= |e|
    ensures !(e[j] == '$' && e[j + 1] == '{')
  {
    assert j < |p| ==> e[j] == p[j];
    assert j == |p| ==> e[j + 1] == '-';
    assert j >= |p| + 3 ==> e[j] == q[j - |p| - 3];
  }

  // ---------- when a routed name is a node's name ----------

  lemma NumberedUnique(p: string, i: int, q: string, j: int)
    requires Numbered(p, i) == Numbered(q, j)
    ensures p == q && i == j
  {
    ItoaPlain(i);
    ItoaPlain(j);
    hide Itoa;
    LastUnderscore(p, Itoa(i), q, Itoa(j), Numbered(p, i));
    ItoaInjective(i, j);
  }

  lemma LastUnderscore(p: string, x: string, q: string, y: string, s: string)
    requires s == p + "_" + x == q + "_" + y && '_' !in x && '_' !in y
    ensures p == q && x == y
  {
    assert s[|p|] == '_' && s[|q|] == '_';
    assert forall k :: |p| < k < |s| ==> s[k] == x[k - |p| - 1];
    assert forall k :: |q| < k < |s| ==> s[k] == y[k - |q| - 1];
    assert |p| == |q|;
    assert s[..|p|] == p && s[..|q|] == q;
    assert s[|p| + 1..] == x && s[|q| + 1..] == y;
  }

  /** The router's name of p${c % n} is one of the names q_a .. q_b exactly when p is q and the
      index is in the range; so a prefix that already ends in '_' never names a node of q's. */
  lemma RoutedNameIsNode(p: string, i: int, q: string, a: int, b: int)
    ensures Numbered(p, i) in Names(q, a, b) <==> p == q && a <= i <= b
  {
    if Numbered(p, i) in Names(q, a, b) {
      var k :| 0 <= k < |Names(q, a, b)| && Names(q, a, b)[k] == Numbered(p, i);
      NumberedUnique(p, i, q, a + k);
    }
    if p == q && a <= i <= b {
      assert Names(q, a, b)[i - a] == Numbered(p, i);
    }
  }
}
