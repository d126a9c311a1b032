/** The parts of Go's strings and strconv packages that the router uses, on strings of runes. */
module GoStrings {

  /** unicode.IsSpace */
  predicate IsSpace(c: char) {
    var n := c as int;
    9 <= n <= 13 || n == 0x20 || n == 0x85 || n == 0xA0 || n == 0x1680 || 0x2000 <= n <= 0x200a
    || n == 0x2028 || n == 0x2029 || n == 0x202f || n == 0x205f || n == 0x3000
  }

  predicate IsDigit(c: char) {
    '0' <= c <= '9'
  }

  /** The class \w of Go's regular expressions, which is ASCII. */
  predicate IsWord(c: char) {
    IsDigit(c) || 'a' <= c <= 'z' || 'A' <= c <= 'Z' || c == '_'
  }

  predicate WordText(c: string) {
    c != "" && forall i :: 0 <= i < |c| ==> IsWord(c[i])
  }

  predicate AllSpace(w: string) {
    forall i :: 0 <= i < |w| ==> IsSpace(w[i])
  }

  /** Not empty, and no space at either end. */
  predicate Solid(t: string) {
    t != "" && !IsSpace(t[0]) && !IsSpace(t[|t| - 1])
  }

  function Upper(c: char): char {
    if 'a' <= c <= 'z' then c - 'a' + 'A' else c
  }

  /** strings.ToUpper on ASCII letters; other runes are left alone. */
  function ToUpper(s: string): (r: string)
    ensures |r| == |s|
    ensures forall i :: 0 <= i < |s| ==> r[i] == Upper(s[i])
  {
    seq(|s|, i requires 0 <= i < |s| => Upper(s[i]))
  }

  predicate HasPrefix(s: string, p: string) {
    p <= s
  }

  predicate HasSuffix(s: string, p: string) {
    |p| <= |s| && s[|s| - |p|..] == p
  }

  function TrimSuffix(s: string, p: string): string {
    if HasSuffix(s, p) then s[..|s| - |p|] else s
  }

  /** p occurs in s at i. */
  predicate OccursAt(s: string, p: string, i: nat) {
    i + |p| <= |s| && s[i..i + |p|] == p
  }

  lemma OccursChars(s: string, p: string, i: nat)
    ensures OccursAt(s, p, i) <==> i + |p| <= |s| && forall q :: i <= q < i + |p| ==> s[q] == p[q - i]
  {
    if i + |p| <= |s| {
      assert forall q :: i <= q < i + |p| ==> s[i..i + |p|][q - i] == s[q];
    }
  }

  lemma TextFits(s: string, t: string, x: nat)
    requires OccursAt(s, t, x)
    ensures x + |t| <= |s|
  {
  }

  /** A part of an occurrence. */
  lemma SubOccurs(s: string, t: string, i: nat, lo: nat, p: string)
    requires OccursAt(s, t, i) && OccursAt(t, p, lo)
    ensures OccursAt(s, p, i + lo)
  {
    OccursChars(s, t, i);
    OccursChars(t, p, lo);
    OccursChars(s, p, i + lo);
    forall q | i + lo <= q < i + lo + |p| ensures s[q] == p[q - i - lo] {
      assert s[q] == t[q - i];
    }
  }

  lemma ThreeParts(x: string, y: string, z: string)
    ensures OccursAt(x + y + z, x, 0) && OccursAt(x + y + z, y, |x|) && OccursAt(x + y + z, z, |x| + |y|)
  {
  }

  /** The first place at or after i where p occurs, or -1. */
  function IndexFrom(s: string, p: string, i: nat): (r: int)
    requires i <= |s|
    ensures -1 <= r
    ensures r >= 0 ==> i <= r && OccursAt(s, p, r)
    ensures r >= 0 ==> forall j :: i <= j < r ==> !OccursAt(s, p, j)
    ensures r < 0 ==> forall j :: i <= j ==> !OccursAt(s, p, j)
    decreases |s| - i
  {
    if OccursAt(s, p, i) then i else if i == |s| then -1 else IndexFrom(s, p, i + 1)
  }

  function Index(s: string, p: string): (r: int)
    ensures -1 <= r
    ensures r >= 0 ==> OccursAt(s, p, r) && forall j :: 0 <= j < r ==> !OccursAt(s, p, j)
    ensures r < 0 ==> forall j: nat :: !OccursAt(s, p, j)
  {
    IndexFrom(s, p, 0)
  }

  lemma InPart(g: string, x: string, t: string, kw: string, j: nat)
    requires |g| <= j && j + |kw| <= |g| + |x| && |t| >= |g| + |x| && t[|g|..|g| + |x|] == x
    ensures OccursAt(t, kw, j) ==> OccursAt(x, kw, j - |g|)
  {
    OccursChars(t, kw, j);
    OccursChars(x, kw, j - |g|);
    forall q | j <= q < j + |kw| ensures t[q] == x[q - |g|] {
      assert t[q] == t[|g|..|g| + |x|][q - |g|];
    }
  }

  lemma CharOf(t: string, kw: string, j: nat, y: nat)
    requires j <= y < j + |kw|
    ensures OccursAt(t, kw, j) ==> y < |t| && t[y] == kw[y - j]
  {
    OccursChars(t, kw, j);
  }

  ghost predicate NoneOf(t: string, keywords: seq<string>) {
    forall k, j: nat :: 0 <= k < |keywords| ==> !OccursAt(t, keywords[k], j)
  }

  lemma UpperSpaces(w: string)
    requires AllSpace(w)
    ensures ToUpper(w) == w
  {
    forall i | 0 <= i < |w| ensures Upper(w[i]) == w[i] {
      assert IsSpace(w[i]);
    }
  }

  lemma UpperConcat(a: string, b: string)
    ensures ToUpper(a + b) == ToUpper(a) + ToUpper(b)
  {
  }

  lemma IndexIs(s: string, p: string, i: nat)
    requires OccursAt(s, p, i) && forall j :: 0 <= j < i ==> !OccursAt(s, p, j)
    ensures Index(s, p) == i
  {
  }

  /** s without the leading runes for which f holds. */
  function TrimLeftFunc(s: string, f: char -> bool): string {
    if s != "" && f(s[0]) then TrimLeftFunc(s[1..], f) else s
  }

  function TrimRightFunc(s: string, f: char -> bool): string {
    if s != "" && f(s[|s| - 1]) then TrimRightFunc(s[..|s| - 1], f) else s
  }

  function TrimFunc(s: string, f: char -> bool): string {
    TrimRightFunc(TrimLeftFunc(s, f), f)
  }

  function TrimSpace(s: string): string {
    TrimFunc(s, IsSpace)
  }

  function OneOf(cutset: string): char -> bool {
    c => c in cutset
  }

  /** strings.Trim(s, cutset) */
  function Trim(s: string, cutset: string): string {
    TrimFunc(s, OneOf(cutset))
  }

  function TrimRight(s: string, cutset: string): string {
    TrimRightFunc(s, OneOf(cutset))
  }

  lemma TrimNothing(s: string, f: char -> bool)
    requires s == "" || (!f(s[0]) && !f(s[|s| - 1]))
    ensures TrimFunc(s, f) == s
  {
  }

  lemma {:induction false} TrimLeftSkips(a: string, s: string, f: char -> bool)
    requires forall i :: 0 <= i < |a| ==> f(a[i])
    requires s == "" || !f(s[0])
    ensures TrimLeftFunc(a + s, f) == s
  {
    if a == "" {
      assert a + s == s;
    } else {
      assert (a + s)[1..] == a[1..] + s;
      TrimLeftSkips(a[1..], s, f);
    }
  }

  lemma {:induction false} TrimRightSkips(s: string, b: string, f: char -> bool)
    requires forall i :: 0 <= i < |b| ==> f(b[i])
    requires s == "" || !f(s[|s| - 1])
    ensures TrimRightFunc(s + b, f) == s
    decreases |b|
  {
    if b == "" {
      assert s + b == s;
    } else {
      assert (s + b)[..|s + b| - 1] == s + b[..|b| - 1];
      TrimRightSkips(s, b[..|b| - 1], f);
    }
  }

  /** Trimming the end of w goes no further than a core before it. */
  lemma {:induction false} TrimRightPast(c: string, w: string, f: char -> bool)
    requires c != "" && !f(c[|c| - 1])
    ensures TrimRightFunc(c + w, f) == c + TrimRightFunc(w, f)
    decreases |w|
  {
    if w == "" {
      assert c + w == c;
    } else if f(w[|w| - 1]) {
      assert (c + w)[..|c + w| - 1] == c + w[..|w| - 1];
      TrimRightPast(c, w[..|w| - 1], f);
    }
  }

  /** Which part of a text trimming leaves. */
  lemma {:induction false} TrimRightSlice(s: string, f: char -> bool) returns (j: nat)
    ensures j <= |s| && TrimRightFunc(s, f) == s[..j] && forall q :: j <= q < |s| ==> f(s[q])
    ensures j == 0 || !f(s[j - 1])
  {
    j := |s|;
    if s == "" || !f(s[|s| - 1]) {
      assert s[..|s|] == s;
    } else {
      j := TrimRightSlice(s[..|s| - 1], f);
      assert s[..|s| - 1][..j] == s[..j];
    }
  }

  lemma {:induction false} TrimLeftSlice(s: string, f: char -> bool) returns (i: nat)
    ensures i <= |s| && TrimLeftFunc(s, f) == s[i..] && forall q :: 0 <= q < i ==> f(s[q])
    ensures i == |s| || !f(s[i])
  {
    i := 0;
    if s != "" && f(s[0]) {
      var k := TrimLeftSlice(s[1..], f);
      i := k + 1;
      assert s[1..][k..] == s[i..];
    }
  }

  lemma TrimSlice(s: string, f: char -> bool) returns (i: nat, j: nat)
    ensures i <= j <= |s| && TrimFunc(s, f) == s[i..j]
    ensures (forall q :: 0 <= q < i ==> f(s[q])) && forall q :: j <= q < |s| ==> f(s[q])
    ensures i == j || (!f(s[i]) && !f(s[j - 1]))
  {
    i := TrimLeftSlice(s, f);
    var k := TrimRightSlice(s[i..], f);
    j := i + k;
    assert s[i..][..k] == s[i..j];
    assert forall q :: j <= q < |s| ==> s[q] == s[i..][q - i];
  }

  lemma TrimsAway(s: string, f: char -> bool)
    ensures TrimRightFunc(s, f) == "" <==> forall q :: 0 <= q < |s| ==> f(s[q])
  {
    var j := TrimRightSlice(s, f);
  }

  /** What trimming leaves neither begins nor ends in a trimmed rune. */
  predicate Edge(v: string, f: char -> bool) {
    v == "" || (!f(v[0]) && !f(v[|v| - 1]))
  }

  lemma {:induction false} TrimLeftEdge(s: string, f: char -> bool)
    ensures TrimLeftFunc(s, f) == "" || !f(TrimLeftFunc(s, f)[0])
  {
    if s != "" { TrimLeftEdge(s[1..], f); }
  }

  lemma {:induction false} TrimRightEdge(s: string, f: char -> bool)
    requires s == "" || !f(s[0])
    ensures Edge(TrimRightFunc(s, f), f)
  {
    if s != "" && f(s[|s| - 1]) { TrimRightEdge(s[..|s| - 1], f); }
  }

  lemma TrimEdge(s: string, f: char -> bool)
    ensures Edge(TrimFunc(s, f), f)
  {
    TrimLeftEdge(s, f);
    TrimRightEdge(TrimLeftFunc(s, f), f);
  }

  /** Trimming a core that neither begins nor ends in a trimmed rune. */
  lemma TrimCore(a: string, s: string, b: string, f: char -> bool)
    requires forall i :: 0 <= i < |a| ==> f(a[i])
    requires forall i :: 0 <= i < |b| ==> f(b[i])
    requires s != "" && !f(s[0]) && !f(s[|s| - 1])
    ensures TrimFunc(a + s + b, f) == s
  {
    assert a + s + b == a + (s + b);
    TrimLeftSkips(a, s + b, f);
    TrimRightSkips(s, b, f);
  }

  lemma TrimSolid(t: string)
    requires Solid(t)
    ensures TrimSpace(t) == t
  {
    TrimNothing(t, IsSpace);
  }

  lemma TrimLead(b: string, t: string)
    requires AllSpace(b) && Solid(t)
    ensures TrimSpace(b + t) == t
  {
    TrimCore(b, t, "", IsSpace);
    assert b + t + "" == b + t;
  }

  /** Trimming a text around its core. */
  lemma TrimAround(lead: string, c: string, w: string)
    requires AllSpace(lead) && Solid(c)
    ensures TrimSpace(lead + c + w) == c + TrimRightFunc(w, IsSpace)
  {
    assert lead + c + w == lead + (c + w) && (c + w)[0] == c[0];
    TrimLeftSkips(lead, c + w, IsSpace);
    TrimRightPast(c, w, IsSpace);
  }

  /** Trimming the end first changes nothing. */
  lemma TrimTail(post: string)
    ensures TrimSpace(TrimRightFunc(post, IsSpace)) == TrimSpace(post)
  {
    var i, j := TrimSlice(post, IsSpace);
    var lead, core, w := post[..i], post[i..j], post[j..];
    if i == j {
      assert post == "" + post;
      TrimRightSkips("", post, IsSpace);
    } else {
      assert post == lead + core + w;
      TrimRightSkips(lead + core, w, IsSpace);
      TrimLead(lead, core);
    }
  }

  /** The end of the run of non-space runes that starts at i. */
  function FieldEnd(s: string, i: nat): (r: nat)
    requires i <= |s|
    ensures i <= r <= |s|
    ensures forall j :: i <= j < r ==> !IsSpace(s[j])
    ensures r < |s| ==> IsSpace(s[r])
    decreases |s| - i
  {
    if i == |s| || IsSpace(s[i]) then i else FieldEnd(s, i + 1)
  }

  /** strings.Fields(s)[0], or "" when there is no field. */
  function FirstField(s: string): string {
    var t := TrimLeftFunc(s, IsSpace);
    t[..FieldEnd(t, 0)]
  }

  // ---------- numbers ----------

  const INT_MAX: int := 0x7fff_ffff_ffff_ffff
  const INT_MIN: int := -0x8000_0000_0000_0000

  function DigitOf(d: int): char
    requires 0 <= d < 10
  {
    '0' + d as char
  }

  function ValueOf(c: char): int {
    c as int - '0' as int
  }

  function Decimal(n: nat): (s: string)
    ensures s != ""
    ensures forall i :: 0 <= i < |s| ==> IsDigit(s[i])
  {
    if n < 10 then [DigitOf(n)] else Decimal(n / 10) + [DigitOf(n % 10)]
  }

  /** strconv.Itoa */
  function Itoa(n: int): (s: string)
    ensures s != ""
  {
    if n < 0 then "-" + Decimal(-n) else Decimal(n)
  }

  /** The number a string of digits denotes. */
  function Digits(s: string): int {
    if s == "" then 0 else 10 * Digits(s[..|s| - 1]) + ValueOf(s[|s| - 1])
  }

  predicate AllDigits(s: string) {
    s != "" && forall i :: 0 <= i < |s| ==> IsDigit(s[i])
  }

  datatype Number = Number(value: int, ok: bool)

  /** strconv.Atoi: an optional sign and digits; out of range gives the nearest int64 and an
      error, anything else gives 0 and an error. */
  function Atoi(s: string): Number {
    var body := if s != "" && (s[0] == '-' || s[0] == '+') then s[1..] else s;
    if !AllDigits(body) then Number(0, false)
    else
      var n := if s[0] == '-' then -Digits(body) else Digits(body);
      if n > INT_MAX then Number(INT_MAX, false)
      else if n < INT_MIN then Number(INT_MIN, false)
      else Number(n, true)
  }

  lemma {:induction false} DecimalDigits(n: nat)
    ensures Digits(Decimal(n)) == n
  {
    if n < 10 {
      assert Decimal(n)[..0] == "";
    } else {
      DecimalDigits(n / 10);
      assert Decimal(n)[..|Decimal(n)| - 1] == Decimal(n / 10);
    }
  }

  lemma AtoiItoa(n: int)
    requires INT_MIN <= n <= INT_MAX
    ensures Atoi(Itoa(n)) == Number(n, true)
  {
    if n < 0 {
      DecimalDigits(-n);
      assert Itoa(n)[1..] == Decimal(-n);
    } else {
      DecimalDigits(n);
      assert IsDigit(Decimal(n)[0]);
    }
  }

  lemma DecimalInjective(m: nat, n: nat)
    requires Decimal(m) == Decimal(n)
    ensures m == n
  {
    DecimalDigits(m);
    DecimalDigits(n);
  }

  lemma Sign(n: int)
    ensures Itoa(n)[0] == '-' <==> n < 0
  {
    assert n >= 0 ==> IsDigit(Itoa(n)[0]);
  }

  lemma ItoaInjective(m: int, n: int)
    requires Itoa(m) == Itoa(n)
    ensures m == n
  {
    Sign(m);
    Sign(n);
    if m < 0 && n < 0 {
      assert Itoa(m)[1..] == Decimal(-m) && Itoa(n)[1..] == Decimal(-n);
      DecimalInjective(-m, -n);
    } else if m >= 0 && n >= 0 {
      DecimalInjective(m, n);
    }
  }
}
