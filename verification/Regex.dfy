/** Go regular expressions as the router uses them: a pattern is written in continuation style,
    and matching tries alternatives in Go's order of preference (leftmost, first choice first). */
module Regex {
  import opened GoStrings

  datatype Class =
    | Ch(c: char)
    | Fold(c: char)
    | Word
    | Digit
    | Space
    | IdentHead
    | Not(c: char)

  /** \s is [\t\n\f\r ]; Fold is a letter under (?i); . is Not('\n'). */
  predicate In(cls: Class, c: char) {
    match cls
    case Ch(d) => c == d
    case Fold(d) => Upper(c) == Upper(d)
    case Word => IsWord(c)
    case Digit => IsDigit(c)
    case Space => c == ' ' || c == '\t' || c == '\n' || c == '\r' || c == 12 as char
    case IdentHead => IsWord(c) && !IsDigit(c)
    case Not(d) => c != d
  }

  predicate Blanks(w: string) {
    forall i :: 0 <= i < |w| ==> In(Space, w[i])
  }

  const ANY := Not('\n')

  /** k is what follows. Mark notes the position (both ends of a group, and the end). */
  datatype Re =
    | Done
    | One(cls: Class, k: Re)
    | Star(cls: Class, greedy: bool, k: Re)
    | Or(first: Re, second: Re)
    | Mark(k: Re)
    | WordB(k: Re)
    | End(k: Re)

  function Plus(cls: Class, greedy: bool, k: Re): Re {
    One(cls, Star(cls, greedy, k))
  }

  function Lit(t: string, k: Re): Re {
    if t == "" then k else One(Ch(t[0]), Lit(t[1..], k))
  }

  datatype Result = Fail | Ok(marks: seq<nat>)

  function WordAt(s: string, i: int): bool {
    0 <= i < |s| && IsWord(s[i])
  }

  function Note(i: nat, r: Result): Result {
    match r case Fail => Fail case Ok(m) => Ok([i] + m)
  }

  /** Matching at i; the marks are in order, the end of the match comes last. */
  function Match(re: Re, s: string, i: nat): (r: Result)
    requires i <= |s|
    ensures r.Ok? ==> |r.marks| > 0 && i <= r.marks[|r.marks| - 1] <= |s|
    decreases |s| - i, re
  {
    match re
    case Done => Ok([i])
    case One(cls, k) => if i < |s| && In(cls, s[i]) then Match(k, s, i + 1) else Fail
    case Star(cls, greedy, k) =>
      var more := if i < |s| && In(cls, s[i]) then Match(re, s, i + 1) else Fail;
      if greedy then (if more.Ok? then more else Match(k, s, i))
      else (var now := Match(k, s, i); if now.Ok? then now else more)
    case Or(a, b) => var x := Match(a, s, i); if x.Ok? then x else Match(b, s, i)
    case Mark(k) => Note(i, Match(k, s, i))
    case WordB(k) => if WordAt(s, i - 1) != WordAt(s, i) then Match(k, s, i) else Fail
    case End(k) => if i == |s| then Match(k, s, i) else Fail
  }

  function EndOf(r: Result): nat
    requires r.Ok? && |r.marks| > 0
  {
    r.marks[|r.marks| - 1]
  }

  datatype Found = NoMatch | At(start: nat, marks: seq<nat>)

  /** The leftmost match at or after i. */
  function FindFrom(re: Re, s: string, i: nat): (r: Found)
    requires i <= |s|
    ensures r.At? ==> |r.marks| > 0 && i <= r.start <= r.marks[|r.marks| - 1] <= |s|
    decreases |s| - i
  {
    match Match(re, s, i)
    case Ok(m) => At(i, m)
    case Fail => if i == |s| then NoMatch else FindFrom(re, s, i + 1)
  }

  function Find(re: Re, s: string): (r: Found)
    ensures r.At? ==> |r.marks| > 0 && r.start <= r.marks[|r.marks| - 1] <= |s|
  {
    FindFrom(re, s, 0)
  }

  /** ReplaceAllString from i on, for patterns that match no empty string; put makes the
      replacement from the start and the marks. */
  function ReplaceFrom(re: Re, s: string, i: nat, put: (nat, seq<nat>) -> string): string
    requires i <= |s|
    decreases |s| - i
  {
    if i == |s| then ""
    else match Match(re, s, i)
      case Fail => [s[i]] + ReplaceFrom(re, s, i + 1, put)
      case Ok(m) =>
        if m[|m| - 1] > i then put(i, m) + ReplaceFrom(re, s, m[|m| - 1], put)
        else [s[i]] + ReplaceFrom(re, s, i + 1, put)
  }

  function ReplaceAll(re: Re, s: string, put: (nat, seq<nat>) -> string): string {
    ReplaceFrom(re, s, 0, put)
  }

  /** The replacement that is the same for every match. */
  function Always(t: string): (nat, seq<nat>) -> string {
    (i, m) => t
  }

  // ---------- laws of matching ----------

  lemma {:induction false} LitMatch(t: string, k: Re, s: string, i: nat)
    requires i <= |s|
    ensures Match(Lit(t, k), s, i) == if OccursAt(s, t, i) then Match(k, s, i + |t|) else Fail
    decreases |t|
  {
    if t == "" {
      assert s[i..i] == "";
    } else if i < |s| {
      LitMatch(t[1..], k, s, i + 1);
      if OccursAt(s, t, i) {
        assert s[i + 1..i + |t|] == s[i..i + |t|][1..];
        assert s[i] == s[i..i + |t|][0];
      }
      assert i + |t| <= |s| ==> s[i..i + |t|] == [s[i]] + s[i + 1..i + |t|];
    }
  }

  /** A star passes over runes of its class after which the rest cannot match. */
  lemma {:induction false} StarSkips(cls: Class, greedy: bool, k: Re, s: string, i: nat, j: nat)
    requires i <= j <= |s|
    requires forall p :: i <= p < j ==> In(cls, s[p]) && Match(k, s, p) == Fail
    ensures Match(Star(cls, greedy, k), s, i) == Match(Star(cls, greedy, k), s, j)
    decreases j - i
  {
    if i < j {
      StarSkips(cls, greedy, k, s, i + 1, j);
    }
  }

  /** A star at a rune outside its class hands over to the rest. */
  lemma StarEnds(cls: Class, greedy: bool, k: Re, s: string, j: nat)
    requires j <= |s| && (j < |s| ==> !In(cls, s[j]))
    ensures Match(Star(cls, greedy, k), s, j) == Match(k, s, j)
  {
  }

  /** The rest fails wherever the star may stop. */
  lemma {:induction false} StarFails(cls: Class, greedy: bool, k: Re, s: string, i: nat)
    requires i <= |s| && forall p :: i <= p <= |s| ==> Match(k, s, p) == Fail
    ensures Match(Star(cls, greedy, k), s, i) == Fail
    decreases |s| - i
  {
    if i < |s| {
      StarFails(cls, greedy, k, s, i + 1);
    }
  }

  /** Every match of re contains the literal t. */
  predicate Needs(re: Re, t: string) {
    StartsWith(re, t) ||
    match re
    case Done => false
    case One(_, k) => Needs(k, t)
    case Star(_, _, k) => Needs(k, t)
    case Or(a, b) => Needs(a, t) && Needs(b, t)
    case Mark(k) => Needs(k, t)
    case WordB(k) => Needs(k, t)
    case End(k) => Needs(k, t)
  }

  predicate StartsWith(re: Re, t: string) {
    t == "" || (re.One? && re.cls == Ch(t[0]) && StartsWith(re.k, t[1..]))
  }

  lemma {:induction false} StartsLit(t: string, k: Re)
    ensures StartsWith(Lit(t, k), t)
  {
    if t != "" {
      StartsLit(t[1..], k);
    }
  }

  lemma {:induction false} StartsHere(re: Re, t: string, s: string, i: nat)
    requires i <= |s| && StartsWith(re, t) && Match(re, s, i).Ok?
    ensures OccursAt(s, t, i)
    decreases |t|
  {
    if t != "" {
      StartsHere(re.k, t[1..], s, i + 1);
      assert s[i..i + |t|] == [s[i]] + s[i + 1..i + |t|];
    } else {
      assert s[i..i] == "";
    }
  }

  /** A pattern that needs t does not match where t does not occur. */
  lemma {:induction false} NeedsFails(re: Re, t: string, s: string, i: nat)
    requires i <= |s| && Needs(re, t)
    requires forall j :: i <= j ==> !OccursAt(s, t, j)
    ensures Match(re, s, i) == Fail
    decreases |s| - i, re
  {
    if StartsWith(re, t) {
      if Match(re, s, i).Ok? { StartsHere(re, t, s, i); }
    } else {
      match re {
        case One(cls, k) => if i < |s| { NeedsFails(k, t, s, i + 1); }
        case Star(_, _, k) =>
          if i < |s| { NeedsFails(re, t, s, i + 1); }
          NeedsFails(k, t, s, i);
        case Or(a, b) =>
          NeedsFails(a, t, s, i);
          NeedsFails(b, t, s, i);
        case Mark(k) => NeedsFails(k, t, s, i);
        case WordB(k) => NeedsFails(k, t, s, i);
        case End(k) => if i == |s| { NeedsFails(k, t, s, i); }
      }
    }
  }

  /** The leftmost match is at i when there is none before it. */
  lemma {:induction false} FindSkips(re: Re, s: string, from: nat, i: nat)
    requires from <= i <= |s| && forall j :: from <= j < i ==> Match(re, s, j) == Fail
    ensures FindFrom(re, s, from) == FindFrom(re, s, i)
    decreases i - from
  {
    if from < i {
      FindSkips(re, s, from + 1, i);
    }
  }

  lemma {:induction false} FindNone(re: Re, s: string, i: nat)
    requires i <= |s| && forall j :: i <= j <= |s| ==> Match(re, s, j) == Fail
    ensures FindFrom(re, s, i) == NoMatch
    decreases |s| - i
  {
    if i < |s| {
      FindNone(re, s, i + 1);
    }
  }

  /** Text without a match is copied. */
  lemma {:induction false} ReplaceCopies(re: Re, s: string, i: nat, j: nat, put: (nat, seq<nat>) -> string)
    requires i <= j <= |s| && forall p :: i <= p < j ==> Match(re, s, p) == Fail
    ensures ReplaceFrom(re, s, i, put) == s[i..j] + ReplaceFrom(re, s, j, put)
    decreases j - i
  {
    hide *;
    if i == j {
      assert s[i..j] == "";
    } else {
      ReplaceSkips(re, s, i, put);
      ReplaceCopies(re, s, i + 1, j, put);
      assert s[i..j] == [s[i]] + s[i + 1..j];
    }
  }

  lemma ReplaceSkips(re: Re, s: string, i: nat, put: (nat, seq<nat>) -> string)
    requires i < |s| && Match(re, s, i) == Fail
    ensures ReplaceFrom(re, s, i, put) == [s[i]] + ReplaceFrom(re, s, i + 1, put)
  {
    hide Match;
  }

  lemma ReplaceNone(re: Re, s: string, put: (nat, seq<nat>) -> string)
    requires forall p :: 0 <= p < |s| ==> Match(re, s, p) == Fail
    ensures ReplaceAll(re, s, put) == s
  {
    ReplaceCopies(re, s, 0, |s|, put);
    assert s[0..|s|] + "" == s;
  }

  /** Exactly one match, from i to j. */
  lemma ReplaceOne(re: Re, s: string, i: nat, j: nat, put: (nat, seq<nat>) -> string)
    requires i < j <= |s| && Match(re, s, i).Ok? && EndOf(Match(re, s, i)) == j
    requires forall p :: 0 <= p < i || j <= p < |s| ==> Match(re, s, p) == Fail
    ensures ReplaceAll(re, s, put) == s[..i] + put(i, Match(re, s, i).marks) + s[j..]
  {
    hide *;
    ReplaceCopies(re, s, 0, i, put);
    ReplaceHit(re, s, i, j, put);
    ReplaceCopies(re, s, j, |s|, put);
    ReplaceEnd(re, s, put);
    assert s[j..|s|] + "" == s[j..] && s[0..i] == s[..i];
    var m := put(i, Match(re, s, i).marks);
    assert s[..i] + (m + s[j..]) == s[..i] + m + s[j..];
  }

  lemma ReplaceHit(re: Re, s: string, i: nat, j: nat, put: (nat, seq<nat>) -> string)
    requires i < j <= |s| && Match(re, s, i).Ok? && EndOf(Match(re, s, i)) == j
    ensures ReplaceFrom(re, s, i, put) == put(i, Match(re, s, i).marks) + ReplaceFrom(re, s, j, put)
  {
    hide Match;
  }

  lemma ReplaceEnd(re: Re, s: string, put: (nat, seq<nat>) -> string)
    ensures ReplaceFrom(re, s, |s|, put) == "" && ReplaceAll(re, s, put) == ReplaceFrom(re, s, 0, put)
  {
  }

  // ---------- matching inside a longer text ----------

  /** No \b, which looks at the rune before. */
  predicate Local(re: Re) {
    match re
    case Done => true
    case One(_, k) => Local(k)
    case Star(_, _, k) => Local(k)
    case Or(a, b) => Local(a) && Local(b)
    case Mark(k) => Local(k)
    case WordB(_) => false
    case End(k) => Local(k)
  }

  function Moved(r: Result, n: nat): Result {
    match r
    case Fail => Fail
    case Ok(m) => Ok(seq(|m|, i requires 0 <= i < |m| => m[i] + n))
  }

  /** What comes before does not matter to such a pattern. */
  lemma {:induction false} MatchMoves(re: Re, a: string, b: string, i: nat)
    requires Local(re) && i <= |b|
    ensures Match(re, a + b, |a| + i) == Moved(Match(re, b, i), |a|)
    decreases |b| - i, re
  {
    match re {
      case Done =>
      case One(cls, k) =>
        if i < |b| { MatchMoves(k, a, b, i + 1); }
        OneMoves(cls, k, a, b, i);
      case Star(cls, greedy, k) =>
        if i < |b| { MatchMoves(re, a, b, i + 1); }
        MatchMoves(k, a, b, i);
        StarMoves(cls, greedy, k, a, b, i);
      case Or(x, y) =>
        MatchMoves(x, a, b, i);
        MatchMoves(y, a, b, i);
      case Mark(k) =>
        MatchMoves(k, a, b, i);
        NoteMoves(i, Match(k, b, i), |a|);
      case End(k) => if i == |b| { MatchMoves(k, a, b, i); }
    }
  }

  lemma OneMoves(cls: Class, k: Re, a: string, b: string, i: nat)
    requires i <= |b| && (i < |b| ==> Match(k, a + b, |a| + (i + 1)) == Moved(Match(k, b, i + 1), |a|))
    ensures Match(One(cls, k), a + b, |a| + i) == Moved(Match(One(cls, k), b, i), |a|)
  {
    assert i < |b| ==> (a + b)[|a| + i] == b[i];
  }

  lemma StarMoves(cls: Class, greedy: bool, k: Re, a: string, b: string, i: nat)
    requires i <= |b| && Match(k, a + b, |a| + i) == Moved(Match(k, b, i), |a|)
    requires var re := Star(cls, greedy, k); i < |b| ==>
      Match(re, a + b, |a| + (i + 1)) == Moved(Match(re, b, i + 1), |a|)
    ensures Match(Star(cls, greedy, k), a + b, |a| + i) == Moved(Match(Star(cls, greedy, k), b, i), |a|)
  {
    assert i < |b| ==> (a + b)[|a| + i] == b[i];
  }

  lemma NoteMoves(i: nat, r: Result, n: nat)
    ensures Note(n + i, Moved(r, n)) == Moved(Note(i, r), n)
  {
  }

  lemma {:induction false} ReplaceMoves(re: Re, a: string, b: string, i: nat, t: string)
    requires Local(re) && i <= |b|
    ensures ReplaceFrom(re, a + b, |a| + i, Always(t)) == ReplaceFrom(re, b, i, Always(t))
    decreases |b| - i
  {
    hide *;
    var s, put := a + b, Always(t);
    if i == |b| {
      ReplaceEnd(re, b, put);
      ReplaceEnd(re, s, put);
    } else {
      MatchMoves(re, a, b, i);
      var r := Match(re, b, i);
      MovedEnd(r, |a|);
      EndFits(re, b, i);
      assert s[|a| + i] == b[i];
      if r.Fail? {
        ReplaceSkips(re, b, i, put);
        ReplaceSkips(re, s, |a| + i, put);
        ReplaceMoves(re, a, b, i + 1, t);
      } else if EndOf(r) > i {
        SameHit(re, b, i, t);
        SameHit(re, s, |a| + i, t);
        ReplaceMoves(re, a, b, EndOf(r), t);
      } else {
        ReplaceEmpty(re, b, i, put);
        ReplaceEmpty(re, s, |a| + i, put);
        ReplaceMoves(re, a, b, i + 1, t);
      }
    }
  }

  lemma MovedEnd(r: Result, n: nat)
    ensures Moved(r, n).Ok? <==> r.Ok?
    ensures r.Ok? && |r.marks| > 0 ==> |Moved(r, n).marks| > 0 && EndOf(Moved(r, n)) == n + EndOf(r)
  {
  }

  lemma EndFits(re: Re, s: string, i: nat)
    requires i <= |s|
    ensures Match(re, s, i).Ok? ==> |Match(re, s, i).marks| > 0 && i <= EndOf(Match(re, s, i)) <= |s|
  {
    hide Match;
  }

  lemma SameHit(re: Re, s: string, i: nat, t: string)
    requires i <= |s| && Match(re, s, i).Ok? && EndOf(Match(re, s, i)) > i
    ensures ReplaceFrom(re, s, i, Always(t)) == t + ReplaceFrom(re, s, EndOf(Match(re, s, i)), Always(t))
  {
    hide Match, ReplaceFrom;
    ReplaceHit(re, s, i, EndOf(Match(re, s, i)), Always(t));
  }

  lemma ReplaceEmpty(re: Re, s: string, i: nat, put: (nat, seq<nat>) -> string)
    requires i < |s| && Match(re, s, i).Ok? && EndOf(Match(re, s, i)) <= i
    ensures ReplaceFrom(re, s, i, put) == [s[i]] + ReplaceFrom(re, s, i + 1, put)
  {
    hide Match;
  }

  // ---------- groups and numbers ----------

  /** The g-th group of a match, counting from 1. */
  function Group(s: string, r: Result, g: nat): string {
    if r.Ok? && g >= 1 && 2 * g <= |r.marks| && r.marks[2 * g - 2] <= r.marks[2 * g - 1] <= |s|
    then s[r.marks[2 * g - 2]..r.marks[2 * g - 1]] else ""
  }

  lemma GroupIs(s: string, r: Result, g: nat, i: nat, t: string)
    requires r.Ok? && 1 <= g && 2 * g <= |r.marks| && r.marks[2 * g - 2] == i && r.marks[2 * g - 1] == i + |t|
    requires OccursAt(s, t, i)
    ensures Group(s, r, g) == t
  {
  }

  /** A literal cannot start at a rune other than its first. */
  lemma LitFails(t: string, k: Re, s: string, i: nat)
    requires i <= |s| && t != "" && (i < |s| ==> s[i] != t[0])
    ensures Match(Lit(t, k), s, i) == Fail
  {
  }

  /** (\d+) over all of the digits d, when the rest begins with a literal that is no digit. */
  lemma DigitsMatch(d: string, t: string, k: Re, s: string, i: nat)
    requires AllDigits(d) && t != "" && !IsDigit(t[0]) && OccursAt(s, d, i) && OccursAt(s, t, i + |d|)
    ensures Match(Mark(Plus(Digit, true, Mark(Lit(t, k)))), s, i)
         == Note(i, Note(i + |d|, Match(k, s, i + |d| + |t|)))
  {
    var j := i + |d|;
    OccursChars(s, d, i);
    OccursChars(s, t, j);
    assert s[j] == t[0];
    forall p | i <= p < j ensures In(Digit, s[p]) && Match(Mark(Lit(t, k)), s, p) == Fail {
      assert s[p] == d[p - i];
      LitFails(t, k, s, p);
    }
    StarSkips(Digit, true, Mark(Lit(t, k)), s, i + 1, j);
    StarEnds(Digit, true, Mark(Lit(t, k)), s, j);
    LitMatch(t, k, s, j);
    hide Lit;
  }

  /** A greedy star over a whole run, whose rest fails inside the run. */
  lemma RunMatch(cls: Class, k: Re, s: string, i: nat, j: nat)
    requires i <= j <= |s| && (j < |s| ==> !In(cls, s[j]))
    requires forall p :: i <= p < j ==> In(cls, s[p]) && Match(k, s, p) == Fail
    ensures Match(Star(cls, true, k), s, i) == Match(k, s, j)
  {
    StarSkips(cls, true, k, s, i, j);
    StarEnds(cls, true, k, s, j);
  }

  // ---------- what a successful match went through ----------

  /** Where a matching star stopped. */
  lemma {:induction false} StarStops(cls: Class, greedy: bool, k: Re, s: string, i: nat) returns (j: nat)
    requires i <= |s| && Match(Star(cls, greedy, k), s, i).Ok?
    ensures i <= j <= |s| && (forall q :: i <= q < j ==> In(cls, s[q])) && Match(k, s, j).Ok?
    decreases |s| - i
  {
    if Match(k, s, i).Ok? {
      j := i;
    } else {
      j := StarStops(cls, greedy, k, s, i + 1);
    }
  }

  /** A star can stop wherever the rest matches. */
  lemma {:induction false} StarCan(cls: Class, greedy: bool, k: Re, s: string, i: nat, j: nat)
    requires i <= j <= |s| && (forall q :: i <= q < j ==> In(cls, s[q])) && Match(k, s, j).Ok?
    ensures Match(Star(cls, greedy, k), s, i).Ok?
    decreases j - i
  {
    if i < j {
      StarCan(cls, greedy, k, s, i + 1, j);
    }
  }

  /** Every match of re ends with a match of k. */
  predicate EndsIn(re: Re, k: Re) {
    re == k ||
    match re
    case Done => false
    case One(_, r) => EndsIn(r, k)
    case Star(_, _, r) => EndsIn(r, k)
    case Or(a, b) => EndsIn(a, k) && EndsIn(b, k)
    case Mark(r) => EndsIn(r, k)
    case WordB(r) => EndsIn(r, k)
    case End(r) => EndsIn(r, k)
  }

  /** So it fails where k fails from there on. */
  lemma {:induction false} EndsFails(re: Re, k: Re, s: string, i: nat)
    requires i <= |s| && EndsIn(re, k) && forall j :: i <= j <= |s| ==> Match(k, s, j) == Fail
    ensures Match(re, s, i) == Fail
    decreases |s| - i, re
  {
    if re != k {
      match re {
        case One(cls, r) => if i < |s| { EndsFails(r, k, s, i + 1); }
        case Star(_, _, r) =>
          if i < |s| { EndsFails(re, k, s, i + 1); }
          EndsFails(r, k, s, i);
        case Or(a, b) =>
          EndsFails(a, k, s, i);
          EndsFails(b, k, s, i);
        case Mark(r) => EndsFails(r, k, s, i);
        case WordB(r) => EndsFails(r, k, s, i);
        case End(r) => EndsFails(r, k, s, i);
      }
    }
  }
}
