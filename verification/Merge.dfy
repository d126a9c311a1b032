/** What the router makes of the collected results and errors: an error, the concatenated rows, or
    the summed figures; and what that is over every interleaving. */
module Merge {
  import opened Bits
  import opened ResultSet
  import opened FanOut

  datatype Kind = Select | OtherKind

  datatype Answer = Answer(result: SQLResult) | Failure(message: string)

  const NO_RESULT := SQLResult([], [], 0, 0)

  function RowsOf(results: seq<SQLResult>): seq<Row> {
    if results == [] then [] else results[0].rows + RowsOf(results[1..])
  }

  function Affected(results: seq<SQLResult>): int {
    if results == [] then 0 else results[0].affected + Affected(results[1..])
  }

  /** The last positive id, or 0. */
  function LastID(results: seq<SQLResult>): int {
    if results == [] then 0
    else if results[|results| - 1].lastInsertID > 0 then results[|results| - 1].lastInsertID
    else LastID(results[..|results| - 1])
  }

  method MergeSelectResults(results: seq<SQLResult>) returns (merged: SQLResult)
    ensures merged.rows == RowsOf(results)
    ensures |results| == 0 ==> merged == NO_RESULT
    ensures |results| == 1 ==> merged == results[0]
    ensures |results| > 1 ==> merged == SQLResult(results[0].columns, RowsOf(results), 0, 0)
  {
    if |results| == 0 {
      return NO_RESULT;
    }
    if |results| == 1 {
      assert results[0].rows + RowsOf(results[1..]) == results[0].rows;
      return results[0];
    }
    var rows := [];
    for i := 0 to |results|
      invariant rows + RowsOf(results[i..]) == RowsOf(results)
    {
      assert results[i..][1..] == results[i + 1..];
      rows := rows + results[i].rows;
    }
    assert rows + RowsOf([]) == rows;
    merged := SQLResult(results[0].columns, rows, 0, 0);
  }

  /** Everything after wg.Wait(). */
  method Respond(kind: Kind, results: seq<SQLResult>, errors: seq<string>) returns (a: Answer)
    ensures a.Failure? <==> |errors| > 0 && |results| == 0
    ensures a.Failure? ==> a.message == errors[0]
    ensures a.Answer? && kind == Select ==> a.result.rows == RowsOf(results)
    ensures a.Answer? && kind == Select && |results| > 0 ==> a.result.columns == results[0].columns
    ensures a.Answer? && kind == OtherKind ==>
      a.result == SQLResult([], [], Wrap64(Affected(results)), LastID(results))
  {
    if |errors| > 0 && |results| == 0 {
      return Failure(errors[0]);
    }
    if kind == Select {
      var merged := MergeSelectResults(results);
      return Answer(merged);
    }
    if |results| > 0 {
      var total, last := 0, 0;
      for i := 0 to |results|
        invariant total == Wrap64(Affected(results[..i]))
        invariant last == LastID(results[..i])
      {
        assert results[..i + 1][..i] == results[..i];
        AffectedAppend(results[..i], [results[i]]);
        assert results[..i] + [results[i]] == results[..i + 1];
        WrapAdd(Affected(results[..i]), results[i].affected);
        total := Wrap64(total + results[i].affected);
        if results[i].lastInsertID > 0 {
          last := results[i].lastInsertID;
        }
      }
      assert results[..|results|] == results;
      return Answer(SQLResult([], [], total, last));
    }
    return Answer(SQLResult([], [], 0, 0));
  }

  lemma WrapAdd(a: int, b: int)
    ensures Wrap64(Wrap64(a) + b) == Wrap64(a + b)
  {
    WrapCongruent(a);
    hide *;
    var k :| Wrap64(a) == a + k * 0x1_0000_0000_0000_0000;
    WrapShift(a + b, k);
  }

  lemma {:induction false} AffectedAppend(a: seq<SQLResult>, b: seq<SQLResult>)
    ensures Affected(a + b) == Affected(a) + Affected(b)
  {
    if a == [] {
      assert a + b == b;
    } else {
      AffectedAppend(a[1..], b);
      assert (a + b)[1..] == a[1..] + b;
    }
  }

  lemma {:induction false} RowsAppend(a: seq<SQLResult>, b: seq<SQLResult>)
    ensures RowsOf(a + b) == RowsOf(a) + RowsOf(b)
  {
    if a == [] {
      assert a + b == b;
    } else {
      RowsAppend(a[1..], b);
      assert (a + b)[1..] == a[1..] + b;
      assert a[0].rows + (RowsOf(a[1..]) + RowsOf(b)) == a[0].rows + RowsOf(a[1..]) + RowsOf(b);
    }
  }

  /** The merged figures do not depend on the order the results arrived in. */
  lemma {:induction false} MergeIsOrderFree(a: seq<SQLResult>, b: seq<SQLResult>)
    requires multiset(a) == multiset(b)
    ensures Affected(a) == Affected(b)
    ensures multiset(RowsOf(a)) == multiset(RowsOf(b))
    decreases |a|
  {
    if a == [] {
      assert |multiset(b)| == 0;
      assert b == [];
    } else {
      var x, t := a[0], a[1..];
      assert multiset(t + [x]) == multiset(b) by {
        assert a == [x] + t;
        assert multiset(t + [x]) == multiset(t) + multiset{x} == multiset(a);
      }
      var k := Pick(t, x, b);
      MergeIsOrderFree(t, b[..k] + b[k + 1..]);
      hide RowsOf, Affected;
      PullAt(b, k);
    }
  }

  lemma PullAt(b: seq<SQLResult>, k: nat)
    requires k < |b|
    ensures Affected(b) == b[k].affected + Affected(b[..k] + b[k + 1..])
    ensures multiset(RowsOf(b)) == multiset(b[k].rows) + multiset(RowsOf(b[..k] + b[k + 1..]))
  {
    hide *;
    PullOut(b[..k], b[k], b[k + 1..]);
    assert b == b[..k] + ([b[k]] + b[k + 1..]);
  }

  lemma PullOut(l: seq<SQLResult>, x: SQLResult, r: seq<SQLResult>)
    ensures Affected(l + ([x] + r)) == x.affected + Affected(l + r)
    ensures multiset(RowsOf(l + ([x] + r))) == multiset(x.rows) + multiset(RowsOf(l + r))
  {
    hide *;
    AffectedAppend(l, [x] + r);
    AffectedAppend([x], r);
    AffectedAppend(l, r);
    RowsAppend(l, [x] + r);
    RowsAppend([x], r);
    RowsAppend(l, r);
    OneResult(x);
  }

  lemma OneResult(r: SQLResult)
    ensures RowsOf([r]) == r.rows && Affected([r]) == r.affected
  {
    assert RowsOf([r]) == r.rows + RowsOf([r][1..]);
  }

  lemma {:induction false} LastIDIsOne(results: seq<SQLResult>)
    ensures LastID(results) == 0 ==> forall r :: r in results ==> r.lastInsertID <= 0
    ensures LastID(results) != 0 ==> exists r :: r in results && r.lastInsertID == LastID(results) > 0
    decreases |results|
  {
    if results != [] {
      var last := |results| - 1;
      assert results[last] in results;
      assert results == results[..last] + [results[last]];
      if results[last].lastInsertID <= 0 {
        LastIDIsOne(results[..last]);
      }
    }
  }

  /** The answer over all interleavings: an error exactly when there are nodes and all of them
      failed; otherwise the rows are the multiset union of the successful nodes' rows, the affected
      count is the 64-bit sum over them, and the insert id is 0 or some node's positive id. */
  method ExecuteOnMultipleNodes(kind: Kind, outcomes: seq<Outcome>, ghost states: seq<State>, end: State)
    returns (a: Answer)
    requires Run(outcomes, states) && states[|states| - 1] == end && end.main.Woken?
    ensures a.Failure? <==> |outcomes| > 0 && forall o :: o in outcomes ==> o.Error?
    ensures a.Failure? ==> Error(a.message) in outcomes
    ensures a.Answer? && kind == Select ==>
      multiset(a.result.rows) == multiset(RowsOf(Successes(outcomes, Order(|outcomes|))))
    ensures a.Answer? && kind == OtherKind ==>
      a.result.affected == Wrap64(Affected(Successes(outcomes, Order(|outcomes|))))
    ensures a.Answer? && kind == OtherKind && a.result.lastInsertID != 0 ==>
      a.result.lastInsertID > 0 &&
      exists o :: o in outcomes && o.Success? && o.result.lastInsertID == a.result.lastInsertID
  {
    a := Respond(kind, end.results, end.errors);
    AfterWait(outcomes, states, |states| - 1);
    var all := Order(|outcomes|);
    MergeIsOrderFree(end.results, Successes(outcomes, all));
    LastIDIsOne(end.results);
    FromNodes(outcomes, end.results, end.errors);
  }

  lemma FromNodes(outcomes: seq<Outcome>, results: seq<SQLResult>, errors: seq<string>)
    requires multiset(results) == multiset(Successes(outcomes, Order(|outcomes|)))
    requires multiset(errors) == multiset(Failures(outcomes, Order(|outcomes|)))
    requires |results| + |errors| == |outcomes|
    ensures forall r :: r in results ==> Success(r) in outcomes
    ensures forall e :: e in errors ==> Error(e) in outcomes
    ensures |results| == 0 <==> forall o :: o in outcomes ==> o.Error?
  {
    hide Successes, Failures;
    forall r | r in results ensures Success(r) in outcomes {
      assert r in multiset(results);
      SuccessFrom(outcomes, r);
    }
    forall e | e in errors ensures Error(e) in outcomes {
      assert e in multiset(errors);
      ErrorFrom(outcomes, e);
    }
    forall i | 0 <= i < |outcomes| && outcomes[i].Success? ensures |results| > 0 {
      SuccessTo(outcomes, i);
      assert outcomes[i].result in multiset(results);
    }
    assert |results| > 0 ==> results[0] in results;
  }

  lemma SuccessFrom(outcomes: seq<Outcome>, r: SQLResult)
    requires r in Successes(outcomes, Order(|outcomes|))
    ensures Success(r) in outcomes
  {
    CollectMember(SuccessParts(outcomes), Order(|outcomes|), r);
    var k :| 0 <= k < |outcomes| && r in SuccessParts(outcomes)[k];
    assert outcomes[k] == Success(r);
  }

  lemma ErrorFrom(outcomes: seq<Outcome>, e: string)
    requires e in Failures(outcomes, Order(|outcomes|))
    ensures Error(e) in outcomes
  {
    CollectMember(ErrorParts(outcomes), Order(|outcomes|), e);
    var k :| 0 <= k < |outcomes| && e in ErrorParts(outcomes)[k];
    assert outcomes[k] == Error(e);
  }

  lemma SuccessTo(outcomes: seq<Outcome>, i: nat)
    requires i < |outcomes| && outcomes[i].Success?
    ensures outcomes[i].result in Successes(outcomes, Order(|outcomes|))
  {
    CollectHas(SuccessParts(outcomes), Order(|outcomes|), i, outcomes[i].result);
  }
}
