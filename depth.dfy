/** `MsIoContainer.getDepthLevel(MsOperator, int)`: the depth recorded for a
    complex schema. The counter `i` is carried from one sub-type to the
    next, so the result adds up the complex sub-types of the whole
    sub-type tree rather than taking a maximum over siblings. */
module Depth {
  import opened Wrappers
  import opened Descriptors

  /** A sub-type that has sub-types of its own. */
  predicate IsComplex(t: TypeDesc) {
    t.operator.Some? && |t.operator.value.subClazz| != 0
  }

  /** The value of `i` after the loop of `getDepthLevel(op, i)` has visited
      the first `n` sub-types; `None` when it reads the annotation of a
      sub-type that has none (a NullPointerException). */
  function DepthLevel(op: MsOperator, n: nat, i: int): Option<int>
    requires n <= |op.subClazz|
    decreases op, n
  {
    if n == 0 then Some(i)
    else
      match DepthLevel(op, n - 1, i)
      case None => None
      case Some(j) =>
        var sub := op.subClazz[n - 1];
        if sub.operator.None? then None
        else if |sub.operator.value.subClazz| == 0 then Some(j)
        else
          match DepthLevel(sub.operator.value, |sub.operator.value.subClazz|, j + 1)
          case None => None
          case Some(temp) => Some(if temp >= j + 1 then temp else j + 1)
  }

  /** Every sub-type the loop reads is annotated, and so are those of every
      complex sub-type, recursively. */
  predicate Annotated(op: MsOperator, n: nat)
    requires n <= |op.subClazz|
    decreases op, n
  {
    n == 0 ||
    (Annotated(op, n - 1) &&
     op.subClazz[n - 1].operator.Some? &&
     (|op.subClazz[n - 1].operator.value.subClazz| != 0 ==>
        Annotated(op.subClazz[n - 1].operator.value, |op.subClazz[n - 1].operator.value.subClazz|)))
  }

  /** The number of complex types among the first `n` sub-types and,
      recursively, below them. */
  function NestedCount(op: MsOperator, n: nat): nat
    requires n <= |op.subClazz|
    decreases op, n
  {
    if n == 0 then 0
    else
      var sub := op.subClazz[n - 1];
      NestedCount(op, n - 1) +
        (if IsComplex(sub) then 1 + NestedCount(sub.operator.value, |sub.operator.value.subClazz|) else 0)
  }

  /** Closed form: the depth is the start value plus the number of nested
      complex types; it fails exactly when an annotation is missing. */
  lemma {:induction false} DepthClosedForm(op: MsOperator, n: nat, i: int)
    requires n <= |op.subClazz|
    ensures DepthLevel(op, n, i) == if Annotated(op, n) then Some(i + NestedCount(op, n)) else None
    decreases op, n
  {
    if n > 0 {
      DepthClosedForm(op, n - 1, i);
      var sub := op.subClazz[n - 1];
      if Annotated(op, n - 1) && sub.operator.Some? && |sub.operator.value.subClazz| != 0 {
        DepthClosedForm(sub.operator.value, |sub.operator.value.subClazz|, i + NestedCount(op, n - 1) + 1);
      }
    }
  }

  /** `getDepthLevel(op, i)` never returns less than `i`. */
  lemma DepthAtLeastStart(op: MsOperator, i: int)
    ensures DepthLevel(op, |op.subClazz|, i).Some? ==> DepthLevel(op, |op.subClazz|, i).value >= i
  {
    DepthClosedForm(op, |op.subClazz|, i);
  }

  /** When no sub-type has sub-types of its own, the depth is the start value. */
  lemma DepthOfShallow(op: MsOperator, i: int)
    requires forall k :: 0 <= k < |op.subClazz| ==> op.subClazz[k].operator.Some? && !IsComplex(op.subClazz[k])
    ensures DepthLevel(op, |op.subClazz|, i) == Some(i)
  {
    ShallowCounts(op, |op.subClazz|);
    DepthClosedForm(op, |op.subClazz|, i);
  }

  lemma {:induction false} ShallowCounts(op: MsOperator, n: nat)
    requires n <= |op.subClazz|
    requires forall k :: 0 <= k < n ==> op.subClazz[k].operator.Some? && !IsComplex(op.subClazz[k])
    ensures Annotated(op, n) && NestedCount(op, n) == 0
  {
    if n > 0 {
      ShallowCounts(op, n - 1);
    }
  }

  /** Siblings add up: two complex sub-types, each with one plain sub-type,
      give depth 4 from the start value 2, where a maximum over siblings
      would give 3. */
  lemma DepthSumsSiblings(leaf: TypeDesc, a: TypeDesc, b: TypeDesc, top: MsOperator)
    requires leaf.operator.Some? && leaf.operator.value.subClazz == []
    requires a.operator == Some(MsOperator("a", "", [leaf]))
    requires b.operator == Some(MsOperator("b", "", [leaf]))
    requires top.subClazz == [a, b]
    ensures DepthLevel(top, 2, 2) == Some(4)
  {
    var opA := a.operator.value;
    var opB := b.operator.value;
    assert DepthLevel(opA, 1, 3) == Some(3);
    assert DepthLevel(opB, 1, 4) == Some(4);
    assert DepthLevel(top, 1, 2) == Some(3);
  }

  /** Once the loop has failed it stays failed. */
  lemma {:induction false} FailureSticks(op: MsOperator, m: nat, n: nat, i: int)
    requires m <= n <= |op.subClazz|
    requires DepthLevel(op, m, i).None?
    ensures DepthLevel(op, n, i).None?
    decreases n
  {
    if m < n {
      FailureSticks(op, m, n - 1, i);
    }
  }

  /** The loop of `getDepthLevel(MsOperator, int)`: `i` is raised by one for
      every complex sub-type and then to the depth of that sub-type. */
  method GetDepthLevel(op: MsOperator, start: int) returns (r: Option<int>)
    ensures r == DepthLevel(op, |op.subClazz|, start)
    decreases op
  {
    var i := start;
    for k := 0 to |op.subClazz|
      invariant DepthLevel(op, k, start) == Some(i)
    {
      var sub := op.subClazz[k];
      if sub.operator.None? {
        FailureSticks(op, k + 1, |op.subClazz|, start);
        return None;
      }
      var annotation := sub.operator.value;
      if |annotation.subClazz| != 0 {
        i := i + 1;
        var temp := GetDepthLevel(annotation, i);
        if temp.None? {
          FailureSticks(op, k + 1, |op.subClazz|, start);
          return None;
        }
        i := if temp.value >= i then temp.value else i;
      }
    }
    r := Some(i);
  }
}
