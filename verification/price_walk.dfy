/** The recursive walk `modifyPrices`: every number held under a price-like property name,
    at any depth, becomes the target price; it reports whether anything changed. */
module PriceWalk {
  import opened Wrappers
  import opened PriceKeys
  import opened JsonTree

  /** The price every matching number is set to. */
  const Target: real := 500.0

  /** One iteration of the `for..in` loop body, for member `k` holding `v`: descend into a
      container, otherwise overwrite a matching number that is not yet the target. */
  function Visit(k: string, v: Json): (Json, bool)
    decreases v, 1
  {
    if IsContainer(v) then Walk(v)
    else if IsPriceKey(k) && v.JNum? && v.n != Target then (JNum(Target), true)
    else (v, false)
  }

  /** `modifyPrices(j)`: the rewritten tree, and whether any member was overwritten. */
  function Walk(j: Json): (Json, bool)
    decreases j, 0
  {
    match j
    case JArr(es) =>
      (JArr(seq(|es|, i requires 0 <= i < |es| => Visit(DecimalKey(i), es[i]).0)),
       exists i :: 0 <= i < |es| && Visit(DecimalKey(i), es[i]).1)
    case JObj(fs) =>
      (JObj(seq(|fs|, i requires 0 <= i < |fs| => (fs[i].0, Visit(fs[i].0, fs[i].1).0))),
       exists i :: 0 <= i < |fs| && Visit(fs[i].0, fs[i].1).1)
    case _ => (j, false)
  }

  /** A member the walk still has to rewrite: a number other than the target under a
      price-like name. */
  predicate IsPendingLeaf(k: string, v: Json) {
    IsPriceKey(k) && v.JNum? && v.n != Target
  }

  /** The member at path `p` is pending. */
  ghost predicate PendingAt(j: Json, p: seq<nat>) {
    Member(j, p).Some? && IsPendingLeaf(Member(j, p).value.0, Member(j, p).value.1)
  }

  /** Somewhere in `j` there is a member still to be rewritten. */
  ghost predicate HasPending(j: Json) {
    exists p :: PendingAt(j, p)
  }

  /** The walk keeps the members of a node in place and applies `Visit` to each. */
  lemma WalkMembers(j: Json)
    ensures IsContainer(Walk(j).0) == IsContainer(j)
    ensures |Members(Walk(j).0)| == |Members(j)|
    ensures forall i :: 0 <= i < |Members(j)| ==>
              Members(Walk(j).0)[i] == (Members(j)[i].0, Visit(Members(j)[i].0, Members(j)[i].1).0)
    ensures Walk(j).1 <==> exists i :: 0 <= i < |Members(j)| && Visit(Members(j)[i].0, Members(j)[i].1).1
  {
  }

  /** Shape preservation: the walk adds, removes and reorders nothing; only numbers may change. */
  lemma {:induction false} WalkPreservesShape(j: Json)
    ensures SameShape(j, Walk(j).0)
    decreases j
  {
    match j
    case JArr(es) =>
      forall i | 0 <= i < |es|
        ensures SameShape(es[i], Walk(j).0.elems[i])
      {
        if IsContainer(es[i]) {
          WalkPreservesShape(es[i]);
        }
      }
    case JObj(fs) =>
      forall i | 0 <= i < |fs|
        ensures SameShape(fs[i].1, Walk(j).0.fields[i].1)
      {
        if IsContainer(fs[i].1) {
          WalkPreservesShape(fs[i].1);
        }
      }
    case _ =>
  }

  /** Targeted mutation, member by member: every path reaches a member in the result exactly
      when it reaches one in the input, under the same name and with the same shape; a
      non-container value becomes the target when it is a number under a price-like name,
      and is left as it was otherwise (a string, boolean or null, or any value under another
      name). */
  lemma {:induction false} WalkMemberAt(j: Json, p: seq<nat>)
    ensures Member(Walk(j).0, p).Some? <==> Member(j, p).Some?
    ensures Member(j, p).Some? ==>
              var (k, v) := Member(j, p).value;
              var (k', w) := Member(Walk(j).0, p).value;
              && k' == k
              && SameShape(v, w)
              && (!IsContainer(v) && IsPriceKey(k) && v.JNum? ==> w == JNum(Target))
              && (!IsContainer(v) && !(IsPriceKey(k) && v.JNum?) ==> w == v)
    decreases p
  {
    WalkMembers(j);
    if p != [] && p[0] < |Members(j)| {
      var (k, v) := Members(j)[p[0]];
      if IsContainer(v) {
        WalkMembers(v);
        if |p| == 1 {
          WalkPreservesShape(v);
        } else {
          WalkMemberAt(v, p[1..]);
        }
      }
    }
  }

  /** Numbers held directly in an array are never rewritten: their keys are positions. */
  lemma ArrayNumbersUntouched(es: seq<Json>, i: nat)
    requires i < |es| && !IsContainer(es[i])
    ensures Walk(JArr(es)).0.elems[i] == es[i]
  {
    DecimalKeyIsNotPriceKey(i);
  }

  /** The change flag is exact: the walk reports a change iff the input held a number other
      than the target under a price-like name. */
  lemma {:induction false} WalkChangedIffPending(j: Json)
    ensures Walk(j).1 <==> HasPending(j)
    decreases j
  {
    WalkMembers(j);
    if Walk(j).1 {
      var i :| 0 <= i < |Members(j)| && Visit(Members(j)[i].0, Members(j)[i].1).1;
      var (k, v) := Members(j)[i];
      if IsContainer(v) {
        ChildSmaller(j, i);
        WalkChangedIffPending(v);
        var q :| PendingAt(v, q);
        assert Member(j, [i] + q) == Member(v, q) by {
          assert ([i] + q)[1..] == q;
        }
        assert PendingAt(j, [i] + q);
      } else {
        assert PendingAt(j, [i]);
      }
    }
    if HasPending(j) {
      var p :| PendingAt(j, p);
      var i := p[0];
      var (k, v) := Members(j)[i];
      if |p| > 1 {
        assert PendingAt(v, p[1..]);
        ChildSmaller(j, i);
        WalkChangedIffPending(v);
      }
      assert Visit(k, v).1;
    }
  }

  /** Helper for induction over members: what a node's `Members` yields is a child of it. */
  lemma ChildSmaller(j: Json, i: nat)
    requires i < |Members(j)|
    ensures (match j
             case JArr(es) => Members(j)[i].1 == es[i]
             case JObj(fs) => Members(j)[i].1 == fs[i].1
             case _ => false)
  {
  }

  /** Postcondition of the walk: every number under a price-like name in the result is the
      target. */
  lemma WalkSettlesAll(j: Json)
    ensures !HasPending(Walk(j).0)
  {
    forall p
      ensures !PendingAt(Walk(j).0, p)
    {
      WalkMemberAt(j, p);
    }
  }

  /** A walk that reports no change returns its input unchanged. */
  lemma {:induction false} WalkUnchangedIsIdentity(j: Json)
    requires !Walk(j).1
    ensures Walk(j).0 == j
    decreases j
  {
    match j
    case JArr(es) =>
      forall i | 0 <= i < |es|
        ensures Visit(DecimalKey(i), es[i]).0 == es[i]
      {
        if IsContainer(es[i]) {
          WalkUnchangedIsIdentity(es[i]);
        }
      }
      assert Walk(j).0.elems == es;
    case JObj(fs) =>
      forall i | 0 <= i < |fs|
        ensures Visit(fs[i].0, fs[i].1).0 == fs[i].1
      {
        if IsContainer(fs[i].1) {
          WalkUnchangedIsIdentity(fs[i].1);
        }
      }
      assert Walk(j).0.fields == fs;
    case _ =>
  }

  /** Idempotence: walking an already walked tree reports no change and returns it as is. */
  lemma WalkIdempotent(j: Json)
    ensures Walk(Walk(j).0) == (Walk(j).0, false)
  {
    var r := Walk(j).0;
    WalkSettlesAll(j);
    WalkChangedIffPending(r);
    WalkUnchangedIsIdentity(r);
  }
}
