/** The decoded form of a stored value: the tree `JSON.parse` builds, and the way a
    `for..in` loop sees the members of one of its nodes. */
module JsonTree {
  import opened Wrappers
  import opened PriceKeys

  /** A JSON value (RFC 8259). Numbers are exact; the rewriter only ever compares them with,
      and assigns, one constant. Object members keep their property order. */
  datatype Json =
    | JNull
    | JBool(b: bool)
    | JNum(n: real)
    | JStr(s: string)
    | JArr(elems: seq<Json>)
    | JObj(fields: seq<(string, Json)>)

  /** `typeof v === 'object' && v !== null`: the values a walk descends into. */
  predicate IsContainer(j: Json) {
    j.JArr? || j.JObj?
  }

  /** The property names of an object, in order. (The ensures only expose the definition.) */
  function Names(fs: seq<(string, Json)>): (r: seq<string>)
    ensures |r| == |fs|
    ensures forall i :: 0 <= i < |fs| ==> r[i] == fs[i].0
  {
    seq(|fs|, i requires 0 <= i < |fs| => fs[i].0)
  }

  /** The (key, value) pairs `for (let k in j)` visits with `j[k]`: an array's positions
      under their decimal names, an object's own properties, nothing for any other value.
      (The ensures only expose the definition, one clause per kind of node.) */
  function Members(j: Json): (r: seq<(string, Json)>)
    ensures IsContainer(j) || r == []
    ensures j.JArr? ==> |r| == |j.elems| && forall i :: 0 <= i < |r| ==> r[i] == (DecimalKey(i), j.elems[i])
    ensures j.JObj? ==> r == j.fields
  {
    match j
    case JArr(es) => seq(|es|, i requires 0 <= i < |es| => (DecimalKey(i), es[i]))
    case JObj(fs) => fs
    case _ => []
  }

  /** The member reached from `j` by following member positions `p`: its key and value.
      The empty path and any path that leaves the tree reach nothing. */
  function Member(j: Json, p: seq<nat>): Option<(string, Json)>
    decreases p
  {
    if p == [] || p[0] >= |Members(j)| then None
    else if |p| == 1 then Some(Members(j)[p[0]])
    else Member(Members(j)[p[0]].1, p[1..])
  }

  /** `a` and `b` have the same skeleton: the same kinds of node, the same array lengths,
      the same property names in the same order; numbers may differ, every other leaf
      is equal. */
  predicate SameShape(a: Json, b: Json)
    decreases a
  {
    match a
    case JArr(xs) =>
      b.JArr? && |xs| == |b.elems| && forall i :: 0 <= i < |xs| ==> SameShape(xs[i], b.elems[i])
    case JObj(xs) =>
      b.JObj? && Names(xs) == Names(b.fields) &&
      forall i :: 0 <= i < |xs| ==> SameShape(xs[i].1, b.fields[i].1)
    case JNum(_) => b.JNum?
    case _ => b == a
  }

  /** `for..in` over an array visits every position once, each under a name of its own. */
  lemma ArrayMemberNamesDistinct(es: seq<Json>, i: nat, k: nat)
    requires i < k < |es|
    ensures Members(JArr(es))[i].0 != Members(JArr(es))[k].0
  {
    if DecimalKey(i) == DecimalKey(k) {
      DecimalKeyInjective(i, k);
    }
  }
}
