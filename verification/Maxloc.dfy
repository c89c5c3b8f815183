/**
 The reduction that keeps, with the largest reference value, what depends on it: maxloc
 (src/tracking.cpp) and DependentMetric (include/criticalPath.h).
 */
module Maxloc {

  /** fvalues[0] is the reference value. */
  datatype Metric = Metric(fvalues: seq<real>, ivalues: seq<int>)

  predicate Valid(m: Metric, doubles: nat, ints: nat) {
    |m.fvalues| == doubles && |m.ivalues| == ints
  }

  function Ref(m: Metric): real
    requires m.fvalues != []
  {
    m.fvalues[0]
  }

  /** `b` stays unless `a` is larger. */
  function Larger(a: Metric, b: Metric): Metric
    requires a.fvalues != [] && b.fvalues != []
  {
    if Ref(b) < Ref(a) then a else b
  }

  method MaxlocOp(invec: array<Metric>, inoutvec: array<Metric>, len: nat, doubles: nat, ints: nat)
    requires invec != inoutvec && len <= invec.Length && len <= inoutvec.Length
    requires forall i :: 0 <= i < len ==> invec[i].fvalues != [] && Valid(invec[i], doubles, ints)
    requires forall i :: 0 <= i < len ==> inoutvec[i].fvalues != [] && Valid(inoutvec[i], doubles, ints)
    modifies inoutvec
    ensures forall i :: 0 <= i < inoutvec.Length ==>
      inoutvec[i] == if i < len then Larger(old(invec[i]), old(inoutvec[i])) else old(inoutvec[i])
  {
    var i := 0;
    while i < len
      invariant 0 <= i <= len
      invariant forall k :: 0 <= k < inoutvec.Length ==>
        inoutvec[k] == if k < i then Larger(invec[k], old(inoutvec[k])) else old(inoutvec[k])
    {
      if inoutvec[i].fvalues[0] < invec[i].fvalues[0] {
        var f := Overwrite(inoutvec[i].fvalues, invec[i].fvalues, doubles);
        var n := Overwrite(inoutvec[i].ivalues, invec[i].ivalues, ints);
        inoutvec[i] := Metric(f, n);
      }
      i := i + 1;
    }
  }

  /** The inner loops. */
  method Overwrite<T>(to: seq<T>, from: seq<T>, n: nat) returns (r: seq<T>)
    requires |to| == n == |from|
    ensures r == from
  {
    r := to;
    var j := 0;
    while j < n
      invariant 0 <= j <= n == |r| && r[..j] == from[..j]
    {
      r := r[j := from[j]];
      j := j + 1;
    }
  }

  // ---------------------------------------------------------------------------
  // Any order of reduction
  // ---------------------------------------------------------------------------

  datatype Tree = Leaf(metric: Metric) | Node(left: Tree, right: Tree)

  function Leaves(t: Tree): (r: seq<Metric>)
    ensures r != []
  {
    match t
    case Leaf(m) => [m]
    case Node(l, r) => Leaves(l) + Leaves(r)
  }

  predicate Usable(s: seq<Metric>) {
    forall i :: 0 <= i < |s| ==> s[i].fvalues != []
  }

  function Reduce(t: Tree): (r: Metric)
    requires Usable(Leaves(t))
    ensures r.fvalues != []
  {
    match t
    case Leaf(m) => assert m == Leaves(t)[0]; m
    case Node(l, r) =>
      assert forall i :: 0 <= i < |Leaves(l)| ==> Leaves(l)[i] == Leaves(t)[i];
      assert forall i :: 0 <= i < |Leaves(r)| ==> Leaves(r)[i] == Leaves(t)[|Leaves(l)| + i];
      Larger(Reduce(l), Reduce(r))
  }

  /** An input with the largest reference value. */
  predicate IsLargest(m: Metric, s: seq<Metric>)
    requires Usable(s)
  {
    m in s && forall i :: 0 <= i < |s| ==> m.fvalues != [] && Ref(s[i]) <= Ref(m)
  }

  /** Whatever the tree, the result is one of the inputs, with the largest reference value. */
  lemma {:induction false} ReduceIsLargest(t: Tree)
    requires Usable(Leaves(t))
    ensures IsLargest(Reduce(t), Leaves(t))
  {
    if t.Node? {
      var l, r := Leaves(t.left), Leaves(t.right);
      assert forall i :: 0 <= i < |l| ==> l[i] == (l + r)[i];
      assert forall i :: 0 <= i < |r| ==> r[i] == (l + r)[|l| + i];
      ReduceIsLargest(t.left);
      ReduceIsLargest(t.right);
    } else {
      assert Leaves(t)[0] == t.metric;
    }
  }

  /** A tree over the inputs `s`, in any order. */
  ghost predicate Over(t: Tree, s: seq<Metric>) {
    multiset(Leaves(t)) == multiset(s)
  }

  lemma OverUsable(t: Tree, s: seq<Metric>)
    requires Over(t, s) && Usable(s)
    ensures Usable(Leaves(t))
    ensures forall m :: m in Leaves(t) <==> m in s
  {
    assert forall m :: m in Leaves(t) <==> m in multiset(Leaves(t));
    assert forall m :: m in s <==> m in multiset(s);
    forall i | 0 <= i < |Leaves(t)|
      ensures Leaves(t)[i].fvalues != []
    {
      assert Leaves(t)[i] in s;
    }
  }

  /** Inputs with equal, largest reference values are equal. */
  ghost predicate TiesAgree(s: seq<Metric>)
    requires Usable(s)
  {
    forall a, b :: IsLargest(a, s) && IsLargest(b, s) ==> a == b
  }

  ghost predicate OrderIndependent(s: seq<Metric>)
    requires Usable(s)
  {
    forall t, u :: Over(t, s) && Over(u, s) && Usable(Leaves(t)) && Usable(Leaves(u)) ==> Reduce(t) == Reduce(u)
  }

  lemma LargestInAnyOrder(t: Tree, s: seq<Metric>)
    requires Over(t, s) && Usable(s)
    ensures Usable(Leaves(t)) && IsLargest(Reduce(t), s)
  {
    OverUsable(t, s);
    ReduceIsLargest(t);
    forall i | 0 <= i < |s|
      ensures Ref(s[i]) <= Ref(Reduce(t))
    {
      assert s[i] in Leaves(t);
    }
  }

  function Chain(s: seq<Metric>): Tree
    requires s != []
  {
    if |s| == 1 then Leaf(s[0]) else Node(Chain(s[..|s| - 1]), Leaf(s[|s| - 1]))
  }

  lemma {:induction false} ChainLeaves(s: seq<Metric>)
    requires s != []
    ensures Leaves(Chain(s)) == s
  {
    if |s| > 1 {
      ChainLeaves(s[..|s| - 1]);
    }
  }

  /** A largest input is the result of some tree: the one where it comes last. */
  lemma SomeTreePicks(s: seq<Metric>, m: Metric) returns (t: Tree)
    requires Usable(s) && IsLargest(m, s)
    ensures Over(t, s) && Usable(Leaves(t)) && Reduce(t) == m
  {
    var i :| 0 <= i < |s| && s[i] == m;
    var rest := s[..i] + s[i + 1..];
    assert s == s[..i] + [m] + s[i + 1..];
    assert multiset(s) == multiset(rest + [m]);
    t := Chain(rest + [m]);
    ChainLeaves(rest + [m]);
    OverUsable(t, s);
    if rest != [] {
      assert (rest + [m])[..|rest|] == rest && t == Node(Chain(rest), Leaf(m));
      LargestInAnyOrder(t, s);
      ReduceLast(Chain(rest), m, s);
    }
  }

  lemma ReduceLast(l: Tree, m: Metric, s: seq<Metric>)
    requires Usable(s) && IsLargest(m, s) && Over(Node(l, Leaf(m)), s)
    ensures Usable(Leaves(Node(l, Leaf(m)))) && Reduce(Node(l, Leaf(m))) == m
  {
    OverUsable(Node(l, Leaf(m)), s);
    assert forall i :: 0 <= i < |Leaves(l)| ==> Leaves(l)[i] == Leaves(Node(l, Leaf(m)))[i];
    ReduceIsLargest(l);
    assert Reduce(l) in Leaves(Node(l, Leaf(m)));
    assert Reduce(l) in s;
  }

  /** The result does not depend on the order exactly when inputs that tie for the largest reference value are equal. */
  lemma OrderIndependentExactlyWhen(s: seq<Metric>)
    requires Usable(s)
    ensures OrderIndependent(s) <==> TiesAgree(s)
  {
    if TiesAgree(s) {
      forall t, u | Over(t, s) && Over(u, s) && Usable(Leaves(t)) && Usable(Leaves(u))
        ensures Reduce(t) == Reduce(u)
      {
        LargestInAnyOrder(t, s);
        LargestInAnyOrder(u, s);
      }
    }
    if OrderIndependent(s) {
      forall a, b | IsLargest(a, s) && IsLargest(b, s)
        ensures a == b
      {
        var t := SomeTreePicks(s, a);
        var u := SomeTreePicks(s, b);
      }
    }
  }

  /** Two inputs with the same reference value and different dependent values: the second operand stays. */
  lemma SwappedOperandsDiffer()
    ensures var a, b := Metric([1.0], [0]), Metric([1.0], [1]);
      var t, u := Node(Leaf(a), Leaf(b)), Node(Leaf(b), Leaf(a));
      && Over(t, [a, b]) && Over(u, [a, b]) && Usable(Leaves(t)) && Usable(Leaves(u)) && Reduce(t) != Reduce(u)
  {
    var a, b := Metric([1.0], [0]), Metric([1.0], [1]);
    assert Leaves(Node(Leaf(a), Leaf(b))) == [a, b] && Leaves(Node(Leaf(b), Leaf(a))) == [b, a];
    assert multiset([b, a]) == multiset([a, b]);
    assert Reduce(Node(Leaf(a), Leaf(b))) == b && Reduce(Node(Leaf(b), Leaf(a))) == a;
  }

  // ---------------------------------------------------------------------------
  // DependentMetric
  // ---------------------------------------------------------------------------

  class DependentMetric {
    var refValue: real
    var depValue: int

    function Value(): (m: Metric)
      reads this
      ensures m.fvalues != []
    {
      Metric([refValue], [depValue])
    }

    method MaxUpdate(otherRef: real, otherDep: int)
      modifies this
      ensures Value() == Larger(Metric([otherRef], [otherDep]), old(Value()))
    {
      if refValue < otherRef {
        refValue := otherRef;
        depValue := otherDep;
      }
    }
  }

  /** Repeated updates reduce the old value and the others, last one first. */
  method MaxUpdateAll(d: DependentMetric, others: seq<(real, int)>)
    modifies d
    ensures Usable(Leaves(Updates(old(d.Value()), others))) && d.Value() == Reduce(Updates(old(d.Value()), others))
  {
    UpdatesUsable(d.Value(), others[..0]);
    var i := 0;
    while i < |others|
      invariant 0 <= i <= |others|
      invariant Usable(Leaves(Updates(old(d.Value()), others[..i])))
      invariant d.Value() == Reduce(Updates(old(d.Value()), others[..i]))
    {
      assert others[..i + 1][..i] == others[..i];
      UpdatesUsable(old(d.Value()), others[..i + 1]);
      d.MaxUpdate(others[i].0, others[i].1);
      i := i + 1;
    }
    assert others[..i] == others;
  }

  function Updates(start: Metric, others: seq<(real, int)>): Tree {
    if others == [] then Leaf(start)
    else var o := others[|others| - 1]; Node(Leaf(Metric([o.0], [o.1])), Updates(start, others[..|others| - 1]))
  }

  lemma {:induction false} UpdatesUsable(start: Metric, others: seq<(real, int)>)
    requires start.fvalues != []
    ensures Usable(Leaves(Updates(start, others)))
  {
    if others != [] {
      UpdatesUsable(start, others[..|others| - 1]);
    }
  }
}
