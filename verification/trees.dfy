/** Binary trees as values, and the sequence facts that the two splay trees share. */
module Trees {

  import opened Sequences

  /** The mathematical tree that a pointer structure stands for. */
  datatype Tree<N> = Leaf | Br(left: Tree<N>, node: N, right: Tree<N>)

  ghost function InOrder<N>(t: Tree<N>): seq<N> {
    match t
    case Leaf => []
    case Br(l, n, r) => InOrder(l) + [n] + InOrder(r)
  }

  ghost function Height<N>(t: Tree<N>): nat {
    match t
    case Leaf => 0
    case Br(l, n, r) => 1 + Max(Height(l), Height(r))
  }

  lemma Taller<N>(l: Tree<N>, n: N, r: Tree<N>, k: nat)
    requires Height(l) <= k && Height(r) <= k
    ensures Height(Br(l, n, r)) <= k + 1
  {
  }

  ghost function Nodes<N>(t: Tree<N>): set<N> {
    match t
    case Leaf => {}
    case Br(l, n, r) => Nodes(l) + {n} + Nodes(r)
  }

  lemma {:induction false} Member<N>(n: N, t: Tree<N>)
    ensures n in Nodes(t) <==> n in InOrder(t)
  {
    if t.Br? {
      Member(n, t.left);
      Member(n, t.right);
    }
  }

  /** The nodes of a tree, as a value known to hold only allocated objects. */
  lemma {:induction false} Footprint<N>(t: Tree<N>) returns (owned: set<N>)
    ensures owned == Nodes(t)
  {
    if t.Leaf? { return {}; }
    var a := Footprint(t.left);
    var b := Footprint(t.right);
    return a + {t.node} + b;
  }

  lemma SameNodes<N>(t: Tree<N>, u: Tree<N>)
    requires InOrder(t) == InOrder(u)
    ensures Nodes(t) == Nodes(u)
  {
    var a := Footprint(t);
    var b := Footprint(u);
    forall n | n in a + b ensures n in a <==> n in b {
      Member(n, t);
      Member(n, u);
    }
  }

  lemma Regroup<T>(a: seq<T>, b: seq<T>, x: T, e: seq<T>, f: seq<T>)
    ensures a + b + ([x] + e + f) == a + (b + [x] + e) + f
    ensures (a + b + [x]) + e + f == a + (b + [x] + e) + f
    ensures (a + b) + [x] + (e + f) == a + (b + [x] + e) + f
  {
  }

  lemma Units<T>(l: seq<T>, x: T, r: seq<T>)
    ensures l + [x] + [] == l + [x] && [] + [x] + r == [x] + r
    ensures l + [x] + r == l + ([x] + r)
  {
  }

  lemma Rotation<N>(a: Tree<N>, y: N, b: Tree<N>, x: N, r: Tree<N>)
    ensures InOrder(Br(a, y, Br(b, x, r))) == InOrder(Br(Br(a, y, b), x, r))
    ensures Nodes(Br(a, y, Br(b, x, r))) == Nodes(Br(Br(a, y, b), x, r))
  {
    assert InOrder(a) + [y] + (InOrder(b) + [x] + InOrder(r)) == InOrder(a) + [y] + InOrder(b) + [x] + InOrder(r);
  }
}
