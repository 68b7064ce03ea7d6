/** Bottom-up splay tree with parent pointers (src/util/splay-tree.h). */
module ParentSplay {
  import opened Sequences
  import opened Trees

  class Node<T> {
    var left: Node?<T>
    var right: Node?<T>
    var parent: Node?<T>
    const key: T

    constructor (key: T)
      ensures left == null && right == null && parent == null && this.key == key
    {
      this.key := key;
      left, right, parent := null, null, null;
    }
  }

  // ----- Pointer snapshots

  /** A snapshot of the root pointer and of the three link fields of a set of nodes. */
  datatype Links<T> = Links(root: Node?<T>, left: map<Node<T>, Node?<T>>, right: map<Node<T>, Node?<T>>,
    parent: map<Node<T>, Node?<T>>) {
    ghost function L(n: Node<T>): Node?<T> { if n in left then left[n] else null }
    ghost function R(n: Node<T>): Node?<T> { if n in right then right[n] else null }
    ghost function P(n: Node<T>): Node?<T> { if n in parent then parent[n] else null }
    ghost function SetL(n: Node<T>, v: Node?<T>): Links<T> { this.(left := left[n := v]) }
    ghost function SetR(n: Node<T>, v: Node?<T>): Links<T> { this.(right := right[n := v]) }
    ghost function SetP(n: Node<T>, v: Node?<T>): Links<T> { this.(parent := parent[n := v]) }
    ghost function SetRoot(v: Node?<T>): Links<T> { this.(root := v) }
  }

  /** The links below `n`, whose parent is `p`, are laid out exactly as `t`. */
  ghost predicate Laid<T>(m: Links<T>, n: Node?<T>, p: Node?<T>, t: Tree<Node<T>>)
    decreases t
  {
    match t
    case Leaf => n == null
    case Br(l, x, r) => n == x && m.P(x) == p && Laid(m, m.L(x), n, l) && Laid(m, m.R(x), n, r)
  }

  /** The way from a position up to the root: which side each ancestor was left by, and its other subtree. */
  datatype Path<T> =
    | Top
    | InLeft(up: Path<T>, node: Node<T>, other: Tree<Node<T>>)
    | InRight(up: Path<T>, node: Node<T>, other: Tree<Node<T>>)

  ghost function PathNodes<T>(c: Path<T>): set<Node<T>> {
    if c.Top? then {} else PathNodes(c.up) + {c.node} + Nodes(c.other)
  }

  ghost function Above<T>(c: Path<T>): Node?<T> {
    if c.Top? then null else c.node
  }

  ghost function Plug<T>(c: Path<T>, t: Tree<Node<T>>): Tree<Node<T>> {
    match c
    case Top => t
    case InLeft(up, n, s) => Plug(up, Br(t, n, s))
    case InRight(up, n, s) => Plug(up, Br(s, n, t))
  }

  /** What comes before and after a position in order. */
  ghost function Before<T>(c: Path<T>): seq<Node<T>> {
    match c
    case Top => []
    case InLeft(up, n, s) => Before(up)
    case InRight(up, n, s) => Before(up) + InOrder(s) + [n]
  }

  ghost function After<T>(c: Path<T>): seq<Node<T>> {
    match c
    case Top => []
    case InLeft(up, n, s) => [n] + InOrder(s) + After(up)
    case InRight(up, n, s) => After(up)
  }

  /** The pointers above a position that holds `h` are laid out as `c`. */
  ghost predicate PathLaid<T>(m: Links<T>, c: Path<T>, h: Node?<T>) {
    match c
    case Top => m.root == h
    case InLeft(up, n, s) => m.L(n) == h && Laid(m, m.R(n), n, s) && m.P(n) == Above(up) && PathLaid(m, up, n)
    case InRight(up, n, s) => m.R(n) == h && Laid(m, m.L(n), n, s) && m.P(n) == Above(up) && PathLaid(m, up, n)
  }

  /** Node `n` with subtree `t` sits at position `c`. */
  ghost predicate At<T>(m: Links<T>, c: Path<T>, n: Node?<T>, t: Tree<Node<T>>) {
    PathLaid(m, c, n) && Laid(m, n, Above(c), t)
  }

  lemma {:induction false} PlugContents<T>(c: Path<T>, t: Tree<Node<T>>)
    ensures InOrder(Plug(c, t)) == Before(c) + InOrder(t) + After(c)
    ensures Nodes(Plug(c, t)) == PathNodes(c) + Nodes(t)
  {
    match c
    case Top =>
    case InLeft(up, n, s) =>
      PlugContents(up, Br(t, n, s));
      Regroup(Before(up), InOrder(t), n, InOrder(s), After(up));
    case InRight(up, n, s) =>
      PlugContents(up, Br(s, n, t));
      Regroup(Before(up), InOrder(s), n, InOrder(t), After(up));
  }

  /** Moving the focus along the path: the same pointers, read with another position in hand. */
  lemma {:induction false} AtPlug<T>(m: Links<T>, c: Path<T>, n: Node?<T>, t: Tree<Node<T>>)
    requires At(m, c, n, t)
    ensures Laid(m, m.root, null, Plug(c, t))
  {
    match c
    case Top =>
    case InLeft(up, x, s) => AtPlug(m, up, x, Br(t, x, s));
    case InRight(up, x, s) => AtPlug(m, up, x, Br(s, x, t));
  }

  // ----- Frames

  ghost predicate SameOn<T>(m: Links<T>, m': Links<T>, s: set<Node<T>>) {
    forall n :: n in s ==> m.L(n) == m'.L(n) && m.R(n) == m'.R(n) && m.P(n) == m'.P(n)
  }

  lemma {:induction false} LaidSame<T>(m: Links<T>, m': Links<T>, n: Node?<T>, p: Node?<T>, t: Tree<Node<T>>)
    requires Laid(m, n, p, t) && SameOn(m, m', Nodes(t))
    ensures Laid(m', n, p, t)
    decreases t
  {
    if t.Br? {
      LaidSame(m, m', m.L(t.node), n, t.left);
      LaidSame(m, m', m.R(t.node), n, t.right);
    }
  }

  /** A subtree under another parent. */
  lemma LaidMoved<T>(m: Links<T>, m': Links<T>, n: Node?<T>, p: Node?<T>, q: Node?<T>, t: Tree<Node<T>>)
    requires Laid(m, n, p, t)
    requires t.Br? ==> m'.L(t.node) == m.L(t.node) && m'.R(t.node) == m.R(t.node) && m'.P(t.node) == q
    requires t.Br? ==> SameOn(m, m', Nodes(t.left)) && SameOn(m, m', Nodes(t.right))
    ensures Laid(m', n, q, t)
  {
    if t.Br? {
      LaidSame(m, m', m.L(t.node), n, t.left);
      LaidSame(m, m', m.R(t.node), n, t.right);
    }
  }

  lemma {:induction false} PathSame<T>(m: Links<T>, m': Links<T>, c: Path<T>, h: Node?<T>)
    requires PathLaid(m, c, h) && SameOn(m, m', PathNodes(c)) && m.root == m'.root
    ensures PathLaid(m', c, h)
  {
    match c
    case Top =>
    case InLeft(up, n, s) =>
      PathSame(m, m', up, n);
      LaidSame(m, m', m.R(n), n, s);
    case InRight(up, n, s) =>
      PathSame(m, m', up, n);
      LaidSame(m, m', m.L(n), n, s);
  }

  // ----- No node occurs twice

  ghost predicate NoDup<N>(s: seq<N>) {
    forall i, j :: 0 <= i < j < |s| ==> s[i] != s[j]
  }

  /** The in-order sequence of the whole tree, seen from a position. */
  ghost function Whole<T>(c: Path<T>, t: Tree<Node<T>>): seq<Node<T>> {
    Before(c) + InOrder(t) + After(c)
  }

  ghost predicate Fits<T>(c: Path<T>, t: Tree<Node<T>>) {
    NoDup(Whole(c, t))
  }

  /** Stepping down or up changes neither the sequence nor the set of nodes. */
  lemma StepWhole<T>(c: Path<T>, l: Tree<Node<T>>, x: Node<T>, r: Tree<Node<T>>)
    ensures Whole(InLeft(c, x, r), l) == Whole(InRight(c, x, l), r) == Whole(c, Br(l, x, r))
  {
    Regroup(Before(c), InOrder(l), x, InOrder(r), After(c));
  }

  ghost function Root<T>(t: Tree<Node<T>>): Node?<T> { if t.Leaf? then null else t.node }

  lemma StepDown<T>(m: Links<T>, c: Path<T>, l: Tree<Node<T>>, x: Node<T>, r: Tree<Node<T>>)
    requires At(m, c, x, Br(l, x, r))
    ensures m.L(x) == Root(l) && At(m, InLeft(c, x, r), m.L(x), l)
    ensures m.R(x) == Root(r) && At(m, InRight(c, x, l), m.R(x), r)
  {
    assert Laid(m, m.L(x), x, l) && Laid(m, m.R(x), x, r);
  }

  lemma StepUp<T>(m: Links<T>, c: Path<T>, n: Node?<T>, t: Tree<Node<T>>)
    requires At(m, c, n, t) && !c.Top?
    ensures At(m, c.up, c.node, if c.InLeft? then Br(t, c.node, c.other) else Br(c.other, c.node, t))
  {
  }

  lemma {:induction false} PathMember<T>(n: Node<T>, c: Path<T>)
    ensures n in PathNodes(c) <==> n in Before(c) || n in After(c)
  {
    if !c.Top? {
      PathMember(n, c.up);
      Member(n, c.other);
    }
  }

  lemma Pivot<N>(a: seq<N>, n: N, b: seq<N>)
    requires NoDup(a + [n] + b)
    ensures n !in a && n !in b
  {
    var s := a + [n] + b;
    assert s[|a|] == n;
    forall i | 0 <= i < |a| ensures a[i] != n { assert s[i] == a[i]; }
    forall i | 0 <= i < |b| ensures b[i] != n { assert s[|a| + 1 + i] == b[i]; }
  }

  lemma NodeApart<T>(c: Path<T>, l: Tree<Node<T>>, x: Node<T>, r: Tree<Node<T>>)
    requires Fits(c, Br(l, x, r))
    ensures x !in Nodes(l) && x !in Nodes(r) && x !in PathNodes(c)
  {
    Regroup(Before(c), InOrder(l), x, InOrder(r), After(c));
    Pivot(Before(c) + InOrder(l), x, InOrder(r) + After(c));
    Member(x, l);
    Member(x, r);
    PathMember(x, c);
  }

  // ----- Rewriting the link that leads to a position

  ghost function SetHole<T>(m: Links<T>, c: Path<T>, v: Node?<T>): Links<T> {
    match c
    case Top => m.SetRoot(v)
    case InLeft(_, n, _) => m.SetL(n, v)
    case InRight(_, n, _) => m.SetR(n, v)
  }

  lemma HoleSetPlain<T>(m: Links<T>, c: Path<T>, h: Node?<T>, v: Node?<T>)
    requires PathLaid(m, c, h) && (!c.Top? ==> c.node !in PathNodes(c.up) && c.node !in Nodes(c.other))
    ensures PathLaid(SetHole(m, c, v), c, v)
  {
    if !c.Top? {
      var m1 := SetHole(m, c, v);
      PathSame(m, m1, c.up, c.node);
      LaidSame(m, m1, if c.InLeft? then m.R(c.node) else m.L(c.node), c.node, c.other);
    }
  }

  lemma HoleSet<T>(m: Links<T>, m': Links<T>, c: Path<T>, h: Node?<T>, v: Node?<T>)
    requires PathLaid(m, c, h) && (!c.Top? ==> c.node !in PathNodes(c.up) && c.node !in Nodes(c.other))
    requires SameOn(SetHole(m, c, v), m', PathNodes(c)) && m'.root == SetHole(m, c, v).root
    ensures PathLaid(m', c, v)
  {
    HoleSetPlain(m, c, h, v);
    PathSame(SetHole(m, c, v), m', c, v);
  }

  /** A position, the node there and the subtree below it, in a tree whose nodes are among `owned`. */
  ghost predicate Here<T>(m: Links<T>, owned: set<Node<T>>, c: Path<T>, n: Node?<T>, t: Tree<Node<T>>) {
    At(m, c, n, t) && Fits(c, t) && PathNodes(c) <= owned && Nodes(t) <= owned
  }

  ghost function Linked<T>(m: Links<T>, x: Node?<T>, p: Node?<T>): Links<T> {
    if x == null then m else m.SetP(x, p)
  }

  ghost function RightRotated<T>(m: Links<T>, c: Path<T>, x: Node<T>, y: Node<T>): Links<T> {
    var m1 := Linked(m.SetL(x, m.R(y)), m.R(y), x).SetP(y, m.P(x));
    SetHole(m1, c, y).SetR(y, x).SetP(x, y)
  }

  ghost function LeftRotated<T>(m: Links<T>, c: Path<T>, x: Node<T>, y: Node<T>): Links<T> {
    var m1 := Linked(m.SetR(x, m.L(y)), m.L(y), x).SetP(y, m.P(x));
    SetHole(m1, c, y).SetL(y, x).SetP(x, y)
  }

  /** None of the nodes that a rotation of `x` and its child `y` writes to is in `s`; `b` is the
      subtree that changes sides. */
  ghost predicate Avoids<T>(s: set<Node<T>>, c: Path<T>, x: Node<T>, y: Node<T>, b: Tree<Node<T>>) {
    x !in s && y !in s && (b.Br? ==> b.node !in s) && (!c.Top? ==> c.node !in s)
  }

  lemma TipApart<T>(c: Path<T>, t: Tree<Node<T>>)
    requires Fits(c, t) && !c.Top?
    ensures c.node !in Nodes(t) && c.node !in Nodes(c.other) && c.node !in PathNodes(c.up)
  {
    var l, r := if c.InLeft? then t else c.other, if c.InLeft? then c.other else t;
    StepWhole(c.up, l, c.node, r);
    NodeApart(c.up, l, c.node, r);
  }

  lemma RotationApart<T>(c: Path<T>, a: Tree<Node<T>>, y: Node<T>, b: Tree<Node<T>>, x: Node<T>, r: Tree<Node<T>>)
    requires Fits(c, Br(Br(a, y, b), x, r))
    ensures Avoids(Nodes(a), c, x, y, b) && Avoids(Nodes(r), c, x, y, b)
    ensures b.Br? ==> Avoids(Nodes(b.left), c, x, y, b) && Avoids(Nodes(b.right), c, x, y, b)
    ensures x != y && x !in PathNodes(c) && y !in PathNodes(c) && Root(b) != x && Root(b) != y
    ensures b.Br? ==> b.node !in PathNodes(c)
    ensures !c.Top? ==> c.node !in Nodes(c.other) && c.node !in PathNodes(c.up)
  {
    NodeApart(c, Br(a, y, b), x, r);
    var c1 := InLeft(c, x, r);
    StepWhole(c, Br(a, y, b), x, r);
    NodeApart(c1, a, y, b);
    if b.Br? {
      StepWhole(c1, a, y, b);
      NodeApart(InRight(c1, y, a), b.left, b.node, b.right);
    }
    if !c.Top? { TipApart(c, Br(Br(a, y, b), x, r)); }
  }

  lemma HoleSetElsewhere<T>(m: Links<T>, c: Path<T>, v: Node?<T>, s: set<Node<T>>)
    requires !c.Top? ==> c.node !in s
    ensures SameOn(m, SetHole(m, c, v), s)
  {
  }

  lemma Parts<T>(m: Links<T>, n: Node<T>, p: Node?<T>, l: Tree<Node<T>>, r: Tree<Node<T>>)
    ensures Laid(m, n, p, Br(l, n, r)) <==> m.P(n) == p && Laid(m, m.L(n), n, l) && Laid(m, m.R(n), n, r)
    ensures Laid(m, m.L(n), n, l) ==> m.L(n) == Root(l)
    ensures Laid(m, m.R(n), n, r) ==> m.R(n) == Root(r)
  {
  }

  /** A subtree none of whose nodes a rotation writes to. */
  lemma Untouched<T>(m: Links<T>, m': Links<T>, owned: set<Node<T>>, c: Path<T>, x: Node<T>, y: Node<T>,
                     b: Tree<Node<T>>, v: Node?<T>, n: Node?<T>, p: Node?<T>, t: Tree<Node<T>>)
    requires Laid(m, n, p, t) && Nodes(t) <= owned && Avoids(Nodes(t), c, x, y, b) &&
             Elsewhere(owned, SetHole(m, c, v), m', x, y, Root(b))
    ensures Laid(m', n, p, t)
  {
    HoleSetElsewhere(m, c, v, Nodes(t));
    LaidSame(m, m', n, p, t);
  }

  ghost predicate Elsewhere<T>(owned: set<Node<T>>, m: Links<T>, m': Links<T>, x: Node<T>, y: Node<T>, z: Node?<T>) {
    && m.root == m'.root
    && forall n :: n in owned && n != x && n != y && n != z ==>
       m.L(n) == m'.L(n) && m.R(n) == m'.R(n) && m.P(n) == m'.P(n)
  }

  lemma HoleElsewhere<T>(m: Links<T>, m1: Links<T>, owned: set<Node<T>>, c: Path<T>, v: Node?<T>, x: Node<T>,
                         y: Node<T>, z: Node?<T>)
    requires Elsewhere(owned, m, m1, x, y, z)
    ensures Elsewhere(owned, SetHole(m, c, v), SetHole(m1, c, v), x, y, z)
  {
  }

  /** What a right rotation leaves in the links it writes, and what it leaves alone. */
  lemma RightEffect<T>(m: Links<T>, c: Path<T>, x: Node<T>, y: Node<T>, b: Tree<Node<T>>)
    requires x != y && m.R(y) == Root(b) && Root(b) != x && Root(b) != y
    requires !c.Top? ==> c.node != x && c.node != y && c.node != Root(b)
    ensures var m' := RightRotated(m, c, x, y);
            && m'.L(x) == m.R(y) && m'.R(x) == m.R(x) && m'.P(x) == y
            && m'.L(y) == m.L(y) && m'.R(y) == x && m'.P(y) == m.P(x)
            && (b.Br? ==> m'.L(b.node) == m.L(b.node) && m'.R(b.node) == m.R(b.node) && m'.P(b.node) == x)
  {
  }

  lemma RightElsewhere<T>(m: Links<T>, owned: set<Node<T>>, c: Path<T>, x: Node<T>, y: Node<T>, b: Tree<Node<T>>)
    requires x != y && m.R(y) == Root(b) && (!c.Top? ==> c.node != x && c.node != y)
    ensures Elsewhere(owned, SetHole(m, c, y), RightRotated(m, c, x, y), x, y, Root(b))
  {
    var m1 := Linked(m.SetL(x, m.R(y)), m.R(y), x).SetP(y, m.P(x));
    assert Elsewhere(owned, m, m1, x, y, Root(b));
    HoleElsewhere(m, m1, owned, c, y, x, y, Root(b));
    hide SetHole;
  }

  lemma LeftEffect<T>(m: Links<T>, c: Path<T>, x: Node<T>, y: Node<T>, b: Tree<Node<T>>)
    requires x != y && m.L(y) == Root(b) && Root(b) != x && Root(b) != y
    requires !c.Top? ==> c.node != x && c.node != y && c.node != Root(b)
    ensures var m' := LeftRotated(m, c, x, y);
            && m'.R(x) == m.L(y) && m'.L(x) == m.L(x) && m'.P(x) == y
            && m'.R(y) == m.R(y) && m'.L(y) == x && m'.P(y) == m.P(x)
            && (b.Br? ==> m'.L(b.node) == m.L(b.node) && m'.R(b.node) == m.R(b.node) && m'.P(b.node) == x)
  {
  }

  lemma LeftElsewhere<T>(m: Links<T>, owned: set<Node<T>>, c: Path<T>, x: Node<T>, y: Node<T>, b: Tree<Node<T>>)
    requires x != y && m.L(y) == Root(b) && (!c.Top? ==> c.node != x && c.node != y)
    ensures Elsewhere(owned, SetHole(m, c, y), LeftRotated(m, c, x, y), x, y, Root(b))
  {
    var m1 := Linked(m.SetR(x, m.L(y)), m.L(y), x).SetP(y, m.P(x));
    assert Elsewhere(owned, m, m1, x, y, Root(b));
    HoleElsewhere(m, m1, owned, c, y, x, y, Root(b));
    hide SetHole;
  }

  /** The subtree that changes sides, and with it its parent. */
  lemma Switched<T>(m: Links<T>, m': Links<T>, owned: set<Node<T>>, c: Path<T>, x: Node<T>, y: Node<T>,
                    b: Tree<Node<T>>, n: Node?<T>)
    requires Laid(m, n, y, b) && Nodes(b) <= owned && Elsewhere(owned, SetHole(m, c, y), m', x, y, Root(b))
    requires b.Br? ==> m'.L(b.node) == m.L(b.node) && m'.R(b.node) == m.R(b.node) && m'.P(b.node) == x
    requires b.Br? ==> Avoids(Nodes(b.left), c, x, y, b) && Avoids(Nodes(b.right), c, x, y, b)
    ensures Laid(m', n, x, b)
  {
    if b.Br? {
      HoleSetElsewhere(m, c, y, Nodes(b.left));
      HoleSetElsewhere(m, c, y, Nodes(b.right));
      LaidMoved(m, m', n, y, x, b);
    }
  }

  lemma RightRotation<T>(m: Links<T>, owned: set<Node<T>>, c: Path<T>, a: Tree<Node<T>>, y: Node<T>, b: Tree<Node<T>>,
                         x: Node<T>, r: Tree<Node<T>>)
    requires Here(m, owned, c, x, Br(Br(a, y, b), x, r))
    ensures m.L(x) == y && m.R(y) == Root(b) && RotationOwned(owned, c, x, y, b)
    ensures Here(RightRotated(m, c, x, y), owned, c, y, Br(a, y, Br(b, x, r)))
  {
    hide Laid, PathLaid, RightRotated, Elsewhere, SetHole;
    var m' := RightRotated(m, c, x, y);
    RotationApart(c, a, y, b, x, r);
    Rotation(a, y, b, x, r);
    assert !c.Top? ==> c.node in PathNodes(c);
    assert Fits(c, Br(a, y, Br(b, x, r)));
    assert b.Br? ==> b.node in Nodes(b);
    assert RotationOwned(owned, c, x, y, b);
    assert Nodes(a) <= owned && Nodes(b) <= owned;
    hide Nodes, Fits, PathNodes;
    Parts(m, x, Above(c), Br(a, y, b), r);
    Parts(m, y, x, a, b);
    RightEffect(m, c, x, y, b);
    RightElsewhere(m, owned, c, x, y, b);
    Untouched(m, m', owned, c, x, y, b, y, m.L(y), y, a);
    Untouched(m, m', owned, c, x, y, b, y, m.R(x), x, r);
    Switched(m, m', owned, c, x, y, b, m.R(y));
    RotatedPath(m, m', owned, c, x, y, b);
    Parts(m', x, y, b, r);
    Parts(m', y, Above(c), a, Br(b, x, r));
  }

  lemma LeftRotation<T>(m: Links<T>, owned: set<Node<T>>, c: Path<T>, l: Tree<Node<T>>, x: Node<T>, b: Tree<Node<T>>,
                        y: Node<T>, a: Tree<Node<T>>)
    requires Here(m, owned, c, x, Br(l, x, Br(b, y, a)))
    ensures m.R(x) == y && m.L(y) == Root(b) && RotationOwned(owned, c, x, y, b)
    ensures Here(LeftRotated(m, c, x, y), owned, c, y, Br(Br(l, x, b), y, a))
  {
    hide Laid, PathLaid, LeftRotated, Elsewhere, SetHole;
    var m' := LeftRotated(m, c, x, y);
    RotationApartLeft(c, l, x, b, y, a);
    Rotation(l, x, b, y, a);
    assert !c.Top? ==> c.node in PathNodes(c);
    assert Fits(c, Br(Br(l, x, b), y, a));
    assert b.Br? ==> b.node in Nodes(b);
    assert RotationOwned(owned, c, x, y, b);
    assert Nodes(a) <= owned && Nodes(b) <= owned;
    hide Nodes, Fits, PathNodes;
    Parts(m, x, Above(c), l, Br(b, y, a));
    Parts(m, y, x, b, a);
    LeftEffect(m, c, x, y, b);
    LeftElsewhere(m, owned, c, x, y, b);
    Untouched(m, m', owned, c, x, y, b, y, m.R(y), y, a);
    Untouched(m, m', owned, c, x, y, b, y, m.L(x), x, l);
    Switched(m, m', owned, c, x, y, b, m.L(y));
    RotatedPath(m, m', owned, c, x, y, b);
    Parts(m', x, y, l, b);
    Parts(m', y, Above(c), Br(l, x, b), a);
  }

  ghost predicate RotationOwned<T>(owned: set<Node<T>>, c: Path<T>, x: Node<T>, y: Node<T>, b: Tree<Node<T>>) {
    x in owned && y in owned && (b.Br? ==> b.node in owned) &&
      (!c.Top? ==> c.node in owned && c.node != x && c.node != y && c.node != Root(b))
    && x != y && Root(b) != x && Root(b) != y
  }

  lemma RotatedPath<T>(m: Links<T>, m': Links<T>, owned: set<Node<T>>, c: Path<T>, x: Node<T>, y: Node<T>,
                       b: Tree<Node<T>>)
    requires PathLaid(m, c, x) && PathNodes(c) <= owned && Elsewhere(owned, SetHole(m, c, y), m', x, y, Root(b))
    requires x !in PathNodes(c) && y !in PathNodes(c) && (b.Br? ==> b.node !in PathNodes(c))
    requires !c.Top? ==> c.node !in Nodes(c.other) && c.node !in PathNodes(c.up)
    ensures PathLaid(m', c, y)
  {
    HoleSet(m, m', c, x, y);
  }

  lemma RotationApartLeft<T>(c: Path<T>, l: Tree<Node<T>>, x: Node<T>, b: Tree<Node<T>>, y: Node<T>, a: Tree<Node<T>>)
    requires Fits(c, Br(l, x, Br(b, y, a)))
    ensures Avoids(Nodes(a), c, x, y, b) && Avoids(Nodes(l), c, x, y, b)
    ensures b.Br? ==> Avoids(Nodes(b.left), c, x, y, b) && Avoids(Nodes(b.right), c, x, y, b)
    ensures x != y && x !in PathNodes(c) && y !in PathNodes(c) && Root(b) != x && Root(b) != y
    ensures b.Br? ==> b.node !in PathNodes(c)
    ensures !c.Top? ==> c.node !in Nodes(c.other) && c.node !in PathNodes(c.up)
  {
    NodeApart(c, l, x, Br(b, y, a));
    var c1 := InRight(c, x, l);
    StepWhole(c, l, x, Br(b, y, a));
    NodeApart(c1, b, y, a);
    if b.Br? {
      StepWhole(c1, b, y, a);
      NodeApart(InLeft(c1, y, a), b.left, b.node, b.right);
    }
    if !c.Top? { TipApart(c, Br(l, x, Br(b, y, a))); }
  }

  lemma WhichSide<T>(m: Links<T>, owned: set<Node<T>>, c: Path<T>, x: Node<T>, t: Tree<Node<T>>)
    requires Here(m, owned, c, x, t)
    ensures t.Br? && t.node == x && x in owned && m.P(x) == Above(c)
    ensures !c.Top? ==> c.node in owned && (m.L(c.node) == x <==> c.InLeft?) && (m.R(c.node) == x <==> c.InRight?)
    ensures m.L(x) == Root(t.left) && m.R(x) == Root(t.right)
  {
    NodeApart(c, t.left, x, t.right);
    StepDown(m, c, t.left, x, t.right);
    if !c.Top? {
      assert (if c.InRight? then m.L(c.node) else m.R(c.node)) == Root(c.other);
      assert c.other.Br? ==> c.other.node in PathNodes(c);
    }
  }

  ghost function Parent<T>(c: Path<T>, t: Tree<Node<T>>): Tree<Node<T>>
    requires !c.Top?
  {
    if c.InLeft? then Br(t, c.node, c.other) else Br(c.other, c.node, t)
  }

  lemma HereUp<T>(m: Links<T>, owned: set<Node<T>>, c: Path<T>, n: Node?<T>, t: Tree<Node<T>>)
    requires Here(m, owned, c, n, t) && !c.Top?
    ensures Here(m, owned, c.up, c.node, Parent(c, t)) && Whole(c.up, Parent(c, t)) == Whole(c, t)
    ensures n != null ==> m.P(n) == c.node
  {
    StepUp(m, c, n, t);
    if c.InLeft? { StepWhole(c.up, t, c.node, c.other); } else { StepWhole(c.up, c.other, c.node, t); }
  }

  lemma HereDown<T>(m: Links<T>, owned: set<Node<T>>, c: Path<T>, l: Tree<Node<T>>, x: Node<T>, r: Tree<Node<T>>)
    requires Here(m, owned, c, x, Br(l, x, r))
    ensures Here(m, owned, InLeft(c, x, r), m.L(x), l) && Whole(InLeft(c, x, r), l) == Whole(c, Br(l, x, r))
    ensures Here(m, owned, InRight(c, x, l), m.R(x), r) && Whole(InRight(c, x, l), r) == Whole(c, Br(l, x, r))
    ensures m.L(x) == Root(l) && m.R(x) == Root(r)
  {
    StepDown(m, c, l, x, r);
    StepWhole(c, l, x, r);
  }

  lemma RotationWhole<T>(c: Path<T>, a: Tree<Node<T>>, y: Node<T>, b: Tree<Node<T>>, x: Node<T>, r: Tree<Node<T>>)
    ensures Whole(c, Br(a, y, Br(b, x, r))) == Whole(c, Br(Br(a, y, b), x, r))
  {
    Rotation(a, y, b, x, r);
  }

  /** Rotating without a child takes the whole subtree out of the tree. */
  lemma Detached<T>(m: Links<T>, owned: set<Node<T>>, c: Path<T>, x: Node<T>, t: Tree<Node<T>>)
    requires Here(m, owned, c, x, t)
    ensures var m' := SetHole(m, c, null).SetP(x, null); PathLaid(m', c, null) && Laid(m', x, null, t)
  {
    WhichSide(m, owned, c, x, t);
    NodeApart(c, t.left, x, t.right);
    if !c.Top? { TipApart(c, t); }
    hide Fits, InOrder, PathLaid, Laid, SetHole;
    CutOff(m, c, x, t);
  }

  lemma CutOff<T>(m: Links<T>, c: Path<T>, x: Node<T>, t: Tree<Node<T>>)
    requires At(m, c, x, t) && t.Br? && t.node == x && x !in Nodes(t.left) && x !in Nodes(t.right) && x !in PathNodes(c)
    requires !c.Top? ==> c.node !in PathNodes(c.up) && c.node !in Nodes(c.other) && c.node !in Nodes(t)
    ensures var m' := SetHole(m, c, null).SetP(x, null); PathLaid(m', c, null) && Laid(m', x, null, t)
  {
    var m1 := SetHole(m, c, null);
    HoleSetPlain(m, c, x, null);
    HoleSetElsewhere(m, c, null, Nodes(t));
    assert Nodes(t.left) <= Nodes(t) && Nodes(t.right) <= Nodes(t);
    hide SetHole, PathLaid, Laid, PathNodes, Nodes;
    PathSame(m1, m1.SetP(x, null), c, null);
    LaidMoved(m, m1.SetP(x, null), x, Above(c), null, t);
  }

  // ----- The splay on trees

  /** The subtree `t`, whose root is to go up, with everything above it: two levels at a time, first the grandparent and
      then the parent if they are on the same side. */
  ghost function SplayedUp<T>(c: Path<T>, t: Tree<Node<T>>): Tree<Node<T>>
    decreases c
  {
    if c.Top? || t.Leaf? then t
    else if c.up.Top? then
      if c.InLeft? then Br(t.left, t.node, Br(t.right, c.node, c.other))
        else Br(Br(c.other, c.node, t.left), t.node, t.right)
    else SplayedUp(c.up.up, DoubleStep(c, t))
  }

  ghost function DoubleStep<T>(c: Path<T>, t: Tree<Node<T>>): Tree<Node<T>>
    requires !c.Top? && !c.up.Top? && t.Br?
  {
    var a, x, b, p, s := t.left, t.node, t.right, c.node, c.other;
    var g, d := c.up.node, c.up.other;
    if c.InLeft? then
      if c.up.InLeft? then Br(a, x, Br(b, p, Br(s, g, d))) else Br(Br(d, g, a), x, Br(b, p, s))
    else if c.up.InRight? then Br(Br(Br(d, g, s), p, a), x, b) else Br(Br(s, p, a), x, Br(b, g, d))
  }

  ghost function PathLength<T>(c: Path<T>): nat {
    if c.Top? then 0 else 1 + PathLength(c.up)
  }

  /** The greatest height of a subtree beside the path. */
  ghost function Beside<T>(c: Path<T>): nat {
    if c.Top? then 0 else Max(Height(c.other), Beside(c.up))
  }

  lemma {:induction false} BelowPath<T>(c: Path<T>, t: Tree<Node<T>>)
    ensures Height(Plug(c, t)) >= PathLength(c) + Height(t)
  {
    match c
    case Top =>
    case InLeft(up, n, s) => BelowPath(up, Br(t, n, s));
    case InRight(up, n, s) => BelowPath(up, Br(s, n, t));
  }

  /** A splay halves the depth: of the path only every other node adds to the height. */
  lemma SplayHalves<T>(c: Path<T>, t: Tree<Node<T>>)
    ensures Height(SplayedUp(c, t)) <= (PathLength(c) + 1) / 2 + Max(Height(t), Beside(c) + 2)
  {
    HalvedWithin(c, t, Max(Height(t), Beside(c) + 2));
  }

  lemma {:induction false} HalvedWithin<T>(c: Path<T>, t: Tree<Node<T>>, h: nat)
    requires Height(t) <= h && Beside(c) + 2 <= h
    ensures Height(SplayedUp(c, t)) <= (PathLength(c) + 1) / 2 + h
    decreases c
  {
    if !c.Top? && t.Br? {
      var a, x, b, p, s := t.left, t.node, t.right, c.node, c.other;
      OnPath(c);
      Lower(t);
      if c.up.Top? {
        SingleStep(a, x, b, p, s, h);
      } else {
        var top, g, d := c.up.up, c.up.node, c.up.other;
        assert SplayedUp(c, t) == SplayedUp(top, DoubleStep(c, t));
        hide SplayedUp, Height, PathLength, Beside;
        OnPath(c.up);
        DoubleStepHeight(a, x, b, p, s, g, d, h);
        HalvedWithin(top, DoubleStep(c, t), h + 1);
      }
    }
  }

  lemma NextStep<T>(c: Path<T>, t: Tree<Node<T>>)
    requires !c.Top? && t.Br?
    ensures var a, x, b, p, s := t.left, t.node, t.right, c.node, c.other;
            if c.up.Top? then
              && (c.InLeft? ==> SplayedUp(c, t) == SplayedUp(Top, Br(a, x, Br(b, p, s))))
              && (c.InRight? ==> SplayedUp(c, t) == SplayedUp(Top, Br(Br(s, p, a), x, b)))
            else
              SplayedUp(c, t) == SplayedUp(c.up.up, DoubleStep(c, t))
  {
  }

  lemma NoStep<T>(c: Path<T>, t: Tree<Node<T>>)
    ensures c.Top? ==> SplayedUp(c, t) == t
  {
  }

  lemma OnPath<T>(c: Path<T>)
    requires !c.Top?
    ensures Height(c.other) <= Beside(c) && Beside(c.up) <= Beside(c) && PathLength(c) == 1 + PathLength(c.up)
  {
  }

  lemma Lower<N>(t: Tree<N>)
    requires t.Br?
    ensures Height(t.left) < Height(t) && Height(t.right) < Height(t)
  {
  }

  lemma SingleStep<N>(a: Tree<N>, x: N, b: Tree<N>, p: N, s: Tree<N>, h: nat)
    requires h >= 2 && Height(a) < h && Height(b) < h && Height(s) <= h - 2
    ensures Height(Br(a, x, Br(b, p, s))) <= h + 1 && Height(Br(Br(s, p, a), x, b)) <= h + 1
  {
    hide Height, Max;
    Taller(b, p, s, h - 1);
    Taller(s, p, a, h - 1);
    Taller(a, x, Br(b, p, s), h);
    Taller(Br(s, p, a), x, b, h);
  }

  lemma DoubleStepHeight<N>(a: Tree<N>, x: N, b: Tree<N>, p: N, s: Tree<N>, g: N, d: Tree<N>, h: nat)
    requires h >= 2 && Height(a) < h && Height(b) < h && Height(s) <= h - 2 && Height(d) <= h - 2
    ensures Height(Br(a, x, Br(b, p, Br(s, g, d)))) <= h + 1 && Height(Br(Br(Br(d, g, s), p, a), x, b)) <= h + 1
    ensures Height(Br(Br(d, g, a), x, Br(b, p, s))) <= h + 1 && Height(Br(Br(s, p, a), x, Br(b, g, d))) <= h + 1
  {
    hide Height, Max;
    Taller(s, g, d, h - 2);
    Taller(b, p, Br(s, g, d), h - 1);
    Taller(a, x, Br(b, p, Br(s, g, d)), h);
    Taller(d, g, s, h - 2);
    Taller(Br(d, g, s), p, a, h - 1);
    Taller(Br(Br(d, g, s), p, a), x, b, h);
    Taller(d, g, a, h - 1);
    Taller(b, p, s, h - 1);
    Taller(Br(d, g, a), x, Br(b, p, s), h);
    Taller(s, p, a, h - 1);
    Taller(b, g, d, h - 1);
    Taller(Br(s, p, a), x, Br(b, g, d), h);
  }

  // ----- Order

  /** What the container asks of its comparison: a strict weak order. */
  ghost predicate StrictWeakOrder<T(!new)>(comp: (T, T) -> bool) {
    && (forall a :: !comp(a, a))
    && (forall a, b, c :: comp(a, b) && comp(b, c) ==> comp(a, c))
    && (forall a, b, c :: !comp(a, b) && !comp(b, c) ==> !comp(a, c))
  }

  ghost predicate Sorted<T>(comp: (T, T) -> bool, s: seq<Node<T>>) {
    forall i, j :: 0 <= i < j < |s| ==> !comp(s[j].key, s[i].key)
  }

  ghost predicate AllBelow<T>(comp: (T, T) -> bool, s: seq<Node<T>>, key: T) {
    forall i :: 0 <= i < |s| ==> comp(s[i].key, key)
  }

  ghost predicate NoneBelow<T>(comp: (T, T) -> bool, s: seq<Node<T>>, key: T) {
    forall i :: 0 <= i < |s| ==> !comp(s[i].key, key)
  }

  ghost predicate AllAbove<T>(comp: (T, T) -> bool, s: seq<Node<T>>, key: T) {
    forall i :: 0 <= i < |s| ==> comp(key, s[i].key)
  }

  /** Everything up to an element below `key` is below `key`; everything from one not below on is not. */
  lemma Sides<T(!new)>(comp: (T, T) -> bool, a: seq<Node<T>>, z: Node<T>, b: seq<Node<T>>, key: T)
    requires StrictWeakOrder(comp) && Sorted(comp, a + [z] + b)
    ensures comp(z.key, key) ==> AllBelow(comp, a + [z], key)
    ensures !comp(z.key, key) ==> NoneBelow(comp, [z] + b, key)
    ensures comp(key, z.key) ==> AllAbove(comp, [z] + b, key)
  {
    var s := a + [z] + b;
    assert s[|a|] == z;
    forall i | 0 <= i < |a| ensures !comp(z.key, a[i].key) { assert s[i] == a[i]; }
    forall i | 0 <= i < |b| ensures !comp(b[i].key, z.key) { assert s[|a| + 1 + i] == b[i]; }
    assert comp(z.key, key) ==> forall i :: 0 <= i < |a| ==> comp(a[i].key, key);
    assert !comp(z.key, key) ==> forall i :: 0 <= i < |b| ==> !comp(b[i].key, key);
    assert comp(key, z.key) ==> forall i :: 0 <= i < |b| ==> comp(key, b[i].key);
  }

  /** What one step of a search learns about the keys left behind. */
  lemma SearchStep<T(!new)>(comp: (T, T) -> bool, c: Path<T>, l: Tree<Node<T>>, z: Node<T>, r: Tree<Node<T>>, key: T)
    requires StrictWeakOrder(comp) && Sorted(comp, Whole(c, Br(l, z, r)))
    ensures comp(z.key, key) ==> AllBelow(comp, Before(InRight(c, z, l)), key)
    ensures !comp(z.key, key) ==> NoneBelow(comp, After(InLeft(c, z, r)), key)
    ensures comp(key, z.key) ==> AllAbove(comp, After(InLeft(c, z, r)), key)
  {
    var a, b := Before(c) + InOrder(l), InOrder(r) + After(c);
    assert Whole(c, Br(l, z, r)) == a + [z] + b by { Regroup(Before(c), InOrder(l), z, InOrder(r), After(c)); }
    Sides(comp, a, z, b, key);
    assert [z] + b == [z] + InOrder(r) + After(c);
  }

  lemma InWhole<T>(c: Path<T>, t: Tree<Node<T>>)
    ensures t.Br? ==> t.node in Whole(c, t)
    ensures t.Leaf? ==> Whole(c, t) == Before(c) + After(c)
  {
  }

  lemma NullLeaf<T>(m: Links<T>, owned: set<Node<T>>, c: Path<T>, t: Tree<Node<T>>)
    requires Here(m, owned, c, null, t)
    ensures t.Leaf?
  {
  }

  /** A fresh node linked into an empty position. */
  lemma Attached<T>(m: Links<T>, owned: set<Node<T>>, c: Path<T>, z: Node<T>) returns (m1: Links<T>, m2: Links<T>)
    requires Here(m, owned, c, null, Leaf) && z !in owned
    ensures m1 == m.SetL(z, null).SetR(z, null).SetP(z, Above(c)) && m2 == SetHole(m1, c, z)
    ensures Here(m2, owned + {z}, c, z, Br(Leaf, z, Leaf)) && Whole(c, Br(Leaf, z, Leaf)) == Before(c) + [z] + After(c)
  {
    AttachedFits(m, owned, c, z);
    m1 := m.SetL(z, null).SetR(z, null).SetP(z, Above(c));
    m2 := SetHole(m1, c, z);
    hide Fits, Whole, PathNodes, PathLaid, Laid, SetHole, Before, After;
    HungOn(m, c, z);
  }

  lemma HungOn<T>(m: Links<T>, c: Path<T>, z: Node<T>)
    requires PathLaid(m, c, null) && z !in PathNodes(c)
    requires !c.Top? ==> c.node != z && c.node !in PathNodes(c.up) && c.node !in Nodes(c.other)
    ensures At(SetHole(m.SetL(z, null).SetR(z, null).SetP(z, Above(c)), c, z), c, z, Br(Leaf, z, Leaf))
  {
    hide PathLaid, PathNodes, Nodes, SetHole, Laid;
    var m1 := m.SetL(z, null).SetR(z, null).SetP(z, Above(c));
    PathSame(m, m1, c, null);
    HoleSetPlain(m1, c, null, z);
    HoleSetElsewhere(m1, c, z, {z});
    Alone(SetHole(m1, c, z), z, Above(c));
  }

  lemma Alone<T>(m: Links<T>, z: Node<T>, p: Node?<T>)
    requires m.L(z) == null && m.R(z) == null && m.P(z) == p
    ensures Laid(m, z, p, Br(Leaf, z, Leaf))
  {
    assert Laid<T>(m, null, z, Leaf);
  }

  lemma AttachedFits<T>(m: Links<T>, owned: set<Node<T>>, c: Path<T>, z: Node<T>)
    requires Here(m, owned, c, null, Leaf) && z !in owned
    ensures Fits(c, Br(Leaf, z, Leaf)) && Whole(c, Br(Leaf, z, Leaf)) == Before(c) + [z] + After(c)
    ensures Nodes(Br(Leaf, z, Leaf)) == {z}
    ensures z !in PathNodes(c)
    ensures !c.Top? ==> c.node != z && c.node in owned && c.node !in PathNodes(c.up) && c.node !in Nodes(c.other)
  {
    if !c.Top? {
      TipApart(c, Leaf);
      assert c.node in PathNodes(c);
    }
    PathMember(z, c);
    InWhole(c, Leaf);
    FreshFits(Before(c), z, After(c));
    assert InOrder(Br(Leaf, z, Leaf)) == [z];
  }

  lemma FreshFits<N>(a: seq<N>, z: N, b: seq<N>)
    requires NoDup(a + b) && z !in a && z !in b
    ensures NoDup(a + [z] + b)
  {
    var s, s' := a + b, a + [z] + b;
    forall i, j | 0 <= i < j < |s'| ensures s'[i] != s'[j] {
      if i != |a| && j != |a| {
        assert s'[i] == s[if i < |a| then i else i - 1] && s'[j] == s[if j < |a| then j else j - 1];
      }
    }
  }

  lemma NotFound<T>(comp: (T, T) -> bool, c: Path<T>, key: T, s: seq<Node<T>>)
    requires s == Before(c) + After(c) && AllBelow(comp, Before(c), key) && AllAbove(comp, After(c), key)
    ensures forall n :: n in s ==> comp(n.key, key) || comp(key, n.key)
  {
  }

  lemma SortedWithNew<T(!new)>(comp: (T, T) -> bool, a: seq<Node<T>>, z: Node<T>, b: seq<Node<T>>)
    requires StrictWeakOrder(comp) && Sorted(comp, a + b) && AllBelow(comp, a, z.key) && NoneBelow(comp, b, z.key)
    ensures Sorted(comp, a + [z] + b)
  {
    var s, s' := a + b, a + [z] + b;
    forall i, j | 0 <= i < j < |s'| ensures !comp(s'[j].key, s'[i].key) {
      if i < |a| && j > |a| {
        assert s[i] == s'[i] && s[j - 1] == s'[j];
      } else if j < |a| {
        assert s[i] == s'[i] && s[j] == s'[j];
      } else if i > |a| {
        assert s[i - 1] == s'[i] && s[j - 1] == s'[j];
      } else if j == |a| {
        assert comp(s'[i].key, z.key);
      }
    }
  }

  // ----- Taking a node out

  ghost predicate RootOnce<T>(t: Tree<Node<T>>) {
    t.Br? ==> t.node !in Nodes(t.left) && t.node !in Nodes(t.right)
  }

  /** `replace`: the subtree `w`, wherever its root hung before, now sits at position `c`. */
  lemma Replaced<T>(m: Links<T>, c: Path<T>, h: Node?<T>, q: Node?<T>, w: Tree<Node<T>>)
    requires PathLaid(m, c, h) && Laid(m, Root(w), q, w) && RootOnce(w) && (w.Br? ==> w.node !in PathNodes(c))
    requires !c.Top? ==> c.node !in PathNodes(c.up) && c.node !in Nodes(c.other) && c.node !in Nodes(w)
    ensures At(Linked(SetHole(m, c, Root(w)), Root(w), Above(c)), c, Root(w), w)
  {
    hide PathLaid, Laid, PathNodes, Nodes, SetHole, Linked;
    ReplacedAbove(m, c, h, w);
    ReplacedBelow(m, c, q, w);
  }

  lemma ReplacedAbove<T>(m: Links<T>, c: Path<T>, h: Node?<T>, w: Tree<Node<T>>)
    requires PathLaid(m, c, h) && (w.Br? ==> w.node !in PathNodes(c))
    requires !c.Top? ==> c.node !in PathNodes(c.up) && c.node !in Nodes(c.other)
    ensures PathLaid(Linked(SetHole(m, c, Root(w)), Root(w), Above(c)), c, Root(w))
  {
    var m1 := SetHole(m, c, Root(w));
    HoleSetPlain(m, c, h, Root(w));
    hide SetHole, PathLaid, PathNodes, Nodes;
    PathSame(m1, Linked(m1, Root(w), Above(c)), c, Root(w));
  }

  lemma ReplacedBelow<T>(m: Links<T>, c: Path<T>, q: Node?<T>, w: Tree<Node<T>>)
    requires Laid(m, Root(w), q, w) && RootOnce(w) && (!c.Top? ==> c.node !in Nodes(w))
    ensures Laid(Linked(SetHole(m, c, Root(w)), Root(w), Above(c)), Root(w), Above(c), w)
  {
    var m1 := SetHole(m, c, Root(w));
    HoleSetElsewhere(m, c, Root(w), Nodes(w));
    assert w.Br? ==> w.node in Nodes(w) && Nodes(w.left) <= Nodes(w) && Nodes(w.right) <= Nodes(w);
    hide SetHole, Laid, Nodes;
    LaidMoved(m, Linked(m1, Root(w), Above(c)), Root(w), q, Above(c), w);
  }

  lemma SeqWithout<N>(a: seq<N>, z: N, b: seq<N>)
    ensures NoDup(a + [z] + b) ==> NoDup(a + b)
    ensures var s := a + [z] + b; s[|a|] == z && a + b == s[..|a|] + s[|a| + 1..]
  {
    var s := a + [z] + b;
    assert forall i :: 0 <= i < |a + b| ==> (a + b)[i] == s[if i < |a| then i else i + 1];
  }

  /** A sequence without one node whose key is equivalent to `key`. */
  lemma OneLess<T>(comp: (T, T) -> bool, s: seq<Node<T>>, a: seq<Node<T>>, z: Node<T>, b: seq<Node<T>>, key: T)
    requires s == a + [z] + b && !comp(z.key, key) && !comp(key, z.key)
    ensures exists k :: 0 <= k < |s| && !comp(s[k].key, key) && !comp(key, s[k].key) && a + b == s[..k] + s[k + 1..]
  {
    SeqWithout(a, z, b);
    var k := |a|;
    assert s[k] == z && a + b == s[..k] + s[k + 1..];
  }

  lemma SortedWithout<T>(comp: (T, T) -> bool, a: seq<Node<T>>, z: Node<T>, b: seq<Node<T>>)
    requires Sorted(comp, a + [z] + b)
    ensures Sorted(comp, a + b)
  {
    var s := a + [z] + b;
    assert forall i :: 0 <= i < |a + b| ==> (a + b)[i] == s[if i < |a| then i else i + 1];
  }

  lemma AtTop<T>(l: Tree<Node<T>>, z: Node<T>, r: Tree<Node<T>>)
    ensures Whole(Top, Br(l, z, r)) == InOrder(l) + [z] + InOrder(r)
    ensures Whole(Top, l) == InOrder(l)
  {
    var s := InOrder(Br(l, z, r));
    assert [] + s + [] == s;
    assert [] + InOrder(l) + [] == InOrder(l);
  }

  /** The facts about the root's subtrees that taking out the root relies on. */
  lemma RootParts<T>(l: Tree<Node<T>>, z: Node<T>, r: Tree<Node<T>>)
    requires Fits(Top, Br(l, z, r))
    ensures RootOnce(l) && RootOnce(r) && z !in Nodes(l) && z !in Nodes(r)
    ensures l.Br? ==> l.node != z && l.node !in Nodes(r)
    ensures r.Br? ==> r.node != z && r.node !in Nodes(l)
  {
    NodeApart(Top, l, z, r);
    StepWhole(Top, l, z, r);
    if l.Br? { NodeApart(InLeft(Top, z, r), l.left, l.node, l.right); }
    if r.Br? { NodeApart(InRight(Top, z, l), r.left, r.node, r.right); }
  }

  lemma BelowRoot<T>(m: Links<T>, owned: set<Node<T>>, l: Tree<Node<T>>, z: Node<T>, r: Tree<Node<T>>)
    requires Here(m, owned, Top, z, Br(l, z, r))
    ensures z in owned && m.P(z) == null && m.root == z && m.L(z) == Root(l) && m.R(z) == Root(r)
    ensures Laid(m, Root(l), z, l) && Laid(m, Root(r), z, r)
  {
    StepDown(m, Top, l, z, r);
  }

  lemma BelowRootOwned<T>(m: Links<T>, owned: set<Node<T>>, l: Tree<Node<T>>, z: Node<T>, r: Tree<Node<T>>)
    requires Here(m, owned, Top, z, Br(l, z, r))
    ensures Nodes(l) <= owned && Nodes(r) <= owned && (l.Br? ==> l.node in owned) && (r.Br? ==> r.node in owned)
  {
    assert l.Br? ==> l.node in Nodes(l);
    assert r.Br? ==> r.node in Nodes(r);
  }

  /** A root with one subtree at most is replaced by that subtree. */
  lemma RootReplaced<T>(m: Links<T>, owned: set<Node<T>>, l: Tree<Node<T>>, z: Node<T>, r: Tree<Node<T>>)
    requires Here(m, owned, Top, z, Br(l, z, r)) && (l.Leaf? || r.Leaf?)
    ensures var w := if l.Leaf? then r else l;
            && Here(Linked(SetHole(m, Top, Root(w)), Root(w), Above(Top)), owned, Top, Root(w), w)
            && Linked(SetHole(m, Top, Root(w)), Root(w), Above(Top)).root == Root(w)
            && Whole(Top, w) == InOrder(l) + InOrder(r)
  {
    var w := if l.Leaf? then r else l;
    RootParts(l, z, r);
    BelowRoot(m, owned, l, z, r);
    BelowRootOwned(m, owned, l, z, r);
    Replaced(m, Top, z, z, w);
    AtTop(l, z, r);
    AtTop(r, z, l);
    SeqWithout(InOrder(l), z, InOrder(r));
    assert InOrder(l) + InOrder(r) == InOrder(w);
  }

  /** `c` lies below `c0`, and only left turns lead there. */
  ghost predicate Leftmost<T>(c: Path<T>, c0: Path<T>) {
    c == c0 || (c.InLeft? && Leftmost(c.up, c0))
  }

  /** The subtree at `c0` when `w` sits at `c`. */
  ghost function FillTo<T>(c: Path<T>, c0: Path<T>, w: Tree<Node<T>>): Tree<Node<T>>
    requires Leftmost(c, c0)
  {
    if c == c0 then w else FillTo(c.up, c0, Br(w, c.node, c.other))
  }

  lemma {:induction false} Filled<T>(m: Links<T>, c: Path<T>, c0: Path<T>, w: Tree<Node<T>>)
    requires Leftmost(c, c0)
    ensures Before(c) == Before(c0) && Whole(c0, FillTo(c, c0, w)) == Whole(c, w)
    ensures At(m, c, Root(w), w) ==> At(m, c0, Root(FillTo(c, c0, w)), FillTo(c, c0, w))
    ensures c != c0 || w.Br? ==> FillTo(c, c0, w).Br?
    ensures Nodes(FillTo(c, c0, w)) <= PathNodes(c) + Nodes(w)
  {
    if c != c0 {
      StepWhole(c.up, w, c.node, c.other);
      Filled(m, c.up, c0, Br(w, c.node, c.other));
    }
  }

  /** The successor `y` of the root `z` is out of its old place and already has the rest of the right subtree
      below it. */
  ghost predicate Ready<T>(m: Links<T>, owned: set<Node<T>>, z: Node<T>, l: Tree<Node<T>>, y: Node<T>,
                           r: Tree<Node<T>>) {
    && m.root == z && m.P(z) == null && z in owned && y in owned && Nodes(l) <= owned && Nodes(r) <= owned
    && m.L(z) == Root(l) && Laid(m, Root(l), z, l)
    && m.R(y) == Root(r) && Laid(m, Root(r), y, r)
  }

  ghost function Unhooked<T>(m: Links<T>, c: Path<T>, w: Tree<Node<T>>): Links<T> {
    Linked(SetHole(m, c, Root(w)), Root(w), Above(c))
  }

  lemma SuccessorContents<T>(l: Tree<Node<T>>, z: Node<T>, r: Tree<Node<T>>, y: Node<T>, c: Path<T>, w: Tree<Node<T>>)
    requires Leftmost(c, InRight(Top, z, l)) && Whole(c, Br(Leaf, y, w)) == Whole(Top, Br(l, z, r)) &&
             Fits(Top, Br(l, z, r))
    ensures var r' := FillTo(c, InRight(Top, z, l), w);
            InOrder(r) == [y] + InOrder(r') && Fits(Top, Br(l, y, r')) &&
              Whole(Top, Br(l, y, r')) == InOrder(l) + InOrder(r)
  {
    var c0 := InRight(Top, z, l);
    var r' := FillTo(c, c0, w);
    assert Before(c) == Before(c0) && Whole(c0, r') == Whole(c, w) by {
      Filled(Links<T>.Links(null, map[], map[], map[]), c, c0, w);
    }
    assert Before(c0) == InOrder(l) + [z] && After(c0) == [] by { Units(InOrder(l), z, []); }
    AtTop(l, z, r);
    AtTop(l, y, r');
    assert InOrder(Br(Leaf, y, w)) == [y] + InOrder(w) by { Units([], y, InOrder(w)); }
    hide Leftmost, FillTo, InOrder, Before, After, NoDup;
    SuccessorSeq(InOrder(l) + [z], InOrder(r), y, InOrder(w), After(c), InOrder(r'));
    SeqWithout(InOrder(l), z, InOrder(r));
    Units(InOrder(l), y, InOrder(r'));
  }

  lemma SuccessorSeq<N>(p: seq<N>, r: seq<N>, y: N, w: seq<N>, a: seq<N>, r': seq<N>)
    requires p + ([y] + w) + a == p + r && p + r' + [] == p + w + a
    ensures r == [y] + r'
  {
    assert p + ([y] + w) + a == p + ([y] + w + a) && p + w + a == p + (w + a) && p + r' + [] == p + r';
    Cancel(p, [y] + w + a, r);
    Cancel(p, r', w + a);
    assert [y] + w + a == [y] + (w + a);
  }

  lemma Cancel<N>(p: seq<N>, a: seq<N>, b: seq<N>)
    requires p + a == p + b
    ensures a == b
  {
    assert a == (p + a)[|p|..] && b == (p + b)[|p|..];
  }

  lemma Unhooking<T>(m: Links<T>, owned: set<Node<T>>, y: Node<T>, c: Path<T>, w: Tree<Node<T>>)
    requires Here(m, owned, c, y, Br(Leaf, y, w)) && !c.Top?
    ensures At(Unhooked(m, c, w), c, Root(w), w)
    ensures y in owned && m.P(y) == Above(c) && m.R(y) == Root(w) && (w.Br? ==> w.node in owned)
    ensures c.node in owned && (m.L(c.node) == y <==> c.InLeft?) && c.node != y
  {
    WhichSide(m, owned, c, y, Br(Leaf, y, w));
    TipApart(c, Br(Leaf, y, w));
    StepWhole(c, Leaf, y, w);
    StepDown(m, c, Leaf, y, w);
    if w.Br? {
      assert w.node in Nodes(w);
      NodeApart(InRight(c, y, Leaf), w.left, w.node, w.right);
    }
    Replaced(m, c, y, y, w);
  }

  /** When the successor is not the root's child, it is replaced by its right subtree first. */
  lemma Extracted<T>(m: Links<T>, owned: set<Node<T>>, l: Tree<Node<T>>, z: Node<T>, r: Tree<Node<T>>, y: Node<T>,
                     c: Path<T>, w: Tree<Node<T>>)
    requires var c0 := InRight(Top, z, l); Leftmost(c, c0) && c != c0
    requires Here(m, owned, Top, z, Br(l, z, r)) && Here(m, owned, c, y, Br(Leaf, y, w))
    requires Whole(c, Br(Leaf, y, w)) == Whole(Top, Br(l, z, r))
    ensures var m1, r' := Unhooked(m, c, w), FillTo(c, InRight(Top, z, l), w);
            && r'.Br? && m1.R(z) == r'.node && r'.node in owned && y != r'.node && z != y
            && Ready(m1.SetR(y, r'.node).SetP(r'.node, y), owned, z, l, y, r')
  {
    var c0 := InRight(Top, z, l);
    var m1, r' := Unhooked(m, c, w), FillTo(c, c0, w);
    Unhooking(m, owned, y, c, w);
    Filled(m1, c, c0, w);
    ExtractedApart(m, owned, l, z, r, y, c, w);
    hide Nodes, PathNodes, Fits, Whole, InOrder, NoDup, Unhooked, FillTo, Leftmost;
    BelowRoot(m, owned, l, z, r);
    Parts(m1, z, null, l, r');
    Rehung(m1, owned, l, z, y, r');
  }

  lemma SameApart<T>(m: Links<T>, y: Node<T>, x: Node<T>, s: set<Node<T>>)
    requires x !in s && y !in s
    ensures SameOn(m, m.SetR(y, x).SetP(x, y), s)
  {
  }

  /** Everything below the root on its right goes below the successor. */
  lemma Rehung<T>(m: Links<T>, owned: set<Node<T>>, l: Tree<Node<T>>, z: Node<T>, y: Node<T>, r: Tree<Node<T>>)
    requires m.root == z && m.P(z) == null && z in owned && y in owned && Nodes(l) <= owned && Nodes(r) <= owned
    requires m.L(z) == Root(l) && Laid(m, Root(l), z, l) && r.Br? && Laid(m, r.node, z, r) && RootOnce(r)
    requires y !in Nodes(l) && y !in Nodes(r) && r.node !in Nodes(l) && z != y && z != r.node && y != r.node
    requires y !in Nodes(r.left) && y !in Nodes(r.right)
    ensures Ready(m.SetR(y, r.node).SetP(r.node, y), owned, z, l, y, r)
  {
    var m2 := m.SetR(y, r.node).SetP(r.node, y);
    hide Laid, Nodes, SameOn;
    SameApart(m, y, r.node, Nodes(l));
    SameApart(m, y, r.node, Nodes(r.left));
    SameApart(m, y, r.node, Nodes(r.right));
    LaidSame(m, m2, Root(l), z, l);
    LaidMoved(m, m2, r.node, z, y, r);
  }

  lemma ExtractedApart<T>(m: Links<T>, owned: set<Node<T>>, l: Tree<Node<T>>, z: Node<T>, r: Tree<Node<T>>, y: Node<T>,
                          c: Path<T>, w: Tree<Node<T>>)
    requires var c0 := InRight(Top, z, l); Leftmost(c, c0) && c != c0
    requires Here(m, owned, Top, z, Br(l, z, r)) && Here(m, owned, c, y, Br(Leaf, y, w))
    requires Whole(c, Br(Leaf, y, w)) == Whole(Top, Br(l, z, r))
    ensures var r' := FillTo(c, InRight(Top, z, l), w);
            && r'.Br? && r'.node in owned && Nodes(r') <= owned && Nodes(l) <= owned && RootOnce(r')
            && y !in Nodes(l) && y !in Nodes(r') && y !in Nodes(r'.left) && y !in Nodes(r'.right) &&
               r'.node !in Nodes(l)
            && z != y && z != r'.node && y != r'.node
  {
    var r' := FillTo(c, InRight(Top, z, l), w);
    Filled(m, c, InRight(Top, z, l), w);
    SuccessorContents(l, z, r, y, c, w);
    RootParts(l, y, r');
    RootParts(l, z, r);
    BelowRootOwned(m, owned, l, z, r);
    assert r'.node in Nodes(r');
    Member(y, r);
    Member(r'.node, r);
    Member(r'.node, r');
  }

  /** When it is the root's right child, it already has its own right subtree below it. */
  lemma InPlace<T>(m: Links<T>, owned: set<Node<T>>, l: Tree<Node<T>>, z: Node<T>, r: Tree<Node<T>>, y: Node<T>,
                   w: Tree<Node<T>>)
    requires Here(m, owned, Top, z, Br(l, z, r)) && Here(m, owned, InRight(Top, z, l), y, Br(Leaf, y, w))
    ensures Ready(m, owned, z, l, y, w)
  {
    BelowRoot(m, owned, l, z, r);
    BelowRootOwned(m, owned, l, z, r);
    StepDown(m, InRight(Top, z, l), Leaf, y, w);
  }

  lemma HereFits<T>(m: Links<T>, owned: set<Node<T>>, c: Path<T>, n: Node?<T>, t: Tree<Node<T>>)
    requires Here(m, owned, c, n, t)
    ensures Fits(c, t)
  {
  }

  lemma UnhookedIs<T>(m: Links<T>, c: Path<T>, w: Tree<Node<T>>)
    ensures Unhooked(m, c, w) == Linked(SetHole(m, c, Root(w)), Root(w), Above(c))
  {
  }

  lemma FillNothing<T>(c: Path<T>, w: Tree<Node<T>>)
    ensures Leftmost(c, c) && FillTo(c, c, w) == w
  {
  }

  lemma {:induction false} BaseOnPath<T>(c: Path<T>, c0: Path<T>)
    requires Leftmost(c, c0)
    ensures PathNodes(c0) <= PathNodes(c)
  {
    if c != c0 { BaseOnPath(c.up, c0); }
  }

  lemma ParentIsNotRoot<T>(c: Path<T>, z: Node<T>, l: Tree<Node<T>>, t: Tree<Node<T>>)
    requires Leftmost(c, InRight(Top, z, l)) && Fits(c, t)
    ensures Above(c) != null && (Above(c) == z <==> c == InRight(Top, z, l))
  {
    if c != InRight(Top, z, l) {
      BaseOnPath(c.up, InRight(Top, z, l));
      TipApart(c, t);
    }
  }

  /** The last writes of `erase`: `y` takes the place of `z` and its left subtree. */
  lemma Seated<T>(m: Links<T>, owned: set<Node<T>>, l: Tree<Node<T>>, z: Node<T>, y: Node<T>, r: Tree<Node<T>>)
    requires Ready(m, owned, z, l, y, r) && Fits(Top, Br(l, y, r)) && l.Br? && z != y
    ensures Here(m.SetRoot(y).SetP(y, null).SetL(y, l.node).SetP(l.node, y), owned, Top, y, Br(l, y, r))
    ensures l.node in owned && l.node != y
  {
    var m' := m.SetRoot(y).SetP(y, null).SetL(y, l.node).SetP(l.node, y);
    RootParts(l, y, r);
    assert l.node in Nodes(l);
    assert Nodes(Br(l, y, r)) <= owned;
    hide Nodes, Fits, InOrder, NoDup, Whole;
    LaidMoved(m, m', Root(l), z, y, l);
    LaidSame(m, m', Root(r), y, r);
    Parts(m', y, null, l, r);
  }

  /** The same layout, read off the heap. */
  ghost predicate Shape<T>(n: Node?<T>, p: Node?<T>, t: Tree<Node<T>>)
    reads Nodes(t)
    decreases t
  {
    match t
    case Leaf => n == null
    case Br(l, x, r) => n == x && x.parent == p && Shape(x.left, n, l) && Shape(x.right, n, r)
  }

  /** `p_size` is an unsigned long. */
  const WORD: int := 0x1_0000_0000_0000_0000

  class SplayTree<T(!new)> {
    var root: Node?<T>
    var pSize: nat
    const comp: (T, T) -> bool
    ghost var tree: Tree<Node<T>>

    ghost predicate Agrees(owned: set<Node<T>>, m: Links<T>)
      reads this`root, owned
    {
      m.root == root && forall n :: n in owned ==> n.left == m.L(n) && n.right == m.R(n) && n.parent == m.P(n)
    }

    lemma Reads(owned: set<Node<T>>, m: Links<T>, n: Node<T>)
      requires Agrees(owned, m) && n in owned
      ensures n.left == m.L(n) && n.right == m.R(n) && n.parent == m.P(n) && root == m.root
    {
    }

    // One write each, to the field and to its snapshot.

    method SetLeft(n: Node<T>, v: Node?<T>, ghost m: Links<T>, ghost owned: set<Node<T>>) returns (ghost m': Links<T>)
      requires Agrees(owned, m) && n in owned
      modifies n`left
      ensures m' == m.SetL(n, v) && Agrees(owned, m')
    {
      n.left := v;
      m' := m.SetL(n, v);
    }

    method SetRight(n: Node<T>, v: Node?<T>, ghost m: Links<T>, ghost owned: set<Node<T>>) returns (ghost m': Links<T>)
      requires Agrees(owned, m) && n in owned
      modifies n`right
      ensures m' == m.SetR(n, v) && Agrees(owned, m')
    {
      n.right := v;
      m' := m.SetR(n, v);
    }

    method SetParent(n: Node<T>, v: Node?<T>, ghost m: Links<T>, ghost owned: set<Node<T>>) returns (ghost m': Links<T>)
      requires Agrees(owned, m) && n in owned
      modifies n`parent
      ensures m' == m.SetP(n, v) && Agrees(owned, m')
    {
      n.parent := v;
      m' := m.SetP(n, v);
    }

    /** The link from the parent of `x`, or the root, is made to lead to `v`. */
    method Redirect(x: Node<T>, v: Node?<T>, ghost m: Links<T>, ghost owned: set<Node<T>>, ghost c: Path<T>)
      requires Agrees(owned, m) && x in owned && m.P(x) == Above(c)
      requires !c.Top? ==> c.node in owned && (m.L(c.node) == x <==> c.InLeft?)
      modifies this`root, owned
      ensures Agrees(owned, SetHole(m, c, v))
    {
      if x.parent == null {
        root := v;
      } else if x == x.parent.left {
        x.parent.left := v;
      } else {
        x.parent.right := v;
      }
    }

    /** First part of a right rotation: `x` takes over the inner subtree of its left child `y`. */
    method TakeInnerRight(x: Node<T>, y: Node<T>, ghost m: Links<T>, ghost owned: set<Node<T>>)
      returns (ghost m': Links<T>)
      requires Agrees(owned, m) && x in owned && y in owned && x != y
      requires m.R(y) != null ==> m.R(y) in owned && m.R(y) != x && m.R(y) != y
      modifies owned
      ensures m' == Linked(m.SetL(x, m.R(y)), m.R(y), x).SetP(y, m.P(x)) && Agrees(owned, m')
    {
      Reads(owned, m, x);
      Reads(owned, m, y);
      hide Agrees;
      m' := SetLeft(x, y.right, m, owned);
      if y.right != null { m' := SetParent(y.right, x, m', owned); }
      m' := SetParent(y, x.parent, m', owned);
    }

    method TakeInnerLeft(x: Node<T>, y: Node<T>, ghost m: Links<T>, ghost owned: set<Node<T>>)
      returns (ghost m': Links<T>)
      requires Agrees(owned, m) && x in owned && y in owned && x != y
      requires m.L(y) != null ==> m.L(y) in owned && m.L(y) != x && m.L(y) != y
      modifies owned
      ensures m' == Linked(m.SetR(x, m.L(y)), m.L(y), x).SetP(y, m.P(x)) && Agrees(owned, m')
    {
      Reads(owned, m, x);
      Reads(owned, m, y);
      hide Agrees;
      m' := SetRight(x, y.left, m, owned);
      if y.left != null { m' := SetParent(y.left, x, m', owned); }
      m' := SetParent(y, x.parent, m', owned);
    }

    method RightRotate(x: Node<T>, ghost m: Links<T>, ghost owned: set<Node<T>>, ghost c: Path<T>,
                       ghost t: Tree<Node<T>>)
      returns (ghost m': Links<T>)
      requires Agrees(owned, m) && Here(m, owned, c, x, t)
      modifies this`root, owned
      ensures Agrees(owned, m')
      ensures t.Br? && (t.left.Br? ==>
              Here(m', owned, c, t.left.node, Br(t.left.left, t.left.node, Br(t.left.right, x, t.right))))
      ensures t.left.Leaf? ==> PathLaid(m', c, null) && Laid(m', x, null, t)
    {
      hide Laid, PathLaid, Nodes, PathNodes, Fits, Here, InOrder, Agrees;
      WhichSide(m, owned, c, x, t);
      Reads(owned, m, x);
      var y := x.left;
      if y == null {
        Detached(m, owned, c, x, t);
        Redirect(x, y, m, owned, c);
        m' := SetParent(x, y, SetHole(m, c, y), owned);
        return;
      }
      RightRotation(m, owned, c, t.left.left, y, t.left.right, x, t.right);
      m' := TakeInnerRight(x, y, m, owned);
      Redirect(x, y, m', owned, c);
      m' := SetRight(y, x, SetHole(m', c, y), owned);
      m' := SetParent(x, y, m', owned);
    }

    method LeftRotate(x: Node<T>, ghost m: Links<T>, ghost owned: set<Node<T>>, ghost c: Path<T>,
                      ghost t: Tree<Node<T>>)
      returns (ghost m': Links<T>)
      requires Agrees(owned, m) && Here(m, owned, c, x, t)
      modifies this`root, owned
      ensures Agrees(owned, m')
      ensures t.Br? && (t.right.Br? ==>
              Here(m', owned, c, t.right.node, Br(Br(t.left, x, t.right.left), t.right.node, t.right.right)))
      ensures t.right.Leaf? ==> PathLaid(m', c, null) && Laid(m', x, null, t)
    {
      hide Laid, PathLaid, Nodes, PathNodes, Fits, Here, InOrder, Agrees;
      WhichSide(m, owned, c, x, t);
      Reads(owned, m, x);
      var y := x.right;
      if y == null {
        Detached(m, owned, c, x, t);
        Redirect(x, y, m, owned, c);
        m' := SetParent(x, y, SetHole(m, c, y), owned);
        return;
      }
      LeftRotation(m, owned, c, t.left, x, t.right.left, y, t.right.right);
      m' := TakeInnerLeft(x, y, m, owned);
      Redirect(x, y, m', owned, c);
      m' := SetLeft(y, x, SetHole(m', c, y), owned);
      m' := SetParent(x, y, m', owned);
    }


    /** Rotations bring `x` to the top without changing the sequence. */
    method Splay(x: Node<T>, ghost m0: Links<T>, ghost owned: set<Node<T>>, ghost c0: Path<T>, ghost t0: Tree<Node<T>>)
      returns (ghost m: Links<T>, ghost t: Tree<Node<T>>)
      requires Agrees(owned, m0) && Here(m0, owned, c0, x, t0)
      modifies this`root, owned
      ensures Agrees(owned, m) && Here(m, owned, Top, x, t) && Whole(Top, t) == Whole(c0, t0)
      ensures t == SplayedUp(c0, t0)
    {
      hide Laid, PathLaid, Nodes, PathNodes, Fits, Here, InOrder, Agrees, Whole, SplayedUp;
      ghost var c := c0;
      m, t := m0, t0;
      Climb(m, owned, c, x, t);
      while x.parent != null
        invariant Agrees(owned, m) && Here(m, owned, c, x, t) && Whole(c, t) == Whole(c0, t0)
        invariant x.parent == Above(c) && SplayedUp(c, t) == SplayedUp(c0, t0)
        decreases c
      {
        Climb(m, owned, c, x, t);
        NextStep(c, t);
        ghost var up, p, a, b, s := c.up, c.node, t.left, t.right, c.other;
        ghost var u := Parent(c, t);
        HereUp(m, owned, c, x, t);
        Climb(m, owned, up, p, u);
        if x.parent.parent == null {
          if x.parent.left == x {
            m := RightRotate(x.parent, m, owned, up, u);
            RotationWhole(up, a, x, b, p, s);
            t := Br(a, x, Br(b, p, s));
          } else {
            m := LeftRotate(x.parent, m, owned, up, u);
            RotationWhole(up, s, p, a, x, b);
            t := Br(Br(s, p, a), x, b);
          }
          c := up;
        } else {
          ghost var top, g, d := up.up, up.node, up.other;
          HereUp(m, owned, up, p, u);
          Climb(m, owned, top, g, Parent(up, u));
          if x.parent.left == x && x.parent.parent.left == x.parent {
            m := RightRotate(x.parent.parent, m, owned, top, Parent(up, u));
            RotationWhole(top, t, p, s, g, d);
            m, t := SecondRight(x, m, owned, top, a, b, p, Br(s, g, d));
          } else if x.parent.right == x && x.parent.parent.right == x.parent {
            m := LeftRotate(x.parent.parent, m, owned, top, Parent(up, u));
            RotationWhole(top, d, g, s, p, t);
            m, t := SecondLeft(x, m, owned, top, Br(d, g, s), p, a, b);
          } else if x.parent.left == x && x.parent.parent.right == x.parent {
            m := RightRotate(x.parent, m, owned, up, u);
            RotationWhole(up, a, x, b, p, s);
            HereUp(m, owned, up, x, Br(a, x, Br(b, p, s)));
            m, t := SecondLeft(x, m, owned, top, d, g, a, Br(b, p, s));
          } else {
            m := LeftRotate(x.parent, m, owned, up, u);
            RotationWhole(up, s, p, a, x, b);
            HereUp(m, owned, up, x, Br(Br(s, p, a), x, b));
            m, t := SecondRight(x, m, owned, top, Br(s, p, a), b, g, d);
          }
          c := top;
        }
        Climb(m, owned, c, x, t);
      }
      NoStep(c, t);
    }

    /** The second rotation of a double step: around what is now the parent of `x`. */
    method SecondRight(x: Node<T>, ghost m0: Links<T>, ghost owned: set<Node<T>>, ghost c: Path<T>,
                       ghost a: Tree<Node<T>>, ghost b: Tree<Node<T>>, ghost p: Node<T>, ghost r: Tree<Node<T>>)
      returns (ghost m: Links<T>, ghost t: Tree<Node<T>>)
      requires Agrees(owned, m0) && Here(m0, owned, c, p, Br(Br(a, x, b), p, r))
      modifies this`root, owned
      ensures t == Br(a, x, Br(b, p, r)) && Whole(c, t) == Whole(c, Br(Br(a, x, b), p, r))
      ensures Agrees(owned, m) && Here(m, owned, c, x, t)
    {
      hide Laid, PathLaid, Nodes, PathNodes, Fits, Here, InOrder, Agrees, Whole;
      HereDown(m0, owned, c, Br(a, x, b), p, r);
      Climb(m0, owned, InLeft(c, p, r), x, Br(a, x, b));
      m := RightRotate(x.parent, m0, owned, c, Br(Br(a, x, b), p, r));
      RotationWhole(c, a, x, b, p, r);
      t := Br(a, x, Br(b, p, r));
    }

    method SecondLeft(x: Node<T>, ghost m0: Links<T>, ghost owned: set<Node<T>>, ghost c: Path<T>,
                      ghost l: Tree<Node<T>>, ghost p: Node<T>, ghost a: Tree<Node<T>>, ghost b: Tree<Node<T>>)
      returns (ghost m: Links<T>, ghost t: Tree<Node<T>>)
      requires Agrees(owned, m0) && Here(m0, owned, c, p, Br(l, p, Br(a, x, b)))
      modifies this`root, owned
      ensures t == Br(Br(l, p, a), x, b) && Whole(c, t) == Whole(c, Br(l, p, Br(a, x, b)))
      ensures Agrees(owned, m) && Here(m, owned, c, x, t)
    {
      hide Laid, PathLaid, Nodes, PathNodes, Fits, Here, InOrder, Agrees, Whole;
      HereDown(m0, owned, c, l, p, Br(a, x, b));
      Climb(m0, owned, InRight(c, p, l), x, Br(a, x, b));
      m := LeftRotate(x.parent, m0, owned, c, Br(l, p, Br(a, x, b)));
      RotationWhole(c, l, p, a, x, b);
      t := Br(Br(l, p, a), x, b);
    }

    lemma Climb(m: Links<T>, owned: set<Node<T>>, c: Path<T>, x: Node<T>, t: Tree<Node<T>>)
      requires Agrees(owned, m) && Here(m, owned, c, x, t)
      ensures x.parent == Above(c) && t.Br? && t.node == x && x in owned
      ensures !c.Top? ==> (c.node.left == x <==> c.InLeft?) && (c.node.right == x <==> c.InRight?)
    {
      WhichSide(m, owned, c, x, t);
    }

    // ----- The container

    ghost predicate Valid()
      reads this, Nodes(tree)
    {
      && Shape(root, null, tree) && NoDup(InOrder(tree)) && Sorted(comp, InOrder(tree))
      && pSize == |InOrder(tree)| % WORD
    }

    ghost function Contents(): seq<Node<T>>
      reads this
    {
      InOrder(tree)
    }

    constructor (comp: (T, T) -> bool)
      ensures Valid() && Contents() == [] && this.comp == comp
    {
      this.comp := comp;
      root, pSize := null, 0;
      tree := Leaf;
    }

    /** A snapshot of the whole structure, to start pointer work from. */
    lemma Opened() returns (m: Links<T>, owned: set<Node<T>>)
      requires Valid()
      ensures owned == Nodes(tree) && Agrees(owned, m) && Here(m, owned, Top, root, tree)
      ensures Whole(Top, tree) == InOrder(tree)
    {
      owned := Footprint(tree);
      m := Links(root, map n: Node<T> | n in owned :: n.left, map n: Node<T> | n in owned :: n.right,
                 map n: Node<T> | n in owned :: n.parent);
      LaidIffShape(owned, m, root, null, tree);
      assert [] + InOrder(tree) + [] == InOrder(tree);
    }

    lemma LaidIffShape(owned: set<Node<T>>, m: Links<T>, n: Node?<T>, p: Node?<T>, t: Tree<Node<T>>)
      requires Agrees(owned, m) && Nodes(t) <= owned
      ensures Laid(m, n, p, t) <==> Shape(n, p, t)
      decreases t
    {
      if t.Br? {
        LaidIffShape(owned, m, t.node.left, n, t.left);
        LaidIffShape(owned, m, t.node.right, n, t.right);
      }
    }

    method Find(key: T)
      returns (z: Node?<T>, ghost m: Links<T>, ghost owned: set<Node<T>>, ghost c: Path<T>, ghost t: Tree<Node<T>>)
      requires Valid() && StrictWeakOrder(comp)
      ensures z == null <==> forall n :: n in Contents() ==> comp(n.key, key) || comp(key, n.key)
      ensures z != null ==> z in Contents() && !comp(z.key, key) && !comp(key, z.key)
      ensures Valid()
      ensures owned == Nodes(tree) && Agrees(owned, m) && Here(m, owned, c, z, t) && Whole(c, t) == Contents()
    {
      m, owned := Opened();
      z := root;
      c, t := Top, tree;
      hide Laid, PathLaid, PathNodes, Nodes, Fits, Valid, StrictWeakOrder, Sorted, Whole, InOrder, Agrees, Here, Before,
        After;
      while z != null
        invariant Here(m, owned, c, z, t) && Whole(c, t) == Contents()
        invariant AllBelow(comp, Before(c), key) && AllAbove(comp, After(c), key)
        decreases t
      {
        Climb(m, owned, c, z, t);
        Reads(owned, m, z);
        HereDown(m, owned, c, t.left, z, t.right);
        SearchStep(comp, c, t.left, z, t.right, key);
        if comp(z.key, key) {
          z := z.right;
          c, t := InRight(c, t.node, t.left), t.right;
        } else if comp(key, z.key) {
          z := z.left;
          c, t := InLeft(c, t.node, t.right), t.left;
        } else {
          InWhole(c, t);
          return;
        }
      }
      NullLeaf(m, owned, c, t);
      InWhole(c, t);
      NotFound(comp, c, key, Contents());
    }

    /** The descent of `Insert`: the empty position for `key` and the node above it. */
    method Descend(key: T) returns (p: Node?<T>, ghost m: Links<T>, ghost owned: set<Node<T>>, ghost c: Path<T>)
      requires Valid() && StrictWeakOrder(comp)
      ensures Valid()
      ensures owned == Nodes(tree) && Agrees(owned, m) && Here(m, owned, c, null, Leaf)
      ensures Before(c) + After(c) == Contents() && AllBelow(comp, Before(c), key) && NoneBelow(comp, After(c), key)
      ensures p == Above(c) && (p != null ==> (comp(p.key, key) <==> c.InRight?))
      ensures p == null <==> root == null
      ensures p != null ==> (if comp(p.key, key) then p.right else p.left) == null
    {
      m, owned := Opened();
      var z := root;
      p := null;
      ghost var t := tree;
      c := Top;
      hide Laid, PathLaid, PathNodes, Nodes, Fits, Valid, StrictWeakOrder, Sorted, Whole, InOrder, Agrees, Here, Before,
        After;
      while z != null
        invariant Here(m, owned, c, z, t) && Whole(c, t) == Contents()
        invariant AllBelow(comp, Before(c), key) && NoneBelow(comp, After(c), key)
        invariant p == Above(c) && (p != null ==> (comp(p.key, key) <==> c.InRight?))
        invariant p == null ==> z == root
        invariant p != null ==> root != null && z == if comp(p.key, key) then p.right else p.left
        decreases t
      {
        Climb(m, owned, c, z, t);
        Reads(owned, m, z);
        HereDown(m, owned, c, t.left, z, t.right);
        SearchStep(comp, c, t.left, z, t.right, key);
        p := z;
        if comp(z.key, key) {
          z := z.right;
          c, t := InRight(c, t.node, t.left), t.right;
        } else {
          z := z.left;
          c, t := InLeft(c, t.node, t.right), t.left;
        }
      }
      NullLeaf(m, owned, c, t);
      InWhole(c, t);
    }

    /** One occurrence more, and the new node is the root. */
    method Insert(key: T)
      requires Valid() && StrictWeakOrder(comp)
      modifies this, Nodes(tree)
      ensures Valid() && pSize == (old(pSize) + 1) % WORD
      ensures root != null && fresh(root) && root.key == key
      ensures exists k ::
                0 <= k <= |old(Contents())| && Contents() == old(Contents())[..k] + [root] + old(Contents())[k..]
    {
      hide *;
      Sized(1);
      ghost var s := Contents();
      var p: Node?<T>;
      ghost var m, owned, c, t;
      p, m, owned, c := Descend(key);
      ghost var a, b := Before(c), After(c);
      var z := new Node(key);
      m := Attach(z, p, m, owned, c);
      owned := owned + {z};
      SortedWithNew(comp, a, z, b);
      m, t := Splay(z, m, owned, c, Br(Leaf, z, Leaf));
      pSize := (pSize + 1) % WORD;
      tree := t;
      Closed(m, owned, z, a + [z] + b);
      assert s[..|a|] == a && s[|a|..] == b;
    }

    /** The stored size of the tree with one node more or less. */
    lemma Sized(d: int)
      requires Valid() && (d == 1 || (d == -1 && Contents() != []))
      ensures 0 < WORD && (pSize + d) % WORD == (|Contents()| + d) % WORD && Sorted(comp, Contents())
    {
      SizeStep(|Contents()|, d);
    }

    lemma SizeStep(n: nat, d: int)
      requires d == 1 || (d == -1 && n > 0)
      ensures (n % WORD + d) % WORD == (n + d) % WORD
    {
    }

    method Replace(u: Node<T>, v: Node?<T>, ghost m: Links<T>, ghost owned: set<Node<T>>, ghost c: Path<T>)
      returns (ghost m': Links<T>)
      requires Agrees(owned, m) && u in owned && m.P(u) == Above(c) && (v != null ==> v in owned)
      requires !c.Top? ==> c.node in owned && (m.L(c.node) == u <==> c.InLeft?)
      modifies this`root, owned
      ensures Agrees(owned, m') && m' == Linked(SetHole(m, c, v), v, Above(c))
    {
      hide PathLaid, Laid;
      Redirect(u, v, m, owned, c);
      m' := SetHole(m, c, v);
      Reads(owned, m', u);
      hide Agrees;
      if v != null {
        m' := SetParent(v, u.parent, m', owned);
      }
    }

    method SubtreeMinimum(u0: Node<T>, ghost m: Links<T>, ghost owned: set<Node<T>>, ghost c0: Path<T>,
                          ghost t0: Tree<Node<T>>)
      returns (u: Node<T>, ghost c: Path<T>, ghost w: Tree<Node<T>>)
      requires Agrees(owned, m) && Here(m, owned, c0, u0, t0)
      ensures Here(m, owned, c, u, Br(Leaf, u, w)) && Whole(c, Br(Leaf, u, w)) == Whole(c0, t0) && Leftmost(c, c0)
      ensures u in owned && u.left == null
    {
      u := u0;
      c := c0;
      ghost var t := t0;
      hide Laid, PathLaid, PathNodes, Nodes, Fits, Whole, InOrder, Agrees, Here, Before, After;
      Climb(m, owned, c, u, t);
      Reads(owned, m, u);
      HereDown(m, owned, c, t.left, u, t.right);
      while u.left != null
        invariant Here(m, owned, c, u, t) && Whole(c, t) == Whole(c0, t0) && Leftmost(c, c0)
        invariant t.Br? && t.node == u && u in owned && u.left == Root(t.left)
        decreases t
      {
        HereDown(m, owned, c, t.left, u, t.right);
        Reads(owned, m, u);
        u := u.left;
        c, t := InLeft(c, t.node, t.right), t.left;
        Climb(m, owned, c, u, t);
        Reads(owned, m, u);
        HereDown(m, owned, c, t.left, u, t.right);
      }
      w := t.right;
    }

    /** One occurrence less of a key equivalent to `key`, if there is one. */
    method Erase(key: T)
      requires Valid() && StrictWeakOrder(comp)
      modifies this, Nodes(tree)
      ensures Valid()
      ensures (forall n :: n in old(Contents()) ==> comp(n.key, key) || comp(key, n.key)) ==>
                Contents() == old(Contents()) && pSize == old(pSize)
      ensures (exists n :: n in old(Contents()) && !comp(n.key, key) && !comp(key, n.key)) ==>
                && pSize == (old(pSize) - 1) % WORD
                && exists k ::
                     && 0 <= k < |old(Contents())|
                     && !comp(old(Contents())[k].key, key) && !comp(key, old(Contents())[k].key)
                     && Contents() == old(Contents())[..k] + old(Contents())[k + 1..]
    {
      hide *;
      var z: Node?<T>;
      ghost var m, owned, c, t;
      z, m, owned, c, t := Find(key);
      if z == null { return; }
      ghost var s := Contents();
      Sized(-1);
      m, t := Splay(z, m, owned, c, t);
      ghost var l, r := Opening(m, owned, z, t);
      SortedWithout(comp, InOrder(l), z, InOrder(r));
      m, t := TakeOutRoot(z, m, owned, l, r);
      pSize := (pSize - 1) % WORD;
      tree := t;
      Closed(m, owned, root, InOrder(l) + InOrder(r));
      OneLess(comp, s, InOrder(l), z, InOrder(r), key);
    }

    /** The part of `Erase` after the splay. */
    method TakeOutRoot(z: Node<T>, ghost m0: Links<T>, ghost owned: set<Node<T>>, ghost l: Tree<Node<T>>,
                       ghost r: Tree<Node<T>>)
      returns (ghost m: Links<T>, ghost t: Tree<Node<T>>)
      requires Agrees(owned, m0) && Here(m0, owned, Top, z, Br(l, z, r))
      modifies this`root, owned
      ensures Agrees(owned, m) && Here(m, owned, Top, root, t) && Whole(Top, t) == InOrder(l) + InOrder(r)
    {
      hide *;
      ghost var l', r' := Opening(m0, owned, z, Br(l, z, r));
      if z.left == null {
        RootReplaced(m0, owned, l, z, r);
        m := Replace(z, z.right, m0, owned, Top);
        t := r;
        RootIs(owned, m);
      } else if z.right == null {
        RootReplaced(m0, owned, l, z, r);
        m := Replace(z, z.left, m0, owned, Top);
        t := l;
        RootIs(owned, m);
      } else {
        m, t := LiftSuccessor(z, m0, owned, l, r);
      }
    }

    lemma RootIs(owned: set<Node<T>>, m: Links<T>)
      requires Agrees(owned, m)
      ensures m.root == root
    {
    }

    lemma Opening(m: Links<T>, owned: set<Node<T>>, z: Node<T>, t: Tree<Node<T>>)
      returns (l: Tree<Node<T>>, r: Tree<Node<T>>)
      requires Agrees(owned, m) && Here(m, owned, Top, z, t)
      ensures t == Br(l, z, r) && Whole(Top, t) == InOrder(l) + [z] + InOrder(r)
      ensures z in owned && z.left == Root(l) && z.right == Root(r)
      ensures (z.left == null <==> l.Leaf?) && (z.right == null <==> r.Leaf?)
      ensures z.left != null ==> z.left in owned
      ensures z.right != null ==> z.right in owned
      ensures m.P(z) == Above(Top) && m.root == root
    {
      WhichSide(m, owned, Top, z, t);
      l, r := t.left, t.right;
      BelowRoot(m, owned, l, z, r);
      BelowRootOwned(m, owned, l, z, r);
      AtTop(l, z, r);
    }

    /** The root has two children: its in-order successor moves up into its place. */
    method LiftSuccessor(z: Node<T>, ghost m0: Links<T>, ghost owned: set<Node<T>>, ghost l: Tree<Node<T>>,
                         ghost r: Tree<Node<T>>)
      returns (ghost m: Links<T>, ghost t: Tree<Node<T>>)
      requires Agrees(owned, m0) && Here(m0, owned, Top, z, Br(l, z, r)) && l.Br? && r.Br?
      modifies this`root, owned
      ensures Agrees(owned, m) && Here(m, owned, Top, root, t) && Whole(Top, t) == InOrder(l) + InOrder(r)
    {
      hide *;
      ghost var l', r' := Opening(m0, owned, z, Br(l, z, r));
      HereDown(m0, owned, Top, l, z, r);
      Reads(owned, m0, z);
      ghost var c0 := InRight(Top, z, l);
      var y: Node<T>;
      ghost var c, w;
      y, c, w := SubtreeMinimum(z.right, m0, owned, c0, r);
      m := Unhook(y, z, m0, owned, l, r, c, w);
      Successor(m0, owned, l, z, r, y, c, w);
      m := Seat(z, y, m, owned, l, FillTo(c, c0, w));
      t := Br(l, y, FillTo(c, c0, w));
    }

    lemma Successor(m: Links<T>, owned: set<Node<T>>, l: Tree<Node<T>>, z: Node<T>, r: Tree<Node<T>>, y: Node<T>,
                    c: Path<T>, w: Tree<Node<T>>)
      requires Here(m, owned, Top, z, Br(l, z, r)) && Leftmost(c, InRight(Top, z, l)) &&
               Whole(c, Br(Leaf, y, w)) == Whole(Top, Br(l, z, r))
      ensures var r' := FillTo(c, InRight(Top, z, l), w);
              z != y && Fits(Top, Br(l, y, r')) && Whole(Top, Br(l, y, r')) == InOrder(l) + InOrder(r)
    {
      SuccessorContents(l, z, r, y, c, w);
      RootParts(l, z, r);
      Member(y, r);
    }

    /** Take the successor out of its old place, unless it is the right child of the root. */
    method Unhook(y: Node<T>, z: Node<T>, ghost m0: Links<T>, ghost owned: set<Node<T>>, ghost l: Tree<Node<T>>,
                  ghost r: Tree<Node<T>>, ghost c: Path<T>, ghost w: Tree<Node<T>>)
      returns (ghost m: Links<T>)
      requires Agrees(owned, m0) && Here(m0, owned, Top, z, Br(l, z, r)) && Here(m0, owned, c, y, Br(Leaf, y, w))
      requires Leftmost(c, InRight(Top, z, l)) && Whole(c, Br(Leaf, y, w)) == Whole(Top, Br(l, z, r))
      modifies this`root, owned
      ensures Agrees(owned, m) && Ready(m, owned, z, l, y, FillTo(c, InRight(Top, z, l), w))
    {
      HereFits(m0, owned, c, y, Br(Leaf, y, w));
      HereFits(m0, owned, Top, z, Br(l, z, r));
      hide *;
      ghost var c0 := InRight(Top, z, l);
      ParentIsNotRoot(c, z, l, Br(Leaf, y, w));
      Climb(m0, owned, c, y, Br(Leaf, y, w));
      Climb(m0, owned, Top, z, Br(l, z, r));
      if y.parent != z {
        Unhooking(m0, owned, y, c, w);
        Extracted(m0, owned, l, z, r, y, c, w);
        Reads(owned, m0, y);
        m := Replace(y, y.right, m0, owned, c);
        UnhookedIs(m0, c, w);
        Reads(owned, m, z);
        m := SetRight(y, z.right, m, owned);
        Reads(owned, m, y);
        m := SetParent(y.right, y, m, owned);
      } else {
        InPlace(m0, owned, l, z, r, y, w);
        m := m0;
        FillNothing(c0, w);
      }
    }

    /** Give the successor the root's place and its left subtree. */
    method Seat(z: Node<T>, y: Node<T>, ghost m0: Links<T>, ghost owned: set<Node<T>>, ghost l: Tree<Node<T>>,
                ghost r: Tree<Node<T>>)
      returns (ghost m: Links<T>)
      requires Agrees(owned, m0) && Ready(m0, owned, z, l, y, r) && Fits(Top, Br(l, y, r)) && l.Br? && z != y
      modifies this`root, owned
      ensures Agrees(owned, m) && Here(m, owned, Top, y, Br(l, y, r)) && root == y
    {
      Seated(m0, owned, l, z, y, r);
      hide Laid, Nodes, Fits, InOrder, NoDup, Whole, Here, Agrees;
      m := Replace(z, y, m0, owned, Top);
      Reads(owned, m, z);
      m := SetLeft(y, z.left, m, owned);
      Reads(owned, m, y);
      m := SetParent(y.left, y, m, owned);
      RootIs(owned, m);
    }

    /** Back from the snapshot to the heap. */
    lemma Closed(m: Links<T>, owned: set<Node<T>>, r: Node?<T>, s: seq<Node<T>>)
      requires Agrees(owned, m) && Here(m, owned, Top, r, tree) && Whole(Top, tree) == s
      requires Sorted(comp, s) && pSize == |s| % WORD
      ensures Valid() && Contents() == s && root == r && Nodes(tree) <= owned
    {
      assert [] + InOrder(tree) + [] == InOrder(tree);
      LaidIffShape(owned, m, r, null, tree);
    }

    /** The writes that link a fresh node below the last node of the search. */
    method Attach(z: Node<T>, p: Node?<T>, ghost m: Links<T>, ghost owned: set<Node<T>>, ghost c: Path<T>)
      returns (ghost m2: Links<T>)
      requires Agrees(owned, m) && Here(m, owned, c, null, Leaf)
      requires z !in owned && z.left == null && z.right == null
      requires p == Above(c) && (p != null ==> (comp(p.key, z.key) <==> c.InRight?))
      modifies this`root, owned, z
      ensures Agrees(owned + {z}, m2) && Here(m2, owned + {z}, c, z, Br(Leaf, z, Leaf))
      ensures Whole(c, Br(Leaf, z, Leaf)) == Before(c) + [z] + After(c)
    {
      ghost var m1;
      hide Laid, PathLaid, PathNodes, Nodes, Fits, Whole, InOrder, Here, Before, After;
      AttachedFits(m, owned, c, z);
      m1, m2 := Attached(m, owned, c, z);
      z.parent := p;
      assert Agrees(owned + {z}, m1);
      LinkBelow(z, p, m1, owned + {z}, c);
    }

    method LinkBelow(z: Node<T>, p: Node?<T>, ghost m: Links<T>, ghost owned: set<Node<T>>, ghost c: Path<T>)
      requires Agrees(owned, m) && p == Above(c) && (p != null ==> p in owned && (comp(p.key, z.key) <==> c.InRight?))
      modifies this`root, owned
      ensures Agrees(owned, SetHole(m, c, z))
    {
      if p == null {
        root := z;
      } else if comp(p.key, z.key) {
        p.right := z;
      } else {
        p.left := z;
      }
    }
  }
}
