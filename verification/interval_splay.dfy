/** Top-down splay tree of disjoint half-open address intervals (src/profiler/splay.cpp). */
module IntervalSplay {
  import opened Sequences
  import opened Trees

  /** `next` is the right child and `prev` the left child, as in the source's macros. */
  class Node {
    var next: Node?
    var prev: Node?
    const start: int
    const end: int
    const ctxt: int

    constructor (start: int, end: int, ctxt: int)
      ensures next == null && prev == null
      ensures this.start == start && this.end == end && this.ctxt == ctxt
    {
      this.start, this.end, this.ctxt := start, end, ctxt;
      next, prev := null, null;
    }
  }

  /** The mathematical tree that a pointer structure stands for. */
  type Tree = Trees.Tree<Node>

  /** A snapshot of the two pointer fields of a set of nodes. */
  datatype Links = Links(prev: map<Node, Node?>, next: map<Node, Node?>) {
    ghost function Prev(n: Node): Node? { if n in prev then prev[n] else null }
    ghost function Next(n: Node): Node? { if n in next then next[n] else null }
    ghost function SetPrev(n: Node, v: Node?): Links { Links(prev[n := v], next) }
    ghost function SetNext(n: Node, v: Node?): Links { Links(prev, next[n := v]) }
  }

  ghost predicate Agrees(owned: set<Node>, m: Links)
    reads owned
  {
    forall n :: n in owned ==> n.prev == m.Prev(n) && n.next == m.Next(n)
  }

  /** The pointers reachable from `n` are laid out exactly as `t`. */
  ghost predicate Laid(m: Links, n: Node?, t: Tree) {
    match t
    case Leaf => n == null
    case Br(l, x, r) => n == x && Laid(m, m.Prev(x), l) && Laid(m, m.Next(x), r)
  }

  ghost predicate Shape(n: Node?, t: Tree)
    reads Nodes(t)
  {
    match t
    case Leaf => n == null
    case Br(l, x, r) => n == x && Shape(x.prev, l) && Shape(x.next, r)
  }

  lemma {:induction false} LaidIffShape(owned: set<Node>, m: Links, n: Node?, t: Tree)
    requires Nodes(t) <= owned && Agrees(owned, m)
    ensures Laid(m, n, t) <==> Shape(n, t)
    decreases t
  {
    if t.Br? {
      LaidIffShape(owned, m, t.node.prev, t.left);
      LaidIffShape(owned, m, t.node.next, t.right);
    }
  }

  /** A write to a node outside the tree leaves its layout alone. */
  lemma {:induction false} LaidKept(m: Links, n: Node?, t: Tree, x: Node, v: Node?)
    requires Laid(m, n, t) && x !in Nodes(t)
    ensures Laid(m.SetPrev(x, v), n, t) && Laid(m.SetNext(x, v), n, t)
  {
    if t.Br? {
      LaidKept(m, m.Prev(t.node), t.left, x, v);
      LaidKept(m, m.Next(t.node), t.right, x, v);
    }
  }

  /** In-order sequences of pairwise disjoint, non-empty intervals. */
  ghost predicate Ordered(s: seq<Node>) {
    && (forall i :: 0 <= i < |s| ==> s[i].start < s[i].end)
    && (forall i, j :: 0 <= i < j < |s| ==> s[i].end <= s[j].start)
  }

  ghost predicate AllEndBy(s: seq<Node>, addr: int) {
    forall i :: 0 <= i < |s| ==> s[i].end <= addr
  }

  ghost predicate AllStartFrom(s: seq<Node>, addr: int) {
    forall i :: 0 <= i < |s| ==> addr <= s[i].start
  }

  ghost predicate AllStartAfter(s: seq<Node>, addr: int) {
    forall i :: 0 <= i < |s| ==> addr < s[i].start
  }

  /** A node of an ordered sequence occurs once, with earlier intervals left of it and later ones right. */
  lemma Pivot(a: seq<Node>, n: Node, b: seq<Node>)
    requires Ordered(a + [n] + b)
    ensures n !in a && n !in b && n.start < n.end
    ensures AllEndBy(a, n.start) && AllStartFrom(b, n.end)
  {
    var s := a + [n] + b;
    assert s[|a|] == n;
    forall i | 0 <= i < |a| ensures a[i].end <= n.start && a[i] != n { assert s[i] == a[i]; }
    forall i | 0 <= i < |b| ensures n.end <= b[i].start && b[i] != n { assert s[|a| + 1 + i] == b[i]; }
  }

  // ----- The two trees under construction during a splay

  /** A chain of linked nodes whose innermost link is still open. In the left tree `sub` is the
      left subtree of `node`; in the right tree it is the right subtree. */
  datatype Spine = Top | Link(outer: Spine, node: Node, sub: Tree)

  ghost function SpineNodes(c: Spine): set<Node> {
    match c
    case Top => {}
    case Link(o, n, s) => SpineNodes(o) + {n} + Nodes(s)
  }

  lemma {:induction false} SpineMember(n: Node, c: Spine)
    ensures n in SpineNodes(c) <==> n in FlatLeft(c)
    ensures n in SpineNodes(c) <==> n in FlatRight(c)
  {
    if c.Link? {
      SpineMember(n, c.outer);
      Member(n, c.sub);
    }
  }

  ghost function FlatLeft(c: Spine): seq<Node> {
    match c
    case Top => []
    case Link(o, n, s) => FlatLeft(o) + InOrder(s) + [n]
  }

  ghost function FlatRight(c: Spine): seq<Node> {
    match c
    case Top => []
    case Link(o, n, s) => [n] + InOrder(s) + FlatRight(o)
  }

  ghost function CloseLeft(c: Spine, t: Tree): Tree {
    match c
    case Top => t
    case Link(o, n, s) => CloseLeft(o, Br(s, n, t))
  }

  ghost function CloseRight(c: Spine, t: Tree): Tree {
    match c
    case Top => t
    case Link(o, n, s) => CloseRight(o, Br(t, n, s))
  }

  /** The tree that the two spines and the focus make in the end. */
  ghost function Close(c: Spine, t: Tree, d: Spine): Tree
    requires t.Br?
  {
    Br(CloseLeft(c, t.left), t.node, CloseRight(d, t.right))
  }

  /** The splay on trees: what is right of the address goes to the right spine, what is left of it to the left one. */
  ghost function SplayFrom(c: Spine, t: Tree, d: Spine, addr: int): (r: Tree)
    requires t.Br?
    ensures r.Br?
    decreases t
  {
    var l, x, r := t.left, t.node, t.right;
    if addr < x.start then
      if l.Leaf? then Close(c, t, d)
      else if addr >= l.node.start then SplayFrom(c, l, Link(d, x, r), addr)
      else if l.left.Leaf? then Close(c, Br(Leaf, l.node, Br(l.right, x, r)), d)
      else SplayFrom(c, l.left, Link(d, l.node, Br(l.right, x, r)), addr)
    else if addr >= x.end then
      if r.Leaf? then Close(c, t, d)
      else if addr < r.node.end then SplayFrom(Link(c, x, l), r, d, addr)
      else if r.right.Leaf? then Close(c, Br(Br(l, x, r.left), r.node, Leaf), d)
      else SplayFrom(Link(c, r.node, Br(l, x, r.left)), r.right, d, addr)
    else Close(c, t, d)
  }

  ghost function SplayOf(t: Tree, addr: int): Tree {
    if t.Leaf? then Leaf else SplayFrom(Top, t, Top, addr)
  }

  /** Where the search for an address ends. */
  ghost function LastOn(t: Tree, addr: int): Node
    requires t.Br?
    decreases t
  {
    if addr < t.node.start && t.left.Br? then LastOn(t.left, addr)
    else if addr >= t.node.end && t.right.Br? then LastOn(t.right, addr)
    else t.node
  }

  /** A splay leaves the node on top where the search ends, if no interval is empty or reversed. */
  lemma {:induction false} TopIsLastOn(c: Spine, t: Tree, d: Spine, addr: int)
    requires t.Br? && forall n :: n in Nodes(t) ==> n.start < n.end
    ensures SplayFrom(c, t, d, addr).node == LastOn(t, addr)
    decreases t
  {
    var l, x, r := t.left, t.node, t.right;
    assert Nodes(l) <= Nodes(t) && Nodes(r) <= Nodes(t);
    assert l.Br? ==> l.node in Nodes(t) && Nodes(l.left) <= Nodes(t);
    assert r.Br? ==> r.node in Nodes(t) && Nodes(r.right) <= Nodes(t);
    if addr < x.start && l.Br? {
      if addr >= l.node.start {
        TopIsLastOn(c, l, Link(d, x, r), addr);
      } else if l.left.Br? {
        TopIsLastOn(c, l.left, Link(d, l.node, Br(l.right, x, r)), addr);
      }
    } else if addr >= x.end && r.Br? {
      if addr < r.node.end {
        TopIsLastOn(Link(c, x, l), r, d, addr);
      } else if r.right.Br? {
        TopIsLastOn(Link(c, r.node, Br(l, x, r.left)), r.right, d, addr);
      }
    }
  }

  lemma LastOnTop(t: Tree, addr: int)
    requires t.Br? && Ordered(InOrder(t))
    ensures SplayOf(t, addr).Br? && SplayOf(t, addr).node == LastOn(t, addr)
  {
    var owned := Footprint(t);
    forall n | n in owned ensures n.start < n.end { Member(n, t); }
    TopIsLastOn(Top, t, Top, addr);
  }

  // ----- A splay halves the depth

  ghost predicate GoesLeft(t: Tree, addr: int) {
    t.Br? && addr < t.node.start && t.left.Br?
  }

  ghost predicate GoesRight(t: Tree, addr: int) {
    t.Br? && addr >= t.node.end && t.right.Br?
  }

  /** The number of links that a search for the address follows. */
  ghost function Steps(t: Tree, addr: int): nat {
    if GoesLeft(t, addr) then 1 + Steps(t.left, addr) else if GoesRight(t, addr) then 1 + Steps(t.right, addr) else 0
  }

  /** The greatest height of a subtree beside that search. */
  ghost function Aside(t: Tree, addr: int): nat {
    if t.Leaf? then 0
    else if GoesLeft(t, addr) then Max(Height(t.right), Aside(t.left, addr))
    else if GoesRight(t, addr) then Max(Height(t.left), Aside(t.right, addr))
    else Max(Height(t.left), Height(t.right))
  }

  ghost function LinkCount(c: Spine): nat {
    if c.Top? then 0 else 1 + LinkCount(c.outer)
  }

  ghost predicate Narrow(c: Spine, k: nat) {
    c.Link? ==> Height(c.sub) <= k && Narrow(c.outer, k)
  }

  /** Every link of a spine adds one to the height at most. */
  lemma {:induction false} CloseHeight(c: Spine, t: Tree, w: nat, k: nat)
    requires Narrow(c, w) && w <= k && Height(t) <= k
    ensures Height(CloseLeft(c, t)) <= k + LinkCount(c) && Height(CloseRight(c, t)) <= k + LinkCount(c)
    decreases c
  {
    if c.Link? {
      Taller(c.sub, c.node, t, k);
      Taller(t, c.node, c.sub, k);
      CloseHeight(c.outer, Br(c.sub, c.node, t), w, k + 1);
      CloseHeight(c.outer, Br(t, c.node, c.sub), w, k + 1);
    }
  }

  lemma ClosedHeight(c: Spine, t: Tree, d: Spine, w: nat, m: nat)
    requires t.Br? && Narrow(c, w + 1) && Narrow(d, w + 1) && Height(t.left) <= w + 1 && Height(t.right) <= w + 1
    requires LinkCount(c) <= m && LinkCount(d) <= m
    ensures Height(Close(c, t, d)) <= m + w + 2
  {
    CloseHeight(c, t.left, w + 1, w + 1);
    CloseHeight(d, t.right, w + 1, w + 1);
    Taller(CloseLeft(c, t.left), t.node, CloseRight(d, t.right), m + w + 1);
  }

  /** How many links the rest of the search can add to the spine of one side: half as many as it has steps. */
  ghost function ToRight(t: Tree, addr: int): nat {
    if GoesLeft(t, addr) then (Steps(t, addr) + 1) / 2 else Steps(t, addr) / 2
  }

  ghost function ToLeft(t: Tree, addr: int): nat {
    if GoesLeft(t, addr) then Steps(t, addr) / 2 else (Steps(t, addr) + 1) / 2
  }

  lemma CountsLeft(t: Tree, addr: int)
    requires GoesLeft(t, addr) && t.node.start < t.node.end && t.left.node.start < t.left.node.end
    ensures var l, w := t.left, Aside(t, addr);
            && Height(t.right) <= w
            && if addr >= l.node.start then
                 Aside(l, addr) <= w && ToLeft(l, addr) <= ToLeft(t, addr) && 1 + ToRight(l, addr) <= ToRight(t, addr)
               else
                 && Height(l.right) <= w
                 && (l.left.Br? ==>
                       && Aside(l.left, addr) <= w && ToLeft(l.left, addr) <= ToLeft(t, addr)
                       && 1 + ToRight(l.left, addr) <= ToRight(t, addr))
  {
    var l := t.left;
    assert Steps(t, addr) == 1 + Steps(l, addr) && Aside(t, addr) == Max(Height(t.right), Aside(l, addr));
    if addr < l.node.start && l.left.Br? {
      assert GoesLeft(l, addr);
      assert Steps(l, addr) == 1 + Steps(l.left, addr) && Aside(l, addr) == Max(Height(l.right), Aside(l.left, addr));
    } else if addr < l.node.start {
      assert Aside(l, addr) == Max(Height(l.left), Height(l.right));
    }
    hide Steps, Aside, Height;
  }

  lemma CountsRight(t: Tree, addr: int)
    requires GoesRight(t, addr) && t.node.start < t.node.end && t.right.node.start < t.right.node.end
    ensures var r, w := t.right, Aside(t, addr);
            && Height(t.left) <= w
            && if addr < r.node.end then
                 Aside(r, addr) <= w && ToRight(r, addr) <= ToRight(t, addr) && 1 + ToLeft(r, addr) <= ToLeft(t, addr)
               else
                 && Height(r.left) <= w
                 && (r.right.Br? ==>
                       && Aside(r.right, addr) <= w && ToRight(r.right, addr) <= ToRight(t, addr)
                       && 1 + ToLeft(r.right, addr) <= ToLeft(t, addr))
  {
    var r := t.right;
    assert Steps(t, addr) == 1 + Steps(r, addr) && Aside(t, addr) == Max(Height(t.left), Aside(r, addr));
    if addr >= r.node.end && r.right.Br? {
      assert GoesRight(r, addr) && !GoesLeft(r, addr);
      assert Steps(r, addr) == 1 + Steps(r.right, addr) && Aside(r, addr) == Max(Height(r.left), Aside(r.right, addr));
    } else if addr >= r.node.end {
      assert Aside(r, addr) == Max(Height(r.left), Height(r.right));
    }
    hide Steps, Aside, Height;
  }

  lemma CountsHere(t: Tree, addr: int)
    requires t.Br? && !GoesLeft(t, addr) && !GoesRight(t, addr)
    ensures Height(t.left) <= Aside(t, addr) && Height(t.right) <= Aside(t, addr)
  {
  }

  lemma NoHeight(t: Tree)
    requires t.Leaf?
    ensures Height(t) == 0
  {
  }

  lemma {:induction false} HalvedFrom(c: Spine, t: Tree, d: Spine, addr: int, w: nat, m: nat)
    requires t.Br? && (forall n :: n in Nodes(t) ==> n.start < n.end) && Aside(t, addr) <= w
    requires Narrow(c, w + 1) && Narrow(d, w + 1)
    requires LinkCount(c) + ToLeft(t, addr) <= m && LinkCount(d) + ToRight(t, addr) <= m
    ensures Height(SplayFrom(c, t, d, addr)) <= m + w + 2
    decreases t
  {
    var l, x, r := t.left, t.node, t.right;
    assert Nodes(l) <= Nodes(t) && Nodes(r) <= Nodes(t) && x in Nodes(t);
    assert l.Br? ==> l.node in Nodes(t) && Nodes(l.left) <= Nodes(t);
    assert r.Br? ==> r.node in Nodes(t) && Nodes(r.right) <= Nodes(t);
    SplayStep(c, t, d, addr);
    NoHeight(Leaf);
    hide SplayFrom, Close, Height, Aside, ToLeft, ToRight, Nodes;
    if GoesLeft(t, addr) {
      CountsLeft(t, addr);
      if addr < l.node.start { Taller(l.right, x, r, w); }
      if addr >= l.node.start {
        HalvedFrom(c, l, Link(d, x, r), addr, w, m);
      } else if l.left.Leaf? {
        ClosedHeight(c, Br(Leaf, l.node, Br(l.right, x, r)), d, w, m);
      } else {
        HalvedFrom(c, l.left, Link(d, l.node, Br(l.right, x, r)), addr, w, m);
      }
    } else if GoesRight(t, addr) {
      CountsRight(t, addr);
      if addr >= r.node.end { Taller(l, x, r.left, w); }
      if addr < r.node.end {
        HalvedFrom(Link(c, x, l), r, d, addr, w, m);
      } else if r.right.Leaf? {
        ClosedHeight(c, Br(Br(l, x, r.left), r.node, Leaf), d, w, m);
      } else {
        HalvedFrom(Link(c, r.node, Br(l, x, r.left)), r.right, d, addr, w, m);
      }
    } else {
      CountsHere(t, addr);
      ClosedHeight(c, t, d, w, m);
    }
  }

  /** After a splay only every other node on the way of the search adds to the height. */
  lemma SplayHalves(t: Tree, addr: int)
    requires Ordered(InOrder(t))
    ensures Height(SplayOf(t, addr)) <= (Steps(t, addr) + 1) / 2 + Aside(t, addr) + 2
  {
    if t.Br? {
      var owned := Footprint(t);
      forall n | n in owned ensures n.start < n.end { Member(n, t); }
      HalvedFrom(Top, t, Top, addr, Aside(t, addr), (Steps(t, addr) + 1) / 2);
    }
  }

  /** The node whose link is open: the source's `ltree_max` or `rtree_min`. */
  ghost function Tip(c: Spine, dummy: Node): (n: Node)
    ensures n in SpineNodes(c) + {dummy}
  {
    if c.Top? then dummy else c.node
  }

  ghost predicate LeftSpine(m: Links, c: Spine, dummy: Node) {
    match c
    case Top => true
    case Link(o, n, s) => Laid(m, m.Prev(n), s) && LeftSpine(m, o, dummy) && m.Next(Tip(o, dummy)) == n
  }

  ghost predicate RightSpine(m: Links, c: Spine, dummy: Node) {
    match c
    case Top => true
    case Link(o, n, s) => Laid(m, m.Next(n), s) && RightSpine(m, o, dummy) && m.Prev(Tip(o, dummy)) == n
  }

  /** A write elsewhere, or to the dummy's link for the other side, leaves a spine alone. */
  lemma {:induction false} SpineKept(m: Links, c: Spine, dummy: Node, x: Node, v: Node?)
    requires x !in SpineNodes(c)
    ensures LeftSpine(m, c, dummy) ==> LeftSpine(m.SetPrev(x, v), c, dummy)
    ensures RightSpine(m, c, dummy) ==> RightSpine(m.SetNext(x, v), c, dummy)
    ensures LeftSpine(m, c, dummy) && x != dummy ==> LeftSpine(m.SetNext(x, v), c, dummy)
    ensures RightSpine(m, c, dummy) && x != dummy ==> RightSpine(m.SetPrev(x, v), c, dummy)
  {
    if c.Link? {
      SpineKept(m, c.outer, dummy, x, v);
      if LeftSpine(m, c, dummy) { LaidKept(m, m.Prev(c.node), c.sub, x, v); }
      if RightSpine(m, c, dummy) { LaidKept(m, m.Next(c.node), c.sub, x, v); }
    }
  }

  lemma {:induction false} CloseLeftLaid(m: Links, c: Spine, t: Tree, dummy: Node)
    requires LeftSpine(m, c, dummy) && Laid(m, m.Next(Tip(c, dummy)), t)
    ensures Laid(m, m.Next(dummy), CloseLeft(c, t))
  {
    if c.Link? {
      CloseLeftLaid(m, c.outer, Br(c.sub, c.node, t), dummy);
    }
  }

  lemma {:induction false} CloseRightLaid(m: Links, c: Spine, t: Tree, dummy: Node)
    requires RightSpine(m, c, dummy) && Laid(m, m.Prev(Tip(c, dummy)), t)
    ensures Laid(m, m.Prev(dummy), CloseRight(c, t))
  {
    if c.Link? {
      CloseRightLaid(m, c.outer, Br(t, c.node, c.sub), dummy);
    }
  }

  lemma {:induction false} CloseLeftContents(c: Spine, t: Tree)
    ensures InOrder(CloseLeft(c, t)) == FlatLeft(c) + InOrder(t)
    ensures Nodes(CloseLeft(c, t)) == SpineNodes(c) + Nodes(t)
  {
    if c.Link? {
      CloseLeftContents(c.outer, Br(c.sub, c.node, t));
      Regroup(FlatLeft(c.outer), InOrder(c.sub), c.node, InOrder(t), []);
    }
  }

  lemma {:induction false} CloseRightContents(c: Spine, t: Tree)
    ensures InOrder(CloseRight(c, t)) == InOrder(t) + FlatRight(c)
    ensures Nodes(CloseRight(c, t)) == SpineNodes(c) + Nodes(t)
  {
    if c.Link? {
      CloseRightContents(c.outer, Br(t, c.node, c.sub));
      Regroup([], InOrder(t), c.node, InOrder(c.sub), FlatRight(c.outer));
    }
  }

  /** Left tree, remaining tree and right tree together hold `whole`, and the parts already linked
      away end at or before `addr`, or start after it. */
  ghost predicate Split(c: Spine, t: Tree, d: Spine, addr: int, whole: seq<Node>) {
    && Ordered(whole) && FlatLeft(c) + InOrder(t) + FlatRight(d) == whole
    && AllEndBy(FlatLeft(c), addr) && AllStartAfter(FlatRight(d), addr)
  }

  lemma BoundsConcat(a: seq<Node>, b: seq<Node>, addr: int)
    ensures AllEndBy(a + b, addr) <==> AllEndBy(a, addr) && AllEndBy(b, addr)
    ensures AllStartFrom(a + b, addr) <==> AllStartFrom(a, addr) && AllStartFrom(b, addr)
    ensures AllStartAfter(a + b, addr) <==> AllStartAfter(a, addr) && AllStartAfter(b, addr)
  {
    forall i | 0 <= i < |a| ensures a[i] == (a + b)[i] {}
    forall i | 0 <= i < |b| ensures b[i] == (a + b)[|a| + i] {}
  }

  lemma RootApart(c: Spine, l: Tree, x: Node, r: Tree, d: Spine, addr: int, whole: seq<Node>)
    requires Split(c, Br(l, x, r), d, addr, whole)
    ensures x !in SpineNodes(c) && x !in Nodes(l) && x !in Nodes(r) && x !in SpineNodes(d)
    ensures x in whole && x.start < x.end
    ensures AllEndBy(InOrder(l), x.start) && AllStartFrom(InOrder(r), x.end)
  {
    var a, b := FlatLeft(c) + InOrder(l), InOrder(r) + FlatRight(d);
    assert InOrder(Br(l, x, r)) == InOrder(l) + [x] + InOrder(r);
    assert Ordered(whole) && FlatLeft(c) + InOrder(Br(l, x, r)) + FlatRight(d) == whole;
    hide *;
    Regroup(FlatLeft(c), InOrder(l), x, InOrder(r), FlatRight(d));
    Pivot(a, x, b);
    assert x in a + [x] + b;
    BoundsConcat(FlatLeft(c), InOrder(l), x.start);
    BoundsConcat(InOrder(r), FlatRight(d), x.end);
    SpineMember(x, c);
    Member(x, l);
    Member(x, r);
    SpineMember(x, d);
  }

  lemma LeftTipApart(c: Spine, t: Tree, d: Spine, addr: int, whole: seq<Node>)
    requires Split(c, t, d, addr, whole) && c.Link?
    ensures c.node !in SpineNodes(c.outer) && c.node !in Nodes(c.sub) && c.node !in Nodes(t) && c.node !in SpineNodes(d)
    ensures c.node in whole
  {
    var a, b := FlatLeft(c.outer) + InOrder(c.sub), InOrder(t) + FlatRight(d);
    assert whole == a + [c.node] + b;
    Pivot(a, c.node, b);
    SpineMember(c.node, c.outer);
    Member(c.node, c.sub);
    Member(c.node, t);
    SpineMember(c.node, d);
  }

  lemma RightTipApart(c: Spine, t: Tree, d: Spine, addr: int, whole: seq<Node>)
    requires Split(c, t, d, addr, whole) && d.Link?
    ensures d.node !in SpineNodes(d.outer) && d.node !in Nodes(d.sub) && d.node !in Nodes(t) && d.node !in SpineNodes(c)
    ensures d.node in whole
  {
    var a, b := FlatLeft(c) + InOrder(t), InOrder(d.sub) + FlatRight(d.outer);
    assert whole == a + [d.node] + b;
    Pivot(a, d.node, b);
    SpineMember(d.node, d.outer);
    Member(d.node, d.sub);
    Member(d.node, t);
    SpineMember(d.node, c);
  }

  lemma LinkRight(c: Spine, l: Tree, x: Node, r: Tree, d: Spine, addr: int, whole: seq<Node>)
    requires Split(c, Br(l, x, r), d, addr, whole) && addr < x.start
    ensures Split(c, l, Link(d, x, r), addr, whole)
  {
    assert FlatRight(Link(d, x, r)) == [x] + InOrder(r) + FlatRight(d) &&
      InOrder(Br(l, x, r)) == InOrder(l) + [x] + InOrder(r);
    RootApart(c, l, x, r, d, addr, whole);
    hide InOrder, FlatRight, FlatLeft, Ordered, AllEndBy;
    Regroup(FlatLeft(c), InOrder(l), x, InOrder(r), FlatRight(d));
    RightOf(x, InOrder(r), FlatRight(d), addr);
  }

  lemma RightOf(x: Node, r: seq<Node>, d: seq<Node>, addr: int)
    requires addr < x.start < x.end && AllStartFrom(r, x.end) && AllStartAfter(d, addr)
    ensures AllStartAfter([x] + r + d, addr)
  {
    assert AllStartAfter([x], addr) && AllStartAfter(r, addr);
    hide AllStartFrom, AllStartAfter;
    BoundsConcat([x], r, addr);
    BoundsConcat([x] + r, d, addr);
  }

  lemma LeftOf(c: seq<Node>, l: seq<Node>, x: Node, addr: int)
    requires x.start < x.end <= addr && AllEndBy(l, x.start) && AllEndBy(c, addr)
    ensures AllEndBy(c + l + [x], addr)
  {
    assert AllEndBy([x], addr) && AllEndBy(l, addr);
    hide AllEndBy;
    BoundsConcat(c, l, addr);
    BoundsConcat(c + l, [x], addr);
  }

  lemma LinkLeft(c: Spine, l: Tree, x: Node, r: Tree, d: Spine, addr: int, whole: seq<Node>)
    requires Split(c, Br(l, x, r), d, addr, whole) && x.end <= addr
    ensures Split(Link(c, x, l), r, d, addr, whole)
  {
    assert FlatLeft(Link(c, x, l)) == FlatLeft(c) + InOrder(l) + [x] &&
      InOrder(Br(l, x, r)) == InOrder(l) + [x] + InOrder(r);
    RootApart(c, l, x, r, d, addr, whole);
    hide InOrder, FlatRight, FlatLeft, Ordered, AllStartFrom;
    Regroup(FlatLeft(c), InOrder(l), x, InOrder(r), FlatRight(d));
    LeftOf(FlatLeft(c), InOrder(l), x, addr);
  }

  /** When the descent stops, what is left of the root ends by `addr` and what is right starts after it. */
  lemma FinishedSplit(c: Spine, l: Tree, x: Node, r: Tree, d: Spine, addr: int, whole: seq<Node>)
    requires Split(c, Br(l, x, r), d, addr, whole)
    requires addr < x.start ==> l.Leaf?
    requires x.end <= addr ==> r.Leaf?
    ensures AllEndBy(FlatLeft(c) + InOrder(l), addr) && AllStartAfter(InOrder(r) + FlatRight(d), addr)
    ensures (FlatLeft(c) + InOrder(l)) + [x] + (InOrder(r) + FlatRight(d)) == whole
  {
    Regroup(FlatLeft(c), InOrder(l), x, InOrder(r), FlatRight(d));
    assert AllEndBy(InOrder(l), addr) && AllStartAfter(InOrder(r), addr) by {
      RootApart(c, l, x, r, d, addr, whole);
    }
    BoundsConcat(FlatLeft(c), InOrder(l), addr);
    BoundsConcat(InOrder(r), FlatRight(d), addr);
  }

  /** What a splay at `addr` leaves: the same intervals, separated by the new root. */
  ghost predicate Splayed(t: Tree, addr: int, whole: seq<Node>) {
    && InOrder(t) == whole
    && (t.Br? ==> AllEndBy(InOrder(t.left), addr) && AllStartAfter(InOrder(t.right), addr))
  }

  /** The pointer state inside the splay loop. */
  ghost predicate Unzipped(m: Links, owned: set<Node>, dummy: Node, root: Node?, c: Spine, t: Tree, d: Spine) {
    && Nodes(t) <= owned && SpineNodes(c) <= owned && SpineNodes(d) <= owned
    && Laid(m, root, t) && LeftSpine(m, c, dummy) && RightSpine(m, d, dummy)
    && dummy !in Nodes(t) && dummy !in SpineNodes(c) && dummy !in SpineNodes(d)
  }

  lemma UnzippedRotateRight(m: Links, owned: set<Node>, dummy: Node, c: Spine, x: Node, y: Node, a: Tree, b: Tree,
                            r: Tree, d: Spine, addr: int, whole: seq<Node>)
    returns (m': Links)
    requires var t := Br(Br(a, y, b), x, r); Unzipped(m, owned, dummy, x, c, t, d) && Split(c, t, d, addr, whole)
    ensures x in owned && y in owned
    ensures m' == m.SetPrev(x, m.Next(y)).SetNext(y, x)
    ensures var t' := Br(a, y, Br(b, x, r)); Unzipped(m', owned, dummy, y, c, t', d) && Split(c, t', d, addr, whole)
  {
    assert Laid(m, m.Prev(x), Br(a, y, b)) && m.Prev(x) == y;
    Rotation(a, y, b, x, r);
    RootApart(c, Br(a, y, b), x, r, d, addr, whole);
    RootApart(c, a, y, Br(b, x, r), d, addr, whole);
    var m1 := m.SetPrev(x, m.Next(y));
    m' := m1.SetNext(y, x);
    LaidKept(m, m.Prev(y), a, x, m.Next(y));
    LaidKept(m, m.Next(y), b, x, m.Next(y));
    LaidKept(m, m.Next(x), r, x, m.Next(y));
    LaidKept(m1, m.Prev(y), a, y, x);
    LaidKept(m1, m.Next(y), b, y, x);
    LaidKept(m1, m.Next(x), r, y, x);
    SpineKept(m, c, dummy, x, m.Next(y));
    SpineKept(m, d, dummy, x, m.Next(y));
    SpineKept(m1, c, dummy, y, x);
    SpineKept(m1, d, dummy, y, x);
  }

  lemma UnzippedRotateLeft(m: Links, owned: set<Node>, dummy: Node, c: Spine, l: Tree, x: Node, a: Tree, y: Node,
                           b: Tree, d: Spine, addr: int, whole: seq<Node>)
    returns (m': Links)
    requires var t := Br(l, x, Br(a, y, b)); Unzipped(m, owned, dummy, x, c, t, d) && Split(c, t, d, addr, whole)
    ensures x in owned && y in owned
    ensures m' == m.SetNext(x, m.Prev(y)).SetPrev(y, x)
    ensures var t' := Br(Br(l, x, a), y, b); Unzipped(m', owned, dummy, y, c, t', d) && Split(c, t', d, addr, whole)
  {
    assert Laid(m, m.Next(x), Br(a, y, b)) && m.Next(x) == y;
    Rotation(l, x, a, y, b);
    RootApart(c, l, x, Br(a, y, b), d, addr, whole);
    RootApart(c, Br(l, x, a), y, b, d, addr, whole);
    var m1 := m.SetNext(x, m.Prev(y));
    m' := m1.SetPrev(y, x);
    LaidKept(m, m.Prev(x), l, x, m.Prev(y));
    LaidKept(m, m.Prev(y), a, x, m.Prev(y));
    LaidKept(m, m.Next(y), b, x, m.Prev(y));
    LaidKept(m1, m.Prev(x), l, y, x);
    LaidKept(m1, m.Prev(y), a, y, x);
    LaidKept(m1, m.Next(y), b, y, x);
    SpineKept(m, c, dummy, x, m.Prev(y));
    SpineKept(m, d, dummy, x, m.Prev(y));
    SpineKept(m1, c, dummy, y, x);
    SpineKept(m1, d, dummy, y, x);
  }

  /** Linking the root into the right tree: one write to the tip's left link. */
  lemma UnzippedLinkRight(m: Links, owned: set<Node>, dummy: Node, c: Spine, l: Tree, x: Node, r: Tree, d: Spine,
                          addr: int, whole: seq<Node>)
    returns (m': Links)
    requires var t := Br(l, x, r); Unzipped(m, owned, dummy, x, c, t, d) && Split(c, t, d, addr, whole)
    requires addr < x.start
    ensures x in owned && (d.Link? ==> d.node in owned)
    ensures m' == m.SetPrev(Tip(d, dummy), x)
    ensures Unzipped(m', owned, dummy, m.Prev(x), c, l, Link(d, x, r)) && Split(c, l, Link(d, x, r), addr, whole)
  {
    LinkRight(c, l, x, r, d, addr, whole);
    RootApart(c, l, x, r, d, addr, whole);
    if d.Link? { RightTipApart(c, Br(l, x, r), d, addr, whole); }
    var tip := Tip(d, dummy);
    m' := m.SetPrev(tip, x);
    LaidKept(m, m.Prev(x), l, tip, x);
    LaidKept(m, m.Next(x), r, tip, x);
    SpineKept(m, c, dummy, tip, x);
    RightTipWritten(m, d, dummy, x);
  }

  /** Writing the open link of a spine does not disturb the spine. */
  lemma RightTipWritten(m: Links, d: Spine, dummy: Node, v: Node?)
    requires RightSpine(m, d, dummy) && dummy !in SpineNodes(d)
    requires d.Link? ==> d.node !in SpineNodes(d.outer) && d.node !in Nodes(d.sub)
    ensures RightSpine(m.SetPrev(Tip(d, dummy), v), d, dummy)
  {
    if d.Link? {
      LaidKept(m, m.Next(d.node), d.sub, d.node, v);
      SpineKept(m, d.outer, dummy, d.node, v);
    }
  }

  lemma LeftTipWritten(m: Links, c: Spine, dummy: Node, v: Node?)
    requires LeftSpine(m, c, dummy) && dummy !in SpineNodes(c)
    requires c.Link? ==> c.node !in SpineNodes(c.outer) && c.node !in Nodes(c.sub)
    ensures LeftSpine(m.SetNext(Tip(c, dummy), v), c, dummy)
  {
    if c.Link? {
      LaidKept(m, m.Prev(c.node), c.sub, c.node, v);
      SpineKept(m, c.outer, dummy, c.node, v);
    }
  }

  lemma UnzippedLinkLeft(m: Links, owned: set<Node>, dummy: Node, c: Spine, l: Tree, x: Node, r: Tree, d: Spine,
                         addr: int, whole: seq<Node>)
    returns (m': Links)
    requires var t := Br(l, x, r); Unzipped(m, owned, dummy, x, c, t, d) && Split(c, t, d, addr, whole) && x.end <= addr
    ensures x in owned && (c.Link? ==> c.node in owned)
    ensures m' == m.SetNext(Tip(c, dummy), x)
    ensures Unzipped(m', owned, dummy, m.Next(x), Link(c, x, l), r, d) && Split(Link(c, x, l), r, d, addr, whole)
  {
    LinkLeft(c, l, x, r, d, addr, whole);
    RootApart(c, l, x, r, d, addr, whole);
    if c.Link? { LeftTipApart(c, Br(l, x, r), d, addr, whole); }
    var tip := Tip(c, dummy);
    m' := m.SetNext(tip, x);
    LaidKept(m, m.Prev(x), l, tip, x);
    LaidKept(m, m.Next(x), r, tip, x);
    SpineKept(m, d, dummy, tip, x);
    LeftTipWritten(m, c, dummy, x);
  }

  /** The first two assembling writes close the left tree with the root's left child and the right
      tree with its right child. */
  lemma Closed(m: Links, owned: set<Node>, dummy: Node, c: Spine, l: Tree, x: Node, r: Tree, d: Spine, addr: int,
               whole: seq<Node>)
    returns (m1: Links, m2: Links)
    requires var t := Br(l, x, r); Unzipped(m, owned, dummy, x, c, t, d) && Split(c, t, d, addr, whole)
    ensures m1 == m.SetNext(Tip(c, dummy), m.Prev(x)) && m2 == m1.SetPrev(Tip(d, dummy), m1.Next(x))
    ensures Laid(m2, m2.Next(dummy), CloseLeft(c, l)) && Laid(m2, m2.Prev(dummy), CloseRight(d, r))
  {
    hide Ordered;
    var t := Br(l, x, r);
    RootApart(c, l, x, r, d, addr, whole);
    if c.Link? { LeftTipApart(c, t, d, addr, whole); }
    if d.Link? { RightTipApart(c, t, d, addr, whole); }
    hide Split, FlatLeft, FlatRight, InOrder;
    var lt, rt := Tip(c, dummy), Tip(d, dummy);
    m1 := m.SetNext(lt, m.Prev(x));
    LaidKept(m, m.Prev(x), l, lt, m.Prev(x));
    LaidKept(m, m.Next(x), r, lt, m.Prev(x));
    SpineKept(m, d, dummy, lt, m.Prev(x));
    LeftTipWritten(m, c, dummy, m.Prev(x));
    m2 := m1.SetPrev(rt, m1.Next(x));
    LaidKept(m1, m1.Prev(x), l, rt, m1.Next(x));
    LaidKept(m1, m1.Next(x), r, rt, m1.Next(x));
    SpineKept(m1, c, dummy, rt, m1.Next(x));
    RightTipWritten(m1, d, dummy, m1.Next(x));
    CloseLeftLaid(m2, c, l, dummy);
    CloseRightLaid(m2, d, r, dummy);
  }

  /** The four assembling writes, in order, leave one tree with the root on top. */
  lemma Assembled(m: Links, owned: set<Node>, dummy: Node, c: Spine, l: Tree, x: Node, r: Tree, d: Spine, addr: int,
                  whole: seq<Node>)
    returns (m1: Links, m2: Links, m3: Links, t': Tree)
    requires var t := Br(l, x, r); Unzipped(m, owned, dummy, x, c, t, d) && Split(c, t, d, addr, whole)
    requires addr < x.start ==> l.Leaf?
    requires x.end <= addr ==> r.Leaf?
    ensures x in owned && (c.Link? ==> c.node in owned) && (d.Link? ==> d.node in owned)
    ensures m1 == m.SetNext(Tip(c, dummy), m.Prev(x))
    ensures m2 == m1.SetPrev(Tip(d, dummy), m1.Next(x))
    ensures m3 == m2.SetPrev(x, m2.Next(dummy)).SetNext(x, m2.Prev(dummy))
    ensures Laid(m3, x, t') && Splayed(t', addr, whole) && Nodes(t') <= owned && t' == Close(c, Br(l, x, r), d)
  {
    hide LeftSpine, RightSpine, Ordered;
    m1, m2 := Closed(m, owned, dummy, c, l, x, r, d, addr, whole);
    FinishedSplit(c, l, x, r, d, addr, whole);
    RootApart(c, l, x, r, d, addr, whole);
    CloseLeftContents(c, l);
    CloseRightContents(d, r);
    hide Split, FlatLeft, FlatRight;
    var left, right := CloseLeft(c, l), CloseRight(d, r);
    var n, p := m2.Next(dummy), m2.Prev(dummy);
    LaidKept(m2, n, left, x, n);
    LaidKept(m2, p, right, x, n);
    m3 := m2.SetPrev(x, n);
    LaidKept(m3, n, left, x, p);
    LaidKept(m3, p, right, x, p);
    m3 := m3.SetNext(x, p);
    t' := Br(left, x, right);
  }

  /** Ghost view of one moment of the splay loop: the links, the left tree, what is left to search
      and the right tree. */
  datatype Zip = Zip(links: Links, left: Spine, focus: Tree, right: Spine)

  /** The loop invariant; `owned` is fixed by the call and includes the dummy. */
  ghost predicate Searching(z: Zip, owned: set<Node>, dummy: Node, ltreeMax: Node, rtreeMin: Node, root: Node?,
                            addr: int, whole: seq<Node>)
    reads owned
  {
    && dummy in owned && Agrees(owned, z.links)
    && ltreeMax == Tip(z.left, dummy) && rtreeMin == Tip(z.right, dummy)
    && Unzipped(z.links, owned, dummy, root, z.left, z.focus, z.right)
    && Split(z.left, z.focus, z.right, addr, whole)
  }

  lemma Unfold(z: Zip, owned: set<Node>, dummy: Node, ltreeMax: Node, rtreeMin: Node, root: Node?, addr: int,
               whole: seq<Node>)
    requires Searching(z, owned, dummy, ltreeMax, rtreeMin, root, addr, whole) && root != null
    ensures z.focus.Br? && z.focus == Br(z.focus.left, root, z.focus.right)
    ensures root in owned && ltreeMax in owned && rtreeMin in owned
    ensures root.prev == z.links.Prev(root) && root.next == z.links.Next(root)
    ensures Laid(z.links, root.prev, z.focus.left) && Laid(z.links, root.next, z.focus.right)
    ensures root.start < root.end && root != dummy
  {
    RootApart(z.left, z.focus.left, root, z.focus.right, z.right, addr, whole);
  }

  lemma StartSearch(z: Zip, owned: set<Node>, dummy: Node, root: Node?, addr: int)
    requires z.left.Top? && z.right.Top? && Agrees(owned, z.links) && Shape(root, z.focus) && Ordered(InOrder(z.focus))
    requires dummy in owned && Nodes(z.focus) <= owned && dummy !in Nodes(z.focus)
    ensures Searching(z, owned, dummy, dummy, dummy, root, addr, InOrder(z.focus))
  {
    LaidIffShape(owned, z.links, root, z.focus);
  }

  method RotateRight(root: Node, y: Node, dummy: Node, ltreeMax: Node, rtreeMin: Node,
                     ghost z: Zip, ghost owned: set<Node>, ghost addr: int, ghost whole: seq<Node>)
    returns (ghost z': Zip)
    requires Searching(z, owned, dummy, ltreeMax, rtreeMin, root, addr, whole) && root.prev == y
    modifies owned
    ensures Searching(z', owned, dummy, ltreeMax, rtreeMin, y, addr, whole)
    ensures z.focus.Br? && z.focus.left.Br? && z.focus.left.node == y && z'.left == z.left && z'.right == z.right
    ensures z'.focus == Br(z.focus.left.left, y, Br(z.focus.left.right, root, z.focus.right))
  {
    hide Split, Laid, LeftSpine, RightSpine, Nodes, SpineNodes, InOrder, FlatLeft, FlatRight;
    Unfold(z, owned, dummy, ltreeMax, rtreeMin, root, addr, whole);
    ghost var l, r := z.focus.left, z.focus.right;
    ghost var m := UnzippedRotateRight(z.links, owned, dummy, z.left, root, y, l.left, l.right, r, z.right, addr,
      whole);
    z' := Zip(m, z.left, Br(l.left, y, Br(l.right, root, r)), z.right);
    root.prev := y.next;
    y.next := root;
  }

  method RotateLeft(root: Node, y: Node, dummy: Node, ltreeMax: Node, rtreeMin: Node,
                    ghost z: Zip, ghost owned: set<Node>, ghost addr: int, ghost whole: seq<Node>)
    returns (ghost z': Zip)
    requires Searching(z, owned, dummy, ltreeMax, rtreeMin, root, addr, whole) && root.next == y
    modifies owned
    ensures Searching(z', owned, dummy, ltreeMax, rtreeMin, y, addr, whole)
    ensures z.focus.Br? && z.focus.right.Br? && z.focus.right.node == y && z'.left == z.left && z'.right == z.right
    ensures z'.focus == Br(Br(z.focus.left, root, z.focus.right.left), y, z.focus.right.right)
  {
    hide Split, Laid, LeftSpine, RightSpine, Nodes, SpineNodes, InOrder, FlatLeft, FlatRight;
    Unfold(z, owned, dummy, ltreeMax, rtreeMin, root, addr, whole);
    ghost var l, r := z.focus.left, z.focus.right;
    ghost var m := UnzippedRotateLeft(z.links, owned, dummy, z.left, l, root, r.left, y, r.right, z.right, addr, whole);
    z' := Zip(m, z.left, Br(Br(l, root, r.left), y, r.right), z.right);
    root.next := y.prev;
    y.prev := root;
  }

  /** Link the root into the right tree; the search goes on with its left child. */
  method LinkIntoRight(root: Node, dummy: Node, ltreeMax: Node, rtreeMin: Node,
                       ghost z: Zip, ghost owned: set<Node>, ghost addr: int, ghost whole: seq<Node>)
    returns (ghost z': Zip)
    requires Searching(z, owned, dummy, ltreeMax, rtreeMin, root, addr, whole) && addr < root.start
    modifies owned
    ensures Searching(z', owned, dummy, ltreeMax, root, old(root.prev), addr, whole)
    ensures z.focus.Br? && z'.focus == z.focus.left && z'.left == z.left &&
            z'.right == Link(z.right, root, z.focus.right)
  {
    hide Split, Laid, LeftSpine, RightSpine, Nodes, SpineNodes, InOrder, FlatLeft, FlatRight;
    Unfold(z, owned, dummy, ltreeMax, rtreeMin, root, addr, whole);
    ghost var l, r := z.focus.left, z.focus.right;
    ghost var m := UnzippedLinkRight(z.links, owned, dummy, z.left, l, root, r, z.right, addr, whole);
    z' := Zip(m, z.left, l, Link(z.right, root, r));
    rtreeMin.prev := root;
  }

  method LinkIntoLeft(root: Node, dummy: Node, ltreeMax: Node, rtreeMin: Node,
                      ghost z: Zip, ghost owned: set<Node>, ghost addr: int, ghost whole: seq<Node>)
    returns (ghost z': Zip)
    requires Searching(z, owned, dummy, ltreeMax, rtreeMin, root, addr, whole) && addr >= root.end
    modifies owned
    ensures Searching(z', owned, dummy, root, rtreeMin, old(root.next), addr, whole)
    ensures z.focus.Br? && z'.focus == z.focus.right && z'.left == Link(z.left, root, z.focus.left) &&
            z'.right == z.right
  {
    hide Split, Laid, LeftSpine, RightSpine, Nodes, SpineNodes, InOrder, FlatLeft, FlatRight;
    Unfold(z, owned, dummy, ltreeMax, rtreeMin, root, addr, whole);
    ghost var l, r := z.focus.left, z.focus.right;
    ghost var m := UnzippedLinkLeft(z.links, owned, dummy, z.left, l, root, r, z.right, addr, whole);
    z' := Zip(m, Link(z.left, root, l), r, z.right);
    ltreeMax.next := root;
  }

  /** Close the left tree with the root's left child and the right tree with its right child. */
  method CloseSides(root: Node, ltreeMax: Node, rtreeMin: Node, ghost m: Links, ghost owned: set<Node>)
    returns (ghost m': Links)
    requires Agrees(owned, m) && root in owned && ltreeMax in owned && rtreeMin in owned
    modifies owned
    ensures var m1 := m.SetNext(ltreeMax, m.Prev(root)); m' == m1.SetPrev(rtreeMin, m1.Next(root))
    ensures Agrees(owned, m')
  {
    ltreeMax.next := root.prev;
    ghost var m1 := m.SetNext(ltreeMax, m.Prev(root));
    assert Agrees(owned, m1);
    rtreeMin.prev := root.next;
    m' := m1.SetPrev(rtreeMin, m1.Next(root));
  }

  /** Give the root the finished left and right trees. */
  method CloseRoot(root: Node, dummy: Node, ghost m: Links, ghost owned: set<Node>) returns (ghost m': Links)
    requires Agrees(owned, m) && root in owned && dummy in owned && root != dummy
    modifies owned
    ensures m' == m.SetPrev(root, m.Next(dummy)).SetNext(root, m.Prev(dummy)) && Agrees(owned, m')
  {
    root.prev := dummy.next;
    root.next := dummy.prev;
    m' := m.SetPrev(root, m.Next(dummy)).SetNext(root, m.Prev(dummy));
  }

  /** Assemble the new root from the three parts. */
  method Assemble(root: Node, dummy: Node, ltreeMax: Node, rtreeMin: Node,
                  ghost z: Zip, ghost owned: set<Node>, ghost addr: int, ghost whole: seq<Node>)
    returns (ghost t: Tree)
    requires Searching(z, owned, dummy, ltreeMax, rtreeMin, root, addr, whole)
    requires addr < root.start ==> root.prev == null
    requires root.end <= addr ==> root.next == null
    modifies owned
    ensures Shape(root, t) && Splayed(t, addr, whole) && z.focus.Br? && t == Close(z.left, z.focus, z.right)
  {
    hide Split, Laid, LeftSpine, RightSpine, Nodes, SpineNodes, InOrder, FlatLeft, FlatRight, Shape, Splayed, CloseLeft,
      CloseRight, Close, Ordered;
    Unfold(z, owned, dummy, ltreeMax, rtreeMin, root, addr, whole);
    ghost var m1, m2, m3 := z.links, z.links, z.links;
    m1, m2, m3, t := Assembled(z.links, owned, dummy, z.left, z.focus.left, root, z.focus.right, z.right, addr, whole);
    hide Unzipped, Agrees;
    m1 := CloseSides(root, ltreeMax, rtreeMin, z.links, owned);
    m3 := CloseRoot(root, dummy, m2, owned);
    LaidIffShape(owned, m3, root, t);
  }

  /** One iteration of the loop. */
  lemma SplayStep(c: Spine, t: Tree, d: Spine, addr: int)
    requires t.Br?
    ensures var l, x, r := t.left, t.node, t.right;
            SplayFrom(c, t, d, addr) ==
              if addr < x.start then
                if l.Leaf? then Close(c, t, d)
                else if addr >= l.node.start then SplayFrom(c, l, Link(d, x, r), addr)
                else if l.left.Leaf? then Close(c, Br(Leaf, l.node, Br(l.right, x, r)), d)
                else SplayFrom(c, l.left, Link(d, l.node, Br(l.right, x, r)), addr)
              else if addr >= x.end then
                if r.Leaf? then Close(c, t, d)
                else if addr < r.node.end then SplayFrom(Link(c, x, l), r, d, addr)
                else if r.right.Leaf? then Close(c, Br(Br(l, x, r.left), r.node, Leaf), d)
                else SplayFrom(Link(c, r.node, Br(l, x, r.left)), r.right, d, addr)
              else Close(c, t, d)
  {
  }

  lemma LaidNull(m: Links, n: Node?, t: Tree)
    requires Laid(m, n, t)
    ensures n == null <==> t.Leaf?
    ensures n != null ==> t.node == n
  {
  }

  method Splay(root0: Node?, addr: int, ghost t0: Tree) returns (root: Node?, ghost t: Tree)
    requires Shape(root0, t0) && Ordered(InOrder(t0))
    modifies Nodes(t0)
    ensures Shape(root, t) && Splayed(t, addr, InOrder(t0)) && t == SplayOf(t0, addr)
  {
    root, t := root0, t0;
    if root == null { return; }
    ghost var whole := InOrder(t0);
    ghost var owned := Footprint(t0);
    var dummy := new Node(0, 0, 0);
    owned := owned + {dummy};
    ghost var m := Links(map n: Node | n in owned :: n.prev, map n: Node | n in owned :: n.next);
    var ltreeMax: Node, rtreeMin: Node := dummy, dummy;
    ghost var z := Zip(m, Top, t, Top);
    StartSearch(z, owned, dummy, root, addr);
    ghost var goal := SplayOf(t0, addr);
    assert z.focus.Br? && SplayFrom(z.left, z.focus, z.right, addr) == goal;
    hide *;
    while true
      invariant root != null && Searching(z, owned, dummy, ltreeMax, rtreeMin, root, addr, whole)
      invariant z.focus.Br? && SplayFrom(z.left, z.focus, z.right, addr) == goal
      decreases z.focus
    {
      Unfold(z, owned, dummy, ltreeMax, rtreeMin, root, addr, whole);
      SplayStep(z.left, z.focus, z.right, addr);
      LaidNull(z.links, root.prev, z.focus.left);
      LaidNull(z.links, root.next, z.focus.right);
      var y: Node?;
      if addr < root.start {
        y := root.prev;
        if y == null { break; }
        if addr < y.start {
          z := RotateRight(root, y, dummy, ltreeMax, rtreeMin, z, owned, addr, whole);
          root := y;
          y := root.prev;
          Unfold(z, owned, dummy, ltreeMax, rtreeMin, root, addr, whole);
          LaidNull(z.links, root.prev, z.focus.left);
          if y == null { break; }
        }
        z := LinkIntoRight(root, dummy, ltreeMax, rtreeMin, z, owned, addr, whole);
        rtreeMin := root;
      } else if addr >= root.end {
        y := root.next;
        if y == null { break; }
        if addr >= y.end {
          z := RotateLeft(root, y, dummy, ltreeMax, rtreeMin, z, owned, addr, whole);
          root := y;
          y := root.next;
          Unfold(z, owned, dummy, ltreeMax, rtreeMin, root, addr, whole);
          LaidNull(z.links, root.next, z.focus.right);
          if y == null { break; }
        }
        z := LinkIntoLeft(root, dummy, ltreeMax, rtreeMin, z, owned, addr, whole);
        ltreeMax := root;
      } else {
        break;
      }
      root := y;
    }
    Unfold(z, owned, dummy, ltreeMax, rtreeMin, root, addr, whole);
    t := Assemble(root, dummy, ltreeMax, rtreeMin, z, owned, addr, whole);
  }

  // ----- Operations

  ghost predicate Overlaps(n: Node, lo: int, hi: int) {
    n.start < hi && lo < n.end
  }

  /** Positions before `i` end by `lo`, positions in between overlap, positions from `j` on start at `hi` or later. */
  ghost predicate Cut(s: seq<Node>, i: nat, j: nat, lo: int, hi: int) {
    && i <= j <= |s|
    && (forall k :: 0 <= k < i ==> s[k].end <= lo)
    && (forall k :: i <= k < j ==> Overlaps(s[k], lo, hi))
    && (forall k :: j <= k < |s| ==> hi <= s[k].start)
  }

  lemma OrderedAround(l: seq<Node>, x: Node, r: seq<Node>)
    requires Ordered(l + [x] + r)
    ensures Ordered(l) && Ordered(r) && Ordered(l + [x]) && Ordered([x] + r)
    ensures x.start < x.end && AllEndBy(l, x.start) && AllStartFrom(r, x.end) && x !in l && x !in r
    ensures forall i, j :: 0 <= i < |l| && 0 <= j < |r| ==> l[i].end <= r[j].start
  {
    Pivot(l, x, r);
    Units(l, x, r);
    hide Ordered;
    OrderedParts(l + [x], r);
    OrderedParts(l, [x] + r);
  }

  /** The right subtree splayed below all of its keys: its root is the first interval right of `x`. */
  lemma NextInterval(x: Node, u: Tree, r: seq<Node>)
    requires Ordered([x] + r) && Splayed(u, x.start, r)
    ensures u.Leaf? <==> r == []
    ensures u.Br? ==> u.node == r[0]
  {
    assert [] + [x] + r == [x] + r;
    OrderedAround([], x, r);
    if u.Br? {
      var left := InOrder(u.left);
      assert r[0].end > x.start;
      assert r[0] !in left;
    }
  }

  /** The interval of `node` meets no interval of `s`. */
  ghost predicate Free(s: seq<Node>, node: Node) {
    forall n :: n in s ==> !Overlaps(n, node.start, node.end)
  }

  /** `s'` is `s` with `node` put in at one place. */
  ghost predicate Added(s: seq<Node>, node: Node, s': seq<Node>) {
    exists k :: 0 <= k <= |s| && s' == s[..k] + [node] + s[k..]
  }

  lemma Insertable(a: seq<Node>, node: Node, b: seq<Node>)
    requires Ordered(a + b) && node.start < node.end && AllEndBy(a, node.start) && AllStartFrom(b, node.end)
    ensures Ordered(a + [node] + b)
    ensures node !in a + b
    ensures Added(a + b, node, a + [node] + b) && Free(a + b, node)
  {
    OrderedParts(a, b);
    assert a + [node] + b == (a + b)[..|a|] + [node] + (a + b)[|a|..];
    OrderedGlue(a, [node], node.start);
    assert AllEndBy(a + [node], node.end);
    OrderedGlue(a + [node], b, node.end);
    assert Overlaps(node, node.start, node.end);
    forall n | n in a + b ensures !Overlaps(n, node.start, node.end) {
      assert n in a || n in b;
    }
  }

  lemma OrderedGlue(p: seq<Node>, q: seq<Node>, addr: int)
    requires Ordered(p) && Ordered(q) && AllEndBy(p, addr) && AllStartFrom(q, addr)
    ensures Ordered(p + q)
  {
  }

  lemma AddedAbove(t: Tree, node: Node, whole: seq<Node>)
    requires t.Br? && Splayed(t, node.start, whole) && Ordered(whole)
    requires node.start < node.end <= t.node.start
    ensures var s' := InOrder(Br(t.left, node, Br(Leaf, t.node, t.right)));
            Ordered(s') && Added(whole, node, s') && Free(whole, node) && node !in whole
  {
    var u := Br(Leaf, t.node, t.right);
    var a, b := InOrder(t.left), InOrder(u);
    assert InOrder(Br(t.left, node, u)) == a + [node] + b;
    assert a + b == whole by { RootEitherSide(t); }
    assert AllStartFrom(b, node.end) by { StartsFromRoot(t, node.end); }
    hide InOrder;
    Insertable(a, node, b);
  }

  lemma StartsFromRoot(t: Tree, addr: int)
    requires t.Br? && Ordered(InOrder(t)) && addr <= t.node.start
    ensures AllStartFrom(InOrder(Br(Leaf, t.node, t.right)), addr)
  {
    var x, r := t.node, InOrder(t.right);
    OrderedAround(InOrder(t.left), x, r);
    RootEitherSide(t);
    hide InOrder, Ordered;
    assert AllStartFrom(r, addr);
    BoundsConcat([x], r, addr);
  }

  lemma StartAfterFirst(r: seq<Node>, addr: int)
    requires Ordered(r) && (r != [] ==> addr <= r[0].start)
    ensures AllStartFrom(r, addr)
  {
    assert forall i :: 0 < i < |r| ==> r[0].start < r[0].end <= r[i].start;
  }

  lemma EndByLast(l: seq<Node>, x: Node, addr: int)
    requires AllEndBy(l, addr) && x.end <= addr
    ensures AllEndBy(l + [x], addr)
  {
  }

  lemma AddedBetween(t: Tree, u: Tree, node: Node, whole: seq<Node>)
    requires t.Br? && Splayed(t, node.start, whole) && Ordered(whole)
    requires Splayed(u, t.node.start, InOrder(t.right))
    requires node.start < node.end && t.node.end <= node.start && (u.Br? ==> node.end <= u.node.start)
    ensures var s' := InOrder(Br(Br(t.left, t.node, Leaf), node, u));
            Ordered(s') && Added(whole, node, s') && Free(whole, node) && node !in whole
  {
    var l, r := InOrder(t.left), InOrder(t.right);
    assert whole == l + [t.node] + r && InOrder(u) == r && AllEndBy(l, node.start);
    RootEitherSide(t);
    assert InOrder(Br(Br(t.left, t.node, Leaf), node, u)) == l + [t.node] + [node] + r;
    hide *;
    OrderedAround(l, t.node, r);
    NextInterval(t.node, u, r);
    StartAfterFirst(r, node.end);
    EndByLast(l, t.node, node.start);
    Insertable(l + [t.node], node, r);
  }

  /** When neither gap next to the root takes the interval, it overlaps the root or its successor. */
  lemma NotFree(t: Tree, u: Tree, node: Node, whole: seq<Node>)
    requires t.Br? && Splayed(t, node.start, whole) && Ordered(whole)
    requires Splayed(u, t.node.start, InOrder(t.right))
    requires node.end > t.node.start
    requires !(t.node.end <= node.start && (u.Leaf? || node.end <= u.node.start))
    ensures !Free(whole, node)
  {
    var l, x, r := InOrder(t.left), t.node, InOrder(t.right);
    OrderedAround(l, x, r);
    NextInterval(x, u, r);
    assert x in whole;
    if x.end <= node.start {
      assert r[0] in r && r[0] in whole && Overlaps(r[0], node.start, node.end);
    } else {
      assert Overlaps(x, node.start, node.end);
    }
  }

  /** The parts of an ordered tree share no node. */
  lemma TreeApart(t: Tree)
    requires t.Br? && Ordered(InOrder(t))
    ensures Nodes(t.left) !! Nodes(t.right) && t.node !in Nodes(t.left) && t.node !in Nodes(t.right)
    ensures Ordered(InOrder(t.left)) && Ordered(InOrder(t.right))
  {
    OrderedAround(InOrder(t.left), t.node, InOrder(t.right));
    Member(t.node, t.left);
    Member(t.node, t.right);
    var a := Footprint(t.left);
    forall n | n in a ensures n !in Nodes(t.right) {
      Member(n, t.left);
      Member(n, t.right);
    }
  }

  /** A hit returns the one interval that contains `addr`; the start address is written only then. */
  method Lookup(root0: Node?, addr: int, startAddress0: int, ghost t0: Tree)
    returns (root: Node?, found: Node?, startAddress: int, ghost t: Tree)
    requires Shape(root0, t0) && Ordered(InOrder(t0))
    modifies Nodes(t0)
    ensures Shape(root, t) && InOrder(t) == InOrder(t0)
    ensures found == null <==> forall n :: n in InOrder(t0) ==> !(n.start <= addr < n.end)
    ensures found == null ==> startAddress == startAddress0
    ensures found != null ==> found in InOrder(t0) && found.start <= addr < found.end && startAddress == found.start
  {
    startAddress := startAddress0;
    root, t := Splay(root0, addr, t0);
    if root != null {
      ghost var l, r := InOrder(t.left), InOrder(t.right);
      assert forall n :: n in InOrder(t0) <==> n in l || n == root || n in r;
      if root.start <= addr && addr < root.end {
        return root, root, root.start, t;
      }
    }
    return root, null, startAddress, t;
  }

  /** 0 exactly when the interval is proper and overlaps nothing; then it is added and nothing else changes. */
  method Insert(root0: Node?, node: Node, ghost t0: Tree) returns (code: int, root: Node?, ghost t: Tree)
    requires Shape(root0, t0) && Ordered(InOrder(t0))
    modifies Nodes(t0), node
    ensures Shape(root, t) && Ordered(InOrder(t)) && (code == 0 || code == 1)
    ensures code == 0 <==> node.start < node.end && Free(InOrder(t0), node)
    ensures code == 0 ==> Added(InOrder(t0), node, InOrder(t))
    ensures code == 1 ==> InOrder(t) == InOrder(t0)
  {
    root, t := root0, t0;
    if node.start >= node.end { return 1, root, t; }
    if root == null {
      node.prev, node.next := null, null;
      t := Br(Leaf, node, Leaf);
      assert InOrder(t) == InOrder(t0)[..0] + [node] + InOrder(t0)[0..];
      return 0, node, t;
    }
    ghost var whole := InOrder(t0);
    root, t := Splay(root, node.start, t);
    SameNodes(t, t0);
    hide Ordered, Free, Added;
    if node.end <= root.start {
      AddedAbove(t, node, whole);
      t := PutAbove(root, node, t);
      return 0, node, t;
    }
    TreeApart(t);
    ghost var owned := Footprint(t.left);
    var y: Node?;
    ghost var u;
    y, u := Splay(root.next, root.start, t.right);
    if root.end <= node.start && (y == null || node.end <= y.start) {
      AddedBetween(t, u, node, whole);
      t := PutBetween(root, node, y, t, u);
      return 0, node, t;
    }
    NotFree(t, u, node, whole);
    t := AttachRight(root, y, t, u);
    return 1, root, t;
  }

  /** `node` becomes the root: the old left subtree on its left, the old root on its right. */
  method PutAbove(root: Node, node: Node, ghost t: Tree) returns (ghost t': Tree)
    requires Shape(root, t) && Ordered(InOrder(t)) && node !in InOrder(t)
    modifies root, node
    ensures t.Br? && t' == Br(t.left, node, Br(Leaf, root, t.right)) && Shape(node, t')
  {
    TreeApart(t);
    Member(node, t);
    ghost var l, r := t.left, t.right;
    t' := Br(l, node, Br(Leaf, root, r));
    node.prev := root.prev;
    node.next := root;
    root.prev := null;
    assert Shape(root.next, r) && Shape(node.prev, l);
  }

  /** `node` becomes the root: the old root on its left, the re-splayed right subtree on its right. */
  method PutBetween(root: Node, node: Node, y: Node?, ghost t: Tree, ghost u: Tree) returns (ghost t': Tree)
    requires t.Br? && root == t.node && Shape(root.prev, t.left) && Shape(y, u)
    requires Ordered(InOrder(t)) && InOrder(u) == InOrder(t.right) && node !in InOrder(t)
    modifies root, node
    ensures t' == Br(Br(t.left, root, Leaf), node, u) && Shape(node, t')
  {
    TreeApart(t);
    Member(node, t);
    SameNodes(u, t.right);
    t' := Br(Br(t.left, root, Leaf), node, u);
    node.prev := root;
    node.next := y;
    root.next := null;
    assert Shape(root.prev, t.left) && Shape(node.next, u);
  }

  method AttachRight(root: Node, y: Node?, ghost t: Tree, ghost u: Tree) returns (ghost t': Tree)
    requires t.Br? && root == t.node && Shape(root.prev, t.left) && Shape(y, u)
    requires Ordered(InOrder(t)) && InOrder(u) == InOrder(t.right)
    modifies root
    ensures t' == Br(t.left, root, u) && Shape(root, t')
  {
    TreeApart(t);
    SameNodes(u, t.right);
    t' := Br(t.left, root, u);
    root.next := y;
  }

  // ----- Delete: a three-way split

  ghost predicate AllEndAfter(s: seq<Node>, addr: int) {
    forall i :: 0 <= i < |s| ==> addr < s[i].end
  }

  ghost predicate AllStartBefore(s: seq<Node>, addr: int) {
    forall i :: 0 <= i < |s| ==> s[i].start < addr
  }

  lemma OrderedParts(p: seq<Node>, q: seq<Node>)
    requires Ordered(p + q)
    ensures Ordered(p) && Ordered(q)
    ensures forall i, j :: 0 <= i < |p| && 0 <= j < |q| ==> p[i] != q[j]
  {
    var s := p + q;
    forall i | 0 <= i < |p| ensures p[i] == s[i] {}
    forall i | 0 <= i < |q| ensures q[i] == s[|p| + i] {}
    forall i, j | 0 <= i < |p| && 0 <= j < |q| ensures p[i] != q[j] {
      assert s[i].end <= s[|p| + j].start;
    }
  }

  lemma DisjointTrees(a: Tree, b: Tree, t: Tree)
    requires Ordered(InOrder(t)) && InOrder(a) + InOrder(b) == InOrder(t)
    ensures Nodes(a) !! Nodes(b) && Nodes(a) + Nodes(b) == Nodes(t)
    ensures Ordered(InOrder(a)) && Ordered(InOrder(b))
  {
    OrderedParts(InOrder(a), InOrder(b));
    var aOwned := Footprint(a);
    var bOwned := Footprint(b);
    var tOwned := Footprint(t);
    forall n | n in aOwned + bOwned + tOwned
      ensures !(n in aOwned && n in bOwned) && (n in tOwned <==> n in aOwned || n in bOwned)
    {
      Member(n, a);
      Member(n, b);
      Member(n, t);
    }
  }

  /** Unlink the right subtree. */
  method TakeRight(root: Node, ghost t: Tree) returns (rest: Node?)
    requires Shape(root, t) && Ordered(InOrder(t))
    modifies root
    ensures t.Br? && Shape(root, Br(t.left, root, Leaf)) && Shape(rest, t.right)
  {
    TreeApart(t);
    rest := root.next;
    root.next := null;
  }

  /** Unlink the left subtree. */
  method TakeLeft(root: Node, ghost t: Tree) returns (rest: Node?)
    requires Shape(root, t) && Ordered(InOrder(t))
    modifies root
    ensures t.Br? && Shape(root, Br(Leaf, root, t.right)) && Shape(rest, t.left)
  {
    TreeApart(t);
    rest := root.prev;
    root.prev := null;
  }

  lemma BoundsByOrder(s: seq<Node>, addr: int)
    requires Ordered(s)
    ensures AllStartAfter(s, addr) ==> AllEndAfter(s, addr) && AllStartFrom(s, addr)
    ensures AllEndBy(s, addr) ==> AllStartBefore(s, addr)
  {
  }

  lemma MoreBoundsConcat(a: seq<Node>, b: seq<Node>, addr: int)
    ensures AllEndAfter(a + b, addr) <==> AllEndAfter(a, addr) && AllEndAfter(b, addr)
    ensures AllStartBefore(a + b, addr) <==> AllStartBefore(a, addr) && AllStartBefore(b, addr)
  {
    forall i | 0 <= i < |a| ensures a[i] == (a + b)[i] {}
    forall i | 0 <= i < |b| ensures b[i] == (a + b)[|a| + i] {}
  }

  /** The root may be counted to either part. */
  lemma RootEitherSide(t: Tree)
    requires t.Br?
    ensures InOrder(Br(t.left, t.node, Leaf)) == InOrder(t.left) + [t.node]
    ensures InOrder(Br(Leaf, t.node, t.right)) == [t.node] + InOrder(t.right)
    ensures InOrder(t.left) + [t.node] + InOrder(t.right) == InOrder(t) ==
            InOrder(t.left) + ([t.node] + InOrder(t.right))
  {
    var l, x, r := InOrder(t.left), t.node, InOrder(t.right);
    Units(l, x, r);
  }

  lemma LowParts(t: Tree, lo: int)
    requires t.Br? && Splayed(t, lo, InOrder(t)) && Ordered(InOrder(t))
    ensures t.node.end <= lo ==> AllEndBy(InOrder(t.left) + [t.node], lo)
    ensures AllEndAfter(InOrder(t.right), lo)
    ensures lo < t.node.end ==> AllEndAfter([t.node] + InOrder(t.right), lo)
  {
    var l, x, r := InOrder(t.left), t.node, InOrder(t.right);
    OrderedAround(l, x, r);
    BoundsByOrder(r, lo);
    hide Ordered;
    BoundsConcat(l, [x], lo);
    MoreBoundsConcat([x], r, lo);
  }

  lemma HighParts(t: Tree, hi: int)
    requires t.Br? && Splayed(t, hi, InOrder(t)) && Ordered(InOrder(t))
    ensures AllStartBefore(InOrder(t.left), hi) && AllStartFrom(InOrder(t.right), hi)
    ensures hi <= t.node.start ==> AllStartFrom([t.node] + InOrder(t.right), hi)
    ensures t.node.start < hi ==> AllStartBefore(InOrder(t.left) + [t.node], hi)
  {
    var l, x, r := InOrder(t.left), t.node, InOrder(t.right);
    OrderedAround(l, x, r);
    BoundsByOrder(l, hi);
    BoundsByOrder(r, hi);
    hide Ordered;
    BoundsConcat([x], r, hi);
    MoreBoundsConcat(l, [x], hi);
  }

  /** The left piece of the first split: what the splay leaves left of the root, with the root if it ends by `lo`. */
  ghost function LowPiece(t0: Tree, lo: int): Tree {
    var t := SplayOf(t0, lo);
    if t.Leaf? then Leaf else if t.node.end <= lo then Br(t.left, t.node, Leaf) else t.left
  }

  /** Split off the intervals that end at or before `lo`. */
  method SplitLow(root0: Node, lo: int, ghost t0: Tree)
    returns (ltree: Node?, rest: Node?, ghost a: Tree, ghost b: Tree)
    requires Shape(root0, t0) && Ordered(InOrder(t0))
    modifies Nodes(t0)
    ensures Shape(ltree, a) && Shape(rest, b) && InOrder(a) + InOrder(b) == InOrder(t0)
    ensures AllEndBy(InOrder(a), lo) && AllEndAfter(InOrder(b), lo) && a == LowPiece(t0, lo)
  {
    var root: Node?;
    ghost var t;
    root, t := Splay(root0, lo, t0);
    SameNodes(t, t0);
    hide Ordered, SplayOf;
    LowParts(t, lo);
    RootEitherSide(t);
    if root.end <= lo {
      ltree := root;
      rest := TakeRight(root, t);
      a, b := Br(t.left, root, Leaf), t.right;
    } else {
      rest := root;
      ltree := TakeLeft(root, t);
      a, b := t.left, Br(Leaf, root, t.right);
    }
  }

  /** Split what is left into the intervals starting before `hi` and the others. */
  method SplitHigh(root0: Node?, hi: int, ghost t0: Tree)
    returns (delTree: Node?, rtree: Node?, ghost a: Tree, ghost b: Tree)
    requires Shape(root0, t0) && Ordered(InOrder(t0))
    modifies Nodes(t0)
    ensures Shape(delTree, a) && Shape(rtree, b) && InOrder(a) + InOrder(b) == InOrder(t0)
    ensures AllStartBefore(InOrder(a), hi) && AllStartFrom(InOrder(b), hi)
  {
    var root: Node?;
    ghost var t;
    root, t := Splay(root0, hi, t0);
    SameNodes(t, t0);
    if root == null { return null, null, Leaf, Leaf; }
    hide Ordered;
    HighParts(t, hi);
    RootEitherSide(t);
    if hi <= root.start {
      rtree := root;
      delTree := TakeLeft(root, t);
      a, b := t.left, Br(Leaf, root, t.right);
    } else {
      delTree := root;
      rtree := TakeRight(root, t);
      a, b := Br(t.left, root, Leaf), t.right;
    }
  }

  /** A splay at `hi` leaves position `k - 1` on top: the positions before it end by `hi`, those behind it start after
      `hi`. */
  ghost predicate OnTop(s: seq<Node>, hi: int, k: nat) {
    && k <= |s| && (s == [] <==> k == 0)
    && (forall q :: 0 <= q < k - 1 ==> s[q].end <= hi)
    && (forall q :: k <= q < |s| ==> hi < s[q].start)
  }

  lemma SplayedOnTop(t: Tree, hi: int, whole: seq<Node>)
    requires t.Br? && Splayed(t, hi, whole)
    ensures var k := |InOrder(t.left)| + 1; OnTop(whole, hi, k) && InOrder(t.left) + [t.node] == whole[..k]
  {
    var l, x, r := InOrder(t.left), t.node, InOrder(t.right);
    assert whole == l + [x] + r;
    forall q | |l| + 1 <= q < |whole| ensures hi < whole[q].start { assert whole[q] == r[q - |l| - 1]; }
  }

  /** Nothing is to the right of the top if the last interval starts by `hi`, or is the only one. */
  lemma NothingRight(s: seq<Node>, hi: int, k: nat)
    requires OnTop(s, hi, k) && (|s| <= 1 || s[|s| - 1].start <= hi)
    ensures k == |s|
  {
  }

  /** Something is to the right of the top if the last interval but one does not end by `hi`. */
  lemma SomethingRight(s: seq<Node>, hi: int, k: nat)
    requires OnTop(s, hi, k) && |s| >= 2 && s[|s| - 2].end > hi
    ensures k < |s|
  {
  }

  /** Leaving out a stretch of an ordered sequence. */
  lemma OrderedWithout(p: seq<Node>, q: seq<Node>, r: seq<Node>)
    requires Ordered(p + q + r)
    ensures Ordered(p + r) && Ordered(p + q) && Ordered(q + r)
  {
    var s := p + q + r;
    assert forall i :: 0 <= i < |p + r| ==> (p + r)[i] == s[if i < |p| then i else i + |q|];
    assert forall i :: 0 <= i < |p + q| ==> (p + q)[i] == s[i];
    assert forall i :: 0 <= i < |q + r| ==> (q + r)[i] == s[|p| + i];
  }

  /** Hang the right piece below the left piece splayed at `hi`; what the splay leaves to the right of
      the root, from position `k` on, is dropped. */
  method Combine(ltree: Node?, rtree: Node?, hi: int, ghost a: Tree, ghost b: Tree)
    returns (root: Node?, ghost t: Tree, ghost k: nat)
    requires Shape(ltree, a) && Shape(rtree, b) && Ordered(InOrder(a) + InOrder(b)) && Nodes(a) !! Nodes(b)
    modifies Nodes(a)
    ensures Shape(root, t) && Ordered(InOrder(t)) && Nodes(t) <= Nodes(a) + Nodes(b)
    ensures k <= |InOrder(a)| && InOrder(t) == InOrder(a)[..k] + InOrder(b)
    ensures if b.Leaf? then k == |InOrder(a)| else OnTop(InOrder(a), hi, k)
    ensures a.Br? && b.Br? ==> k > 0 && InOrder(a)[k - 1] == LastOn(a, hi)
  {
    OrderedParts(InOrder(a), InOrder(b));
    k := |InOrder(a)|;
    if ltree == null { return rtree, b, k; }
    if rtree == null { return ltree, a, k; }
    ghost var bOwned := Footprint(b);
    LastOnTop(a, hi);
    root, t := Splay(ltree, hi, a);
    SameNodes(t, a);
    TreeApart(t);
    k := Combined(a, t, hi, b);
    hide *;
    t := HangRight(root, rtree, t, b);
  }

  lemma Combined(a: Tree, t: Tree, hi: int, b: Tree) returns (k: nat)
    requires a.Br? && t.Br? && Splayed(t, hi, InOrder(a)) && t.node == LastOn(a, hi) && Ordered(InOrder(a) + InOrder(b))
    ensures 0 < k <= |InOrder(a)| && OnTop(InOrder(a), hi, k) && InOrder(a)[k - 1] == LastOn(a, hi)
    ensures var t' := Br(t.left, t.node, b); InOrder(t') == InOrder(a)[..k] + InOrder(b) && Ordered(InOrder(t'))
  {
    hide LastOn;
    RootEitherSide(t);
    SplayedOnTop(t, hi, InOrder(a));
    k := |InOrder(t.left)| + 1;
    hide OnTop;
    OrderedWithout(InOrder(t.left) + [t.node], InOrder(t.right), InOrder(b));
    assert InOrder(a) == InOrder(a)[..k] + InOrder(t.right);
  }

  /** One write: `rtree` takes the place of the root's right subtree. */
  method HangRight(root: Node, rtree: Node?, ghost t: Tree, ghost b: Tree) returns (ghost t': Tree)
    requires t.Br? && Shape(root, t) && Shape(rtree, b) && root !in Nodes(t.left) && root !in Nodes(b)
    modifies root
    ensures t' == Br(t.left, root, b) && Shape(root, t')
  {
    root.next := rtree;
    t' := Br(t.left, root, b);
    assert Shape(root.prev, t.left) && Shape(root.next, b);
  }

  /** Of the intervals before the range, those up to position `k` remain when intervals remain on both sides. */
  ghost predicate Remains(s: seq<Node>, i: nat, j: nat, hi: int, k: nat) {
    i <= j <= |s| && k <= i && if j == |s| then k == i else OnTop(s[..i], hi, k)
  }

  /** All of them remain if the range is not reversed, and whenever the last of them starts by the end of the range;
      the last is lost if the last but one does not end by then. */
  lemma RemainsAll(s: seq<Node>, i: nat, j: nat, lo: int, hi: int, k: nat)
    requires Ordered(s) && Cut(s, i, j, lo, hi) && Remains(s, i, j, hi, k)
    ensures lo <= hi || i <= 1 || j == |s| || s[i - 1].start <= hi ==> k == i
    ensures i >= 2 && j < |s| && s[i - 2].end > hi ==> k < i
  {
    if j < |s| && i > 0 {
      assert s[..i][i - 1] == s[i - 1] && s[i - 1].end <= lo && s[i - 1].start < s[i - 1].end;
      if i <= 1 || lo <= hi || s[i - 1].start <= hi { NothingRight(s[..i], hi, k); }
      if i >= 2 && s[i - 2].end > hi { SomethingRight(s[..i], hi, k); }
    }
  }

  /** Exactly how far the intervals before the range remain: up to the one where the search for the end of the
      range stops in the left piece of the first split. */
  ghost predicate Kept(t: Tree, i: nat, j: nat, lo: int, hi: int, k: nat) {
    var s, p := InOrder(t), LowPiece(t, lo);
    && i <= j <= |s| && InOrder(p) == s[..i]
    && if i == 0 || j == |s| then k == i else p.Br? && 0 < k <= i && s[k - 1] == LastOn(p, hi)
  }

  /** None of them is lost exactly if the search stops at the last of them. */
  lemma KeptAllIff(t: Tree, i: nat, j: nat, lo: int, hi: int, k: nat)
    requires Ordered(InOrder(t)) && Kept(t, i, j, lo, hi, k)
    ensures var s, p := InOrder(t), LowPiece(t, lo);
            k == i <==> i == 0 || j == |s| || (p.Br? && LastOn(p, hi) == s[i - 1])
  {
    var s := InOrder(t);
    if k < i { assert s[k - 1].start < s[k - 1].end <= s[i - 1].start; }
  }

  /** A reversed range that loses an interval without handing it out: of [0, 1), [5, 6) and [20, 30) the deletion
      from 10 to 0 leaves the first and the last. */
  lemma ReversedRangeLoses(x: Node, y: Node, z: Node, i: nat, j: nat, k: nat)
    requires ThreeIntervals(x, y, z)
    requires var t := ThreeNodes(x, y, z); Cut(InOrder(t), i, j, 10, 0) && Kept(t, i, j, 10, 0, k)
    ensures var s := InOrder(ThreeNodes(x, y, z));
            s == [x, y, z] && Ordered(s) && s[i..j] == [] && s[..k] + s[j..] == [x, z]
  {
    ThreeSplayed(x, y, z);
    var s := InOrder(ThreeNodes(x, y, z));
    assert |s[..i]| == i;
    hide InOrder, LowPiece, LastOn, ThreeNodes;
    assert i == 2 && !Overlaps(s[2], 10, 0);
    assert j == 2;
    assert k == 1 by { assert s[k - 1] == s[0]; }
  }

  ghost predicate ThreeIntervals(x: Node, y: Node, z: Node) {
    x.start == 0 && x.end == 1 && y.start == 5 && y.end == 6 && z.start == 20 && z.end == 30
  }

  ghost function ThreeNodes(x: Node, y: Node, z: Node): Tree {
    Br(Br(Leaf, x, Leaf), y, Br(Leaf, z, Leaf))
  }

  lemma ThreeSplayed(x: Node, y: Node, z: Node)
    requires ThreeIntervals(x, y, z)
    ensures var t := ThreeNodes(x, y, z);
            && InOrder(t) == [x, y, z] && InOrder(LowPiece(t, 10)) == [x, y]
            && LowPiece(t, 10).Br? && LastOn(LowPiece(t, 10), 0) == x
  {
    var a, c := Br(Leaf, x, Leaf), Br(Leaf, z, Leaf);
    var t := ThreeNodes(x, y, z);
    assert InOrder(a) == [x] && InOrder(c) == [z];
    assert InOrder(t) == [x] + [y] + [z] == [x, y, z];
    SplayStep(Top, t, Top, 10);
    SplayStep(Link(Top, y, a), c, Top, 10);
    assert CloseLeft(Link(Top, y, a), Leaf) == CloseLeft(Top, Br(a, y, Leaf)) == Br(a, y, Leaf);
    assert SplayOf(t, 10) == Close(Link(Top, y, a), c, Top) == Br(Br(a, y, Leaf), z, Leaf);
    assert LowPiece(t, 10) == Br(a, y, Leaf);
    assert InOrder(Br(a, y, Leaf)) == [x] + [y] + InOrder(Tree.Leaf) == [x, y];
    assert LastOn(Br(a, y, Leaf), 0) == LastOn(a, 0) == x;
  }

  /** The intervals overlapping [start, end) leave as one ordered tree; the rest stays as one ordered tree. */
  method Delete(root0: Node?, node: Node, ghost t0: Tree)
    returns (root: Node?, delTree: Node?, ghost t: Tree, ghost d: Tree, ghost i: nat, ghost j: nat, ghost k: nat)
    requires Shape(root0, t0) && Ordered(InOrder(t0))
    modifies Nodes(t0)
    ensures Shape(root, t) && Shape(delTree, d) && Ordered(InOrder(t)) && Ordered(InOrder(d)) && Nodes(t) !! Nodes(d)
    ensures Cut(InOrder(t0), i, j, node.start, node.end) && InOrder(d) == InOrder(t0)[i..j]
    ensures Remains(InOrder(t0), i, j, node.end, k) && InOrder(t) == InOrder(t0)[..k] + InOrder(t0)[j..]
    ensures Kept(t0, i, j, node.start, node.end, k)
    ensures node.start <= node.end ==> k == i
  {
    hide *;
    if root0 == null {
      NothingThere(t0, node.start, node.end);
      return null, null, Leaf, Leaf, 0, 0, 0;
    }
    var ltree: Node?, rtree: Node?;
    ghost var a, c;
    ltree, delTree, rtree, a, d, c := SplitAround(root0, node.start, node.end, t0);
    ghost var owned := Footprint(c);
    owned := Footprint(d);
    root, t, k := Combine(ltree, rtree, node.end, a, c);
    i, j := Deleted(t0, a, d, c, InOrder(t), node.start, node.end, k);
  }

  /** The three stretches of a sequence before, inside and behind a range. */
  ghost predicate ThreeWay(s: seq<Node>, a: seq<Node>, d: seq<Node>, c: seq<Node>, lo: int, hi: int) {
    && s == a + (d + c) && Ordered(s) && Ordered(d) && Ordered(a + c)
    && AllEndBy(a, lo) && AllEndAfter(d + c, lo) && AllStartBefore(d, hi) && AllStartFrom(c, hi)
  }

  lemma IsThreeWay(s: seq<Node>, a: seq<Node>, d: seq<Node>, c: seq<Node>, lo: int, hi: int)
    requires s == a + (d + c) && Ordered(s) && Ordered(d)
    requires AllEndBy(a, lo) && AllEndAfter(d + c, lo) && AllStartBefore(d, hi) && AllStartFrom(c, hi)
    ensures ThreeWay(s, a, d, c, lo, hi)
  {
    hide Ordered;
    assert a + d + c == a + (d + c);
    OrderedWithout(a, d, c);
  }

  /** The two splits, one after the other. */
  method SplitAround(root0: Node, lo: int, hi: int, ghost t0: Tree)
    returns (ltree: Node?, delTree: Node?, rtree: Node?, ghost a: Tree, ghost d: Tree, ghost c: Tree)
    requires Shape(root0, t0) && Ordered(InOrder(t0))
    modifies Nodes(t0)
    ensures Shape(ltree, a) && Shape(delTree, d) && Shape(rtree, c) && a == LowPiece(t0, lo)
    ensures ThreeWay(InOrder(t0), InOrder(a), InOrder(d), InOrder(c), lo, hi) && Ordered(InOrder(d)) &&
            Ordered(InOrder(a) + InOrder(c))
    ensures Nodes(a) !! Nodes(d) && Nodes(a) !! Nodes(c) && Nodes(d) !! Nodes(c)
    ensures Nodes(a) + Nodes(d) + Nodes(c) == Nodes(t0)
  {
    var rest: Node?;
    ghost var b;
    hide *;
    ltree, rest, a, b := SplitLow(root0, lo, t0);
    DisjointTrees(a, b, t0);
    ghost var owned := Footprint(a);
    delTree, rtree, d, c := SplitHigh(rest, hi, b);
    DisjointTrees(d, c, b);
    owned := Footprint(c);
    owned := Footprint(d);
    IsThreeWay(InOrder(t0), InOrder(a), InOrder(d), InOrder(c), lo, hi);
    StretchesOrdered(InOrder(t0), InOrder(a), InOrder(d), InOrder(c), lo, hi);
  }

  lemma StretchesOrdered(s: seq<Node>, a: seq<Node>, d: seq<Node>, c: seq<Node>, lo: int, hi: int)
    requires ThreeWay(s, a, d, c, lo, hi)
    ensures Ordered(d) && Ordered(a + c)
  {
  }

  lemma Deleted(t0: Tree, a: Tree, d: Tree, c: Tree, kept: seq<Node>, lo: int, hi: int, k: nat) returns (i: nat, j: nat)
    requires ThreeWay(InOrder(t0), InOrder(a), InOrder(d), InOrder(c), lo, hi) && a == LowPiece(t0, lo)
    requires k <= |InOrder(a)| && (a.Br? && c.Br? ==> k > 0 && InOrder(a)[k - 1] == LastOn(a, hi))
    requires if c.Leaf? then k == |InOrder(a)| else OnTop(InOrder(a), hi, k)
    requires kept == InOrder(a)[..k] + InOrder(c)
    ensures Cut(InOrder(t0), i, j, lo, hi) && InOrder(d) == InOrder(t0)[i..j]
    ensures Remains(InOrder(t0), i, j, hi, k) && kept == InOrder(t0)[..k] + InOrder(t0)[j..]
    ensures Kept(t0, i, j, lo, hi, k) && (lo <= hi ==> k == i)
  {
    i, j := |InOrder(a)|, |InOrder(a)| + |InOrder(d)|;
    assert ThreeWay(InOrder(t0), InOrder(a), InOrder(d), InOrder(c), lo, hi);
    hide InOrder, LowPiece, LastOn, OnTop, Ordered, Kept, Remains;
    CutParts(InOrder(a), InOrder(d), InOrder(c), lo, hi, InOrder(t0));
    hide ThreeWay, Cut;
    StillThere(t0, a, c, i, j, lo, hi, k);
  }

  lemma StillThere(t: Tree, a: Tree, c: Tree, i: nat, j: nat, lo: int, hi: int, k: nat)
    requires k <= |InOrder(a)| && (a.Br? && c.Br? ==> k > 0 && InOrder(a)[k - 1] == LastOn(a, hi))
    requires i <= j <= |InOrder(t)| && InOrder(a) == InOrder(t)[..i] && InOrder(c) == InOrder(t)[j..]
    requires if c.Leaf? then k == |InOrder(a)| else OnTop(InOrder(a), hi, k)
    requires Ordered(InOrder(t)) && Cut(InOrder(t), i, j, lo, hi) && a == LowPiece(t, lo)
    ensures k <= i && InOrder(a)[..k] == InOrder(t)[..k] && (lo <= hi ==> k == i)
    ensures Remains(InOrder(t), i, j, hi, k) && Kept(t, i, j, lo, hi, k)
  {
    LeafIffEmpty(a);
    LeafIffEmpty(c);
    RemainsAll(InOrder(t), i, j, lo, hi, k);
  }

  lemma CutParts(p: seq<Node>, q: seq<Node>, r: seq<Node>, lo: int, hi: int, whole: seq<Node>)
    requires ThreeWay(whole, p, q, r, lo, hi)
    ensures Cut(whole, |p|, |p| + |q|, lo, hi) && Ordered(whole)
    ensures q == whole[|p|..|p| + |q|] && p == whole[..|p|] && r == whole[|p| + |q|..]
  {
    hide Ordered;
    forall k | |p| <= k < |p| + |q| ensures Overlaps(whole[k], lo, hi) {
      assert whole[k] == q[k - |p|] == (q + r)[k - |p|];
    }
  }

  lemma NothingThere(t: Tree, lo: int, hi: int)
    requires Shape(null, t)
    ensures t == Leaf && Nodes(t) == {} && InOrder(t) == [] && Ordered(InOrder(t)) && Cut(InOrder(t), 0, 0, lo, hi)
    ensures Remains(InOrder(t), 0, 0, hi, 0) && Kept(t, 0, 0, lo, hi, 0)
  {
  }

  lemma LeafIffEmpty(t: Tree)
    ensures t.Leaf? <==> InOrder(t) == []
  {
  }
}
