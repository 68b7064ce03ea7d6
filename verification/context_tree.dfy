/** The calling-context trie of the profiler and its dump at thread end (src/profiler/context.cpp,
    src/profiler/profiler.cpp). */
module ContextTrees {

  /** `name` stands for the fields of a frame that the comparison of contexts ignores. */
  datatype Frame = Frame(binaryAddr: nat, methodId: nat, methodVersion: nat, bci: int, name: string)

  /** What distinguishes siblings. */
  datatype Key = Key(bci: int, methodId: nat, binaryAddr: nat, methodVersion: nat)

  function KeyOf(f: Frame): Key {
    Key(f.bci, f.methodId, f.binaryAddr, f.methodVersion)
  }

  /** Frames that the comparison of contexts does not tell apart. */
  predicate SameSite(f: Frame, g: Frame) {
    f.bci == g.bci && f.methodId == g.methodId && f.binaryAddr == g.binaryAddr && f.methodVersion == g.methodVersion
  }

  /** Siblings are told apart by these four fields and nothing else. */
  lemma KeyIff(f: Frame, g: Frame)
    ensures KeyOf(f) == KeyOf(g) <==> SameSite(f, g)
    ensures SameSite(f, g) <==>
              && f.bci == g.bci && f.methodId == g.methodId && f.binaryAddr == g.binaryAddr
              && f.methodVersion == g.methodVersion
    ensures var k := KeyOf(f);
            && k.bci == f.bci && k.methodId == f.methodId && k.binaryAddr == f.binaryAddr
            && k.methodVersion == f.methodVersion
  {
  }

  const ID_LIMIT := 0x1_0000_0000

  // ----- The trie as a value

  /** `parent` is -1 for the root. */
  datatype Info = Info(parent: int, key: Key, metrics: bool)

  type View = map<nat, Info>

  /** Ids are dense, every parent id lies below its children's ids, and siblings differ in their keys. */
  ghost predicate TreeOk(v: View) {
    && 0 < |v|
    && (forall i :: i in v <==> 0 <= i < |v|)
    && (forall i :: i in v ==> if i == 0 then v[i].parent == -1 else 0 <= v[i].parent < i)
    && (forall i, j ::
          i in v && j in v && i > 0 && j > 0 && v[i].parent == v[j].parent && v[i].key == v[j].key ==> i == j)
  }

  /** The frames from the root down to node `i`. */
  ghost function Path(v: View, i: nat): seq<Key>
    requires TreeOk(v) && i in v
  {
    if i == 0 then [] else Path(v, v[i].parent) + [v[i].key]
  }

  lemma {:induction false} PathsDistinct(v: View, i: nat, j: nat)
    requires TreeOk(v) && i in v && j in v && Path(v, i) == Path(v, j)
    ensures i == j
  {
    if i > 0 && j > 0 {
      var p, q := Path(v, v[i].parent), Path(v, v[j].parent);
      assert v[i].key == (p + [v[i].key])[|p|] && v[j].key == (q + [v[j].key])[|q|];
      assert |p| == |q|;
      assert p == (p + [v[i].key])[..|p|] == (q + [v[j].key])[..|q|] == q;
      PathsDistinct(v, v[i].parent, v[j].parent);
    }
  }

  ghost predicate HasChild(v: View, p: nat, k: Key) {
    exists i :: i in v && i > 0 && v[i].parent == p && v[i].key == k
  }

  ghost predicate HasPath(v: View, s: seq<Key>)
    requires TreeOk(v)
  {
    exists i :: i in v && Path(v, i) == s
  }

  lemma ChildIsPath(v: View, p: nat, k: Key)
    requires TreeOk(v) && p in v
    ensures HasChild(v, p, k) <==> HasPath(v, Path(v, p) + [k])
  {
    if HasChild(v, p, k) {
      var i :| i in v && i > 0 && v[i].parent == p && v[i].key == k;
      assert Path(v, i) == Path(v, p) + [k];
    }
    if HasPath(v, Path(v, p) + [k]) {
      var i :| i in v && Path(v, i) == Path(v, p) + [k];
      assert i > 0;
      var q := Path(v, v[i].parent);
      assert |q| == |Path(v, p)|;
      assert q == (q + [v[i].key])[..|q|] == Path(v, p);
      assert k == (q + [v[i].key])[|q|];
      PathsDistinct(v, p, v[i].parent);
    }
  }

  /** A new node below `p`. */
  function WithChild(v: View, p: nat, k: Key): View {
    v[|v| := Info(p, k, false)]
  }

  /** The effect of adding a frame below `p`: the node whose path is that of `p` extended by the frame
      is `r`, which is made if and only if no such node existed. */
  ghost predicate Extended(v: View, w: View, p: nat, k: Key, r: nat) {
    && TreeOk(v) && p in v
    && if HasPath(v, Path(v, p) + [k]) then w == v && r in v && Path(v, r) == Path(v, p) + [k]
       else w == WithChild(v, p, k) && r == |v|
  }

  lemma {:induction false} PathKept(v: View, p: nat, k: Key, i: nat)
    requires TreeOk(v) && p in v && i in v && TreeOk(WithChild(v, p, k))
    ensures Path(WithChild(v, p, k), i) == Path(v, i)
  {
    if i > 0 { PathKept(v, p, k, v[i].parent); }
  }

  lemma StillTree(v: View, p: nat, k: Key)
    requires TreeOk(v) && p in v && !HasChild(v, p, k)
    ensures TreeOk(WithChild(v, p, k))
  {
    var w := WithChild(v, p, k);
    assert w.Keys == v.Keys + {|v|} && |w| == |w.Keys| == |v| + 1;
    forall i | i in w ensures 0 <= i < |w| && if i == 0 then w[i].parent == -1 else 0 <= w[i].parent < i {
      if i != |v| { assert i in v && w[i] == v[i]; }
    }
    forall i, j | i in w && j in w && i > 0 && j > 0 && w[i].parent == w[j].parent && w[i].key == w[j].key
      ensures i == j
    {
      if i != |v| { assert i in v && w[i] == v[i]; }
      if j != |v| { assert j in v && w[j] == v[j]; }
    }
  }

  /** Adding below `p` keeps all old paths and makes exactly one new one. */
  lemma AddedPath(v: View, p: nat, k: Key, s: seq<Key>)
    requires TreeOk(v) && p in v && !HasChild(v, p, k)
    ensures TreeOk(WithChild(v, p, k)) && |v| in WithChild(v, p, k)
    ensures Path(WithChild(v, p, k), |v|) == Path(v, p) + [k]
    ensures HasPath(WithChild(v, p, k), s) <==> HasPath(v, s) || s == Path(v, p) + [k]
  {
    var w := WithChild(v, p, k);
    StillTree(v, p, k);
    PathKept(v, p, k, p);
    assert w[|v|] == Info(p, k, false);
    assert Path(w, |v|) == Path(v, p) + [k];
    hide TreeOk, Path, HasChild;
    forall i | i in v ensures Path(w, i) == Path(v, i) { PathKept(v, p, k, i); }
    if HasPath(v, s) {
      var i :| i in v && Path(v, i) == s;
      assert i in w && Path(w, i) == s;
    }
    if HasPath(w, s) {
      var i :| i in w && Path(w, i) == s;
      assert i != |v| ==> i in v;
    }
  }

  // ----- What a dump contains

  /** One printed context; the parent id of the root is printed as -1. */
  datatype Record = Record(id: nat, parentId: int)

  ghost predicate AncestorOrSelf(v: View, i: nat, j: nat)
    requires TreeOk(v) && j in v
  {
    i == j || (j > 0 && AncestorOrSelf(v, i, v[j].parent))
  }

  /** Node `i` has metrics or lies above a node that has. */
  ghost predicate Needed(v: View, i: nat)
    requires TreeOk(v)
  {
    exists j :: j in v && v[j].metrics && AncestorOrSelf(v, i, j)
  }

  ghost function Ids(out: seq<Record>): set<nat> {
    set k | 0 <= k < |out| :: out[k].id
  }

  ghost predicate Distinct(out: seq<Record>) {
    forall k, l :: 0 <= k < l < |out| ==> out[k].id != out[l].id
  }

  /** Exactly the needed nodes, each once and with its parent. */
  ghost predicate Dumped(v: View, out: seq<Record>)
    requires TreeOk(v)
  {
    && Distinct(out)
    && (forall i: nat :: i in Ids(out) <==> i in v && Needed(v, i))
    && (forall k :: 0 <= k < |out| ==> out[k].id in v && out[k].parentId == v[out[k].id].parent)
  }

  ghost predicate RecordOk(v: View, ids: set<nat>, rest: int, r: Record)
    requires TreeOk(v)
  {
    && r.id in v && r.parentId == v[r.id].parent && Needed(v, r.id)
    && (r.parentId == -1 || r.parentId == rest || r.parentId in ids)
  }

  /** All printed nodes are needed, and their parents are printed too, except for `rest` which is next. */
  ghost predicate Partial(v: View, out: seq<Record>, rest: int)
    requires TreeOk(v)
  {
    Distinct(out) && forall k :: 0 <= k < |out| ==> RecordOk(v, Ids(out), rest, out[k])
  }

  lemma IdsSnoc(out: seq<Record>, r: Record)
    ensures Ids(out + [r]) == Ids(out) + {r.id}
    ensures Distinct(out) && r.id !in Ids(out) ==> Distinct(out + [r])
  {
    var out' := out + [r];
    assert out'[|out|] == r;
    assert forall k :: 0 <= k < |out| ==> out'[k] == out[k] && out[k].id in Ids(out);
  }

  lemma PartialStep(v: View, out: seq<Record>, i: nat)
    requires TreeOk(v) && Partial(v, out, i) && i in v && Needed(v, i) && i !in Ids(out)
    ensures Partial(v, out + [Record(i, v[i].parent)], v[i].parent)
    ensures Ids(out + [Record(i, v[i].parent)]) == Ids(out) + {i}
  {
    var r := Record(i, v[i].parent);
    IdsSnoc(out, r);
    hide TreeOk, Needed, Ids, Distinct;
    forall k | 0 <= k < |out + [r]| ensures RecordOk(v, Ids(out) + {i}, r.parentId, (out + [r])[k]) {
      if k < |out| { assert RecordOk(v, Ids(out), i, out[k]); }
    }
  }

  lemma PartialStart(v: View, out: seq<Record>, i: int)
    requires TreeOk(v) && Partial(v, out, -1)
    ensures Partial(v, out, i)
  {
  }

  lemma PartialEnd(v: View, out: seq<Record>, i: int)
    requires TreeOk(v) && Partial(v, out, i) && (i == -1 || i in Ids(out))
    ensures Partial(v, out, -1)
  {
  }

  lemma ParentNeeded(v: View, i: nat)
    requires TreeOk(v) && i in v && i > 0 && Needed(v, i)
    ensures v[i].parent in v && Needed(v, v[i].parent)
  {
    var j :| j in v && v[j].metrics && AncestorOrSelf(v, i, j);
    Above(v, i, j);
  }

  lemma {:induction false} Above(v: View, i: nat, j: nat)
    requires TreeOk(v) && i in v && i > 0 && j in v && AncestorOrSelf(v, i, j)
    ensures v[i].parent in v && AncestorOrSelf(v, v[i].parent, j)
  {
    if i != j {
      Above(v, i, v[j].parent);
    } else {
      assert AncestorOrSelf(v, v[i].parent, v[i].parent);
    }
  }

  lemma {:induction false} AncestorsPrinted(v: View, out: seq<Record>, i: nat, j: nat)
    requires TreeOk(v) && Partial(v, out, -1) && j in Ids(out) && j in v && AncestorOrSelf(v, i, j)
    ensures i in Ids(out) && i in v
  {
    if i != j {
      var k :| 0 <= k < |out| && out[k].id == j;
      AncestorsPrinted(v, out, i, v[j].parent);
    }
  }

  lemma DumpComplete(v: View, out: seq<Record>)
    requires TreeOk(v) && Partial(v, out, -1) && forall j :: j in v && v[j].metrics ==> j in Ids(out)
    ensures Dumped(v, out)
  {
    forall i: nat | i in v && Needed(v, i) ensures i in Ids(out) {
      var j :| j in v && v[j].metrics && AncestorOrSelf(v, i, j);
      AncestorsPrinted(v, out, i, j);
    }
  }

  lemma {:induction false} RootAbove(v: View, j: nat)
    requires TreeOk(v) && j in v
    ensures AncestorOrSelf(v, 0, j)
  {
    if j > 0 { RootAbove(v, v[j].parent); }
  }

  /** In a non-empty dump the root is the one node whose parent is not printed. */
  lemma OneRoot(v: View, out: seq<Record>, k: nat)
    requires TreeOk(v) && Dumped(v, out) && k < |out|
    ensures 0 in Ids(out)
    ensures out[k].parentId !in Ids(out) <==> out[k].id == 0
    ensures out[k].id == 0 <==> out[k].parentId == -1
  {
    assert out[k].id in Ids(out);
    var j :| j in v && v[j].metrics && AncestorOrSelf(v, out[k].id, j);
    RootAbove(v, j);
    assert 0 in v && Needed(v, 0);
    if out[k].id > 0 { ParentNeeded(v, out[k].id); }
  }

  // ----- The heap structure

  class Context {
    const id: nat
    var frame: Frame
    var hasMetrics: bool
    var children: set<Context>
    var parent: Context?

    constructor (id: nat, frame: Frame)
      ensures this.id == id && this.frame == frame && !hasMetrics && children == {} && parent == null
    {
      this.id := id;
      this.frame := frame;
      hasMetrics := false;
      children := {};
      parent := null;
    }

    method FindChild(c: Context) returns (r: Context?)
      ensures r != null ==> r in children && SameSite(r.frame, c.frame)
      ensures r == null ==> forall d :: d in children ==> !SameSite(d.frame, c.frame)
    {
      r := null;
      if d :| d in children && SameSite(d.frame, c.frame) { r := d; }
    }

    /** The same in terms of keys. */
    lemma ChildByKey(c: Context, r: Context?)
      requires r != null ==> r in children && SameSite(r.frame, c.frame)
      requires r == null ==> forall d :: d in children ==> !SameSite(d.frame, c.frame)
      ensures r != null ==> r in children && KeyOf(r.frame) == KeyOf(c.frame)
      ensures r == null ==> forall d :: d in children ==> KeyOf(d.frame) != KeyOf(c.frame)
    {
    }

    /** Every trigger in the context finds the metrics that the first one made. */
    method SetMetrics()
      modifies this`hasMetrics
      ensures hasMetrics
    {
      hasMetrics := true;
    }

    /** The set refuses a child whose key it already holds; the parent link is set anyway. */
    method AddChild(c: Context)
      modifies this`children, c`parent
      ensures c.parent == this
      ensures children ==
                if exists d :: d in old(children) && SameSite(d.frame, c.frame) then old(children)
                else old(children) + {c}
    {
      var d := FindChild(c);
      if d == null { children := children + {c}; }
      c.parent := this;
    }
  }

  /** The fields of one node. */
  datatype Fields = Fields(parent: Context?, children: set<Context>, key: Key, metrics: bool)

  ghost function FieldsOf(c: Context): Fields
    reads c
  {
    Fields(c.parent, c.children, KeyOf(c.frame), c.hasMetrics)
  }

  ghost predicate ParentOk(m: map<nat, Context>, s: map<nat, Fields>, i: nat)
    requires i in s
  {
    var p := s[i].parent;
    if i == 0 then p == null
    else p != null && p.id < i && p.id in s && p.id in m && m[p.id] == p && i in m && m[i] in s[p.id].children
  }

  ghost predicate ChildrenOk(m: map<nat, Context>, s: map<nat, Fields>, i: nat)
    requires i in s
  {
    && (forall c {:trigger c in s[i].children} :: c in s[i].children ==>
          c.id in m && m[c.id] == c && c.id in s && c.id > 0 && s[c.id].parent != null && s[c.id].parent.id == i)
    && (forall c, d {:trigger c in s[i].children, d in s[i].children} ::
          c in s[i].children && d in s[i].children && c.id in s && d.id in s && s[c.id].key == s[d.id].key ==> c == d)
  }

  /** The parent links and the children sets of the registered nodes are inverse to each other. */
  ghost predicate Linked(m: map<nat, Context>, s: map<nat, Fields>) {
    && (forall i {:trigger m[i]} :: i in m ==> m[i].id == i)
    && (forall i {:trigger ParentOk(m, s, i)} :: i in s ==> ParentOk(m, s, i))
    && (forall i {:trigger ChildrenOk(m, s, i)} :: i in s ==> ChildrenOk(m, s, i))
  }

  /** The fields after `c` became a child of `parent`. */
  ghost function Below(s: map<nat, Fields>, parent: Context, c: Context, k: Key): map<nat, Fields>
    requires parent.id in s
  {
    s[c.id := Fields(parent, {}, k, false)][parent.id := s[parent.id].(children := s[parent.id].children + {c})]
  }

  ghost predicate NewKey(s: map<nat, Fields>, p: nat, k: Key) {
    p in s && forall d {:trigger d in s[p].children} :: d in s[p].children ==> d.id in s && s[d.id].key != k
  }

  ghost predicate CanAdd(m: map<nat, Context>, s: map<nat, Fields>, parent: Context, c: Context, k: Key) {
    m.Keys == s.Keys && parent.id in m && m[parent.id] == parent && parent.id < c.id && c.id !in m &&
      NewKey(s, parent.id, k)
  }

  lemma ParentStaysOk(m: map<nat, Context>, s: map<nat, Fields>, parent: Context, c: Context, k: Key, i: nat)
    requires CanAdd(m, s, parent, c, k) && i in s && ParentOk(m, s, i)
    ensures ParentOk(m[c.id := c], Below(s, parent, c, k), i)
  {
  }

  lemma ChildrenStayOk(m: map<nat, Context>, s: map<nat, Fields>, parent: Context, c: Context, k: Key, i: nat)
    requires CanAdd(m, s, parent, c, k) && i in s && ChildrenOk(m, s, i)
    ensures ChildrenOk(m[c.id := c], Below(s, parent, c, k), i)
  {
    var s' := Below(s, parent, c, k);
    if i != parent.id { assert s'[i] == s[i]; }
  }

  lemma LinkedGrows(m: map<nat, Context>, s: map<nat, Fields>, parent: Context, c: Context, k: Key)
    requires Linked(m, s) && CanAdd(m, s, parent, c, k)
    ensures Linked(m[c.id := c], Below(s, parent, c, k))
  {
    var m', s' := m[c.id := c], Below(s, parent, c, k);
    assert ParentOk(m', s', c.id) && ChildrenOk(m', s', c.id);
    hide ParentOk, ChildrenOk;
    forall i | i in s ensures ParentOk(m', s', i) && ChildrenOk(m', s', i) {
      ParentStaysOk(m, s, parent, c, k, i);
      ChildrenStayOk(m, s, parent, c, k, i);
    }
  }

  ghost function ToView(s: map<nat, Fields>): View {
    map i | i in s :: Info(if s[i].parent == null then -1 else s[i].parent.id, s[i].key, s[i].metrics)
  }

  lemma ViewIsTree(m: map<nat, Context>, s: map<nat, Fields>)
    requires Linked(m, s) && m.Keys == s.Keys && |m| > 0 && (forall i :: i in m <==> 0 <= i < |m|)
    ensures TreeOk(ToView(s)) && |ToView(s)| == |m|
  {
    var v := ToView(s);
    assert v.Keys == s.Keys;
    assert |v| == |v.Keys| == |m|;
    forall i | i in v ensures if i == 0 then v[i].parent == -1 else 0 <= v[i].parent < i {
      assert ParentOk(m, s, i);
    }
    forall i, j | i in v && j in v && i > 0 && j > 0 && v[i].parent == v[j].parent && v[i].key == v[j].key
      ensures i == j
    {
      assert ParentOk(m, s, i) && ParentOk(m, s, j);
      assert ChildrenOk(m, s, v[i].parent);
      assert m[i] == m[j];
    }
  }

  /** Metrics do not touch the links. */
  lemma MetricsApart(m: map<nat, Context>, s: map<nat, Fields>, root: Context, i: nat)
    requires Registered(m, s, root) && i in s
    ensures var s' := s[i := s[i].(metrics := true)];
            Registered(m, s', root)
  {
    var s' := s[i := s[i].(metrics := true)];
    assert Linked(m, s);
    hide ParentOk, ChildrenOk;
    forall j | j in s' ensures ParentOk(m, s', j) && ChildrenOk(m, s', j) {
      assert ParentOk(m, s, j) && ChildrenOk(m, s, j);
      MetricsApartAt(m, s, i, j);
    }
    assert s'.Keys == s.Keys;
  }

  lemma MetricsSeen(s: map<nat, Fields>, i: nat)
    requires i in s
    ensures i in ToView(s) && ToView(s[i := s[i].(metrics := true)]) == ToView(s)[i := ToView(s)[i].(metrics := true)]
  {
  }

  lemma MetricsApartAt(m: map<nat, Context>, s: map<nat, Fields>, i: nat, j: nat)
    requires i in s && j in s && ParentOk(m, s, j) && ChildrenOk(m, s, j)
    ensures var s' := s[i := s[i].(metrics := true)]; ParentOk(m, s', j) && ChildrenOk(m, s', j)
  {
  }

  lemma KnownChild(m: map<nat, Context>, s: map<nat, Fields>, p: nat, k: Key)
    requires Linked(m, s) && m.Keys == s.Keys && p in s
    ensures HasChild(ToView(s), p, k) <==> exists c :: c in s[p].children && c.id in s && s[c.id].key == k
  {
    if HasChild(ToView(s), p, k) {
      var i :| i in ToView(s) && i > 0 && ToView(s)[i].parent == p && ToView(s)[i].key == k;
      assert ParentOk(m, s, i);
      assert m[i] in s[p].children;
    }
    if c :| c in s[p].children && c.id in s && s[c.id].key == k {
      assert ChildrenOk(m, s, p);
      assert ToView(s)[c.id].parent == p;
    }
  }

  ghost predicate Registered(m: map<nat, Context>, s: map<nat, Fields>, root: Context) {
    && m.Keys == s.Keys && Linked(m, s)
    && 0 < |m| && (forall i :: i in m <==> 0 <= i < |m|) && m[0] == root
  }

  lemma OnlyRoot(m: map<nat, Context>, s: map<nat, Fields>, r: Context)
    requires m == map[0 := r] && r.id == 0 && s.Keys == {0} && s[0].parent == null && s[0].children == {}
    ensures Registered(m, s, r)
  {
  }

  ghost predicate Describes(s: map<nat, Fields>, m: map<nat, Context>, repr: set<Context>)
    reads repr
  {
    s.Keys == m.Keys && forall i {:trigger m[i]} :: i in m ==> m[i] in repr && m[i].id == i && FieldsOf(m[i]) == s[i]
  }

  method LinkBelow(parent: Context, c: Context, ghost m: map<nat, Context>, ghost s: map<nat, Fields>,
                   ghost repr: set<Context>)
    requires Describes(s, m, repr) && parent.id in m && m[parent.id] == parent && c.id !in m && c !in repr
    requires c.children == {} && !c.hasMetrics
    requires forall d :: d in parent.children ==> KeyOf(d.frame) != KeyOf(c.frame)
    modifies c`parent, parent`children
    ensures Describes(Below(s, parent, c, KeyOf(c.frame)), m[c.id := c], repr + {c})
    ensures c.parent == parent && parent.children == old(parent.children) + {c}
  {
    ghost var f := FieldsOf(parent);
    forall d | d in parent.children { KeyIff(d.frame, c.frame); }
    parent.AddChild(c);
    assert FieldsOf(parent) == f.(children := f.children + {c});
    assert FieldsOf(c) == Fields(parent, {}, KeyOf(c.frame), false);
    hide FieldsOf, KeyOf;
    forall i | i in m && i != parent.id ensures FieldsOf(m[i]) == s[i] {
      assert m[i] != parent && m[i] != c;
    }
  }

  class ContextTree {
    var contextMap: map<nat, Context>
    var root: Context
    var idCounter: nat
    ghost var repr: set<Context>

    ghost predicate InRepr()
      reads this
    {
      forall i {:trigger contextMap[i]} :: i in contextMap ==> contextMap[i] in repr && contextMap[i].id == i
    }

    ghost function Snapshot(): (s: map<nat, Fields>)
      requires InRepr()
      reads this, repr
      ensures s.Keys == contextMap.Keys
    {
      map i | i in contextMap :: FieldsOf(contextMap[i])
    }

    ghost predicate Valid()
      reads this, repr
    {
      InRepr() && Registered(contextMap, Snapshot(), root) && |contextMap| == idCounter < ID_LIMIT
    }

    ghost function Tree(): (v: View)
      requires InRepr()
      reads this, repr
    {
      ToView(Snapshot())
    }

    constructor ()
      ensures Valid() && fresh(repr) && Tree().Keys == {0}
    {
      var r := new Context(0, Frame(0, 0, 0, -1, ""));
      root := r;
      contextMap := map[0 := r];
      idCounter := 1;
      repr := {r};
      new;
      assert Snapshot() == map[0 := Fields(null, {}, KeyOf(r.frame), false)];
      OnlyRoot(contextMap, Snapshot(), r);
      hide Registered, Snapshot;
    }

    /** Links a new node below `parent` and registers it. */
    method Register(parent: Context, c: Context)
      requires parent.id in contextMap && contextMap[parent.id] == parent && c.id !in contextMap && c !in repr
      requires InRepr()
      requires c.children == {} && !c.hasMetrics
      requires forall d :: d in parent.children ==> KeyOf(d.frame) != KeyOf(c.frame)
      modifies this`contextMap, this`idCounter, this`repr, c`parent, parent`children
      ensures InRepr() && repr == old(repr) + {c}
      ensures contextMap == old(contextMap)[c.id := c] && idCounter == (old(idCounter) + 1) % ID_LIMIT
      ensures Snapshot() == Below(old(Snapshot()), parent, c, KeyOf(c.frame))
      ensures c.parent == parent && parent.children == old(parent.children) + {c}
    {
      ghost var m, s := contextMap, Snapshot();
      LinkBelow(parent, c, m, s, repr);
      hide FieldsOf, KeyOf;
      contextMap := contextMap[c.id := c];
      idCounter := (idCounter + 1) % ID_LIMIT;
      repr := repr + {c};
      assert Snapshot() == Below(s, parent, c, KeyOf(c.frame));
    }

    lemma TreeOfSnapshot()
      requires InRepr()
      ensures Tree() == ToView(Snapshot())
    {
    }

    lemma Found(parent: Context, d: Context)
      requires Valid() && parent.id in contextMap && contextMap[parent.id] == parent && d in parent.children
      ensures d.id in contextMap && contextMap[d.id] == d && Extended(Tree(), Tree(), parent.id, KeyOf(d.frame), d.id)
      ensures d in repr
    {
      var m, s, k := contextMap, Snapshot(), KeyOf(d.frame);
      ViewIsTree(m, s);
      assert d in s[parent.id].children && ChildrenOk(m, s, parent.id);
      FoundPath(Tree(), parent.id, d.id);
    }

    lemma NotFound(parent: Context, k: Key)
      requires Valid() && parent.id in contextMap && contextMap[parent.id] == parent
      requires forall d :: d in parent.children ==> KeyOf(d.frame) != k
      ensures NewKey(Snapshot(), parent.id, k) &&
              Extended(Tree(), WithChild(Tree(), parent.id, k), parent.id, k, |contextMap|)
    {
      var m, s := contextMap, Snapshot();
      ViewIsTree(m, s);
      assert ChildrenOk(m, s, parent.id);
      ChildIsPath(Tree(), parent.id, k);
      KnownChild(m, s, parent.id, k);
    }

    lemma StillValid(m: map<nat, Context>, s: map<nat, Fields>, parent: Context, c: Context, k: Key)
      requires InRepr() && Registered(m, s, root) && |m| < ID_LIMIT && parent.id in m && m[parent.id] == parent &&
               c.id == |m|
      requires NewKey(s, parent.id, k)
      requires contextMap == m[c.id := c] && Snapshot() == Below(s, parent, c, k) && idCounter == (|m| + 1) % ID_LIMIT
      ensures |contextMap| == |m| + 1 && Tree() == WithChild(ToView(s), parent.id, k)
      ensures |contextMap| == idCounter || (|contextMap| == ID_LIMIT && idCounter == 0)
      ensures Valid() <==> |m| + 1 < ID_LIMIT
    {
      LinkedGrows(m, s, parent, c, k);
      GrownView(s, |m|, parent, c, k);
    }

    method Adopt(parent: Context, c: Context)
      requires Valid() && parent.id in contextMap && contextMap[parent.id] == parent
      requires c.id == idCounter && c !in repr && c.children == {} && !c.hasMetrics
      requires forall d :: d in parent.children ==> KeyOf(d.frame) != KeyOf(c.frame)
      modifies this`contextMap, this`idCounter, this`repr, c`parent, parent`children
      ensures contextMap == old(contextMap)[c.id := c] && repr == old(repr) + {c}
      ensures InRepr() && Extended(old(Tree()), Tree(), parent.id, KeyOf(c.frame), c.id)
      ensures c.parent == parent && parent.children == old(parent.children) + {c}
      ensures |contextMap| == idCounter || (|contextMap| == ID_LIMIT && idCounter == 0)
      ensures Valid() <==> |contextMap| < ID_LIMIT
    {
      ghost var m, s, k := contextMap, Snapshot(), KeyOf(c.frame);
      NotFound(parent, k);
      TreeOfSnapshot();
      assert Registered(m, s, root) && |m| == idCounter < ID_LIMIT;
      hide Registered, Extended, NewKey, ToView, Below, WithChild, Valid, Snapshot, Tree;
      Register(parent, c);
      StillValid(m, s, parent, c, k);
    }

    /** Keeps `c` unless the parent already has such a child. */
    method FindOrRegister(parent: Context, c: Context) returns (r: Context)
      requires Valid() && parent.id in contextMap && contextMap[parent.id] == parent
      requires c.id == idCounter && c !in repr && c.children == {} && !c.hasMetrics
      modifies this`contextMap, this`idCounter, this`repr, c`parent, parent`children
      ensures r.id in contextMap && contextMap[r.id] == r
      ensures InRepr() && Extended(old(Tree()), Tree(), parent.id, KeyOf(c.frame), r.id)
      ensures SameSite(r.frame, c.frame)
      ensures if r != c then r in old(parent.children) && parent.children == old(parent.children)
              else
                && r.parent == parent && parent.children == old(parent.children) + {r}
                && forall d :: d in old(parent.children) ==> !SameSite(old(d.frame), c.frame)
      ensures |contextMap| == idCounter || (|contextMap| == ID_LIMIT && idCounter == 0)
      ensures Valid() <==> |contextMap| < ID_LIMIT
    {
      assert InRepr() && |contextMap| == idCounter < ID_LIMIT;
      ghost var v := Tree();
      hide *;
      var findChild := parent.FindChild(c);
      assert Tree() == v;
      parent.ChildByKey(c, findChild);
      if findChild != null {
        Found(parent, findChild);
        return findChild;
      }
      assert SameSite(c.frame, c.frame) by { KeyIff(c.frame, c.frame); }
      Adopt(parent, c);
      return c;
    }

    /** Returns the node whose path is the parent's path extended by the frame, and makes that node if
        and only if there was none. The counter wraps at 32 bits. */
    method AddContext(parent: Context, frame: Frame) returns (r: Context)
      requires Valid() && parent.id in contextMap && contextMap[parent.id] == parent
      modifies this, repr
      ensures r.id in contextMap && contextMap[r.id] == r
      ensures InRepr() && Extended(old(Tree()), Tree(), parent.id, KeyOf(frame), r.id)
      ensures SameSite(r.frame, frame)
      ensures if !fresh(r) then r in old(parent.children) && parent.children == old(parent.children)
              else
                && r.frame == frame && !r.hasMetrics && r.parent == parent
                && parent.children == old(parent.children) + {r}
                && forall d :: d in old(parent.children) ==> !SameSite(old(d.frame), frame)
      ensures |contextMap| == idCounter || (|contextMap| == ID_LIMIT && idCounter == 0)
      ensures Valid() <==> |contextMap| < ID_LIMIT
    {
      assert InRepr() && parent in repr;
      ghost var v := Tree();
      hide *;
      var newCtxt := new Context(idCounter, frame);
      assert Valid() && Tree() == v;
      r := FindOrRegister(parent, newCtxt);
    }

    /** A context of the tree gets its metrics. */
    method GiveMetrics(c: Context)
      requires Valid() && c.id in contextMap && contextMap[c.id] == c
      modifies c`hasMetrics
      ensures Valid() && c.id in old(Tree()) && Tree() == old(Tree())[c.id := old(Tree())[c.id].(metrics := true)]
    {
      ghost var s := Snapshot();
      hide Registered, ToView, KeyOf;
      c.SetMetrics();
      assert Snapshot() == s[c.id := s[c.id].(metrics := true)];
      MetricsApart(contextMap, s, root, c.id);
      MetricsSeen(s, c.id);
    }

    lemma Described(c: Context)
      requires Valid() && c.id in contextMap && contextMap[c.id] == c
      ensures TreeOk(Tree()) && c.id in Tree() &&
              Tree()[c.id] == Info(if c.parent == null then -1 else c.parent.id, KeyOf(c.frame), c.hasMetrics)
      ensures Tree().Keys == contextMap.Keys
      ensures c.parent == null <==> c.id == 0
      ensures c.parent != null ==>
                c.parent.id < c.id && c.parent.id in contextMap && contextMap[c.parent.id] == c.parent
    {
      ViewIsTree(contextMap, Snapshot());
      assert ParentOk(contextMap, Snapshot(), c.id);
    }

    /** What the view says of a node by its id. */
    lemma InTree(i: nat)
      requires Valid() && i in Tree()
      ensures i in contextMap && contextMap[i].id == i && Tree()[i].key == KeyOf(contextMap[i].frame)
      ensures var k, f := Tree()[i].key, contextMap[i].frame;
              && k.bci == f.bci && k.methodId == f.methodId && k.binaryAddr == f.binaryAddr
              && k.methodVersion == f.methodVersion
      ensures Tree()[i].parent == if contextMap[i].parent == null then -1 else contextMap[i].parent.id
    {
    }

    ghost predicate Printed(dumpCtxt: set<Context>, out: seq<Record>)
      reads this
    {
      forall i {:trigger contextMap[i]} :: i in contextMap ==> (contextMap[i] in dumpCtxt <==> i in Ids(out))
    }

    lemma PrintedMeans(dumpCtxt: set<Context>, out: seq<Record>, c: Context)
      requires Printed(dumpCtxt, out) && c.id in contextMap && contextMap[c.id] == c
      ensures c in dumpCtxt <==> c.id in Ids(out)
    {
    }

    lemma PrintedStep(dumpCtxt: set<Context>, out: seq<Record>, c: Context, r: Record)
      requires InRepr() && Printed(dumpCtxt, out) && c.id in contextMap && contextMap[c.id] == c && r.id == c.id
      ensures Printed(dumpCtxt + {c}, out + [r])
    {
      IdsSnoc(out, r);
      hide Ids;
    }

    /** Prints a context and its ancestors up to the first one already printed. */
    method DumpUpwards(c: Context, dumpCtxt: set<Context>, out: seq<Record>, ghost v: View)
      returns (dumpCtxt': set<Context>, out': seq<Record>)
      requires Valid() && v == Tree() && c.id in contextMap && contextMap[c.id] == c
      requires TreeOk(v) && Printed(dumpCtxt, out) && Partial(v, out, -1) && Needed(v, c.id)
      ensures Valid() && v == Tree() && Printed(dumpCtxt', out') && Partial(v, out', -1)
      ensures Ids(out) + {c.id} <= Ids(out')
    {
      var ctxtPtr: Context? := c;
      ghost var i: int := c.id;
      dumpCtxt', out' := dumpCtxt, out;
      assert InRepr();
      PartialStart(v, out, i);
      hide *;
      while ctxtPtr != null && ctxtPtr !in dumpCtxt'
        invariant Valid() && v == Tree() && i == if ctxtPtr == null then -1 else ctxtPtr.id
        invariant ctxtPtr != null ==>
                  ctxtPtr.id in contextMap && contextMap[ctxtPtr.id] == ctxtPtr && Needed(v, ctxtPtr.id)
        invariant Printed(dumpCtxt', out') && Partial(v, out', i)
        invariant Ids(out) <= Ids(out') && (i == c.id || c.id in Ids(out'))
        decreases i
      {
        var cur: Context := ctxtPtr;
        Described(cur);
        PrintedMeans(dumpCtxt', out', cur);
        PartialStep(v, out', cur.id);
        PrintedStep(dumpCtxt', out', cur, Record(cur.id, v[cur.id].parent));
        if cur.parent != null { ParentNeeded(v, cur.id); }
        dumpCtxt' := dumpCtxt' + {cur};
        out' := out' + [Record(cur.id, if cur.parent == null then -1 else cur.parent.id)];
        ctxtPtr := cur.parent;
        i := if ctxtPtr == null then -1 else ctxtPtr.id;
      }
      if ctxtPtr != null { PrintedMeans(dumpCtxt', out', ctxtPtr); }
      PartialEnd(v, out', i);
    }

    /** An iteration over the context map, in any order. */
    ghost predicate Enumerates(order: seq<Context>)
      reads this
    {
      && (forall k {:trigger order[k]} :: 0 <= k < |order| ==>
            order[k].id in contextMap && contextMap[order[k].id] == order[k])
      && (forall i {:trigger i in contextMap} :: i in contextMap ==> contextMap[i] in order)
    }

    /** The dump at thread end, for any iteration order over the context map. */
    method Dump(order: seq<Context>) returns (out: seq<Record>)
      requires Valid() && Enumerates(order)
      ensures TreeOk(Tree()) && Dumped(Tree(), out)
    {
      out := [];
      var dumpCtxt: set<Context> := {};
      ghost var v := Tree();
      ViewIsTree(contextMap, Snapshot());
      assert TreeOk(v) && v.Keys == contextMap.Keys;
      hide *;
      NothingPrinted(v, order);
      for n := 0 to |order|
        invariant Valid() && v == Tree()
        invariant Printed(dumpCtxt, out) && Partial(v, out, -1)
        invariant Covered(v, order, n, out)
      {
        var ctxtPtr := order[n];
        assert ctxtPtr.id in contextMap && contextMap[ctxtPtr.id] == ctxtPtr by { Enumerated(order, n); }
        PrintedMeans(dumpCtxt, out, ctxtPtr);
        Described(ctxtPtr);
        ghost var before := out;
        if ctxtPtr.hasMetrics && ctxtPtr !in dumpCtxt {
          SelfNeeded(v, ctxtPtr.id);
          dumpCtxt, out := DumpUpwards(ctxtPtr, dumpCtxt, out, v);
        }
        CoverStep(v, order, n, before, out);
      }
      AllPrinted(order, out);
      DumpComplete(v, out);
    }

    /** The first `n` contexts are printed as far as they have metrics. */
    ghost predicate Covered(v: View, order: seq<Context>, n: nat, out: seq<Record>) {
      forall m {:trigger order[m]} :: 0 <= m < n <= |order| && order[m].id in v && v[order[m].id].metrics ==>
        order[m].id in Ids(out)
    }

    lemma CoverStep(v: View, order: seq<Context>, n: nat, out: seq<Record>, out': seq<Record>)
      requires n < |order| && Covered(v, order, n, out) && Ids(out) <= Ids(out')
      requires order[n].id in v && v[order[n].id].metrics ==> order[n].id in Ids(out')
      ensures Covered(v, order, n + 1, out')
    {
      hide Ids;
    }

    lemma Enumerated(order: seq<Context>, n: nat)
      requires Enumerates(order) && n < |order|
      ensures order[n].id in contextMap && contextMap[order[n].id] == order[n]
    {
    }

    lemma AllPrinted(order: seq<Context>, out: seq<Record>)
      requires Valid() && Enumerates(order)
      requires Covered(Tree(), order, |order|, out)
      ensures forall j :: j in Tree() && Tree()[j].metrics ==> j in Ids(out)
    {
      hide Ids, Registered;
      forall j | j in Tree() && Tree()[j].metrics ensures j in Ids(out) {
        assert contextMap[j] in order && contextMap[j].id == j;
      }
    }

    lemma NothingPrinted(v: View, order: seq<Context>)
      requires TreeOk(v)
      ensures Printed({}, []) && Partial(v, [], -1) && Covered(v, order, 0, [])
    {
    }
  }

  lemma FoundPath(v: View, p: nat, i: nat)
    requires TreeOk(v) && i in v && i > 0 && v[i].parent == p
    ensures p in v && Path(v, i) == Path(v, p) + [v[i].key]
  {
  }

  lemma GrownView(s: map<nat, Fields>, n: nat, parent: Context, c: Context, k: Key)
    requires |s| == n == c.id && parent.id in s && n !in s && parent.id != n
    ensures ToView(Below(s, parent, c, k)) == WithChild(ToView(s), parent.id, k)
  {
    assert ToView(s).Keys == s.Keys;
  }

  lemma SelfNeeded(v: View, i: nat)
    requires TreeOk(v) && i in v && v[i].metrics
    ensures Needed(v, i)
  {
    assert AncestorOrSelf(v, i, i);
  }
}
