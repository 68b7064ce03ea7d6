/** Rebuilding the calling-context tree from its dumped nodes (offlineprocess/pylib/context.py). */
module ContextManagers {

  import opened Options
  import ContextTrees

  /** Parent ids by context id. A parent need not be loaded itself. */
  type Parents = map<string, string>

  ghost function ChildrenOf(p: Parents, k: string): set<string> {
    set c | c in p && p[c] == k
  }

  ghost function RootsOf(p: Parents): set<string> {
    set c | c in p && p[c] !in p
  }

  ghost predicate NoDuplicates<T(!new)>(s: seq<T>) {
    forall i, j :: 0 <= i < j < |s| ==> s[i] != s[j]
  }

  /** The list holds each element of the set exactly once. */
  ghost predicate Lists(s: seq<string>, t: set<string>) {
    NoDuplicates(s) && forall c :: c in s <==> c in t
  }

  /** The waiting lists: for every parent that is missing, its loaded children. */
  ghost predicate Waiting(w: map<string, seq<string>>, p: Parents) {
    && (forall q :: q in w ==> q !in p && Lists(w[q], ChildrenOf(p, q)))
    && (forall c :: c in p && p[c] !in p ==> p[c] in w)
  }

  lemma ChildrenAfter(p: Parents, id: string, parent: string, k: string)
    requires id !in p
    ensures ChildrenOf(p[id := parent], k) == ChildrenOf(p, k) + (if k == parent then {id} else {})
  {
  }

  lemma RootsAfter(p: Parents, id: string, parent: string)
    requires id !in p
    ensures RootsOf(p[id := parent]) ==
            RootsOf(p) - ChildrenOf(p, id) + (if parent in p[id := parent] then {} else {id})
  {
  }

  lemma WaitingWithout(w: map<string, seq<string>>, p: Parents, id: string, parent: string)
    requires id !in p && Waiting(w, p) && parent in p[id := parent]
    ensures Waiting(w - {id}, p[id := parent])
  {
    var p', w' := p[id := parent], w - {id};
    forall q | q in w' ensures q !in p' && Lists(w'[q], ChildrenOf(p', q)) {
      ChildrenAfter(p, id, parent, q);
    }
    forall c | c in p' && p'[c] !in p' ensures p'[c] in w' {
      assert c in p;
    }
  }

  lemma WaitingWith(w: map<string, seq<string>>, p: Parents, id: string, parent: string, l: seq<string>)
    requires id !in p && Waiting(w, p) && parent !in p[id := parent]
    requires l == if parent in w then w[parent] else []
    ensures Waiting((w - {id})[parent := l + [id]], p[id := parent])
  {
    var p', w' := p[id := parent], (w - {id})[parent := l + [id]];
    forall q | q in w' ensures q !in p' && Lists(w'[q], ChildrenOf(p', q)) {
      ChildrenAfter(p, id, parent, q);
      if q == parent {
        if q !in w { assert ChildrenOf(p, q) == {}; }
        assert Lists(l, ChildrenOf(p, q));
        ListsSnoc(l, ChildrenOf(p, q), id);
      }
    }
    forall c | c in p' && p'[c] !in p' ensures p'[c] in w' {
      if c != id { assert p[c] in w; }
    }
  }

  lemma ListsSnoc(s: seq<string>, t: set<string>, c: string)
    requires Lists(s, t) && c !in t
    ensures Lists(s + [c], t + {c})
  {
  }

  class Context {
    const id: string
    const parentId: string
    var children: set<string>

    constructor (id: string, parentId: string)
      ensures this.id == id && this.parentId == parentId && children == {}
    {
      this.id := id;
      this.parentId := parentId;
      children := {};
    }

    method AddChildID(c: string)
      modifies this`children
      ensures children == old(children) + {c}
    {
      children := children + {c};
    }
  }

  // ----- The bookkeeping as a value

  /** Parents and children of the loaded contexts, the roots, and who waits for which missing parent. */
  datatype Table = Table(parents: Parents, children: map<string, set<string>>, roots: set<string>,
                         waiting: map<string, seq<string>>)

  const NOTHING := Table(map[], map[], {}, map[])

  /** The children sets are the inverse of the parent map, the roots are the contexts whose parent
      was not loaded, and these wait for it. */
  ghost predicate Consistent(t: Table) {
    && t.children.Keys == t.parents.Keys && (forall k :: k in t.parents ==> t.children[k] == ChildrenOf(t.parents, k))
    && t.roots == RootsOf(t.parents) && Waiting(t.waiting, t.parents)
  }

  function WaitingFor(w: map<string, seq<string>>, id: string): seq<string> {
    if id in w then w[id] else []
  }

  ghost function Members(l: seq<string>): set<string> {
    set c | c in l
  }

  /** Each of them can be taken out of the roots once. */
  ghost predicate Removable(l: seq<string>, roots: set<string>) {
    NoDuplicates(l) && forall c :: c in l ==> c in roots
  }

  /** A context is entered, replacing any of its id, and takes those that waited for it. */
  ghost function Entered(t: Table, id: string, parentId: string): Table {
    var l := WaitingFor(t.waiting, id);
    Table(t.parents[id := parentId], t.children[id := Members(l)], t.roots - Members(l), t.waiting - {id})
  }

  /** It is put below its parent, or waits. */
  ghost function Placed(t: Table, id: string): Table
    requires id in t.parents && t.children.Keys == t.parents.Keys
  {
    var q := t.parents[id];
    if q in t.parents then t.(children := t.children[q := t.children[q] + {id}])
    else t.(roots := t.roots + {id}, waiting := t.waiting[q := WaitingFor(t.waiting, q) + [id]])
  }

  /** Nothing if an assertion or a removal fails; a second context 0 is ignored. */
  ghost function AddTo(t: Table, id: string, parentId: string): (r: Option<Table>)
    requires t.children.Keys == t.parents.Keys
    ensures r.Some? ==> r.value.children.Keys == r.value.parents.Keys
  {
    if parentId == "" then None
    else if id == "0" && id in t.parents then Some(t)
    else if !Removable(WaitingFor(t.waiting, id), t.roots) then None
    else Some(Placed(Entered(t, id, parentId), id))
  }

  /** A new id is always added, and leaves everything consistent. */
  lemma AddKeeps(t: Table, id: string, parentId: string)
    requires Consistent(t) && id !in t.parents && parentId != ""
    ensures AddTo(t, id, parentId).Some? && Consistent(AddTo(t, id, parentId).value)
    ensures AddTo(t, id, parentId).value.parents == t.parents[id := parentId]
  {
    var p, l := t.parents, WaitingFor(t.waiting, id);
    var p' := p[id := parentId];
    RootsAfter(p, id, parentId);
    assert Lists(l, ChildrenOf(p, id)) by { WaitingList(t.waiting, p, id); }
    assert Members(l) == ChildrenOf(p, id);
    if parentId in p' {
      WaitingWithout(t.waiting, p, id, parentId);
    } else {
      WaitingWith(t.waiting, p, id, parentId, WaitingFor(t.waiting, parentId));
    }
    hide Waiting, RootsOf;
    forall k | k in p' ensures AddTo(t, id, parentId).value.children[k] == ChildrenOf(p', k) {
      ChildrenAfter(p, id, parentId, k);
    }
  }

  lemma WaitingList(w: map<string, seq<string>>, p: Parents, id: string)
    requires Waiting(w, p) && id !in p
    ensures Lists(WaitingFor(w, id), ChildrenOf(p, id)) && forall c :: c in WaitingFor(w, id) ==> c in RootsOf(p)
  {
    if id !in w { assert ChildrenOf(p, id) == {}; }
  }

  /** A repeated id replaces the context and leaves the links of the replaced one behind. */
  lemma AddRepeated(t: Table, id: string, parentId: string)
    requires Consistent(t) && id in t.parents && id != "0" && parentId != ""
    ensures AddTo(t, id, parentId) ==
            Some(Placed(t.(parents := t.parents[id := parentId], children := t.children[id := {}]), id))
  {
    assert WaitingFor(t.waiting, id) == [] && Members([]) == {};
    assert t.waiting - {id} == t.waiting && t.roots - {} == t.roots;
    assert Entered(t, id, parentId) == t.(parents := t.parents[id := parentId], children := t.children[id := {}]);
  }

  // ----- The manager

  ghost function ParentsOf(d: map<string, Context>): Parents {
    map c | c in d :: d[c].parentId
  }

  ghost function KidsOf(d: map<string, Context>): map<string, set<string>>
    reads d.Values
  {
    map c | c in d :: d[c].children
  }

  class ContextManager {
    var contextDict: map<string, Context>
    var rootSet: set<string>
    var parentRootDict: map<string, seq<string>>
    ghost var repr: set<Context>

    /** What has been loaded. */
    ghost function Loaded(): Parents
      reads this`contextDict
    {
      ParentsOf(contextDict)
    }

    /** Every context is registered under its id. */
    ghost predicate Owned()
      reads this, repr
    {
      forall k {:trigger contextDict[k]} :: k in contextDict ==> contextDict[k] in repr && contextDict[k].id == k
    }

    ghost function Value(): (t: Table)
      requires Owned()
      reads this, repr
      ensures t.children.Keys == t.parents.Keys == contextDict.Keys && t.parents == Loaded()
    {
      Table(ParentsOf(contextDict), KidsOf(contextDict), rootSet, parentRootDict)
    }

    ghost predicate Valid()
      reads this, repr
    {
      Owned() && Consistent(Value())
    }

    lemma RootsAre()
      requires Owned()
      ensures Value().roots == rootSet && (Valid() <==> Consistent(Value()))
      ensures Consistent(Value()) ==> rootSet == RootsOf(Value().parents)
    {
    }

    constructor ()
      ensures Valid() && Value() == NOTHING && repr == {}
    {
      contextDict, rootSet, parentRootDict, repr := map[], {}, map[], {};
      new;
      assert Value() == NOTHING;
    }

    /** Moves the contexts that waited for `ctxt` below it; removing one that is not a root fails. */
    method Adopt(ctxt: Context, waiting: seq<string>) returns (ok: bool)
      requires ctxt.children == {}
      modifies this`rootSet, ctxt`children
      ensures ok <==> Removable(waiting, old(rootSet))
      ensures ok ==> rootSet == old(rootSet) - Members(waiting) && ctxt.children == Members(waiting)
    {
      var n := 0;
      while n < |waiting|
        invariant 0 <= n <= |waiting| && Removable(waiting[..n], old(rootSet))
        invariant rootSet == old(rootSet) - Members(waiting[..n]) && ctxt.children == Members(waiting[..n])
      {
        var r := waiting[n];
        assert waiting[..n + 1] == waiting[..n] + [r];
        if r !in rootSet {
          assert r in waiting[..n] || r !in old(rootSet);
          return false;
        }
        rootSet := rootSet - {r};
        ctxt.AddChildID(r);
        n := n + 1;
      }
      assert waiting[..n] == waiting;
      return true;
    }

    /** The waiting contexts of a newly loaded one become its children. */
    method TakeWaiting(ctxt: Context) returns (ok: bool)
      requires ctxt.children == {}
      modifies this`rootSet, this`parentRootDict, ctxt`children
      ensures ok <==> Removable(WaitingFor(old(parentRootDict), ctxt.id), old(rootSet))
      ensures ok ==> var l := WaitingFor(old(parentRootDict), ctxt.id);
                     rootSet == old(rootSet) - Members(l) && ctxt.children == Members(l)
      ensures ok ==> parentRootDict == old(parentRootDict) - {ctxt.id}
    {
      if ctxt.id in parentRootDict {
        ok := Adopt(ctxt, parentRootDict[ctxt.id]);
        parentRootDict := parentRootDict - {ctxt.id};
      } else {
        ok := true;
      }
    }

    /** A context whose parent is missing becomes a root for the time being. */
    method Wait(id: string, parentId: string)
      modifies this`rootSet, this`parentRootDict
      ensures rootSet == old(rootSet) + {id}
      ensures parentRootDict == old(parentRootDict)[parentId := WaitingFor(old(parentRootDict), parentId) + [id]]
    {
      rootSet := rootSet + {id};
      if parentId !in parentRootDict {
        parentRootDict := parentRootDict[parentId := []];
      }
      parentRootDict := parentRootDict[parentId := parentRootDict[parentId] + [id]];
    }

    /** Puts a context below its parent, or makes it wait. */
    method Place(ctxt: Context)
      requires Owned() && ctxt.id in contextDict && contextDict[ctxt.id] == ctxt
      modifies this`rootSet, this`parentRootDict, repr
      ensures Owned() && Value() == Placed(old(Value()), ctxt.id)
    {
      if ctxt.parentId in contextDict {
        contextDict[ctxt.parentId].AddChildID(ctxt.id);
      } else {
        Wait(ctxt.id, ctxt.parentId);
      }
    }

    /** Enters a context, which takes the waiting ones. */
    method Enter(ctxt: Context) returns (ok: bool)
      requires Owned() && ctxt !in repr && ctxt.children == {}
      modifies this, ctxt`children
      ensures Owned() && repr == old(repr) + {ctxt} && contextDict == old(contextDict)[ctxt.id := ctxt]
      ensures ok <==> Removable(WaitingFor(old(parentRootDict), ctxt.id), old(rootSet))
      ensures ok ==> Value() == Entered(old(Value()), ctxt.id, ctxt.parentId)
    {
      hide Removable;
      ghost var kids, parents := KidsOf(contextDict), ParentsOf(contextDict);
      contextDict := contextDict[ctxt.id := ctxt];
      repr := repr + {ctxt};
      ok := TakeWaiting(ctxt);
      assert KidsOf(contextDict) == kids[ctxt.id := ctxt.children];
      assert ParentsOf(contextDict) == parents[ctxt.id := ctxt.parentId];
      hide Members, WaitingFor, KidsOf, ParentsOf;
    }

    /** One more context; fails for an empty parent id and for a removal that fails. */
    method AddContext(ctxt: Context) returns (ok: bool)
      requires Owned() && ctxt !in repr && ctxt.children == {}
      modifies this, ctxt, repr
      ensures Owned() && repr <= old(repr) + {ctxt}
      ensures ok <==> AddTo(old(Value()), ctxt.id, ctxt.parentId).Some?
      ensures ok ==> Value() == AddTo(old(Value()), ctxt.id, ctxt.parentId).value
      ensures ok <==>
                && ctxt.parentId != ""
                && ((ctxt.id == "0" && "0" in old(contextDict)) ||
                    Removable(WaitingFor(old(parentRootDict), ctxt.id), old(rootSet)))
      ensures ctxt.parentId != "" && ctxt.id == "0" && "0" in old(contextDict) ==> Value() == old(Value())
      ensures old(Valid()) && ctxt.id !in old(contextDict) && ctxt.parentId != "" ==>
                ok && Valid() && Loaded() == old(Loaded())[ctxt.id := ctxt.parentId]
    {
      ghost var t := Value();
      if Consistent(t) && ctxt.id !in contextDict && ctxt.parentId != "" { AddKeeps(t, ctxt.id, ctxt.parentId); }
      hide Consistent, Removable;
      if ctxt.parentId == "" { return false; }
      if ctxt.id == "0" && ctxt.id in contextDict { return true; }
      hide Placed, Entered, WaitingFor, ParentsOf, KidsOf, ContextManager.Value;
      ok := Enter(ctxt);
      if ok { Place(ctxt); }
    }

    /** All paths from `root` to the leaves below it, or to all nodes below it, by ids. `rank` and
        `bound` witness that parent links have no cycle. */
    method GetAllPaths(root: string, subnodes: bool, ghost rank: string -> nat, ghost bound: nat)
      returns (r: seq<seq<string>>)
      requires Valid() && root in contextDict && Acyclic(Loaded(), rank, bound)
      ensures NoDuplicates(r) && forall path :: path in r <==> Wanted(Loaded(), root, path, subnodes)
      decreases bound - rank(root)
    {
      ghost var p := Loaded();
      assert contextDict[root].children == KidsOf(contextDict)[root] == ChildrenOf(p, root);
      var todo := contextDict[root].children;
      if todo == {} {
        OnlyRootPath(p, root, subnodes);
        return [[root]];
      }
      r := [];
      while todo != {}
        invariant todo <= ChildrenOf(p, root)
        invariant NoDuplicates(r) && forall path :: path in r <==>
                  Through(p, root, path, subnodes, ChildrenOf(p, root) - todo)
        decreases |todo|
      {
        var c :| c in todo;
        var allPaths := GetAllPaths(c, subnodes, rank, bound);
        AddThrough(p, root, c, subnodes, ChildrenOf(p, root) - todo, r, allPaths);
        assert ChildrenOf(p, root) - (todo - {c}) == ChildrenOf(p, root) - todo + {c};
        todo := todo - {c};
        r := r + Prefixed(root, allPaths);
      }
      AllThrough(p, root, subnodes, r);
      if subnodes { r := r + [[root]]; }
    }
  }

  // ----- Paths

  ghost predicate Acyclic(p: Parents, rank: string -> nat, bound: nat) {
    forall c :: c in p ==> rank(c) < bound && (p[c] in p ==> rank(p[c]) < rank(c))
  }

  /** A downward path from `root`. */
  ghost predicate IsPath(p: Parents, root: string, path: seq<string>) {
    && path != [] && path[0] == root
    && forall k :: 0 < k < |path| ==> path[k] in p && p[path[k]] == path[k - 1]
  }

  ghost predicate Wanted(p: Parents, root: string, path: seq<string>, subnodes: bool) {
    IsPath(p, root, path) && (subnodes || ChildrenOf(p, path[|path| - 1]) == {})
  }

  /** A wanted path whose second node is in `via`. */
  ghost predicate Through(p: Parents, root: string, path: seq<string>, subnodes: bool, via: set<string>) {
    |path| > 1 && path[1] in via && Wanted(p, root, path, subnodes)
  }

  function Prefixed(root: string, paths: seq<seq<string>>): (r: seq<seq<string>>)
    ensures |r| == |paths| && forall k :: 0 <= k < |r| ==> r[k] == [root] + paths[k]
  {
    seq(|paths|, k requires 0 <= k < |paths| => [root] + paths[k])
  }

  lemma LongPath(p: Parents, root: string, path: seq<string>)
    ensures IsPath(p, root, path) && |path| > 1 ==> ChildrenOf(p, root) != {}
    ensures IsPath(p, root, path) && |path| == 1 ==> path == [root]
  {
    if IsPath(p, root, path) && |path| > 1 { assert path[1] in ChildrenOf(p, root); }
  }

  lemma OnlyRootPath(p: Parents, root: string, subnodes: bool)
    requires ChildrenOf(p, root) == {}
    ensures forall path :: path in [[root]] <==> Wanted(p, root, path, subnodes)
  {
    forall path | Wanted(p, root, path, subnodes) ensures path == [root] {
      LongPath(p, root, path);
    }
  }

  lemma WantedBelow(p: Parents, root: string, c: string, q: seq<string>, subnodes: bool)
    requires c in p && p[c] == root
    ensures Wanted(p, c, q, subnodes) <==> Wanted(p, root, [root] + q, subnodes) && q != [] && q[0] == c
  {
    var path := [root] + q;
    assert path[1..] == q;
    if Wanted(p, root, path, subnodes) && q != [] && q[0] == c {
      forall k | 0 < k < |q| ensures q[k] in p && p[q[k]] == q[k - 1] {
        assert path[k + 1] == q[k] && path[k] == q[k - 1];
      }
    }
  }

  lemma AddThrough(p: Parents, root: string, c: string, subnodes: bool, via: set<string>, r: seq<seq<string>>,
                   below: seq<seq<string>>)
    requires c in ChildrenOf(p, root) && c !in via
    requires NoDuplicates(r) && forall path :: path in r <==> Through(p, root, path, subnodes, via)
    requires NoDuplicates(below) && forall path :: path in below <==> Wanted(p, c, path, subnodes)
    ensures var r' := r + Prefixed(root, below);
            NoDuplicates(r') && forall path :: path in r' <==> Through(p, root, path, subnodes, via + {c})
  {
    var more := Prefixed(root, below);
    forall path ensures path in more <==> Through(p, root, path, subnodes, {c}) {
      if path in more {
        var k :| 0 <= k < |more| && more[k] == path;
        assert below[k] in below;
        WantedBelow(p, root, c, below[k], subnodes);
      }
      if Through(p, root, path, subnodes, {c}) {
        assert path == [root] + path[1..];
        WantedBelow(p, root, c, path[1..], subnodes);
        var k :| 0 <= k < |below| && below[k] == path[1..];
        assert more[k] == path;
      }
    }
    forall i, j | 0 <= i < j < |more| ensures more[i] != more[j] {
      assert more[i][1..] == below[i] && more[j][1..] == below[j];
    }
    hide Wanted;
    forall i, j | 0 <= i < |r| && 0 <= j < |more| ensures r[i] != more[j] {
      assert r[i] in r && more[j] in more;
    }
  }

  lemma AllThrough(p: Parents, root: string, subnodes: bool, r: seq<seq<string>>)
    requires ChildrenOf(p, root) != {}
    requires NoDuplicates(r) && forall path :: path in r <==> Through(p, root, path, subnodes, ChildrenOf(p, root))
    ensures var r' := if subnodes then r + [[root]] else r;
            NoDuplicates(r') && forall path :: path in r' <==> Wanted(p, root, path, subnodes)
  {
    forall path | Wanted(p, root, path, subnodes) ensures path in r || (subnodes && path == [root]) {
      if |path| > 1 { assert path[1] in ChildrenOf(p, root); }
    }
    assert [root] !in r;
  }

  // ----- Loading a whole dump

  datatype Entry = Entry(id: string, parentId: string)

  ghost function AsParents(entries: seq<Entry>): Parents {
    if entries == [] then map[]
    else
      var e := entries[|entries| - 1];
      AsParents(entries[..|entries| - 1])[e.id := e.parentId]
  }

  ghost predicate DistinctIds(entries: seq<Entry>) {
    forall i, j :: 0 <= i < j < |entries| ==> entries[i].id != entries[j].id
  }

  lemma {:induction false} ParentsAre(entries: seq<Entry>, id: string, parentId: string)
    requires DistinctIds(entries)
    ensures id in AsParents(entries) && AsParents(entries)[id] == parentId <==> Entry(id, parentId) in entries
    ensures id in AsParents(entries) <==> exists k :: 0 <= k < |entries| && entries[k].id == id
  {
    if entries != [] {
      var n := |entries| - 1;
      ParentsAre(entries[..n], id, parentId);
      assert entries == entries[..n] + [entries[n]];
    }
  }

  /** The order of the entries does not matter. */
  lemma OrderIrrelevant(a: seq<Entry>, b: seq<Entry>)
    requires DistinctIds(a) && DistinctIds(b) && forall e :: e in a <==> e in b
    ensures AsParents(a) == AsParents(b)
  {
    var p, q := AsParents(a), AsParents(b);
    forall id | id in p ensures id in q && q[id] == p[id] {
      ParentsAre(a, id, p[id]);
      ParentsAre(b, id, p[id]);
    }
    forall id | id in q ensures id in p {
      ParentsAre(b, id, q[id]);
      ParentsAre(a, id, q[id]);
    }
  }

  /** What is loaded from the entries, in their order. */
  ghost function LoadTable(entries: seq<Entry>): (r: Option<Table>)
    ensures r.Some? ==> r.value.children.Keys == r.value.parents.Keys
  {
    if entries == [] then Some(NOTHING)
    else
      var e := entries[|entries| - 1];
      match LoadTable(entries[..|entries| - 1])
      case None => None
      case Some(t) => AddTo(t, e.id, e.parentId)
  }

  /** Without repeated ids nothing fails, and the parent map is that of the entries. */
  lemma {:induction false} LoadsDistinct(entries: seq<Entry>)
    requires DistinctIds(entries) && forall k :: 0 <= k < |entries| ==> entries[k].parentId != ""
    ensures var r := LoadTable(entries); r.Some? && Consistent(r.value) && r.value.parents == AsParents(entries)
  {
    if entries != [] {
      var n := |entries| - 1;
      LoadsDistinct(entries[..n]);
      ParentsAre(entries[..n], entries[n].id, "");
      hide Consistent, AddTo;
      AddKeeps(LoadTable(entries[..n]).value, entries[n].id, entries[n].parentId);
    }
  }

  /** With repeated ids loading can fail: a context that waits twice for one parent cannot be taken out of the roots
      twice. */
  lemma RepeatedFails(id: string, parentId: string, top: string)
    requires id != parentId && id != "0" && parentId != "" && top != ""
    ensures LoadTable([Entry(id, parentId), Entry(id, parentId), Entry(parentId, top)]) == None
  {
    var e, f := Entry(id, parentId), Entry(parentId, top);
    assert [e, e, f][..2] == [e, e] && [e, e][..1] == [e] && [e][..0] == [];
    assert WaitingFor(NOTHING.waiting, id) == [] && Members([]) == {};
    var t := AddTo(NOTHING, id, parentId).value;
    assert LoadTable([]) == Some(NOTHING) && LoadTable([e]) == AddTo(NOTHING, id, parentId);
    assert t.parents == map[id := parentId] && t.waiting.Keys == {parentId} && t.waiting[parentId] == [] + [id];
    assert WaitingFor(t.waiting, id) == [];
    var u := AddTo(t, id, parentId).value;
    assert LoadTable([e, e]) == AddTo(t, id, parentId);
    assert u.waiting[parentId] == [id] + [id] && u.waiting[parentId][0] == u.waiting[parentId][1];
  }

  /** An empty dump makes the root query fail; otherwise exactly one root is asserted. */
  datatype LoadResult = Loaded(manager: ContextManager) | Failed | NoContexts | WrongRootCount

  method LoadContext(entries: seq<Entry>) returns (r: LoadResult)
    ensures r.NoContexts? <==> entries == []
    ensures r.Failed? <==> LoadTable(entries).None?
    ensures r.Loaded? <==> entries != [] && LoadTable(entries).Some? && |LoadTable(entries).value.roots| == 1
    ensures r.Loaded? ==> fresh(r.manager) && r.manager.Owned() && r.manager.Value() == LoadTable(entries).value
    ensures DistinctIds(entries) && (forall k :: 0 <= k < |entries| ==> entries[k].parentId != "") ==>
              && (r.Loaded? <==> entries != [] && |RootsOf(AsParents(entries))| == 1)
              && (r.Loaded? ==> r.manager.Valid() && r.manager.Loaded() == AsParents(entries))
  {
    if DistinctIds(entries) && forall k :: 0 <= k < |entries| ==> entries[k].parentId != "" { LoadsDistinct(entries); }
    assert entries == [] ==> LoadTable(entries) == Some(NOTHING);
    hide *;
    var ok, m := AddAll(entries);
    if !ok { return Failed; }
    m.RootsAre();
    if |entries| == 0 { return NoContexts; }
    if |m.rootSet| == 1 { return Loaded(m); }
    return WrongRootCount;
  }

  /** The loop over the entries. */
  method AddAll(entries: seq<Entry>) returns (ok: bool, m: ContextManager)
    ensures ok <==> LoadTable(entries).Some?
    ensures ok ==> fresh(m) && m.Owned() && m.Value() == LoadTable(entries).value
  {
    assert entries[..0] == [] && LoadTable([]) == Some(NOTHING);
    hide *;
    m := new ContextManager();
    for n := 0 to |entries|
      invariant fresh(m) && m.Owned() && fresh(m.repr) && LoadTable(entries[..n]) == Some(m.Value())
    {
      LoadStep(entries, n);
      var ctxt := new Context(entries[n].id, entries[n].parentId);
      ok := m.AddContext(ctxt);
      if !ok {
        StaysFailed(entries, n + 1);
        return;
      }
    }
    assert entries[..|entries|] == entries;
    ok := true;
  }

  lemma LoadStep(entries: seq<Entry>, n: nat)
    requires n < |entries|
    ensures var t := LoadTable(entries[..n]);
            LoadTable(entries[..n + 1]) == if t.None? then None else AddTo(t.value, entries[n].id, entries[n].parentId)
  {
    assert entries[..n + 1][..n] == entries[..n];
  }

  lemma {:induction false} StaysFailed(entries: seq<Entry>, n: nat)
    requires n <= |entries| && LoadTable(entries[..n]).None?
    ensures LoadTable(entries).None?
  {
    if n == |entries| {
      assert entries[..n] == entries;
    } else {
      var m := |entries| - 1;
      assert entries[..m][..n] == entries[..n];
      hide AddTo;
      StaysFailed(entries[..m], n);
    }
  }

  // ----- Dump and reload

  function Digit(n: nat): char
    requires n < 10
  {
    ('0' as int + n) as char
  }

  /** How ids are printed. */
  function Decimal(n: nat): string {
    if n < 10 then [Digit(n)] else Decimal(n / 10) + [Digit(n % 10)]
  }

  function Value(s: string): nat {
    if s == [] then 0
    else
      var c := s[|s| - 1];
      Value(s[..|s| - 1]) * 10 + (if '0' <= c <= '9' then c as int - '0' as int else 0)
  }

  lemma {:induction false} ValueOfDecimal(n: nat)
    ensures Value(Decimal(n)) == n
  {
    if n >= 10 {
      ValueOfDecimal(n / 10);
      assert Decimal(n)[..|Decimal(n)| - 1] == Decimal(n / 10);
    }
  }

  lemma DecimalInjective(a: nat, b: nat)
    requires Decimal(a) == Decimal(b)
    ensures a == b
  {
    ValueOfDecimal(a);
    ValueOfDecimal(b);
  }

  lemma DecimalLength(n: nat)
    ensures |Decimal(n)| > 0 && Decimal(n)[0] != '-'
  {
  }

  function Printed(r: ContextTrees.Record): (e: Entry)
    requires r.parentId >= -1
  {
    Entry(Decimal(r.id), if r.parentId == -1 then "-1" else Decimal(r.parentId))
  }

  ghost predicate PrintedAs(out: seq<ContextTrees.Record>, entries: seq<Entry>) {
    |entries| == |out| && forall k :: 0 <= k < |out| ==> out[k].parentId >= -1 && entries[k] == Printed(out[k])
  }

  lemma PrintedIds(out: seq<ContextTrees.Record>, entries: seq<Entry>, i: nat)
    requires ContextTrees.Distinct(out) && PrintedAs(out, entries)
    ensures DistinctIds(entries)
    ensures Decimal(i) in AsParents(entries) <==> i in ContextTrees.Ids(out)
    ensures "-1" !in AsParents(entries)
  {
    forall k, l | 0 <= k < l < |entries| ensures entries[k].id != entries[l].id {
      if entries[k].id == entries[l].id { DecimalInjective(out[k].id, out[l].id); }
    }
    ParentsAre(entries, Decimal(i), "");
    ParentsAre(entries, "-1", "");
    if k :| 0 <= k < |entries| && entries[k].id == Decimal(i) {
      DecimalInjective(out[k].id, i);
    }
    if i in ContextTrees.Ids(out) {
      var k :| 0 <= k < |out| && out[k].id == i;
      assert entries[k].id == Decimal(i);
    }
    forall k | 0 <= k < |entries| ensures entries[k].id != "-1" {
      DecimalLength(out[k].id);
    }
  }

  lemma PrintedRoot(v: ContextTrees.View, out: seq<ContextTrees.Record>, entries: seq<Entry>, k: nat)
    requires ContextTrees.TreeOk(v) && ContextTrees.Dumped(v, out) && PrintedAs(out, entries) && k < |out|
    ensures "0" in AsParents(entries)
    ensures entries[k].parentId !in AsParents(entries) <==> entries[k].id == "0"
  {
    hide ContextTrees.TreeOk, AsParents, ContextTrees.Needed, ContextTrees.Ids;
    ContextTrees.OneRoot(v, out, k);
    PrintedIds(out, entries, 0);
    assert Decimal(0) == "0";
    if out[k].id != 0 {
      PrintedIds(out, entries, out[k].parentId);
      if entries[k].id == "0" { DecimalInjective(out[k].id, 0); }
    }
  }

  /** Reloading a non-empty dump of any context trie, in any order, gives the single root 0 and
      exactly the nodes that have metrics or lie above one that has. */
  lemma ReloadedDump(v: ContextTrees.View, out: seq<ContextTrees.Record>, entries: seq<Entry>, loaded: seq<Entry>)
    requires ContextTrees.TreeOk(v) && ContextTrees.Dumped(v, out) && out != [] && PrintedAs(out, entries)
    requires DistinctIds(loaded) && forall e :: e in loaded <==> e in entries
    ensures DistinctIds(entries) && RootsOf(AsParents(loaded)) == {"0"}
    ensures forall i: nat :: Decimal(i) in AsParents(loaded) <==> i in v && ContextTrees.Needed(v, i)
  {
    hide ContextTrees.TreeOk, AsParents, ContextTrees.Needed, ContextTrees.Ids, ContextTrees.Distinct, Decimal;
    PrintedIds(out, entries, 0);
    OrderIrrelevant(loaded, entries);
    var p := AsParents(entries);
    forall i: nat ensures Decimal(i) in p <==> i in v && ContextTrees.Needed(v, i) {
      PrintedIds(out, entries, i);
    }
    forall c ensures c in RootsOf(p) <==> c == "0" {
      PrintedRoot(v, out, entries, 0);
      if c in p {
        ParentsAre(entries, c, p[c]);
        var k :| 0 <= k < |entries| && entries[k] == Entry(c, p[c]);
        PrintedRoot(v, out, entries, k);
      }
    }
  }

  /** The reloaded nodes keep the parents they have in the trie. */
  lemma ReloadedParent(v: ContextTrees.View, out: seq<ContextTrees.Record>, entries: seq<Entry>, i: nat)
    requires ContextTrees.TreeOk(v) && ContextTrees.Dumped(v, out) && PrintedAs(out, entries)
    requires i in v && i > 0 && ContextTrees.Needed(v, i)
    ensures DistinctIds(entries) && Decimal(i) in AsParents(entries) &&
            AsParents(entries)[Decimal(i)] == Decimal(v[i].parent)
  {
    PrintedIds(out, entries, i);
    assert i in ContextTrees.Ids(out);
    hide AsParents, ContextTrees.Needed, Decimal;
    var k :| 0 <= k < |out| && out[k].id == i;
    assert entries[k] == Entry(Decimal(i), Decimal(v[i].parent));
    ParentsAre(entries, Decimal(i), Decimal(v[i].parent));
  }

  /** A reloaded dump has no parent cycle, so its paths can be listed. */
  lemma ReloadedAcyclic(v: ContextTrees.View, out: seq<ContextTrees.Record>, entries: seq<Entry>)
    requires ContextTrees.TreeOk(v) && ContextTrees.Dumped(v, out) && PrintedAs(out, entries)
    ensures Acyclic(AsParents(entries), Value, |v|)
  {
    var p := AsParents(entries);
    hide AsParents, ContextTrees.Needed, Decimal, Value;
    PrintedIds(out, entries, 0);
    forall c | c in p ensures Value(c) < |v| && (p[c] in p ==> Value(p[c]) < Value(c)) {
      ParentsAre(entries, c, p[c]);
      var k :| 0 <= k < |entries| && entries[k] == Entry(c, p[c]);
      assert out[k].id in ContextTrees.Ids(out);
      ValueOfDecimal(out[k].id);
      if out[k].parentId >= 0 { ValueOfDecimal(out[k].parentId); }
    }
  }
}
