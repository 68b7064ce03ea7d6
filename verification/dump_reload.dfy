/** From the context tree of a thread through its dump and the threads that parse it to the tree that is loaded
    (src/profiler/profiler.cpp, offlineprocess/pylib/special_xml.py, offlineprocess/process_raw_data.py). */
module DumpReload {

  import opened Options
  import opened Xml
  import XmlObjects
  import X = ContextXml
  import C = ContextTrees
  import M = ContextManagers
  import H = HomoSplit
  import P = HomoProtocol

  /** The metrics of the contexts that have some. */
  type Data = map<nat, seq<X.Metric>>

  /** What is printed for one context. */
  function RecordDom(v: C.View, data: Data, r: C.Record): XmlObjects.Dom
    requires r.id in v
  {
    X.ContextDom(r.id, r.parentId, v[r.id].key, if r.id in data then Some(data[r.id]) else None)
  }

  ghost predicate PrintsDump(v: C.View, data: Data, out: seq<C.Record>, f: seq<Obj>) {
    |f| == |out| && forall k :: 0 <= k < |f| ==> out[k].id in v && XmlObjects.Shows(RecordDom(v, data, out[k]), f[k])
  }

  /** The texts of the metrics hold no quote and no `=`, and neither the close tag of a context nor the start of a
      header. */
  ghost predicate MetricsOk(data: Data) {
    forall i, k :: i in data && 0 <= k < |data[i]| ==> X.MetricOk(data[i][k], "context")
  }

  ghost predicate Has(tree: C.ContextTree, v: C.View)
    reads tree, tree.repr
  {
    tree.Valid() && tree.Tree() == v
  }

  /** The dump of a thread, for any iteration order over the context map. */
  method DumpText(tree: C.ContextTree, order: seq<C.Context>, data: Data, ghost v: C.View)
    returns (text: string, ghost out: seq<C.Record>, ghost f: seq<Obj>)
    requires Has(tree, v) && tree.Enumerates(order)
    ensures Has(tree, v) && C.TreeOk(v) && C.Dumped(v, out) && PrintsDump(v, data, out, f) && text == XMLStrs(f, 0)
  {
    hide C.TreeOk, C.Dumped, PrintsDump, C.ContextTree.Tree, C.ContextTree.Valid;
    var records := tree.Dump(order);
    assert Has(tree, v);
    hide *;
    RecordsOf(v, records);
    text, f := PrintRecords(tree, records, data, v);
    out := records;
  }

  method PrintRecords(tree: C.ContextTree, records: seq<C.Record>, data: Data, ghost v: C.View)
    returns (text: string, ghost f: seq<Obj>)
    requires Has(tree, v)
    requires forall k :: 0 <= k < |records| ==> records[k].id in v && records[k].parentId == v[records[k].id].parent
    ensures Has(tree, v) && PrintsDump(v, data, records, f) && text == XMLStrs(f, 0)
  {
    hide *;
    text, f := "", [];
    NothingPrinted(v, data);
    assert records[..0] == [];
    for k := 0 to |records|
      invariant Has(tree, v)
      invariant PrintsDump(v, data, records[..k], f) && text == XMLStrs(f, 0)
    {
      var one, o := PrintRecord(tree, records[k], data, v);
      MorePrinted(v, data, records, f, k, o);
      XmlObjects.XMLStrsSnoc(f, o, 0);
      text, f := text + one, f + [o];
    }
    assert records[..|records|] == records;
  }

  method PrintRecord(tree: C.ContextTree, r: C.Record, data: Data, ghost v: C.View) returns (text: string, ghost o: Obj)
    requires Has(tree, v) && r.id in v && r.parentId == v[r.id].parent
    ensures Has(tree, v) && XmlObjects.Shows(RecordDom(v, data, r), o) && text == XMLStr(o, 0)
  {
    hide C.ContextTree.Valid, C.ContextTree.Tree, X.ContextDom, XmlObjects.Shows, C.KeyOf;
    tree.InTree(r.id);
    var c, metrics := tree.contextMap[r.id], if r.id in data then Some(data[r.id]) else None;
    ghost var d := RecordDom(v, data, r);
    assert d == X.ContextDom(c.id, if c.parent == null then -1 else c.parent.id, C.KeyOf(c.frame), metrics);
    hide *;
    text := X.PrintContext(c, metrics);
    o :| XmlObjects.Shows(d, o) && text == XMLStr(o, 0);
  }

  lemma RecordsOf(v: C.View, out: seq<C.Record>)
    requires C.TreeOk(v) && C.Dumped(v, out)
    ensures forall k :: 0 <= k < |out| ==> out[k].id in v && out[k].parentId == v[out[k].id].parent
  {
  }

  lemma NothingPrinted(v: C.View, data: Data)
    ensures PrintsDump(v, data, [], []) && XMLStrs([], 0) == ""
  {
  }

  lemma MorePrinted(v: C.View, data: Data, out: seq<C.Record>, f: seq<Obj>, k: nat, o: Obj)
    requires k < |out| && PrintsDump(v, data, out[..k], f) && out[k].id in v &&
             XmlObjects.Shows(RecordDom(v, data, out[k]), o)
    ensures PrintsDump(v, data, out[..k + 1], f + [o])
  {
    hide XmlObjects.Shows, RecordDom;
  }

  /** What is read of a context node to build the tree. */
  function EntryOf(n: Node): M.Entry {
    M.Entry(if "id" in n.attrs then n.attrs["id"] else "", if "parent_id" in n.attrs then n.attrs["parent_id"] else "")
  }

  ghost function EntriesOf(nodes: seq<Node>): (r: seq<M.Entry>)
    ensures |r| == |nodes| && forall k :: 0 <= k < |r| ==> r[k] == EntryOf(nodes[k])
  {
    if nodes == [] then [] else EntriesOf(nodes[..|nodes| - 1]) + [EntryOf(nodes[|nodes| - 1])]
  }

  ghost function EntriesPrinted(out: seq<C.Record>): (r: seq<M.Entry>)
    requires forall k :: 0 <= k < |out| ==> out[k].parentId >= -1
    ensures M.PrintedAs(out, r)
  {
    if out == [] then [] else EntriesPrinted(out[..|out| - 1]) + [M.Printed(out[|out| - 1])]
  }

  /** The nodes in the order in which the threads added them. */
  ghost function NodesAdded(f: seq<Obj>, root: seq<nat>): (r: seq<Node>)
    requires forall j :: 0 <= j < |H.ChunksOf(f)| ==> H.GoodChunk(H.ChunksOf(f)[j])
    requires forall j :: 0 <= j < |root| ==> root[j] < |H.ChunksOf(f)|
  {
    H.Pick(H.NodesOf(H.ChunksOf(f)), root)
  }

  lemma {:induction false} PickAt<T>(s: seq<T>, order: seq<nat>)
    requires forall j :: 0 <= j < |order| ==> order[j] < |s|
    ensures |H.Pick(s, order)| == |order| && forall j :: 0 <= j < |order| ==> H.Pick(s, order)[j] == s[order[j]]
  {
    if order != [] { PickAt(s, order[..|order| - 1]); }
  }

  lemma EntryRead(v: C.View, data: Data, o: Obj, r: C.Record)
    requires r.id in v && r.parentId >= -1 && XmlObjects.Shows(RecordDom(v, data, r), o)
    ensures EntryOf(Image(o)) == M.Printed(r) && Arrived(v, data, r, Image(o))
  {
    var d := RecordDom(v, data, r);
    hide RecordDom, XmlObjects.Shows, XmlObjects.Mirrors, Image, M.Printed, Quoted, Inner;
    PrintedAttrs(v, data, r);
    XmlObjects.ReadBack(d, o);
    XmlObjects.ShownMirrors(d, o);
    NodeTells(v, data, r, Image(o));
    SameText(M.Printed(r).id, Image(o).attrs["id"]);
    SameText(M.Printed(r).parentId, Image(o).attrs["parent_id"]);
  }

  lemma NodeTells(v: C.View, data: Data, r: C.Record, n: Node)
    requires r.id in v && XmlObjects.Mirrors(RecordDom(v, data, r), n)
    ensures Arrived(v, data, r, n)
  {
    hide XmlObjects.Mirrors, X.ContextDom, X.TellsNode;
    X.MirrorTells(r.id, r.parentId, v[r.id].key, if r.id in data then Some(data[r.id]) else None, n);
  }

  lemma SameText(a: string, b: string)
    requires Quoted(a) == Quoted(b)
    ensures a == b
  {
    XmlObjects.Unquoted(a);
    XmlObjects.Unquoted(b);
  }

  lemma PrintedAttrs(v: C.View, data: Data, r: C.Record)
    requires r.id in v && r.parentId >= -1
    ensures var attrs := RecordDom(v, data, r).attrs;
            && "id" in attrs && attrs["id"] == Quoted(M.Printed(r).id)
            && "parent_id" in attrs && attrs["parent_id"] == Quoted(M.Printed(r).parentId)
  {
    hide Quoted, X.Pointer, X.Hex, X.MetricsDom;
    assert X.Signed(-1) == "-1";
  }

  /** Entries that are the printed ones in another order. */
  lemma Shuffled(printed: seq<M.Entry>, root: seq<nat>, loaded: seq<M.Entry>)
    requires H.EachOnce(root, |printed|) && |loaded| == |root| && M.DistinctIds(printed)
    requires forall j :: 0 <= j < |root| ==> root[j] < |printed| && loaded[j] == printed[root[j]]
    ensures M.DistinctIds(loaded) && forall e :: e in loaded <==> e in printed
  {
    forall e | e in printed ensures e in loaded {
      var c :| 0 <= c < |printed| && printed[c] == e;
      assert c in root;
      var j :| 0 <= j < |root| && root[j] == c;
      assert loaded[j] == e;
    }
    forall i, j | 0 <= i < j < |loaded| ensures loaded[i].id != loaded[j].id {
      assert root[i] != root[j];
    }
  }

  /** The file that is written for a dump. */
  ghost function Text(f: seq<Obj>): string {
    HEADER + "\n" + XMLStrs(f, 0)
  }

  /** What the threads can cut and parse. */
  ghost predicate Readable(f: seq<Obj>) {
    H.AllLevelOne(f, "context") && Clean(f) && forall k :: 0 <= k < |f| ==> Find(H.Chunk(f[k]), '<', '?', 0) == -1
  }

  lemma DumpReadable(v: C.View, data: Data, out: seq<C.Record>, f: seq<Obj>)
    requires PrintsDump(v, data, out, f) && MetricsOk(data)
    ensures Readable(f)
  {
    forall k | 0 <= k < |f|
      ensures H.LevelOne(f[k], "context") && XmlObjects.CleanObj(f[k]) && Find(H.Chunk(f[k]), '<', '?', 0) == -1
    {
      ContextShown(v, data, out[k], f[k]);
    }
    XmlObjects.CleanEach(f);
  }

  lemma ContextShown(v: C.View, data: Data, r: C.Record, o: Obj)
    requires MetricsOk(data) && r.id in v && XmlObjects.Shows(RecordDom(v, data, r), o)
    ensures H.LevelOne(o, "context") && XmlObjects.CleanObj(o) && Find(H.Chunk(o), '<', '?', 0) == -1
  {
    var d := RecordDom(v, data, r);
    assert d.tag == "context";
    hide XmlObjects.Shows, X.MetricOk, H.LevelOne, XmlObjects.CleanObj, H.Chunk;
    X.ContextReadable(r.id, r.parentId, v[r.id].key, if r.id in data then Some(data[r.id]) else None);
    X.ShownReadable(d, o);
  }

  /** The threads have parsed the file, and the master has returned. */
  ghost predicate ParsedBy(f: seq<Obj>, consumers: nat, limit: nat, run: seq<P.Action>) {
    var e := H.EnvOf(Text(f), "context", consumers, limit);
    consumers > 0 && P.Run(e, run).Some? && P.Run(e, run).value.master == P.Done
  }

  ghost function RootAdded(f: seq<Obj>, consumers: nat, limit: nat, run: seq<P.Action>): seq<nat>
    requires ParsedBy(f, consumers, limit, run)
  {
    P.Run(H.EnvOf(Text(f), "context", consumers, limit), run).value.root
  }

  ghost predicate FromParents(out: seq<C.Record>) {
    forall k :: 0 <= k < |out| ==> out[k].parentId >= -1
  }

  /** The nodes the threads added carry the printed entries, each exactly once. */
  lemma EntriesArrive(v: C.View, data: Data, out: seq<C.Record>, f: seq<Obj>, consumers: nat, limit: nat,
                      run: seq<P.Action>)
    returns (entries: seq<M.Entry>)
    requires PrintsDump(v, data, out, f) && MetricsOk(data) && FromParents(out)
    requires ParsedBy(f, consumers, limit, run) && C.Distinct(out)
    ensures var root := RootAdded(f, consumers, limit, run);
            && (forall j :: 0 <= j < |H.ChunksOf(f)| ==> H.GoodChunk(H.ChunksOf(f)[j])) &&
               (forall j :: 0 <= j < |root| ==> root[j] < |H.ChunksOf(f)|)
            && entries == EntriesOf(NodesAdded(f, root))
            && H.EachOnce(root, |out|) && AllMirrored(v, data, out, root, NodesAdded(f, root))
    ensures M.DistinctIds(entries) && forall e :: e in entries <==> e in EntriesPrinted(out)
  {
    var root := RootAdded(f, consumers, limit, run);
    assert |f| == |out| && M.PrintedAs(out, EntriesPrinted(out));
    hide *;
    M.PrintedIds(out, EntriesPrinted(out), 0);
    DumpReadable(v, data, out, f);
    AllParsed(f, consumers, limit, run);
    AddedEntries(v, data, f, out, root);
    entries := EntriesOf(NodesAdded(f, root));
    Shuffled(EntriesPrinted(out), root, entries);
  }

  /** Each chunk was added once, and gives the node of its object. */
  lemma AllParsed(f: seq<Obj>, consumers: nat, limit: nat, run: seq<P.Action>)
    requires Readable(f) && ParsedBy(f, consumers, limit, run)
    ensures var root := RootAdded(f, consumers, limit, run);
            && H.EachOnce(root, |f|) && (forall j :: 0 <= j < |root| ==> root[j] < |f|)
            && |H.ChunksOf(f)| == |f| == |Images(f)|
    ensures forall c: nat :: c < |f| ==> H.GoodChunk(H.ChunksOf(f)[c]) && Images(f)[c] == H.NodeOf(H.ChunksOf(f)[c])
  {
    H.SameNodes(f, "context", consumers, limit, run);
    hide P.Run, H.EachOnce;
    H.ChunksGood(f, "context");
    H.EachBelow(RootAdded(f, consumers, limit, run), |f|);
  }

  /** The node mirrors the object of the context, and gives back its id, its parent, its frame and its metrics. */
  ghost predicate Arrived(v: C.View, data: Data, r: C.Record, n: Node)
    requires r.id in v
  {
    && XmlObjects.Mirrors(RecordDom(v, data, r), n)
    && X.TellsNode(n, r.id, r.parentId, v[r.id].key, if r.id in data then Some(data[r.id]) else None)
  }

  /** Every node that was added has all attributes and metrics of one printed context. */
  ghost predicate AllMirrored(v: C.View, data: Data, out: seq<C.Record>, root: seq<nat>, nodes: seq<Node>) {
    && |nodes| == |root|
    && forall j :: 0 <= j < |root| ==>
         root[j] < |out| && out[root[j]].id in v && Arrived(v, data, out[root[j]], nodes[j])
  }

  lemma AddedEntries(v: C.View, data: Data, f: seq<Obj>, out: seq<C.Record>, root: seq<nat>)
    requires PrintsDump(v, data, out, f) && FromParents(out) && |H.ChunksOf(f)| == |f| == |Images(f)|
    requires forall c: nat :: c < |f| ==> H.GoodChunk(H.ChunksOf(f)[c]) && Images(f)[c] == H.NodeOf(H.ChunksOf(f)[c])
    requires forall j :: 0 <= j < |root| ==> root[j] < |f|
    ensures AllMirrored(v, data, out, root, NodesAdded(f, root))
    ensures var entries := EntriesOf(NodesAdded(f, root)); var printed := EntriesPrinted(out);
            |entries| == |root| && |printed| == |f| && forall j :: 0 <= j < |root| ==> entries[j] == printed[root[j]]
  {
    hide H.GoodChunk, H.NodeOf, H.ChunksOf, Images, PrintsDump, FromParents, AllMirrored;
    PickAt(H.NodesOf(H.ChunksOf(f)), root);
    XmlObjects.ImagesAt(f);
    EntriesRead(v, data, f, out, root, NodesAdded(f, root));
  }

  lemma EntriesRead(v: C.View, data: Data, f: seq<Obj>, out: seq<C.Record>, root: seq<nat>, nodes: seq<Node>)
    requires PrintsDump(v, data, out, f) && FromParents(out) && |nodes| == |root|
    requires forall j :: 0 <= j < |root| ==> root[j] < |f| && nodes[j] == Image(f[root[j]])
    ensures AllMirrored(v, data, out, root, nodes)
    ensures var entries := EntriesOf(nodes); var printed := EntriesPrinted(out);
            |entries| == |root| && |printed| == |f| && forall j :: 0 <= j < |root| ==> entries[j] == printed[root[j]]
  {
    hide M.Printed, EntryOf, RecordDom, XmlObjects.Shows, Arrived, Image;
    forall j | 0 <= j < |root|
      ensures EntryOf(nodes[j]) == M.Printed(out[root[j]])
      ensures Arrived(v, data, out[root[j]], nodes[j])
    {
      EntryRead(v, data, f[root[j]], out[root[j]]);
    }
  }

  /** The entries load with the single root 0 into exactly the contexts that have metrics or lie above one, with the
      parents they had, and no cycle. */
  ghost predicate LoadsAs(v: C.View, entries: seq<M.Entry>)
    requires C.TreeOk(v)
  {
    && entries != [] && M.DistinctIds(entries) && (forall k :: 0 <= k < |entries| ==> entries[k].parentId != "")
    && var p := M.AsParents(entries);
       && M.RootsOf(p) == {"0"} && |M.RootsOf(p)| == 1 && M.Acyclic(p, M.Value, |v|)
       && (forall i: nat :: M.Decimal(i) in p <==> i in v && C.Needed(v, i))
       && (forall i: nat :: i in v && i > 0 && C.Needed(v, i) ==> p[M.Decimal(i)] == M.Decimal(v[i].parent))
  }

  lemma Loads(v: C.View, out: seq<C.Record>, printed: seq<M.Entry>, entries: seq<M.Entry>)
    requires C.TreeOk(v) && C.Dumped(v, out) && out != [] && M.PrintedAs(out, printed)
    requires M.DistinctIds(entries) && forall e :: e in entries <==> e in printed
    ensures LoadsAs(v, entries)
  {
    hide C.Dumped, C.Needed, M.PrintedAs, M.DistinctIds, M.AsParents, M.RootsOf, M.Acyclic, M.Decimal, M.Value;
    M.ReloadedDump(v, out, printed, entries);
    M.OrderIrrelevant(entries, printed);
    M.ReloadedAcyclic(v, out, printed);
    forall i: nat | i in v && i > 0 && C.Needed(v, i)
      ensures M.AsParents(printed)[M.Decimal(i)] == M.Decimal(v[i].parent)
    {
      M.ReloadedParent(v, out, printed, i);
    }
    ParentsPrinted(out, printed, entries);
    SomeEntry(entries);
  }

  /** A non-empty dump of any context tree, parsed by any number of threads under any interleaving, is loaded as the
      part of the tree that was dumped. */
  lemma Reloaded(v: C.View, data: Data, out: seq<C.Record>, f: seq<Obj>, consumers: nat, limit: nat, run: seq<P.Action>)
    returns (entries: seq<M.Entry>)
    requires C.TreeOk(v) && C.Dumped(v, out) && out != [] && PrintsDump(v, data, out, f) && MetricsOk(data)
    requires ParsedBy(f, consumers, limit, run)
    ensures var root := RootAdded(f, consumers, limit, run);
            && (forall j :: 0 <= j < |H.ChunksOf(f)| ==> H.GoodChunk(H.ChunksOf(f)[j])) &&
               (forall j :: 0 <= j < |root| ==> root[j] < |H.ChunksOf(f)|)
            && entries == EntriesOf(NodesAdded(f, root))
            && H.EachOnce(root, |out|) && AllMirrored(v, data, out, root, NodesAdded(f, root))
    ensures LoadsAs(v, entries)
  {
    assert C.Distinct(out) && FromParents(out);
    hide *;
    entries := EntriesArrive(v, data, out, f, consumers, limit, run);
    Loads(v, out, EntriesPrinted(out), entries);
  }

  lemma SomeEntry(entries: seq<M.Entry>)
    requires M.RootsOf(M.AsParents(entries)) == {"0"}
    ensures entries != []
  {
    assert "0" in M.RootsOf(M.AsParents(entries));
  }

  lemma ParentsPrinted(out: seq<C.Record>, printed: seq<M.Entry>, entries: seq<M.Entry>)
    requires M.PrintedAs(out, printed) && forall e :: e in entries <==> e in printed
    ensures forall k :: 0 <= k < |entries| ==> entries[k].parentId != ""
  {
    forall k | 0 <= k < |entries| ensures entries[k].parentId != "" {
      assert entries[k] in printed;
      var l :| 0 <= l < |printed| && printed[l] == entries[k];
      if out[l].parentId >= 0 { M.DecimalLength(out[l].parentId); }
    }
  }
}
