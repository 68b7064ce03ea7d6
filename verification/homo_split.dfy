/** Cutting a file into its level-one nodes, and what the threads make of them (offlineprocess/pylib/special_xml.py). */
module HomoSplit {

  import opened Sequences
  import opened Xml
  import P = HomoProtocol

  predicate Occurs(s: string, pat: string, i: nat) {
    i + |pat| <= |s| && s[i..i + |pat|] == pat
  }

  /** Position of the first occurrence, or -1. */
  function Search(s: string, pat: string): (r: int)
    ensures r == -1 ==> forall i: nat :: !Occurs(s, pat, i)
    ensures r != -1 ==> r >= 0 && Occurs(s, pat, r) && forall i: nat :: i < r ==> !Occurs(s, pat, i)
  {
    SearchFrom(s, pat, 0)
  }

  function SearchFrom(s: string, pat: string, from: nat): (r: int)
    requires from <= |s| + 1
    ensures r == -1 ==> forall i: nat :: from <= i ==> !Occurs(s, pat, i)
    ensures r != -1 ==> r >= from && Occurs(s, pat, r) && forall i: nat :: from <= i < r ==> !Occurs(s, pat, i)
    decreases |s| + 1 - from
  {
    if from > |s| then -1 else if Occurs(s, pat, from) then from else SearchFrom(s, pat, from + 1)
  }

  function CloseOf(name: string): string {
    "</" + name + ">"
  }

  datatype Piece = Malformed | Piece(chunk: string, rest: string)

  /** The text must start with the open tag; the chunk ends with the first close tag. */
  function CutOne(s: string, name: string): (r: Piece)
    ensures r.Piece? ==> |r.rest| < |s|
    ensures r.Malformed? <==> !Occurs(s, "<" + name, 0) || forall i: nat :: !Occurs(s, CloseOf(name), i)
    ensures r.Piece? ==>
              && |r.chunk| >= |CloseOf(name)| && r.chunk <= s && r.rest == Strip(s[|r.chunk|..])
              && Occurs(s, CloseOf(name), |r.chunk| - |CloseOf(name)|)
              && forall i: nat :: i < |r.chunk| - |CloseOf(name)| ==> !Occurs(s, CloseOf(name), i)
  {
    if Search(s, "<" + name) != 0 then Malformed
    else
      var e := Search(s, CloseOf(name));
      if e == -1 then Malformed else Piece(s[..e + |CloseOf(name)|], Strip(s[e + |CloseOf(name)|..]))
  }

  /** The chunks in order, and whether the whole text could be cut. */
  function CutAll(s: string, name: string): (seq<string>, bool)
    decreases |s|
  {
    if s == "" then ([], true)
    else
      match CutOne(s, name)
      case Malformed => ([], false)
      case Piece(chunk, rest) => var r := CutAll(rest, name); ([chunk] + r.0, r.1)
  }

  /** The producer's loop. */
  method GenerateLevelOneNodeStr(content: string, name: string) returns (queue: seq<string>, finished: bool)
    ensures (queue, finished) == CutAll(Strip(content), name)
  {
    var inputStr := Strip(content);
    queue := [];
    assert queue + CutAll(inputStr, name).0 == CutAll(inputStr, name).0;
    while |inputStr| > 0
      invariant var r := CutAll(inputStr, name); CutAll(Strip(content), name) == (queue + r.0, r.1)
      decreases |inputStr|
    {
      match CutOne(inputStr, name) {
        case Malformed =>
          assert queue + [] == queue;
          return queue, false;
        case Piece(chunk, rest) =>
          assert queue + ([chunk] + CutAll(rest, name).0) == queue + [chunk] + CutAll(rest, name).0;
          queue := queue + [chunk];
          inputStr := rest;
      }
    }
    assert queue + [] == queue;
    return queue, true;
  }

  // ----- Printed files

  /** The text of one object without its last line break. */
  ghost function Chunk(o: Obj): string {
    var s := XMLStr(o, 0);
    s[..|s| - 1]
  }

  /** The object is of the level-one kind, and the close tag occurs nowhere in its text but at its end. */
  ghost predicate LevelOne(o: Obj, name: string) {
    && ObjOk(o) && o.tag == name
    && forall i: nat :: Occurs(Chunk(o), CloseOf(name), i) ==> i == |Chunk(o)| - |CloseOf(name)|
  }

  ghost predicate AllLevelOne(f: seq<Obj>, name: string) {
    forall k :: 0 <= k < |f| ==> LevelOne(f[k], name)
  }

  ghost function ChunksOf(f: seq<Obj>): seq<string> {
    if f == [] then [] else [Chunk(f[0])] + ChunksOf(f[1..])
  }

  /** What is left to cut. */
  ghost function Remaining(f: seq<Obj>): string {
    if f == [] then "" else if |f| == 1 then Chunk(f[0]) else Chunk(f[0]) + "\n" + Remaining(f[1..])
  }

  lemma ChunkText(o: Obj)
    requires ObjOk(o)
    ensures XMLStr(o, 0) == Chunk(o) + "\n"
    ensures |Chunk(o)| > |CloseOf(o.tag)| && Chunk(o)[|Chunk(o)| - |CloseOf(o.tag)|..] == CloseOf(o.tag)
    ensures Occurs(Chunk(o), "<" + o.tag, 0) && Chunk(o)[0] == '<' && Chunk(o)[|Chunk(o)| - 1] == '>'
  {
    var head := OpenTag(o) + "\n" + XMLStrs(o.children, 2);
    assert Spaces(0) == "";
    assert XMLStr(o, 0) == head + CloseTag(o) + "\n";
    assert Chunk(o) == head + CloseTag(o);
    assert CloseTag(o) == CloseOf(o.tag);
    assert OpenTag(o)[..1 + |o.tag|] == "<" + o.tag;
  }

  lemma {:induction false} PrintedRemaining(f: seq<Obj>, name: string)
    requires AllLevelOne(f, name)
    ensures XMLStrs(f, 0) == if f == [] then "" else Remaining(f) + "\n"
    ensures f != [] ==> Remaining(f) != "" && Remaining(f)[0] == '<' && Remaining(f)[|Remaining(f)| - 1] == '>'
  {
    if f != [] {
      assert ObjOk(f[0]) && AllLevelOne(f[1..], name);
      var c, r, x := Chunk(f[0]), Remaining(f[1..]), XMLStrs(f[1..], 0);
      assert XMLStrs(f, 0) == XMLStr(f[0], 0) + x && Remaining(f) == if |f| == 1 then c else c + "\n" + r;
      assert |f| == 1 <==> f[1..] == [];
      hide *;
      ChunkText(f[0]);
      PrintedRemaining(f[1..], name);
      RemainingText(c, r, x, |f| == 1);
    }
  }

  lemma RemainingText(c: string, r: string, x: string, last: bool)
    requires c != "" && c[0] == '<' && c[|c| - 1] == '>' && x == if last then "" else r + "\n"
    requires !last ==> r != "" && r[|r| - 1] == '>'
    ensures var s := if last then c else c + "\n" + r;
            c + "\n" + x == s + "\n" && s != "" && s[0] == '<' && s[|s| - 1] == '>'
  {
    if last { assert c + "\n" + "" == c + "\n"; } else { Assoc(c + "\n", r, "\n"); }
  }

  /** A text behind a chunk does not change where its close tag is found. */
  lemma FirstClose(c: string, tail: string, pat: string)
    requires |pat| <= |c| && Occurs(c, pat, |c| - |pat|) && forall i: nat :: Occurs(c, pat, i) ==> i == |c| - |pat|
    ensures Search(c + tail, pat) == |c| - |pat|
  {
    var s, e := c + tail, |c| - |pat|;
    assert s[e..e + |pat|] == c[e..e + |pat|];
    assert Occurs(s, pat, e);
    forall i: nat | i < e ensures !Occurs(s, pat, i) {
      assert i + |pat| <= |c| ==> s[i..i + |pat|] == c[i..i + |pat|];
      assert !Occurs(c, pat, i);
    }
  }

  lemma FirstOpen(c: string, tail: string, pat: string)
    requires Occurs(c, pat, 0)
    ensures Search(c + tail, pat) == 0
  {
    assert (c + tail)[0..0 + |pat|] == c[0..0 + |pat|];
    assert Occurs(c + tail, pat, 0);
  }

  lemma RestBehind(f: seq<Obj>, name: string) returns (tail: string)
    requires AllLevelOne(f, name) && f != []
    ensures Remaining(f) == Chunk(f[0]) + tail && Strip(tail) == Remaining(f[1..])
  {
    var c, rest := Chunk(f[0]), Remaining(f[1..]);
    PrintedRemaining(f[1..], name);
    if |f| == 1 {
      tail := "";
      assert c + tail == c && f[1..] == [];
      StripAround("", "", "");
      assert "" + "" + "" == "";
    } else {
      tail := "\n" + rest;
      assert Remaining(f) == c + "\n" + rest;
      assert IsSpace('\n') && !IsSpace('<') && !IsSpace('>');
      hide *;
      Assoc(c, "\n", rest);
      StripAround("\n", rest, "");
      assert "\n" + rest + "" == tail;
    }
  }

  lemma CutFirst(f: seq<Obj>, name: string)
    requires AllLevelOne(f, name) && f != []
    ensures CutOne(Remaining(f), name) == Piece(Chunk(f[0]), Remaining(f[1..]))
  {
    var c, pat := Chunk(f[0]), CloseOf(name);
    ChunkText(f[0]);
    assert LevelOne(f[0], name);
    assert Occurs(c, pat, |c| - |pat|);
    var tail := RestBehind(f, name);
    FirstClose(c, tail, pat);
    FirstOpen(c, tail, "<" + name);
    hide *;
    CutAt(c, tail, name);
  }

  lemma CutAt(c: string, tail: string, name: string)
    requires Search(c + tail, "<" + name) == 0 && Search(c + tail, CloseOf(name)) + |CloseOf(name)| == |c| &&
             Search(c + tail, CloseOf(name)) != -1
    ensures CutOne(c + tail, name) == Piece(c, Strip(tail))
  {
    hide Strip;
    assert (c + tail)[..|c|] == c && (c + tail)[|c|..] == tail;
  }

  lemma {:induction false} CutRemaining(f: seq<Obj>, name: string)
    requires AllLevelOne(f, name)
    ensures CutAll(Remaining(f), name) == (ChunksOf(f), true)
  {
    if f != [] {
      PrintedRemaining(f, name);
      CutFirst(f, name);
      CutRemaining(f[1..], name);
    }
  }

  /** The producer cuts a printed file into exactly the texts of its level-one objects. */
  lemma CutPrinted(f: seq<Obj>, name: string)
    requires AllLevelOne(f, name)
    ensures CutAll(Strip(AfterHeader(HEADER + "\n" + XMLStrs(f, 0))), name) == (ChunksOf(f), true)
  {
    var body := XMLStrs(f, 0);
    hide *;
    CutRemaining(f, name);
    PrintedBody(f, name);
    Assoc(HEADER, "\n", body);
    HeaderStripped("\n" + body);
  }

  lemma PrintedBody(f: seq<Obj>, name: string)
    requires AllLevelOne(f, name)
    ensures Strip("\n" + XMLStrs(f, 0)) == Remaining(f)
  {
    var body := XMLStrs(f, 0);
    assert f == [] ==> Remaining(f) == "";
    assert IsSpace('\n') && !IsSpace('<') && !IsSpace('>') && Blank("\n") && Blank("");
    hide *;
    PrintedRemaining(f, name);
    if f == [] {
      StripAround("\n", "", "");
      assert "\n" + body == "\n" + "" + "";
    } else {
      StripAround("\n", Remaining(f), "\n");
      Assoc("\n", Remaining(f), "\n");
    }
  }

  /** A consumer gets the object of its chunk back, if no value contains `=` and nothing looks like a header. */
  lemma ParsedChunk(o: Obj)
    requires ObjOk(o) && Clean([o]) && Find(Chunk(o), '<', '?', 0) == -1
    ensures ParseText(Chunk(o)) == Parsed(Node("root", map[], [Image(o)]))
  {
    OnlyOne(o);
    assert ParseText(Chunk(o)) == Drive(START, Chunk(o)) && START.stack != [];
    hide *;
    ChunkText(o);
    DriveText([o]);
    SameSegment(o);
    SameDrive(START, Chunk(o), XMLStr(o, 0));
  }

  lemma SameSegment(o: Obj)
    requires ObjOk(o)
    ensures NextSegment(Chunk(o)) == NextSegment(XMLStr(o, 0))
  {
    ChunkText(o);
    hide XMLStr, Chunk, FirstSegment;
    StripAround("", Chunk(o), "");
    StripAround("", Chunk(o), "\n");
    assert "" + Chunk(o) + "" == Chunk(o);
    assert "" + Chunk(o) + "\n" == Chunk(o) + "\n";
  }

  // ----- The whole

  predicate GoodChunk(s: string) {
    ParseText(s).Parsed? && |ParseText(s).root.children| == 1
  }

  /** The node a consumer adds for a chunk. */
  function NodeOf(s: string): Node
    requires GoodChunk(s)
  {
    ParseText(s).root.children[0]
  }

  function NodesOf(chunks: seq<string>): (r: seq<Node>)
    requires forall j :: 0 <= j < |chunks| ==> GoodChunk(chunks[j])
    ensures |r| == |chunks| && forall j :: 0 <= j < |r| ==> r[j] == NodeOf(chunks[j])
  {
    seq(|chunks|, j requires 0 <= j < |chunks| => NodeOf(chunks[j]))
  }

  /** The elements of `s` in the given order. */
  ghost function Pick<T>(s: seq<T>, order: seq<nat>): seq<T>
    requires forall j :: 0 <= j < |order| ==> order[j] < |s|
  {
    if order == [] then [] else Pick(s, order[..|order| - 1]) + [s[order[|order| - 1]]]
  }

  /** The threads working on a text. */
  ghost function EnvOf(text: string, name: string, consumers: nat, limit: nat): P.Env {
    var cut := CutAll(Strip(AfterHeader(text)), name);
    P.Env(if cut.1 then |cut.0| else |cut.0| + 1, |cut.0|, (c: nat) => c < |cut.0| && GoodChunk(cut.0[c]),
          consumers + 1, limit)
  }

  ghost predicate EachOnce(root: seq<nat>, n: nat) {
    (forall c: nat :: c in root <==> c < n) && forall i, j :: 0 <= i < j < |root| ==> root[i] != root[j]
  }

  lemma SplitLast(order: seq<nat>, i: nat)
    requires i < |order| - 1
    ensures var n := |order| - 1;
            order[..i] + order[i + 1..] == order[..n][..i] + order[..n][i + 1..] + [order[n]] &&
              order == order[..n] + [order[n]]
  {
  }

  lemma {:induction false} PickWithout<T>(s: seq<T>, order: seq<nat>, i: nat)
    requires (forall j :: 0 <= j < |order| ==> order[j] < |s|) && i < |order|
    ensures var rest := order[..i] + order[i + 1..];
            && (forall j :: 0 <= j < |rest| ==> rest[j] < |s|)
            && multiset(Pick(s, order)) == multiset(Pick(s, rest)) + multiset{s[order[i]]}
  {
    var n := |order| - 1;
    var rest := order[..i] + order[i + 1..];
    if i == n {
      assert rest == order[..n];
    } else {
      var init := order[..n][..i] + order[..n][i + 1..];
      SplitLast(order, i);
      PickWithout(s, order[..n], i);
      PickSnoc(s, init, order[n]);
      PickSnoc(s, order[..n], order[n]);
      hide Pick;
    }
  }

  lemma PickSnoc<T>(s: seq<T>, order: seq<nat>, x: nat)
    requires (forall j :: 0 <= j < |order| ==> order[j] < |s|) && x < |s|
    ensures Pick(s, order + [x]) == Pick(s, order) + [s[x]]
  {
    assert (order + [x])[..|order|] == order;
  }

  lemma WithoutLast(order: seq<nat>, n: nat, i: nat)
    requires EachOnce(order, n + 1) && i < |order| && order[i] == n
    ensures EachOnce(order[..i] + order[i + 1..], n)
  {
    var rest := order[..i] + order[i + 1..];
    forall c: nat ensures c in rest <==> c < n {
      if c in order && c != n {
        var j :| 0 <= j < |order| && order[j] == c;
        assert c == if j < i then rest[j] else rest[j - 1];
      }
    }
  }

  lemma {:induction false} PickFewer<T>(s: seq<T>, t: T, order: seq<nat>)
    requires forall j :: 0 <= j < |order| ==> order[j] < |s|
    ensures Pick(s + [t], order) == Pick(s, order)
  {
    if order != [] { PickFewer(s, t, order[..|order| - 1]); }
  }

  lemma EachBelow(order: seq<nat>, n: nat)
    requires EachOnce(order, n)
    ensures forall j :: 0 <= j < |order| ==> order[j] < n
    ensures order == [] || order[0] < n
  {
    forall j | 0 <= j < |order| ensures order[j] < n { assert order[j] in order; }
  }

  lemma {:induction false} PickAll<T>(s: seq<T>, order: seq<nat>)
    requires EachOnce(order, |s|)
    ensures forall j :: 0 <= j < |order| ==> order[j] < |s|
    ensures multiset(Pick(s, order)) == multiset(s)
  {
    hide *;
    if s == [] {
      PickNone(s, order);
    } else {
      var t, x := s[..|s| - 1], s[|s| - 1];
      assert t + [x] == s;
      var rest := PickLast(t, x, order);
      PickAll(t, rest);
    }
  }

  lemma PickNone<T>(s: seq<T>, order: seq<nat>)
    requires s == [] && EachOnce(order, |s|)
    ensures order == [] && Pick(s, order) == s
  {
    EachBelow(order, 0);
  }

  /** The last element is picked once; the others are picked from the rest. */
  lemma PickLast<T>(s: seq<T>, x: T, order: seq<nat>) returns (rest: seq<nat>)
    requires EachOnce(order, |s| + 1)
    ensures EachOnce(rest, |s|)
    ensures (forall j :: 0 <= j < |order| ==> order[j] < |s| + 1) && forall j :: 0 <= j < |rest| ==> rest[j] < |s|
    ensures multiset(Pick(s + [x], order)) == multiset(Pick(s, rest)) + multiset{x}
  {
    assert |s| in order;
    hide *;
    var i :| 0 <= i < |order| && order[i] == |s|;
    EachBelow(order, |s| + 1);
    WithoutLast(order, |s|, i);
    PickWithout(s + [x], order, i);
    rest := order[..i] + order[i + 1..];
    EachBelow(rest, |s|);
    PickFewer(s, x, rest);
  }

  /** For a printed file whose level-one close tag occurs only at the ends of its objects: when the
      master returns, under any interleaving and any worker limit, the children of the root are the
      nodes a single parser gets from the whole text, in some order. */
  lemma SameNodes(f: seq<Obj>, name: string, consumers: nat, limit: nat, run: seq<P.Action>)
    requires AllLevelOne(f, name) && Clean(f) && (forall k :: 0 <= k < |f| ==> Find(Chunk(f[k]), '<', '?', 0) == -1) &&
             consumers > 0
    requires var e := EnvOf(HEADER + "\n" + XMLStrs(f, 0), name, consumers, limit);
             P.Run(e, run).Some? && P.Run(e, run).value.master == P.Done
    ensures var e := EnvOf(HEADER + "\n" + XMLStrs(f, 0), name, consumers, limit);
            var root := P.Run(e, run).value.root;
            && (forall j :: 0 <= j < |ChunksOf(f)| ==> GoodChunk(ChunksOf(f)[j]))
            && |ChunksOf(f)| == |f| && EachOnce(root, |f|)
            && (forall j :: 0 <= j < |root| ==> root[j] < |ChunksOf(f)|)
            && ParseText(HEADER + "\n" + XMLStrs(f, 0)).Parsed?
            && multiset(Pick(NodesOf(ChunksOf(f)), root)) ==
               multiset(ParseText(HEADER + "\n" + XMLStrs(f, 0)).root.children)
  {
    var e := EnvOf(HEADER + "\n" + XMLStrs(f, 0), name, consumers, limit);
    var root := P.Run(e, run).value.root;
    CutPrinted(f, name);
    ChunksGood(f, name);
    assert e.chunks == |f| && e.tasks > 1;
    hide AllLevelOne, Clean, Find, Chunk, XMLStrs, GoodChunk, NodeOf, P.Run, CutAll, Strip, ParseText, EnvOf;
    P.ExactlyOnce(e, run);
    assert EachOnce(root, |f|);
    hide EachOnce;
    RoundTrip(f);
    assert NodesOf(ChunksOf(f)) == Images(f);
    PickAll(Images(f), root);
  }

  lemma {:induction false} ChunksGood(f: seq<Obj>, name: string)
    requires AllLevelOne(f, name) && Clean(f) && forall k :: 0 <= k < |f| ==> Find(Chunk(f[k]), '<', '?', 0) == -1
    ensures ObjsOk(f) && |ChunksOf(f)| == |Images(f)| == |f|
    ensures forall c: nat :: c < |f| ==> GoodChunk(ChunksOf(f)[c]) && Images(f)[c] == NodeOf(ChunksOf(f)[c])
  {
    if f != [] {
      assert Clean([f[0]]) && Clean(f[1..]) && LevelOne(f[0], name) && ObjOk(f[0]) && AllLevelOne(f[1..], name);
      assert ObjsOk(f[1..]) ==> ObjsOk(f);
      assert ChunksOf(f) == [Chunk(f[0])] + ChunksOf(f[1..]) && Images(f) == [Image(f[0])] + Images(f[1..]);
      assert forall k :: 0 <= k < |f[1..]| ==> f[1..][k] == f[k + 1];
      hide *;
      FirstChunkGood(f[0]);
      ChunksGood(f[1..], name);
      GoodFrom(Chunk(f[0]), ChunksOf(f[1..]), Image(f[0]), Images(f[1..]));
    }
  }

  lemma {:induction false} FirstChunkGood(o: Obj)
    requires ObjOk(o) && Clean([o]) && Find(Chunk(o), '<', '?', 0) == -1
    ensures GoodChunk(Chunk(o)) && Image(o) == NodeOf(Chunk(o))
  {
    ParsedChunk(o);
    hide Chunk, ParseText, Clean, Find, Image, ObjOk;
  }

  lemma GoodFrom(c: string, cs: seq<string>, n: Node, ns: seq<Node>)
    requires GoodChunk(c) && n == NodeOf(c) && |cs| == |ns|
    requires forall k: nat :: k < |cs| ==> GoodChunk(cs[k]) && ns[k] == NodeOf(cs[k])
    ensures forall k: nat :: k < |cs| + 1 ==> GoodChunk(([c] + cs)[k]) && ([n] + ns)[k] == NodeOf(([c] + cs)[k])
  {
    hide GoodChunk, NodeOf;
    forall k: nat | k < |cs| + 1 ensures GoodChunk(([c] + cs)[k]) && ([n] + ns)[k] == NodeOf(([c] + cs)[k]) {
      assert ([c] + cs)[k] == if k == 0 then c else cs[k - 1];
      assert ([n] + ns)[k] == if k == 0 then n else ns[k - 1];
    }
  }
}
