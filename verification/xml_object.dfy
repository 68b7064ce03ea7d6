/** The profiler's XML objects and their printing (src/profiler/xml.cpp, src/profiler/xml.h). */
module XmlObjects {

  import opened Sequences
  import opened Xml

  // ----- Iteration by ascending id

  ghost predicate IsAscending(ids: seq<nat>, s: set<nat>) {
    (forall k, l :: 0 <= k < l < |ids| ==> ids[k] < ids[l]) && forall i :: i in s <==> i in ids
  }

  lemma AscendingSnoc(ids: seq<nat>, s: set<nat>, m: nat)
    requires IsAscending(ids, s) && forall i :: i in ids ==> i < m
    ensures IsAscending(ids + [m], s + {m})
  {
    forall k | 0 <= k < |ids| ensures ids[k] < m {
      assert ids[k] in ids;
    }
  }

  lemma NextAscending(ids: seq<nat>, s: set<nat>, todo: set<nat>, m: nat)
    requires todo <= s && m in todo && IsAscending(ids, s - todo)
    requires (forall j :: j in todo ==> m <= j) && forall i, j :: i in ids && j in todo ==> i < j
    ensures IsAscending(ids + [m], s - (todo - {m}))
    ensures forall i, j :: i in ids + [m] && j in todo - {m} ==> i < j
  {
    AscendingSnoc(ids, s - todo, m);
    assert s - (todo - {m}) == s - todo + {m};
  }

  method Ascending(s: set<nat>) returns (ids: seq<nat>)
    ensures IsAscending(ids, s)
    ensures forall k :: 0 <= k < |ids| ==> ids[k] in s
  {
    ids := [];
    var todo := s;
    assert IsAscending(ids, s - todo);
    hide *;
    while todo != {}
      invariant todo <= s && IsAscending(ids, s - todo)
      invariant forall i, j :: i in ids && j in todo ==> i < j
    {
      var i :| i in todo;
      HasLeast(todo, i);
      var m :| m in todo && forall j :: j in todo ==> m <= j;
      NextAscending(ids, s, todo, m);
      ids := ids + [m];
      todo := todo - {m};
    }
    assert s - todo == s;
    AscendingMembers(ids, s);
  }

  lemma AscendingMembers(ids: seq<nat>, s: set<nat>)
    requires IsAscending(ids, s)
    ensures forall k :: 0 <= k < |ids| ==> ids[k] in s
  {
    assert forall k :: 0 <= k < |ids| ==> ids[k] in ids;
  }

  lemma {:induction false} HasLeast(s: set<nat>, i: nat)
    requires i in s
    ensures exists m :: m in s && forall j :: j in s ==> m <= j
    decreases i
  {
    if j :| j in s && j < i { HasLeast(s, j); }
  }

  // ----- Printed texts grow at their end

  lemma {:induction false} AttrTextSnoc(attrs: seq<Attr>, a: Attr)
    ensures AttrText(attrs + [a]) == AttrText(attrs) + (" " + a.key + "=" + Quoted(a.value))
  {
    if attrs == [] {
      assert attrs + [a] == [a];
    } else {
      assert (attrs + [a])[1..] == attrs[1..] + [a];
      AttrTextSnoc(attrs[1..], a);
    }
  }

  lemma {:induction false} XMLStrsSnoc(s: seq<Obj>, o: Obj, indent: nat)
    ensures XMLStrs(s + [o], indent) == XMLStrs(s, indent) + XMLStr(o, indent)
  {
    if s == [] {
      assert s + [o] == [o];
    } else {
      assert (s + [o])[1..] == s[1..] + [o];
      XMLStrsSnoc(s[1..], o, indent);
    }
  }

  /** The attributes in some order of iteration; values are stored quoted. */
  ghost predicate ListsAttrs(attrs: seq<Attr>, m: map<string, string>, keys: set<string>) {
    && (forall k, l :: 0 <= k < l < |attrs| ==> attrs[k].key != attrs[l].key)
    && (forall k :: 0 <= k < |attrs| ==>
       attrs[k].key in m && m[attrs[k].key] == Quoted(attrs[k].value) && attrs[k].key in keys)
    && (forall key :: key in keys ==> exists k :: 0 <= k < |attrs| && attrs[k].key == key)
  }

  lemma ListsAttrsSnoc(attrs: seq<Attr>, m: map<string, string>, keys: set<string>, a: Attr)
    requires ListsAttrs(attrs, m, keys) && a.key !in keys && a.key in m && m[a.key] == Quoted(a.value)
    ensures ListsAttrs(attrs + [a], m, keys + {a.key})
  {
    var attrs' := attrs + [a];
    forall key | key in keys + {a.key} ensures exists k :: 0 <= k < |attrs'| && attrs'[k].key == key {
      if key == a.key {
        assert attrs'[|attrs|].key == key;
      } else {
        var k :| 0 <= k < |attrs| && attrs[k].key == key;
        assert attrs'[k].key == key;
      }
    }
  }

  lemma NextAttr(attrs: seq<Attr>, m: map<string, string>, keys: set<string>, key: string, head: string)
    returns (a: Attr)
    requires keys <= m.Keys && key in keys && ListsAttrs(attrs, m, m.Keys - keys)
    requires |m[key]| >= 2 && m[key] == Quoted(Inner(m[key], 1))
    ensures ListsAttrs(attrs + [a], m, m.Keys - (keys - {key}))
    ensures head + AttrText(attrs) + (" " + key + "=" + m[key]) == head + AttrText(attrs + [a])
  {
    a := Attr(key, Inner(m[key], 1));
    assert m[key] == Quoted(a.value);
    hide *;
    ListsAttrsSnoc(attrs, m, m.Keys - keys, a);
    AttrTextSnoc(attrs, a);
    assert m.Keys - (keys - {key}) == m.Keys - keys + {key};
    Assoc(head, AttrText(attrs), " " + key + "=" + m[key]);
  }

  /** The value of an object and everything below it. */
  datatype Dom = Dom(tag: string, attrs: map<string, string>, children: map<nat, Dom>)

  /** `o` is the value in one order of iteration over its attributes; children come by ascending id. */
  ghost predicate Shows(d: Dom, o: Obj)
    decreases d
  {
    && o.tag == d.tag && ListsAttrs(o.attrs, d.attrs, d.attrs.Keys)
    && exists ids :: IsAscending(ids, d.children.Keys) && |ids| == |o.children| && ShowsChildren(d, ids, o.children)
  }

  /** `s` are the children with the first `|s|` of these ids. */
  ghost predicate ShowsChildren(d: Dom, ids: seq<nat>, s: seq<Obj>)
    decreases d, 0
  {
    |s| <= |ids| && forall k :: 0 <= k < |s| ==> ids[k] in d.children && Shows(d.children[ids[k]], s[k])
  }

  lemma ShownSnoc(d: Dom, ids: seq<nat>, s: seq<Obj>, o: Obj)
    requires ShowsChildren(d, ids, s) && |s| < |ids| && ids[|s|] in d.children && Shows(d.children[ids[|s|]], o)
    ensures ShowsChildren(d, ids, s + [o])
  {
    hide Shows;
    forall k | 0 <= k < |s + [o]| ensures ids[k] in d.children && Shows(d.children[ids[k]], (s + [o])[k]) {
      assert (s + [o])[k] == if k < |s| then s[k] else o;
    }
  }

  lemma {:induction false} AttrMapOf(attrs: seq<Attr>, key: string)
    requires forall k, l :: 0 <= k < l < |attrs| ==> attrs[k].key != attrs[l].key
    ensures key in AttrMap(attrs) <==> exists k :: 0 <= k < |attrs| && attrs[k].key == key
    ensures forall k :: 0 <= k < |attrs| && attrs[k].key == key ==>
            key in AttrMap(attrs) && AttrMap(attrs)[key] == attrs[k].value
  {
    if attrs != [] {
      AttrMapOf(attrs[..|attrs| - 1], key);
    }
  }

  /** Whatever the order of iteration, reading the printed form back gives the attributes that were added. */
  lemma ReadBack(d: Dom, o: Obj)
    requires Shows(d, o)
    ensures Image(o).name == d.tag && Image(o).attrs.Keys == d.attrs.Keys
    ensures forall key :: key in d.attrs ==> d.attrs[key] == Quoted(Image(o).attrs[key])
  {
    forall key ensures key in AttrMap(o.attrs) <==> key in d.attrs {
      AttrMapOf(o.attrs, key);
    }
    forall key | key in d.attrs ensures d.attrs[key] == Quoted(AttrMap(o.attrs)[key]) {
      AttrMapOf(o.attrs, key);
      var k :| 0 <= k < |o.attrs| && o.attrs[k].key == key;
    }
  }

  // ----- From an object to what is parsed

  /** The node that was parsed has the object's tag and attributes, and nodes for its children by ascending id. */
  ghost predicate Mirrors(d: Dom, n: Node)
    decreases d
  {
    && n.name == d.tag && n.attrs.Keys == d.attrs.Keys &&
       (forall key :: key in d.attrs ==> d.attrs[key] == Quoted(n.attrs[key]))
    && exists ids :: IsAscending(ids, d.children.Keys) && |ids| == |n.children| && MirrorsChildren(d, ids, n.children)
  }

  ghost predicate MirrorsChildren(d: Dom, ids: seq<nat>, s: seq<Node>)
    decreases d, 0
  {
    |s| <= |ids| && forall k :: 0 <= k < |s| ==> ids[k] in d.children && Mirrors(d.children[ids[k]], s[k])
  }

  lemma {:induction false} ImagesAt(s: seq<Obj>)
    ensures |Images(s)| == |s| && forall k :: 0 <= k < |s| ==> Images(s)[k] == Image(s[k])
  {
    if s != [] {
      ImagesAt(s[1..]);
      assert forall k :: 0 < k < |s| ==> s[k] == s[1..][k - 1];
    }
  }

  lemma {:induction false} ShownMirrors(d: Dom, o: Obj)
    requires Shows(d, o)
    ensures Mirrors(d, Image(o))
    decreases d
  {
    ReadBack(d, o);
    ImagesAt(o.children);
    var ids :| IsAscending(ids, d.children.Keys) && |ids| == |o.children| && ShowsChildren(d, ids, o.children);
    var s := Images(o.children);
    forall k | 0 <= k < |s| ensures ids[k] in d.children && Mirrors(d.children[ids[k]], s[k]) {
      ShownMirrors(d.children[ids[k]], o.children[k]);
    }
    assert MirrorsChildren(d, ids, s);
  }

  /** Tags and keys without blanks, quotes and `>`, values without double quotes. */
  ghost predicate Printable(d: Dom)
    decreases d
  {
    && d.tag != "" && d.tag[0] != '/' && Plain(d.tag) && '>' !in d.tag
    && (forall key :: key in d.attrs ==> Plain(key) && '>' !in key && '=' !in key && '"' !in Inner(d.attrs[key], 1))
    && forall id :: id in d.children ==> Printable(d.children[id])
  }

  /** No value contains `=`. */
  ghost predicate WithoutEquals(d: Dom)
    decreases d
  {
    AttrsWithoutEquals(d) && forall id :: id in d.children ==> WithoutEquals(d.children[id])
  }

  ghost predicate AttrsWithoutEquals(d: Dom) {
    forall key :: key in d.attrs ==> '=' !in Inner(d.attrs[key], 1)
  }

  lemma Unquoted(v: string)
    ensures Inner(Quoted(v), 1) == v
  {
  }

  lemma AttrsOf(d: Dom, o: Obj)
    requires Shows(d, o)
    ensures forall k :: 0 <= k < |o.attrs| ==>
            o.attrs[k].key in d.attrs && Inner(d.attrs[o.attrs[k].key], 1) == o.attrs[k].value
    ensures forall key :: key in d.attrs ==> exists k :: 0 <= k < |o.attrs| && o.attrs[k].key == key
  {
    forall k | 0 <= k < |o.attrs|
      ensures Inner(Quoted(o.attrs[k].value), 1) == o.attrs[k].value { Unquoted(o.attrs[k].value); }
  }

  /** Every child is listed. */
  lemma ChildListed(d: Dom, ids: seq<nat>, id: nat) returns (k: nat)
    requires IsAscending(ids, d.children.Keys) && id in d.children
    ensures k < |ids| && ids[k] == id
  {
    k :| k < |ids| && ids[k] == id;
  }

  lemma {:induction false} ShownOk(d: Dom, o: Obj)
    requires Shows(d, o) && Printable(d)
    ensures ObjOk(o)
    decreases d
  {
    AttrsOf(d, o);
    var ids :| IsAscending(ids, d.children.Keys) && |ids| == |o.children| && ShowsChildren(d, ids, o.children);
    forall k | 0 <= k < |o.children| ensures ObjOk(o.children[k]) {
      ShownOk(d.children[ids[k]], o.children[k]);
    }
  }

  lemma AttrsClean(d: Dom, o: Obj)
    requires Shows(d, o)
    ensures NoEquals(o.attrs) <==> AttrsWithoutEquals(d)
  {
    AttrsOf(d, o);
    hide Shows;
  }

  ghost predicate CleanObj(o: Obj) {
    NoEquals(o.attrs) && Clean(o.children)
  }

  lemma CleanEach(s: seq<Obj>)
    ensures Clean(s) <==> forall k :: 0 <= k < |s| ==> CleanObj(s[k])
  {
  }

  lemma ChildrenClean(d: Dom, ids: seq<nat>, s: seq<Obj>)
    requires IsAscending(ids, d.children.Keys) && |ids| == |s|
    requires forall k :: 0 <= k < |s| ==>
             ids[k] in d.children && (CleanObj(s[k]) <==> WithoutEquals(d.children[ids[k]]))
    ensures Clean(s) <==> forall id :: id in d.children ==> WithoutEquals(d.children[id])
  {
    CleanEach(s);
    hide CleanObj, Clean, WithoutEquals;
    if Clean(s) {
      forall id | id in d.children ensures WithoutEquals(d.children[id]) {
        var k := ChildListed(d, ids, id);
        assert CleanObj(s[k]);
      }
    }
  }

  lemma {:induction false} ShownClean(d: Dom, o: Obj)
    requires Shows(d, o)
    ensures CleanObj(o) <==> WithoutEquals(d)
    decreases d
  {
    AttrsClean(d, o);
    var ids :| IsAscending(ids, d.children.Keys) && |ids| == |o.children| && ShowsChildren(d, ids, o.children);
    assert forall k :: 0 <= k < |o.children| ==> ids[k] in d.children && Shows(d.children[ids[k]], o.children[k]);
    assert CleanObj(o) <==> NoEquals(o.attrs) && Clean(o.children);
    assert WithoutEquals(d) <==> AttrsWithoutEquals(d) && forall id :: id in d.children ==>
      WithoutEquals(d.children[id]);
    hide *;
    forall k | 0 <= k < |o.children|
      ensures ids[k] in d.children && (CleanObj(o.children[k]) <==> WithoutEquals(d.children[ids[k]])) {
      ShownClean(d.children[ids[k]], o.children[k]);
    }
    ChildrenClean(d, ids, o.children);
  }

  /** The text of a printable object, behind the header, is read back as one node that mirrors the object exactly if no
      value contains `=`, and is rejected otherwise. */
  lemma TextReadBack(d: Dom, text: string)
    requires Printable(d) && exists o :: Shows(d, o) && text == XMLStr(o, 0)
    ensures var r := ParseText(HEADER + "\n" + text);
            if WithoutEquals(d) then exists n :: r == Parsed(Node("root", map[], [n])) && Mirrors(d, n) else r == Failed
  {
    var o :| Shows(d, o) && text == XMLStr(o, 0);
    ShownOk(d, o);
    ShownClean(d, o);
    ShownMirrors(d, o);
    OneObj(o, text);
    RoundTrip([o]);
  }

  lemma OneObj(o: Obj, text: string)
    requires ObjOk(o) && text == XMLStr(o, 0)
    ensures ObjsOk([o]) && XMLStrs([o], 0) == text && Images([o]) == [Image(o)]
    ensures Clean([o]) <==> CleanObj(o)
  {
    OnlyOne(o);
  }

  class XMLObj {
    const tagName: string
    var attrMap: map<string, string>
    var childrenMap: map<nat, XMLObj>
    ghost var repr: set<XMLObj>

    ghost predicate Valid()
      reads this, repr
      decreases repr, 1
    {
      Quoting() && Owning()
    }

    ghost predicate Quoting()
      reads this
    {
      forall key :: key in attrMap ==> |attrMap[key]| >= 2 && attrMap[key] == Quoted(Inner(attrMap[key], 1))
    }

    ghost predicate Owning()
      reads this, repr
      decreases repr, 0
    {
      && this in repr
      && forall id :: id in childrenMap ==>
           childrenMap[id] in repr && childrenMap[id].repr <= repr - {this} && childrenMap[id].Valid()
    }

    ghost function Value(): Dom
      requires Valid()
      reads this, repr
      decreases repr
    {
      assert Owning();
      Dom(tagName, attrMap, map id | id in childrenMap :: childrenMap[id].Value())
    }

    constructor (tagName: string)
      ensures Valid() && fresh(repr) && this.tagName == tagName && attrMap == map[] && childrenMap == map[]
      ensures Value() == Dom(tagName, map[], map[])
    {
      this.tagName := tagName;
      attrMap, childrenMap, repr := map[], map[], {this};
    }

    method AddAttr(key: string, value: string)
      requires Valid()
      modifies this`attrMap
      ensures Valid() && attrMap == old(attrMap)[key := Quoted(value)]
      ensures Value() == old(Value()).(attrs := old(Value()).attrs[key := Quoted(value)])
    {
      ghost var d := Value();
      Unfolded(d);
      assert |Quoted(value)| >= 2 && Quoted(value) == Quoted(Inner(Quoted(value), 1)) by { Unquoted(value); }
      hide Valid, Value, Quoted, Inner;
      attrMap := attrMap[key := Quoted(value)];
      Folded(d.(attrs := attrMap));
    }

    /** An earlier child with the same id is replaced. */
    method AddChild(id: nat, child: XMLObj)
      requires Valid() && child.Valid() && this !in child.repr
      modifies this`childrenMap, this`repr
      ensures Valid() && childrenMap == old(childrenMap)[id := child] && repr == old(repr + child.repr)
      ensures Value() == old(Value().(children := Value().children[id := child.Value()]))
    {
      ghost var d, c := Value(), child.Value();
      Unfolded(d);
      child.Unfolded(c);
      hide Valid, Value, Quoted, Inner;
      ghost var m, r, s := childrenMap, repr, child.repr;
      childrenMap := childrenMap[id := child];
      repr := repr + child.repr;
      forall i | i in childrenMap
        ensures childrenMap[i] in repr && childrenMap[i].repr <= repr - {this} && childrenMap[i].Valid()
        ensures childrenMap[i].Value() == d.children[id := c][i]
      {
        var o := childrenMap[i];
        assert if i == id then o == child && o.repr == s else o == m[i] && o.repr <= r - {this};
      }
      hide XMLObj.Owning;
      Folded(d.(children := d.children[id := c]));
    }

    lemma Unfolded(d: Dom)
      requires Valid() && d == Value()
      ensures Quoting() && Owning() && d.tag == tagName && d.attrs == attrMap && d.children.Keys == childrenMap.Keys
      ensures forall id :: id in childrenMap ==> childrenMap[id].Value() == d.children[id]
    {
    }

    lemma Folded(d: Dom)
      requires Quoting() && Owning() && d.tag == tagName && d.attrs == attrMap && d.children.Keys == childrenMap.Keys
      requires forall id :: id in childrenMap ==> childrenMap[id].Value() == d.children[id]
      ensures Valid() && Value() == d
    {
    }

    /** The open tag, without its end. */
    method OpenText(indent: nat, ghost d: Dom) returns (os: string, ghost attrs: seq<Attr>)
      requires Valid() && d == Value()
      ensures Valid() && d == Value()
      ensures ListsAttrs(attrs, d.attrs, d.attrs.Keys) && d.tag == tagName &&
              os == Spaces(indent) + "<" + tagName + AttrText(attrs)
    {
      os := Spaces(indent) + "<" + tagName;
      attrs := [];
      AttrsQuoted();
      ghost var head := os;
      assert os == head + AttrText(attrs);
      var keys := attrMap.Keys;
      while keys != {}
        invariant Valid() && d == Value()
        invariant keys <= attrMap.Keys && ListsAttrs(attrs, attrMap, attrMap.Keys - keys)
        invariant os == head + AttrText(attrs)
      {
        hide *;
        var key :| key in keys;
        AttrsQuoted();
        ghost var a := NextAttr(attrs, attrMap, keys, key, head);
        keys := keys - {key};
        os := os + (" " + key + "=" + attrMap[key]);
        attrs := attrs + [a];
      }
      assert attrMap.Keys - keys == attrMap.Keys;
    }

    method NextChild(ids: seq<nat>, n: nat, ghost s: seq<Obj>, indent: nat, ghost d: Dom)
      returns (text: string, ghost c: Obj)
      requires Valid() && d == Value() && n == |s| < |ids| && ids[n] in childrenMap && ShowsChildren(d, ids, s)
      ensures Valid() && d == Value() && ShowsChildren(d, ids, s + [c]) && text == XMLStr(c, indent)
      decreases repr, 0
    {
      hide *;
      ChildValid(ids[n]);
      text := childrenMap[ids[n]].GetXMLStr(indent);
      c :| Shows(childrenMap[ids[n]].Value(), c) && text == XMLStr(c, indent);
      ShownSnoc(d, ids, s, c);
    }

    method ChildrenText(ids: seq<nat>, indent: nat, ghost d: Dom) returns (os: string, ghost children: seq<Obj>)
      requires Valid() && d == Value() && forall k :: 0 <= k < |ids| ==> ids[k] in childrenMap
      ensures Valid() && d == Value()
      ensures |children| == |ids| && ShowsChildren(d, ids, children) && os == XMLStrs(children, indent)
      decreases repr, 1
    {
      os := "";
      children := [];
      assert ShowsChildren(d, ids, children) && XMLStrs(children, indent) == os;
      hide *;
      for n := 0 to |ids|
        invariant Valid() && d == Value()
        invariant |children| == n && ShowsChildren(d, ids, children) && os == XMLStrs(children, indent)
      {
        var text, c := NextChild(ids, n, children, indent, d);
        XMLStrsSnoc(children, c, indent);
        os := os + text;
        children := children + [c];
      }
    }

    lemma ChildValid(id: nat)
      requires Valid() && id in childrenMap
      ensures childrenMap[id].Valid() && childrenMap[id].repr < repr
      ensures id in Value().children && Value().children[id] == childrenMap[id].Value()
    {
    }

    /** The text is the printed form of the object in some order of its attributes. */
    method GetXMLStr(indent: nat) returns (r: string)
      requires Valid()
      ensures exists o :: Shows(Value(), o) && r == XMLStr(o, indent)
      decreases repr, 2
    {
      ghost var d := Value();
      hide *;
      var open, attrs := OpenText(indent, d);
      var ids := Ascending(childrenMap.Keys);
      assert Valid() && d == Value();
      AttrsQuoted();
      var inner, children := ChildrenText(ids, indent + 2, d);
      ghost var o := Obj(tagName, attrs, children);
      r := open + ">\n" + inner + Spaces(indent) + "</" + tagName + ">\n";
      ShownObj(d, o, ids);
      PrintedObj(o, indent, open, inner);
    }

    lemma AttrsQuoted()
      requires Valid()
      ensures forall key :: key in attrMap ==> |attrMap[key]| >= 2 && attrMap[key] == Quoted(Inner(attrMap[key], 1))
      ensures Value().tag == tagName && Value().attrs == attrMap && Value().children.Keys == childrenMap.Keys
    {
    }
  }

  lemma ShownObj(d: Dom, o: Obj, ids: seq<nat>)
    requires o.tag == d.tag && ListsAttrs(o.attrs, d.attrs, d.attrs.Keys)
    requires IsAscending(ids, d.children.Keys) && |ids| == |o.children| && ShowsChildren(d, ids, o.children)
    ensures Shows(d, o)
  {
  }

  lemma PrintedObj(o: Obj, indent: nat, open: string, inner: string)
    requires open == Spaces(indent) + "<" + o.tag + AttrText(o.attrs) && inner == XMLStrs(o.children, indent + 2)
    ensures open + ">\n" + inner + Spaces(indent) + "</" + o.tag + ">\n" == XMLStr(o, indent)
  {
    var g, n := Spaces(indent), "\n";
    assert open + ">\n" == g + OpenTag(o) + n;
    assert g + CloseTag(o) + n == g + "</" + o.tag + ">\n";
    assert XMLStr(o, indent) == g + OpenTag(o) + n + inner + g + CloseTag(o) + n;
    hide *;
    Assoc4(open + ">\n" + inner, g, "</" + o.tag, ">\n");
    Assoc4(open + ">\n" + inner, g, CloseTag(o), n);
  }
}
