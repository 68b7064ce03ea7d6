/** The XML object of a context with its metrics (src/profiler/context.cpp, src/profiler/metrics.cpp), and what keeps a
    pattern out of its printed form. */
module ContextXml {

  import opened Options
  import opened Xml
  import opened XmlObjects
  import C = ContextTrees
  import M = ContextManagers
  import H = HomoSplit

  // ----- The objects

  /** One metric with its description; `r` is how its floating-point value is printed. */
  datatype Metric = Metric(i: int, str: string, r: string, measure: string, event: string)

  /** The integer if it is not zero, else the text if there is one, else the floating-point value. */
  function ValueText(m: Metric): string {
    if m.i != 0 then Signed(m.i) else if m.str != "" then m.str else m.r
  }

  function Signed(n: int): string {
    if n < 0 then "-" + M.Decimal(-n) else M.Decimal(n)
  }

  function Hex(n: nat): string {
    var d := n % 16;
    (if n < 16 then "" else Hex(n / 16)) + [if d < 10 then '0' + d as char else 'a' + (d - 10) as char]
  }

  /** How a pointer is printed. */
  function Pointer(n: nat): string {
    if n == 0 then "0" else "0x" + Hex(n)
  }

  function MetricAttrs(i: nat, m: Metric): map<string, string> {
    map["id" := Quoted(M.Decimal(i)), "value" := Quoted(ValueText(m)),
        "measure" := Quoted(m.measure), "event" := Quoted(m.event)]
  }

  function MetricDom(i: nat, m: Metric): Dom {
    Dom("metric", MetricAttrs(i, m), map[])
  }

  function MetricsDom(ms: seq<Metric>): Dom {
    Dom("metrics", map[], map i: nat | i < |ms| :: MetricDom(i, ms[i]))
  }

  function ContextAttrs(id: nat, parentId: int, key: C.Key): map<string, string> {
    map["id" := Quoted(M.Decimal(id)), "method_id" := Quoted(Pointer(key.methodId)),
        "method_version" := Quoted(M.Decimal(key.methodVersion)), "binary_addr" := Quoted(M.Decimal(key.binaryAddr)),
        "bci" := Quoted(Signed(key.bci)), "parent_id" := Quoted(Signed(parentId))]
  }

  /** The parent id of a root is -1; metrics are the one child. */
  function ContextDom(id: nat, parentId: int, key: C.Key, metrics: Option<seq<Metric>>): Dom {
    Dom("context", ContextAttrs(id, parentId, key),
        if metrics.None? then map[] else map[0 := MetricsDom(metrics.value)])
  }

  // ----- Reading them back

  function SignedValue(s: string): int {
    if s != "" && s[0] == '-' then -(M.Value(s[1..]) as int) else M.Value(s) as int
  }

  function HexValue(s: string): nat {
    if s == [] then 0
    else
      var c := s[|s| - 1];
      HexValue(s[..|s| - 1]) * 16 +
      (if '0' <= c <= '9' then c as int - '0' as int else if 'a' <= c <= 'f' then c as int - 'a' as int + 10 else 0)
  }

  function PointerValue(s: string): nat {
    if |s| >= 2 && s[0] == '0' && s[1] == 'x' then HexValue(s[2..]) else M.Value(s)
  }

  lemma SignedReadBack(n: int)
    ensures SignedValue(Signed(n)) == n
  {
    M.ValueOfDecimal(if n < 0 then -n else n);
    M.DecimalLength(if n < 0 then -n else n);
    if n < 0 { assert Signed(n)[1..] == M.Decimal(-n); }
  }

  lemma {:induction false} HexReadBack(n: nat)
    ensures HexValue(Hex(n)) == n
  {
    if n >= 16 {
      HexReadBack(n / 16);
      assert Hex(n)[..|Hex(n)| - 1] == Hex(n / 16);
    }
  }

  lemma PointerReadBack(n: nat)
    ensures PointerValue(Pointer(n)) == n
  {
    HexReadBack(n);
    M.ValueOfDecimal(0);
    assert M.Decimal(0) == "0";
    if n > 0 { assert Pointer(n)[2..] == Hex(n); }
  }

  /** The usual notations. */
  lemma Notations()
    ensures M.Decimal(0) == "0" && M.Decimal(90) == "90" && Signed(-17) == "-17"
    ensures Pointer(0) == "0" && Pointer(186) == "0xba"
  {
    assert M.Decimal(90) == M.Decimal(9) + ['0'] == "90";
    assert M.Decimal(17) == M.Decimal(1) + ['7'] == "17";
    hide M.Decimal;
    assert Hex(186) == Hex(11) + ['a'] == "ba";
  }

  /** The attributes, without quotes, tell id, parent and frame of a context. */
  ghost predicate TellsContext(attrs: map<string, string>, id: nat, parentId: int, k: C.Key) {
    && attrs.Keys == {"id", "parent_id", "method_id", "method_version", "binary_addr", "bci"}
    && M.Value(attrs["id"]) == id && SignedValue(attrs["parent_id"]) == parentId
    && PointerValue(attrs["method_id"]) == k.methodId && M.Value(attrs["method_version"]) == k.methodVersion
    && M.Value(attrs["binary_addr"]) == k.binaryAddr && SignedValue(attrs["bci"]) == k.bci
  }

  /** They tell a metric: the integer if it is not zero, else the text if there is one, else the floating-point value.
      */
  ghost predicate TellsMetric(attrs: map<string, string>, i: nat, m: Metric) {
    && attrs.Keys == {"id", "value", "measure", "event"}
    && M.Value(attrs["id"]) == i && attrs["measure"] == m.measure && attrs["event"] == m.event
    && (m.i != 0 ==> SignedValue(attrs["value"]) == m.i)
    && (m.i == 0 && m.str != "" ==> attrs["value"] == m.str)
    && (m.i == 0 && m.str == "" ==> attrs["value"] == m.r)
  }

  ghost function Bare(attrs: map<string, string>): map<string, string> {
    map key | key in attrs :: Inner(attrs[key], 1)
  }

  lemma AttrsTell(id: nat, parentId: int, k: C.Key)
    ensures TellsContext(Bare(ContextAttrs(id, parentId, k)), id, parentId, k)
  {
    M.ValueOfDecimal(id);
    M.ValueOfDecimal(k.methodVersion);
    M.ValueOfDecimal(k.binaryAddr);
    SignedReadBack(parentId);
    SignedReadBack(k.bci);
    PointerReadBack(k.methodId);
    Unquoted(M.Decimal(id));
    Unquoted(M.Decimal(k.methodVersion));
    Unquoted(M.Decimal(k.binaryAddr));
    Unquoted(Signed(parentId));
    Unquoted(Signed(k.bci));
    Unquoted(Pointer(k.methodId));
    hide M.Decimal, M.Value, Signed, SignedValue, Pointer, PointerValue, Quoted, Inner;
  }

  lemma MetricTells(i: nat, m: Metric)
    ensures TellsMetric(Bare(MetricAttrs(i, m)), i, m)
  {
    M.ValueOfDecimal(i);
    SignedReadBack(m.i);
    Unquoted(M.Decimal(i));
    Unquoted(ValueText(m));
    Unquoted(m.measure);
    Unquoted(m.event);
    hide M.Decimal, M.Value, Signed, SignedValue, Quoted, Inner;
  }

  /** What the parsed node of a context tells of it: its attributes, and its metrics in the order of their indices. */
  ghost predicate TellsNode(n: Node, id: nat, parentId: int, k: C.Key, metrics: Option<seq<Metric>>) {
    && n.name == "context" && TellsContext(n.attrs, id, parentId, k)
    && match metrics
       case None => n.children == []
       case Some(ms) =>
         && |n.children| == 1 && n.children[0].name == "metrics" && |n.children[0].children| == |ms|
         && forall i :: 0 <= i < |ms| ==>
              n.children[0].children[i].name == "metric" && TellsMetric(n.children[0].children[i].attrs, i, ms[i])
  }

  lemma BareMirror(d: Dom, n: Node)
    requires Mirrors(d, n)
    ensures n.name == d.tag && n.attrs == Bare(d.attrs)
  {
    forall key | key in d.attrs ensures n.attrs[key] == Inner(d.attrs[key], 1) { Unquoted(n.attrs[key]); }
  }

  /** The numbers below `n` in ascending order are themselves. */
  lemma {:induction false} AscendingCount(ids: seq<nat>, s: set<nat>, n: nat)
    requires IsAscending(ids, s) && forall i: nat :: i in s <==> i < n
    ensures |ids| == n && forall k :: 0 <= k < n ==> ids[k] == k
  {
    assert ids != [] ==> ids[0] in ids;
    if n > 0 {
      assert n - 1 in s;
      GreatestIsLast(ids, s, n - 1);
      WithoutLast(ids, s, n - 1);
      hide IsAscending;
      AscendingCount(ids[..|ids| - 1], s - {n - 1}, n - 1);
    }
  }

  lemma GreatestIsLast(ids: seq<nat>, s: set<nat>, x: nat)
    requires IsAscending(ids, s) && x in s && forall i :: i in s ==> i <= x
    ensures ids != [] && ids[|ids| - 1] == x
  {
    var k :| 0 <= k < |ids| && ids[k] == x;
    var last := ids[|ids| - 1];
    assert last in ids && last in s;
  }

  lemma WithoutLast(ids: seq<nat>, s: set<nat>, x: nat)
    requires IsAscending(ids, s) && ids != [] && ids[|ids| - 1] == x
    ensures IsAscending(ids[..|ids| - 1], s - {x})
  {
    var last := |ids| - 1;
    var front := ids[..last];
    assert ids == front + [x];
    forall i: nat ensures i in s - {x} <==> i in front {
      if i in front {
        var l :| 0 <= l < last && front[l] == i;
        assert ids[l] < ids[last];
      }
    }
  }

  lemma MetricsTell(ms: seq<Metric>, n: Node)
    requires Mirrors(MetricsDom(ms), n)
    ensures n.name == "metrics" && |n.children| == |ms|
    ensures forall i :: 0 <= i < |ms| ==> n.children[i].name == "metric" && TellsMetric(n.children[i].attrs, i, ms[i])
  {
    var d := MetricsDom(ms);
    BareMirror(d, n);
    var ids := MirrorParts(d, n);
    hide Mirrors, IsAscending;
    AscendingCount(ids, d.children.Keys, |ms|);
    forall i | 0 <= i < |ms|
      ensures n.children[i].name == "metric" && TellsMetric(n.children[i].attrs, i, ms[i])
    {
      assert Mirrors(MetricDom(i, ms[i]), n.children[i]);
      BareMirror(MetricDom(i, ms[i]), n.children[i]);
      MetricTells(i, ms[i]);
    }
  }

  /** The parsed node of a context gives back its id, its parent, its frame and its metrics. */
  lemma MirrorTells(id: nat, parentId: int, k: C.Key, metrics: Option<seq<Metric>>, n: Node)
    requires Mirrors(ContextDom(id, parentId, k, metrics), n)
    ensures TellsNode(n, id, parentId, k, metrics)
  {
    hide ContextAttrs, TellsContext, TellsMetric, Bare, MetricsDom, Mirrors, IsAscending;
    var d := ContextDom(id, parentId, k, metrics);
    BareMirror(d, n);
    ContextDomTells(id, parentId, k, metrics);
    var ids := MirrorParts(d, n);
    AscendingCount(ids, d.children.Keys, if metrics.None? then 0 else 1);
    if metrics.Some? { MetricsTell(metrics.value, n.children[0]); }
  }

  lemma MirrorParts(d: Dom, n: Node) returns (ids: seq<nat>)
    requires Mirrors(d, n)
    ensures IsAscending(ids, d.children.Keys) && |ids| == |n.children|
    ensures forall k :: 0 <= k < |ids| ==> ids[k] in d.children && Mirrors(d.children[ids[k]], n.children[k])
  {
    ids :| IsAscending(ids, d.children.Keys) && |ids| == |n.children| && MirrorsChildren(d, ids, n.children);
  }

  method CreateMetricObj(i: nat, m: Metric) returns (obj: XMLObj)
    ensures obj.Valid() && fresh(obj.repr) && obj.Value() == MetricDom(i, m)
    ensures TellsMetric(Bare(obj.Value().attrs), i, m)
  {
    MetricTells(i, m);
    hide TellsMetric, Bare;
    obj := new XMLObj("metric");
    hide XMLObj.Valid, XMLObj.Value;
    obj.AddAttr("id", M.Decimal(i));
    if m.i != 0 {
      obj.AddAttr("value", Signed(m.i));
    } else if m.str != "" {
      obj.AddAttr("value", m.str);
    } else {
      obj.AddAttr("value", m.r);
    }
    obj.AddAttr("measure", m.measure);
    obj.AddAttr("event", m.event);
  }

  method CreateMetricsObj(ms: seq<Metric>) returns (obj: XMLObj)
    ensures obj.Valid() && fresh(obj.repr) && obj.Value() == MetricsDom(ms)
    ensures var metrics := obj.Value().children;
            && (forall i: nat :: i in metrics <==> i < |ms|)
            && forall i: nat :: i < |ms| ==> metrics[i].tag == "metric" && TellsMetric(Bare(metrics[i].attrs), i, ms[i])
  {
    MetricsDomTells(ms);
    hide TellsMetric, Bare, MetricsDom;
    obj := new XMLObj("metrics");
    hide XMLObj.Valid, XMLObj.Value, MetricDom;
    for i := 0 to |ms|
      invariant obj.Valid() && fresh(obj.repr)
      invariant obj.Value() == Dom("metrics", map[], map j: nat | j < i :: MetricDom(j, ms[j]))
    {
      var child := CreateMetricObj(i, ms[i]);
      obj.AddChild(i, child);
    }
  }

  lemma MetricsDomTells(ms: seq<Metric>)
    ensures var metrics := MetricsDom(ms).children;
            && (forall i: nat :: i in metrics <==> i < |ms|)
            && forall i: nat :: i < |ms| ==> metrics[i].tag == "metric" && TellsMetric(Bare(metrics[i].attrs), i, ms[i])
    ensures MetricsDom(ms) == Dom("metrics", map[], map j: nat | j < |ms| :: MetricDom(j, ms[j]))
  {
    forall i: nat | i < |ms| ensures TellsMetric(Bare(MetricDom(i, ms[i]).attrs), i, ms[i]) { MetricTells(i, ms[i]); }
    hide TellsMetric, MetricAttrs;
  }

  method CreateContextObj(c: C.Context, metrics: Option<seq<Metric>>) returns (obj: XMLObj)
    ensures obj.Valid() && fresh(obj.repr)
    ensures obj.Value() == ContextDom(c.id, if c.parent == null then -1 else c.parent.id, C.KeyOf(c.frame), metrics)
    ensures var f := c.frame;
            TellsContext(Bare(obj.Value().attrs), c.id, if c.parent == null then -1 else c.parent.id,
                         C.Key(f.bci, f.methodId, f.binaryAddr, f.methodVersion))
  {
    ghost var k, p := C.KeyOf(c.frame), if c.parent == null then -1 else c.parent.id;
    assert k == C.Key(c.frame.bci, c.frame.methodId, c.frame.binaryAddr, c.frame.methodVersion);
    hide TellsContext, Bare, C.KeyOf, ContextAttrs;
    obj := new XMLObj("context");
    hide XMLObj.Valid, XMLObj.Value, MetricsDom;
    AddContextAttrs(obj, c);
    if metrics.Some? {
      var child := CreateMetricsObj(metrics.value);
      obj.AddChild(0, child);
    }
    assert obj.Value() == ContextDom(c.id, p, k, metrics);
    hide ContextDom;
    ContextDomTells(c.id, p, k, metrics);
  }

  method AddContextAttrs(obj: XMLObj, c: C.Context)
    requires obj.Valid() && obj.Value() == Dom("context", map[], map[])
    modifies obj`attrMap
    ensures obj.Valid()
    ensures obj.Value() ==
              Dom("context", ContextAttrs(c.id, if c.parent == null then -1 else c.parent.id, C.KeyOf(c.frame)), map[])
  {
    hide XMLObj.Valid, XMLObj.Value, Quoted, M.Decimal, Pointer;
    obj.AddAttr("id", M.Decimal(c.id));
    obj.AddAttr("method_id", Pointer(c.frame.methodId));
    obj.AddAttr("method_version", M.Decimal(c.frame.methodVersion));
    obj.AddAttr("binary_addr", M.Decimal(c.frame.binaryAddr));
    obj.AddAttr("bci", Signed(c.frame.bci));
    if c.parent != null {
      obj.AddAttr("parent_id", M.Decimal(c.parent.id));
    } else {
      obj.AddAttr("parent_id", Signed(-1));
    }
  }

  lemma ContextDomTells(id: nat, parentId: int, k: C.Key, metrics: Option<seq<Metric>>)
    ensures TellsContext(Bare(ContextDom(id, parentId, k, metrics).attrs), id, parentId, k)
  {
    AttrsTell(id, parentId, k);
    hide TellsContext, Bare, ContextAttrs;
  }

  /** What the dump writes for one context. */
  method PrintContext(c: C.Context, metrics: Option<seq<Metric>>) returns (text: string)
    ensures var d := ContextDom(c.id, if c.parent == null then -1 else c.parent.id, C.KeyOf(c.frame), metrics);
            exists o :: Shows(d, o) && text == XMLStr(o, 0)
  {
    hide *;
    var obj := CreateContextObj(c, metrics);
    text := obj.GetXMLStr(0);
  }

  // ----- Patterns in printed texts

  ghost predicate Absent(s: string, pat: string) {
    forall i: nat :: !H.Occurs(s, pat, i)
  }

  /** A close tag, or the opening of a header. */
  ghost predicate IsPattern(pat: string) {
    |pat| >= 2 && pat[0] == '<' && '"' !in pat && ' ' !in pat && '\n' !in pat
  }

  /** A pattern does not reach across a character that it does not have. */
  lemma AbsentAcross(a: string, c: char, b: string, pat: string)
    requires pat != "" && c !in pat && Absent(a, pat) && Absent(b, pat)
    ensures Absent(a + [c] + b, pat)
  {
    var s := a + [c] + b;
    forall i: nat ensures !H.Occurs(s, pat, i) {
      if i + |pat| <= |a| {
        assert s[i..i + |pat|] == a[i..i + |pat|];
        assert !H.Occurs(a, pat, i);
      } else if i > |a| && i + |pat| <= |s| {
        var j := i - |a| - 1;
        assert s[i..i + |pat|] == b[j..j + |pat|];
        assert !H.Occurs(b, pat, j);
      } else if i + |pat| <= |s| {
        assert s[i..i + |pat|][|a| - i] == c;
      }
    }
  }

  lemma AbsentWithout(s: string, pat: string)
    requires |pat| >= 2 && pat[0] == '<' && '<' !in s
    ensures Absent(s, pat)
  {
    forall i: nat ensures !H.Occurs(s, pat, i) {
      if i + |pat| <= |s| { assert s[i..i + |pat|][0] == s[i]; }
    }
  }

  /** Behind a single `<` the second character decides. */
  lemma AbsentInTag(t: string, pat: string)
    requires IsPattern(pat) && '<' !in t && (t != "" ==> t[0] != pat[1])
    ensures Absent("<" + t, pat)
  {
    var s := "<" + t;
    forall i: nat ensures !H.Occurs(s, pat, i) {
      if i + |pat| <= |s| {
        assert s[i..i + |pat|][0] == s[i] && s[i..i + |pat|][1] == t[i];
        assert i > 0 ==> s[i] == t[i - 1];
      }
    }
  }

  lemma AbsentBehind(a: string, b: string, pat: string)
    requires Absent(a + b, pat)
    ensures Absent(b, pat)
  {
    var s := a + b;
    forall i: nat ensures !H.Occurs(b, pat, i) {
      assert !H.Occurs(s, pat, |a| + i);
      if i + |pat| <= |b| { assert s[|a| + i..|a| + i + |pat|] == b[i..i + |pat|]; }
    }
  }

  lemma {:induction false} Indented(n: nat, s: string, pat: string)
    requires IsPattern(pat) && Absent(s, pat)
    ensures Absent(Spaces(n) + s, pat)
  {
    if n == 0 {
      assert Spaces(n) + s == s;
    } else {
      assert Spaces(n) + s == Spaces(n - 1) + [' '] + s;
      AbsentWithout(Spaces(n - 1), pat);
      AbsentAcross(Spaces(n - 1), ' ', s, pat);
    }
  }

  /** Neither a key nor a value brings the pattern in. */
  ghost predicate AttrLacks(a: Attr, pat: string) {
    '<' !in a.key && Absent(a.value, pat)
  }

  lemma {:induction false} AttrsLack(attrs: seq<Attr>, pat: string)
    requires IsPattern(pat) && forall k :: 0 <= k < |attrs| ==> AttrLacks(attrs[k], pat)
    ensures Absent(AttrText(attrs) + ">", pat)
  {
    if attrs == [] {
      AbsentWithout(AttrText(attrs) + ">", pat);
    } else {
      var a, rest := attrs[0], AttrText(attrs[1..]) + ">";
      var head := " " + a.key + "=";
      AttrsLack(attrs[1..], pat);
      assert AttrLacks(a, pat);
      AbsentWithout(head, pat);
      AbsentAcross(a.value, '"', rest, pat);
      AbsentAcross(head, '"', a.value + ['"'] + rest, pat);
      assert AttrText(attrs) + ">" == head + ['"'] + (a.value + ['"'] + rest);
    }
  }

  lemma OpenTagLacks(o: Obj, pat: string)
    requires IsPattern(pat) && o.tag != "" && '<' !in o.tag && o.tag[0] != pat[1]
    requires forall k :: 0 <= k < |o.attrs| ==> AttrLacks(o.attrs[k], pat)
    ensures Absent(OpenTag(o), pat)
  {
    if o.attrs == [] {
      AbsentInTag(o.tag + ">", pat);
      assert OpenTag(o) == "<" + (o.tag + ">");
    } else {
      AttrsLack(o.attrs, pat);
      AbsentInTag(o.tag, pat);
      var text := AttrText(o.attrs) + ">";
      assert text == [' '] + text[1..];
      AbsentBehind([' '], text[1..], pat);
      AbsentAcross("<" + o.tag, ' ', text[1..], pat);
      assert OpenTag(o) == "<" + o.tag + [' '] + text[1..];
    }
  }

  /** Only its own close tag is in a close tag. */
  lemma CloseTagLacks(tag: string, name: string)
    requires '<' !in tag && '>' !in tag && tag != name
    ensures Absent(H.CloseOf(tag), H.CloseOf(name))
  {
    var s, pat := H.CloseOf(tag), H.CloseOf(name);
    assert tag == s[2..|s| - 1] && name == pat[2..|pat| - 1];
    forall i: nat ensures !H.Occurs(s, pat, i) {
      if i + |pat| <= |s| {
        var t := s[i..i + |pat|];
        assert t[0] == s[i] && t[|t| - 1] == s[i + |pat| - 1];
        assert 2 <= i < |s| - 1 ==> s[i] == tag[i - 2];
        assert i == 0 && |pat| < |s| ==> s[|pat| - 1] == tag[|pat| - 3];
      }
    }
  }

  lemma NoHeaderInClose(tag: string)
    requires '<' !in tag
    ensures Absent(H.CloseOf(tag), "<?")
  {
    assert H.CloseOf(tag) == "<" + ("/" + tag + ">");
    AbsentInTag("/" + tag + ">", "<?");
  }

  /** The printed children behind a text. */
  lemma {:induction false} ChildrenLack(head: string, s: seq<Obj>, indent: nat, pat: string) returns (t: string)
    requires IsPattern(pat) && Absent(head, pat)
    requires forall k :: 0 <= k < |s| ==> Absent(XMLStr(s[k], indent), pat)
    ensures head + "\n" + XMLStrs(s, indent) == t + "\n" && Absent(t, pat)
  {
    if s == [] {
      t := head;
    } else {
      var n := |s| - 1;
      var t' := ChildrenLack(head, s[..n], indent, pat);
      assert s == s[..n] + [s[n]];
      XMLStrsSnoc(s[..n], s[n], indent);
      var x := XMLStr(s[n], indent);
      var y := x[..|x| - 1];
      assert x == y + "\n" by { EndsLine(s[n], indent); }
      AbsentBefore(y, "\n", pat);
      AbsentAcross(t', '\n', y, pat);
      t := t' + ['\n'] + y;
      hide *;
      JoinedLines(head, XMLStrs(s[..n], indent), x, y, t');
    }
  }

  lemma JoinedLines(head: string, before: string, x: string, y: string, t: string)
    requires head + "\n" + before == t + "\n" && x == y + "\n"
    ensures head + "\n" + (before + x) == t + ['\n'] + y + "\n"
  {
    assert head + "\n" + (before + x) == head + "\n" + before + x;
  }

  lemma EndsLine(o: Obj, indent: nat)
    ensures var x := XMLStr(o, indent); x != "" && x == x[..|x| - 1] + "\n"
  {
  }

  lemma AbsentBefore(a: string, b: string, pat: string)
    requires Absent(a + b, pat)
    ensures Absent(a, pat)
  {
    forall i: nat ensures !H.Occurs(a, pat, i) {
      assert !H.Occurs(a + b, pat, i);
      if i + |pat| <= |a| { assert (a + b)[i..i + |pat|] == a[i..i + |pat|]; }
    }
  }

  // ----- Conditions on the object

  /** Nothing of an object and of what is below it brings the pattern in; of the object itself the close tag is left
      out. */
  ghost predicate Lacks(d: Dom, pat: string)
    requires |pat| >= 2
    decreases d
  {
    && d.tag != "" && '<' !in d.tag && d.tag[0] != pat[1]
    && (forall key :: key in d.attrs ==> '<' !in key && Absent(Inner(d.attrs[key], 1), pat))
    && forall id :: id in d.children ==> Absent(H.CloseOf(d.children[id].tag), pat) && Lacks(d.children[id], pat)
  }

  /** The text up to the close tag, of a shown object. */
  lemma {:induction false} ShownHead(d: Dom, o: Obj, indent: nat, pat: string) returns (t: string)
    requires Shows(d, o) && IsPattern(pat) && Lacks(d, pat)
    ensures XMLStr(o, indent) == t + "\n" + (Spaces(indent) + CloseTag(o)) + "\n" && Absent(t, pat)
    decreases d, 1
  {
    AttrsOf(d, o);
    OpenTagLacks(o, pat);
    Indented(indent, OpenTag(o), pat);
    ShownInside(d, o, indent + 2, pat);
    t := ChildrenLack(Spaces(indent) + OpenTag(o), o.children, indent + 2, pat);
    hide *;
    HeadText(o, indent, t);
  }

  lemma HeadText(o: Obj, indent: nat, t: string)
    requires Spaces(indent) + OpenTag(o) + "\n" + XMLStrs(o.children, indent + 2) == t + "\n"
    ensures XMLStr(o, indent) == t + "\n" + (Spaces(indent) + CloseTag(o)) + "\n"
  {
    var g, c := Spaces(indent), CloseTag(o);
    assert XMLStr(o, indent) == Spaces(indent) + OpenTag(o) + "\n" + XMLStrs(o.children, indent + 2) + g + c + "\n";
    hide *;
    assert t + "\n" + g + c == t + "\n" + (g + c);
  }

  lemma {:induction false} ShownInside(d: Dom, o: Obj, indent: nat, pat: string)
    requires Shows(d, o) && IsPattern(pat) && Lacks(d, pat)
    ensures forall k :: 0 <= k < |o.children| ==> Absent(XMLStr(o.children[k], indent), pat)
    decreases d, 0
  {
    var ids :| IsAscending(ids, d.children.Keys) && |ids| == |o.children| && ShowsChildren(d, ids, o.children);
    forall k | 0 <= k < |o.children| ensures Absent(XMLStr(o.children[k], indent), pat) {
      var c, p := d.children[ids[k]], o.children[k];
      assert Shows(c, p) && Lacks(c, pat) && Absent(H.CloseOf(c.tag), pat);
      var t := ShownHead(c, p, indent, pat);
      hide *;
      WholeLacks(p, indent, t, pat);
    }
  }

  lemma WholeLacks(o: Obj, indent: nat, t: string, pat: string)
    requires IsPattern(pat) && Absent(t, pat) && Absent(H.CloseOf(o.tag), pat)
    requires XMLStr(o, indent) == t + "\n" + (Spaces(indent) + CloseTag(o)) + "\n"
    ensures Absent(XMLStr(o, indent), pat)
  {
    var c := Spaces(indent) + CloseTag(o);
    Indented(indent, CloseTag(o), pat);
    AbsentAcross(t, '\n', c, pat);
    AbsentWithout("", pat);
    AbsentAcross(t + ['\n'] + c, '\n', "", pat);
    assert t + "\n" + c + "\n" == t + ['\n'] + c + ['\n'] + "";
  }

  lemma OnlyAtEnd(t: string, pat: string)
    requires IsPattern(pat) && Absent(t, pat)
    ensures forall i: nat :: H.Occurs(t + "\n" + pat, pat, i) ==> i == |t| + 1
  {
    var s := t + "\n" + pat;
    forall i: nat ensures H.Occurs(s, pat, i) ==> i == |t| + 1 {
      if i + |pat| <= |t| {
        assert s[i..i + |pat|] == t[i..i + |pat|];
        assert !H.Occurs(t, pat, i);
      } else if i <= |t| {
        assert s[i..i + |pat|][|t| - i] == '\n';
      }
    }
  }

  /** An object of the level-one kind without descendants of that kind and without the close tag in its values: the
      close tag occurs once in its text. */
  lemma ShownLevelOne(d: Dom, o: Obj)
    requires Shows(d, o) && Printable(d) && IsPattern(H.CloseOf(d.tag)) && Lacks(d, H.CloseOf(d.tag))
    ensures H.LevelOne(o, d.tag)
  {
    var pat := H.CloseOf(d.tag);
    ShownOk(d, o);
    var t := ShownHead(d, o, 0, pat);
    H.ChunkText(o);
    assert o.tag == d.tag && CloseTag(o) == pat && Spaces(0) + CloseTag(o) == pat;
    hide *;
    OnlyAtEnd(t, pat);
    assert H.Chunk(o) == t + "\n" + pat by { assert H.Chunk(o) + "\n" == t + "\n" + pat + "\n"; }
    IsLevelOne(o, t, d.tag);
  }

  lemma IsLevelOne(o: Obj, t: string, name: string)
    requires ObjOk(o) && o.tag == name && H.Chunk(o) == t + "\n" + H.CloseOf(name)
    requires forall i: nat :: H.Occurs(H.Chunk(o), H.CloseOf(name), i) ==> i == |t| + 1
    ensures H.LevelOne(o, name)
  {
    hide ObjOk, H.Chunk, H.CloseOf, H.Occurs;
  }

  lemma {:induction false} NotFound(s: string, c: char, d: char, from: nat)
    requires Absent(s, [c, d])
    ensures Find(s, c, d, from) == -1
    decreases |s| - from
  {
    if from < |s| - 1 {
      assert s[from..from + 2] == [s[from], s[from + 1]];
      assert !H.Occurs(s, [c, d], from);
      NotFound(s, c, d, from + 1);
    }
  }

  /** Nothing in the text looks like a header if nothing in the values does. */
  lemma ShownNoHeader(d: Dom, o: Obj)
    requires Shows(d, o) && ObjOk(o) && Lacks(d, "<?")
    ensures Find(H.Chunk(o), '<', '?', 0) == -1
  {
    var t := ShownHead(d, o, 0, "<?");
    assert Absent(H.CloseOf(o.tag), "<?") by { NoHeaderInClose(d.tag); }
    WholeLacks(o, 0, t, "<?");
    H.ChunkText(o);
    hide *;
    AbsentBefore(H.Chunk(o), "\n", "<?");
    assert "<?" == ['<', '?'];
    NotFound(H.Chunk(o), '<', '?', 0);
  }

  /** No quote, no `=`, no close tag of the level-one kind, and nothing like a header. */
  ghost predicate Legible(s: string, name: string) {
    '"' !in s && '=' !in s && Absent(s, H.CloseOf(name)) && Absent(s, "<?")
  }

  ghost predicate Word(s: string) {
    s != "" && forall k :: 0 <= k < |s| ==> 'a' <= s[k] <= 'z' || s[k] == '_'
  }

  /** Tags and keys are words, values legible, and nothing below is of the level-one kind. */
  ghost predicate Readable(d: Dom, name: string)
    decreases d
  {
    && Word(d.tag) && (forall key :: key in d.attrs ==> Word(key) && Legible(Inner(d.attrs[key], 1), name))
    && forall id :: id in d.children ==> d.children[id].tag != name && Readable(d.children[id], name)
  }

  lemma {:induction false} ReadableOk(d: Dom, name: string)
    requires Readable(d, name)
    ensures Printable(d) && WithoutEquals(d) && Lacks(d, H.CloseOf(name)) && Lacks(d, "<?")
    decreases d
  {
    forall id | id in d.children
      ensures var c := d.children[id];
              && Printable(c) && WithoutEquals(c) && Lacks(c, H.CloseOf(name)) && Lacks(c, "<?")
              && Absent(H.CloseOf(c.tag), H.CloseOf(name)) && Absent(H.CloseOf(c.tag), "<?")
    {
      ReadableOk(d.children[id], name);
      CloseTagLacks(d.children[id].tag, name);
      NoHeaderInClose(d.children[id].tag);
    }
  }

  /** What is read of a shown object that is readable. */
  lemma ShownReadable(d: Dom, o: Obj)
    requires Shows(d, o) && Readable(d, d.tag)
    ensures H.LevelOne(o, d.tag) && CleanObj(o) && Find(H.Chunk(o), '<', '?', 0) == -1
  {
    ReadableOk(d, d.tag);
    assert Word(d.tag);
    hide *;
    NamePattern(d.tag);
    ShownLevelOne(d, o);
    ShownClean(d, o);
    ShownOk(d, o);
    ShownNoHeader(d, o);
  }

  lemma NamePattern(name: string)
    requires Word(name)
    ensures IsPattern(H.CloseOf(name))
  {
    var pat := H.CloseOf(name);
    forall k | 0 <= k < |pat| ensures pat[k] != '"' && pat[k] != ' ' && pat[k] != '\n' {
      if 2 <= k < |pat| - 1 { assert pat[k] == name[k - 2]; }
    }
  }

  // ----- Contexts are readable

  ghost predicate Numeral(s: string) {
    forall k :: 0 <= k < |s| ==> '0' <= s[k] <= '9' || 'a' <= s[k] <= 'z' || s[k] == '-'
  }

  lemma NumeralLegible(s: string, name: string)
    requires Numeral(s)
    ensures Legible(s, name) && Legible(Inner(Quoted(s), 1), name)
  {
    AbsentWithout(s, H.CloseOf(name));
    AbsentWithout(s, "<?");
    Unquoted(s);
  }

  lemma {:induction false} DecimalNumeral(n: nat)
    ensures Numeral(M.Decimal(n))
  {
    if n >= 10 { DecimalNumeral(n / 10); }
  }

  lemma {:induction false} HexNumeral(n: nat)
    ensures Numeral(Hex(n))
  {
    if n >= 16 { HexNumeral(n / 16); }
  }

  lemma NumberTexts(n: int, p: nat)
    ensures Numeral(Signed(n)) && Numeral(Pointer(p))
  {
    DecimalNumeral(if n < 0 then -n else n);
    HexNumeral(p);
  }

  ghost predicate MetricOk(m: Metric, name: string) {
    Legible(ValueText(m), name) && Legible(m.measure, name) && Legible(m.event, name)
  }

  lemma MetricReadable(i: nat, m: Metric, name: string)
    requires MetricOk(m, name)
    ensures Readable(MetricDom(i, m), name)
  {
    DecimalNumeral(i);
    NumeralLegible(M.Decimal(i), name);
    Unquoted(ValueText(m));
    Unquoted(m.measure);
    Unquoted(m.event);
    hide Legible, Quoted, Inner, ValueText, M.Decimal;
  }

  /** Numbers are legible, so the texts of the metrics decide. */
  lemma ContextReadable(id: nat, parentId: int, key: C.Key, metrics: Option<seq<Metric>>)
    requires metrics.Some? ==> forall i :: 0 <= i < |metrics.value| ==> MetricOk(metrics.value[i], "context")
    ensures Readable(ContextDom(id, parentId, key, metrics), "context")
  {
    if metrics.Some? { MetricsReadable(metrics.value, "context"); }
    NumberAttrs(id, parentId, key, "context");
    hide Legible, ContextAttrs, MetricsDom;
  }

  lemma MetricsReadable(ms: seq<Metric>, name: string)
    requires (forall i :: 0 <= i < |ms| ==> MetricOk(ms[i], name)) && name != "metric"
    ensures Readable(MetricsDom(ms), name)
  {
    hide Legible, MetricOk, MetricAttrs;
    forall i: nat | i < |ms| ensures Readable(MetricDom(i, ms[i]), name) { MetricReadable(i, ms[i], name); }
  }

  lemma ContextKeys()
    ensures Word("id") && Word("method_id") && Word("method_version")
    ensures Word("binary_addr") && Word("bci") && Word("parent_id")
  {
  }

  lemma NumberAttrs(id: nat, parentId: int, key: C.Key, name: string)
    ensures var attrs := ContextAttrs(id, parentId, key);
            forall k :: k in attrs ==> Word(k) && Legible(Inner(attrs[k], 1), name)
  {
    var attrs := ContextAttrs(id, parentId, key);
    DecimalNumeral(id);
    DecimalNumeral(key.methodVersion);
    DecimalNumeral(key.binaryAddr);
    NumberTexts(key.bci, key.methodId);
    NumberTexts(parentId, 0);
    NumeralLegible(M.Decimal(id), name);
    NumeralLegible(M.Decimal(key.methodVersion), name);
    NumeralLegible(M.Decimal(key.binaryAddr), name);
    NumeralLegible(Pointer(key.methodId), name);
    NumeralLegible(Signed(key.bci), name);
    NumeralLegible(Signed(parentId), name);
    ContextKeys();
    hide Word, Numeral, Legible, Quoted, Inner, M.Decimal, Signed, Pointer;
  }
}
