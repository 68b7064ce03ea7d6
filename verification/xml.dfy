/** The XML text the profiler prints and the parser that reads it back (src/profiler/xml.cpp,
    offlineprocess/pylib/xml.py). */
module Xml {

  import opened Options
  import opened Sequences

  // ----- Characters and strings

  /** What Python's `str.strip` removes. */
  predicate IsSpace(c: char) {
    || '\t' <= c <= '\r' || '\U{1c}' <= c <= ' ' || c == '\U{85}' || c == '\U{a0}' || c == '\U{1680}'
    || '\U{2000}' <= c <= '\U{200a}' || c == '\U{2028}' || c == '\U{2029}' || c == '\U{202f}' || c == '\U{205f}' ||
       c == '\U{3000}'
  }

  predicate Blank(s: string) {
    forall i :: 0 <= i < |s| ==> IsSpace(s[i])
  }

  function StripLeft(s: string): string {
    if s == "" || !IsSpace(s[0]) then s else StripLeft(s[1..])
  }

  function StripRight(s: string): string {
    if s == "" || !IsSpace(s[|s| - 1]) then s else StripRight(s[..|s| - 1])
  }

  function Strip(s: string): (r: string)
    ensures |r| <= |s|
  {
    StripLengths(s);
    StripRight(StripLeft(s))
  }

  lemma StripLengths(s: string)
    ensures |StripRight(StripLeft(s))| <= |s|
  {
    StripLeftShorter(s);
    StripRightShorter(StripLeft(s));
  }

  lemma StripLeftShorter(s: string)
    ensures |StripLeft(s)| <= |s|
  {
  }

  lemma StripRightShorter(s: string)
    ensures |StripRight(s)| <= |s|
  {
  }

  lemma {:induction false} StripLeftBlank(g: string, s: string)
    requires Blank(g)
    ensures StripLeft(g + s) == StripLeft(s)
  {
    if g == "" {
      assert g + s == s;
    } else {
      assert (g + s)[1..] == g[1..] + s;
      StripLeftBlank(g[1..], s);
    }
  }

  lemma {:induction false} StripRightBlank(s: string, g: string)
    requires Blank(g)
    ensures StripRight(s + g) == StripRight(s)
  {
    if g == "" {
      assert s + g == s;
    } else {
      assert (s + g)[..|s + g| - 1] == s + g[..|g| - 1];
      StripRightBlank(s, g[..|g| - 1]);
    }
  }

  /** Blanks around a text that starts and ends with other characters. */
  lemma StripAround(g: string, m: string, h: string)
    requires Blank(g) && Blank(h)
    requires m != "" ==> !IsSpace(m[0]) && !IsSpace(m[|m| - 1])
    ensures Strip(g + m + h) == m
  {
    assert g + m + h == g + (m + h);
    StripLeftBlank(g, m + h);
    if m == "" {
      assert m + h == h + "";
      StripLeftBlank(h, "");
    } else {
      StripRightBlank(m, h);
    }
  }

  function Count(s: string, c: char): nat {
    if s == "" then 0 else (if s[0] == c then 1 else 0) + Count(s[1..], c)
  }

  lemma {:induction false} CountConcat(a: string, b: string, c: char)
    ensures Count(a + b, c) == Count(a, c) + Count(b, c)
  {
    if a == "" {
      assert a + b == b;
    } else {
      assert (a + b)[1..] == a[1..] + b;
      CountConcat(a[1..], b, c);
    }
  }

  lemma {:induction false} CountNone(s: string, c: char)
    ensures Count(s, c) == 0 <==> c !in s
  {
    if s != "" {
      CountNone(s[1..], c);
      assert s == [s[0]] + s[1..];
    }
  }

  /** Python's `s[from:-1]`. */
  function Inner(s: string, from: nat): string {
    if |s| <= from then "" else s[from..|s| - 1]
  }

  // ----- The end of a tag

  /** Where the pattern for tag ends matches first: a `>` with an even number of quotes behind it. */
  function TagEnd(s: string): (r: nat)
    ensures r <= |s|
  {
    if s == "" then 0
    else if s[0] == '>' && Count(s[1..], '"') % 2 == 0 then 0
    else 1 + TagEnd(s[1..])
  }

  /** A `>` behind an even number of quotes, that is outside quotation. */
  ghost predicate BareAt(s: string, i: nat) {
    i < |s| && s[i] == '>' && Count(s[..i], '"') % 2 == 0
  }

  /** In a text with an even number of quotes, the pattern matches exactly the `>` outside quotation. */
  lemma EvenMeansOutside(s: string, i: nat)
    requires i < |s| && s[i] == '>' && Count(s, '"') % 2 == 0
    ensures Count(s[i + 1..], '"') % 2 == 0 <==> BareAt(s, i)
  {
    var a, b := s[..i], s[i + 1..];
    assert s == a + ['>'] + b;
    CountNone(['>'], '"');
    hide Count;
    CountConcat(a + ['>'], b, '"');
    CountConcat(a, ['>'], '"');
  }

  lemma {:induction false} TagEndAt(s: string, i: nat)
    requires i < |s| && s[i] == '>' && Count(s[i + 1..], '"') % 2 == 0
    requires forall j :: 0 <= j < i && s[j] == '>' ==> Count(s[j + 1..], '"') % 2 == 1
    ensures TagEnd(s) == i
  {
    if i > 0 {
      assert s[1..][i..] == s[i + 1..];
      forall j | 0 <= j < i - 1 && s[1..][j] == '>' ensures Count(s[1..][j + 1..], '"') % 2 == 1 {
        assert s[1..][j + 1..] == s[j + 1 + 1..];
      }
      assert s[1..][i - 1 + 1..] == s[i + 1..];
      TagEndAt(s[1..], i - 1);
    }
  }

  /** No `>` outside quotation, and all quotations closed. */
  ghost predicate Closed(s: string) {
    Count(s, '"') % 2 == 0 && forall i :: 0 <= i < |s| ==> !BareAt(s, i)
  }

  lemma ClosedConcat(a: string, b: string)
    requires Closed(a) && Closed(b)
    ensures Closed(a + b)
  {
    CountConcat(a, b, '"');
    forall i | 0 <= i < |a + b| ensures !BareAt(a + b, i) {
      if i < |a| {
        assert (a + b)[..i] == a[..i];
        assert !BareAt(a, i);
      } else {
        assert (a + b)[..i] == a + b[..i - |a|];
        CountConcat(a, b[..i - |a|], '"');
        assert !BareAt(b, i - |a|);
      }
    }
  }

  lemma ClosedPlain(s: string)
    requires '"' !in s && '>' !in s
    ensures Closed(s)
  {
    CountNone(s, '"');
  }

  lemma ClosedQuoted(v: string)
    requires '"' !in v
    ensures Closed("\"" + v + "\"")
  {
    var q := "\"" + v + "\"";
    CountConcat("\"" + v, "\"", '"');
    CountConcat("\"", v, '"');
    CountNone(v, '"');
    forall i | 0 <= i < |q| ensures !BareAt(q, i) {
      if 0 < i <= |v| {
        assert q[..i] == "\"" + v[..i - 1];
        CountConcat("\"", v[..i - 1], '"');
        CountNone(v[..i - 1], '"');
      }
    }
  }

  lemma EvenConcat(a: string, b: string)
    requires Count(a, '"') % 2 == 0 && Count(b, '"') % 2 == 0
    ensures Count(a + b, '"') % 2 == 0
  {
    CountConcat(a, b, '"');
  }

  lemma EvenTag(a: string, b: string)
    requires Count(a, '"') % 2 == 0 && Count(b, '"') % 2 == 0
    ensures Count(a + ">" + b, '"') % 2 == 0
  {
    EvenConcat(a, ">");
    EvenConcat(a + ">", b);
  }

  lemma NotYet(a: string, b: string, j: nat)
    requires Closed(a) && j < |a| && a[j] == '>' && Count(a + ">" + b, '"') % 2 == 0
    ensures Count((a + ">" + b)[j + 1..], '"') % 2 == 1
  {
    var s := a + ">" + b;
    EvenMeansOutside(s, j);
    hide Count;
    assert s[..j] == a[..j];
    assert !BareAt(a, j);
  }

  /** The tag end of a tag followed by a text with all quotations closed. */
  lemma TagEndOf(a: string, b: string)
    requires Closed(a) && Count(b, '"') % 2 == 0
    ensures TagEnd(a + ">" + b) == |a|
  {
    var s := a + ">" + b;
    EvenTag(a, b);
    hide *;
    assert s[|a| + 1..] == b;
    forall j | 0 <= j < |a| && s[j] == '>' ensures Count(s[j + 1..], '"') % 2 == 1 {
      NotYet(a, b, j);
    }
    TagEndAt(s, |a|);
  }

  // ----- Splitting an open tag at the blanks outside quotation

  /** Index of the first `c` in `s`, or its length. */
  function IndexOf(s: string, c: char): (r: nat)
    ensures r <= |s|
    ensures forall i :: 0 <= i < r ==> s[i] != c
    ensures r < |s| ==> s[r] == c
  {
    if s == "" || s[0] == c then 0 else 1 + IndexOf(s[1..], c)
  }

  lemma IndexOfFirst(a: string, c: char, b: string)
    requires c !in a
    ensures IndexOf(a + [c] + b, c) == |a|
  {
    var s := a + [c] + b;
    assert s[|a|] == c;
    assert forall i :: 0 <= i < |a| ==> s[i] == a[i];
  }

  /** Length of the pattern item at the start of `s`: a plain character or a closed quotation; 0 if none starts here. */
  function ItemLength(s: string): (r: nat)
    ensures r <= |s|
  {
    if s == "" then 0
    else if s[0] != ' ' && s[0] != '"' && s[0] != '\'' then 1
    else if s[0] == ' ' then 0
    else
      var j := IndexOf(s[1..], s[0]);
      if j == |s| - 1 then 0 else j + 2
  }

  /** Length of the longest run of items at the start of `s`. */
  function RunLength(s: string): (r: nat)
    ensures r <= |s|
    ensures r > 0 <==> ItemLength(s) > 0
  {
    var n := ItemLength(s);
    if n == 0 then 0 else n + RunLength(s[n..])
  }

  function Tokens(s: string): seq<string> {
    if s == "" then []
    else
      var n := RunLength(s);
      if n == 0 then Tokens(s[1..]) else [s[..n]] + Tokens(s[n..])
  }

  ghost predicate Plain(s: string) {
    ' ' !in s && '"' !in s && '\'' !in s
  }

  lemma {:induction false} RunPlain(a: string, b: string)
    requires Plain(a)
    ensures RunLength(a + b) == |a| + RunLength(b)
  {
    if a == "" {
      assert a + b == b;
    } else {
      assert (a + b)[1..] == a[1..] + b;
      assert a == [a[0]] + a[1..];
      assert ItemLength(a + b) == 1;
      RunPlain(a[1..], b);
    }
  }

  lemma RunQuoted(v: string, b: string)
    requires '"' !in v && (b == "" || b[0] == ' ')
    ensures RunLength("\"" + v + "\"" + b) == |v| + 2
  {
    var s := "\"" + v + "\"" + b;
    assert "\"" == ['"'];
    Assoc4("\"", v, ['"'], b);
    IndexOfFirst(v, '"', b);
    assert s[|v| + 2..] == b;
    assert s[0] == '"' && ItemLength(s) == |v| + 2 && ItemLength(b) == 0;
  }

  /** A closed quotation of either kind goes on with the token, whatever is inside it. */
  lemma RunQuotation(q: char, v: string, b: string)
    requires (q == '"' || q == '\'') && q !in v
    ensures RunLength([q] + v + [q] + b) == |v| + 2 + RunLength(b)
  {
    var s := [q] + v + [q] + b;
    assert s[1..] == v + [q] + b;
    IndexOfFirst(v, q, b);
    assert s[|v| + 2..] == b;
  }

  /** One that is not closed ends it. */
  lemma RunUnclosed(q: char, v: string)
    requires (q == '"' || q == '\'') && q !in v
    ensures RunLength([q] + v) == 0
  {
    assert ([q] + v)[1..] == v;
  }

  // ----- Printing

  /** An object in the iteration orders of its two maps: attributes in any order, children by ascending id. */
  datatype Obj = Obj(tag: string, attrs: seq<Attr>, children: seq<Obj>)
  datatype Attr = Attr(key: string, value: string)

  function Spaces(n: nat): string {
    seq(n, _ => ' ')
  }

  function Quoted(v: string): string {
    "\"" + v + "\""
  }

  function AttrText(attrs: seq<Attr>): string {
    if attrs == [] then ""
    else " " + attrs[0].key + "=" + Quoted(attrs[0].value) + AttrText(attrs[1..])
  }

  function OpenTag(o: Obj): string {
    "<" + o.tag + AttrText(o.attrs) + ">"
  }

  function CloseTag(o: Obj): string {
    "</" + o.tag + ">"
  }

  function XMLStr(o: Obj, indent: nat): string {
    Spaces(indent) + OpenTag(o) + "\n" + XMLStrs(o.children, indent + 2) + Spaces(indent) + CloseTag(o) + "\n"
  }

  function XMLStrs(s: seq<Obj>, indent: nat): string {
    if s == [] then "" else XMLStr(s[0], indent) + XMLStrs(s[1..], indent)
  }

  /** How nested objects look. */
  lemma PrintedExample()
    ensures XMLStr(Obj("a", [Attr("k", "v")], [Obj("b", [], [])]), 0) == "<a k=\"v\">\n  <b>\n  </b>\n</a>\n"
  {
    var b := Obj("b", [], []);
    var a := Obj("a", [Attr("k", "v")], [b]);
    InnerExample();
    TagExample();
    assert [b][1..] == [] && Spaces(0) == "" && CloseTag(a) == "</a>";
    hide OpenTag, AttrText, CloseTag, Spaces;
    assert XMLStrs([b], 2) == XMLStr(b, 2) + XMLStrs([], 2) == XMLStr(b, 2);
    assert XMLStr(a, 0) == "" + OpenTag(a) + "\n" + XMLStrs([b], 2) + "" + CloseTag(a) + "\n";
    hide *;
  }

  lemma InnerExample()
    ensures XMLStr(Obj("b", [], []), 2) == "  <b>\n  </b>\n"
  {
    assert Spaces(2) == "  ";
  }

  lemma TagExample()
    ensures OpenTag(Obj("a", [Attr("k", "v")], [Obj("b", [], [])])) == "<a k=\"v\">"
  {
    assert [Attr("k", "v")][1..] == [];
  }

  // ----- What may be printed

  ghost predicate AttrOk(a: Attr) {
    Plain(a.key) && '>' !in a.key && '=' !in a.key && '"' !in a.value
  }

  /** Tags and keys without blanks, quotes and `>`, values without quotes, each key once. */
  ghost predicate ObjOk(o: Obj) {
    && o.tag != "" && o.tag[0] != '/' && Plain(o.tag) && '>' !in o.tag
    && (forall k :: 0 <= k < |o.attrs| ==> AttrOk(o.attrs[k]))
    && (forall k, l :: 0 <= k < l < |o.attrs| ==> o.attrs[k].key != o.attrs[l].key)
    && ObjsOk(o.children)
  }

  ghost predicate ObjsOk(s: seq<Obj>) {
    forall k :: 0 <= k < |s| ==> ObjOk(s[k])
  }

  lemma {:induction false} AttrTextClosed(attrs: seq<Attr>)
    requires forall k :: 0 <= k < |attrs| ==> AttrOk(attrs[k])
    ensures Closed(AttrText(attrs)) && (attrs == [] || AttrText(attrs)[0] == ' ')
  {
    if attrs != [] {
      var a := attrs[0];
      ClosedPlain(" " + a.key + "=");
      ClosedQuoted(a.value);
      AttrTextClosed(attrs[1..]);
      ClosedConcat(" " + a.key + "=", Quoted(a.value));
      ClosedConcat(" " + a.key + "=" + Quoted(a.value), AttrText(attrs[1..]));
    } else {
      ClosedPlain("");
    }
  }

  function AttrTokens(attrs: seq<Attr>): seq<string> {
    if attrs == [] then [] else [attrs[0].key + "=" + Quoted(attrs[0].value)] + AttrTokens(attrs[1..])
  }

  lemma {:induction false} TokensOfAttrs(attrs: seq<Attr>)
    requires forall k :: 0 <= k < |attrs| ==> AttrOk(attrs[k])
    ensures Tokens(AttrText(attrs)) == AttrTokens(attrs)
  {
    if attrs != [] {
      var a, r := attrs[0], AttrText(attrs[1..]);
      var t := a.key + "=" + Quoted(a.value);
      assert AttrText(attrs) == " " + (t + r);
      assert AttrTokens(attrs) == [t] + AttrTokens(attrs[1..]);
      hide *;
      AttrTextClosed(attrs[1..]);
      RunOfAttr(a, r);
      FirstToken(t, r);
      TokensOfAttrs(attrs[1..]);
    }
  }

  lemma RunOfAttr(a: Attr, r: string)
    requires AttrOk(a) && (r == "" || r[0] == ' ')
    ensures var t := a.key + "=" + Quoted(a.value); t != "" && RunLength(t + r) == |t|
  {
    assert a.key + "=" + Quoted(a.value) + r == (a.key + "=") + ("\"" + a.value + "\"" + r);
    assert ItemLength(r) == 0;
    hide ItemLength;
    RunPlain(a.key + "=", "\"" + a.value + "\"" + r);
    RunQuoted(a.value, r);
  }

  lemma FirstToken(t: string, r: string)
    requires t != "" && RunLength(t + r) == |t|
    ensures Tokens(" " + (t + r)) == [t] + Tokens(r)
  {
    var s := " " + (t + r);
    assert s[1..] == t + r && RunLength(s) == 0;
    assert (t + r)[|t|..] == r && (t + r)[..|t|] == t;
    hide RunLength;
  }

  lemma TokensOfTag(o: Obj)
    requires ObjOk(o)
    ensures Tokens(o.tag + AttrText(o.attrs)) == [o.tag] + AttrTokens(o.attrs)
  {
    var r := AttrText(o.attrs);
    AttrTextClosed(o.attrs);
    RunPlain(o.tag, r);
    assert RunLength(r) == 0;
    assert (o.tag + r)[|o.tag|..] == r && (o.tag + r)[..|o.tag|] == o.tag;
    TokensOfAttrs(o.attrs);
  }

  // ----- Parsing an open tag

  /** Splitting at `=` must give exactly two parts. */
  function ParseAttr(token: string): Option<Attr> {
    if Count(token, '=') != 1 then None
    else
      var i := IndexOf(token, '=');
      if i == |token| then None else Some(Attr(token[..i], Inner(Strip(token[i + 1..]), 1)))
  }

  function ParseAttrs(tokens: seq<string>): Option<map<string, string>> {
    if tokens == [] then Some(map[])
    else
      var n := |tokens| - 1;
      match ParseAttrs(tokens[..n])
      case None => None
      case Some(m) =>
        match ParseAttr(tokens[n])
        case None => None
        case Some(a) => Some(m[a.key := a.value])
  }

  datatype Tag = Tag(name: string, attrs: map<string, string>)

  function ParseOpenTag(s: string): Option<Tag> {
    var tokens := Tokens(Inner(s, 1));
    if tokens == [] then None
    else
      match ParseAttrs(tokens[1..])
      case None => None
      case Some(m) => Some(Tag(tokens[0], m))
  }

  /** The attribute dictionary. */
  function AttrMap(attrs: seq<Attr>): map<string, string> {
    if attrs == [] then map[]
    else
      var a := attrs[|attrs| - 1];
      AttrMap(attrs[..|attrs| - 1])[a.key := a.value]
  }

  ghost predicate NoEquals(attrs: seq<Attr>) {
    forall k :: 0 <= k < |attrs| ==> '=' !in attrs[k].value
  }

  lemma ParsedAttr(a: Attr)
    requires AttrOk(a)
    ensures ParseAttr(a.key + "=" + Quoted(a.value)) == if '=' in a.value then None else Some(a)
  {
    var t := a.key + "=" + Quoted(a.value);
    CountConcat(a.key + "=", Quoted(a.value), '=');
    CountConcat(a.key, "=", '=');
    CountConcat("\"" + a.value, "\"", '=');
    CountConcat("\"", a.value, '=');
    CountNone(a.key, '=');
    CountNone(a.value, '=');
    assert Count("=", '=') == 1 && Count("\"", '=') == 0;
    assert t == a.key + ['='] + Quoted(a.value);
    IndexOfFirst(a.key, '=', Quoted(a.value));
    assert t[|a.key| + 1..] == Quoted(a.value) && t[..|a.key|] == a.key;
    StripAround("", Quoted(a.value), "");
    assert "" + Quoted(a.value) + "" == Quoted(a.value);
    assert Inner(Quoted(a.value), 1) == a.value;
  }

  lemma {:induction false} AttrTokensSnoc(attrs: seq<Attr>, a: Attr)
    ensures AttrTokens(attrs + [a]) == AttrTokens(attrs) + [a.key + "=" + Quoted(a.value)]
  {
    if attrs != [] {
      assert (attrs + [a])[1..] == attrs[1..] + [a];
      AttrTokensSnoc(attrs[1..], a);
    }
  }

  lemma {:induction false} ParsedAttrs(attrs: seq<Attr>)
    requires forall k :: 0 <= k < |attrs| ==> AttrOk(attrs[k])
    ensures ParseAttrs(AttrTokens(attrs)) == if NoEquals(attrs) then Some(AttrMap(attrs)) else None
  {
    if attrs != [] {
      var n := |attrs| - 1;
      assert attrs == attrs[..n] + [attrs[n]];
      AttrTokensSnoc(attrs[..n], attrs[n]);
      var ts, t := AttrTokens(attrs[..n]), attrs[n].key + "=" + Quoted(attrs[n].value);
      assert (ts + [t])[..|ts|] == ts;
      ParsedAttrs(attrs[..n]);
      ParsedAttr(attrs[n]);
      assert NoEquals(attrs) <==> NoEquals(attrs[..n]) && '=' !in attrs[n].value;
    }
  }

  /** An open tag is read back exactly if no value contains `=`. */
  lemma ParsedOpenTag(o: Obj)
    requires ObjOk(o)
    ensures ParseOpenTag(OpenTag(o)) == if NoEquals(o.attrs) then Some(Tag(o.tag, AttrMap(o.attrs))) else None
  {
    assert Inner(OpenTag(o), 1) == o.tag + AttrText(o.attrs);
    TokensOfTag(o);
    assert ([o.tag] + AttrTokens(o.attrs))[1..] == AttrTokens(o.attrs);
    ParsedAttrs(o.attrs);
  }

  // ----- Segments

  datatype Segment = NoSegment | Open(text: string, rest: string) | Close(text: string, rest: string) | BadText

  /** The next tag. Text that does not start with a tag, or whose tag does not end, is refused. */
  function NextSegment(input: string): (r: Segment)
    ensures r.Open? || r.Close? ==> |r.rest| < |input|
  {
    FirstSegment(Strip(input))
  }

  function FirstSegment(s: string): (r: Segment)
    ensures r.Open? || r.Close? ==> |r.rest| < |s|
  {
    if s == "" then NoSegment
    else if s[0] != '<' || |s| < 2 then BadText
    else
      var e := TagEnd(s);
      if e == |s| then BadText
      else if s[1] == '/' then Close(s[..e + 1], s[e + 1..]) else Open(s[..e + 1], s[e + 1..])
  }

  /** One line of printed text: indentation and a tag. */
  datatype Line = Line(indent: nat, tag: string)

  ghost predicate LineOk(l: Line) {
    |l.tag| > 2 && l.tag[0] == '<' && l.tag[|l.tag| - 1] == '>' && Closed(l.tag[..|l.tag| - 1])
  }

  ghost predicate LinesOk(ls: seq<Line>) {
    forall k :: 0 <= k < |ls| ==> LineOk(ls[k])
  }

  ghost function Flat(ls: seq<Line>): string {
    if ls == [] then "" else Spaces(ls[0].indent) + ls[0].tag + "\n" + Flat(ls[1..])
  }

  /** What is left of the text when the parser has stripped it and taken the tags before `ls`. */
  ghost function Rest(ls: seq<Line>): string {
    if ls == [] then "" else "\n" + Spaces(ls[0].indent) + ls[0].tag + Rest(ls[1..])
  }

  lemma {:induction false} FlatConcat(a: seq<Line>, b: seq<Line>)
    ensures Flat(a + b) == Flat(a) + Flat(b)
  {
    if a == [] {
      assert a + b == b;
    } else {
      assert (a + b)[1..] == a[1..] + b;
      FlatConcat(a[1..], b);
    }
  }

  lemma {:induction false} FlatIsRest(ls: seq<Line>)
    ensures "\n" + Flat(ls) == Rest(ls) + "\n"
  {
    if ls != [] {
      FlatIsRest(ls[1..]);
      var g := "\n" + Spaces(ls[0].indent) + ls[0].tag;
      assert "\n" + Flat(ls) == g + ("\n" + Flat(ls[1..]));
      assert Rest(ls) + "\n" == g + (Rest(ls[1..]) + "\n");
    }
  }

  lemma {:induction false} RestEven(ls: seq<Line>)
    requires LinesOk(ls)
    ensures Count(Rest(ls), '"') % 2 == 0
    ensures Rest(ls) != "" ==> Rest(ls)[|Rest(ls)| - 1] == '>'
  {
    if ls != [] {
      var t := ls[0].tag;
      var g := "\n" + Spaces(ls[0].indent);
      CountNone(g, '"');
      assert t == t[..|t| - 1] + [t[|t| - 1]];
      EvenConcat(t[..|t| - 1], [t[|t| - 1]]);
      EvenConcat(g, t);
      RestEven(ls[1..]);
      EvenConcat(g + t, Rest(ls[1..]));
      assert Rest(ls) == g + t + Rest(ls[1..]);
    }
  }

  ghost function Segmented(ls: seq<Line>): Segment {
    if ls == [] then NoSegment
    else if |ls[0].tag| > 1 && ls[0].tag[1] == '/' then Close(ls[0].tag, Rest(ls[1..]))
      else Open(ls[0].tag, Rest(ls[1..]))
  }

  lemma FirstOf(t: string, rest: string)
    requires LineOk(Line(0, t)) && Count(rest, '"') % 2 == 0
    ensures FirstSegment(t + rest) == if t[1] == '/' then Close(t, rest) else Open(t, rest)
  {
    var s, a := t + rest, t[..|t| - 1];
    hide Count, Closed, TagEnd;
    assert t == a + ">";
    TagEndOf(a, rest);
    assert s[..|a| + 1] == t && s[|a| + 1..] == rest;
  }

  lemma NextOf(t: string, rest: string, before: string, after: string, input: string)
    requires LineOk(Line(0, t)) && Count(rest, '"') % 2 == 0 && (rest == "" || rest[|rest| - 1] == '>')
    requires Blank(before) && Blank(after) && input == before + (t + rest) + after
    ensures NextSegment(input) == if t[1] == '/' then Close(t, rest) else Open(t, rest)
  {
    hide FirstSegment, Count, Closed, Strip;
    assert (t + rest)[|t + rest| - 1] == '>';
    StripAround(before, t + rest, after);
    FirstOf(t, rest);
  }

  lemma NextEmpty()
    ensures NextSegment("") == NextSegment("\n") == NoSegment
  {
    StripAround("\n", "", "");
    StripAround("", "", "");
    assert "\n" + "" + "" == "\n";
  }

  /** The parser takes the first tag off the text, at the start, behind a line break and later on. */
  lemma NextLine(ls: seq<Line>)
    requires LinesOk(ls)
    ensures NextSegment(Rest(ls)) == Segmented(ls) == NextSegment(Flat(ls)) == NextSegment("\n" + Flat(ls))
  {
    if ls == [] {
      NextEmpty();
    } else {
      var t, g, r := ls[0].tag, Spaces(ls[0].indent), Rest(ls[1..]);
      RestEven(ls[1..]);
      assert LineOk(Line(0, t)) by { assert LineOk(ls[0]); }
      FlatFirst(ls);
      assert Segmented(ls) == if t[1] == '/' then Close(t, r) else Open(t, r);
      assert Blank("\n" + g) && Blank(g) && Blank("\n") && Blank("");
      hide *;
      NextOf(t, r, "\n" + g, "", Rest(ls));
      NextOf(t, r, g, "\n", Flat(ls));
      NextOf(t, r, "\n" + g, "\n", "\n" + Flat(ls));
    }
  }

  lemma FlatFirst(ls: seq<Line>)
    requires ls != []
    ensures var g, m := Spaces(ls[0].indent), ls[0].tag + Rest(ls[1..]);
            Flat(ls) == g + m + "\n" && "\n" + Flat(ls) == ("\n" + g) + m + "\n" && Rest(ls) == ("\n" + g) + m + ""
  {
    var g, t, r, f := Spaces(ls[0].indent), ls[0].tag, Rest(ls[1..]), Flat(ls[1..]);
    FlatIsRest(ls[1..]);
    assert Flat(ls) == g + t + "\n" + f && Rest(ls) == "\n" + g + t + r;
    hide *;
    Associate("\n", g, t, r, f);
  }

  lemma Associate(n: string, g: string, t: string, r: string, f: string)
    requires n + f == r + n
    ensures g + t + n + f == g + (t + r) + n
    ensures n + (g + (t + r) + n) == (n + g) + (t + r) + n
    ensures n + g + t + r == (n + g) + (t + r) + ""
  {
    assert g + t + n + f == g + t + (n + f);
  }

  ghost function Lines(o: Obj, indent: nat): seq<Line> {
    [Line(indent, OpenTag(o))] + LinesOf(o.children, indent + 2) + [Line(indent, CloseTag(o))]
  }

  ghost function LinesOf(s: seq<Obj>, indent: nat): seq<Line> {
    if s == [] then [] else Lines(s[0], indent) + LinesOf(s[1..], indent)
  }

  lemma {:induction false} PrintedLines(s: seq<Obj>, indent: nat)
    ensures XMLStrs(s, indent) == Flat(LinesOf(s, indent))
  {
    if s != [] {
      var o := s[0];
      PrintedLines(o.children, indent + 2);
      PrintedLines(s[1..], indent);
      var open, inner, close := Line(indent, OpenTag(o)), LinesOf(o.children, indent + 2), Line(indent, CloseTag(o));
      FlatConcat([open] + inner + [close], LinesOf(s[1..], indent));
      FlatConcat([open] + inner, [close]);
      FlatConcat([open], inner);
      FlatOne(open);
      FlatOne(close);
    }
  }

  lemma FlatOne(l: Line)
    ensures Flat([l]) == Spaces(l.indent) + l.tag + "\n"
  {
  }

  lemma TagsOk(o: Obj, indent: nat)
    requires ObjOk(o)
    ensures LineOk(Line(indent, OpenTag(o))) && LineOk(Line(indent, CloseTag(o)))
  {
    AttrTextClosed(o.attrs);
    ClosedPlain("<" + o.tag);
    ClosedConcat("<" + o.tag, AttrText(o.attrs));
    assert OpenTag(o)[..|OpenTag(o)| - 1] == "<" + o.tag + AttrText(o.attrs);
    ClosedPlain("</" + o.tag);
    assert CloseTag(o)[..|CloseTag(o)| - 1] == "</" + o.tag;
  }

  lemma {:induction false} PrintedLinesOk(s: seq<Obj>, indent: nat)
    requires ObjsOk(s)
    ensures LinesOk(LinesOf(s, indent))
  {
    if s != [] {
      var o := s[0];
      assert ObjOk(o);
      PrintedLinesOk(o.children, indent + 2);
      PrintedLinesOk(s[1..], indent);
      TagsOk(o, indent);
    }
  }

  // ----- The parser

  /** The parser's own tree. */
  datatype Node = Node(name: string, attrs: map<string, string>, children: seq<Node>)

  /** The node stack, whose bottom is the virtual root; a node joins its parent when its tag is closed.
      A close tag named like the virtual root empties the stack. */
  datatype State = Reading(stack: seq<Node>) | Popped(root: Node)

  datatype Parse = Parsed(root: Node) | Failed

  function Top(stack: seq<Node>): Node
    requires stack != []
  {
    stack[|stack| - 1]
  }

  function WithChildren(stack: seq<Node>, cs: seq<Node>): (r: seq<Node>)
    requires stack != []
    ensures |r| == |stack|
  {
    var top := Top(stack);
    stack[..|stack| - 1] + [top.(children := top.children + cs)]
  }

  function OpenStep(st: State, text: string): Option<State> {
    match ParseOpenTag(text)
    case None => None
    case Some(tag) => if st.Popped? then None else Some(Reading(st.stack + [Node(tag.name, tag.attrs, [])]))
  }

  function CloseStep(st: State, text: string): Option<State> {
    if st.Popped? || st.stack == [] || Top(st.stack).name != Inner(text, 2) then None
    else
      var below := st.stack[..|st.stack| - 1];
      Some(if below == [] then Popped(st.stack[0]) else Reading(WithChildren(below, [Top(st.stack)])))
  }

  /** The virtual root at the end of the text; nodes left open hang below their parents. */
  function RootOf(st: State): Node
    requires st.Reading? ==> st.stack != []
    decreases if st.Reading? then |st.stack| else 0
  {
    if st.Popped? then st.root
    else if |st.stack| == 1 then st.stack[0]
    else RootOf(Reading(WithChildren(st.stack[..|st.stack| - 1], [Top(st.stack)])))
  }

  function Drive(st: State, input: string): Parse
    requires st.Reading? ==> st.stack != []
    decreases |input|
  {
    match NextSegment(input)
    case NoSegment => Parsed(RootOf(st))
    case BadText => Failed
    case Open(text, rest) =>
      (match OpenStep(st, text)
       case None => Failed
       case Some(st') => Drive(st', rest))
    case Close(text, rest) =>
      (match CloseStep(st, text)
       case None => Failed
       case Some(st') => Drive(st', rest))
  }

  /** Python's `find` for a pattern of two characters. */
  function Find(s: string, c: char, d: char, from: nat): (r: int)
    ensures r == -1 || from <= r < |s| - 1
    decreases |s| - from
  {
    if from >= |s| - 1 then -1
    else if s[from] == c && s[from + 1] == d then from
    else Find(s, c, d, from + 1)
  }

  function AfterHeader(s: string): string {
    var i1 := Find(s, '<', '?', 0);
    var i2 := Find(s, '?', '>', i1 + 1);
    if i1 >= 0 && i2 > i1 then s[i2 + 2..] else s
  }

  const START := Reading([Node("root", map[], [])])

  function ParseText(s: string): Parse {
    Drive(START, AfterHeader(s))
  }

  /** The parser's loop. */
  method ParseFile(fileStr: string) returns (r: Parse)
    ensures r == ParseText(fileStr)
  {
    var remains := AfterHeader(fileStr);
    var st := START;
    while true
      invariant st.Reading? ==> st.stack != []
      invariant Drive(st, remains) == ParseText(fileStr)
      decreases |remains|
    {
      match NextSegment(remains) {
        case NoSegment => return Parsed(RootOf(st));
        case BadText => return Failed;
        case Open(text, rest) =>
          match OpenStep(st, text) {
            case None => return Failed;
            case Some(st') => st, remains := st', rest;
          }
        case Close(text, rest) =>
          match CloseStep(st, text) {
            case None => return Failed;
            case Some(st') => st, remains := st', rest;
          }
      }
    }
  }

  // ----- Round trip

  function Image(o: Obj): Node {
    Node(o.tag, AttrMap(o.attrs), Images(o.children))
  }

  function Images(s: seq<Obj>): seq<Node> {
    if s == [] then [] else [Image(s[0])] + Images(s[1..])
  }

  lemma OnlyOne(o: Obj)
    ensures XMLStrs([o], 0) == XMLStr(o, 0) && Images([o]) == [Image(o)] && (ObjOk(o) ==> ObjsOk([o]))
  {
    assert [o][1..] == [];
    assert XMLStrs([], 0) == "" && Images([]) == [];
    hide XMLStr, Image, ObjOk;
    assert XMLStrs([o], 0) == XMLStr(o, 0) + "" && Images([o]) == [Image(o)] + [];
  }

  ghost predicate Clean(s: seq<Obj>) {
    forall k :: 0 <= k < |s| ==> NoEquals(s[k].attrs) && Clean(s[k].children)
  }

  lemma OpenLine(o: Obj, stack: seq<Node>, ls: seq<Line>, indent: nat)
    requires ObjOk(o) && stack != [] && LinesOk([Line(indent, OpenTag(o))] + ls)
    ensures Drive(Reading(stack), Rest([Line(indent, OpenTag(o))] + ls))
         == if NoEquals(o.attrs) then Drive(Reading(stack + [Node(o.tag, AttrMap(o.attrs), [])]), Rest(ls)) else Failed
  {
    var l := [Line(indent, OpenTag(o))] + ls;
    assert l[1..] == ls;
    assert OpenTag(o)[1] == o.tag[0];
    NextLine(l);
    ParsedOpenTag(o);
    hide NextSegment, OpenTag, ParseOpenTag, Rest;
  }

  lemma CloseMatches(o: Obj, stack: seq<Node>, top: Node)
    requires stack != [] && top.name == o.tag
    ensures CloseStep(Reading(stack + [top]), CloseTag(o)) == Some(Reading(WithChildren(stack, [top])))
  {
    assert Inner(CloseTag(o), 2) == o.tag;
    assert (stack + [top])[..|stack + [top]| - 1] == stack;
  }

  lemma CloseLine(o: Obj, stack: seq<Node>, top: Node, ls: seq<Line>, indent: nat)
    requires ObjOk(o) && stack != [] && top.name == o.tag && LinesOk([Line(indent, CloseTag(o))] + ls)
    ensures Drive(Reading(stack + [top]), Rest([Line(indent, CloseTag(o))] + ls)) ==
            Drive(Reading(WithChildren(stack, [top])), Rest(ls))
  {
    var l := [Line(indent, CloseTag(o))] + ls;
    assert l[1..] == ls;
    assert Segmented(l) == Close(CloseTag(o), Rest(ls));
    hide *;
    CloseMatches(o, stack, top);
    NextLine(l);
    DriveClose(Reading(stack + [top]), Reading(WithChildren(stack, [top])), Rest(l), CloseTag(o), Rest(ls));
  }

  lemma DriveClose(st: State, st': State, input: string, text: string, rest: string)
    requires (st.Reading? ==> st.stack != []) && (st'.Reading? ==> st'.stack != [])
    requires NextSegment(input) == Close(text, rest) && CloseStep(st, text) == Some(st')
    ensures Drive(st, input) == Drive(st', rest)
  {
    hide NextSegment, CloseStep;
  }

  lemma WithMore(stack: seq<Node>, a: seq<Node>, b: seq<Node>)
    requires stack != []
    ensures WithChildren(WithChildren(stack, a), b) == WithChildren(stack, a + b)
    ensures WithChildren(stack, []) == stack
  {
    var top := Top(stack);
    assert top.children + a + b == top.children + (a + b);
    assert top.children + [] == top.children;
  }

  /** The first object's part of the text. */
  lemma FirstObj(s: seq<Obj>, indent: nat, more: seq<Line>)
    requires ObjsOk(s) && LinesOk(more) && s != []
    ensures ObjOk(s[0]) && ObjsOk(s[0].children) && ObjsOk(s[1..])
    ensures Clean(s) <==> NoEquals(s[0].attrs) && Clean(s[0].children) && Clean(s[1..])
    ensures Images(s) == [Image(s[0])] + Images(s[1..])
    ensures Image(s[0]) == Node(s[0].tag, AttrMap(s[0].attrs), [] + Images(s[0].children))
  {
    assert [] + Images(s[0].children) == Images(s[0].children);
  }

  lemma FirstLines(s: seq<Obj>, indent: nat, more: seq<Line>) returns (tail: seq<Line>)
    requires ObjsOk(s) && LinesOk(more) && s != []
    ensures tail == LinesOf(s[1..], indent) + more
    ensures var open, close := Line(indent, OpenTag(s[0])), Line(indent, CloseTag(s[0]));
            var inner := LinesOf(s[0].children, indent + 2) + ([close] + tail);
            && LinesOf(s, indent) + more == [open] + inner
            && LinesOk([open] + inner) && LinesOk([close] + tail)
  {
    var o := s[0];
    tail := LinesOf(s[1..], indent) + more;
    var open, inner, close := Line(indent, OpenTag(o)), LinesOf(o.children, indent + 2), Line(indent, CloseTag(o));
    assert ObjOk(o);
    TagsOk(o, indent);
    PrintedLinesOk(o.children, indent + 2);
    PrintedLinesOk(s[1..], indent);
    assert LinesOf(s, indent) == [open] + inner + [close] + LinesOf(s[1..], indent);
    hide *;
    LinesRegroup([open], inner, [close], LinesOf(s[1..], indent), more);
  }

  lemma LinesRegroup(a: seq<Line>, b: seq<Line>, c: seq<Line>, d: seq<Line>, e: seq<Line>)
    requires LinesOk(a) && LinesOk(b) && LinesOk(c) && LinesOk(d) && LinesOk(e)
    ensures a + b + c + d + e == a + (b + (c + (d + e)))
    ensures LinesOk(a + (b + (c + (d + e)))) && LinesOk(c + (d + e))
  {
    hide LineOk;
  }

  lemma {:induction false} DriveLines(s: seq<Obj>, indent: nat, more: seq<Line>, stack: seq<Node>)
    requires ObjsOk(s) && LinesOk(more) && stack != []
    ensures Drive(Reading(stack), Rest(LinesOf(s, indent) + more))
         == if Clean(s) then Drive(Reading(WithChildren(stack, Images(s))), Rest(more)) else Failed
    decreases s, 1
  {
    if s == [] {
      assert LinesOf(s, indent) + more == more;
      WithMore(stack, [], []);
    } else {
      DriveFirst(s, indent, more, stack);
    }
  }

  lemma {:induction false} DriveFirst(s: seq<Obj>, indent: nat, more: seq<Line>, stack: seq<Node>)
    requires ObjsOk(s) && LinesOk(more) && stack != [] && s != []
    ensures Drive(Reading(stack), Rest(LinesOf(s, indent) + more))
         == if Clean(s) then Drive(Reading(WithChildren(stack, Images(s))), Rest(more)) else Failed
    decreases s, 0
  {
    hide *;
    var o := s[0];
    var tail := FirstLines(s, indent, more);
    FirstObj(s, indent, more);
    var close := Line(indent, CloseTag(o));
    var node := Node(o.tag, AttrMap(o.attrs), []);
    OpenLine(o, stack, LinesOf(o.children, indent + 2) + ([close] + tail), indent);
    if NoEquals(o.attrs) {
      DriveLines(o.children, indent + 2, [close] + tail, stack + [node]);
      if Clean(o.children) {
        WithPushed(stack, node, Images(o.children));
        CloseLine(o, stack, Image(o), tail, indent);
        DriveLines(s[1..], indent, more, WithChildren(stack, [Image(o)]));
        WithMore(stack, [Image(o)], Images(s[1..]));
      }
    }
  }

  lemma WithPushed(stack: seq<Node>, node: Node, cs: seq<Node>)
    ensures WithChildren(stack + [node], cs) == stack + [node.(children := node.children + cs)]
  {
  }

  // ----- Texts that are not well formed

  lemma DriveRefuses(st: State, input: string)
    requires st.Reading? ==> st.stack != []
    requires var r := NextSegment(input);
             || r.BadText? || (r.Open? && OpenStep(st, r.text).None?) || (r.Close? && CloseStep(st, r.text).None?)
    ensures Drive(st, input) == Failed
  {
    hide NextSegment, OpenStep, CloseStep;
  }

  /** Text outside of tags, a tag that does not end, and a tag without a name are refused. */
  lemma BadTextRefused(st: State, input: string)
    requires st.Reading? ==> st.stack != []
    requires Strip(input) != ""
    requires var s := Strip(input);
             || s[0] != '<' || s == "<" || TagEnd(s) == |s| || (s[1] != '/' && Tokens(s[1..TagEnd(s)]) == [])
    ensures Drive(st, input) == Failed
  {
    var s := Strip(input);
    if s[0] == '<' && s != "<" && TagEnd(s) < |s| {
      assert Inner(s[..TagEnd(s) + 1], 1) == s[1..TagEnd(s)];
    }
    hide Strip, TagEnd, Tokens;
    DriveRefuses(st, input);
  }

  /** An attribute is what stands before and, without its quotes, behind the one `=` of its token. */
  lemma AttributeIff(token: string)
    ensures ParseAttr(token).Some? <==> Count(token, '=') == 1
    ensures forall k, v :: '=' !in k && '=' !in v && token == k + ['='] + v ==>
              ParseAttr(token) == Some(Attr(k, Inner(Strip(v), 1)))
  {
    CountNone(token, '=');
    forall k, v | '=' !in k && '=' !in v && token == k + ['='] + v
      ensures ParseAttr(token) == Some(Attr(k, Inner(Strip(v), 1)))
    {
      CountConcat(k + ['='], v, '=');
      CountConcat(k, ['='], '=');
      CountNone(k, '=');
      CountNone(v, '=');
      assert Count(['='], '=') == 1;
      IndexOfFirst(k, '=', v);
      assert token[|k| + 1..] == v && token[..|k|] == k;
    }
  }

  /** A close tag must name the innermost open node. */
  lemma WrongCloseRejected(name: string, stack: seq<Node>, top: Node, ls: seq<Line>, indent: nat)
    requires name != top.name && LinesOk([Line(indent, "</" + name + ">")] + ls)
    ensures Drive(Reading(stack + [top]), Rest([Line(indent, "</" + name + ">")] + ls)) == Failed
  {
    var tag := "</" + name + ">";
    var l := [Line(indent, tag)] + ls;
    assert l[1..] == ls && tag[1] == '/' && Inner(tag, 2) == name;
    NextLine(l);
    hide NextSegment, Rest;
    DriveRefuses(Reading(stack + [top]), Rest(l));
  }

  /** Behind a close tag that is named like the virtual root nothing may follow. */
  lemma NothingAfterRoot(root: Node, ls: seq<Line>)
    requires LinesOk(ls) && ls != []
    ensures Drive(Popped(root), Rest(ls)) == Failed
  {
    NextLine(ls);
    hide NextSegment, Rest, ParseOpenTag;
    DriveRefuses(Popped(root), Rest(ls));
  }

  /** A last object whose close tag is missing is read as if it were there. */
  lemma UnclosedAccepted(f: seq<Obj>, o: Obj, root: Node)
    requires ObjsOk(f) && ObjOk(o) && Clean(f) && NoEquals(o.attrs) && Clean(o.children)
    ensures Drive(Reading([root]), Rest(LinesOf(f, 0) + ([Line(0, OpenTag(o))] + LinesOf(o.children, 2)))) ==
            Parsed(root.(children := root.children + Images(f) + [Image(o)]))
  {
    var more := LinesOf(o.children, 2);
    TagsOk(o, 0);
    PrintedLinesOk(o.children, 2);
    assert LinesOk([Line(0, OpenTag(o))] + more) && ObjsOk(o.children) && LinesOk([]);
    var root' := root.(children := root.children + Images(f));
    var open := Node(o.tag, AttrMap(o.attrs), []);
    assert WithChildren([root], Images(f)) == [root'] && [root'] + [open] == [root', open];
    assert WithChildren([root', open], Images(o.children)) == [root', Image(o)] by {
      assert [] + Images(o.children) == Images(o.children);
    }
    assert more + [] == more && Rest([]) == "";
    Collapsed(root', Image(o));
    hide *;
    DriveLines(f, 0, [Line(0, OpenTag(o))] + more, [root]);
    OpenLine(o, [root'], more, 0);
    DriveLines(o.children, 2, [], [root', open]);
    DriveStops([root', Image(o)]);
  }

  lemma Collapsed(root: Node, n: Node)
    ensures RootOf(Reading([root, n])) == root.(children := root.children + [n])
  {
    assert [root, n][..1] == [root];
  }

  lemma DriveStops(stack: seq<Node>)
    requires stack != []
    ensures Drive(Reading(stack), "") == Parsed(RootOf(Reading(stack)))
  {
    NextEmpty();
    hide NextSegment;
  }

  const HEADER := "<?xml version=\"1.0\" encoding=\"utf-8\"?>"

  lemma {:induction false} FindFirst(s: string, c: char, d: char, from: nat, at: nat)
    requires from <= at < |s| - 1 && s[at] == c && s[at + 1] == d
    requires forall j :: from <= j < at ==> s[j] != c || s[j + 1] != d
    ensures Find(s, c, d, from) == at
    decreases at - from
  {
    if from < at { FindFirst(s, c, d, from + 1, at); }
  }

  lemma HeaderOf(mid: string, s: string)
    requires '?' !in mid && mid != "" && mid[0] != '>'
    ensures AfterHeader("<?" + mid + "?>" + s) == s
  {
    var t := "<?" + mid + "?>" + s;
    FindFirst(t, '<', '?', 0, 0);
    forall j | 1 <= j < |mid| + 2 ensures t[j] != '?' || t[j + 1] != '>' {
      if j > 1 {
        assert t[j] == mid[j - 2];
      } else {
        assert t[2] == mid[0];
      }
    }
    FindFirst(t, '?', '>', 1, |mid| + 2);
    assert t[|mid| + 4..] == s;
  }

  lemma HeaderStripped(s: string)
    ensures AfterHeader(HEADER + s) == s
  {
    var mid := "xml version=\"1.0\" encoding=\"utf-8\"";
    assert HEADER == "<?" + mid + "?>";
    assert '?' !in mid;
    hide *;
    HeaderOf(mid, s);
  }

  lemma DriveText(f: seq<Obj>)
    requires ObjsOk(f)
    ensures var r := if Clean(f) then Parsed(Node("root", map[], Images(f))) else Failed;
            Drive(START, XMLStrs(f, 0)) == r && Drive(START, "\n" + XMLStrs(f, 0)) == r
  {
    var ls, root := LinesOf(f, 0), Node("root", map[], []);
    assert LinesOk([]);
    hide *;
    PrintedLines(f, 0);
    PrintedLinesOk(f, 0);
    NextLine(ls);
    DriveLines(f, 0, [], [root]);
    assert ls + [] == ls && [root] != [];
    WithPushed([], root, Images(f));
    assert [] + [root] == [root] && [] + Images(f) == Images(f);
    RestOfNone();
    DriveEnd([root.(children := Images(f))]);
    SameDrive(START, Rest(ls), Flat(ls));
    SameDrive(START, Rest(ls), "\n" + Flat(ls));
  }

  lemma SameDrive(st: State, a: string, b: string)
    requires NextSegment(a) == NextSegment(b) && (st.Reading? ==> st.stack != [])
    ensures Drive(st, a) == Drive(st, b)
  {
    hide NextSegment;
  }

  lemma DriveEnd(stack: seq<Node>)
    requires |stack| == 1
    ensures Drive(Reading(stack), "") == Parsed(stack[0])
  {
    NextEmpty();
    hide NextSegment;
  }

  lemma RestOfNone()
    ensures Rest([]) == ""
  {
  }

  /** Parsing the printed text of any forest, behind the header the profiler writes, gives the forest
      back if and only if no attribute value contains `=`. */
  lemma RoundTrip(f: seq<Obj>)
    requires ObjsOk(f)
    ensures ParseText(HEADER + "\n" + XMLStrs(f, 0)) == if Clean(f) then Parsed(Node("root", map[], Images(f)))
            else Failed
  {
    HeaderStripped("\n" + XMLStrs(f, 0));
    assert HEADER + "\n" + XMLStrs(f, 0) == HEADER + ("\n" + XMLStrs(f, 0));
    DriveText(f);
  }

  /** The same without a header, if nothing in the text looks like one. */
  lemma RoundTripBare(f: seq<Obj>)
    requires ObjsOk(f) && Find(XMLStrs(f, 0), '<', '?', 0) == -1
    ensures ParseText(XMLStrs(f, 0)) == if Clean(f) then Parsed(Node("root", map[], Images(f))) else Failed
  {
    DriveText(f);
  }
}
