/** Elements with attributes: how TiXmlPrinter writes a tree and how
    TiXmlDocument::Parse reads one. */
module XmlTree {
  import opened Bytes
  import opened XmlText

  datatype Attr = Attr(name: string, value: string)

  datatype Element = Element(name: string, attrs: seq<Attr>, children: seq<Element>)

  // Failed: a null pointer and an error in the document. Outside: the text holds
  // a node this model does not read (text, comment, CDATA, declaration, unknown)
  // or announces UTF-8.
  datatype Parsed<+T> = Ok(value: T, rest: string) | Failed | Outside

  datatype Tag = Tag(attrs: seq<Attr>, selfClosed: bool)

  // ---------- printing ----------

  // SetIndent / SetLineBreak; the defaults are four spaces and a newline.
  datatype Style = Style(indent: string, lineBreak: string) {
    predicate Valid() {
      IsSpace(indent) && IsSpace(lineBreak)
    }
  }

  function Indent(st: Style, depth: nat): string {
    if depth == 0 then "" else st.indent + Indent(st, depth - 1)
  }

  // The indentation over and over, once for every element around.
  lemma {:induction false} IndentRepeats(st: Style, depth: nat)
    requires st.indent != ""
    ensures |Indent(st, depth)| == depth * |st.indent|
    ensures forall i :: 0 <= i < |Indent(st, depth)| ==> Indent(st, depth)[i] == st.indent[i % |st.indent|]
  {
    hide Indent;
    IndentUnfolds(st, depth);
    if depth > 0 {
      IndentRepeats(st, depth - 1);
      var n, tail := |st.indent|, Indent(st, depth - 1);
      assert (depth - 1) * n + n == depth * n;
      forall i | 0 <= i < n + |tail| ensures (st.indent + tail)[i] == st.indent[i % n] {
        RepeatAt(st.indent, tail, i);
      }
    }
  }

  lemma IndentUnfolds(st: Style, depth: nat)
    ensures Indent(st, depth) == if depth == 0 then "" else st.indent + Indent(st, depth - 1)
  {
  }

  lemma RepeatAt(s: string, tail: string, i: nat)
    requires s != "" && i < |s| + |tail| && forall k :: 0 <= k < |tail| ==> tail[k] == s[k % |s|]
    ensures (s + tail)[i] == s[i % |s|]
  {
    var n := |s|;
    if i < n {
      RemainderUnique(i, n, 0, i);
    } else {
      var q, r := (i - n) / n, (i - n) % n;
      assert (q + 1) * n == q * n + n;
      RemainderUnique(i, n, q + 1, r);
      assert (s + tail)[i] == tail[i - n];
    }
  }

  function Quote(v: string): (q: char)
    ensures q == '\'' || q == '\"'
  {
    if '\"' in v then '\'' else '\"'
  }

  function PrintAttr(a: Attr): string {
    Encode(a.name) + "=" + [Quote(a.value)] + Encode(a.value) + [Quote(a.value)]
  }

  function PrintAttrs(attrs: seq<Attr>): string {
    if attrs == [] then "" else " " + PrintAttr(attrs[0]) + PrintAttrs(attrs[1..])
  }

  // The element without its leading indentation.
  function PrintElement(st: Style, depth: nat, e: Element): string
    decreases e, 1
  {
    "<" + e.name + PrintAttrs(e.attrs) + PrintTail(st, depth, e)
  }

  function PrintTail(st: Style, depth: nat, e: Element): string
    decreases e, 0
  {
    if e.children == [] then " />" + st.lineBreak
    else ">" + st.lineBreak + PrintElements(st, depth + 1, e.children)
         + Indent(st, depth) + "</" + e.name + ">" + st.lineBreak
  }

  function PrintElements(st: Style, depth: nat, es: seq<Element>): string
    decreases es
  {
    if es == [] then ""
    else Indent(st, depth) + PrintElement(st, depth, es[0]) + PrintElements(st, depth, es[1..])
  }

  // ---------- parsing ----------

  // TiXmlAttribute::Parse
  function ParseAttr(s: string): (r: Parsed<Attr>)
    ensures r.Ok? ==> |r.rest| < |s|
  {
    match ReadName(SkipSpace(s))
    case None => Failed
    case Some((name, afterName)) =>
      var eq := SkipSpace(afterName);
      if eq == "" || eq[0] != '=' then Failed
      else
        var v := SkipSpace(eq[1..]);
        if v == "" then Failed
        else
          match if v[0] == '\'' || v[0] == '\"' then ReadText(v[1..], v[0]) else ReadBare(v)
          case None => Failed
          case Some((value, rest)) => Ok(Attr(name, value), rest)
  }

  predicate HasName(attrs: seq<Attr>, name: string) {
    exists i :: 0 <= i < |attrs| && attrs[i].name == name
  }

  // The attribute loop of TiXmlElement::Parse, up to '>' or "/>".
  function ParseAttrs(s: string, sofar: seq<Attr>): (r: Parsed<Tag>)
    ensures r.Ok? ==> |r.rest| < |s| && sofar <= r.value.attrs
    decreases |s|
  {
    var p := SkipSpace(s);
    if p == "" then Failed
    else if p[0] == '/' then
      if |p| > 1 && p[1] == '>' then Ok(Tag(sofar, true), p[2..]) else Failed
    else if p[0] == '>' then Ok(Tag(sofar, false), p[1..])
    else
      match ParseAttr(p)
      case Failed => Failed
      case Outside => Outside
      case Ok(a, rest) =>
        if rest == "" || HasName(sofar, a.name) then Failed
        else ParseAttrs(rest, sofar + [a])
  }

  // TiXmlNode::Identify, reduced to "is this an element?"
  predicate IdentifiesElement(s: string) {
    |s| > 1 && s[0] == '<' && IsNameStart(s[1])
  }

  // TiXmlElement::Parse
  function ParseElement(s: string): (r: Parsed<Element>)
    ensures r.Ok? ==> |r.rest| < |s|
    decreases |s|, 0
  {
    var p := SkipSpace(s);
    if p == "" || p[0] != '<' then Failed
    else
      match ReadName(SkipSpace(p[1..]))
      case None => Failed
      case Some((name, afterName)) =>
        if afterName == "" then Failed
        else
          match ParseAttrs(afterName, [])
          case Failed => Failed
          case Outside => Outside
          case Ok(tag, rest) =>
            if tag.selfClosed then Ok(Element(name, tag.attrs, []), rest)
            else ElementAfterTag(name, tag.attrs, ReadValue(rest))
  }

  // The children are read; the end tag must follow.
  function ElementAfterTag(name: string, attrs: seq<Attr>, value: Parsed<seq<Element>>): (r: Parsed<Element>)
    ensures r.Ok? ==> value.Ok? && |r.rest| < |value.rest|
  {
    match value
    case Failed => Failed
    case Outside => Outside
    case Ok(children, end) =>
      if !IsPrefix("</" + name, end) then Failed
      else
        var close := SkipSpace(end[2 + |name|..]);
        if close == "" || close[0] != '>' then Failed
        else Ok(Element(name, attrs, children), close[1..])
  }

  // TiXmlElement::ReadValue, up to the end tag.
  function ReadValue(s: string): (r: Parsed<seq<Element>>)
    ensures r.Ok? ==> |r.rest| <= |s| && IsPrefix("</", r.rest)
    decreases |s|, 1
  {
    var p := SkipSpace(s);
    if p == "" then Failed
    else if IsPrefix("</", p) then Ok([], p)
    else if !IdentifiesElement(p) then Outside
    else
      match ParseElement(p)
      case Failed => Failed
      case Outside => Outside
      case Ok(e, rest) =>
        match ReadValue(rest)
        case Failed => Failed
        case Outside => Outside
        case Ok(es, end) => Ok([e] + es, end)
  }

  // The loop of TiXmlDocument::Parse. It stops without an error at anything but '<'.
  function ParseNodes(s: string): (r: Parsed<seq<Element>>)
    decreases |s|
  {
    var p := SkipSpace(s);
    if p == "" || p[0] != '<' then Ok([], p)
    else if !IdentifiesElement(p) then Outside
    else
      match ParseElement(p)
      case Failed => Failed
      case Outside => Outside
      case Ok(e, rest) =>
        match ParseNodes(rest)
        case Failed => Failed
        case Outside => Outside
        case Ok(es, end) => Ok([e] + es, end)
  }

  predicate HasUtf8Mark(s: string) {
    |s| > 2 && s[0] as int == 0xef && s[1] as int == 0xbb && s[2] as int == 0xbf
  }

  // TiXmlDocument::Parse: a document without a node is an error.
  function ParseDocument(s: string): Parsed<seq<Element>> {
    if HasUtf8Mark(s) then Outside
    else
      match ParseNodes(s)
      case Failed => Failed
      case Outside => Outside
      case Ok(es, rest) => if es == [] then Failed else Ok(es, rest)
  }

  // ---------- which trees ----------

  predicate WellFormed(e: Element)
    decreases e
  {
    && IsName(e.name)
    && (forall i :: 0 <= i < |e.attrs| ==> IsName(e.attrs[i].name))
    && (forall i, j :: 0 <= i < j < |e.attrs| ==> e.attrs[i].name != e.attrs[j].name)
    && (forall i :: 0 <= i < |e.children| ==> WellFormed(e.children[i]))
  }

  // No attribute value holds "&#x", which the printer passes through.
  predicate Printable(e: Element)
    decreases e
  {
    && PrintableAttrs(e.attrs)
    && (forall i :: 0 <= i < |e.children| ==> Printable(e.children[i]))
  }

  predicate PrintableAttrs(attrs: seq<Attr>) {
    forall i :: 0 <= i < |attrs| ==> !HasHexRef(attrs[i].value)
  }

  // ---------- printing, then parsing ----------

  lemma {:induction false} IndentIsSpace(st: Style, depth: nat)
    requires st.Valid()
    ensures IsSpace(Indent(st, depth))
  {
    if depth > 0 { IndentIsSpace(st, depth - 1); }
  }

  lemma PrintedAttrParses(a: Attr, rest: string)
    requires IsName(a.name)
    ensures ParseAttr(PrintAttr(a) + rest)
         == match ReadText(Encode(a.value) + [Quote(a.value)] + rest, Quote(a.value))
            case None => Failed
            case Some((value, end)) => Ok(Attr(a.name, value), end)
  {
    hide ReadText;
    hide Encode;
    hide ReadName;
    var q := Quote(a.value);
    var v := Encode(a.value) + [q] + rest;
    var afterName := ['=', q] + v;
    EncodeNameIsName(a.name);
    assert PrintAttr(a) + rest == a.name + afterName;
    ReadNameBack(a.name, afterName);
    assert SkipSpace(afterName) == afterName && afterName[1..] == [q] + v;
    assert SkipSpace([q] + v) == [q] + v && ([q] + v)[1..] == v;
  }

  lemma AttrBack(a: Attr, rest: string)
    requires IsName(a.name) && !HasHexRef(a.value) && rest != ""
    ensures ParseAttr(PrintAttr(a) + rest) == Ok(a, rest)
  {
    hide ReadText, Encode, ReadName, PrintAttr, ParseAttr;
    PrintedAttrParses(a, rest);
    ValueBack(a.value, Quote(a.value), rest);
  }

  predicate Distinct(attrs: seq<Attr>) {
    && (forall i :: 0 <= i < |attrs| ==> IsName(attrs[i].name))
    && (forall i, j :: 0 <= i < j < |attrs| ==> attrs[i].name != attrs[j].name)
  }

  lemma FirstAttrBack(sofar: seq<Attr>, a: Attr, rest: string)
    requires IsName(a.name) && !HasHexRef(a.value) && rest != "" && !HasName(sofar, a.name)
    ensures ParseAttrs(" " + PrintAttr(a) + rest, sofar) == ParseAttrs(rest, sofar + [a])
  {
    hide ParseAttr;
    hide Encode;
    var p := PrintAttr(a) + rest;
    EncodeNameIsName(a.name);
    assert " " + PrintAttr(a) + rest == " " + p;
    assert p[0] == a.name[0];
    SkipSpaceOver(" ", p);
    AttrBack(a, rest);
  }

  // The attributes, then the end of the start tag.
  lemma {:induction false} AttrsBack(sofar: seq<Attr>, attrs: seq<Attr>, tail: string)
    requires Distinct(sofar + attrs)
    requires PrintableAttrs(attrs)
    requires tail != ""
    ensures ParseAttrs(PrintAttrs(attrs) + tail, sofar) == ParseAttrs(tail, sofar + attrs)
    decreases |attrs|
  {
    hide ParseAttrs;
    hide PrintAttr;
    if attrs == [] {
      assert PrintAttrs(attrs) + tail == tail && sofar + attrs == sofar;
    } else {
      var a, rest := attrs[0], PrintAttrs(attrs[1..]) + tail;
      assert (sofar + attrs)[|sofar|] == a;
      assert PrintAttrs(attrs) + tail == " " + PrintAttr(a) + rest;
      assert !HasName(sofar, a.name) by {
        assert forall i :: 0 <= i < |sofar| ==> (sofar + attrs)[i] == sofar[i];
      }
      FirstAttrBack(sofar, a, rest);
      assert sofar + [a] + attrs[1..] == sofar + attrs;
      AttrsBack(sofar + [a], attrs[1..], tail);
    }
  }

  // Everything after the start tag's name.
  lemma ElementFromParts(s: string, name: string, afterName: string)
    requires IsName(name) && afterName != "" && !IsNameChar(afterName[0])
    requires s == "<" + name + afterName
    ensures ParseElement(s) == ElementAfterName(name, ParseAttrs(afterName, []))
  {
    hide ParseAttr;
    assert SkipSpace(s) == s && s[1..] == name + afterName;
    assert SkipSpace(name + afterName) == name + afterName;
    ReadNameBack(name, afterName);
  }

  function ElementAfterName(name: string, tag: Parsed<Tag>): Parsed<Element> {
    match tag
    case Failed => Failed
    case Outside => Outside
    case Ok(tag, rest) =>
      if tag.selfClosed then Ok(Element(name, tag.attrs, []), rest)
      else ElementAfterTag(name, tag.attrs, ReadValue(rest))
  }

  lemma PrintTailStarts(st: Style, depth: nat, e: Element)
    ensures var t := PrintTail(st, depth, e); t != "" && (t[0] == ' ' || t[0] == '>')
  {
  }

  lemma PrintElementStarts(st: Style, depth: nat, e: Element, rest: string)
    requires IsName(e.name)
    ensures var s := PrintElement(st, depth, e) + rest;
            IdentifiesElement(s) && !IsPrefix("</", s) && s != "" && !IsWhiteSpace(s[0])
  {
    var s := PrintElement(st, depth, e) + rest;
    assert s[0] == '<' && s[1] == e.name[0];
  }

  lemma EndTagReads(name: string, lb: string, rest: string)
    requires IsSpace(lb)
    ensures var end := "</" + name + ">" + lb + rest;
            IsPrefix("</" + name, end) && SkipSpace(end[2 + |name|..]) == ">" + lb + rest
            && IsPrefix("</", end) && !IsWhiteSpace(end[0])
  {
    var end := "</" + name + ">" + lb + rest;
    assert end[..2 + |name|] == "</" + name;
    assert end[2 + |name|..] == ">" + lb + rest;
    assert end[..2] == "</";
  }

  lemma AfterNameStarts(st: Style, depth: nat, e: Element, rest: string)
    ensures var t := PrintAttrs(e.attrs) + (PrintTail(st, depth, e) + rest);
            t != "" && !IsNameChar(t[0]) && PrintTail(st, depth, e) + rest != ""
  {
    hide PrintAttr;
    var tail := PrintTail(st, depth, e);
    PrintTailStarts(st, depth, e);
    assert (tail + rest)[0] == tail[0];
    if e.attrs == [] { assert PrintAttrs(e.attrs) + (tail + rest) == tail + rest; }
  }

  lemma PrintElementParts(st: Style, depth: nat, e: Element, rest: string)
    ensures PrintElement(st, depth, e) + rest == "<" + e.name + (PrintAttrs(e.attrs) + (PrintTail(st, depth, e) + rest))
  {
    hide PrintAttrs;
    hide PrintTail;
  }

  // The start tag and everything after it.
  lemma StartTagBack(st: Style, depth: nat, e: Element, rest: string)
    requires st.Valid() && WellFormed(e) && PrintableAttrs(e.attrs)
    ensures ParseElement(PrintElement(st, depth, e) + rest)
            == ElementAfterName(e.name, ParseAttrs(PrintTail(st, depth, e) + rest, e.attrs))
  {
    hide ParseAttrs;
    hide ElementAfterName;
    hide PrintTail;
    hide PrintElement;
    hide PrintAttrs;
    hide ParseElement;
    var tail := PrintTail(st, depth, e) + rest;
    AfterNameStarts(st, depth, e, rest);
    PrintElementParts(st, depth, e, rest);
    ElementFromParts(PrintElement(st, depth, e) + rest, e.name, PrintAttrs(e.attrs) + tail);
    assert [] + e.attrs == e.attrs;
    AttrsBack([], e.attrs, tail);
  }

  lemma EmptyTagReads(st: Style, depth: nat, e: Element, rest: string)
    requires e.children == []
    ensures ParseAttrs(PrintTail(st, depth, e) + rest, e.attrs) == Ok(Tag(e.attrs, true), st.lineBreak + rest)
  {
    var close := "/>" + (st.lineBreak + rest);
    assert PrintTail(st, depth, e) + rest == " " + close;
    SkipSpaceOver(" ", close);
    assert close[2..] == st.lineBreak + rest;
  }

  function EndTag(st: Style, e: Element, rest: string): string {
    "</" + e.name + ">" + st.lineBreak + rest
  }

  lemma OpenTagReads(st: Style, depth: nat, e: Element, rest: string)
    requires e.children != []
    ensures ParseAttrs(PrintTail(st, depth, e) + rest, e.attrs)
            == Ok(Tag(e.attrs, false),
                  st.lineBreak + PrintElements(st, depth + 1, e.children) + Indent(st, depth) + EndTag(st, e, rest))
  {
    hide PrintElements;
    var inner := st.lineBreak + PrintElements(st, depth + 1, e.children) + Indent(st, depth) + EndTag(st, e, rest);
    assert PrintTail(st, depth, e) + rest == ">" + inner;
    assert (">" + inner)[1..] == inner;
  }

  // An element prints to text that reads back as the element, leaving the line
  // break and whatever follows it.
  lemma {:induction false} ElementBack(st: Style, depth: nat, e: Element, rest: string)
    requires st.Valid() && WellFormed(e) && Printable(e)
    ensures ParseElement(PrintElement(st, depth, e) + rest) == Ok(e, st.lineBreak + rest)
    decreases e, 1
  {
    hide ParseElement;
    hide ParseAttrs;
    hide PrintTail;
    hide PrintElement;
    hide PrintElements;
    hide ReadValue;
    StartTagBack(st, depth, e, rest);
    if e.children == [] {
      EmptyTagReads(st, depth, e, rest);
    } else {
      OpenTagReads(st, depth, e, rest);
      IndentIsSpace(st, depth);
      EndTagReads(e.name, st.lineBreak, rest);
      ChildrenBack(st, depth + 1, e.children, st.lineBreak, Indent(st, depth), EndTag(st, e, rest));
      assert (">" + st.lineBreak + rest)[1..] == st.lineBreak + rest;
    }
  }

  lemma {:induction false} ChildrenBack(st: Style, depth: nat, es: seq<Element>, before: string, after: string, end: string)
    requires st.Valid() && IsSpace(before) && IsSpace(after)
    requires IsPrefix("</", end)
    requires forall i :: 0 <= i < |es| ==> WellFormed(es[i]) && Printable(es[i])
    ensures ReadValue(before + PrintElements(st, depth, es) + after + end) == Ok(es, end)
    decreases es, 0
  {
    hide ParseElement, PrintElement, ReadValue, PrintElements, WellFormed, Printable, IsSpace;
    if es == [] {
      NoChildren(st, depth, before, after, end);
    } else {
      var rest := PrintElements(st, depth, es[1..]) + after + end;
      WellFormedName(es[0]);
      FirstChild(st, depth, es, before, after, end);
      ElementBack(st, depth, es[0], rest);
      Reassociate(st.lineBreak, PrintElements(st, depth, es[1..]), after, end);
      StyleIsSpace(st);
      ChildrenBack(st, depth, es[1..], st.lineBreak, after, end);
      assert es == [es[0]] + es[1..];
    }
  }

  lemma StyleIsSpace(st: Style)
    requires st.Valid()
    ensures IsSpace(st.lineBreak)
  {
  }

  lemma NoChildren(st: Style, depth: nat, before: string, after: string, end: string)
    requires IsSpace(before) && IsSpace(after) && IsPrefix("</", end)
    ensures ReadValue(before + PrintElements(st, depth, []) + after + end) == Ok([], end)
  {
    assert end[..2] == "</";
    assert before + PrintElements(st, depth, []) == before;
    SkipSpaceOver(before + after, end);
  }

  // The printed children start with the first, behind white space.
  lemma FirstChild(st: Style, depth: nat, es: seq<Element>, before: string, after: string, end: string)
    requires st.Valid() && IsSpace(before) && es != [] && IsName(es[0].name)
    ensures ReadValue(before + PrintElements(st, depth, es) + after + end)
         == var rest := PrintElements(st, depth, es[1..]) + after + end;
            ReadAfter(ParseElement(PrintElement(st, depth, es[0]) + rest))
  {
    hide ParseElement, PrintElement, IdentifiesElement, IsPrefix;
    var rest := PrintElements(st, depth, es[1..]) + after + end;
    var p := PrintElement(st, depth, es[0]) + rest;
    FirstChildText(before, Indent(st, depth), PrintElement(st, depth, es[0]), PrintElements(st, depth, es[1..]), after, end);
    PrintElementStarts(st, depth, es[0], rest);
    IndentIsSpace(st, depth);
    SkipSpaceOver(before + Indent(st, depth), p);
  }

  lemma FirstChildText(before: string, indent: string, first: string, others: string, after: string, end: string)
    ensures before + (indent + first + others) + after + end == before + indent + (first + (others + after + end))
  {
    Assoc(before, indent + first, others);
    Assoc(before, indent, first);
    Assoc(before + indent + first, others, after);
    Assoc(before + indent + first, others + after, end);
    Assoc(before + indent, first, others + after + end);
  }

  function ReadAfter(first: Parsed<Element>): Parsed<seq<Element>> {
    match first
    case Failed => Failed
    case Outside => Outside
    case Ok(e, rest) =>
      match ReadValue(rest)
      case Failed => Failed
      case Outside => Outside
      case Ok(es, end) => Ok([e] + es, end)
  }

  lemma {:induction false} NodesBack(st: Style, es: seq<Element>, before: string)
    requires st.Valid() && IsSpace(before)
    requires forall i :: 0 <= i < |es| ==> WellFormed(es[i]) && Printable(es[i])
    ensures ParseNodes(before + PrintElements(st, 0, es)) == Ok(es, "")
    decreases |es|
  {
    hide ParseElement, PrintElement, ParseNodes, PrintElements, WellFormed, Printable, IsSpace;
    if es == [] {
      NoNodes(st, before);
    } else {
      var rest := PrintElements(st, 0, es[1..]);
      WellFormedName(es[0]);
      FirstNode(st, es, before);
      ElementBack(st, 0, es[0], rest);
      StyleIsSpace(st);
      NodesBack(st, es[1..], st.lineBreak);
      assert es == [es[0]] + es[1..];
    }
  }

  lemma NoNodes(st: Style, before: string)
    requires IsSpace(before)
    ensures ParseNodes(before + PrintElements(st, 0, [])) == Ok([], "")
  {
    assert before + PrintElements(st, 0, []) == before;
    SkipOnlySpace(before);
  }

  lemma FirstNode(st: Style, es: seq<Element>, before: string)
    requires IsSpace(before) && es != [] && IsName(es[0].name)
    ensures ParseNodes(before + PrintElements(st, 0, es))
         == ParseAfter(ParseElement(PrintElement(st, 0, es[0]) + PrintElements(st, 0, es[1..])))
  {
    hide ParseElement, PrintElement, IdentifiesElement, IsPrefix;
    var rest := PrintElements(st, 0, es[1..]);
    var p := PrintElement(st, 0, es[0]) + rest;
    assert Indent(st, 0) + PrintElement(st, 0, es[0]) == PrintElement(st, 0, es[0]);
    PrintElementStarts(st, 0, es[0], rest);
    SkipSpaceOver(before, p);
  }

  function ParseAfter(first: Parsed<Element>): Parsed<seq<Element>> {
    match first
    case Failed => Failed
    case Outside => Outside
    case Ok(e, rest) =>
      match ParseNodes(rest)
      case Failed => Failed
      case Outside => Outside
      case Ok(es, end) => Ok([e] + es, end)
  }

  // Every well-formed document survives being printed and parsed, whatever white
  // space the printer was told to lay it out with.
  lemma DocumentBack(st: Style, es: seq<Element>)
    requires st.Valid() && es != []
    requires forall i :: 0 <= i < |es| ==> WellFormed(es[i]) && Printable(es[i])
    ensures ParseDocument(PrintElements(st, 0, es)) == Ok(es, "")
  {
    hide ParseNodes;
    hide PrintElements;
    hide WellFormed;
    hide Printable;
    NodesBack(st, es, "");
    var s := PrintElements(st, 0, es);
    assert "" + s == s;
    StartsWithTag(st, es);
  }

  lemma StartsWithTag(st: Style, es: seq<Element>)
    requires es != [] && WellFormed(es[0])
    ensures var s := PrintElements(st, 0, es); s != "" && s[0] == '<'
  {
    hide PrintElement;
    PrintElementStarts(st, 0, es[0], PrintElements(st, 0, es[1..]));
    assert PrintElements(st, 0, es) == PrintElement(st, 0, es[0]) + PrintElements(st, 0, es[1..]);
  }

  // Laid out in any two ways, a document reads back as the same tree.
  lemma LayoutDoesNotMatter(st: Style, other: Style, es: seq<Element>)
    requires st.Valid() && other.Valid() && es != []
    requires forall i :: 0 <= i < |es| ==> WellFormed(es[i]) && Printable(es[i])
    ensures ParseDocument(PrintElements(st, 0, es)) == ParseDocument(PrintElements(other, 0, es))
  {
    DocumentBack(st, es);
    DocumentBack(other, es);
  }

  // ---------- when a "&#x" is lost ----------

  // Every value is settled against what is printed behind it; `tail` is what is
  // printed behind the attributes.
  predicate SettledAttrs(attrs: seq<Attr>, tail: string) {
    attrs == [] || (Settled(attrs[0].value, PrintAttrs(attrs[1..]) + tail) && SettledAttrs(attrs[1..], tail))
  }

  predicate SettledElement(st: Style, depth: nat, e: Element, rest: string)
    decreases e, 1
  {
    && SettledAttrs(e.attrs, PrintTail(st, depth, e) + rest)
    && SettledElements(st, depth + 1, e.children, Indent(st, depth) + EndTag(st, e, rest))
  }

  predicate SettledElements(st: Style, depth: nat, es: seq<Element>, rest: string)
    decreases es, 0
  {
    es == [] || (SettledElement(st, depth, es[0], PrintElements(st, depth, es[1..]) + rest)
                 && SettledElements(st, depth, es[1..], rest))
  }

  // With "&#x" in its value an attribute is never read back from its place, whatever
  // follows...
  lemma AttrBackIff(a: Attr, rest: string)
    requires IsName(a.name) && rest != ""
    ensures ParseAttr(PrintAttr(a) + rest) == Ok(a, rest) <==> !HasHexRef(a.value)
  {
    hide ReadText, Encode, ReadName, PrintAttr, ParseAttr;
    PrintedAttrParses(a, rest);
    ValueSurvivesIff(a.value, Quote(a.value), rest);
  }

  // ... and, settled, never as itself.
  lemma AttrLost(a: Attr, rest: string)
    requires IsName(a.name) && HasHexRef(a.value) && rest != "" && Settled(a.value, rest)
    ensures var r := ParseAttr(PrintAttr(a) + rest); r.Ok? ==> r.value != a
  {
    hide ReadText, Encode, ReadName, PrintAttr, ParseAttr;
    PrintedAttrParses(a, rest);
    ValueShrinks(a.value, Quote(a.value), rest);
  }

  lemma FirstAttrLost(sofar: seq<Attr>, a: Attr, rest: string)
    requires IsName(a.name) && HasHexRef(a.value) && rest != "" && Settled(a.value, rest)
    ensures var r := ParseAttrs(" " + PrintAttr(a) + rest, sofar);
            r.Ok? ==> |sofar| < |r.value.attrs| && r.value.attrs[|sofar|] != a
  {
    hide ParseAttr;
    hide Encode;
    hide Settled;
    var p := PrintAttr(a) + rest;
    EncodeNameIsName(a.name);
    assert " " + PrintAttr(a) + rest == " " + p;
    assert p[0] == a.name[0];
    SkipSpaceOver(" ", p);
    AttrLost(a, rest);
    var r := ParseAttr(p);
    if r.Ok? && ParseAttrs(" " + p, sofar).Ok? {
      assert sofar + [r.value] <= ParseAttrs(" " + p, sofar).value.attrs;
      assert ParseAttrs(" " + p, sofar).value.attrs[|sofar|] == (sofar + [r.value])[|sofar|];
    }
  }

  lemma {:induction false} AttrsLost(sofar: seq<Attr>, attrs: seq<Attr>, tail: string)
    requires Distinct(sofar + attrs) && !PrintableAttrs(attrs) && SettledAttrs(attrs, tail) && tail != ""
    ensures var r := ParseAttrs(PrintAttrs(attrs) + tail, sofar); r.Ok? ==> r.value.attrs != sofar + attrs
    decreases |attrs|
  {
    hide ParseAttrs;
    hide PrintAttr;
    hide Settled;
    var a, rest := attrs[0], PrintAttrs(attrs[1..]) + tail;
    assert (sofar + attrs)[|sofar|] == a;
    assert PrintAttrs(attrs) + tail == " " + PrintAttr(a) + rest;
    if HasHexRef(a.value) {
      FirstAttrLost(sofar, a, rest);
    } else {
      assert !HasName(sofar, a.name) by {
        assert forall i :: 0 <= i < |sofar| ==> (sofar + attrs)[i] == sofar[i];
      }
      FirstAttrBack(sofar, a, rest);
      assert sofar + [a] + attrs[1..] == sofar + attrs;
      AttrsLost(sofar + [a], attrs[1..], tail);
    }
  }

  lemma StartTagLost(st: Style, depth: nat, e: Element, rest: string)
    requires st.Valid() && WellFormed(e) && !PrintableAttrs(e.attrs)
    requires SettledAttrs(e.attrs, PrintTail(st, depth, e) + rest)
    ensures var r := ParseElement(PrintElement(st, depth, e) + rest); r.Ok? ==> r.value.attrs != e.attrs
  {
    hide ParseAttrs;
    hide PrintTail;
    hide PrintElement;
    hide PrintAttrs;
    hide ParseElement;
    hide ReadValue;
    hide SettledAttrs;
    hide PrintableAttrs;
    var tail := PrintTail(st, depth, e) + rest;
    AfterNameStarts(st, depth, e, rest);
    PrintElementParts(st, depth, e, rest);
    ElementFromParts(PrintElement(st, depth, e) + rest, e.name, PrintAttrs(e.attrs) + tail);
    assert [] + e.attrs == e.attrs;
    AttrsLost([], e.attrs, tail);
  }

  // The first such value in document order is missed: up to there everything reads
  // back.
  lemma {:induction false} ElementLost(st: Style, depth: nat, e: Element, rest: string)
    requires st.Valid() && WellFormed(e) && !Printable(e) && SettledElement(st, depth, e, rest)
    ensures var r := ParseElement(PrintElement(st, depth, e) + rest); r.Ok? ==> r.value != e
    decreases e, 1
  {
    hide ParseElement;
    hide ParseAttrs;
    hide PrintTail;
    hide PrintElement;
    hide PrintElements;
    hide ReadValue;
    hide SettledAttrs;
    hide SettledElements;
    hide PrintableAttrs;
    if !PrintableAttrs(e.attrs) {
      StartTagLost(st, depth, e, rest);
    } else {
      StartTagBack(st, depth, e, rest);
      OpenTagReads(st, depth, e, rest);
      IndentIsSpace(st, depth);
      EndTagReads(e.name, st.lineBreak, rest);
      ChildrenLost(st, depth + 1, e.children, st.lineBreak, Indent(st, depth), EndTag(st, e, rest));
    }
  }

  lemma {:induction false} ChildrenLost(st: Style, depth: nat, es: seq<Element>, before: string, after: string, end: string)
    requires st.Valid() && IsSpace(before) && IsSpace(after)
    requires IsPrefix("</", end) && SettledElements(st, depth, es, after + end)
    requires forall i :: 0 <= i < |es| ==> WellFormed(es[i])
    requires exists i :: 0 <= i < |es| && !Printable(es[i])
    ensures var r := ReadValue(before + PrintElements(st, depth, es) + after + end); r.Ok? ==> r.value != es
    decreases es, 0
  {
    hide ParseElement, PrintElement, ReadValue, PrintElements, SettledElement, Printable, WellFormed, IsSpace;
    var rest := PrintElements(st, depth, es[1..]) + after + end;
    Assoc(PrintElements(st, depth, es[1..]), after, end);
    WellFormedName(es[0]);
    FirstChild(st, depth, es, before, after, end);
    if !Printable(es[0]) {
      ElementLost(st, depth, es[0], rest);
    } else {
      ElementBack(st, depth, es[0], rest);
      Reassociate(st.lineBreak, PrintElements(st, depth, es[1..]), after, end);
      StyleIsSpace(st);
      ChildrenLost(st, depth, es[1..], st.lineBreak, after, end);
    }
    FirstOrRestDiffers(es);
  }

  lemma WellFormedName(e: Element)
    requires WellFormed(e)
    ensures IsName(e.name)
  {
  }

  lemma FirstOrRestDiffers(es: seq<Element>)
    requires es != []
    ensures forall e, rest: seq<Element> :: e != es[0] || rest != es[1..] ==> [e] + rest != es
  {
    forall e, rest: seq<Element> | [e] + rest == es
      ensures e == es[0] && rest == es[1..]
    {
    }
  }

  lemma {:induction false} NodesLost(st: Style, es: seq<Element>, before: string)
    requires st.Valid() && IsSpace(before) && SettledElements(st, 0, es, "")
    requires forall i :: 0 <= i < |es| ==> WellFormed(es[i])
    requires exists i :: 0 <= i < |es| && !Printable(es[i])
    ensures var r := ParseNodes(before + PrintElements(st, 0, es)); r.Ok? ==> r.value != es
    decreases |es|
  {
    hide ParseElement, PrintElement, ParseNodes, PrintElements, SettledElement, Printable, WellFormed, IsSpace;
    var rest := PrintElements(st, 0, es[1..]);
    assert rest + "" == rest;
    WellFormedName(es[0]);
    FirstNode(st, es, before);
    if !Printable(es[0]) {
      ElementLost(st, 0, es[0], rest);
    } else {
      ElementBack(st, 0, es[0], rest);
      StyleIsSpace(st);
      NodesLost(st, es[1..], st.lineBreak);
    }
    FirstOrRestDiffers(es);
  }

  // A settled document survives exactly when no attribute value holds "&#x".
  lemma DocumentIff(st: Style, es: seq<Element>)
    requires st.Valid() && es != [] && SettledElements(st, 0, es, "")
    requires forall i :: 0 <= i < |es| ==> WellFormed(es[i])
    ensures ParseDocument(PrintElements(st, 0, es)) == Ok(es, "") <==> forall i :: 0 <= i < |es| ==> Printable(es[i])
  {
    hide ParseNodes;
    hide PrintElements;
    hide SettledElements;
    hide WellFormed;
    hide Printable;
    if forall i :: 0 <= i < |es| ==> Printable(es[i]) {
      DocumentBack(st, es);
    } else {
      NodesLost(st, es, "");
      var s := PrintElements(st, 0, es);
      assert "" + s == s;
    }
  }

  // In particular when every "&#x" of every value has its own ';'.
  predicate ClosedValues(e: Element)
    decreases e
  {
    && (forall i :: 0 <= i < |e.attrs| ==> Closed(e.attrs[i].value))
    && (forall i :: 0 <= i < |e.children| ==> ClosedValues(e.children[i]))
  }

  lemma {:induction false} ClosedAttrsSettle(attrs: seq<Attr>, tail: string)
    requires forall i :: 0 <= i < |attrs| ==> Closed(attrs[i].value)
    ensures SettledAttrs(attrs, tail)
  {
    if attrs != [] { ClosedAttrsSettle(attrs[1..], tail); }
  }

  lemma {:induction false} ClosedSettles(st: Style, depth: nat, es: seq<Element>, rest: string)
    requires forall i :: 0 <= i < |es| ==> ClosedValues(es[i])
    ensures SettledElements(st, depth, es, rest)
    decreases es
  {
    if es != [] {
      var e, after := es[0], PrintElements(st, depth, es[1..]) + rest;
      ClosedAttrsSettle(e.attrs, PrintTail(st, depth, e) + after);
      ClosedSettles(st, depth + 1, e.children, Indent(st, depth) + EndTag(st, e, after));
      ClosedSettles(st, depth, es[1..], rest);
    }
  }

  lemma ClosedDocumentIff(st: Style, es: seq<Element>)
    requires st.Valid() && es != []
    requires forall i :: 0 <= i < |es| ==> WellFormed(es[i]) && ClosedValues(es[i])
    ensures ParseDocument(PrintElements(st, 0, es)) == Ok(es, "") <==> forall i :: 0 <= i < |es| ==> Printable(es[i])
  {
    hide *;
    ClosedSettles(st, 0, es, "");
    DocumentIff(st, es);
  }

  // One element with one attribute is settled whatever the value.
  lemma OneAttributeIff(st: Style, name: string, a: Attr)
    requires st.Valid() && IsName(name) && IsName(a.name)
    ensures var e := Element(name, [a], []);
            ParseDocument(PrintElements(st, 0, [e])) == Ok([e], "") <==> !HasHexRef(a.value)
  {
    hide ParseDocument;
    hide Closed;
    hide PrintElement;
    var e := Element(name, [a], []);
    var attrs, es := [a], [e];
    assert attrs[1..] == [] && es[1..] == [];
    NoSemicolon(st, e);
    assert SettledAttrs(attrs, PrintTail(st, 0, e) + "") by { assert SettledAttrs([], PrintTail(st, 0, e) + ""); }
    assert SettledElements(st, 1, [], Indent(st, 0) + EndTag(st, e, ""));
    assert SettledElement(st, 0, e, "");
    assert PrintElements(st, 0, []) + "" == "";
    assert SettledElements(st, 0, es, "") by { assert SettledElements(st, 0, [], ""); }
    DocumentIff(st, es);
    assert Printable(es[0]) <==> !HasHexRef(attrs[0].value);
  }

  lemma NoSemicolon(st: Style, e: Element)
    requires st.Valid() && e.children == []
    ensures ';' !in PrintAttrs([]) + (PrintTail(st, 0, e) + "")
  {
  }
}
