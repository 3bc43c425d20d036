/** The cursor loops of tinyxmlparser.cpp and tinyxml.cpp: a position in one text
    moves forward while strings and lists grow. Each is proved to compute the
    function of XmlText or XmlTree that its contract names. */
module XmlReader {
  import opened Bytes
  import T = XmlText
  import opened XmlTree

  // A cursor after something was read; Null is the null pointer.
  datatype Cursor<+V> = Here(value: V, pos: nat) | Null | Beyond

  function Meaning<V>(s: string, c: Cursor<V>): Parsed<V> {
    match c
    case Null => Failed
    case Beyond => Outside
    case Here(v, p) => if p <= |s| then Ok(v, s[p..]) else Failed
  }

  function FromOption<V>(o: Option<(V, string)>): Parsed<V> {
    match o
    case None => Failed
    case Some((v, rest)) => Ok(v, rest)
  }

  predicate InText<V>(s: string, c: Cursor<V>) {
    c.Here? ==> c.pos <= |s|
  }

  lemma Tail(s: string, p: nat, k: nat)
    requires p + k <= |s|
    ensures s[p..][k..] == s[p + k..]
  {
  }

  lemma Part(s: string, p: nat, n: nat)
    requires p + n <= |s|
    ensures s[p..][..n] == s[p..p + n]
  {
  }

  method SkipWhiteSpace(s: string, p: nat) returns (q: nat)
    requires p <= |s|
    ensures p <= q <= |s| && s[q..] == T.SkipSpace(s[p..])
  {
    q := p;
    while q < |s| && T.IsWhiteSpace(s[q])
      invariant p <= q <= |s| && T.SkipSpace(s[q..]) == T.SkipSpace(s[p..])
    {
      Tail(s, q, 1);
      q := q + 1;
    }
  }

  method ReadName(s: string, p: nat) returns (r: Cursor<string>)
    requires p <= |s|
    ensures InText(s, r) && Meaning(s, r) == FromOption(T.ReadName(s[p..]))
  {
    if p == |s| || !T.IsNameStart(s[p]) { return Null; }
    var q := p;
    while q < |s| && T.IsNameChar(s[q])
      invariant p <= q <= |s|
      invariant T.NameLength(s[p..]) == q - p + T.NameLength(s[q..])
    {
      Tail(s, q, 1);
      q := q + 1;
    }
    Tail(s, p, q - p);
    Part(s, p, q - p);
    r := Here(s[p..q], q);
  }

  // ---------- entities ----------

  method FindChar(s: string, c: char, from: nat) returns (k: nat)
    requires from <= |s|
    ensures from <= k <= |s| && c !in s[from..k] && (k < |s| ==> s[k] == c)
  {
    k := from;
    while k < |s| && s[k] != c
      invariant from <= k <= |s| && c !in s[from..k]
    {
      k := k + 1;
    }
  }

  lemma FoundChar(s: string, p: nat, c: char, from: nat, k: nat)
    requires p + from <= k <= |s| && c !in s[p + from..k] && (k < |s| ==> s[k] == c)
    ensures T.IndexOf(s[p..], c, from) == if k < |s| then Some(k - p) else None
  {
    var t := s[p..];
    assert forall i :: from <= i < k - p ==> t[i] == s[p + from..k][i - from];
    if k < |s| { T.IndexOfAt(t, c, from, k - p); } else { T.IndexOfNone(t, c, from); }
  }

  // The digit loop, backwards from `q`.
  method ReadDigits(s: string, p: nat, from: nat, hex: bool) returns (r: Option<nat>)
    requires p + 1 <= from < |s| && s[p + 1] == '#' && (hex ==> p + 2 <= from && s[p + 2] == 'x')
    ensures r == T.DigitsBack(s[p..], from - p, hex, 1, 0)
  {
    var q: nat, weight: nat, sum: nat := from, 1, 0;
    while s[q] != (if hex then 'x' else '#')
      invariant p + 1 <= q <= from && (hex ==> p + 2 <= q)
      invariant T.DigitsBack(s[p..], from - p, hex, 1, 0) == T.DigitsBack(s[p..], q - p, hex, weight, sum)
      decreases q
    {
      var d := if hex then T.HexDigit(s[q]) else T.DecimalDigit(s[q]);
      if d.None? { return None; }
      sum := (sum + weight * d.value % MAX32) % MAX64;
      weight := weight * (if hex then 16 else 10) % MAX32;
      q := q - 1;
    }
    r := Some(sum);
  }

  method MatchEntity(s: string, p: nat) returns (r: Cursor<string>)
    requires p < |s| && s[p] == '&'
    ensures InText(s, r) && Meaning(s, r) == FromOption(T.NamedEntity(s[p..], 0))
  {
    var i := 0;
    while i < |T.ENTITIES|
      invariant 0 <= i <= |T.ENTITIES|
      invariant T.NamedEntity(s[p..], 0) == T.NamedEntity(s[p..], i)
    {
      var name := T.ENTITIES[i].0;
      if |name| <= |s| - p && s[p..p + |name|] == name {
        Tail(s, p, |name|);
        Part(s, p, |name|);
        return Here([T.ENTITIES[i].1], p + |name|);
      }
      assert !T.IsPrefix(name, s[p..]) by {
        if |name| <= |s| - p { Part(s, p, |name|); }
      }
      i := i + 1;
    }
    Tail(s, p, 1);
    r := Here("", p + 1);
  }

  method GetEntity(s: string, p: nat) returns (r: Cursor<string>)
    requires p < |s| && s[p] == '&'
    ensures InText(s, r) && Meaning(s, r) == FromOption(T.GetEntity(s[p..]))
    ensures r.Here? ==> r.pos > p
  {
    hide T.NamedEntity;
    hide T.DigitsBack;
    if p + 2 < |s| && s[p + 1] == '#' {
      var hex := s[p + 2] == 'x';
      var from := p + if hex then 3 else 2;
      if from == |s| { return Null; }
      var k := FindChar(s, ';', from);
      FoundChar(s, p, ';', from - p, k);
      if k == |s| { return Null; }
      var ucs := ReadDigits(s, p, k - 1, hex);
      if ucs.None? { return Null; }
      Tail(s, p, k + 1 - p);
      return Here([(ucs.value % 256) as char], k + 1);
    }
    r := MatchEntity(s, p);
  }

  method GetChar(s: string, p: nat) returns (r: Cursor<string>)
    requires p < |s|
    ensures InText(s, r) && Meaning(s, r) == FromOption(T.GetChar(s[p..]))
    ensures r.Here? ==> r.pos > p
  {
    hide T.GetEntity;
    if s[p] == '&' {
      r := GetEntity(s, p);
    } else {
      Tail(s, p, 1);
      r := Here([s[p]], p + 1);
    }
  }

  // What is still to be put in front of a text read later.
  function Prepend(text: string, r: Option<(string, string)>): Option<(string, string)> {
    match r
    case None => None
    case Some((t, rest)) => Some((text + t, rest))
  }

  // Keeping white space, up to the quote q.
  method ReadText(s: string, p: nat, q: char) returns (r: Cursor<string>)
    requires p <= |s|
    ensures InText(s, r) && Meaning(s, r) == FromOption(T.ReadText(s[p..], q))
  {
    hide T.GetChar;
    var at, text := p, "";
    PrependNothing(T.ReadText(s[p..], q));
    while at < |s| && s[at] != q
      invariant p <= at <= |s|
      invariant T.ReadText(s[p..], q) == Prepend(text, T.ReadText(s[at..], q))
      decreases |s| - at
    {
      var c := GetChar(s, at);
      if c == Null { return Null; }
      assert c.Here?;
      PrependTwice(text, c.value, T.ReadText(s[c.pos..], q));
      text, at := text + c.value, c.pos;
    }
    if at == |s| || at + 1 == |s| { return Null; }
    Tail(s, at, 1);
    assert text + "" == text;
    r := Here(text, at + 1);
  }

  lemma PrependNothing(r: Option<(string, string)>)
    ensures Prepend("", r) == r
  {
    if r.Some? { assert "" + r.value.0 == r.value.0; }
  }

  lemma PrependTwice(a: string, b: string, r: Option<(string, string)>)
    ensures Prepend(a + b, r) == Prepend(a, Prepend(b, r))
  {
    if r.Some? { assert a + b + r.value.0 == a + (b + r.value.0); }
  }

  method ReadBare(s: string, p: nat) returns (r: Cursor<string>)
    requires p <= |s|
    ensures InText(s, r) && Meaning(s, r) == FromOption(T.ReadBare(s[p..]))
  {
    var at, text := p, "";
    PrependNothing(T.ReadBare(s[p..]));
    while at < |s| && !T.IsWhiteSpace(s[at]) && s[at] != '/' && s[at] != '>'
      invariant p <= at <= |s|
      invariant T.ReadBare(s[p..]) == Prepend(text, T.ReadBare(s[at..]))
    {
      if s[at] == '\'' || s[at] == '\"' { return Null; }
      Tail(s, at, 1);
      PrependTwice(text, [s[at]], T.ReadBare(s[at + 1..]));
      text, at := text + [s[at]], at + 1;
    }
    assert text + "" == text;
    r := Here(text, at);
  }

  // ---------- attributes and elements ----------

  method ParseAttribute(s: string, p: nat) returns (r: Cursor<Attr>)
    requires p <= |s|
    ensures InText(s, r) && Meaning(s, r) == ParseAttr(s[p..])
    ensures r.Here? ==> r.pos > p
  {
    hide T.ReadText;
    hide T.ReadBare;
    hide T.ReadName;
    hide T.SkipSpace;
    var at := SkipWhiteSpace(s, p);
    var name := ReadName(s, at);
    if name == Null { return Null; }
    assert name.Here?;
    at := SkipWhiteSpace(s, name.pos);
    if at == |s| || s[at] != '=' { return Null; }
    Tail(s, at, 1);
    at := SkipWhiteSpace(s, at + 1);
    if at == |s| { return Null; }
    var value;
    if s[at] == '\'' || s[at] == '\"' {
      Tail(s, at, 1);
      value := ReadText(s, at + 1, s[at]);
    } else {
      value := ReadBare(s, at);
    }
    if value == Null { return Null; }
    assert value.Here?;
    r := Here(Attr(name.value, value.value), value.pos);
  }

  method Find(attrs: seq<Attr>, name: string) returns (found: bool)
    ensures found == HasName(attrs, name)
  {
    var i := 0;
    while i < |attrs|
      invariant 0 <= i <= |attrs|
      invariant forall j :: 0 <= j < i ==> attrs[j].name != name
    {
      if attrs[i].name == name { return true; }
      i := i + 1;
    }
    found := false;
  }

  // The loop over attributes in TiXmlElement::Parse.
  method ParseAttributes(s: string, p: nat) returns (r: Cursor<Tag>)
    requires p <= |s|
    ensures InText(s, r) && Meaning(s, r) == ParseAttrs(s[p..], [])
    ensures r.Here? ==> r.pos > p
  {
    hide ParseAttr;
    hide T.SkipSpace;
    var at, attrs := p, [];
    while true
      invariant p <= at <= |s|
      invariant ParseAttrs(s[p..], []) == ParseAttrs(s[at..], attrs)
      decreases |s| - at
    {
      var next := SkipWhiteSpace(s, at);
      if next == |s| { return Null; }
      if s[next] == '/' {
        if next + 1 == |s| || s[next + 1] != '>' { return Null; }
        Tail(s, next, 2);
        return Here(Tag(attrs, true), next + 2);
      }
      if s[next] == '>' {
        Tail(s, next, 1);
        return Here(Tag(attrs, false), next + 1);
      }
      var a := ParseAttribute(s, next);
      if !a.Here? { return if a == Null then Null else Beyond; }
      if a.pos == |s| { return Null; }
      var twice := Find(attrs, a.value.name);
      if twice { return Null; }
      at, attrs := a.pos, attrs + [a.value];
    }
  }

  // TiXmlElement::Parse
  method ParseElementAt(s: string, p: nat) returns (r: Cursor<Element>)
    requires p <= |s|
    ensures InText(s, r) && Meaning(s, r) == ParseElement(s[p..])
    ensures r.Here? ==> r.pos > p
    decreases |s| - p, 0
  {
    hide ParseAttrs;
    hide ReadValue;
    hide ElementAfterTag;
    hide T.ReadName;
    hide T.SkipSpace;
    var at := SkipWhiteSpace(s, p);
    if at == |s| || s[at] != '<' { return Null; }
    Tail(s, at, 1);
    at := SkipWhiteSpace(s, at + 1);
    var name := ReadName(s, at);
    if name == Null { return Null; }
    assert name.Here?;
    if name.pos == |s| { return Null; }
    var tag := ParseAttributes(s, name.pos);
    if !tag.Here? { return if tag == Null then Null else Beyond; }
    if tag.value.selfClosed { return Here(Element(name.value, tag.value.attrs, []), tag.pos); }
    var children := ReadValueAt(s, tag.pos);
    if !children.Here? {
      NoChildren(name.value, tag.value.attrs);
      return if children == Null then Null else Beyond;
    }
    r := ParseEndTag(s, children.pos, name.value, tag.value.attrs, children.value);
  }

  lemma NoChildren(name: string, attrs: seq<Attr>)
    ensures ElementAfterTag(name, attrs, Failed) == Failed && ElementAfterTag(name, attrs, Outside) == Outside
  {
  }

  // The end of TiXmlElement::Parse, once the children are read.
  lemma PrefixAt(t: string, s: string, p: nat)
    requires p <= |s|
    ensures T.IsPrefix(t, s[p..]) <==> p + |t| <= |s| && s[p..p + |t|] == t
  {
    if p + |t| <= |s| { Part(s, p, |t|); }
  }

  method ParseEndTag(s: string, p: nat, name: string, attrs: seq<Attr>, children: seq<Element>)
    returns (r: Cursor<Element>)
    requires p <= |s|
    ensures InText(s, r) && Meaning(s, r) == ElementAfterTag(name, attrs, Ok(children, s[p..]))
    ensures r.Here? ==> r.pos > p
  {
    hide T.SkipSpace, T.IsPrefix;
    var endTag := "</" + name;
    var end := p + |endTag|;
    PrefixAt(endTag, s, p);
    if |s| < end || s[p..end] != endTag { return Null; }
    Tail(s, p, |endTag|);
    var at := SkipWhiteSpace(s, end);
    if at == |s| || s[at] != '>' { return Null; }
    Tail(s, at, 1);
    r := Here(Element(name, attrs, children), at + 1);
  }

  // Children still to come.
  function Append(sofar: seq<Element>, r: Parsed<seq<Element>>): Parsed<seq<Element>> {
    match r
    case Failed => Failed
    case Outside => Outside
    case Ok(es, rest) => Ok(sofar + es, rest)
  }

  lemma AppendNothing(r: Parsed<seq<Element>>)
    ensures Append([], r) == r
  {
    if r.Ok? { assert [] + r.value == r.value; }
  }

  lemma AppendTwice(sofar: seq<Element>, e: Element, r: Parsed<seq<Element>>)
    ensures Append(sofar + [e], r) == Append(sofar, Append([e], r))
  {
    if r.Ok? { assert sofar + [e] + r.value == sofar + ([e] + r.value); }
  }

  // TiXmlElement::ReadValue
  method ReadValueAt(s: string, p: nat) returns (r: Cursor<seq<Element>>)
    requires p <= |s|
    ensures InText(s, r) && Meaning(s, r) == ReadValue(s[p..])
    ensures r.Here? ==> r.pos >= p
    decreases |s| - p, 1
  {
    hide ParseElement;
    hide T.SkipSpace;
    var at, children := p, [];
    AppendNothing(ReadValue(s[p..]));
    while true
      invariant p <= at <= |s|
      invariant ReadValue(s[p..]) == Append(children, ReadValue(s[at..]))
      decreases |s| - at
    {
      var next := SkipWhiteSpace(s, at);
      if next == |s| { return Null; }
      if next + 1 < |s| && s[next..next + 2] == "</" {
        assert s[next..][..2] == s[next..next + 2];
        assert children + [] == children;
        return Here(children, next);
      }
      assert !T.IsPrefix("</", s[next..]) by {
        assert next + 1 < |s| ==> s[next..][..2] == s[next..next + 2];
      }
      if !IdentifiesElement(s[next..]) { return Beyond; }
      var e := ParseElementAt(s, next);
      if !e.Here? { return if e == Null then Null else Beyond; }
      AppendTwice(children, e.value, ReadValue(s[e.pos..]));
      at, children := e.pos, children + [e.value];
    }
  }

  // TiXmlDocument::Parse
  method ParseText(s: string) returns (r: Cursor<seq<Element>>)
    ensures InText(s, r) && Meaning(s, r) == ParseDocument(s)
  {
    hide ParseElement;
    hide T.SkipSpace;
    if HasUtf8Mark(s) { return Beyond; }
    var at, nodes := 0, [];
    AppendNothing(ParseNodes(s));
    assert s[0..] == s;
    while true
      invariant 0 <= at <= |s|
      invariant ParseNodes(s) == Append(nodes, ParseNodes(s[at..]))
      decreases |s| - at
    {
      var next := SkipWhiteSpace(s, at);
      if next == |s| || s[next] != '<' {
        assert nodes + [] == nodes;
        return if nodes == [] then Null else Here(nodes, next);
      }
      if !IdentifiesElement(s[next..]) { return Beyond; }
      var e := ParseElementAt(s, next);
      if !e.Here? { return if e == Null then Null else Beyond; }
      AppendTwice(nodes, e.value, ParseNodes(s[e.pos..]));
      at, nodes := e.pos, nodes + [e.value];
    }
  }

  // ---------- printing ----------

  // The pass-through loop of EncodeString.
  method CopyRun(str: string, start: nat) returns (text: string, i: nat)
    requires start + 1 < |str|
    ensures i == start + T.RawRun(str[start..]) && text == str[start..i]
  {
    hide T.RawRun;
    text, i := "", start;
    while true
      invariant start <= i < |str| - 1
      invariant text == str[start..i]
      invariant T.RawRun(str[start..]) == i - start + T.RawRun(str[i..])
      decreases |str| - i
    {
      RunGoesOn(str, i);
      text := text + [str[i]];
      i := i + 1;
      if str[i] == ';' || i == |str| - 1 { return; }
    }
  }

  lemma RunGoesOn(str: string, i: nat)
    requires i + 1 < |str|
    ensures T.RawRun(str[i..]) == if str[i + 1] == ';' || i + 2 == |str| then 1 else 1 + T.RawRun(str[i + 1..])
  {
    Tail(str, i, 1);
  }

  // TiXmlBase::EncodeString
  method EncodeString(str: string) returns (out: string)
    ensures out == T.Encode(str)
  {
    hide T.EncodeChar, T.Encode, T.RawRun;
    out := "";
    var i := 0;
    NothingYet(str);
    while i < |str|
      invariant 0 <= i <= |str|
      invariant T.Encode(str) == out + T.Encode(str[i..])
    {
      T.EncodeUnfolds(str[i..]);
      if i + 2 < |str| && str[i] == '&' && str[i + 1] == '#' && str[i + 2] == 'x' {
        var text, j := CopyRun(str, i);
        Tail(str, i, j - i);
        Part(str, i, j - i);
        Assoc(out, text, T.Encode(str[j..]));
        out, i := out + text, j;
      } else {
        Tail(str, i, 1);
        Assoc(out, T.EncodeChar(str[i]), T.Encode(str[i + 1..]));
        out := out + T.EncodeChar(str[i]);
        i := i + 1;
      }
    }
    Finished(out);
  }

  lemma NothingYet(str: string)
    ensures T.Encode(str) == "" + T.Encode(str[0..])
  {
    assert str[0..] == str;
  }

  lemma Finished(out: string)
    ensures forall s: string :: s == "" ==> out + T.Encode(s) == out
  {
  }

  lemma {:induction false} PrintAttrsSnoc(attrs: seq<Attr>, i: nat)
    requires i < |attrs|
    ensures PrintAttrs(attrs[..i + 1]) == PrintAttrs(attrs[..i]) + " " + PrintAttr(attrs[i])
  {
    hide PrintAttr;
    if i == 0 {
      assert attrs[..1][1..] == [] && attrs[..0] == [];
      assert PrintAttrs(attrs[..1]) == " " + PrintAttr(attrs[0]) + "";
    } else {
      assert attrs[..i + 1][1..] == attrs[1..][..i] && attrs[..i][1..] == attrs[1..][..i - 1];
      PrintAttrsSnoc(attrs[1..], i - 1);
      assert PrintAttrs(attrs[..i + 1]) == " " + PrintAttr(attrs[0]) + (PrintAttrs(attrs[1..][..i - 1]) + " " + PrintAttr(attrs[i]));
    }
  }

  lemma {:induction false} PrintElementsSnoc(st: Style, depth: nat, es: seq<Element>, i: nat)
    requires i < |es|
    ensures PrintElements(st, depth, es[..i + 1])
         == PrintElements(st, depth, es[..i]) + (Indent(st, depth) + PrintElement(st, depth, es[i]))
  {
    hide PrintElement;
    if i == 0 {
      assert es[..1][1..] == [] && es[..0] == [];
      assert PrintElements(st, depth, es[..1]) == Indent(st, depth) + PrintElement(st, depth, es[0]) + "";
    } else {
      assert es[..i + 1][1..] == es[1..][..i] && es[..i][1..] == es[1..][..i - 1];
      PrintElementsSnoc(st, depth, es[1..], i - 1);
      var last := Indent(st, depth) + PrintElement(st, depth, es[i]);
      assert PrintElements(st, depth, es[..i + 1])
          == Indent(st, depth) + PrintElement(st, depth, es[0]) + (PrintElements(st, depth, es[1..][..i - 1]) + last);
    }
  }

  lemma AttrPrinted(a: Attr)
    ensures PrintAttr(a) == if '\"' in a.value then T.Encode(a.name) + "='" + T.Encode(a.value) + "'"
                            else T.Encode(a.name) + "=\"" + T.Encode(a.value) + "\""
  {
    hide T.Encode;
    var n, q := T.Encode(a.name), Quote(a.value);
    assert n + "=" + [q] == n + (if '\"' in a.value then "='" else "=\"");
    assert [q] == if '\"' in a.value then "'" else "\"";
  }

  lemma AttrJoins(buffer: string, n: string, q: string, v: string, e: string)
    ensures buffer + n + q + v + e == buffer + (n + q + v + e)
  {
    T.Reassociate(buffer, n, q, v);
    Assoc(buffer, n + q + v, e);
  }

  class TiXmlPrinter {
    var depth: nat
    var buffer: string
    var indent: string
    var lineBreak: string

    constructor ()
      ensures depth == 0 && buffer == "" && indent == "    " && lineBreak == "\n"
    {
      depth, buffer, indent, lineBreak := 0, "", "    ", "\n";
    }

    function Layout(): Style
      reads this
    {
      Style(indent, lineBreak)
    }

    method DoIndent()
      modifies this`buffer
      ensures buffer == old(buffer) + Indent(Layout(), depth)
    {
      var i := 0;
      while i < depth
        invariant 0 <= i <= depth
        invariant buffer + Indent(Layout(), depth - i) == old(buffer) + Indent(Layout(), depth)
      {
        assert buffer + indent + Indent(Layout(), depth - i - 1) == buffer + (indent + Indent(Layout(), depth - i - 1));
        buffer := buffer + indent;
        i := i + 1;
      }
    }

    method PrintAttribute(a: Attr)
      modifies this`buffer
      ensures buffer == old(buffer) + PrintAttr(a)
      ensures '\"' !in a.value ==> buffer == old(buffer) + (T.Encode(a.name) + "=\"" + T.Encode(a.value) + "\"")
      ensures '\"' in a.value ==> buffer == old(buffer) + (T.Encode(a.name) + "='" + T.Encode(a.value) + "'")
    {
      hide T.Encode;
      var n := EncodeString(a.name);
      var v := EncodeString(a.value);
      AttrPrinted(a);
      AttrJoins(buffer, n, if '\"' in a.value then "='" else "=\"", v, if '\"' in a.value then "'" else "\"");
      if '\"' !in a.value {
        buffer := buffer + n + "=\"" + v + "\"";
      } else {
        buffer := buffer + n + "='" + v + "'";
      }
    }

    method VisitEnter(e: Element)
      modifies this`buffer, this`depth
      ensures depth == old(depth) + 1
      ensures buffer == old(buffer) + Indent(Layout(), old(depth)) + "<" + e.name + PrintAttrs(e.attrs)
                        + (if e.children == [] then " />" else ">") + lineBreak
    {
      hide PrintAttrs;
      hide PrintAttr;
      DoIndent();
      buffer := buffer + "<" + e.name;
      PrintAttributes(e.attrs);
      buffer := buffer + if e.children == [] then " />" else ">";
      buffer := buffer + lineBreak;
      depth := depth + 1;
    }

    // The attribute loop of VisitEnter.
    method PrintAttributes(attrs: seq<Attr>)
      modifies this`buffer
      ensures buffer == old(buffer) + PrintAttrs(attrs)
    {
      hide PrintAttr;
      var i := 0;
      assert old(buffer) + "" == old(buffer) && attrs[..0] == [];
      while i < |attrs|
        invariant 0 <= i <= |attrs|
        invariant buffer == old(buffer) + PrintAttrs(attrs[..i])
      {
        PrintAttrsSnoc(attrs, i);
        Assoc(old(buffer), PrintAttrs(attrs[..i]), " ");
        buffer := buffer + " ";
        Assoc(old(buffer), PrintAttrs(attrs[..i]) + " ", PrintAttr(attrs[i]));
        PrintAttribute(attrs[i]);
        i := i + 1;
      }
      assert attrs[..i] == attrs;
    }

    method VisitExit(e: Element)
      requires depth > 0
      modifies this`buffer, this`depth
      ensures depth == old(depth) - 1
      ensures buffer == old(buffer) + if e.children == [] then ""
                                      else Indent(Layout(), depth) + "</" + e.name + ">" + lineBreak
    {
      depth := depth - 1;
      if e.children != [] {
        DoIndent();
        buffer := buffer + "</" + e.name + ">" + lineBreak;
      }
    }

    // TiXmlElement::Accept with this printer as the visitor.
    method Accept(e: Element)
      modifies this`buffer, this`depth
      ensures depth == old(depth)
      ensures buffer == old(buffer) + (Indent(Layout(), depth) + PrintElement(Layout(), depth, e))
      decreases e, 1
    {
      hide PrintElement, PrintElements, PrintAttrs, Indent;
      ghost var before, st, d := buffer, Layout(), depth;
      PrintedParts(before, Indent(st, d), st, d, e);
      VisitEnter(e);
      AcceptAll(e, e.children);
      VisitExit(e);
    }

    // A node's loop over its children.
    method AcceptAll(ghost parent: Element, es: seq<Element>)
      requires es == parent.children
      modifies this`buffer, this`depth
      ensures depth == old(depth)
      ensures buffer == old(buffer) + PrintElements(Layout(), depth, es)
      decreases parent, 0
    {
      hide PrintElement;
      ghost var st := Layout();
      var i := 0;
      assert old(buffer) + "" == old(buffer) && es[..0] == [];
      while i < |es|
        invariant 0 <= i <= |es| && depth == old(depth)
        invariant buffer == old(buffer) + PrintElements(st, depth, es[..i])
      {
        PrintElementsSnoc(st, depth, es, i);
        Assoc(old(buffer), PrintElements(st, depth, es[..i]), Indent(st, depth) + PrintElement(st, depth, es[i]));
        Accept(es[i]);
        i := i + 1;
      }
      assert es[..i] == es;
    }

    // TiXmlDocument::Accept, then CStr().
    method PrintDocument(es: seq<Element>) returns (text: string)
      requires depth == 0
      modifies this`buffer, this`depth
      ensures depth == 0
      ensures text == buffer == old(buffer) + PrintElements(Layout(), 0, es)
    {
      AcceptAll(Element("", [], es), es);
      text := buffer;
    }
  }

  lemma NoElements(st: Style, depth: nat)
    ensures PrintElements(st, depth, []) == ""
  {
  }

  // What the printer appends for an element, its children and its end tag.
  lemma PrintedParts(before: string, ind: string, st: Style, depth: nat, e: Element)
    ensures before + ind + "<" + e.name + PrintAttrs(e.attrs) + (if e.children == [] then " />" else ">") + st.lineBreak
            + PrintElements(st, depth + 1, e.children)
            + (if e.children == [] then "" else Indent(st, depth) + "</" + e.name + ">" + st.lineBreak)
         == before + (ind + PrintElement(st, depth, e))
  {
    var start := "<" + e.name + PrintAttrs(e.attrs);
    var mark := if e.children == [] then " />" else ">";
    var end := if e.children == [] then "" else Indent(st, depth) + "</" + e.name + ">" + st.lineBreak;
    PrintElementText(st, depth, e, start);
    hide PrintElement, PrintElements, PrintAttrs, Indent;
    Assoc(before + ind, "<", e.name);
    Assoc(before + ind, "<" + e.name, PrintAttrs(e.attrs));
    PartsJoin(before, ind, start, mark, st.lineBreak, PrintElements(st, depth + 1, e.children), end);
  }

  lemma PartsJoin(before: string, ind: string, start: string, mark: string, lb: string, inner: string, end: string)
    ensures before + ind + start + mark + lb + inner + end == before + (ind + (start + (mark + lb + inner + end)))
  {
    Assoc(before + ind + start, mark, lb);
    Assoc(before + ind + start, mark + lb, inner);
    Assoc(before + ind + start, mark + lb + inner, end);
    Assoc(before + ind, start, mark + lb + inner + end);
    Assoc(before, ind, start + (mark + lb + inner + end));
  }

  lemma PrintElementText(st: Style, depth: nat, e: Element, start: string)
    requires start == "<" + e.name + PrintAttrs(e.attrs)
    ensures PrintElement(st, depth, e)
         == start + ((if e.children == [] then " />" else ">") + st.lineBreak + PrintElements(st, depth + 1, e.children)
                     + (if e.children == [] then "" else Indent(st, depth) + "</" + e.name + ">" + st.lineBreak))
  {
    hide PrintAttrs, PrintElements, Indent;
    if e.children == [] {
      NoElements(st, depth + 1);
      NothingBehind(" />" + st.lineBreak);
    } else {
      EndTagJoins(">" + st.lineBreak + PrintElements(st, depth + 1, e.children), Indent(st, depth), "</", e.name, ">", st.lineBreak);
    }
  }

  lemma NothingBehind(s: string)
    ensures s + "" + "" == s
  {
  }

  lemma EndTagJoins(a: string, b: string, c: string, d: string, e: string, f: string)
    ensures a + b + c + d + e + f == a + (b + c + d + e + f)
  {
    Assoc(a, b, c);
    Assoc(a, b + c, d);
    Assoc(a, b + c + d, e);
    Assoc(a, b + c + d + e, f);
  }

  // The two halves run one after the other: what goes in comes out.
  method PrintThenParse(es: seq<Element>) returns (r: Cursor<seq<Element>>)
    requires es != [] && forall i :: 0 <= i < |es| ==> WellFormed(es[i]) && Printable(es[i])
    ensures r.Here? && r.value == es
  {
    var printer := new TiXmlPrinter();
    var text := printer.PrintDocument(es);
    assert "" + PrintElements(printer.Layout(), 0, es) == PrintElements(printer.Layout(), 0, es);
    DocumentBack(printer.Layout(), es);
    r := ParseText(text);
  }
}
