/** Every way of writing a tree that the reader knows: white space wherever it may stand,
    either quote or none, characters as they are or as references, and empty elements
    with or without an end tag. All of them read as the tree. */
module XmlSpelling {
  import opened Bytes
  import opened XmlText
  import opened XmlTree
  import opened XmlRefs

  datatype Entity = Amp | Lt | Gt | Quot | Apos

  // One character of a quoted value.
  datatype Piece = Raw(c: char) | Named(e: Entity) | Reference(ds: string) | HexadecimalReference(ds: string)

  function EntityText(e: Entity): string {
    match e
    case Amp => "&amp;"
    case Lt => "&lt;"
    case Gt => "&gt;"
    case Quot => "&quot;"
    case Apos => "&apos;"
  }

  function EntityChar(e: Entity): char {
    match e
    case Amp => '&'
    case Lt => '<'
    case Gt => '>'
    case Quot => '\"'
    case Apos => '\''
  }

  function PieceText(p: Piece): string {
    match p
    case Raw(c) => [c]
    case Named(e) => EntityText(e)
    case Reference(ds) => "&#" + ds + ";"
    case HexadecimalReference(ds) => "&#x" + ds + ";"
  }

  function PieceChar(p: Piece): char {
    match p
    case Raw(c) => c
    case Named(e) => EntityChar(e)
    case Reference(ds) => (Value(ds, 10) % 256) as char
    case HexadecimalReference(ds) => (Value(ds, 16) % 256) as char
  }

  predicate PieceOk(p: Piece, q: char) {
    match p
    case Raw(c) => c != '&' && c != q
    case Named(_) => true
    case Reference(ds) => Digits(ds, 10)
    case HexadecimalReference(ds) => Digits(ds, 16)
  }

  function PiecesText(ps: seq<Piece>): string {
    if ps == [] then "" else PieceText(ps[0]) + PiecesText(ps[1..])
  }

  function PiecesChars(ps: seq<Piece>): string {
    if ps == [] then "" else [PieceChar(ps[0])] + PiecesChars(ps[1..])
  }

  predicate PiecesOk(ps: seq<Piece>, q: char) {
    forall i :: 0 <= i < |ps| ==> PieceOk(ps[i], q)
  }

  predicate IsQuote(q: char) {
    q == '\'' || q == '\"'
  }

  lemma PieceRead(p: Piece, q: char, t: string)
    requires PieceOk(p, q) && IsQuote(q)
    ensures GetChar(PieceText(p) + t) == Some(([PieceChar(p)], t))
    ensures PieceText(p) != "" && PieceText(p)[0] != q
  {
    hide GetEntity, Value, Digits;
    match p
    case Raw(c) => assert ([c] + t)[1..] == t;
    case Named(e) => NamedReferences(t);
    case Reference(ds) => DecimalReference(ds, t);
    case HexadecimalReference(ds) => HexReference(ds, t);
  }

  // A value in quotes, however its characters are written.
  lemma {:induction false} ValueSpelled(ps: seq<Piece>, q: char, rest: string)
    requires PiecesOk(ps, q) && IsQuote(q) && rest != ""
    ensures ReadText(PiecesText(ps) + [q] + rest, q) == Some((PiecesChars(ps), rest))
  {
    hide GetChar, ReadText, PieceText, PieceChar, PieceOk;
    if ps == [] {
      NothingInFront(PiecesText(ps), q, rest);
      ReadClosingQuote(q, rest);
    } else {
      var p, t := ps[0], PiecesText(ps[1..]) + [q] + rest;
      PieceRead(p, q, t);
      ValueSpelled(ps[1..], q, rest);
      Reassociate(PieceText(p), PiecesText(ps[1..]), [q], rest);
      StartsWith(PieceText(p), t);
      ReadStep(PieceText(p) + t, [PieceChar(p)], t, q, PiecesChars(ps[1..]), rest);
    }
  }

  lemma StartsWith(a: string, t: string)
    requires a != ""
    ensures a + t != "" && (a + t)[0] == a[0]
  {
  }

  // ---------- attributes ----------

  datatype ValueSpelling = Quoted(q: char, ps: seq<Piece>) | Bare(v: string)

  datatype AttrSpelling = AttrSpelling(lead: string, name: string, before: string, behind: string, value: ValueSpelling)

  function ValueText(v: ValueSpelling): string {
    match v
    case Quoted(q, ps) => [q] + PiecesText(ps) + [q]
    case Bare(v) => v
  }

  function ValueChars(v: ValueSpelling): string {
    match v
    case Quoted(_, ps) => PiecesChars(ps)
    case Bare(v) => v
  }

  // Without quotes: anything but white space, quotes, '/' and '>'.
  predicate EndsBare(c: char) {
    IsWhiteSpace(c) || c == '/' || c == '>'
  }

  predicate ValueOk(v: ValueSpelling) {
    match v
    case Quoted(q, ps) => IsQuote(q) && PiecesOk(ps, q)
    case Bare(v) => v != "" && forall i :: 0 <= i < |v| ==> !EndsBare(v[i]) && !IsQuote(v[i])
  }

  // Without the white space in front.
  function AttrText(a: AttrSpelling): string {
    a.name + a.before + "=" + a.behind + ValueText(a.value)
  }

  function AttrOf(a: AttrSpelling): Attr {
    Attr(a.name, ValueChars(a.value))
  }

  predicate AttrOk(a: AttrSpelling) {
    IsSpace(a.lead) && IsName(a.name) && IsSpace(a.before) && IsSpace(a.behind) && ValueOk(a.value)
  }

  lemma {:induction false} BareRead(v: string, rest: string)
    requires forall i :: 0 <= i < |v| ==> !EndsBare(v[i]) && !IsQuote(v[i])
    requires rest == "" || EndsBare(rest[0])
    ensures ReadBare(v + rest) == Some((v, rest))
  {
    if v == "" {
      assert v + rest == rest;
    } else {
      assert (v + rest)[1..] == v[1..] + rest;
      BareRead(v[1..], rest);
      assert v == [v[0]] + v[1..];
    }
  }

  function ReadAttrValue(v: string): Option<(string, string)>
    requires v != ""
  {
    if IsQuote(v[0]) then ReadText(v[1..], v[0]) else ReadBare(v)
  }

  lemma ValueReads(v: ValueSpelling, rest: string)
    requires ValueOk(v) && rest != "" && (v.Bare? ==> EndsBare(rest[0]))
    ensures var s := ValueText(v) + rest;
            s != "" && !IsWhiteSpace(s[0]) && ReadAttrValue(s) == Some((ValueChars(v), rest))
  {
    hide ReadText, ReadBare, PiecesText;
    match v
    case Quoted(q, ps) =>
      QuoteFirst(q, PiecesText(ps), rest);
      ValueSpelled(ps, q, rest);
    case Bare(w) =>
      BareRead(w, rest);
      StartsWith(w, rest);
  }

  lemma QuoteFirst(q: char, inner: string, rest: string)
    ensures var s := [q] + inner + [q] + rest; s != "" && s[0] == q && s[1..] == inner + [q] + rest
  {
    Reassociate([q], inner, [q], rest);
    assert ([q] + (inner + [q] + rest))[1..] == inner + [q] + rest;
  }

  lemma ParseAttrParts(s: string, name: string, afterName: string, eq: string, v: string)
    requires IsName(name) && s == name + afterName && (afterName == "" || !IsNameChar(afterName[0]))
    requires SkipSpace(afterName) == eq && eq != "" && eq[0] == '=' && SkipSpace(eq[1..]) == v && v != ""
    ensures ParseAttr(s) == match ReadAttrValue(v)
                            case None => Failed
                            case Some((value, rest)) => Ok(Attr(name, value), rest)
  {
    hide ReadText, ReadBare;
    StartsWith(name, afterName);
    assert SkipSpace(s) == s;
    ReadNameBack(name, afterName);
  }

  // An attribute, with white space around '=', in either quote or none.
  lemma AttrSpelled(a: AttrSpelling, rest: string)
    requires AttrOk(a) && rest != "" && (a.value.Bare? ==> EndsBare(rest[0]))
    ensures ParseAttr(AttrText(a) + rest) == Ok(AttrOf(a), rest)
  {
    hide ParseAttr, ReadAttrValue, ValueText, ValueOk, IsName;
    var v := ValueText(a.value) + rest;
    ValueReads(a.value, rest);
    var eq := "=" + (a.behind + v);
    var afterName := a.before + eq;
    SkipSpaceOver(a.before, eq);
    SkipSpaceOver(a.behind, v);
    assert eq[1..] == a.behind + v;
    AttrJoins(a.name, a.before, a.behind, ValueText(a.value), rest);
    SpaceOrEquals(a.before, eq);
    ParseAttrParts(AttrText(a) + rest, a.name, afterName, eq, v);
  }

  lemma AttrJoins(name: string, before: string, behind: string, value: string, rest: string)
    ensures name + before + "=" + behind + value + rest == name + (before + ("=" + (behind + (value + rest))))
  {
    Assoc(name + before + "=" + behind, value, rest);
    Assoc(name + before + "=", behind, value + rest);
    Assoc(name + before, "=", behind + (value + rest));
    Assoc(name, before, "=" + (behind + (value + rest)));
  }

  lemma SpaceOrEquals(w: string, eq: string)
    requires IsSpace(w) && eq != "" && eq[0] == '='
    ensures w + eq != "" && !IsNameChar((w + eq)[0])
  {
    if w == "" { assert w + eq == eq; } else { StartsWith(w, eq); }
  }

  function AttrsText(attrs: seq<AttrSpelling>): string {
    if attrs == [] then "" else attrs[0].lead + AttrText(attrs[0]) + AttrsText(attrs[1..])
  }

  function AttrsOf(attrs: seq<AttrSpelling>): (r: seq<Attr>)
    ensures |r| == |attrs|
    ensures forall i :: 0 <= i < |r| ==> r[i] == AttrOf(attrs[i])
  {
    if attrs == [] then [] else [AttrOf(attrs[0])] + AttrsOf(attrs[1..])
  }

  // White space stands before an attribute, unless a quote does.
  predicate AttrsOk(attrs: seq<AttrSpelling>, quoteBefore: bool) {
    attrs == []
    || (AttrOk(attrs[0]) && (attrs[0].lead == "" ==> quoteBefore) && AttrsOk(attrs[1..], attrs[0].value.Quoted?))
  }

  lemma AttrsStart(attrs: seq<AttrSpelling>, quoteBefore: bool, tail: string)
    requires AttrsOk(attrs, quoteBefore) && tail != "" && EndsBare(tail[0])
    ensures AttrsText(attrs) + tail != "" && (!quoteBefore ==> EndsBare((AttrsText(attrs) + tail)[0]))
  {
    if attrs == [] {
      assert AttrsText(attrs) + tail == tail;
    } else if attrs[0].lead != "" {
      assert (AttrsText(attrs) + tail)[0] == attrs[0].lead[0];
    }
  }

  // A start tag's attributes, in order.
  lemma {:induction false} AttrsSpelled(attrs: seq<AttrSpelling>, quoteBefore: bool, sofar: seq<Attr>, tail: string)
    requires AttrsOk(attrs, quoteBefore) && tail != "" && EndsBare(tail[0])
    requires Distinct(sofar + AttrsOf(attrs))
    ensures ParseAttrs(AttrsText(attrs) + tail, sofar) == ParseAttrs(tail, sofar + AttrsOf(attrs))
    decreases |attrs|
  {
    hide ParseAttrs, AttrText, AttrOk, EndsBare;
    if attrs == [] {
      assert AttrsText(attrs) + tail == tail && sofar + AttrsOf(attrs) == sofar;
    } else {
      var a, rest := attrs[0], AttrsText(attrs[1..]) + tail;
      AttrsStart(attrs[1..], a.value.Quoted?, tail);
      assert (sofar + AttrsOf(attrs))[|sofar|] == AttrOf(a);
      assert !HasName(sofar, a.name) by {
        assert forall i :: 0 <= i < |sofar| ==> (sofar + AttrsOf(attrs))[i] == sofar[i];
      }
      FirstAttrSpelled(a, sofar, rest);
      Assoc(a.lead + AttrText(a), AttrsText(attrs[1..]), tail);
      Assoc(sofar, [AttrOf(a)], AttrsOf(attrs[1..]));
      AttrsSpelled(attrs[1..], a.value.Quoted?, sofar + [AttrOf(a)], tail);
    }
  }

  lemma FirstAttrSpelled(a: AttrSpelling, sofar: seq<Attr>, rest: string)
    requires AttrOk(a) && rest != "" && (a.value.Bare? ==> EndsBare(rest[0])) && !HasName(sofar, a.name)
    ensures ParseAttrs(a.lead + AttrText(a) + rest, sofar) == ParseAttrs(rest, sofar + [AttrOf(a)])
  {
    hide ParseAttr;
    var p := AttrText(a) + rest;
    AttrJoins(a.name, a.before, a.behind, ValueText(a.value), rest);
    assert p[0] == a.name[0];
    Assoc(a.lead, AttrText(a), rest);
    SkipSpaceOver(a.lead, p);
    AttrSpelled(a, rest);
  }

  // ---------- elements ----------

  // `lead` stands before the element, `gap` before the end of its start tag.
  datatype Spelled = Spelled(lead: string, name: string, attrs: seq<AttrSpelling>, gap: string, body: Body)

  // Ended by "/>", or by an end tag behind children; `before` is white space in front
  // of the end tag and `endGap` inside it.
  datatype Body = SelfClosed | Open(kids: seq<Spelled>, before: string, endGap: string)

  function ElementText(e: Spelled): string
    decreases e, 1
  {
    "<" + e.name + AttrsText(e.attrs) + (e.gap + BodyText(e))
  }

  function BodyText(e: Spelled): string
    decreases e, 0
  {
    match e.body
    case SelfClosed => "/>"
    case Open(kids, before, endGap) => ">" + ElementsText(kids) + before + EndText(e.name, endGap)
  }

  function EndText(name: string, endGap: string): string {
    "</" + name + endGap + ">"
  }

  function ElementsText(es: seq<Spelled>): string
    decreases es
  {
    if es == [] then "" else es[0].lead + ElementText(es[0]) + ElementsText(es[1..])
  }

  function TreeOf(e: Spelled): Element
    decreases e
  {
    Element(e.name, AttrsOf(e.attrs), if e.body.Open? then TreesOf(e.body.kids) else [])
  }

  function TreesOf(es: seq<Spelled>): seq<Element>
    decreases es
  {
    if es == [] then [] else [TreeOf(es[0])] + TreesOf(es[1..])
  }

  predicate ElementOk(e: Spelled)
    decreases e
  {
    && IsSpace(e.lead) && IsName(e.name) && AttrsOk(e.attrs, false) && Distinct(AttrsOf(e.attrs)) && IsSpace(e.gap)
    && (e.body.Open? ==> IsSpace(e.body.before) && IsSpace(e.body.endGap) && ElementsOk(e.body.kids))
  }

  predicate ElementsOk(es: seq<Spelled>)
    decreases es
  {
    es == [] || (ElementOk(es[0]) && ElementsOk(es[1..]))
  }

  lemma GapStarts(e: Spelled, rest: string)
    requires IsSpace(e.gap)
    ensures var tail := e.gap + BodyText(e) + rest; tail != "" && EndsBare(tail[0])
    ensures BodyText(e) != "" && !IsWhiteSpace(BodyText(e)[0])
  {
    hide ElementsText;
    if e.gap != "" { assert (e.gap + BodyText(e) + rest)[0] == e.gap[0]; }
    else { assert (e.gap + BodyText(e) + rest)[0] == BodyText(e)[0]; }
  }

  lemma TagEnd(e: Spelled, rest: string, attrs: seq<Attr>)
    requires IsSpace(e.gap)
    ensures ParseAttrs(e.gap + BodyText(e) + rest, attrs)
         == if e.body.SelfClosed? then Ok(Tag(attrs, true), rest)
            else Ok(Tag(attrs, false), ElementsText(e.body.kids) + e.body.before + (EndText(e.name, e.body.endGap) + rest))
  {
    hide ElementsText, EndText, ParseAttr;
    var p := BodyText(e) + rest;
    Assoc(e.gap, BodyText(e), rest);
    assert !IsWhiteSpace(p[0]);
    SkipSpaceOver(e.gap, p);
    if e.body.SelfClosed? {
      assert p[2..] == rest;
    } else {
      var end := EndText(e.name, e.body.endGap);
      var inner := ElementsText(e.body.kids) + e.body.before + (end + rest);
      TagJoins(ElementsText(e.body.kids), e.body.before, end, rest);
      assert (">" + inner)[1..] == inner;
    }
  }

  lemma TagJoins(kids: string, before: string, end: string, rest: string)
    ensures ">" + kids + before + end + rest == ">" + (kids + before + (end + rest))
  {
    Assoc(">" + kids + before, end, rest);
    Assoc(">" + kids, before, end + rest);
    Assoc(">", kids, before + (end + rest));
    Assoc(kids, before, end + rest);
  }

  lemma EndReads(name: string, endGap: string, rest: string)
    requires IsSpace(endGap)
    ensures var end := EndText(name, endGap) + rest;
            IsPrefix("</", end) && IsPrefix("</" + name, end) && SkipSpace(end[2 + |name|..]) == ">" + rest
  {
    var end := EndText(name, endGap) + rest;
    assert end[..2 + |name|] == "</" + name && end[..2] == "</";
    assert end[2 + |name|..] == endGap + (">" + rest);
    SkipSpaceOver(endGap, ">" + rest);
  }

  lemma ElementTextParts(e: Spelled, rest: string)
    ensures ElementText(e) + rest == "<" + e.name + (AttrsText(e.attrs) + (e.gap + BodyText(e) + rest))
  {
    hide AttrsText, BodyText;
    Assoc("<" + e.name + AttrsText(e.attrs), e.gap + BodyText(e), rest);
    Assoc("<" + e.name, AttrsText(e.attrs), e.gap + BodyText(e) + rest);
  }

  // An element in any spelling.
  lemma {:induction false} ElementSpelled(e: Spelled, rest: string)
    requires ElementOk(e)
    ensures ParseElement(ElementText(e) + rest) == Ok(TreeOf(e), rest)
    decreases e, 1
  {
    hide ParseElement, ParseAttrs, ReadValue, AttrsText, BodyText, ElementText, ElementsText, EndText, ElementsOk, AttrsOk, EndsBare;
    hide IsPrefix, IsName;
    var tail := e.gap + BodyText(e) + rest;
    GapStarts(e, rest);
    AttrsStart(e.attrs, false, tail);
    EndsNoName((AttrsText(e.attrs) + tail)[0]);
    ElementTextParts(e, rest);
    ElementFromParts(ElementText(e) + rest, e.name, AttrsText(e.attrs) + tail);
    assert [] + AttrsOf(e.attrs) == AttrsOf(e.attrs);
    AttrsSpelled(e.attrs, false, [], tail);
    TagEnd(e, rest, AttrsOf(e.attrs));
    if e.body.Open? {
      EndReads(e.name, e.body.endGap, rest);
      KidsSpelled(e.body.kids, e.body.before, EndText(e.name, e.body.endGap) + rest);
      assert (">" + rest)[1..] == rest;
    }
  }

  lemma EndsNoName(c: char)
    ensures EndsBare(c) ==> !IsNameChar(c)
  {
  }

  lemma {:induction false} KidsSpelled(es: seq<Spelled>, before: string, end: string)
    requires ElementsOk(es) && IsSpace(before) && IsPrefix("</", end)
    ensures ReadValue(ElementsText(es) + before + end) == Ok(TreesOf(es), end)
    decreases es, 0
  {
    hide ParseElement, ReadValue, ElementText, ElementsText, ElementOk, IsSpace, IsPrefix, TreeOf;
    ElementsTextIs(es);
    if es == [] {
      NoKids(before, end);
    } else {
      var rest := ElementsText(es[1..]) + before + end;
      LeadIs(es[0]);
      FirstKid(es[0], rest);
      KidJoins(es[0].lead, ElementText(es[0]), ElementsText(es[1..]), before, end);
      ElementSpelled(es[0], rest);
      KidsSpelled(es[1..], before, end);
    }
  }

  lemma ElementsTextIs(es: seq<Spelled>)
    ensures ElementsText(es) == if es == [] then "" else es[0].lead + ElementText(es[0]) + ElementsText(es[1..])
  {
    hide ElementText;
  }

  lemma LeadIs(e: Spelled)
    requires ElementOk(e)
    ensures IsSpace(e.lead) && IsName(e.name)
  {
  }

  lemma KidJoins(lead: string, first: string, others: string, before: string, end: string)
    ensures lead + first + others + before + end == lead + (first + (others + before + end))
  {
    Assoc(lead + first + others, before, end);
    Assoc(lead + first, others, before + end);
    Assoc(others, before, end);
    Assoc(lead, first, others + before + end);
  }

  lemma NoKids(before: string, end: string)
    requires IsSpace(before) && IsPrefix("</", end)
    ensures ReadValue("" + before + end) == Ok([], end)
  {
    assert end[..2] == "</" && "" + before == before;
    SkipSpaceOver(before, end);
  }

  lemma ElementStarts(e: Spelled, rest: string)
    requires IsName(e.name)
    ensures var p := ElementText(e) + rest;
            IdentifiesElement(p) && !IsPrefix("</", p) && p != "" && !IsWhiteSpace(p[0]) && p[0] == '<'
  {
    hide AttrsText, BodyText;
    ElementTextParts(e, rest);
    var p := ElementText(e) + rest;
    assert p[0] == '<' && p[1] == e.name[0];
    NotPrefix("</", p, 1);
  }

  lemma FirstKid(e: Spelled, rest: string)
    requires IsSpace(e.lead) && IsName(e.name)
    ensures ReadValue(e.lead + (ElementText(e) + rest)) == ReadAfter(ParseElement(ElementText(e) + rest))
  {
    hide ParseElement, ElementText, IdentifiesElement, IsPrefix;
    ElementStarts(e, rest);
    SkipSpaceOver(e.lead, ElementText(e) + rest);
  }

  lemma FirstOfDocument(e: Spelled, rest: string)
    requires IsSpace(e.lead) && IsName(e.name)
    ensures ParseNodes(e.lead + (ElementText(e) + rest)) == ParseAfter(ParseElement(ElementText(e) + rest))
  {
    hide ParseElement, ElementText, IdentifiesElement, IsPrefix;
    ElementStarts(e, rest);
    SkipSpaceOver(e.lead, ElementText(e) + rest);
  }

  lemma {:induction false} NodesSpelled(es: seq<Spelled>, trail: string)
    requires ElementsOk(es) && IsSpace(trail)
    ensures ParseNodes(ElementsText(es) + trail) == Ok(TreesOf(es), "")
    decreases |es|
  {
    hide ParseElement, ParseNodes, ElementText, ElementsText, ElementOk, IsSpace, TreeOf;
    ElementsTextIs(es);
    if es == [] {
      OnlySpace(trail);
    } else {
      var rest := ElementsText(es[1..]) + trail;
      LeadIs(es[0]);
      FirstOfDocument(es[0], rest);
      Assoc(es[0].lead + ElementText(es[0]), ElementsText(es[1..]), trail);
      Assoc(es[0].lead, ElementText(es[0]), rest);
      ElementSpelled(es[0], rest);
      NodesSpelled(es[1..], trail);
    }
  }

  lemma OnlySpace(trail: string)
    requires IsSpace(trail)
    ensures ParseNodes("" + trail) == Ok([], "")
  {
    assert "" + trail == trail;
    SkipOnlySpace(trail);
  }

  // Every document of at least one element, in any spelling, reads as its trees.
  lemma DocumentSpelled(es: seq<Spelled>, trail: string)
    requires es != [] && ElementsOk(es) && IsSpace(trail)
    ensures ParseDocument(ElementsText(es) + trail) == Ok(TreesOf(es), "")
  {
    hide ParseNodes, ElementText, ElementOk, TreeOf;
    NodesSpelled(es, trail);
    LeadIs(es[0]);
    var s := ElementsText(es) + trail;
    var rest := ElementsText(es[1..]) + trail;
    Assoc(es[0].lead + ElementText(es[0]), ElementsText(es[1..]), trail);
    Assoc(es[0].lead, ElementText(es[0]), rest);
    ElementStarts(es[0], rest);
    NoMark(es[0].lead, ElementText(es[0]) + rest);
  }

  lemma NoMark(w: string, p: string)
    requires IsSpace(w) && p != "" && p[0] == '<'
    ensures !HasUtf8Mark(w + p)
  {
    if w == "" { assert w + p == p; } else { StartsWith(w, p); }
  }

  // ---------- what is refused ----------

  // Some name has been read before, or comes twice.
  ghost predicate Repeats(sofar: seq<Attr>, attrs: seq<AttrSpelling>) {
    exists j :: 0 <= j < |attrs|
                && (HasName(sofar, attrs[j].name) || exists i :: 0 <= i < j && attrs[i].name == attrs[j].name)
  }

  lemma RepeatsLater(sofar: seq<Attr>, attrs: seq<AttrSpelling>)
    requires Repeats(sofar, attrs) && !HasName(sofar, attrs[0].name)
    ensures Repeats(sofar + [AttrOf(attrs[0])], attrs[1..])
  {
    var more, rest := sofar + [AttrOf(attrs[0])], attrs[1..];
    var j :| 0 <= j < |attrs|
             && (HasName(sofar, attrs[j].name) || exists i :: 0 <= i < j && attrs[i].name == attrs[j].name);
    assert j > 0 && rest[j - 1] == attrs[j];
    if HasName(sofar, attrs[j].name) {
      var i :| 0 <= i < |sofar| && sofar[i].name == attrs[j].name;
      assert more[i] == sofar[i];
    } else {
      var i :| 0 <= i < j && attrs[i].name == attrs[j].name;
      if i == 0 { assert more[|sofar|] == AttrOf(attrs[0]); } else { assert rest[i - 1] == attrs[i]; }
    }
  }

  lemma {:induction false} AttrsRefused(attrs: seq<AttrSpelling>, quoteBefore: bool, sofar: seq<Attr>, tail: string)
    requires AttrsOk(attrs, quoteBefore) && tail != "" && EndsBare(tail[0]) && Repeats(sofar, attrs)
    ensures ParseAttrs(AttrsText(attrs) + tail, sofar) == Failed
    decreases |attrs|
  {
    hide ParseAttrs, AttrText, AttrOk, EndsBare;
    var a, rest := attrs[0], AttrsText(attrs[1..]) + tail;
    AttrsStart(attrs[1..], a.value.Quoted?, tail);
    Assoc(a.lead + AttrText(a), AttrsText(attrs[1..]), tail);
    if HasName(sofar, a.name) {
      FirstAttrRefused(a, sofar, rest);
    } else {
      FirstAttrSpelled(a, sofar, rest);
      RepeatsLater(sofar, attrs);
      AttrsRefused(attrs[1..], a.value.Quoted?, sofar + [AttrOf(a)], tail);
    }
  }

  lemma FirstAttrRefused(a: AttrSpelling, sofar: seq<Attr>, rest: string)
    requires AttrOk(a) && rest != "" && (a.value.Bare? ==> EndsBare(rest[0])) && HasName(sofar, a.name)
    ensures ParseAttrs(a.lead + AttrText(a) + rest, sofar) == Failed
  {
    hide ParseAttr;
    var p := AttrText(a) + rest;
    AttrJoins(a.name, a.before, a.behind, ValueText(a.value), rest);
    assert p[0] == a.name[0];
    Assoc(a.lead, AttrText(a), rest);
    SkipSpaceOver(a.lead, p);
    AttrSpelled(a, rest);
  }

  // An element with a repeated attribute name is refused, whatever is in it.
  lemma RepeatedNameFails(e: Spelled, rest: string)
    requires IsName(e.name) && AttrsOk(e.attrs, false) && IsSpace(e.gap)
    requires exists i, j :: 0 <= i < j < |e.attrs| && e.attrs[i].name == e.attrs[j].name
    ensures ParseElement(ElementText(e) + rest) == Failed
  {
    hide ParseElement, ParseAttrs, AttrsText, BodyText, ElementText, AttrsOk, EndsBare, IsName;
    var tail := e.gap + BodyText(e) + rest;
    GapStarts(e, rest);
    AttrsStart(e.attrs, false, tail);
    EndsNoName((AttrsText(e.attrs) + tail)[0]);
    ElementTextParts(e, rest);
    ElementFromParts(ElementText(e) + rest, e.name, AttrsText(e.attrs) + tail);
    assert Repeats([], e.attrs);
    AttrsRefused(e.attrs, false, [], tail);
  }

  // So is one whose children end at an end tag that does not start with its name.
  lemma WrongEndTagFails(e: Spelled, end: string)
    requires ElementOk(e) && e.body.Open? && IsPrefix("</", end) && !IsPrefix("</" + e.name, end)
    ensures ParseElement("<" + e.name + (AttrsText(e.attrs) + (e.gap + (">" + (ElementsText(e.body.kids) + e.body.before + end)))))
         == Failed
  {
    hide ParseElement, ReadValue, AttrsText, ElementsText, ElementsOk, AttrsOk, EndsBare, IsPrefix, IsName;
    var inner := ElementsText(e.body.kids) + e.body.before + end;
    var tail := e.gap + (">" + inner);
    OpenTail(e.gap, inner, AttrsOf(e.attrs));
    AttrsStart(e.attrs, false, tail);
    EndsNoName((AttrsText(e.attrs) + tail)[0]);
    ElementFromParts("<" + e.name + (AttrsText(e.attrs) + tail), e.name, AttrsText(e.attrs) + tail);
    assert [] + AttrsOf(e.attrs) == AttrsOf(e.attrs);
    AttrsSpelled(e.attrs, false, [], tail);
    KidsSpelled(e.body.kids, e.body.before, end);
  }

  lemma OpenTail(gap: string, inner: string, attrs: seq<Attr>)
    requires IsSpace(gap)
    ensures var tail := gap + (">" + inner);
            tail != "" && EndsBare(tail[0]) && ParseAttrs(tail, attrs) == Ok(Tag(attrs, false), inner)
  {
    hide ParseAttr;
    var p := ">" + inner;
    assert p[0] == '>' && p[1..] == inner;
    SkipSpaceOver(gap, p);
    if gap == "" { assert gap + p == p; } else { StartsWith(gap, p); }
  }
}
