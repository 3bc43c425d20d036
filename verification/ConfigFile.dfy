/** Config of src/utils/config.cpp: load's passes over the lines, the look-ups, and
    add_token, over sections whose chained tokens carry their stored index. */
module ConfigFile {
  import opened Bytes
  import opened ConfigIndex
  import opened Lists

  // ------------------------------------------------------------------- load

  // Dropping the last line never makes a file unreadable.
  lemma {:induction false} ReadableFront(lines: seq<Line>, n: nat)
    requires n <= |lines| && Readable(SplitOf(lines))
    ensures Readable(SplitOf(lines[..n]))
    decreases |lines|
  {
    hide Readable;
    if n == |lines| {
      assert lines[..n] == lines;
    } else {
      var front := lines[..|lines| - 1];
      ReadableButLast(front, lines[|lines| - 1]);
      assert front + [lines[|lines| - 1]] == lines;
      ReadableFront(front, n);
      assert front[..n] == lines[..n];
    }
  }

  lemma RawButLast(r: Raw, l: Line)
    requires RawOk(Raw(r.name, r.body + [l]))
    ensures RawOk(r)
  {
    var body := r.body + [l];
    assert forall i :: 0 <= i < |r.body| ==> body[i] == r.body[i];
    HasStep(r.body, l);
  }

  lemma ReadableButLast(front: seq<Line>, l: Line)
    requires Readable(SplitOf(front + [l]))
    ensures Readable(SplitOf(front))
  {
    hide RawOk, SplitOf, IsNote;
    SplitStep(front, l);
    var s, t := SplitOf(front), SplitOf(front + [l]);
    if !l.Header? && s.raws != [] {
      var n := |s.raws| - 1;
      assert RawOk(t.raws[n]);
      RawButLast(s.raws[n], l);
      assert forall i :: 0 <= i < n ==> t.raws[i] == s.raws[i];
    } else if l.Header? {
      assert forall i :: 0 <= i < |s.raws| ==> t.raws[i] == s.raws[i];
    } else {
      assert forall i :: 0 <= i < |s.preamble| ==> t.preamble[i] == s.preamble[i];
    }
  }

  // What the flags of the reading loop stand for.
  predicate FlagsFit(s: Split, sectionDefined: bool, scalarDefined: bool, vectorDefined: bool) {
    sectionDefined == (s.raws != [])
    && (s.raws != [] ==> scalarDefined == HasScalar(s.raws[|s.raws| - 1].body)
                         && vectorDefined == HasVector(s.raws[|s.raws| - 1].body))
  }

  lemma FlagsStep(front: seq<Line>, l: Line, sectionDefined: bool, scalarDefined: bool, vectorDefined: bool)
    requires Readable(SplitOf(front)) && FlagsFit(SplitOf(front), sectionDefined, scalarDefined, vectorDefined)
    ensures FlagsFit(SplitOf(front + [l]), sectionDefined || l.Header?,
                     if l.Header? then false else scalarDefined || l.ScalarLine?,
                     if l.Header? then false else vectorDefined || l.VectorLine?)
    ensures Readable(SplitOf(front + [l])) <==>
              (LineOk(l) && (IsNote(l) || l.Header? || sectionDefined)
               && (l.ScalarLine? ==> !vectorDefined) && (l.VectorLine? ==> !scalarDefined))
  {
    hide SplitOf;
    SplitStep(front, l);
    var s, t := SplitOf(front), SplitOf(front + [l]);
    if l.Header? {
      HeaderStep(s, l);
    } else if s.raws == [] {
      assert t.preamble[|s.preamble|] == l;
    } else {
      BodyStep(s, l);
    }
  }

  lemma HeaderStep(s: Split, l: Line)
    requires Readable(s) && l.Header?
    ensures Readable(Split(s.preamble, s.raws + [Raw(l.name, [])])) <==> l.name != ""
  {
    var raws := s.raws + [Raw(l.name, [])];
    assert raws[|s.raws|] == Raw(l.name, []);
    assert RawOk(Raw(l.name, [])) == (l.name != "");
  }

  lemma BodyStep(s: Split, l: Line)
    requires Readable(s) && !l.Header? && s.raws != []
    ensures var last := s.raws[|s.raws| - 1];
            var body := last.body + [l];
            var t := Split(s.preamble, s.raws[..|s.raws| - 1] + [Raw(last.name, body)]);
            HasScalar(body) == (HasScalar(last.body) || l.ScalarLine?)
            && HasVector(body) == (HasVector(last.body) || l.VectorLine?)
            && (Readable(t) <==> LineOk(l) && (l.ScalarLine? ==> !HasVector(last.body)) && (l.VectorLine? ==> !HasScalar(last.body)))
  {
    var n := |s.raws| - 1;
    var last := s.raws[n];
    var body := last.body + [l];
    var raws := s.raws[..n] + [Raw(last.name, body)];
    HasStep(last.body, l);
    assert RawOk(last);
    assert RawOk(Raw(last.name, body)) <==> LineOk(l) && !(HasScalar(body) && HasVector(body)) by {
      assert body[|last.body|] == l;
      assert forall i :: 0 <= i < |last.body| ==> body[i] == last.body[i];
    }
    hide RawOk;
    assert raws[n] == Raw(last.name, body);
    assert forall i :: 0 <= i < n ==> raws[i] == s.raws[i];
  }

  lemma HasStep(body: seq<Line>, l: Line)
    ensures HasScalar(body + [l]) == (HasScalar(body) || l.ScalarLine?)
    ensures HasVector(body + [l]) == (HasVector(body) || l.VectorLine?)
  {
    var b := body + [l];
    assert b[|body|] == l && forall i :: 0 <= i < |body| ==> b[i] == body[i];
    if HasScalar(body) { var i :| 0 <= i < |body| && body[i].ScalarLine?; assert b[i].ScalarLine?; }
    if HasVector(body) { var i :| 0 <= i < |body| && body[i].VectorLine?; assert b[i].VectorLine?; }
  }

  // The reading loop with its three flags.
  method ReadLines(lines: seq<Line>) returns (ok: bool, s: Split)
    ensures ok == Readable(SplitOf(lines))
    ensures ok ==> s == SplitOf(lines)
  {
    hide Readable, FlagsFit, SplitOf, IsNote, LineOk;
    var sectionDefined, scalarDefined, vectorDefined := false, true, true;
    s := Split([], []);
    NothingRead(lines);
    var i := 0;
    while i < |lines|
      invariant 0 <= i <= |lines|
      invariant s == SplitOf(lines[..i]) && Readable(s)
      invariant FlagsFit(s, sectionDefined, scalarDefined, vectorDefined)
    {
      var l := lines[i];
      FlagsStep(lines[..i], l, sectionDefined, scalarDefined, vectorDefined);
      SplitStep(lines[..i], l);
      assert lines[..i] + [l] == lines[..i + 1];
      if !LineOk(l) || !(IsNote(l) || l.Header? || sectionDefined)
         || (l.ScalarLine? && vectorDefined) || (l.VectorLine? && scalarDefined) {
        if Readable(SplitOf(lines)) {
          ReadableFront(lines, i + 1);
        }
        return false, s;
      }
      if l.Header? {
        s := Split(s.preamble, s.raws + [Raw(l.name, [])]);
        sectionDefined, scalarDefined, vectorDefined := true, false, false;
      } else if s.raws == [] {
        s := Split(s.preamble + [l], []);
        scalarDefined, vectorDefined := scalarDefined || l.ScalarLine?, vectorDefined || l.VectorLine?;
      } else {
        var last := s.raws[|s.raws| - 1];
        s := Split(s.preamble, s.raws[..|s.raws| - 1] + [Raw(last.name, last.body + [l])]);
        scalarDefined, vectorDefined := scalarDefined || l.ScalarLine?, vectorDefined || l.VectorLine?;
      }
      i := i + 1;
    }
    assert lines[..i] == lines;
    ok := true;
  }

  lemma NothingRead(lines: seq<Line>)
    ensures SplitOf(lines[..0]) == Split([], []) && Readable(Split([], []))
    ensures FlagsFit(Split([], []), false, true, true)
  {
  }

  // Every pair of section names is compared.
  method NamesUnique(raws: seq<Raw>) returns (ok: bool)
    ensures ok == NamesDiffer(raws)
  {
    var j := 1;
    while j < |raws|
      invariant 1 <= j
      invariant forall a, b :: 0 <= a < b < j && b < |raws| ==> raws[a].name != raws[b].name
    {
      var k := 0;
      while k < j
        invariant 0 <= k <= j
        invariant forall a :: 0 <= a < k ==> raws[a].name != raws[j].name
      {
        if raws[k].name == raws[j].name { return false; }
        k := k + 1;
      }
      j := j + 1;
    }
    ok := true;
  }

  // The index a token gets when its line is read.
  predicate FirstIndices(chain: seq<Token>) {
    forall k :: 0 <= k < |chain| ==>
      chain[k].index == if chain[k].item.Vector? then CountOf(Items(chain)[..k], None) + 1 else 1
  }

  lemma FirstIndexStep(chain: seq<Token>, t: Token)
    requires FirstIndices(chain)
    requires t.index == if t.item.Vector? then CountOf(Items(chain), None) + 1 else 1
    ensures FirstIndices(chain + [t]) && Items(chain + [t]) == Items(chain) + [t.item]
    ensures CountOf(Items(chain + [t]), None) == CountOf(Items(chain), None) + if t.item.Vector? then 1 else 0
  {
    var r := chain + [t];
    assert Items(r) == Items(chain) + [t.item];
    assert Items(r)[..|chain|] == Items(chain);
    forall k | 0 <= k < |chain| ensures r[k].index == if r[k].item.Vector? then CountOf(Items(r)[..k], None) + 1 else 1 {
      assert Items(r)[..k] == Items(chain)[..k];
    }
  }

  // The tokens of a section's lines, numbered and chained in order.
  method LinkSection(body: seq<Line>) returns (chain: seq<Token>)
    ensures Items(chain) == ItemsOf(body) && FirstIndices(chain)
  {
    hide FirstIndices, ItemsOn, ItemsOf, CountOf;
    chain := [];
    NoTokens(body);
    var index := 1;
    var i := 0;
    while i < |body|
      invariant 0 <= i <= |body|
      invariant Items(chain) == ItemsOf(body[..i]) && FirstIndices(chain)
      invariant index == CountOf(Items(chain), None) + 1
    {
      var items := ItemsOn(body[i]);
      ghost var before := Items(chain);
      var j := 0;
      while j < |items|
        invariant 0 <= j <= |items|
        invariant Items(chain) == before + items[..j] && FirstIndices(chain)
        invariant index == CountOf(Items(chain), None) + 1
      {
        var t := Token(items[j], if items[j].Vector? then index else 1);
        FirstIndexStep(chain, t);
        assert items[..j + 1] == items[..j] + [items[j]];
        chain := chain + [t];
        index := if items[j].Vector? then index + 1 else index;
        j := j + 1;
      }
      assert items[..j] == items;
      assert body[..i + 1] == body[..i] + [body[i]];
      ItemsConcat(body[..i], [body[i]]);
      ItemsOneLine(body[i]);
      i := i + 1;
    }
    assert body[..i] == body;
  }

  lemma NoTokens(body: seq<Line>)
    ensures Items([]) == ItemsOf(body[..0]) && FirstIndices([]) && CountOf(Items([]), None) == 0
  {
  }

  // The index of token k once the first i tokens have counted themselves into it.
  function Partial(items: seq<Item>, i: nat, k: nat): int
    requires k < |items|
  {
    CountOf(items[..if i < k then i else k], KeyOf(items[k])) + 1
  }

  lemma PartialStep(items: seq<Item>, i: nat, k: nat)
    requires k < |items|
    ensures Partial(items, i + 1, k) == Partial(items, i, k)
            + if i < k && Matches(items[i], KeyOf(items[k])) then 1 else 0
  {
    if i < k {
      assert items[..i + 1][..i] == items[..i];
    }
  }

  // Each scalar adds one to every later one of its name.
  method ComputeIndex(before: seq<Token>) returns (chain: seq<Token>)
    requires Unmixed(Items(before)) && FirstIndices(before)
    ensures Items(chain) == Items(before) && Indexed(chain)
  {
    hide CountOf, Partial, Ordinal;
    chain := before;
    if chain == [] || chain[0].item.Vector? {
      VectorsIndexed(before);
      return;
    }
    ghost var items := Items(before);
    PartialStart(before);
    var i := 0;
    while i < |chain|
      invariant 0 <= i <= |before| && Items(chain) == items
      invariant forall k :: 0 <= k < |before| ==> chain[k].index == Partial(items, i, k)
    {
      var n := i + 1;
      while n < |chain|
        invariant i < n <= |before| && Items(chain) == items
        invariant forall k :: 0 <= k < n ==> chain[k].index == Partial(items, i + 1, k) || k <= i
        invariant forall k :: 0 <= k <= i ==> chain[k].index == Partial(items, i, k)
        invariant forall k :: n <= k < |before| ==> chain[k].index == Partial(items, i, k)
      {
        PartialStep(items, i, n);
        SameName(items, i, n);
        if chain[i].item.name == chain[n].item.name {
          assert chain[n].item == items[n];
          chain := chain[n := chain[n].(index := chain[n].index + 1)];
          assert Items(chain) == items;
        }
        n := n + 1;
      }
      forall k | 0 <= k < |before| ensures chain[k].index == Partial(items, i + 1, k) {
        PartialStep(items, i, k);
      }
      i := i + 1;
    }
    PartialEnd(items);
    assert forall k :: 0 <= k < |chain| ==> chain[k].index == Partial(items, |items|, k);
  }

  lemma SameName(items: seq<Item>, i: nat, n: nat)
    requires Unmixed(items) && i < |items| && n < |items| && !items[0].Vector?
    ensures items[i].Scalar? && items[n].Scalar?
    ensures Matches(items[i], KeyOf(items[n])) <==> items[i].name == items[n].name
  {
    assert items[0].Vector? == items[i].Vector? == items[n].Vector?;
  }

  lemma PartialStart(chain: seq<Token>)
    requires Unmixed(Items(chain)) && FirstIndices(chain) && chain != [] && !chain[0].item.Vector?
    ensures forall k :: 0 <= k < |chain| ==> chain[k].index == Partial(Items(chain), 0, k)
  {
    forall k | 0 <= k < |chain| ensures chain[k].index == Partial(Items(chain), 0, k) {
      assert Items(chain)[0].Vector? == Items(chain)[k].Vector?;
    }
  }

  lemma PartialEnd(items: seq<Item>)
    ensures forall k :: 0 <= k < |items| ==> Partial(items, |items|, k) == Ordinal(items, k)
  {
  }

  lemma VectorsIndexed(chain: seq<Token>)
    requires Unmixed(Items(chain)) && FirstIndices(chain) && (chain == [] || chain[0].item.Vector?)
    ensures Indexed(chain)
  {
    forall k | 0 <= k < |chain| ensures chain[k].index == Ordinal(Items(chain), k) {
      assert Items(chain)[0].Vector? == Items(chain)[k].Vector?;
    }
  }

  lemma RawUnmixed(r: Raw)
    requires RawOk(r)
    ensures Unmixed(ItemsOf(r.body))
  {
    BodyUnmixed(r.body);
  }

  method BuildSection(r: Raw) returns (s: Section)
    requires RawOk(r)
    ensures s.name == r.name && s.body == r.body && SectionOk(s)
  {
    RawUnmixed(r);
    var linked := LinkSection(r.body);
    var chain := ComputeIndex(linked);
    s := Section(r.name, r.body, chain);
  }

  // ------------------------------------------------------------- add_token

  // Where add_token puts an item when `count` of its like are there.
  function Where(where: int, count: nat): (w: nat)
    ensures w <= count
  {
    if where < 0 || where > count then count else where
  }

  // The items of a section after add_token: x right behind the where-th of its like,
  // behind the last when there are not so many, in front when where is 0.
  predicate Grown(before: seq<Item>, after: seq<Item>, where: int, x: Item) {
    var key := KeyOf(x);
    after == Inserted(before, Place(before, key, Where(where, CountOf(before, key))), x)
  }

  // In answers: behind the where-th definition, or the last when `where` is negative or
  // too big. Definitions up to there answer as before, later ones one further on, and
  // nothing else changes.
  ghost predicate Answers(before: seq<Item>, after: seq<Item>, where: int, x: Item) {
    var key := KeyOf(x);
    var n := CountOf(before, key);
    var w := if 0 <= where <= n then where else n;
    && Kth(after, key, w + 1) == Some(x.value)
    && (forall k: int :: k <= w ==> Kth(after, key, k) == Kth(before, key, k))
    && (forall k: int :: k > w + 1 ==> Kth(after, key, k) == Kth(before, key, k - 1))
    && (forall other, k: int :: other != key ==> Kth(after, other, k) == Kth(before, other, k))
    && CountOf(after, key) == n + 1
  }

  lemma GrownAnswers(before: seq<Item>, after: seq<Item>, where: int, x: Item)
    requires Grown(before, after, where, x)
    ensures Answers(before, after, where, x)
  {
    hide Kth, CountOf, Place, Inserted;
    var key := KeyOf(x);
    var n := CountOf(before, key);
    var w := Where(where, n);
    InsertShifts(before, x, w, key, w + 1);
    forall k: int | k <= w ensures Kth(after, key, k) == Kth(before, key, k) {
      InsertShifts(before, x, w, key, k);
    }
    forall k: int | k > w + 1 ensures Kth(after, key, k) == Kth(before, key, k - 1) {
      InsertShifts(before, x, w, key, k);
    }
    forall other, k: int | other != key ensures Kth(after, other, k) == Kth(before, other, k) {
      InsertShifts(before, x, w, other, k);
    }
    CountInserted(before, Place(before, key, w), x);
  }

  lemma CountInserted(items: seq<Item>, p: nat, x: Item)
    requires p <= |items|
    ensures CountOf(Inserted(items, p, x), KeyOf(x)) == CountOf(items, KeyOf(x)) + 1
  {
    hide CountOf;
    var key := KeyOf(x);
    assert items == items[..p] + items[p..];
    CountConcat(items[..p], items[p..], key);
    CountConcat(items[..p] + [x], items[p..], key);
    CountConcat(items[..p], [x], key);
    CountOne(x, key);
  }

  // Where the line of a new scalar goes: right below the header when `where` is 0, else
  // right below the line of the where-th definition.
  ghost predicate LineBelow(was: seq<Line>, now: seq<Line>, where: int, id: string, value: string) {
    var n := CountOf(ItemsOf(was), Some(id));
    var w := if 0 <= where <= n then where else n;
    BelowSome(was, now, w, id, value)
  }

  ghost predicate BelowSome(was: seq<Line>, now: seq<Line>, w: nat, id: string, value: string) {
    exists j: nat :: BelowAt(was, now, j, w, id, value)
  }

  predicate BelowAt(was: seq<Line>, now: seq<Line>, j: nat, w: nat, id: string, value: string) {
    && j <= |was| && now == was[..j] + [ScalarLine(id, value)] + was[j..]
    && (w == 0 ==> j == 0)
    && (w > 0 ==> j > 0 && was[j - 1].ScalarLine? && was[j - 1].id == id && CountOf(ItemsOf(was[..j]), Some(id)) == w)
  }

  lemma LineBelowFrom(was: seq<Line>, now: seq<Line>, where: int, j: nat, w: nat, id: string, value: string)
    requires BelowAt(was, now, j, w, id, value)
    requires w == Where(where, CountOf(ItemsOf(was), Some(id)))
    ensures LineBelow(was, now, where, id, value)
  {
    hide CountOf, ItemsOf, BelowAt;
    assert BelowSome(was, now, w, id, value);
  }

  // Where a new vector item goes: into a line of its own below the header of a section
  // without items, else into the line of the where-th item, or of the first when that
  // is 0.
  ghost predicate ValueBeside(was: seq<Line>, now: seq<Line>, where: int, value: string) {
    var n := |ItemsOf(was)|;
    var w := if 0 <= where <= n then where else n;
    if n == 0 then now == [VectorLine([value])] + was
    else BesideSome(was, now, w, value)
  }

  ghost predicate BesideSome(was: seq<Line>, now: seq<Line>, w: nat, value: string) {
    exists j: nat :: BesideAt(was, now, j, w, value)
  }

  lemma ValueBesideFrom(was: seq<Line>, now: seq<Line>, where: int, j: nat, w: nat, value: string)
    requires BesideAt(was, now, j, w, value) && ItemsOf(was) != []
    requires w == Where(where, |ItemsOf(was)|)
    ensures ValueBeside(was, now, where, value)
  {
    hide ItemsOf, BesideAt;
    assert BesideSome(was, now, w, value);
  }

  predicate BesideAt(was: seq<Line>, now: seq<Line>, j: nat, w: nat, value: string) {
    && j < |was| && was[j].VectorLine? && was[j].values != []
    && (var q := w - |ItemsOf(was[..j])|;
        0 <= q <= |was[j].values| && (w > 0 ==> q > 0)
        && now == was[j := VectorLine(was[j].values[..q] + [value] + was[j].values[q..])])
  }

  lemma {:induction false} VectorInsertedBeside(body: seq<Line>, p: nat, value: string) returns (j: nat)
    requires p <= |ItemsOf(body)| && ItemsOf(body) != [] && NoScalar(body)
    ensures BesideAt(body, VectorInserted(body, p, value), j, p, value)
    decreases |body|
  {
    hide ItemsOf, ItemsOn, VectorInserted;
    ItemsUnfold(body);
    ItemsUnfold(body[..0]);
    VectorInsertedUnfold(body, p, value);
    var n := |ItemsOn(body[0])|;
    if n > 0 && p <= n {
      j := 0;
      VectorLineItems(body[0]);
      assert body[..0] == [];
      assert VectorInserted(body, p, value) == body[0 := VectorLine(Inserted(body[0].values, p, value))];
    } else {
      j := VectorInsertedBeside(body[1..], p - n, value);
      ItemsBelow(body, j);
      BesideBelow(body, VectorInserted(body[1..], p - n, value), j, p - n, n, value);
      j := j + 1;
    }
  }

  lemma BesideBelow(body: seq<Line>, rest: seq<Line>, j: nat, w: nat, n: nat, value: string)
    requires body != [] && BesideAt(body[1..], rest, j, w, value) && (w + n > 0 ==> w > 0)
    requires j + 1 < |body| && |ItemsOf(body[..j + 1])| == n + |ItemsOf(body[1..][..j])|
    ensures BesideAt(body, [body[0]] + rest, j + 1, w + n, value)
  {
    hide ItemsOf;
    assert body[1..][j] == body[j + 1];
    LineBelowFirst(body, j, rest[j]);
  }

  lemma LineBelowFirst(body: seq<Line>, j: nat, l: Line)
    requires j + 1 < |body|
    ensures [body[0]] + body[1..][j := l] == body[j + 1 := l]
  {
  }

  lemma ItemsBelow(body: seq<Line>, j: nat)
    requires j + 1 < |body|
    ensures |ItemsOf(body[..j + 1])| == |ItemsOn(body[0])| + |ItemsOf(body[1..][..j])|
  {
    hide ItemsOf, ItemsOn;
    var front := body[..j + 1];
    assert front[1..] == body[1..][..j];
    ItemsUnfold(front);
  }

  lemma VectorLineItems(l: Line)
    ensures l.VectorLine? ==> |ItemsOn(l)| == |l.values|
  {
  }

  // The new token linked in at p, and one added to every later index of its like.
  method LinkToken(chain: seq<Token>, p: nat, x: Item, index: int) returns (r: seq<Token>)
    requires p <= |chain| && Unmixed(Items(chain)) && (chain != [] ==> chain[0].item.Vector? == x.Vector?)
    ensures r == InsertedChain(chain, p, x, index)
  {
    r := chain[..p] + [Token(x, index)] + chain[p..];
    var k := p + 1;
    while k < |r|
      invariant p < k <= |r| == |chain| + 1
      invariant r[..p + 1] == chain[..p] + [Token(x, index)]
      invariant forall i :: p < i < k ==> r[i] == Bumped(chain[p..], KeyOf(x))[i - p - 1]
      invariant forall i :: k <= i < |r| ==> r[i] == chain[i - 1]
    {
      assert Items(chain)[0].Vector? == Items(chain)[k - 1].Vector?;
      if x.Vector? || r[k].item.name == x.name {
        r := r[k := r[k].(index := r[k].index + 1)];
      }
      k := k + 1;
    }
    assert r[p + 1..] == Bumped(chain[p..], KeyOf(x));
    assert r == r[..p + 1] + r[p + 1..];
  }

  lemma ItemsPrefix(body: seq<Line>, j: nat)
    requires j <= |body|
    ensures |ItemsOf(body[..j])| <= |ItemsOf(body)|
    ensures ItemsOf(body[..j]) == ItemsOf(body)[..|ItemsOf(body[..j])|]
    ensures j < |body| ==> ItemsOf(body[..j + 1]) == ItemsOf(body[..j]) + ItemsOn(body[j])
  {
    hide ItemsOf, ItemsOn;
    assert body == body[..j] + body[j..];
    ItemsConcat(body[..j], body[j..]);
    if j < |body| {
      assert body[..j + 1] == body[..j] + [body[j]];
      ItemsConcat(body[..j], [body[j]]);
      ItemsOneLine(body[j]);
    }
  }

  // The line of the where-th scalar of a name, and the number of items up to and with it.
  lemma LineNamed(s: Section, j: nat)
    requires SectionOk(s) && j < |s.body| && s.body[j].ScalarLine?
    ensures var c := |ItemsOf(s.body[..j])|; c < |s.chain| && s.chain[c].item == Scalar(s.body[j].id, s.body[j].value)
  {
    hide ItemsOf, Indexed;
    ItemsPrefix(s.body, j);
    ItemsPrefix(s.body, j + 1);
    var c := |ItemsOf(s.body[..j])|;
    assert ItemsOf(s.body)[c] == ItemsOf(s.body[..j + 1])[c] == ItemsOn(s.body[j])[0];
    assert Items(s.chain)[c] == ItemsOf(s.body)[c];
  }

  method FindScalar(s: Section, id: string, where: nat) returns (j: nat, c: nat)
    requires SectionOk(s) && (s.chain == [] || s.chain[0].item.Scalar?)
    requires 0 < where <= CountOf(Items(s.chain), Some(id))
    ensures j < |s.body| && c == |ItemsOf(s.body[..j + 1])| && c == Place(Items(s.chain), Some(id), where)
    ensures s.body[j].ScalarLine? && s.body[j].id == id
  {
    hide ItemsOf, ItemsOn, CountOf, Place, Ordinal;
    ghost var items, p := Items(s.chain), Place(Items(s.chain), Some(id), where);
    WhereIndexed(s.chain, id, where);
    j, c := 0, 0;
    NoItems(s.body);
    while j < |s.body|
      invariant 0 <= j <= |s.body|
      invariant c == |ItemsOf(s.body[..j])| && c < p
      invariant j == |s.body| ==> s.body[..j] == s.body
    {
      ItemsPrefix(s.body, j);
      ItemsPrefix(s.body, j + 1);
      OneItem(s, j);
      if s.body[j].ScalarLine? {
        if s.chain[c].item.name == id && s.chain[c].index == where {
          LineNamed(s, j);
          OnlyPlace(s.chain, id, where, c);
          c := c + 1;
          return;
        }
        c := c + 1;
      }
      j := j + 1;
      assert j == |s.body| ==> s.body[..j] == s.body;
    }
    assert false;
  }

  lemma NoItems(body: seq<Line>)
    ensures |ItemsOf(body[..0])| == 0
  {
  }

  lemma OneItem(s: Section, j: nat)
    requires SectionOk(s) && (s.chain == [] || s.chain[0].item.Scalar?) && j < |s.body|
    ensures var c := |ItemsOf(s.body[..j])|;
            |ItemsOn(s.body[j])| == (if s.body[j].ScalarLine? then 1 else 0)
            && (s.body[j].ScalarLine? ==> c < |s.chain| && s.chain[c].item.Scalar?)
  {
    hide ItemsOf, ItemsOn, Indexed;
    ItemsPrefix(s.body, j);
    ItemsPrefix(s.body, j + 1);
    var c := |ItemsOf(s.body[..j])|;
    var on := ItemsOn(s.body[j]);
    if on != [] {
      assert ItemsOf(s.body)[c] == ItemsOf(s.body[..j + 1])[c] == on[0];
      assert Items(s.chain)[c] == on[0];
      assert Items(s.chain)[0].Vector? == Items(s.chain)[c].Vector?;
    }
    ItemsByKind(s.body[j]);
  }

  lemma ItemsByKind(l: Line)
    ensures l.ScalarLine? ==> |ItemsOn(l)| == 1
    ensures !l.ScalarLine? && ItemsOn(l) != [] ==> ItemsOn(l)[0].Vector?
  {
  }

  // The stored index tells the place.
  lemma WhereIndexed(chain: seq<Token>, id: string, where: nat)
    requires Indexed(chain) && 0 < where <= CountOf(Items(chain), Some(id))
    ensures var p := Place(Items(chain), Some(id), where);
            p > 0 && chain[p - 1].item.Scalar? && chain[p - 1].item.name == id && chain[p - 1].index == where
  {
    hide CountOf, Place;
    var items, p := Items(chain), Place(Items(chain), Some(id), where);
    PlaceCounts(items, Some(id), where);
    CountStep(items, p - 1, Some(id));
  }

  lemma CountStep(items: seq<Item>, k: nat, key: Option<string>)
    requires k < |items|
    ensures CountOf(items[..k + 1], key) == CountOf(items[..k], key) + if Matches(items[k], key) then 1 else 0
  {
    assert items[..k + 1][..k] == items[..k];
  }

  lemma OnlyPlace(chain: seq<Token>, id: string, where: nat, c: nat)
    requires Indexed(chain) && c < |chain| && chain[c].item.Scalar? && chain[c].item.name == id && chain[c].index == where
    requires where <= CountOf(Items(chain), Some(id))
    ensures Place(Items(chain), Some(id), where) == c + 1
  {
    hide CountOf, Place;
    PlaceUnique(Items(chain), Some(id), c + 1);
    CountStep(Items(chain), c, Some(id));
  }

  // A scalar gets a line of its own: behind the where-th of its name, or first of all.
  method AddScalarTo(s: Section, where: int, id: string, value: string) returns (t: Section)
    requires SectionOk(s) && (s.chain == [] || s.chain[0].item.Scalar?)
    ensures SectionOk(t) && t.name == s.name
    ensures Grown(Items(s.chain), Items(t.chain), where, Scalar(id, value))
    ensures LineBelow(s.body, t.body, where, id, value)
  {
    hide CountOf, ItemsOf, Place, Unmixed, Indexed;
    var count := CountTokens(s.chain, id);
    var w := Where(where, count);
    var x := Scalar(id, value);
    var j, c := 0, 0;
    NoItems(s.body);
    FrontPlace(Items(s.chain), Some(id));
    if w > 0 {
      j, c := FindScalar(s, id, w);
      j := j + 1;
    }
    ItemsPrefix(s.body, j);
    ScalarInsertedItems(s.body, j, x);
    InsertKeepsIndexed(s.chain, x, w);
    StaysUnmixed(Items(s.chain), x, c);
    var chain := LinkToken(s.chain, c, x, w + 1);
    t := Section(s.name, ScalarInserted(s.body, j, x), chain);
    if w > 0 { PlaceCounts(Items(s.chain), Some(id), w); }
    assert BelowAt(s.body, t.body, j, w, id, value);
    LineBelowFrom(s.body, t.body, where, j, w, id, value);
  }

  lemma FrontPlace(items: seq<Item>, key: Option<string>)
    ensures Place(items, key, 0) == 0
  {
  }

  lemma StaysUnmixed(items: seq<Item>, x: Item, p: nat)
    requires Unmixed(items) && p <= |items| && (items == [] || items[0].Vector? == x.Vector?)
    ensures Unmixed(Inserted(items, p, x))
    ensures items != [] ==> items[0].Vector? == x.Vector?
  {
    var r := Inserted(items, p, x);
    forall i | 0 <= i < |r| ensures r[i].Vector? == x.Vector? {
      if i < p {
        assert r[i] == items[i] && items[i].Vector? == items[0].Vector?;
      } else if i > p {
        assert r[i] == items[i - 1] && items[i - 1].Vector? == items[0].Vector?;
      }
    }
  }

  // count's loop over a scalar section: the index of the last token of the name.
  method CountTokens(chain: seq<Token>, id: string) returns (index: nat)
    requires Indexed(chain) && Unmixed(Items(chain)) && (chain == [] || chain[0].item.Scalar?)
    ensures index == CountOf(Items(chain), Some(id))
  {
    hide CountOf;
    index := 0;
    NothingCounted(Items(chain), Some(id));
    var k := 0;
    while k < |chain|
      invariant 0 <= k <= |chain| && index == CountOf(Items(chain)[..k], Some(id))
    {
      assert Items(chain)[0].Vector? == Items(chain)[k].Vector?;
      CountStep(Items(chain), k, Some(id));
      if chain[k].item.name == id {
        assert chain[k].index == Ordinal(Items(chain), k);
        index := chain[k].index;
      }
      k := k + 1;
    }
    assert Items(chain)[..k] == Items(chain);
  }

  lemma NothingCounted(items: seq<Item>, key: Option<string>)
    ensures CountOf(items[..0], key) == 0
  {
  }

  lemma {:induction false} VectorsCount(items: seq<Item>)
    requires forall i :: 0 <= i < |items| ==> items[i].Vector?
    ensures CountOf(items, None) == |items|
  {
    if items != [] {
      VectorsCount(items[..|items| - 1]);
    }
  }

  lemma {:induction false} VectorsPlace(items: seq<Item>, p: nat)
    requires p <= CountOf(items, None) && forall i :: 0 <= i < |items| ==> items[i].Vector?
    ensures Place(items, None, p) == p
  {
    VectorsCount(items);
    if 0 < p {
      var front := items[..|items| - 1];
      VectorsCount(front);
      if p < |items| {
        VectorsPlace(front, p);
      }
    }
  }

  lemma AllVectors(s: Section)
    requires SectionOk(s) && s.chain != [] && s.chain[0].item.Vector?
    ensures forall i :: 0 <= i < |s.chain| ==> s.chain[i].item.Vector? && s.chain[i].index == i + 1
    ensures CountOf(Items(s.chain), None) == |s.chain|
    ensures NoScalar(s.body)
  {
    hide ItemsOf, CountOf, Place;
    var items := Items(s.chain);
    assert forall i :: 0 <= i < |items| ==> items[i].Vector? == items[0].Vector?;
    VectorsCount(items);
    forall i | 0 <= i < |items| ensures s.chain[i].index == i + 1 {
      VectorsCount(items[..i]);
      assert s.chain[i].index == Ordinal(items, i);
    }
    forall i | 0 <= i < |s.body| ensures !s.body[i].ScalarLine? {
      if s.body[i].ScalarLine? {
        ScalarShows(s.body, i);
      }
    }
  }

  lemma ScalarShows(body: seq<Line>, i: nat)
    requires i < |body| && body[i].ScalarLine?
    ensures exists c :: 0 <= c < |ItemsOf(body)| && ItemsOf(body)[c].Scalar?
  {
    hide ItemsOf;
    ItemsPrefix(body, i);
    ItemsPrefix(body, i + 1);
    var c := |ItemsOf(body[..i])|;
    assert ItemsOf(body)[c] == ItemsOf(body[..i + 1])[c] == ItemsOn(body[i])[0];
  }

  // A vector item joins the line of its neighbour; the first of an empty section gets
  // a line right below the header.
  method AddVectorTo(s: Section, where: int, value: string) returns (t: Section)
    requires SectionOk(s) && (s.chain == [] || s.chain[0].item.Vector?)
    ensures SectionOk(t) && t.name == s.name
    ensures Grown(Items(s.chain), Items(t.chain), where, Vector(value))
    ensures ValueBeside(s.body, t.body, where, value)
  {
    hide CountOf, ItemsOf, Place, Unmixed, Indexed, ItemsOn, BesideAt;
    var x := Vector(value);
    if s.chain == [] {
      FirstVector(s, value);
      t := Section(s.name, [VectorLine([value])] + s.body, [Token(x, 1)]);
    } else {
      AllVectors(s);
      var w := Where(where, s.chain[|s.chain| - 1].index);
      var p := FindVector(s, w);
      assert forall i :: 0 <= i < |s.chain| ==> Items(s.chain)[i].Vector?;
      VectorsPlace(Items(s.chain), p);
      VectorInsertedItems(s.body, p, value);
      InsertKeepsIndexed(s.chain, x, w);
      StaysUnmixed(Items(s.chain), x, p);
      var chain := LinkToken(s.chain, p, x, w + 1);
      t := Section(s.name, VectorInserted(s.body, p, value), chain);
      ghost var j := VectorInsertedBeside(s.body, p, value);
      ValueBesideFrom(s.body, t.body, where, j, w, value);
    }
  }

  method FindVector(s: Section, w: nat) returns (p: nat)
    requires SectionOk(s) && s.chain != [] && s.chain[0].item.Vector? && w <= |s.chain|
    ensures p == w
  {
    hide ItemsOf, Place, CountOf, Indexed, Unmixed;
    AllVectors(s);
    p := 0;
    if w == 0 { return; }
    while p < |s.chain| && s.chain[p].index != w
      invariant 0 <= p < w
    {
      p := p + 1;
    }
    p := p + 1;
  }

  lemma FirstVector(s: Section, value: string)
    requires SectionOk(s) && s.chain == []
    ensures var t := Section(s.name, [VectorLine([value])] + s.body, [Token(Vector(value), 1)]);
            SectionOk(t) && Items(t.chain) == Inserted(Items(s.chain), 0, Vector(value))
    ensures CountOf(Items(s.chain), None) == 0 && Place(Items(s.chain), None, 0) == 0
  {
    var l := VectorLine([value]);
    ItemsConcat([l], s.body);
    ItemsOneLine(l);
    assert Vectors([value]) == [Vector(value)];
    assert Items([Token(Vector(value), 1)]) == [Vector(value)];
    assert [Vector(value)][..0] == [];
  }

  // ------------------------------------------------------------------ the class

  function Names(sections: seq<Section>): (r: seq<string>)
    ensures |r| == |sections|
  {
    seq(|sections|, i requires 0 <= i < |sections| => sections[i].name)
  }

  // What count answers: scalars by name, vectors by value, vectors of a section.
  function CountAnswer(items: seq<Item>, id: Option<string>): int {
    if items == [] then 0
    else match id
      case None => if items[0].Vector? then CountOf(items, None) else -1
      case Some(name) => if items[0].Scalar? then CountOf(items, id) else CountValue(items, name)
  }

  lemma CountIs(s: Section, id: Option<string>)
    requires SectionOk(s)
    ensures var items, n := Items(s.chain), CountAnswer(Items(s.chain), id);
            && (items == [] ==> n == 0)
            && (items != [] && items[0].Vector? && id == None ==> n == |items|)
            && (items != [] && items[0].Scalar? && id == None ==> n == -1)
            && (items != [] && items[0].Scalar? && id != None ==> n == |Named(items, id.value)|)
            && (items != [] && items[0].Vector? && id != None ==> n == |Valued(items, id.value)|)
  {
    hide CountOf, CountValue, ItemsOf, Named, Valued, Indexed;
    var items := Items(s.chain);
    CountIsNumber(items, if id.Some? then id.value else "", if id.Some? then id.value else "");
    if items != [] && items[0].Vector? {
      assert forall k :: 0 <= k < |items| ==> items[k].Vector?;
      AllAreVectors(items);
    }
  }

  lemma {:induction false} NotesHoldNothing(body: seq<Line>)
    requires forall i :: 0 <= i < |body| ==> IsNote(body[i])
    ensures ItemsOf(body) == []
  {
    if body != [] {
      NotesHoldNothing(body[1..]);
    }
  }

  // A new section without items at w. The others keep name and items; the notes behind
  // the last item in front of it become its body.
  predicate SectionAdded(wasPreamble: seq<Line>, was: seq<Section>, preamble: seq<Line>, now: seq<Section>, w: nat, name: string)
    requires w <= |was|
  {
    |now| == |was| + 1 && now[w].name == name && now[w].chain == []
    && (forall i :: 0 <= i < w ==> now[i].name == was[i].name && now[i].chain == was[i].chain)
    && (forall i :: 0 <= i < w - 1 ==> now[i] == was[i])
    && (forall i :: w < i < |now| ==> now[i] == was[i - 1])
    && (if w > 0 then preamble == wasPreamble && was[w - 1].body == now[w - 1].body + now[w].body
        else if was == [] then preamble == wasPreamble && now[w].body == []
        else preamble == [] && now[w].body == wasPreamble)
  }

  lemma EmptySection(name: string, body: seq<Line>)
    requires ItemsOf(body) == [] || body == []
    ensures SectionOk(Section(name, body, []))
  {
  }

  lemma NameInserted(names: seq<string>, w: nat, name: string)
    requires w <= |names| && NoDuplicates(names) && name !in names
    ensures NoDuplicates(Inserted(names, w, name))
  {
    var r := Inserted(names, w, name);
    forall i, j | 0 <= i < j < |r| ensures r[i] != r[j] {
      assert i != w ==> r[i] == names[if i < w then i else i - 1];
      assert j != w ==> r[j] == names[if j < w then j else j - 1];
    }
  }

  // The notes behind a section's last item can go to another section.
  lemma NotesMove(s: Section, k: nat, name: string)
    requires SectionOk(s) && k <= |s.body| && forall i :: k <= i < |s.body| ==> IsNote(s.body[i])
    ensures SectionOk(s.(body := s.body[..k])) && SectionOk(Section(name, s.body[k..], []))
    ensures s.body == s.body[..k] + s.body[k..]
  {
    hide Indexed, Unmixed, ItemsOf;
    NotesHoldNothing(s.body[k..]);
    assert s.body == s.body[..k] + s.body[k..];
    ItemsConcat(s.body[..k], s.body[k..]);
    EmptySection(name, s.body[k..]);
  }

  class Config {
    var ready: bool
    var preamble: seq<Line>
    var sections: seq<Section>

    ghost predicate Valid()
      reads this
    {
      ready ==> (forall i :: 0 <= i < |preamble| ==> IsNote(preamble[i])) && NoDuplicates(Names(sections))
                && forall i :: 0 <= i < |sections| ==> SectionOk(sections[i])
    }

    constructor ()
      ensures Valid() && !ready
    {
      ready, preamble, sections := false, [], [];
    }

    // The constructor of the source: read the file's lines, ready on success.
    method Load(lines: seq<Line>) returns (ok: bool)
      modifies this
      ensures Valid() && ready == ok == Loads(lines)
      ensures ok ==> preamble == SplitOf(lines).preamble && |sections| == |SplitOf(lines).raws|
      ensures ok ==> forall i :: 0 <= i < |sections| ==>
                sections[i].name == SplitOf(lines).raws[i].name && sections[i].body == SplitOf(lines).raws[i].body
    {
      hide SplitOf, IsNote, SectionOk, RawOk;
      ready := false;
      var split;
      ok, split := ReadLines(lines);
      if !ok { return; }
      ok := NamesUnique(split.raws);
      if !ok { return; }
      preamble, sections := split.preamble, [];
      var i := 0;
      while i < |split.raws|
        invariant 0 <= i <= |split.raws| && |sections| == i
        invariant forall k :: 0 <= k < i ==> SectionOk(sections[k]) && sections[k].name == split.raws[k].name
                                             && sections[k].body == split.raws[k].body
        invariant preamble == split.preamble && !ready
      {
        var s := BuildSection(split.raws[i]);
        sections := sections + [s];
        i := i + 1;
      }
      ready := true;
    }

    method FindSection(name: string) returns (r: Option<nat>)
      ensures match r
              case None => name !in Names(sections) && forall i :: 0 <= i < |sections| ==> sections[i].name != name
              case Some(i) => i < |sections| && sections[i].name == name
    {
      var i := 0;
      while i < |sections|
        invariant 0 <= i <= |sections|
        invariant forall k :: 0 <= k < i ==> Names(sections)[k] != name && sections[k].name != name
      {
        if sections[i].name == name { return Some(i); }
        i := i + 1;
      }
      r := None;
    }

    // None is the source's -1.
    method Get(section: string, id: Option<string>, index: int) returns (value: Option<string>)
      requires Valid()
      ensures !ready || section !in Names(sections) ==> value == None
      ensures forall i :: ready && 0 <= i < |sections| && sections[i].name == section ==>
                value == Kth(Items(sections[i].chain), id, index)
    {
      if !ready { return None; }
      var at := FindSection(section);
      if at.None? { return None; }
      OneOfName(at.value, section);
      value := Search(sections[at.value].chain, id, index);
    }

    lemma OneOfName(at: nat, name: string)
      requires NoDuplicates(Names(sections)) && at < |sections| && sections[at].name == name
      ensures forall i :: 0 <= i < |sections| && sections[i].name == name ==> i == at
      ensures name in Names(sections)
    {
      assert Names(sections)[at] == name;
      forall i | 0 <= i < |sections| && sections[i].name == name ensures i == at {
        assert Names(sections)[i] == name;
      }
    }

    static method Search(chain: seq<Token>, id: Option<string>, index: int) returns (value: Option<string>)
      requires Indexed(chain)
      ensures value == Kth(Items(chain), id, index)
    {
      hide Kth, CountOf, Ordinal;
      var k := 0;
      while k < |chain|
        invariant 0 <= k <= |chain|
        invariant forall j :: 0 <= j < k ==> !(Matches(chain[j].item, id) && chain[j].index == index)
      {
        if Matches(chain[k].item, id) && chain[k].index == index {
          FoundByIndex(chain, k, id, index);
          KthStays(Items(chain), k + 1, id, index);
          return Some(chain[k].item.value);
        }
        k := k + 1;
      }
      FoundByIndex(chain, k, id, index);
      assert Items(chain)[..k] == Items(chain);
      value := None;
    }

    // Without any line `_lines` is NULL.
    method Count(section: string, id: Option<string>) returns (n: int)
      requires Valid()
      ensures !ready || (preamble == [] && sections == []) ==> n == -1
      ensures ready && (preamble != [] || sections != []) && section !in Names(sections) ==> n == 0
      ensures forall i :: ready && 0 <= i < |sections| && sections[i].name == section ==>
                n == CountAnswer(Items(sections[i].chain), id)
      ensures forall i :: ready && 0 <= i < |sections| && sections[i].name == section ==>
                var items := Items(sections[i].chain);
                && (items == [] ==> n == 0)
                && (items != [] && items[0].Vector? && id == None ==> n == |items|)
                && (items != [] && items[0].Scalar? && id == None ==> n == -1)
                && (items != [] && items[0].Scalar? && id != None ==> n == |Named(items, id.value)|)
                && (items != [] && items[0].Vector? && id != None ==> n == |Valued(items, id.value)|)
    {
      hide CountOf, Indexed, Unmixed, CountValue, Named, Valued;
      if !ready || (preamble == [] && sections == []) { return -1; }
      var at := FindSection(section);
      if at.None? { return 0; }
      OneOfName(at.value, section);
      var s := sections[at.value];
      CountIs(s, id);
      if s.chain == [] { return 0; }
      if s.chain[0].item.Vector? {
        AllVectors(s);
        if id.None? {
          n := s.chain[|s.chain| - 1].index;
        } else {
          n := CountValues(s.chain, id.value);
        }
      } else if id.None? {
        n := -1;
      } else {
        n := CountTokens(s.chain, id.value);
      }
    }

    static method CountValues(chain: seq<Token>, value: string) returns (n: nat)
      ensures n == CountValue(Items(chain), value)
    {
      n := 0;
      var k := 0;
      while k < |chain|
        invariant 0 <= k <= |chain| && n == CountValue(Items(chain)[..k], value)
      {
        assert Items(chain)[..k + 1][..k] == Items(chain)[..k];
        if chain[k].item.value == value {
          n := n + 1;
        }
        k := k + 1;
      }
      assert Items(chain)[..k] == Items(chain);
    }

    // add_token with a value and an id. It fails for an unknown section and one of
    // vector items; otherwise just this section changes, by the inserted scalar.
    method AddScalar(section: string, where: int, id: string, value: string) returns (ok: bool)
      requires Valid()
      modifies this`sections
      ensures Valid() && Names(sections) == old(Names(sections))
      ensures !ready || section !in Names(sections) ==> !ok
      ensures !ok ==> sections == old(sections)
      ensures forall i :: ready && 0 <= i < |sections| && old(sections)[i].name != section ==> sections[i] == old(sections)[i]
      ensures forall i :: ready && 0 <= i < |sections| && old(sections)[i].name == section ==>
                var items := Items(old(sections)[i].chain);
                ok == (items == [] || items[0].Scalar?)
                && (ok ==> Grown(items, Items(sections[i].chain), where, Scalar(id, value))
                           && Answers(items, Items(sections[i].chain), where, Scalar(id, value))
                           && LineBelow(old(sections)[i].body, sections[i].body, where, id, value))
    {
      hide CountOf, SectionOk, Place, Answers, Grown, LineBelow, ValueBeside;
      if !ready { return false; }
      var at := FindSection(section);
      if at.None? { return false; }
      OneOfName(at.value, section);
      var s := sections[at.value];
      if s.chain != [] && s.chain[0].item.Vector? { return false; }
      var t := AddScalarTo(s, where, id, value);
      GrownAnswers(Items(s.chain), Items(t.chain), where, Scalar(id, value));
      Replace(at.value, t);
      ok := true;
    }

    // add_token with a value and no id.
    method AddVector(section: string, where: int, value: string) returns (ok: bool)
      requires Valid()
      modifies this`sections
      ensures Valid() && Names(sections) == old(Names(sections))
      ensures !ready || section !in Names(sections) ==> !ok
      ensures !ok ==> sections == old(sections)
      ensures forall i :: ready && 0 <= i < |sections| && old(sections)[i].name != section ==> sections[i] == old(sections)[i]
      ensures forall i :: ready && 0 <= i < |sections| && old(sections)[i].name == section ==>
                var items := Items(old(sections)[i].chain);
                ok == (items == [] || items[0].Vector?)
                && (ok ==> Grown(items, Items(sections[i].chain), where, Vector(value))
                           && Answers(items, Items(sections[i].chain), where, Vector(value))
                           && ValueBeside(old(sections)[i].body, sections[i].body, where, value))
    {
      hide CountOf, SectionOk, Place, Answers, Grown, LineBelow, ValueBeside;
      if !ready { return false; }
      var at := FindSection(section);
      if at.None? { return false; }
      OneOfName(at.value, section);
      var s := sections[at.value];
      if s.chain != [] && s.chain[0].item.Scalar? { return false; }
      var t := AddVectorTo(s, where, value);
      GrownAnswers(Items(s.chain), Items(t.chain), where, Vector(value));
      Replace(at.value, t);
      ok := true;
    }

    method Replace(at: nat, t: Section)
      requires Valid() && ready && at < |sections| && SectionOk(t) && t.name == sections[at].name
      modifies this`sections
      ensures Valid() && Names(sections) == old(Names(sections))
      ensures sections == old(sections)[at := t]
    {
      hide SectionOk;
      sections := sections[at := t];
      assert Names(sections) == old(Names(sections));
    }

    // add_token without a value: a new empty section as the where-th, behind the last
    // item line in front of it, so the notes there become its own.
    method AddSection(name: string, where: int) returns (ok: bool)
      requires Valid()
      modifies this
      ensures Valid() && ready == old(ready)
      ensures ok == (ready && name !in old(Names(sections)))
      ensures !ok ==> sections == old(sections) && preamble == old(preamble)
      ensures ok ==> SectionAdded(old(preamble), old(sections), preamble, sections, Where(where, |old(sections)|), name)
      ensures ok ==>
                var w := if 0 <= where <= |old(sections)| then where else |old(sections)|;
                && w < |sections| && sections[w].name == name && sections[w].chain == []
                && (forall k :: 0 <= k < |sections[w].body| ==> sections[w].body[k].Comment? || sections[w].body[k].Blank?)
                && (w > 0 ==> NotesGone(sections[w - 1].body))
    {
      hide SectionOk, IsNote, NoDuplicates, SectionAdded;
      if !ready { return false; }
      var found := FindSection(name);
      if found.Some? {
        assert name == Names(sections)[found.value];
        return false;
      }
      var w := Where(where, |sections|);
      NameInserted(Names(sections), w, name);
      if sections == [] {
        InsertOnly(name);
      } else if w == 0 {
        InsertFirst(name);
      } else {
        InsertBehind(w, name);
      }
      ok := true;
    }

    // The last line, if any, is no comment and not blank.
    static predicate NotesGone(body: seq<Line>) {
      body != [] ==> !body[|body| - 1].Comment? && !body[|body| - 1].Blank?
    }

    static lemma NotesAre(s: Section)
      requires s.chain == [] && forall k :: 0 <= k < |s.body| ==> IsNote(s.body[k])
      ensures AllNotes(s)
    {
    }

    static lemma NotesCut(body: seq<Line>, k: nat, name: string)
      requires k <= |body| && (forall i :: k <= i < |body| ==> IsNote(body[i])) && (k > 0 ==> !IsNote(body[k - 1]))
      ensures AllNotes(Section(name, body[k..], [])) && NotesGone(body[..k])
    {
    }

    static predicate AllNotes(s: Section) {
      s.chain == [] && forall k :: 0 <= k < |s.body| ==> s.body[k].Comment? || s.body[k].Blank?
    }

    method InsertOnly(name: string)
      requires Valid() && ready && sections == []
      modifies this`sections
      ensures Valid() && SectionAdded(old(preamble), old(sections), preamble, sections, 0, name)
      ensures sections != [] && sections[0].name == name && AllNotes(sections[0])
    {
      EmptySection(name, []);
      sections := [Section(name, [], [])];
    }

    method InsertFirst(name: string)
      requires Valid() && ready && NoDuplicates(Inserted(Names(sections), 0, name))
      requires sections != []
      modifies this`sections, this`preamble
      ensures Valid() && SectionAdded(old(preamble), old(sections), preamble, sections, 0, name)
      ensures sections != [] && sections[0].name == name && AllNotes(sections[0])
    {
      hide SectionOk, IsNote, NoDuplicates, ItemsOf, AllNotes;
      NotesHoldNothing(preamble);
      NotesAre(Section(name, preamble, []));
      EmptySection(name, preamble);
      ghost var names := Names(sections);
      sections := [Section(name, preamble, [])] + sections;
      assert Names(sections) == Inserted(names, 0, name);
      preamble := [];
    }

    method InsertBehind(w: nat, name: string)
      requires Valid() && ready && 0 < w <= |sections|
      requires NoDuplicates(Inserted(Names(sections), w, name))
      modifies this`sections
      ensures Valid() && SectionAdded(old(preamble), old(sections), preamble, sections, w, name)
      ensures w < |sections| && sections[w].name == name && AllNotes(sections[w]) && NotesGone(sections[w - 1].body)
    {
      hide SectionOk, IsNote, NoDuplicates, ItemsOf, AllNotes, NotesGone;
      var prev := sections[w - 1];
      var k := TrailingNotes(prev.body);
      NotesCut(prev.body, k, name);
      NotesMove(prev, k, name);
      ghost var names := Names(sections);
      sections := sections[..w - 1] + [prev.(body := prev.body[..k]), Section(name, prev.body[k..], [])] + sections[w..];
      assert Names(sections) == Inserted(names, w, name);
    }

    static method TrailingNotes(body: seq<Line>) returns (k: nat)
      ensures k <= |body|
      ensures forall i :: k <= i < |body| ==> IsNote(body[i])
      ensures k > 0 ==> !IsNote(body[k - 1])
    {
      k := |body|;
      while k > 0 && IsNote(body[k - 1])
        invariant k <= |body|
        invariant forall i :: k <= i < |body| ==> IsNote(body[i])
      {
        k := k - 1;
      }
    }
  }
}
