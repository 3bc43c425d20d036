/** What a configuration file means to src/utils/config.cpp: sections of lines, the
    items on those lines in order, and the ordinal of each item among its like. */
module ConfigIndex {
  import opened Bytes

  // A line of the file as the reader classifies it.
  datatype Line =
    | Header(name: string)
    | Comment(text: string)
    | Blank
    | ScalarLine(id: string, value: string)
    | VectorLine(values: seq<string>)

  datatype Item = Scalar(name: string, value: string) | Vector(value: string)

  // An item linked into its section, with the index stored beside it.
  datatype Token = Token(item: Item, index: int)

  // The header line's name, the lines below it, and the chain from `etoken` by `snext`.
  datatype Section = Section(name: string, body: seq<Line>, chain: seq<Token>)

  // -------------------------------------------------------------------- items

  function ItemsOn(l: Line): seq<Item> {
    match l
    case ScalarLine(id, value) => [Scalar(id, value)]
    case VectorLine(values) => Vectors(values)
    case _ => []
  }

  function Vectors(values: seq<string>): (r: seq<Item>)
    ensures |r| == |values|
  {
    seq(|values|, i requires 0 <= i < |values| => Vector(values[i]))
  }

  function ItemsOf(body: seq<Line>): seq<Item> {
    if body == [] then [] else ItemsOn(body[0]) + ItemsOf(body[1..])
  }

  lemma ItemsUnfold(body: seq<Line>)
    ensures ItemsOf(body) == if body == [] then [] else ItemsOn(body[0]) + ItemsOf(body[1..])
  {
  }

  lemma {:induction false} ItemsConcat(a: seq<Line>, b: seq<Line>)
    ensures ItemsOf(a + b) == ItemsOf(a) + ItemsOf(b)
  {
    hide ItemsOn, ItemsOf;
    ItemsUnfold(a);
    if a == [] {
      assert a + b == b;
      assert [] + ItemsOf(b) == ItemsOf(b);
    } else {
      ItemsConcat(a[1..], b);
      ItemsUnfold(a + b);
      assert (a + b)[1..] == a[1..] + b;
      Assoc(ItemsOn(a[0]), ItemsOf(a[1..]), ItemsOf(b));
    }
  }

  lemma ItemsOneLine(l: Line)
    ensures ItemsOf([l]) == ItemsOn(l)
  {
    assert [l][1..] == [];
  }

  // ------------------------------------------------------------- plain counting

  // The key None asks for vector items, Some(id) for scalars of that name.
  predicate Matches(i: Item, key: Option<string>) {
    match key
    case None => i.Vector?
    case Some(id) => i.Scalar? && i.name == id
  }

  function KeyOf(i: Item): Option<string> {
    if i.Vector? then None else Some(i.name)
  }

  function CountOf(items: seq<Item>, key: Option<string>): nat {
    if items == [] then 0
    else CountOf(items[..|items| - 1], key) + if Matches(items[|items| - 1], key) then 1 else 0
  }

  function CountValue(items: seq<Item>, value: string): nat {
    if items == [] then 0
    else CountValue(items[..|items| - 1], value) + if items[|items| - 1].value == value then 1 else 0
  }

  // The n-th item of the key.
  function Kth(items: seq<Item>, key: Option<string>, n: int): Option<string> {
    if items == [] then None
    else
      var front, last := items[..|items| - 1], items[|items| - 1];
      if Matches(last, key) && CountOf(front, key) + 1 == n then Some(last.value) else Kth(front, key, n)
  }

  lemma {:induction false} KthExistsIff(items: seq<Item>, key: Option<string>, n: int)
    ensures Kth(items, key, n).Some? <==> 1 <= n <= CountOf(items, key)
  {
    if items != [] {
      KthExistsIff(items[..|items| - 1], key, n);
    }
  }

  lemma {:induction false} CountConcat(a: seq<Item>, b: seq<Item>, key: Option<string>)
    ensures CountOf(a + b, key) == CountOf(a, key) + CountOf(b, key)
  {
    if b == [] {
      assert a + b == a;
    } else {
      CountConcat(a, b[..|b| - 1], key);
      assert (a + b)[..|a + b| - 1] == a + b[..|b| - 1];
    }
  }

  lemma {:induction false} KthConcat(a: seq<Item>, b: seq<Item>, key: Option<string>, n: int)
    ensures Kth(a + b, key, n) == if n <= CountOf(a, key) then Kth(a, key, n) else Kth(b, key, n - CountOf(a, key))
  {
    KthExistsIff(a, key, n);
    if b == [] {
      assert a + b == a;
    } else {
      var front := b[..|b| - 1];
      KthConcat(a, front, key, n);
      CountConcat(a, front, key);
      assert (a + b)[..|a + b| - 1] == a + front;
    }
  }

  function Ordinal(items: seq<Item>, k: nat): nat
    requires k < |items|
  {
    CountOf(items[..k], KeyOf(items[k])) + 1
  }

  function Items(chain: seq<Token>): (r: seq<Item>)
    ensures |r| == |chain|
  {
    seq(|chain|, k requires 0 <= k < |chain| => chain[k].item)
  }

  // Every stored index is what plain counting gives.
  predicate Indexed(chain: seq<Token>) {
    forall k :: 0 <= k < |chain| ==> chain[k].index == Ordinal(Items(chain), k)
  }

  // All of one kind.
  predicate Unmixed(items: seq<Item>) {
    forall i, j :: 0 <= i < |items| && 0 <= j < |items| ==> items[i].Vector? == items[j].Vector?
  }

  predicate SectionOk(s: Section) {
    Items(s.chain) == ItemsOf(s.body) && Indexed(s.chain) && Unmixed(Items(s.chain))
  }

  // The stored indices let a single look find the n-th definition.
  lemma {:induction false} FoundByIndex(chain: seq<Token>, k: nat, key: Option<string>, n: int)
    requires k <= |chain| && Indexed(chain)
    requires forall j :: 0 <= j < k ==> !(Matches(chain[j].item, key) && chain[j].index == n)
    ensures Kth(Items(chain)[..k], key, n) == None
    ensures k < |chain| && Matches(chain[k].item, key) && chain[k].index == n ==>
              Kth(Items(chain)[..k + 1], key, n) == Some(chain[k].item.value)
              && CountOf(Items(chain)[..k], key) + 1 == n
  {
    var items := Items(chain);
    if k > 0 {
      assert items[..k][..k - 1] == items[..k - 1];
      FoundByIndex(chain, k - 1, key, n);
      KeyMatches(items[k - 1], key);
    }
    if k < |chain| && Matches(chain[k].item, key) && chain[k].index == n {
      assert items[..k + 1][..k] == items[..k];
      KeyMatches(items[k], key);
    }
  }

  lemma KeyMatches(i: Item, key: Option<string>)
    ensures Matches(i, key) <==> KeyOf(i) == key
  {
  }

  lemma KthStays(items: seq<Item>, k: nat, key: Option<string>, n: int)
    requires k <= |items| && Kth(items[..k], key, n).Some?
    ensures Kth(items, key, n) == Kth(items[..k], key, n)
  {
    assert items == items[..k] + items[k..];
    KthConcat(items[..k], items[k..], key, n);
    KthExistsIff(items[..k], key, n);
  }

  // ----------------------------------------------------------------- inserting

  // Right behind the where-th item of the key, or in front of everything.
  function Place(items: seq<Item>, key: Option<string>, where: nat): (p: nat)
    requires where <= CountOf(items, key)
    ensures p <= |items|
  {
    if where == 0 then 0
    else if CountOf(items[..|items| - 1], key) < where then |items|
    else Place(items[..|items| - 1], key, where)
  }

  function Inserted<T>(s: seq<T>, p: nat, x: T): (r: seq<T>)
    requires p <= |s|
    ensures |r| == |s| + 1
  {
    s[..p] + [x] + s[p..]
  }

  lemma {:induction false} PlaceCounts(items: seq<Item>, key: Option<string>, where: nat)
    requires where <= CountOf(items, key)
    ensures CountOf(items[..Place(items, key, where)], key) == where
    ensures where > 0 ==> Place(items, key, where) > 0 && Matches(items[Place(items, key, where) - 1], key)
  {
    if where == 0 {
    } else {
      var front := items[..|items| - 1];
      if CountOf(front, key) < where {
        assert items[..|items|] == items;
      } else {
        PlaceCounts(front, key, where);
        assert front[..Place(front, key, where)] == items[..Place(front, key, where)];
      }
    }
  }

  // A place is the only one with so many of the key in front of it and one just there.
  lemma {:induction false} PlaceUnique(items: seq<Item>, key: Option<string>, p: nat)
    requires 0 < p <= |items| && Matches(items[p - 1], key)
    ensures CountOf(items[..p], key) <= CountOf(items, key)
    ensures Place(items, key, CountOf(items[..p], key)) == p
    ensures CountOf(items[..p], key) > 0
  {
    assert items[..p][..p - 1] == items[..p - 1];
    if p == |items| {
      assert items[..p] == items;
    } else {
      var front := items[..|items| - 1];
      assert front[..p] == items[..p];
      PlaceUnique(front, key, p);
    }
  }

  // Looking up after an insertion: the new item answers just behind the where-th,
  // later ones move up by one, and no other key notices.
  lemma InsertShifts(items: seq<Item>, x: Item, where: nat, key: Option<string>, n: int)
    requires where <= CountOf(items, KeyOf(x))
    ensures var r := Inserted(items, Place(items, KeyOf(x), where), x);
            Kth(r, key, n) ==
              if key != KeyOf(x) then Kth(items, key, n)
              else if n <= where then Kth(items, key, n)
              else if n == where + 1 then Some(x.value)
              else Kth(items, key, n - 1)
  {
    hide Kth, CountOf, Place;
    var p := Place(items, KeyOf(x), where);
    var a, b := items[..p], items[p..];
    PlaceCounts(items, KeyOf(x), where);
    assert items == a + b;
    if key == KeyOf(x) {
      ShiftedKth(a, b, x, n);
    } else {
      UnshiftedKth(a, b, x, key, n);
    }
  }

  lemma ShiftedKth(a: seq<Item>, b: seq<Item>, x: Item, n: int)
    ensures var key, where := KeyOf(x), CountOf(a, KeyOf(x));
            Kth(a + [x] + b, key, n) ==
              if n <= where then Kth(a + b, key, n)
              else if n == where + 1 then Some(x.value)
              else Kth(a + b, key, n - 1)
  {
    hide Kth, CountOf;
    var key := KeyOf(x);
    KthConcat(a, b, key, n);
    KthConcat(a, b, key, n - 1);
    KthConcat(a + [x], b, key, n);
    KthConcat(a, [x], key, n);
    CountConcat(a, [x], key);
    CountOne(x, key);
  }

  lemma UnshiftedKth(a: seq<Item>, b: seq<Item>, x: Item, key: Option<string>, n: int)
    requires key != KeyOf(x)
    ensures Kth(a + [x] + b, key, n) == Kth(a + b, key, n)
  {
    hide Kth, CountOf;
    KeyMatches(x, key);
    KthConcat(a, b, key, n);
    KthConcat(a + [x], b, key, n);
    KthConcat(a, [x], key, n);
    CountConcat(a, [x], key);
    CountOne(x, key);
    KthExistsIff(a, key, n);
    KthExistsIff(b, key, n - CountOf(a, key));
  }

  lemma CountOne(x: Item, key: Option<string>)
    ensures CountOf([x], key) == if Matches(x, key) then 1 else 0
    ensures forall n: int :: Kth([x], key, n) == if Matches(x, key) && n == 1 then Some(x.value) else None
  {
    assert [x][..0] == [];
  }

  // The chain after an insertion: later items of the same key get one more.
  function Bumped(chain: seq<Token>, key: Option<string>): (r: seq<Token>)
    ensures |r| == |chain|
  {
    seq(|chain|, k requires 0 <= k < |chain| =>
      if Matches(chain[k].item, key) then chain[k].(index := chain[k].index + 1) else chain[k])
  }

  function InsertedChain(chain: seq<Token>, p: nat, x: Item, index: int): (r: seq<Token>)
    requires p <= |chain|
  {
    chain[..p] + [Token(x, index)] + Bumped(chain[p..], KeyOf(x))
  }

  // Bumping just those keeps every stored index right.
  lemma InsertKeepsIndexed(chain: seq<Token>, x: Item, where: nat)
    requires Indexed(chain) && where <= CountOf(Items(chain), KeyOf(x))
    ensures var p := Place(Items(chain), KeyOf(x), where);
            Items(InsertedChain(chain, p, x, where + 1)) == Inserted(Items(chain), p, x)
            && Indexed(InsertedChain(chain, p, x, where + 1))
  {
    hide CountOf, Place, Ordinal;
    var items := Items(chain);
    var p := Place(items, KeyOf(x), where);
    var after := InsertedChain(chain, p, x, where + 1);
    var r := Inserted(items, p, x);
    assert Items(after) == r;
    PlaceCounts(items, KeyOf(x), where);
    forall k | 0 <= k < |after| ensures after[k].index == Ordinal(r, k) {
      OrdinalAfter(items, p, x, k);
      if k > p {
        assert after[k] == Bumped(chain[p..], KeyOf(x))[k - p - 1];
        KeyMatches(items[k - 1], KeyOf(x));
      }
    }
  }

  lemma OrdinalAfter(items: seq<Item>, p: nat, x: Item, k: nat)
    requires p <= |items| && k <= |items|
    ensures Ordinal(Inserted(items, p, x), k) ==
            if k < p then Ordinal(items, k)
            else if k == p then CountOf(items[..p], KeyOf(x)) + 1
            else Ordinal(items, k - 1) + if KeyOf(items[k - 1]) == KeyOf(x) then 1 else 0
  {
    var r := Inserted(items, p, x);
    if k <= p {
      assert r[..k] == items[..k];
    } else {
      var key := KeyOf(items[k - 1]);
      assert r[..k] == items[..p] + [x] + items[p..k - 1];
      assert items[..k - 1] == items[..p] + items[p..k - 1];
      CountConcat(items[..p] + [x], items[p..k - 1], key);
      CountConcat(items[..p], [x], key);
      CountConcat(items[..p], items[p..k - 1], key);
      CountOne(x, key);
    }
  }

  // --------------------------------------------------------------- sections

  datatype Raw = Raw(name: string, body: seq<Line>)
  datatype Split = Split(preamble: seq<Line>, raws: seq<Raw>)

  // The file cut at its section headers.
  function SplitOf(lines: seq<Line>): (r: Split) {
    if lines == [] then Split([], [])
    else
      var s, l := SplitOf(lines[..|lines| - 1]), lines[|lines| - 1];
      if l.Header? then Split(s.preamble, s.raws + [Raw(l.name, [])])
      else if s.raws == [] then Split(s.preamble + [l], [])
      else
        var last := s.raws[|s.raws| - 1];
        Split(s.preamble, s.raws[..|s.raws| - 1] + [Raw(last.name, last.body + [l])])
  }

  function Joined(raws: seq<Raw>): seq<Line> {
    if raws == [] then []
    else Joined(raws[..|raws| - 1]) + [Header(raws[|raws| - 1].name)] + raws[|raws| - 1].body
  }

  lemma SplitStep(front: seq<Line>, l: Line)
    ensures var s := SplitOf(front);
            SplitOf(front + [l]) ==
              if l.Header? then Split(s.preamble, s.raws + [Raw(l.name, [])])
              else if s.raws == [] then Split(s.preamble + [l], [])
              else
                var last := s.raws[|s.raws| - 1];
                Split(s.preamble, s.raws[..|s.raws| - 1] + [Raw(last.name, last.body + [l])])
  {
    assert (front + [l])[..|front|] == front;
  }

  lemma JoinedStep(raws: seq<Raw>, r: Raw)
    ensures Joined(raws + [r]) == Joined(raws) + [Header(r.name)] + r.body
  {
    assert (raws + [r])[..|raws|] == raws;
  }

  // Cutting loses and reorders nothing.
  lemma {:induction false} SplitJoins(lines: seq<Line>)
    ensures SplitOf(lines).preamble + Joined(SplitOf(lines).raws) == lines
  {
    hide SplitOf, Joined;
    NothingJoined();
    if lines != [] {
      var front, l := lines[..|lines| - 1], lines[|lines| - 1];
      SplitJoins(front);
      SplitJoinsStep(front, l);
      assert front + [l] == lines;
    }
  }

  lemma SplitJoinsStep(front: seq<Line>, l: Line)
    requires SplitOf(front).preamble + Joined(SplitOf(front).raws) == front
    ensures SplitOf(front + [l]).preamble + Joined(SplitOf(front + [l]).raws) == front + [l]
  {
    hide SplitOf, Joined;
    SplitStep(front, l);
    var s := SplitOf(front);
    if l.Header? {
      JoinedStep(s.raws, Raw(l.name, []));
    } else if s.raws == [] {
      NothingJoined();
    } else {
      var n := |s.raws| - 1;
      assert s.raws == s.raws[..n] + [s.raws[n]];
      JoinedStep(s.raws[..n], s.raws[n]);
      JoinedStep(s.raws[..n], Raw(s.raws[n].name, s.raws[n].body + [l]));
    }
  }

  lemma NothingJoined()
    ensures Joined([]) == [] && SplitOf([]) == Split([], [])
  {
  }

  // Two shapes of line hold no item.
  predicate IsNote(l: Line) {
    l.Comment? || l.Blank?
  }

  // A token line is refused when a name or value is empty.
  predicate LineOk(l: Line) {
    match l
    case Header(name) => name != ""
    case ScalarLine(id, value) => id != "" && value != ""
    case _ => true
  }

  predicate BodyOk(body: seq<Line>) {
    forall i :: 0 <= i < |body| ==> !body[i].Header? && LineOk(body[i])
  }

  predicate HasScalar(body: seq<Line>) {
    exists i :: 0 <= i < |body| && body[i].ScalarLine?
  }

  predicate HasVector(body: seq<Line>) {
    exists i :: 0 <= i < |body| && body[i].VectorLine?
  }

  predicate RawOk(r: Raw) {
    r.name != "" && BodyOk(r.body) && !(HasScalar(r.body) && HasVector(r.body))
  }

  // No item before the first header, no mixed section, nothing empty.
  predicate Readable(s: Split) {
    (forall i :: 0 <= i < |s.preamble| ==> IsNote(s.preamble[i]))
    && (forall i :: 0 <= i < |s.raws| ==> RawOk(s.raws[i]))
  }

  predicate NamesDiffer(raws: seq<Raw>) {
    forall i, j :: 0 <= i < j < |raws| ==> raws[i].name != raws[j].name
  }

  predicate Loads(lines: seq<Line>) {
    Readable(SplitOf(lines)) && NamesDiffer(SplitOf(lines).raws)
  }

  lemma {:induction false} BodyUnmixed(body: seq<Line>)
    ensures !HasVector(body) ==> forall k :: 0 <= k < |ItemsOf(body)| ==> !ItemsOf(body)[k].Vector?
    ensures !HasScalar(body) ==> forall k :: 0 <= k < |ItemsOf(body)| ==> ItemsOf(body)[k].Vector?
  {
    if body != [] {
      var tail := body[1..];
      assert HasVector(tail) ==> HasVector(body) by {
        if HasVector(tail) { var i :| 0 <= i < |tail| && tail[i].VectorLine?; assert body[i + 1].VectorLine?; }
      }
      assert HasScalar(tail) ==> HasScalar(body) by {
        if HasScalar(tail) { var i :| 0 <= i < |tail| && tail[i].ScalarLine?; assert body[i + 1].ScalarLine?; }
      }
      BodyUnmixed(tail);
      assert body[0].VectorLine? ==> HasVector(body);
      assert body[0].ScalarLine? ==> HasScalar(body);
    }
  }

  // ------------------------------------------------ a new item's line

  function ScalarInserted(body: seq<Line>, j: nat, x: Item): seq<Line>
    requires j <= |body| && x.Scalar?
  {
    Inserted(body, j, ScalarLine(x.name, x.value))
  }

  lemma ScalarInsertedItems(body: seq<Line>, j: nat, x: Item)
    requires j <= |body| && x.Scalar?
    ensures |ItemsOf(body[..j])| <= |ItemsOf(body)|
    ensures ItemsOf(ScalarInserted(body, j, x)) == Inserted(ItemsOf(body), |ItemsOf(body[..j])|, x)
  {
    var l := ScalarLine(x.name, x.value);
    assert body == body[..j] + body[j..];
    ItemsConcat(body[..j], body[j..]);
    ItemsConcat(body[..j] + [l], body[j..]);
    ItemsConcat(body[..j], [l]);
    ItemsOneLine(l);
  }

  // A vector item goes into the line of the item in front of it, or, as the first of
  // its section, in front on the first item's line.
  function VectorInserted(body: seq<Line>, p: nat, value: string): seq<Line>
    requires p <= |ItemsOf(body)| && ItemsOf(body) != [] && NoScalar(body)
    decreases |body|
  {
    var n := |ItemsOn(body[0])|;
    if n > 0 && p <= n then [VectorLine(Inserted(body[0].values, p, value))] + body[1..]
    else [body[0]] + VectorInserted(body[1..], p - n, value)
  }

  predicate NoScalar(body: seq<Line>) {
    forall i :: 0 <= i < |body| ==> !body[i].ScalarLine?
  }

  lemma ItemsCons(l: Line, body: seq<Line>)
    ensures ItemsOf([l] + body) == ItemsOn(l) + ItemsOf(body)
  {
    hide ItemsOn;
    assert ([l] + body)[1..] == body;
  }

  lemma VectorInsertedUnfold(body: seq<Line>, p: nat, value: string)
    requires p <= |ItemsOf(body)| && ItemsOf(body) != [] && NoScalar(body)
    ensures body != [] && NoScalar(body[1..]) && !body[0].ScalarLine?
    ensures var n := |ItemsOn(body[0])|;
            if n > 0 && p <= n then
              body[0].VectorLine? && p <= |body[0].values|
              && VectorInserted(body, p, value) == [VectorLine(Inserted(body[0].values, p, value))] + body[1..]
            else
              n <= p && p - n <= |ItemsOf(body[1..])| && ItemsOf(body[1..]) != []
              && VectorInserted(body, p, value) == [body[0]] + VectorInserted(body[1..], p - n, value)
  {
    hide Inserted;
  }

  lemma {:induction false} VectorInsertedItems(body: seq<Line>, p: nat, value: string)
    requires p <= |ItemsOf(body)| && ItemsOf(body) != [] && NoScalar(body)
    ensures ItemsOf(VectorInserted(body, p, value)) == Inserted(ItemsOf(body), p, Vector(value))
    decreases |body|
  {
    hide ItemsOn, ItemsOf, VectorInserted, Inserted;
    ItemsUnfold(body);
    ItemsUnfold(body[1..]);
    VectorInsertedUnfold(body, p, value);
    var n := |ItemsOn(body[0])|;
    var on, tail := ItemsOn(body[0]), ItemsOf(body[1..]);
    if n > 0 && p <= n {
      InsertedOn(body[0], p, value);
      ItemsCons(VectorLine(Inserted(body[0].values, p, value)), body[1..]);
      InsertedLeft(on, tail, p, Vector(value));
    } else {
      assert tail != [] && p - n <= |tail|;
      VectorInsertedItems(body[1..], p - n, value);
      ItemsCons(body[0], VectorInserted(body[1..], p - n, value));
      InsertedRight(on, tail, p - n, Vector(value));
    }
  }

  lemma InsertedOn(l: Line, p: nat, value: string)
    requires !l.ScalarLine? && p <= |ItemsOn(l)| && |ItemsOn(l)| > 0
    ensures l.VectorLine? && p <= |l.values|
    ensures ItemsOn(VectorLine(Inserted(l.values, p, value))) == Inserted(ItemsOn(l), p, Vector(value))
  {
  }

  lemma InsertedLeft<T>(a: seq<T>, b: seq<T>, p: nat, x: T)
    requires p <= |a|
    ensures Inserted(a, p, x) + b == Inserted(a + b, p, x)
  {
  }

  lemma InsertedRight<T>(a: seq<T>, b: seq<T>, p: nat, x: T)
    requires p <= |b|
    ensures a + Inserted(b, p, x) == Inserted(a + b, |a| + p, x)
  {
  }

  // ------------------------------------------------- counting, by positions

  // Where the definitions of a name stand, the vector items, and the items of a value.
  function Named(items: seq<Item>, id: string): set<nat> {
    set k: nat | k < |items| && items[k].Scalar? && items[k].name == id
  }

  function VectorsAt(items: seq<Item>): set<nat> {
    set k: nat | k < |items| && items[k].Vector?
  }

  function Valued(items: seq<Item>, value: string): set<nat> {
    set k: nat | k < |items| && items[k].value == value
  }

  lemma CountIsNumber(items: seq<Item>, id: string, value: string)
    ensures CountOf(items, Some(id)) == |Named(items, id)|
    ensures CountOf(items, None) == |VectorsAt(items)|
    ensures CountValue(items, value) == |Valued(items, value)|
  {
    CountIsNamed(items, id);
    CountIsVectors(items);
    CountIsValued(items, value);
  }

  lemma {:induction false} CountIsNamed(items: seq<Item>, id: string)
    ensures CountOf(items, Some(id)) == |Named(items, id)|
  {
    if items != [] {
      var front, n := items[..|items| - 1], |items| - 1;
      CountIsNamed(front, id);
      assert Named(items, id) == Named(front, id) + if items[n].Scalar? && items[n].name == id then {n} else {};
    }
  }

  lemma {:induction false} CountIsVectors(items: seq<Item>)
    ensures CountOf(items, None) == |VectorsAt(items)|
  {
    if items != [] {
      var front, n := items[..|items| - 1], |items| - 1;
      CountIsVectors(front);
      assert VectorsAt(items) == VectorsAt(front) + if items[n].Vector? then {n} else {};
    }
  }

  lemma {:induction false} CountIsValued(items: seq<Item>, value: string)
    ensures CountValue(items, value) == |Valued(items, value)|
  {
    if items != [] {
      var front, n := items[..|items| - 1], |items| - 1;
      CountIsValued(front, value);
      assert Valued(items, value) == Valued(front, value) + if items[n].value == value then {n} else {};
    }
  }

  lemma {:induction false} AllAreVectors(items: seq<Item>)
    requires forall k :: 0 <= k < |items| ==> items[k].Vector?
    ensures |VectorsAt(items)| == |items|
  {
    if items != [] {
      var front, n := items[..|items| - 1], |items| - 1;
      AllAreVectors(front);
      assert VectorsAt(items) == VectorsAt(front) + {n};
    }
  }

  // The n-th definition of a name is the one with n - 1 in front of it.
  lemma KthIsAt(items: seq<Item>, id: string, n: int, k: nat)
    requires k < |items| && items[k].Scalar? && items[k].name == id && |Named(items[..k], id)| == n - 1
    ensures Kth(items, Some(id), n) == Some(items[k].value)
  {
    hide Kth, CountOf, Named;
    CountIsNumber(items[..k], id, "");
    KthOfPrefix(items, k, Some(id), n);
    KthStays(items, k + 1, Some(id), n);
  }

  lemma KthOfPrefix(items: seq<Item>, k: nat, key: Option<string>, n: int)
    requires k < |items| && Matches(items[k], key) && CountOf(items[..k], key) + 1 == n
    ensures Kth(items[..k + 1], key, n) == Some(items[k].value)
  {
    assert items[..k + 1][..k] == items[..k];
  }

  // The same for vector items: the n-th is the one with n - 1 in front of it.
  lemma KthVectorIsAt(items: seq<Item>, n: int, k: nat)
    requires k < |items| && items[k].Vector? && |VectorsAt(items[..k])| == n - 1
    ensures Kth(items, None, n) == Some(items[k].value)
  {
    hide Kth, CountOf, VectorsAt;
    CountIsNumber(items[..k], "", "");
    KthOfPrefix(items, k, None, n);
    KthStays(items, k + 1, None, n);
  }

  // And there is none exactly when n is not from 1 to the number of definitions.
  lemma KthMissing(items: seq<Item>, id: string, n: int)
    ensures Kth(items, Some(id), n) == None <==> n < 1 || n > |Named(items, id)|
    ensures Kth(items, None, n) == None <==> n < 1 || n > |VectorsAt(items)|
  {
    hide Kth, CountOf, Named, VectorsAt;
    KthExistsIff(items, Some(id), n);
    KthExistsIff(items, None, n);
    CountIsNumber(items, id, "");
  }
}
