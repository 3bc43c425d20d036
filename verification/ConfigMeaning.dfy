/** Which files src/utils/config.cpp loads, said of the lines themselves. */
module ConfigMeaning {
  import opened Bytes
  import opened ConfigIndex
  import opened ConfigFile

  // Line j is in the same section as what stands at i: no header in between.
  predicate SameSection(lines: seq<Line>, j: nat, i: nat) {
    j < i <= |lines| && forall h :: j < h < i ==> !lines[h].Header?
  }

  predicate HeaderAbove(lines: seq<Line>, i: nat)
    requires i <= |lines|
  {
    exists h :: 0 <= h < i && lines[h].Header?
  }

  predicate ScalarAbove(lines: seq<Line>, i: nat)
    requires i <= |lines|
  {
    exists j :: 0 <= j < i && lines[j].ScalarLine? && SameSection(lines, j, i)
  }

  predicate VectorAbove(lines: seq<Line>, i: nat)
    requires i <= |lines|
  {
    exists j :: 0 <= j < i && lines[j].VectorLine? && SameSection(lines, j, i)
  }

  // A header needs a name, a scalar an id and a value; items need a header above them
  // and no item of the other kind between that header and themselves.
  predicate LineRule(lines: seq<Line>, i: nat)
    requires i < |lines|
  {
    match lines[i]
    case Header(name) => name != ""
    case ScalarLine(id, value) => id != "" && value != "" && HeaderAbove(lines, i) && !VectorAbove(lines, i)
    case VectorLine(_) => HeaderAbove(lines, i) && !ScalarAbove(lines, i)
    case Comment(_) => true
    case Blank => true
  }

  predicate Obeys(lines: seq<Line>) {
    forall i :: 0 <= i < |lines| ==> LineRule(lines, i)
  }

  // No two headers carry the same name.
  predicate HeadersDiffer(lines: seq<Line>) {
    forall i, j :: 0 <= i < j < |lines| && lines[i].Header? && lines[j].Header? ==> lines[i].name != lines[j].name
  }

  predicate HeaderNamed(lines: seq<Line>, name: string) {
    exists h :: 0 <= h < |lines| && lines[h] == Header(name)
  }

  // ------------------------------------------------------------- one line more

  lemma AboveStep(front: seq<Line>, l: Line)
    ensures var lines, n := front + [l], |front|;
            (HeaderAbove(lines, n + 1) <==> HeaderAbove(front, n) || l.Header?)
            && (ScalarAbove(lines, n + 1) <==> !l.Header? && (ScalarAbove(front, n) || l.ScalarLine?))
            && (VectorAbove(lines, n + 1) <==> !l.Header? && (VectorAbove(front, n) || l.VectorLine?))
  {
    var lines, n := front + [l], |front|;
    assert lines[n] == l && forall i :: 0 <= i < n ==> lines[i] == front[i];
    assert SameSection(lines, n, n + 1);
    forall j | 0 <= j < n ensures SameSection(lines, j, n + 1) <==> !l.Header? && SameSection(front, j, n) {
    }
    if HeaderAbove(front, n) {
      var h :| 0 <= h < n && front[h].Header?;
      assert lines[h].Header?;
    }
    if !l.Header? && ScalarAbove(front, n) {
      var j :| 0 <= j < n && front[j].ScalarLine? && SameSection(front, j, n);
      assert lines[j].ScalarLine? && SameSection(lines, j, n + 1);
    }
    if !l.Header? && VectorAbove(front, n) {
      var j :| 0 <= j < n && front[j].VectorLine? && SameSection(front, j, n);
      assert lines[j].VectorLine? && SameSection(lines, j, n + 1);
    }
  }

  // What is above a line does not depend on what is below it.
  lemma AboveOfPrefix(lines: seq<Line>, more: seq<Line>, i: nat)
    requires i <= |lines|
    ensures HeaderAbove(lines + more, i) <==> HeaderAbove(lines, i)
    ensures ScalarAbove(lines + more, i) <==> ScalarAbove(lines, i)
    ensures VectorAbove(lines + more, i) <==> VectorAbove(lines, i)
    ensures i < |lines| ==> (LineRule(lines + more, i) <==> LineRule(lines, i))
  {
    var all := lines + more;
    assert forall k :: 0 <= k < |lines| ==> all[k] == lines[k];
    forall j | 0 <= j < i ensures SameSection(all, j, i) <==> SameSection(lines, j, i) {
    }
    if HeaderAbove(lines, i) { var h :| 0 <= h < i && lines[h].Header?; assert all[h].Header?; }
    if ScalarAbove(lines, i) {
      var j :| 0 <= j < i && lines[j].ScalarLine? && SameSection(lines, j, i);
      assert all[j].ScalarLine? && SameSection(all, j, i);
    }
    if VectorAbove(lines, i) {
      var j :| 0 <= j < i && lines[j].VectorLine? && SameSection(lines, j, i);
      assert all[j].VectorLine? && SameSection(all, j, i);
    }
  }

  lemma ObeysStep(front: seq<Line>, l: Line)
    ensures Obeys(front + [l]) <==> Obeys(front) && LineRule(front + [l], |front|)
  {
    hide LineRule;
    forall i | 0 <= i < |front| ensures LineRule(front + [l], i) <==> LineRule(front, i) {
      AboveOfPrefix(front, [l], i);
    }
  }

  lemma RuleStep(front: seq<Line>, l: Line)
    ensures LineRule(front + [l], |front|) <==>
              (LineOk(l) && (IsNote(l) || l.Header? || HeaderAbove(front, |front|))
               && (l.ScalarLine? ==> !VectorAbove(front, |front|)) && (l.VectorLine? ==> !ScalarAbove(front, |front|)))
  {
    hide HeaderAbove, ScalarAbove, VectorAbove;
    AboveOfPrefix(front, [l], |front|);
    assert (front + [l])[|front|] == l;
  }

  // ------------------------------------------------------------- the whole file

  // The flags of the reading loop say what is above the next line.
  lemma {:induction false} ReadableIff(lines: seq<Line>)
    ensures Readable(SplitOf(lines)) <==> Obeys(lines)
    ensures Readable(SplitOf(lines)) ==>
              FlagsFit(SplitOf(lines), HeaderAbove(lines, |lines|), ScalarAbove(lines, |lines|), VectorAbove(lines, |lines|))
  {
    hide Readable, SplitOf, FlagsFit, LineRule, HeaderAbove, ScalarAbove, VectorAbove, Obeys, LineOk, IsNote;
    if lines == [] {
      NothingAbove(lines);
    } else {
      var front, l := lines[..|lines| - 1], lines[|lines| - 1];
      var n := |front|;
      assert front + [l] == lines;
      ReadableIff(front);
      ObeysStep(front, l);
      if Readable(SplitOf(front)) {
        FlagsStep(front, l, HeaderAbove(front, n), ScalarAbove(front, n), VectorAbove(front, n));
        AboveStep(front, l);
        RuleStep(front, l);
        FlagsOnlyMatter(SplitOf(lines), HeaderAbove(front, n) || l.Header?,
                        if l.Header? then false else ScalarAbove(front, n) || l.ScalarLine?,
                        if l.Header? then false else VectorAbove(front, n) || l.VectorLine?,
                        HeaderAbove(lines, |lines|), ScalarAbove(lines, |lines|), VectorAbove(lines, |lines|));
      } else if Readable(SplitOf(lines)) {
        ReadableButLast(front, l);
      }
    }
  }

  lemma FlagsOnlyMatter(s: Split, a: bool, b: bool, c: bool, d: bool, e: bool, f: bool)
    requires FlagsFit(s, a, b, c) && a == d && b == e && c == f
    ensures FlagsFit(s, d, e, f)
  {
  }

  lemma NothingAbove(lines: seq<Line>)
    requires lines == []
    ensures Readable(SplitOf(lines)) && Obeys(lines)
    ensures FlagsFit(SplitOf(lines), HeaderAbove(lines, 0), ScalarAbove(lines, 0), VectorAbove(lines, 0))
  {
  }

  // The sections are the headers, in order.
  predicate RawNamed(raws: seq<Raw>, name: string) {
    exists i :: 0 <= i < |raws| && raws[i].name == name
  }

  lemma RawNamedStep(raws: seq<Raw>, r: Raw, name: string)
    ensures RawNamed(raws + [r], name) <==> RawNamed(raws, name) || r.name == name
  {
    var all := raws + [r];
    assert all[|raws|] == r && forall i :: 0 <= i < |raws| ==> all[i] == raws[i];
    if RawNamed(raws, name) { var i :| 0 <= i < |raws| && raws[i].name == name; assert all[i].name == name; }
  }

  lemma HeaderNamedStep(front: seq<Line>, l: Line, name: string)
    ensures HeaderNamed(front + [l], name) <==> HeaderNamed(front, name) || l == Header(name)
  {
    var all := front + [l];
    assert all[|front|] == l && forall i :: 0 <= i < |front| ==> all[i] == front[i];
    if HeaderNamed(front, name) { var i :| 0 <= i < |front| && front[i] == Header(name); assert all[i] == Header(name); }
  }

  lemma {:induction false} SectionsAreHeaders(lines: seq<Line>, name: string)
    ensures RawNamed(SplitOf(lines).raws, name) <==> HeaderNamed(lines, name)
  {
    hide SplitOf, RawNamed, HeaderNamed;
    if lines == [] {
      NoNames(name);
    } else {
      var front, l := lines[..|lines| - 1], lines[|lines| - 1];
      assert front + [l] == lines;
      SectionsAreHeaders(front, name);
      SplitStep(front, l);
      HeaderNamedStep(front, l, name);
      var raws := SplitOf(front).raws;
      if l.Header? {
        RawNamedStep(raws, Raw(l.name, []), name);
      } else if raws != [] {
        var n := |raws| - 1;
        assert raws == raws[..n] + [raws[n]];
        RawNamedStep(raws[..n], raws[n], name);
        RawNamedStep(raws[..n], Raw(raws[n].name, raws[n].body + [l]), name);
      }
    }
  }

  lemma NoNames(name: string)
    ensures !RawNamed(SplitOf([]).raws, name) && !HeaderNamed([], name)
  {
  }

  lemma DifferStep(raws: seq<Raw>, r: Raw)
    ensures NamesDiffer(raws + [r]) <==> NamesDiffer(raws) && !RawNamed(raws, r.name)
  {
    var all := raws + [r];
    assert all[|raws|] == r && forall i :: 0 <= i < |raws| ==> all[i] == raws[i];
  }

  lemma HeadersStep(front: seq<Line>, l: Line)
    ensures HeadersDiffer(front + [l]) <==> HeadersDiffer(front) && (l.Header? ==> !HeaderNamed(front, l.name))
  {
    var all := front + [l];
    assert all[|front|] == l && forall i :: 0 <= i < |front| ==> all[i] == front[i];
  }

  lemma {:induction false} DifferIff(lines: seq<Line>)
    ensures NamesDiffer(SplitOf(lines).raws) <==> HeadersDiffer(lines)
  {
    hide SplitOf, NamesDiffer, HeadersDiffer, RawNamed, HeaderNamed;
    if lines == [] {
      NothingDiffers();
    } else {
      var front, l := lines[..|lines| - 1], lines[|lines| - 1];
      assert front + [l] == lines;
      DifferIff(front);
      SplitStep(front, l);
      HeadersStep(front, l);
      var raws := SplitOf(front).raws;
      if l.Header? {
        DifferStep(raws, Raw(l.name, []));
        SectionsAreHeaders(front, l.name);
      } else if raws != [] {
        var n := |raws| - 1;
        assert raws == raws[..n] + [raws[n]];
        DifferStep(raws[..n], raws[n]);
        DifferStep(raws[..n], Raw(raws[n].name, raws[n].body + [l]));
      }
    }
  }

  lemma NothingDiffers()
    ensures NamesDiffer(SplitOf([]).raws) && HeadersDiffer([])
  {
  }

  // A file loads exactly when every line obeys its rule and no header repeats a name.
  lemma LoadsIff(lines: seq<Line>)
    ensures Loads(lines) <==>
              (forall i :: 0 <= i < |lines| ==> LineRule(lines, i))
              && (forall i, j :: 0 <= i < j < |lines| && lines[i].Header? && lines[j].Header? ==> lines[i].name != lines[j].name)
  {
    hide LineRule, SplitOf, Readable, NamesDiffer;
    ReadableIff(lines);
    DifferIff(lines);
  }
}
