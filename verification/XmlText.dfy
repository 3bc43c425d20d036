/** Characters, names and attribute text of the XML reader and printer (src/tinyxml),
    byte by byte (no UTF-8 mode). */
module XmlText {
  import opened Bytes

  // A `string` is the remaining text from a `const char*` on, without the terminating
  // NUL: the empty string is `*p == 0`.

  const ENTITIES: seq<(string, char)> :=
    [("&amp;", '&'), ("&lt;", '<'), ("&gt;", '>'), ("&quot;", '\"'), ("&apos;", '\'')]

  predicate IsWhiteSpace(c: char) {
    c == ' ' || 9 <= c as int <= 13
  }

  // Everything from 127 on counts as a letter.
  predicate IsAlpha(c: char) {
    'a' <= c <= 'z' || 'A' <= c <= 'Z' || c as int >= 127
  }

  predicate IsNameStart(c: char) {
    IsAlpha(c) || c == '_'
  }

  predicate IsNameChar(c: char) {
    IsAlpha(c) || '0' <= c <= '9' || c == '_' || c == '-' || c == '.' || c == ':'
  }

  predicate IsSpace(w: string) {
    forall i :: 0 <= i < |w| ==> IsWhiteSpace(w[i])
  }

  predicate IsName(n: string) {
    && n != ""
    && IsNameStart(n[0])
    && forall i :: 0 <= i < |n| ==> IsNameChar(n[i])
  }

  // ---------- reading ----------

  function SkipSpace(s: string): (r: string)
    ensures |r| <= |s|
    ensures r != "" ==> !IsWhiteSpace(r[0])
  {
    if s == "" || !IsWhiteSpace(s[0]) then s else SkipSpace(s[1..])
  }

  function NameLength(s: string): (n: nat)
    ensures n <= |s|
  {
    if s == "" || !IsNameChar(s[0]) then 0 else 1 + NameLength(s[1..])
  }

  // The name and what follows it.
  function ReadName(s: string): (r: Option<(string, string)>)
    ensures r.Some? ==> r.value.0 != "" && s == r.value.0 + r.value.1
  {
    if s == "" || !IsNameStart(s[0]) then None
    else
      var n := NameLength(s);
      Some((s[..n], s[n..]))
  }

  // strchr
  function IndexOf(s: string, c: char, from: nat): (r: Option<nat>)
    ensures r.Some? ==> from <= r.value < |s| && s[r.value] == c && c !in s[from..r.value]
    ensures r.None? && from <= |s| ==> c !in s[from..]
    decreases |s| - from
  {
    if from >= |s| then None
    else if s[from] == c then Some(from)
    else IndexOf(s, c, from + 1)
  }

  function HexDigit(c: char): Option<nat> {
    if '0' <= c <= '9' then Some(c as nat - '0' as nat)
    else if 'a' <= c <= 'f' then Some(c as nat - 'a' as nat + 10)
    else if 'A' <= c <= 'F' then Some(c as nat - 'A' as nat + 10)
    else None
  }

  function DecimalDigit(c: char): Option<nat> {
    if '0' <= c <= '9' then Some(c as nat - '0' as nat) else None
  }

  // The digits of a character reference, from s[q] backwards to the stop
  // character: 32-bit weights, a 64-bit sum.
  function DigitsBack(s: string, q: nat, hex: bool, weight: nat, sum: nat): Option<nat>
    requires 1 <= q < |s| && s[1] == '#' && (hex ==> 2 <= q && s[2] == 'x')
    decreases q
  {
    if s[q] == (if hex then 'x' else '#') then Some(sum)
    else
      match if hex then HexDigit(s[q]) else DecimalDigit(s[q])
      case None => None
      case Some(d) =>
        DigitsBack(s, q - 1, hex, weight * (if hex then 16 else 10) % MAX32,
                   (sum + weight * d % MAX32) % MAX64)
  }

  predicate IsPrefix(t: string, s: string) {
    |t| <= |s| && s[..|t|] == t
  }

  // The characters one '&' stands for, and the text after it; None is a null
  // pointer. A '&' that starts no reference yields nothing.
  function GetEntity(s: string): (r: Option<(string, string)>)
    requires s != "" && s[0] == '&'
    ensures r.Some? ==> |r.value.1| < |s| && |r.value.0| <= 1
  {
    if |s| > 2 && s[1] == '#' then
      var hex := s[2] == 'x';
      if hex && |s| == 3 then None
      else
        match IndexOf(s, ';', if hex then 3 else 2)
        case None => None
        case Some(k) =>
          match DigitsBack(s, k - 1, hex, 1, 0)
          case None => None
          case Some(ucs) => Some(([(ucs % 256) as char], s[k + 1..]))
    else NamedEntity(s, 0)
  }

  function NamedEntity(s: string, i: nat): (r: Option<(string, string)>)
    requires s != "" && i <= |ENTITIES|
    ensures r.Some? && |r.value.1| < |s| && |r.value.0| <= 1
    decreases |ENTITIES| - i
  {
    if i == |ENTITIES| then Some(("", s[1..]))
    else if IsPrefix(ENTITIES[i].0, s) then Some(([ENTITIES[i].1], s[|ENTITIES[i].0|..]))
    else NamedEntity(s, i + 1)
  }

  function GetChar(s: string): (r: Option<(string, string)>)
    requires s != ""
    ensures r.Some? ==> |r.value.1| < |s| && |r.value.0| <= 1
  {
    if s[0] == '&' then GetEntity(s) else Some(([s[0]], s[1..]))
  }

  // Text up to the quote q. Nothing after the quote is an error as well.
  function ReadText(s: string, q: char): (r: Option<(string, string)>)
    ensures r.Some? ==> r.value.1 != "" && |r.value.1| < |s|
    decreases |s|
  {
    if s == "" then None
    else if s[0] == q then if |s| > 1 then Some(("", s[1..])) else None
    else
      match GetChar(s)
      case None => None
      case Some((c, rest)) =>
        match ReadText(rest, q)
        case None => None
        case Some((text, end)) => Some((c + text, end))
  }

  // An attribute value without quotes: up to white space, '/' or '>'; a quote
  // inside it is an error.
  function ReadBare(s: string): (r: Option<(string, string)>)
    ensures r.Some? ==> |r.value.1| <= |s|
  {
    if s == "" || IsWhiteSpace(s[0]) || s[0] == '/' || s[0] == '>' then Some(("", s))
    else if s[0] == '\'' || s[0] == '\"' then None
    else
      match ReadBare(s[1..])
      case None => None
      case Some((text, end)) => Some(([s[0]] + text, end))
  }

  // ---------- writing ----------

  // "&#x" is taken for a character reference and passed through.
  predicate StartsHexRef(v: string) {
    |v| > 2 && v[0] == '&' && v[1] == '#' && v[2] == 'x'
  }

  predicate HasHexRef(v: string) {
    exists i {:trigger v[i..]} :: 0 <= i <= |v| && StartsHexRef(v[i..])
  }

  // Every "&#x" has a ';' of its own behind it.
  predicate Closed(v: string) {
    forall i {:trigger v[i..]} :: 0 <= i <= |v| && StartsHexRef(v[i..]) ==> ';' in v[i..]
  }

  // How many characters the pass-through loop copies: up to the first ';' after
  // the first character, but never the last character.
  function RawRun(v: string): (n: nat)
    requires |v| >= 2
    ensures 1 <= n < |v|
    ensures v[n] == ';' || n == |v| - 1
    ensures ';' !in v[1..n]
  {
    if v[1] == ';' || |v| == 2 then 1 else 1 + RawRun(v[1..])
  }

  function HexUpper(d: nat): char
    requires d < 16
  {
    if d < 10 then ('0' as int + d) as char else ('A' as int + d - 10) as char
  }

  function EncodeChar(c: char): (r: string)
    ensures r != ""
  {
    if c == '&' then "&amp;"
    else if c == '<' then "&lt;"
    else if c == '>' then "&gt;"
    else if c == '\"' then "&quot;"
    else if c == '\'' then "&apos;"
    else if c as int < 32 then "&#x" + [HexUpper(c as int / 16), HexUpper(c as int % 16)] + ";"
    else [c]
  }

  function Encode(v: string): string
    decreases |v|
  {
    if v == "" then ""
    else if StartsHexRef(v) then v[..RawRun(v)] + Encode(v[RawRun(v)..])
    else EncodeChar(v[0]) + Encode(v[1..])
  }

  // ---------- one character there and back ----------

  lemma Reassociate(a: string, b: string, c: string, d: string)
    ensures a + b + c + d == a + (b + c + d)
  {
    Assoc(a, b, c);
    Assoc(a, b + c, d);
  }

  lemma {:induction false} SkipSpaceOver(w: string, s: string)
    requires IsSpace(w) && s != "" && !IsWhiteSpace(s[0])
    ensures SkipSpace(w + s) == s
  {
    if w == "" {
      assert w + s == s;
    } else {
      assert (w + s)[1..] == w[1..] + s;
      SkipSpaceOver(w[1..], s);
    }
  }

  lemma SkipOnlySpace(w: string)
    requires IsSpace(w)
    ensures SkipSpace(w) == ""
  {
  }

  lemma {:induction false} NameLengthOver(n: string, s: string)
    requires forall i :: 0 <= i < |n| ==> IsNameChar(n[i])
    requires s == "" || !IsNameChar(s[0])
    ensures NameLength(n + s) == |n|
  {
    if n == "" {
      assert n + s == s;
    } else {
      assert (n + s)[1..] == n[1..] + s;
      NameLengthOver(n[1..], s);
    }
  }

  lemma ReadNameBack(n: string, s: string)
    requires IsName(n) && (s == "" || !IsNameChar(s[0]))
    ensures ReadName(n + s) == Some((n, s))
  {
    NameLengthOver(n, s);
    assert (n + s)[..|n|] == n && (n + s)[|n|..] == s;
  }

  lemma {:induction false} EncodeNameIsName(n: string)
    requires forall i :: 0 <= i < |n| ==> IsNameChar(n[i])
    ensures Encode(n) == n
  {
    if n != "" {
      assert !StartsHexRef(n) && EncodeChar(n[0]) == [n[0]];
      EncodeNameIsName(n[1..]);
      assert n == [n[0]] + n[1..];
    }
  }

  lemma HexUpperReads(d: nat)
    requires d < 16
    ensures HexDigit(HexUpper(d)) == Some(d) && HexUpper(d) != 'x' && HexUpper(d) != ';'
  {
  }

  lemma ControlCharBack(c: char, t: string)
    requires c as int < 32
    ensures GetChar(EncodeChar(c) + t) == Some(([c], t))
  {
    hide GetEntity;
    var hi, lo := c as int / 16, c as int % 16;
    HexUpperReads(hi);
    HexUpperReads(lo);
    TwoDigits(EncodeChar(c) + t, hi, lo);
    assert (EncodeChar(c) + t)[6..] == t;
  }

  lemma TwoDigits(s: string, hi: nat, lo: nat)
    requires |s| >= 6 && s[0] == '&' && s[1] == '#' && s[2] == 'x' && s[5] == ';'
    requires s[3] != 'x' && s[4] != 'x' && s[3] != ';' && s[4] != ';'
    requires hi < 16 && lo < 16
    requires HexDigit(s[3]) == Some(hi) && HexDigit(s[4]) == Some(lo)
    ensures GetEntity(s) == Some(([((hi * 16 + lo) % 256) as char], s[6..]))
  {
    IndexOfAt(s, ';', 3, 5);
    HexLow(s, lo);
    HexHigh(s, hi, lo);
  }

  lemma HexLow(s: string, d: nat)
    requires |s| > 4 && s[1] == '#' && s[2] == 'x' && s[4] != 'x' && HexDigit(s[4]) == Some(d) && d < 16
    ensures DigitsBack(s, 4, true, 1, 0) == DigitsBack(s, 3, true, 16, d)
  {
    assert 1 * 16 % MAX32 == 16 && (0 + 1 * d % MAX32) % MAX64 == d;
  }

  lemma HexHigh(s: string, d: nat, sum: nat)
    requires |s| > 3 && s[1] == '#' && s[2] == 'x' && s[3] != 'x' && HexDigit(s[3]) == Some(d) && d < 16 && sum < 16
    ensures DigitsBack(s, 3, true, 16, sum) == Some(16 * d + sum)
  {
    assert DigitsBack(s, 2, true, 256, 16 * d + sum) == Some(16 * d + sum);
  }

  lemma NamedEntityBack(i: nat, t: string)
    requires i < |ENTITIES|
    ensures GetEntity(ENTITIES[i].0 + t) == Some(([ENTITIES[i].1], t))
  {
    var s := ENTITIES[i].0 + t;
    assert IsPrefix(ENTITIES[i].0, s) && s[|ENTITIES[i].0|..] == t;
    assert NamedEntity(s, i) == Some(([ENTITIES[i].1], t));
    assert s[1] == ENTITIES[i].0[1] && s[2] == ENTITIES[i].0[2];
    forall j | 0 <= j < i
      ensures !IsPrefix(ENTITIES[j].0, s)
    {
      if ENTITIES[j].0[1] != s[1] { NotPrefix(ENTITIES[j].0, s, 1); } else { NotPrefix(ENTITIES[j].0, s, 2); }
    }
    NamedEntitySkips(s, 0, i);
  }

  lemma NotPrefix(t: string, s: string, k: nat)
    requires k < |t| && k < |s| && t[k] != s[k]
    ensures !IsPrefix(t, s)
  {
  }

  lemma {:induction false} NamedEntitySkips(s: string, from: nat, i: nat)
    requires s != "" && from <= i < |ENTITIES|
    requires forall j :: from <= j < i ==> !IsPrefix(ENTITIES[j].0, s)
    ensures NamedEntity(s, from) == NamedEntity(s, i)
    decreases i - from
  {
    if from < i {
      NamedEntitySkips(s, from + 1, i);
    }
  }

  // Each encoded character is read back as itself, whatever follows.
  lemma CharBack(c: char, t: string)
    ensures GetChar(EncodeChar(c) + t) == Some(([c], t))
  {
    hide GetEntity;
    if c == '&' { NamedEntityBack(0, t); }
    else if c == '<' { NamedEntityBack(1, t); }
    else if c == '>' { NamedEntityBack(2, t); }
    else if c == '\"' { NamedEntityBack(3, t); }
    else if c == '\'' { NamedEntityBack(4, t); }
    else if c as int < 32 { ControlCharBack(c, t); }
    else { assert ([c] + t)[1..] == t; }
  }

  // ---------- a whole value there and back ----------

  lemma HexRefLater(v: string)
    requires v != "" && !HasHexRef(v)
    ensures !StartsHexRef(v) && !HasHexRef(v[1..])
  {
    assert v[0..] == v;
    forall i | 0 <= i <= |v[1..]|
      ensures !StartsHexRef(v[1..][i..])
    {
      assert v[1..][i..] == v[1 + i..];
    }
  }

  // A value without "&#x" survives between either kind of quote, in any context.
  lemma {:induction false} ValueBack(v: string, q: char, rest: string)
    requires !HasHexRef(v) && rest != "" && (q == '\"' || q == '\'')
    ensures ReadText(Encode(v) + [q] + rest, q) == Some((v, rest))
    decreases |v|
  {
    hide GetChar, ReadText, EncodeChar;
    if v == "" {
      NothingInFront(Encode(v), q, rest);
      ReadClosingQuote(q, rest);
    } else {
      HexRefLater(v);
      var t := Encode(v[1..]) + [q] + rest;
      CharRead(v, q, rest, t);
      ValueBack(v[1..], q, rest);
      ReadStep(EncodeChar(v[0]) + t, [v[0]], t, q, v[1..], rest);
      assert v == [v[0]] + v[1..];
    }
  }

  // ---------- what a passed-through "&#x" costs ----------

  lemma {:induction false} IndexOfAt(s: string, c: char, from: nat, k: nat)
    requires from <= k < |s| && s[k] == c
    requires forall i :: from <= i < k ==> s[i] != c
    ensures IndexOf(s, c, from) == Some(k)
    decreases k - from
  {
    if from < k { IndexOfAt(s, c, from + 1, k); }
  }

  lemma {:induction false} IndexOfNone(s: string, c: char, from: nat)
    requires forall i :: from <= i < |s| ==> s[i] != c
    ensures IndexOf(s, c, from) == None
    decreases |s| - from
  {
    if from < |s| { IndexOfNone(s, c, from + 1); }
  }

  // Reading "&#x..." yields one character for everything up to the next ';', or
  // fails: `pre` is the text up to there.
  lemma HexRefSwallows(pre: string, t: string)
    requires StartsHexRef(pre) && ';' !in pre[1..|pre| - 1] && pre[|pre| - 1] == ';'
    ensures var r := GetEntity(pre + t); r.None? || (|r.value.0| == 1 && r.value.1 == t)
  {
    var s, k := pre + t, |pre| - 1;
    assert forall i :: 1 <= i < k ==> s[i] == pre[1..k][i - 1];
    IndexOfAt(s, ';', 3, k);
    assert s[k + 1..] == t;
  }

  // Without a ';' in `pre` it takes one from behind it, if there is one.
  lemma HexRefSwallowsMore(pre: string, t: string)
    requires StartsHexRef(pre) && ';' !in pre
    ensures var r := GetEntity(pre + t); r.None? || (';' in t && |r.value.1| < |t|)
  {
    var s := pre + t;
    assert forall i :: 0 <= i < |pre| ==> s[i] == pre[i];
    assert forall i :: |pre| <= i < |s| ==> s[i] == t[i - |pre|];
    if ';' !in t { IndexOfNone(s, ';', 3); }
  }

  lemma EncodeCharSemicolon(c: char)
    ensures var e := EncodeChar(c); ';' !in e[..|e| - 1] && (e[|e| - 1] == ';' || e == [c])
  {
    if c as int < 32 {
      HexUpperReads(c as int / 16);
      HexUpperReads(c as int % 16);
    }
  }

  // The text a pass-through run and the character that ends it print as.
  function RunText(v: string): string
    requires StartsHexRef(v)
  {
    v[..RawRun(v)] + EncodeChar(v[RawRun(v)])
  }

  lemma EncodeUnfolds(v: string)
    requires v != ""
    ensures Encode(v) == if StartsHexRef(v) then v[..RawRun(v)] + Encode(v[RawRun(v)..]) else EncodeChar(v[0]) + Encode(v[1..])
  {
  }

  lemma EncodeRun(v: string)
    requires StartsHexRef(v)
    ensures Encode(v) == RunText(v) + Encode(v[RawRun(v) + 1..])
  {
    hide Encode, EncodeChar;
    var k := RawRun(v);
    var w := v[k..];
    assert !StartsHexRef(w) && w[0] == v[k];
    assert w[1..] == v[k + 1..];
    EncodeUnfolds(v);
    EncodeUnfolds(w);
    Assoc(v[..k], EncodeChar(v[k]), Encode(v[k + 1..]));
  }

  lemma RunTextShape(v: string)
    requires StartsHexRef(v)
    ensures StartsHexRef(RunText(v)) && ';' !in RunText(v)[1..|RunText(v)| - 1]
    ensures RunText(v)[|RunText(v)| - 1] == ';' || ';' !in RunText(v)
  {
    var k, pre := RawRun(v), RunText(v);
    var e := EncodeChar(v[k]);
    EncodeCharSemicolon(v[k]);
    forall i | 1 <= i < |pre| - 1
      ensures pre[i] != ';'
    {
      if i < k { assert pre[i] == v[1..k][i - 1]; } else { assert pre[i] == e[..|e| - 1][i - k]; }
    }
    assert k >= 2;
    if k == 2 { assert v[2] == 'x' && e == "x"; }
    assert pre == [pre[0]] + pre[1..|pre| - 1] + [pre[|pre| - 1]];
  }

  // The reader comes back from a text of n characters and `len` characters behind it
  // with less of the one or, if `open`, less of the other, or not at all.
  predicate Short(r: Option<(string, string)>, n: int, open: bool, len: nat) {
    r.None? || |r.value.0| <= n || (open && |r.value.1| < len)
  }

  lemma RunReads(v: string, t: string)
    requires StartsHexRef(v) && RunText(v)[|RunText(v)| - 1] == ';'
    ensures var r := GetChar(RunText(v) + t); r.None? || (|r.value.0| == 1 && r.value.1 == t)
  {
    hide GetEntity;
    RunTextShape(v);
    HexRefSwallows(RunText(v), t);
  }

  // One step of reading: at most one character, then the rest.
  lemma ReadStepShort(s: string, t: string, q: char, n: int, open: bool, len: nat)
    requires s != "" && s[0] != q
    requires GetChar(s).None? || GetChar(s).value.1 == t
    requires Short(ReadText(t, q), n, open, len)
    ensures Short(ReadText(s, q), n + 1, open, len)
  {
  }

  lemma ReadStep(s: string, x: string, t: string, q: char, text: string, end: string)
    requires s != "" && s[0] != q && GetChar(s) == Some((x, t))
    requires ReadText(t, q) == Some((text, end))
    ensures ReadText(s, q) == Some((x + text, end))
  {
  }

  lemma ReadClosingQuote(q: char, rest: string)
    requires rest != ""
    ensures ReadText([q] + rest, q) == Some(("", rest))
  {
    assert ([q] + rest)[1..] == rest;
  }

  lemma RunShrinks(v: string, q: char, rest: string, t: string, open: bool)
    requires StartsHexRef(v) && q != '&' && q != ';'
    requires t == Encode(v[RawRun(v) + 1..]) + [q] + rest
    requires Short(ReadText(t, q), |v| - RawRun(v) - 1, open, |rest|)
    requires v[RawRun(v)] == ';' || open || ';' !in rest
    ensures Short(ReadText(Encode(v) + [q] + rest, q), |v| - 1, open, |rest|)
  {
    hide ReadText;
    RunSplits(v, q, rest);
    if RunText(v)[|RunText(v)| - 1] == ';' {
      ClosedRunShrinks(v, q, t, |v| - RawRun(v) - 1, open, |rest|);
    } else {
      OpenRunShrinks(v, q, rest, t, |v| - 1, open);
    }
  }

  lemma RunSplits(v: string, q: char, rest: string)
    requires StartsHexRef(v)
    ensures Encode(v) + [q] + rest == RunText(v) + (Encode(v[RawRun(v) + 1..]) + [q] + rest)
  {
    hide Encode, RunText;
    EncodeRun(v);
    Reassociate(RunText(v), Encode(v[RawRun(v) + 1..]), [q], rest);
  }

  lemma ClosedRunShrinks(v: string, q: char, t: string, n: int, open: bool, len: nat)
    requires StartsHexRef(v) && q != '&' && RunText(v)[|RunText(v)| - 1] == ';'
    requires Short(ReadText(t, q), n, open, len)
    ensures Short(ReadText(RunText(v) + t, q), n + 1, open, len)
  {
    hide ReadText, GetChar;
    RunReads(v, t);
    ReadStepShort(RunText(v) + t, t, q, n, open, len);
  }

  lemma OpenRunShrinks(v: string, q: char, rest: string, t: string, n: int, open: bool)
    requires StartsHexRef(v) && q != '&' && q != ';' && RunText(v)[|RunText(v)| - 1] != ';'
    requires t == Encode(v[RawRun(v) + 1..]) + [q] + rest
    requires v[RawRun(v)] == ';' || open || ';' !in rest
    ensures Short(ReadText(RunText(v) + t, q), n, open, |rest|)
  {
    hide ReadText, Encode, RunText;
    LastRun(v);
    NothingInFront(Encode(v[RawRun(v) + 1..]), q, rest);
    RunTextShape(v);
    ReadOpenRun(RunText(v), q, rest, t, n, open);
  }

  // A run without a ';' is the end of the value.
  lemma LastRun(v: string)
    requires StartsHexRef(v) && RunText(v)[|RunText(v)| - 1] != ';'
    ensures v[RawRun(v)] != ';' && Encode(v[RawRun(v) + 1..]) == ""
  {
    assert EncodeChar(';') == [';'];
  }

  lemma ReadOpenRun(pre: string, q: char, rest: string, t: string, n: int, open: bool)
    requires StartsHexRef(pre) && ';' !in pre && q != '&' && q != ';' && (open || ';' !in rest)
    requires t == [q] + rest
    ensures Short(ReadText(pre + t, q), n, open, |rest|)
  {
    hide GetEntity;
    assert ';' in t ==> ';' in rest;
    HexRefSwallowsMore(pre, t);
  }

  lemma ClosedRun(v: string)
    requires StartsHexRef(v) && Closed(v)
    ensures v[RawRun(v)] == ';'
  {
    assert v[0..] == v && v == [v[0]] + v[1..];
    var n := RawRun(v);
    assert v[1..] == v[1..n] + [v[n]] + v[n + 1..];
    if n == |v| - 1 { assert v[n + 1..] == ""; }
  }

  lemma ClosedLater(v: string, k: nat)
    requires Closed(v) && k <= |v|
    ensures Closed(v[k..])
  {
    forall i | 0 <= i <= |v[k..]| && StartsHexRef(v[k..][i..])
      ensures ';' in v[k..][i..]
    {
      assert v[k..][i..] == v[k + i..];
    }
  }

  // No ';' behind the value completes a reference in it: each has its own, or none
  // follows.
  predicate Settled(v: string, rest: string) {
    Closed(v) || ';' !in rest
  }

  // Reading back never lengthens a value, and "&#x" always shortens it, or, when a ';'
  // behind the value completes the reference, what is left of the text behind it.
  lemma {:induction false} ValueShrinks(v: string, q: char, rest: string)
    requires rest != "" && (q == '\"' || q == '\'')
    ensures Short(ReadText(Encode(v) + [q] + rest, q), if HasHexRef(v) then |v| - 1 else |v|, !Settled(v, rest), |rest|)
    decreases |v|
  {
    hide ReadText, Encode, Settled, HasHexRef, RawRun;
    if v == "" {
      EmptyShrinks(v, q, rest);
    } else if StartsHexRef(v) {
      var w, open := v[RawRun(v) + 1..], !Settled(v, rest);
      var t := Encode(w) + [q] + rest;
      ValueShrinks(w, q, rest);
      SettledLater(v, RawRun(v) + 1, rest);
      StartHasHexRef(v);
      SettledRun(v, rest);
      RunShrinks(v, q, rest, t, open);
    } else {
      var w, open := v[1..], !Settled(v, rest);
      var t := Encode(w) + [q] + rest;
      var n := if HasHexRef(v) then |v| - 2 else |v| - 1;
      ValueShrinks(w, q, rest);
      SettledLater(v, 1, rest);
      if HasHexRef(v) { HexRefElsewhere(v); }
      CharShrinks(v, q, rest, t, n, open);
    }
  }

  lemma EmptyShrinks(v: string, q: char, rest: string)
    requires v == "" && rest != ""
    ensures Short(ReadText(Encode(v) + [q] + rest, q), if HasHexRef(v) then |v| - 1 else |v|, !Settled(v, rest), |rest|)
  {
    hide ReadText, Settled, HasHexRef;
    NothingInFront(Encode(v), q, rest);
    ReadClosingQuote(q, rest);
    NoHexRef(v);
  }

  lemma NoHexRef(v: string)
    requires v == ""
    ensures !HasHexRef(v)
  {
    hide StartsHexRef;
    forall i | 0 <= i <= |v|
      ensures !StartsHexRef(v[i..])
    {
      EmptyStartsNothing(v[i..]);
    }
  }

  lemma EmptyStartsNothing(v: string)
    requires |v| == 0
    ensures !StartsHexRef(v)
  {
  }

  lemma NothingInFront(e: string, q: char, rest: string)
    requires e == ""
    ensures e + [q] + rest == [q] + rest
  {
  }

  lemma SettledLater(v: string, k: nat, rest: string)
    requires k <= |v|
    ensures Settled(v, rest) ==> Settled(v[k..], rest)
  {
    if Closed(v) { ClosedLater(v, k); }
  }

  lemma SettledRun(v: string, rest: string)
    requires StartsHexRef(v)
    ensures v[RawRun(v)] == ';' || !Settled(v, rest) || ';' !in rest
  {
    if Closed(v) { ClosedRun(v); }
  }

  lemma StartHasHexRef(v: string)
    requires StartsHexRef(v)
    ensures HasHexRef(v)
  {
    assert v[0..] == v;
  }

  lemma CharShrinks(v: string, q: char, rest: string, t: string, n: int, open: bool)
    requires v != "" && !StartsHexRef(v) && (q == '\"' || q == '\'')
    requires t == Encode(v[1..]) + [q] + rest
    requires Short(ReadText(t, q), n, open, |rest|)
    ensures Short(ReadText(Encode(v) + [q] + rest, q), n + 1, open, |rest|)
  {
    hide GetChar, ReadText, Encode, EncodeChar;
    CharRead(v, q, rest, t);
    ReadStepShort(EncodeChar(v[0]) + t, t, q, n, open, |rest|);
  }

  // The first character of a value is read, and the rest is ahead.
  lemma CharRead(v: string, q: char, rest: string, t: string)
    requires v != "" && !StartsHexRef(v) && (q == '\"' || q == '\'')
    requires t == Encode(v[1..]) + [q] + rest
    ensures Encode(v) + [q] + rest == EncodeChar(v[0]) + t
    ensures var s := EncodeChar(v[0]) + t; s != "" && s[0] != q && GetChar(s) == Some(([v[0]], t))
  {
    hide GetChar, Encode;
    EncodeUnfolds(v);
    Reassociate(EncodeChar(v[0]), Encode(v[1..]), [q], rest);
    CharBack(v[0], t);
    assert (EncodeChar(v[0]) + t)[0] == EncodeChar(v[0])[0];
  }

  lemma HexRefElsewhere(v: string)
    requires v != "" && HasHexRef(v) && !StartsHexRef(v)
    ensures HasHexRef(v[1..])
  {
    var i :| 0 <= i <= |v| && StartsHexRef(v[i..]);
    assert i != 0 by { assert v[0..] == v; }
    assert v[1..][i - 1..] == v[i..];
  }

  // Printed and read back, a value is itself exactly when it does not contain "&#x",
  // whichever quote is around it and whatever follows.
  lemma ValueSurvivesIff(v: string, q: char, rest: string)
    requires rest != "" && (q == '\"' || q == '\'')
    ensures ReadText(Encode(v) + [q] + rest, q) == Some((v, rest)) <==> !HasHexRef(v)
  {
    if HasHexRef(v) {
      ValueShrinks(v, q, rest);
    } else {
      ValueBack(v, q, rest);
    }
  }
}
