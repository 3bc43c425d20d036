/** What references mean (section 4.1 and 4.6 of XML 1.0): the value of a character
    reference read from left to right, and the five named ones. */
module XmlRefs {
  import opened Bytes
  import opened XmlText

  // The digit c stands for; 16 is none.
  function Nibble(c: char): (d: nat)
    ensures d <= 16
  {
    if '0' <= c <= '9' then c as nat - '0' as nat
    else if 'a' <= c <= 'f' then c as nat - 'a' as nat + 10
    else if 'A' <= c <= 'F' then c as nat - 'A' as nat + 10
    else 16
  }

  // In the usual order, in either case.
  lemma NibbleIs(c: char, d: nat)
    requires d < 16
    ensures Nibble(c) == d <==> c == "0123456789abcdef"[d] || c == "0123456789ABCDEF"[d]
  {
  }

  predicate Digits(ds: string, base: nat) {
    forall i :: 0 <= i < |ds| ==> Nibble(ds[i]) < base
  }

  // Left to right: every digit makes what is before it `base` times as much.
  function Value(ds: string, base: nat): nat {
    if ds == "" then 0 else Value(ds[..|ds| - 1], base) * base + Nibble(ds[|ds| - 1])
  }

  const SMALL := "abcdefghijklmnopqrstuvwxyz"
  const CAPITALS := "ABCDEFGHIJKLMNOPQRSTUVWXYZ"
  const DIGITS := "0123456789"

  // The characters that count as blank, that begin a name and that go on with one.
  lemma ClassesAre(c: char)
    ensures IsWhiteSpace(c) <==> c in " \t\n\r" || c as int == 11 || c as int == 12
    ensures IsNameStart(c) <==> c in SMALL || c in CAPITALS || c == '_' || c as int >= 127
    ensures IsNameChar(c) <==> IsNameStart(c) || c in DIGITS || c in "-.:"
  {
    SmallAre(c);
    CapitalsAre(c);
    DigitsAre(c);
    hide SMALL, CAPITALS, DIGITS;
  }

  lemma SmallAre(c: char)
    ensures c in SMALL <==> 'a' <= c <= 'z'
  {
    if 'a' <= c <= 'z' { assert SMALL[c as int - 'a' as int] == c; }
  }

  lemma CapitalsAre(c: char)
    ensures c in CAPITALS <==> 'A' <= c <= 'Z'
  {
    if 'A' <= c <= 'Z' { assert CAPITALS[c as int - 'A' as int] == c; }
  }

  lemma DigitsAre(c: char)
    ensures c in DIGITS <==> '0' <= c <= '9'
  {
    if '0' <= c <= '9' { assert DIGITS[c as int - '0' as int] == c; }
  }

  // What the printer puts in place of a character: the five named references, a
  // two-digit one for a control character, anything else as it is.
  lemma EncodesAs(c: char)
    ensures c == '&' ==> EncodeChar(c) == "&amp;"
    ensures c == '<' ==> EncodeChar(c) == "&lt;"
    ensures c == '>' ==> EncodeChar(c) == "&gt;"
    ensures c == '\"' ==> EncodeChar(c) == "&quot;"
    ensures c == '\'' ==> EncodeChar(c) == "&apos;"
    ensures c < ' ' ==> exists hi, lo :: EncodeChar(c) == ['&', '#', 'x', hi, lo, ';']
                                         && Nibble(hi) < 16 && Nibble(lo) < 16 && Nibble(hi) * 16 + Nibble(lo) == c as int
                                         && !('a' <= hi <= 'f') && !('a' <= lo <= 'f')
    ensures c >= ' ' && c !in "&<>\"'" ==> EncodeChar(c) == [c]
  {
    if c < ' ' {
      var hi, lo := HexUpper(c as int / 16), HexUpper(c as int % 16);
      assert EncodeChar(c) == ['&', '#', 'x', hi, lo, ';'];
    }
  }

  function Base(hex: bool): nat {
    if hex then 16 else 10
  }

  function ReadDigit(c: char, hex: bool): Option<nat> {
    if hex then HexDigit(c) else DecimalDigit(c)
  }

  lemma DigitIs(c: char, hex: bool)
    ensures ReadDigit(c, hex) == if Nibble(c) < Base(hex) then Some(Nibble(c)) else None
    ensures Nibble(c) < Base(hex) ==> c != 'x' && c != '#' && c != ';'
  {
  }

  // 32-bit weights and a 64-bit sum lose nothing of the low byte.
  lemma LowByte(sum: nat, weight: nat, base: nat, d: nat, v: nat)
    ensures ((sum + weight * d % MAX32) % MAX64 + weight * base % MAX32 * v) % 256
         == (sum + weight * (v * base + d)) % 256
  {
    var wb, wd := weight * base, weight * d;
    var k1, k2, low := wb / MAX32, wd / MAX32, wb % MAX32;
    var part := sum + wd % MAX32;
    var k3 := part / MAX64;
    assert wb == MAX32 * k1 + low;
    Spread(weight, base, d, v, k1, low);
    var k := 0x100_0000 * (k1 * v) + 0x100_0000 * k2 + 0x100_0000_0000_0000 * k3;
    assert part % MAX64 + low * v == sum + weight * (v * base + d) - 256 * k;
    LessMultiple(sum + weight * (v * base + d), k);
  }

  lemma Spread(weight: int, base: int, d: int, v: int, k1: int, low: int)
    requires weight * base == MAX32 * k1 + low
    ensures weight * (v * base + d) == MAX32 * (k1 * v) + low * v + weight * d
  {
    assert weight * (v * base) == weight * base * v;
    assert (MAX32 * k1 + low) * v == MAX32 * (k1 * v) + low * v;
  }

  lemma LessMultiple(b: int, k: int)
    ensures (b - 256 * k) % 256 == b % 256
  {
  }

  // The digits between the stop character and q, read backwards.
  lemma {:induction false} BackIsValue(s: string, start: nat, q: nat, hex: bool, weight: nat, sum: nat)
    requires start == (if hex then 3 else 2) && start - 1 <= q < |s| && s[1] == '#' && (hex ==> s[2] == 'x')
    requires Digits(s[start..q + 1], Base(hex))
    ensures DigitsBack(s, q, hex, weight, sum).Some?
    ensures DigitsBack(s, q, hex, weight, sum).value % 256 == (sum + weight * Value(s[start..q + 1], Base(hex))) % 256
    decreases q
  {
    hide HexDigit, DecimalDigit, DigitsBack, Value, Nibble;
    BackUnfolds(s, q, hex, weight, sum);
    var ds := s[start..q + 1];
    ValueUnfolds(ds, Base(hex));
    if q == start - 1 {
      assert ds == "";
    } else {
      var d := Nibble(s[q]);
      assert ds[|ds| - 1] == s[q];
      DigitIs(s[q], hex);
      assert ds[..|ds| - 1] == s[start..q];
      var weight', sum' := weight * Base(hex) % MAX32, (sum + weight * d % MAX32) % MAX64;
      BackIsValue(s, start, q - 1, hex, weight', sum');
      LowByte(sum, weight, Base(hex), d, Value(s[start..q], Base(hex)));
    }
  }

  lemma ValueUnfolds(ds: string, base: nat)
    ensures Value(ds, base) == if ds == "" then 0 else Value(ds[..|ds| - 1], base) * base + Nibble(ds[|ds| - 1])
    ensures ds != "" && Digits(ds, base) ==> Digits(ds[..|ds| - 1], base)
  {
  }

  lemma BackUnfolds(s: string, q: nat, hex: bool, weight: nat, sum: nat)
    requires 1 <= q < |s| && s[1] == '#' && (hex ==> 2 <= q && s[2] == 'x')
    ensures DigitsBack(s, q, hex, weight, sum)
         == if s[q] == (if hex then 'x' else '#') then Some(sum)
            else match ReadDigit(s[q], hex)
                 case None => None
                 case Some(d) =>
                   DigitsBack(s, q - 1, hex, weight * Base(hex) % MAX32, (sum + weight * d % MAX32) % MAX64)
  {
  }

  // A character reference stands for the low byte of its value, read from left to
  // right, whatever the number of digits and, in base 16, their case.
  lemma DecimalReference(ds: string, t: string)
    requires Digits(ds, 10)
    ensures GetChar("&#" + ds + ";" + t) == Some(([(Value(ds, 10) % 256) as char], t))
  {
    hide Value, DigitsBack, Digits, Nibble, GetChar;
    var s, k := "&#" + ds + ";" + t, 2 + |ds|;
    DigitsAreNoMarks(ds, 10);
    ReferenceText("&#", ds, t);
    BackIsValue(s, 2, k - 1, false, 1, 0);
    ReferenceParts(s, 2, k, false);
  }

  lemma HexReference(ds: string, t: string)
    requires Digits(ds, 16)
    ensures GetChar("&#x" + ds + ";" + t) == Some(([(Value(ds, 16) % 256) as char], t))
  {
    hide Value, DigitsBack, Digits, Nibble, GetChar;
    var s, k := "&#x" + ds + ";" + t, 3 + |ds|;
    DigitsAreNoMarks(ds, 16);
    ReferenceText("&#x", ds, t);
    BackIsValue(s, 3, k - 1, true, 1, 0);
    ReferenceParts(s, 3, k, true);
  }

  lemma ReferenceText(mark: string, ds: string, t: string)
    requires mark == "&#" || mark == "&#x"
    requires forall i :: 0 <= i < |ds| ==> ds[i] != ';' && ds[i] != 'x' && ds[i] != '#'
    ensures var s, at, k := mark + ds + ";" + t, |mark|, |mark| + |ds|;
            && s[0] == '&' && s[1] == '#' && s[at..k] == ds && s[k] == ';' && s[k + 1..] == t
            && (s[2] == 'x' <==> mark == "&#x") && forall i :: at <= i < k ==> s[i] != ';'
  {
    var s, at, k := mark + ds + ";" + t, |mark|, |mark| + |ds|;
    assert forall i :: 0 <= i < at ==> s[i] == mark[i];
    assert forall i :: at <= i < k ==> s[i] == ds[i - at];
    assert s[k] == ';' && s[k + 1..] == t && s[at..k] == ds;
  }

  lemma ReferenceParts(s: string, at: nat, k: nat, hex: bool)
    requires at == (if hex then 3 else 2) && at <= k < |s| && s[0] == '&' && s[1] == '#' && (s[2] == 'x' <==> hex)
    requires s[k] == ';' && forall i :: at <= i < k ==> s[i] != ';'
    requires DigitsBack(s, k - 1, hex, 1, 0).Some?
    ensures GetChar(s) == Some(([(DigitsBack(s, k - 1, hex, 1, 0).value % 256) as char], s[k + 1..]))
  {
    hide DigitsBack;
    IndexOfAt(s, ';', at, k);
  }

  lemma DigitsAreNoMarks(ds: string, base: nat)
    requires Digits(ds, base) && base <= 16
    ensures forall i :: 0 <= i < |ds| ==> ds[i] != ';' && ds[i] != 'x' && ds[i] != '#'
  {
  }

  // The five named references, and an ampersand that starts none.
  lemma NamedReferences(t: string)
    ensures GetChar("&amp;" + t) == Some(("&", t))
    ensures GetChar("&lt;" + t) == Some(("<", t))
    ensures GetChar("&gt;" + t) == Some((">", t))
    ensures GetChar("&quot;" + t) == Some(("\"", t))
    ensures GetChar("&apos;" + t) == Some(("'", t))
  {
    hide GetEntity;
    NamedEntityBack(0, t);
    NamedEntityBack(1, t);
    NamedEntityBack(2, t);
    NamedEntityBack(3, t);
    NamedEntityBack(4, t);
  }

  lemma LoneAmpersand(t: string)
    requires t == "" || t[0] != '#'
    requires !IsPrefix("amp;", t) && !IsPrefix("lt;", t) && !IsPrefix("gt;", t) && !IsPrefix("quot;", t) && !IsPrefix("apos;", t)
    ensures GetChar("&" + t) == Some(("", t))
  {
    hide IsPrefix;
    var s := "&" + t;
    assert s[0] == '&' && s[1..] == t && (t != "" ==> s[1] == t[0]);
    BehindAmpersand("amp;", t);
    BehindAmpersand("lt;", t);
    BehindAmpersand("gt;", t);
    BehindAmpersand("quot;", t);
    BehindAmpersand("apos;", t);
    assert "&" + "amp;" == ENTITIES[0].0 && "&" + "lt;" == ENTITIES[1].0 && "&" + "gt;" == ENTITIES[2].0;
    assert "&" + "quot;" == ENTITIES[3].0 && "&" + "apos;" == ENTITIES[4].0;
    NamedEntitySkips(s, 0, 4);
  }

  lemma BehindAmpersand(e: string, t: string)
    ensures IsPrefix("&" + e, "&" + t) <==> IsPrefix(e, t)
  {
    if IsPrefix("&" + e, "&" + t) { assert ("&" + e)[1..] == e && ("&" + t)[1..1 + |e|] == t[..|e|]; }
    if IsPrefix(e, t) { assert ("&" + t)[..1 + |e|] == "&" + t[..|e|]; }
  }

  // Zeros in front change nothing.
  lemma {:induction false} LeadingZero(ds: string, base: nat)
    requires base > 0
    ensures Value("0" + ds, base) == Value(ds, base)
    ensures Digits(ds, base) ==> Digits("0" + ds, base)
    decreases |ds|
  {
    hide Value, Nibble;
    var z := "0" + ds;
    assert Nibble('0') == 0 by { NibbleIs('0', 0); }
    assert forall i :: 1 <= i < |z| ==> z[i] == ds[i - 1];
    ValueUnfolds(z, base);
    ValueUnfolds(ds, base);
    if ds == "" {
      ValueUnfolds(z[..0], base);
    } else {
      LeadingZero(ds[..|ds| - 1], base);
      assert z[..|z| - 1] == "0" + ds[..|ds| - 1];
    }
  }

  lemma TwoDigitValue(a: char, b: char, base: nat)
    ensures Value([a, b], base) == Nibble(a) * base + Nibble(b)
  {
    hide Nibble;
    var ds := [a, b];
    assert ds[..1] == [a] && ds[..1][..0] == "";
    ValueUnfolds(ds, base);
    ValueUnfolds(ds[..1], base);
  }

  // Two digits in front of a semicolon, in either base.
  lemma TwoDigitReference(a: char, b: char, t: string)
    ensures Nibble(a) < 10 && Nibble(b) < 10 ==>
              GetChar(['&', '#', a, b, ';'] + t) == Some(([(Nibble(a) * 10 + Nibble(b)) as char], t))
    ensures Nibble(a) < 16 && Nibble(b) < 16 ==>
              GetChar(['&', '#', 'x', a, b, ';'] + t) == Some(([(Nibble(a) * 16 + Nibble(b)) as char], t))
  {
    hide GetChar, Value, Nibble;
    var ds := [a, b];
    assert "&#" + ds + ";" + t == ['&', '#', a, b, ';'] + t;
    assert "&#x" + ds + ";" + t == ['&', '#', 'x', a, b, ';'] + t;
    TwoDigitValue(a, b, 10);
    TwoDigitValue(a, b, 16);
    if Nibble(a) < 10 && Nibble(b) < 10 { DecimalReference(ds, t); }
    if Nibble(a) < 16 && Nibble(b) < 16 { HexReference(ds, t); }
  }

  // 65 is 'A', and so is 41 in base 16.
  lemma LetterA(t: string)
    ensures GetChar("&#65;" + t) == Some(("A", t))
    ensures GetChar("&#x41;" + t) == Some(("A", t))
  {
    hide GetChar;
    TwoDigitReference('6', '5', t);
    TwoDigitReference('4', '1', t);
    assert 65 as char == 'A';
  }

  // ------------------------------------------------------------ whole values

  // A value is printed character by character, except that "&#x" and what follows up to
  // the next semicolon, or up to the last character, is passed through.
  lemma EncodeMeans(c: char, rest: string)
    ensures Encode("") == ""
    ensures !(c == '&' && |rest| > 1 && rest[0] == '#' && rest[1] == 'x') ==>
              Encode([c] + rest) == EncodeChar(c) + Encode(rest)
  {
    var v := [c] + rest;
    assert v[1..] == rest;
  }

  lemma PassedThrough(a: string, b: string)
    requires ';' !in a
    ensures Encode("&#x" + a + ";" + b) == "&#x" + a + ";" + Encode(b)
  {
    var v, n := "&#x" + a + ";" + b, 3 + |a|;
    assert v[0] == '&' && v[1] == '#' && v[2] == 'x' && v[n] == ';';
    assert forall i :: 1 <= i < n ==> v[i] != ';';
    RunTo(v, n);
    assert v[..n] == "&#x" + a && v[n..] == [';'] + b;
    EncodeMeans(';', b);
    hide RawRun, EncodeChar;
    EncodeRun(v);
    Assoc("&#x" + a, ";", Encode(b));
    SemicolonIs();
  }

  lemma SemicolonIs()
    ensures EncodeChar(';') == ";"
  {
  }

  lemma EncodeRun(v: string)
    requires StartsHexRef(v)
    ensures Encode(v) == v[..RawRun(v)] + Encode(v[RawRun(v)..])
  {
  }

  lemma RunTo(v: string, n: nat)
    requires 1 <= n < |v| && v[n] == ';' && forall i :: 1 <= i < n ==> v[i] != ';'
    ensures RawRun(v) == n
  {
    var m := RawRun(v);
    assert ';' !in v[1..m];
    assert forall i :: 1 <= i < m ==> v[1..m][i - 1] == v[i];
  }

  // Reading goes on behind what it has read.
  lemma RestIsSuffix(s: string)
    requires s != "" && GetChar(s).Some?
    ensures var rest := GetChar(s).value.1; |rest| < |s| && rest == s[|s| - |rest|..]
  {
    if s[0] == '&' && !(|s| > 2 && s[1] == '#') { NamedSuffix(s, 0); }
  }

  lemma {:induction false} NamedSuffix(s: string, i: nat)
    requires s != "" && i <= |ENTITIES|
    ensures var rest := NamedEntity(s, i).value.1; |rest| < |s| && rest == s[|s| - |rest|..]
    decreases |ENTITIES| - i
  {
    if i < |ENTITIES| && !IsPrefix(ENTITIES[i].0, s) { NamedSuffix(s, i + 1); }
  }

  // A value whose quote is missing, or is the last character of all, is refused.
  lemma {:induction false} UnfinishedFails(s: string, q: char)
    requires forall i :: 0 <= i < |s| - 1 ==> s[i] != q
    ensures ReadText(s, q) == None
    decreases |s|
  {
    hide GetChar;
    if s != "" && s[0] != q && GetChar(s).Some? {
      RestIsSuffix(s);
      UnfinishedFails(GetChar(s).value.1, q);
    }
  }
}
