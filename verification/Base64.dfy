/** Base64 of src/utils/base64.cpp (section 4 of RFC 4648): the encoder writes into a
    block of its own, the decoder skips what is not in its alphabet. */
module Base64 {
  import opened Bytes

  const PAD: byte := 61
  const MAX_GROUPS := 0x4000_0000

  function Letter(v: nat): (c: byte)
    requires v < 64
    ensures c != PAD && c != 0
  {
    if v < 26 then 65 + v
    else if v < 52 then 97 + (v - 26)
    else if v < 62 then 48 + (v - 52)
    else if v == 62 then 43
    else 47
  }

  const CAPITALS := "ABCDEFGHIJKLMNOPQRSTUVWXYZ"
  const SMALL := "abcdefghijklmnopqrstuvwxyz"
  const DIGITS := "0123456789"
  // The alphabet in order.
  const ALPHABET := CAPITALS + SMALL + DIGITS + "+/"

  lemma LetterIs(v: nat)
    requires v < 64
    ensures |ALPHABET| == 64 && Letter(v) as char == ALPHABET[v]
  {
    CapitalIs(v);
    SmallIs(v - 26);
    DigitIs(v - 52);
    hide CAPITALS, SMALL, DIGITS;
    assert ALPHABET[v] == if v < 26 then CAPITALS[v] else if v < 52 then SMALL[v - 26]
                          else if v < 62 then DIGITS[v - 52] else "+/"[v - 62];
  }

  lemma CapitalIs(v: int)
    ensures |CAPITALS| == 26
    ensures 0 <= v < 26 ==> CAPITALS[v] as int == 65 + v
  {
  }

  lemma SmallIs(v: int)
    ensures |SMALL| == 26
    ensures 0 <= v < 26 ==> SMALL[v] as int == 97 + v
  {
  }

  lemma DigitIs(v: int)
    ensures |DIGITS| == 10
    ensures 0 <= v < 10 ==> DIGITS[v] as int == 48 + v
  {
  }

  // The reverse table; every entry that is no value is negative and gets skipped.
  function Reverse(c: byte): (v: int)
    ensures v < 64
  {
    if 65 <= c <= 90 then c - 65
    else if 97 <= c <= 122 then c - 97 + 26
    else if 48 <= c <= 57 then c - 48 + 52
    else if c == 43 then 62
    else if c == 47 then 63
    else if c == 9 || c == 10 || c == 13 || c == 32 then -1
    else -2
  }

  lemma ReverseLetter(v: nat)
    requires v < 64
    ensures Reverse(Letter(v)) == v
  {
  }

  // A character has a value exactly when it is the letter for it.
  lemma ReverseIff(c: byte, v: nat)
    requires v < 64
    ensures |ALPHABET| == 64 && (Reverse(c) == v <==> c as char == ALPHABET[v])
  {
    hide ALPHABET;
    LetterIs(v);
    LetterOnly(c, v);
  }

  lemma LetterOnly(c: byte, v: nat)
    requires v < 64
    ensures Reverse(c) == v <==> c == Letter(v)
  {
  }

  function Three(a: byte, b: byte, c: byte): (s: seq<byte>)
    ensures |s| == 4
  {
    [Letter(a / 4), Letter(a % 4 * 16 + b / 16), Letter(b % 16 * 4 + c / 64), Letter(c % 64)]
  }

  function Tail(s: seq<byte>): seq<byte>
    requires |s| < 3
  {
    if s == [] then []
    else if |s| == 1 then [Letter(s[0] / 4), Letter(s[0] % 4 * 16), PAD, PAD]
    else [Letter(s[0] / 4), Letter(s[0] % 4 * 16 + s[1] / 16), Letter(s[1] % 16 * 4), PAD]
  }

  function Encoded(s: seq<byte>): seq<byte> {
    if |s| < 3 then Tail(s) else Three(s[0], s[1], s[2]) + Encoded(s[3..])
  }

  lemma OneThird(n: nat)
    requires n >= 3
    ensures (n + 2) / 3 == (n - 3 + 2) / 3 + 1
  {
  }

  lemma {:induction false} EncodedLength(s: seq<byte>)
    ensures |Encoded(s)| == (|s| + 2) / 3 * 4
  {
    hide Three;
    if |s| >= 3 {
      EncodedLength(s[3..]);
      OneThird(|s|);
    }
  }

  // Bitwise or.
  function Or(x: nat, y: nat): (r: nat)
    decreases x + y
  {
    if x == 0 && y == 0 then 0
    else 2 * Or(x / 2, y / 2) + if x % 2 == 1 || y % 2 == 1 then 1 else 0
  }

  // Putting low bits under a number that has none there.
  lemma {:induction false} OrAdds(high: nat, low: nat, n: nat)
    requires low < Pow2(n)
    ensures Or(high * Pow2(n), low) == high * Pow2(n) + low
  {
    hide Or;
    if n == 0 {
      OrZero(high);
      assert high * Pow2(0) == high;
    } else {
      OrAdds(high, low / 2, n - 1);
      DoubleProduct(high, n);
      OrStep(high * Pow2(n - 1), low);
    }
  }

  lemma DoubleProduct(high: nat, n: nat)
    requires n > 0
    ensures high * Pow2(n) == 2 * (high * Pow2(n - 1))
  {
  }

  lemma OrStep(half: nat, low: nat)
    ensures Or(2 * half, low) == 2 * Or(half, low / 2) + low % 2
  {
  }

  lemma {:induction false} OrZero(x: nat)
    ensures Or(x, 0) == x
  {
    if x > 0 {
      OrZero(x / 2);
    }
  }

  // What the switch writes: two bits, four bits or six bits under the others.
  lemma OrBits(x: nat, y: nat)
    ensures y < 4 && x < 64 ==> Or(x * 4, y) == x * 4 + y
    ensures y < 16 && x < 16 ==> Or(x * 16, y) == x * 16 + y
    ensures y < 64 && x < 4 ==> Or(x * 64, y) == x * 64 + y
  {
    assert Pow2(2) == 4;
    assert Pow2(4) == 16;
    assert Pow2(6) == 4 * Pow2(4);
    if y < 4 { OrAdds(x, y, 2); }
    if y < 16 { OrAdds(x, y, 4); }
    if y < 64 { OrAdds(x, y, 6); }
  }

  // The decoder between two letters: which of four comes next, the finished bytes,
  // and the started one.
  datatype Progress = Progress(phase: nat, out: seq<byte>, part: byte)

  function Taken(p: Progress, v: nat): Progress
    requires v < 64
  {
    match p.phase
    case 0 => Progress(1, p.out, v * 4)
    case 1 => Progress(2, p.out + [Or(p.part, v / 16) % 256], v % 16 * 16)
    case 2 => Progress(3, p.out + [Or(p.part, v / 4) % 256], v % 4 * 64)
    case _ => Progress(0, p.out + [Or(p.part, v) % 256], 0)
  }

  // base64_decode from position `at`; the byte behind the text may be looked at.
  function Decoding(buf: seq<byte>, len: nat, at: nat, p: Progress): Option<seq<byte>>
    requires at <= len < |buf|
    decreases len - at
  {
    var ch := buf[at];
    if ch == 0 || at == len then
      if ch == PAD && p.phase == 1 then None else Some(p.out)
    else if ch == PAD then
      if buf[at + 1] != PAD && p.phase == 1 then None else Decoding(buf, len, at + 1, p)
    else if Reverse(ch) < 0 then Decoding(buf, len, at + 1, p)
    else Decoding(buf, len, at + 1, Taken(p, Reverse(ch)))
  }

  function Decoded(buf: seq<byte>, len: nat): Option<seq<byte>>
    requires len < |buf|
  {
    Decoding(buf, len, 0, Progress(0, [], 0))
  }

  lemma LetterTaken(buf: seq<byte>, len: nat, at: nat, p: Progress, v: nat)
    requires at < len < |buf| && v < 64 && buf[at] == Letter(v)
    ensures Decoding(buf, len, at, p) == Decoding(buf, len, at + 1, Taken(p, v))
  {
    ReverseLetter(v);
  }

  lemma PadSkipped(buf: seq<byte>, len: nat, at: nat, p: Progress)
    requires at < len < |buf| && buf[at] == PAD && p.phase != 1
    ensures Decoding(buf, len, at, p) == Decoding(buf, len, at + 1, p)
  {
  }

  lemma ThreeBack(buf: seq<byte>, len: nat, at: nat, out: seq<byte>, a: byte, b: byte, c: byte)
    requires at + 4 <= len < |buf| && buf[at..at + 4] == Three(a, b, c)
    ensures Decoding(buf, len, at, Progress(0, out, 0)) == Decoding(buf, len, at + 4, Progress(0, out + [a, b, c], 0))
  {
    hide Decoding, Letter, Or;
    var v0, v1, v2, v3 := a / 4, a % 4 * 16 + b / 16, b % 16 * 4 + c / 64, c % 64;
    var s := buf[at..at + 4];
    assert buf[at] == s[0] && buf[at + 1] == s[1] && buf[at + 2] == s[2] && buf[at + 3] == s[3];
    FirstByte(v0, v1, a, b);
    SecondByte(v1, v2, b, c);
    ThirdByte(v2, v3, c);
    FourTaken(buf, len, at, out, v0, v1, v2, v3, a, b, c);
  }

  lemma FourTaken(buf: seq<byte>, len: nat, at: nat, out: seq<byte>, v0: nat, v1: nat, v2: nat, v3: nat,
                  a: byte, b: byte, c: byte)
    requires at + 4 <= len < |buf| && v0 < 64 && v1 < 64 && v2 < 64 && v3 < 64
    requires buf[at] == Letter(v0) && buf[at + 1] == Letter(v1) && buf[at + 2] == Letter(v2) && buf[at + 3] == Letter(v3)
    requires Or(v0 * 4, v1 / 16) == a && Or(v1 % 16 * 16, v2 / 4) == b && Or(v2 % 4 * 64, v3) == c
    ensures Decoding(buf, len, at, Progress(0, out, 0)) == Decoding(buf, len, at + 4, Progress(0, out + [a, b, c], 0))
  {
    hide Decoding, Letter, Or, Taken;
    var p0, p1, p2, p3 := Progress(0, out, 0), AfterOne(out, v0), AfterTwo(out, a, v1), AfterThree(out, a, b, v2);
    TakenOne(out, v0);
    LetterTaken(buf, len, at, p0, v0);
    TakenTwo(out, v0, v1);
    LetterTaken(buf, len, at + 1, p1, v1);
    TakenThree(out, a, v1, v2);
    LetterTaken(buf, len, at + 2, p2, v2);
    TakenFour(out, a, b, v2, v3);
    LetterTaken(buf, len, at + 3, p3, v3);
    ThreeOut(out, a, b, c);
  }

  function AfterOne(out: seq<byte>, v: nat): Progress
    requires v < 64
  {
    Progress(1, out, v * 4)
  }

  function AfterTwo(out: seq<byte>, a: byte, v: nat): Progress {
    Progress(2, out + [a], v % 16 * 16)
  }

  function AfterThree(out: seq<byte>, a: byte, b: byte, v: nat): Progress {
    Progress(3, out + [a] + [b], v % 4 * 64)
  }

  lemma TakenOne(out: seq<byte>, v: nat)
    requires v < 64
    ensures Taken(Progress(0, out, 0), v) == AfterOne(out, v)
  {
  }

  lemma TakenTwo(out: seq<byte>, v0: nat, v1: nat)
    requires v0 < 64 && v1 < 64 && Or(v0 * 4, v1 / 16) < 256
    ensures Taken(AfterOne(out, v0), v1) == AfterTwo(out, Or(v0 * 4, v1 / 16), v1)
  {
    hide Or;
  }

  lemma TakenThree(out: seq<byte>, a: byte, v1: nat, v2: nat)
    requires v2 < 64 && Or(v1 % 16 * 16, v2 / 4) < 256
    ensures Taken(AfterTwo(out, a, v1), v2) == AfterThree(out, a, Or(v1 % 16 * 16, v2 / 4), v2)
  {
    hide Or;
  }

  lemma TakenFour(out: seq<byte>, a: byte, b: byte, v2: nat, v3: nat)
    requires v3 < 64 && Or(v2 % 4 * 64, v3) < 256
    ensures Taken(AfterThree(out, a, b, v2), v3) == Progress(0, out + [a] + [b] + [Or(v2 % 4 * 64, v3)], 0)
  {
    hide Or;
  }

  lemma ThreeOut(out: seq<byte>, a: byte, b: byte, c: byte)
    ensures out + [a] + [b] + [c] == out + [a, b, c]
  {
  }

  lemma FirstByte(v0: nat, v1: nat, a: byte, b: byte)
    requires v0 == a / 4 && v1 == a % 4 * 16 + b / 16
    ensures v0 < 64 && v1 < 64 && Or(v0 * 4, v1 / 16) == a && v1 % 16 == b / 16
  {
    hide Or;
    OrBits(v0, v1 / 16);
  }

  lemma SecondByte(v1: nat, v2: nat, b: byte, c: byte)
    requires v1 % 16 == b / 16 && v2 == b % 16 * 4 + c / 64
    ensures v2 < 64 && Or(v1 % 16 * 16, v2 / 4) == b && v2 % 4 == c / 64
  {
    hide Or;
    OrBits(v1 % 16, v2 / 4);
  }

  lemma ThirdByte(v2: nat, v3: nat, c: byte)
    requires v2 % 4 == c / 64 && v3 == c % 64
    ensures Or(v2 % 4 * 64, v3) == c
  {
    hide Or;
    OrBits(v2 % 4, v3);
  }

  lemma TailBack(buf: seq<byte>, len: nat, at: nat, out: seq<byte>, s: seq<byte>)
    requires |s| < 3 && at <= len < |buf| && buf[at..len] == Tail(s) && buf[len] == 0
    ensures Decoding(buf, len, at, Progress(0, out, 0)) == Some(out + s)
  {
    hide Letter, Or;
    var t := buf[at..len];
    if s == [] {
      assert at == len && out + s == out;
    } else {
      assert buf[at] == t[0] && buf[at + 1] == t[1] && buf[at + 2] == t[2] && buf[at + 3] == t[3];
      OneBack(buf, len, at, out, s);
    }
  }

  lemma OneBack(buf: seq<byte>, len: nat, at: nat, out: seq<byte>, s: seq<byte>)
    requires 1 <= |s| <= 2 && len == at + 4 < |buf| && buf[len] == 0
    requires [buf[at], buf[at + 1], buf[at + 2], buf[at + 3]] == Tail(s)
    ensures Decoding(buf, len, at, Progress(0, out, 0)) == Some(out + s)
  {
    hide Decoding, Letter, Or, Taken, AfterOne, AfterTwo, AfterThree;
    var a, b := s[0], if |s| == 2 then s[1] else 0;
    var v0, v1, v2 := a / 4, a % 4 * 16 + b / 16, b % 16 * 4;
    TailLetters(buf, at, s);
    FirstByte(v0, v1, a, b);
    TakenOne(out, v0);
    LetterTaken(buf, len, at, Progress(0, out, 0), v0);
    TakenTwo(out, v0, v1);
    LetterTaken(buf, len, at + 1, AfterOne(out, v0), v1);
    if |s| == 1 {
      Padded(buf, len, at + 2, out, a, v1);
      assert s == [a];
    } else {
      SecondByte(v1, v2, b, 0);
      TakenThree(out, a, v1, v2);
      LetterTaken(buf, len, at + 2, AfterTwo(out, a, v1), v2);
      PaddedOnce(buf, len, at + 3, out, a, b, v2);
      TwoOut(out, a, b);
      assert s == [a, b];
    }
  }

  lemma TailLetters(buf: seq<byte>, at: nat, s: seq<byte>)
    requires 1 <= |s| <= 2 && at + 4 <= |buf|
    requires [buf[at], buf[at + 1], buf[at + 2], buf[at + 3]] == Tail(s)
    ensures s[0] / 4 < 64 && buf[at] == Letter(s[0] / 4) && buf[at + 3] == PAD
    ensures |s| == 1 ==> s[0] % 4 * 16 < 64 && buf[at + 1] == Letter(s[0] % 4 * 16) && buf[at + 2] == PAD
    ensures |s| == 2 ==> s[0] % 4 * 16 + s[1] / 16 < 64 && s[1] % 16 * 4 < 64
                         && buf[at + 1] == Letter(s[0] % 4 * 16 + s[1] / 16) && buf[at + 2] == Letter(s[1] % 16 * 4)
  {
    hide Letter;
    var q, t := [buf[at], buf[at + 1], buf[at + 2], buf[at + 3]], Tail(s);
    assert q[0] == t[0] && q[1] == t[1] && q[2] == t[2] && q[3] == t[3];
  }

  lemma Padded(buf: seq<byte>, len: nat, at: nat, out: seq<byte>, a: byte, v: nat)
    requires len == at + 2 < |buf| && buf[at] == PAD && buf[at + 1] == PAD && buf[len] == 0
    ensures Decoding(buf, len, at, AfterTwo(out, a, v)) == Some(out + [a])
  {
    hide Decoding;
    var p := AfterTwo(out, a, v);
    PadSkipped(buf, len, at, p);
    PadSkipped(buf, len, at + 1, p);
    AtEnd(buf, len, p);
  }

  lemma PaddedOnce(buf: seq<byte>, len: nat, at: nat, out: seq<byte>, a: byte, b: byte, v: nat)
    requires len == at + 1 < |buf| && buf[at] == PAD && buf[len] == 0
    ensures Decoding(buf, len, at, AfterThree(out, a, b, v)) == Some(out + [a] + [b])
  {
    hide Decoding;
    var p := AfterThree(out, a, b, v);
    PadSkipped(buf, len, at, p);
    AtEnd(buf, len, p);
  }

  lemma TwoOut(out: seq<byte>, a: byte, b: byte)
    ensures out + [a] + [b] == out + [a, b]
  {
  }

  lemma AtEnd(buf: seq<byte>, len: nat, p: Progress)
    requires len < |buf| && buf[len] == 0
    ensures Decoding(buf, len, len, p) == Some(p.out)
  {
  }

  lemma {:induction false} GroupsBack(buf: seq<byte>, len: nat, at: nat, out: seq<byte>, s: seq<byte>)
    requires at <= len < |buf| && buf[at..len] == Encoded(s) && buf[len] == 0
    ensures Decoding(buf, len, at, Progress(0, out, 0)) == Some(out + s)
    decreases |s|
  {
    hide Decoding, Three, Tail;
    if |s| < 3 {
      TailBack(buf, len, at, out, s);
    } else {
      assert buf[at..at + 4] == buf[at..len][..4] && buf[at + 4..len] == buf[at..len][4..];
      ThreeBack(buf, len, at, out, s[0], s[1], s[2]);
      GroupsBack(buf, len, at + 4, out + [s[0], s[1], s[2]], s[3..]);
      assert out + [s[0], s[1], s[2]] + s[3..] == out + s;
    }
  }

  // ---------- against the alphabet ----------

  // Four letters hold the number three bytes make: the places of the letters in the
  // alphabet (ReverseIff) are its digits in base 64.
  lemma GroupMeans(s: seq<byte>, k: nat)
    requires 3 * k + 3 <= |s|
    ensures 4 * k + 4 <= |Encoded(s)|
    ensures forall i :: 4 * k <= i < 4 * k + 4 ==> Reverse(Encoded(s)[i]) >= 0
    ensures var e := Encoded(s);
            ((Reverse(e[4 * k]) * 64 + Reverse(e[4 * k + 1])) * 64 + Reverse(e[4 * k + 2])) * 64 + Reverse(e[4 * k + 3])
            == (s[3 * k] as int * 256 + s[3 * k + 1]) * 256 + s[3 * k + 2]
  {
    hide Letter, Encoded, Reverse;
    GroupAt(s, k);
    var a, b, c := s[3 * k], s[3 * k + 1], s[3 * k + 2];
    ReverseLetter(a / 4);
    ReverseLetter(a % 4 * 16 + b / 16);
    ReverseLetter(b % 16 * 4 + c / 64);
    ReverseLetter(c % 64);
    ThreeNumber(a, b, c);
  }

  lemma ThreeNumber(a: byte, b: byte, c: byte)
    ensures ((a / 4 * 64 + (a % 4 * 16 + b / 16)) * 64 + (b % 16 * 4 + c / 64)) * 64 + c % 64
         == (a as int * 256 + b) * 256 + c
  {
  }

  lemma {:induction false} GroupAt(s: seq<byte>, k: nat)
    requires 3 * k + 3 <= |s|
    ensures 4 * k + 4 <= |Encoded(s)|
    ensures Encoded(s)[4 * k..4 * k + 4] == Three(s[3 * k], s[3 * k + 1], s[3 * k + 2])
    ensures var e, a, b, c := Encoded(s), s[3 * k], s[3 * k + 1], s[3 * k + 2];
            e[4 * k] == Letter(a / 4) && e[4 * k + 1] == Letter(a % 4 * 16 + b / 16)
            && e[4 * k + 2] == Letter(b % 16 * 4 + c / 64) && e[4 * k + 3] == Letter(c % 64)
    decreases k
  {
    hide Letter, Encoded, Three;
    var e, first := Encoded(s), Three(s[0], s[1], s[2]);
    EncodedUnfolds(s);
    if k > 0 {
      GroupAt(s[3..], k - 1);
      FourLater(first, Encoded(s[3..]), 4 * (k - 1));
      ThreeLater(s, 3 * (k - 1));
    } else {
      assert e[0..4] == first;
    }
    SliceFour(e, 4 * k, Three(s[3 * k], s[3 * k + 1], s[3 * k + 2]));
    ThreeIs(s[3 * k], s[3 * k + 1], s[3 * k + 2]);
  }

  lemma ThreeIs(a: byte, b: byte, c: byte)
    ensures Three(a, b, c)[0] == Letter(a / 4) && Three(a, b, c)[1] == Letter(a % 4 * 16 + b / 16)
    ensures Three(a, b, c)[2] == Letter(b % 16 * 4 + c / 64) && Three(a, b, c)[3] == Letter(c % 64)
  {
    hide Letter;
  }

  lemma FourLater(a: seq<byte>, b: seq<byte>, at: nat)
    requires |a| == 4 && at + 4 <= |b|
    ensures (a + b)[at + 4..at + 8] == b[at..at + 4]
  {
  }

  lemma ThreeLater(s: seq<byte>, at: nat)
    requires at + 6 <= |s|
    ensures s[3..][at] == s[at + 3] && s[3..][at + 1] == s[at + 4] && s[3..][at + 2] == s[at + 5]
  {
  }

  lemma SliceFour(e: seq<byte>, at: nat, q: seq<byte>)
    requires at + 4 <= |e| && |q| == 4 && e[at..at + 4] == q
    ensures e[at] == q[0] && e[at + 1] == q[1] && e[at + 2] == q[2] && e[at + 3] == q[3]
  {
    assert e[at..at + 4][0] == e[at] && e[at..at + 4][1] == e[at + 1];
    assert e[at..at + 4][2] == e[at + 2] && e[at..at + 4][3] == e[at + 3];
  }

  // One or two bytes left over make two or three letters, the unused low bits zero, and
  // the group is filled up with '='.
  lemma TailMeans(s: seq<byte>)
    requires |s| % 3 != 0
    ensures |Encoded(s)| >= 4
    ensures var e, n := Encoded(s), |Encoded(s)| - 4;
            && Reverse(e[n]) >= 0 && Reverse(e[n + 1]) >= 0 && e[n + 3] as char == '='
            && (|s| % 3 == 1 ==> e[n + 2] as char == '='
                                 && Reverse(e[n]) * 64 + Reverse(e[n + 1]) == s[|s| - 1] as int * 16)
            && (|s| % 3 == 2 ==> Reverse(e[n + 2]) >= 0
                                 && (Reverse(e[n]) * 64 + Reverse(e[n + 1])) * 64 + Reverse(e[n + 2])
                                    == (s[|s| - 2] as int * 256 + s[|s| - 1]) * 4)
  {
    hide Letter, Encoded, Reverse;
    TailAt(s);
    var t := s[|s| - |s| % 3..];
    var a, b := t[0], if |t| == 2 then t[1] else 0;
    assert a == s[|s| - |s| % 3] && (|t| == 2 ==> b == s[|s| - 1]);
    ReverseLetter(a / 4);
    ReverseLetter(a % 4 * 16 + b / 16);
    ReverseLetter(b % 16 * 4);
    TailNumber(a, b);
  }

  lemma TailNumber(a: byte, b: byte)
    ensures a / 4 * 64 + a % 4 * 16 == a as int * 16
    ensures (a / 4 * 64 + (a % 4 * 16 + b / 16)) * 64 + b % 16 * 4 == (a as int * 256 + b) * 4
  {
  }

  lemma {:induction false} TailAt(s: seq<byte>)
    requires |s| % 3 != 0
    ensures var e, t := Encoded(s), s[|s| - |s| % 3..];
            |e| >= 4 && |t| == |s| % 3 && e[|e| - 4..] == Tail(t)
            && e[|e| - 4] == Tail(t)[0] && e[|e| - 3] == Tail(t)[1] && e[|e| - 2] == Tail(t)[2] && e[|e| - 1] == Tail(t)[3]
    decreases |s|
  {
    hide Letter, Encoded, Three, Tail;
    var e := Encoded(s);
    EncodedUnfolds(s);
    if |s| < 3 {
      assert s[0..] == s && e[0..] == e;
    } else {
      TailAt(s[3..]);
      LastOf(Three(s[0], s[1], s[2]), Encoded(s[3..]));
      TailOf(s);
    }
    TailLong(s[|s| - |s| % 3..]);
    SliceFour(e, |e| - 4, e[|e| - 4..]);
  }

  lemma EncodedUnfolds(s: seq<byte>)
    ensures Encoded(s) == if |s| < 3 then Tail(s) else Three(s[0], s[1], s[2]) + Encoded(s[3..])
  {
  }

  lemma LastOf(a: seq<byte>, b: seq<byte>)
    requires |b| >= 4
    ensures (a + b)[|a + b| - 4..] == b[|b| - 4..]
  {
  }

  lemma TailOf(s: seq<byte>)
    requires |s| >= 3
    ensures |s[3..]| % 3 == |s| % 3 && s[3..][|s[3..]| - |s| % 3..] == s[|s| - |s| % 3..]
  {
  }

  lemma TailLong(t: seq<byte>)
    requires 1 <= |t| <= 2
    ensures |Tail(t)| == 4
  {
  }

  // ---------- what the decoder passes over ----------

  // A character of no meaning: no letter, no '=', no end.
  predicate Idle(c: byte) {
    c as char != '=' && c != 0 && forall v :: 0 <= v < |ALPHABET| ==> c as char != ALPHABET[v]
  }

  lemma IdleSkips(c: byte)
    requires Idle(c)
    ensures c != PAD && c != 0 && Reverse(c) < 0
  {
    hide Reverse, ALPHABET;
    if Reverse(c) >= 0 { ReverseIff(c, Reverse(c)); }
  }

  lemma {:induction false} BehindIdle(a: seq<byte>, x: byte, b: seq<byte>, len: nat, j: nat, p: Progress)
    requires |a| + j <= len < |a + b|
    ensures Decoding(a + [x] + b, len + 1, |a| + 1 + j, p) == Decoding(a + b, len, |a| + j, p)
    decreases len - j
  {
    hide Reverse, Taken, Or;
    var s, t := a + [x] + b, a + b;
    assert s[|a| + 1 + j] == t[|a| + j];
    assert |a| + j < len ==> s[|a| + 2 + j] == t[|a| + j + 1];
    if |a| + j < len {
      var ch := t[|a| + j];
      BehindIdle(a, x, b, len, j + 1, p);
      if Reverse(ch) >= 0 { BehindIdle(a, x, b, len, j + 1, Taken(p, Reverse(ch))); }
    }
  }

  lemma {:induction false} BeforeIdle(a: seq<byte>, x: byte, b: seq<byte>, len: nat, at: nat, p: Progress)
    requires at <= |a| <= len < |a + b| && Idle(x) && (a == [] || a[|a| - 1] as char != '=')
    ensures Decoding(a + [x] + b, len + 1, at, p) == Decoding(a + b, len, at, p)
    decreases |a| - at
  {
    hide Reverse, Taken, Or, Idle;
    var s, t := a + [x] + b, a + b;
    IdleSkips(x);
    if at == |a| {
      assert s[|a|] == x && s[at] == x;
      BehindIdle(a, x, b, len, 0, p);
    } else {
      assert s[at] == t[at] == a[at];
      assert at + 1 < |a| ==> s[at + 1] == t[at + 1];
      var ch := t[at];
      BeforeIdle(a, x, b, len, at + 1, p);
      if Reverse(ch) >= 0 { BeforeIdle(a, x, b, len, at + 1, Taken(p, Reverse(ch))); }
    }
  }

  // Line breaks and everything else outside the alphabet may stand anywhere but behind
  // a '=': the text decodes as if they were not there.
  lemma IdleIgnored(a: seq<byte>, x: byte, b: seq<byte>, len: nat)
    requires |a| <= len < |a + b| && Idle(x) && (a == [] || a[|a| - 1] as char != '=')
    ensures Decoded(a + [x] + b, len + 1) == Decoded(a + b, len)
  {
    hide Idle;
    BeforeIdle(a, x, b, len, 0, Progress(0, [], 0));
  }

  lemma LineBreakIsIdle()
    ensures Idle(10) && Idle(13) && Idle(32)
  {
    NoLetter(10);
    NoLetter(13);
    NoLetter(32);
  }

  lemma NoLetter(c: byte)
    requires Reverse(c) < 0 && c != PAD && c != 0
    ensures Idle(c)
  {
    hide ALPHABET, Reverse;
    ReverseIff(c, 0);
    forall v | 0 <= v < |ALPHABET|
      ensures c as char != ALPHABET[v]
    {
      ReverseIff(c, v);
    }
  }

  // Decoding an encoding, with the terminating zero behind it, gives the bytes back.
  lemma RoundTrip(s: seq<byte>, behind: seq<byte>)
    ensures Decoded(Encoded(s) + [0] + behind, |Encoded(s)|) == Some(s)
  {
    hide Decoding;
    var buf := Encoded(s) + [0] + behind;
    assert buf[0..|Encoded(s)|] == Encoded(s);
    GroupsBack(buf, |Encoded(s)|, 0, [], s);
    assert [] + s == s;
  }

  lemma EncodedNext(s: seq<byte>, at: nat)
    requires at <= |s|
    ensures at + 3 <= |s| ==> Encoded(s[at..]) == Three(s[at], s[at + 1], s[at + 2]) + Encoded(s[at + 3..])
    ensures |s| - at < 3 ==> Encoded(s[at..]) == Tail(s[at..])
  {
    if at + 3 <= |s| {
      assert s[at..][3..] == s[at + 3..];
    }
  }

  // Four letters stored one by one.
  method Put(result: array<byte>, at: nat, q: seq<byte>)
    requires |q| == 4 && at + 4 <= result.Length
    modifies result
    ensures result[..at + 4] == old(result[..at]) + q
  {
    result[at] := q[0];
    result[at + 1] := q[1];
    result[at + 2] := q[2];
    result[at + 3] := q[3];
  }

  method Encode(s: seq<byte>) returns (result: array?<byte>, length: nat)
    ensures result == null <==> (|s| + 2) / 3 >= MAX_GROUPS
    ensures result == null ==> length == 0
    ensures result != null ==> fresh(result) && length < result.Length && result.Length == (|s| + 2) / 3 * 4 + 4
    ensures result != null ==> result[..length] == Encoded(s) && result[length] == 0
  {
    hide Encoded, Three, Tail;
    if (|s| + 2) / 3 >= MAX_GROUPS { return null, 0; }
    result := new byte[(|s| + 2) / 3 * 4 + 4];
    var current, p := 0, 0;
    EncodedLength(s);
    assert s[0..] == s;
    while |s| - current > 2
      invariant 0 <= current <= |s|
      invariant p + |Encoded(s[current..])| + 4 == result.Length
      invariant result[..p] + Encoded(s[current..]) == Encoded(s)
    {
      EncodedNext(s, current);
      var q := Three(s[current], s[current + 1], s[current + 2]);
      ghost var before := result[..p];
      Put(result, p, q);
      assert before + (q + Encoded(s[current + 3..])) == before + q + Encoded(s[current + 3..]);
      p := p + 4;
      current := current + 3;
    }
    EncodedNext(s, current);
    EncodedLength(s[current..]);
    if |s| - current != 0 {
      ghost var before := result[..p];
      Put(result, p, Tail(s[current..]));
      p := p + 4;
    }
    assert result[..p] == Encoded(s) by { EmptyTail(); }
    result[p] := 0;
    length := p;
  }

  lemma EmptyTail()
    ensures Tail([]) == []
  {
  }

  // `str` is readable one byte past its length, as a C string is. Writes stay inside
  // the length + 1 bytes allocated.
  method Decode(str: seq<byte>, length: nat) returns (result: array?<byte>, n: nat)
    requires length < |str|
    ensures match Decoded(str, length)
            case None => result == null && n == 0
            case Some(s) => result != null && fresh(result) && result.Length == length + 1
                            && n == |s| && n < result.Length && result[..n] == s && result[n] == 0
  {
    hide Or, Reverse;
    result := new byte[length + 1];
    var i, j, at := 0, 0, 0;
    ghost var p := Progress(0, [], 0);
    while str[at] != 0 && at < length
      invariant 0 <= at <= length && 0 <= i <= at
      invariant result.Length == length + 1 && fresh(result)
      invariant j == i / 4 * 3 + (if i % 4 == 0 then 0 else i % 4 - 1) && j < result.Length
      invariant p.phase == i % 4 && p.out == result[..j]
      invariant i % 4 != 0 ==> p.part == result[j]
      invariant Decoded(str, length) == Decoding(str, length, at, p)
      decreases length - at
    {
      var c := str[at];
      if c == PAD {
        if str[at + 1] != PAD && i % 4 == 1 { return null, 0; }
        at := at + 1;
        continue;
      }
      var ch := Reverse(c);
      if ch < 0 {
        at := at + 1;
        continue;
      }
      ghost var q := Taken(p, ch);
      j := Store(result, i % 4, j, ch, p);
      i := i + 1;
      at := at + 1;
      p := q;
    }
    if str[at] == PAD {
      match i % 4 {
        case 1 => return null, 0;
        case 2 => result[j + 1] := 0;
        case 3 => result[j] := 0;
        case _ =>
      }
    }
    result[j] := 0;
    n := j;
  }

  // The switch of the decoder.
  method Store(result: array<byte>, phase: nat, j: nat, ch: nat, ghost p: Progress) returns (k: nat)
    requires phase < 4 && ch < 64 && j < result.Length && (1 <= phase <= 2 ==> j + 1 < result.Length)
    requires p.phase == phase && p.out == result[..j] && (phase != 0 ==> p.part == result[j])
    modifies result
    ensures k == if phase == 0 then j else j + 1
    ensures Taken(p, ch).out == result[..k] && Taken(p, ch).phase == (phase + 1) % 4
    ensures phase < 3 ==> Taken(p, ch).part == result[k]
  {
    hide Or;
    k := j;
    match phase {
      case 0 =>
        result[k] := ch * 4;
      case 1 =>
        result[k] := Or(result[k], ch / 16) % 256;
        k := k + 1;
        result[k] := ch % 16 * 16;
      case 2 =>
        result[k] := Or(result[k], ch / 4) % 256;
        k := k + 1;
        result[k] := ch % 4 * 64;
      case _ =>
        result[k] := Or(result[k], ch) % 256;
        k := k + 1;
    }
  }
}
