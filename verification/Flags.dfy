/** What the flag lists of src/pack/gbhandler.cpp are made of: bits printed as decimal
    numbers between bars, and read back through strsplit (src/utils/str.cpp) and atoi.
    Splitting, numbers and bits each come with the law that the round trips of
    FlagLists need: a joined list splits into its pieces, a printed number reads back,
    setting one bit leaves the others. */
module Flags {
  import opened Bytes

  const BAR := '|'

  // ------------------------------------------------------------ decimal text

  function Digit(d: nat): char
    requires d < 10
  {
    '0' + d as char
  }

  predicate IsDigit(c: char) {
    '0' <= c <= '9'
  }

  function DigitValue(c: char): (d: nat)
    requires IsDigit(c)
    ensures d < 10
  {
    (c - '0') as int
  }

  // sprintf of "%u".
  function Decimal(n: nat): (s: string)
    ensures s != [] && forall i :: 0 <= i < |s| ==> IsDigit(s[i])
  {
    if n < 10 then [Digit(n)] else Decimal(n / 10) + [Digit(n % 10)]
  }

  // The digits from position `at` on, read behind the value so far.
  function Digits(s: string, at: nat, value: nat): nat
    requires at <= |s|
    decreases |s| - at
  {
    if at < |s| && IsDigit(s[at]) then Digits(s, at + 1, value * 10 + DigitValue(s[at])) else value
  }

  predicate IsSpace(c: char) {
    c == ' ' || '\t' <= c <= '\r'
  }

  function Spaces(s: string, at: nat): (r: nat)
    requires at <= |s|
    ensures at <= r <= |s|
    decreases |s| - at
  {
    if at < |s| && IsSpace(s[at]) then Spaces(s, at + 1) else at
  }

  function Atoi(s: string): int {
    var at := Spaces(s, 0);
    if at < |s| && s[at] == '-' then 0 - Digits(s, at + 1, 0)
    else if at < |s| && s[at] == '+' then Digits(s, at + 1, 0)
    else Digits(s, at, 0)
  }

  lemma {:induction false} DigitsConcat(a: string, b: string, at: nat, value: nat)
    requires at <= |a| && forall i :: 0 <= i < |a| ==> IsDigit(a[i])
    ensures Digits(a + b, at, value) == Digits(a + b, |a|, Digits(a, at, value))
    decreases |a| - at
  {
    if at < |a| {
      DigitsConcat(a, b, at + 1, value * 10 + DigitValue(a[at]));
    }
  }

  lemma {:induction false} DecimalBack(n: nat)
    ensures Digits(Decimal(n), 0, 0) == n
  {
    if n < 10 {
      assert Digits([Digit(n)], 1, n) == n;
    } else {
      DecimalBack(n / 10);
      var front := Decimal(n / 10);
      DigitsConcat(front, [Digit(n % 10)], 0, 0);
      assert Digits(Decimal(n), |front| + 1, n) == n;
    }
  }

  lemma AtoiDecimal(n: nat)
    ensures Atoi(Decimal(n)) == n
  {
    DecimalBack(n);
    assert IsDigit(Decimal(n)[0]);
  }

  // ---------------------------------------------------------------- strsplit

  function FindFirstOf(s: string, seps: string, at: nat): (r: nat)
    requires at <= |s|
    ensures at <= r <= |s|
    decreases |s| - at
  {
    if at < |s| && s[at] !in seps then FindFirstOf(s, seps, at + 1) else at
  }

  // strsplit without skipping, from `head` on.
  function Pieces(s: string, seps: string, head: nat): seq<string>
    requires head <= |s|
    decreases |s| - head
  {
    var tail := FindFirstOf(s, seps, head);
    if tail < |s| then [s[head..tail]] + Pieces(s, seps, tail + 1)
    else if head > 0 || head < |s| then [s[head..]]
    else []
  }

  function JoinedBy(ps: seq<string>): string {
    if ps == [] then []
    else if |ps| == 1 then ps[0]
    else ps[0] + [BAR] + JoinedBy(ps[1..])
  }

  lemma {:induction false} FindsEnd(s: string, seps: string, at: nat, end: nat)
    requires at <= end <= |s| && (end < |s| ==> s[end] in seps)
    requires forall i :: at <= i < end ==> s[i] !in seps
    ensures FindFirstOf(s, seps, at) == end
    decreases end - at
  {
    if at < end {
      FindsEnd(s, seps, at + 1, end);
    }
  }

  // Splitting takes a joined list apart again, when no piece holds the separator and
  // the list is not the single empty piece.
  lemma {:induction false} SplitJoined(front: string, ps: seq<string>)
    requires ps != [] && (front == [] ==> ps != [[]])
    requires forall k :: 0 <= k < |ps| ==> BAR !in ps[k]
    ensures Pieces(front + JoinedBy(ps), [BAR], |front|) == ps
    decreases |ps|
  {
    hide Pieces, FindFirstOf, JoinedBy;
    var s := front + JoinedBy(ps);
    JoinedFirst(ps);
    if |ps| == 1 {
      LastPiece(front, ps[0]);
    } else {
      var behind := JoinedBy(ps[1..]);
      FirstPiece(front, ps[0], behind);
      assert front + (ps[0] + [BAR] + behind) == front + ps[0] + [BAR] + behind;
      SplitJoined(front + ps[0] + [BAR], ps[1..]);
      assert [ps[0]] + ps[1..] == ps;
    }
  }

  lemma JoinedFirst(ps: seq<string>)
    requires ps != []
    ensures JoinedBy(ps) == if |ps| == 1 then ps[0] else ps[0] + [BAR] + JoinedBy(ps[1..])
    ensures |ps| == 1 ==> ps == [ps[0]]
  {
  }

  lemma FirstPiece(front: string, p: string, behind: string)
    requires BAR !in p
    ensures var s := front + p + [BAR] + behind;
            Pieces(s, [BAR], |front|) == [p] + Pieces(s, [BAR], |front + p + [BAR]|)
  {
    hide FindFirstOf;
    var s := front + p + [BAR] + behind;
    var end := |front| + |p|;
    assert s[|front|..end] == p;
    assert forall i :: |front| <= i < end ==> s[i] == p[i - |front|];
    FindsEnd(s, [BAR], |front|, end);
  }

  lemma LastPiece(front: string, p: string)
    requires BAR !in p && (front == [] ==> p != [])
    ensures Pieces(front + p, [BAR], |front|) == [p]
  {
    hide FindFirstOf;
    var s := front + p;
    assert forall i :: |front| <= i < |s| ==> s[i] == p[i - |front|];
    FindsEnd(s, [BAR], |front|, |s|);
    assert s[|front|..] == p;
  }

  // Whatever the text, joining what it splits into gives it back, and no piece holds the
  // separator.
  lemma {:induction false} JoinedSplit(s: string, head: nat)
    requires head <= |s| && (head > 0 || head < |s|)
    ensures Pieces(s, [BAR], head) != [] && JoinedBy(Pieces(s, [BAR], head)) == s[head..]
    ensures forall k :: 0 <= k < |Pieces(s, [BAR], head)| ==> BAR !in Pieces(s, [BAR], head)[k]
    decreases |s| - head
  {
    hide FindFirstOf, JoinedBy, Pieces;
    PiecesUnfold(s, head);
    var tail := FindFirstOf(s, [BAR], head);
    FindsFirst(s, head);
    if tail < |s| {
      JoinedSplit(s, tail + 1);
      OneMore(s[head..tail], Pieces(s, [BAR], tail + 1));
      CutAround(s, head, tail);
    } else {
      JoinedFirst([s[head..]]);
      assert s[head..tail] == s[head..];
    }
  }

  lemma OneMore(p: string, ps: seq<string>)
    requires ps != [] && BAR !in p && forall k :: 0 <= k < |ps| ==> BAR !in ps[k]
    ensures JoinedBy([p] + ps) == p + [BAR] + JoinedBy(ps)
    ensures forall k :: 0 <= k < |[p] + ps| ==> BAR !in ([p] + ps)[k]
  {
    hide JoinedBy;
    JoinedFirst([p] + ps);
    assert ([p] + ps)[1..] == ps;
  }

  lemma CutAround(s: string, head: nat, tail: nat)
    requires head <= tail < |s|
    ensures s[head..] == s[head..tail] + [s[tail]] + s[tail + 1..]
  {
  }

  lemma PiecesUnfold(s: string, head: nat)
    requires head <= |s| && (head > 0 || head < |s|)
    ensures var tail := FindFirstOf(s, [BAR], head);
            Pieces(s, [BAR], head) == if tail < |s| then [s[head..tail]] + Pieces(s, [BAR], tail + 1) else [s[head..]]
  {
  }

  lemma {:induction false} FindsFirst(s: string, at: nat)
    requires at <= |s|
    ensures var end := FindFirstOf(s, [BAR], at);
            at <= end <= |s| && (end < |s| ==> s[end] == BAR) && BAR !in s[at..end]
    decreases |s| - at
  {
    if at < |s| && s[at] != BAR {
      FindsFirst(s, at + 1);
      var end := FindFirstOf(s, [BAR], at);
      assert s[at..end] == [s[at]] + s[at + 1..end];
    }
  }

  method StrSplit(s: string, seps: string) returns (list: seq<string>)
    ensures list == Pieces(s, seps, 0)
  {
    list := [];
    var head := 0;
    var tail := FindFirstOf(s, seps, head);
    while tail != |s|
      invariant head <= tail <= |s| && tail == FindFirstOf(s, seps, head)
      invariant list + Pieces(s, seps, head) == Pieces(s, seps, 0)
      decreases |s| - head
    {
      assert list + ([s[head..tail]] + Pieces(s, seps, tail + 1)) == list + [s[head..tail]] + Pieces(s, seps, tail + 1);
      list := list + [s[head..tail]];
      head := tail + 1;
      tail := FindFirstOf(s, seps, head);
    }
    if head > 0 || |s[head..]| > 0 {
      list := list + [s[head..]];
    }
  }

  // -------------------------------------------------------------------- bits

  predicate Bit(x: nat, k: nat) {
    x / Pow2(k) % 2 == 1
  }

  function SetBit(x: nat, k: nat): nat {
    if Bit(x, k) then x else x + Pow2(k)
  }

  function ClearBit(x: nat, k: nat): nat {
    if Bit(x, k) then x - Pow2(k) else x
  }

  lemma BelowHasNoBit(x: nat, k: nat)
    requires x < Pow2(k)
    ensures !Bit(x, k)
  {
    hide Pow2;
    QuotientIs(x, Pow2(k), 0, x);
  }

  lemma NextRemainder(n: nat, k: nat)
    ensures n % Pow2(k + 1) == n % Pow2(k) + if Bit(n, k) then Pow2(k) else 0
  {
    NextRemainderOf(n, Pow2(k));
  }

  lemma NextRemainderOf(n: nat, m: nat)
    requires m > 0
    ensures n % (2 * m) == n % m + if n / m % 2 == 1 then m else 0
  {
    var q := n / m;
    assert n == q * m + n % m;
    Rearranged(n, m, q);
    RemainderUnique(n, 2 * m, q / 2, n % m + q % 2 * m);
  }

  lemma Rearranged(n: nat, m: nat, q: nat)
    requires m > 0 && n == q * m + n % m
    ensures n == q / 2 * (2 * m) + (n % m + q % 2 * m)
    ensures n % m + q % 2 * m < 2 * m
    ensures q % 2 == 1 ==> q % 2 * m == m
    ensures q % 2 == 0 ==> q % 2 * m == 0
  {
    assert q * m == (q / 2 * 2 + q % 2) * m == q / 2 * 2 * m + q % 2 * m;
  }

  // Setting one bit leaves every other as it is.
  lemma {:induction false} SetBitBits(x: nat, k: nat, j: nat)
    ensures Bit(SetBit(x, k), j) == (Bit(x, j) || j == k)
    decreases k + j
  {
    hide Bit, SetBit, Pow2;
    if k == 0 {
      SetLow(x);
      if j > 0 {
        HalfBit(x, j);
        HalfBit(SetBit(x, 0), j);
      }
    } else {
      HalfSet(x, k);
      if j > 0 {
        SetBitBits(x / 2, k - 1, j - 1);
        HalfBit(x, j);
        HalfBit(SetBit(x, k), j);
      } else {
        BitLow(x);
        BitLow(SetBit(x, k));
      }
    }
  }

  lemma BitLow(x: nat)
    ensures Bit(x, 0) == (x % 2 == 1)
  {
    assert x / 1 == x;
  }

  lemma SetLow(x: nat)
    ensures Bit(SetBit(x, 0), 0) && SetBit(x, 0) / 2 == x / 2
  {
    BitLow(x);
    BitLow(SetBit(x, 0));
    assert Pow2(0) == 1;
  }

  lemma HalfBit(x: nat, j: nat)
    requires j > 0
    ensures Bit(x, j) == Bit(x / 2, j - 1)
  {
    var m := Pow2(j - 1);
    DivTwice(x, m);
  }

  lemma DivTwice(x: nat, m: nat)
    requires m > 0
    ensures x / (2 * m) == x / 2 / m
  {
    var q, r := x / 2 / m, x / 2 % m;
    assert x / 2 == q * m + r;
    assert x == 2 * (q * m + r) + x % 2 == q * (2 * m) + (2 * r + x % 2);
    QuotientIs(x, 2 * m, q, 2 * r + x % 2);
  }

  lemma HalfSet(x: nat, k: nat)
    requires k > 0
    ensures SetBit(x, k) / 2 == SetBit(x / 2, k - 1) && SetBit(x, k) % 2 == x % 2
  {
    HalfBit(x, k);
  }

  // Setting a bit below the width keeps the number below it too.
  lemma {:induction false} SetBitFits(x: nat, k: nat, width: nat)
    requires x < Pow2(width) && k < width
    ensures SetBit(x, k) < Pow2(width)
    decreases k
  {
    hide Bit, SetBit, Pow2;
    DoubledPower(width);
    if k > 0 {
      SetBitFits(x / 2, k - 1, width - 1);
      HalfSet(x, k);
    } else {
      SetLow(x);
    }
  }

  lemma DoubledPower(width: nat)
    requires width > 0
    ensures Pow2(width) == 2 * Pow2(width - 1)
  {
  }
}
