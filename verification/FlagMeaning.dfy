/** What the flag lists say, apart from how they are printed and read: the number of a
    text, the bit a number sets or clears, the key a position stands for. */
module FlagMeaning {
  import opened Bytes
  import opened Flags
  import opened FlagLists
  import XmlRefs

  // ---------------------------------------------------------------- numbers

  predicate AllDigits(ds: string) {
    forall i :: 0 <= i < |ds| ==> '0' <= ds[i] <= '9'
  }

  predicate AllSpaces(ws: string) {
    forall i :: 0 <= i < |ws| ==> ws[i] == ' ' || 9 <= ws[i] as int <= 13
  }

  lemma {:induction false} DigitsUpTo(s: string, at: nat, ds: string, i: nat)
    requires at + |ds| <= |s| && s[at..at + |ds|] == ds && AllDigits(ds) && i <= |ds|
    ensures Digits(s, at, 0) == Digits(s, at + i, XmlRefs.Value(ds[..i], 10))
  {
    if i > 0 {
      DigitsUpTo(s, at, ds, i - 1);
      assert s[at + i - 1] == ds[i - 1];
      assert ds[..i][..i - 1] == ds[..i - 1];
      XmlRefs.NibbleIs(ds[i - 1], DigitValue(ds[i - 1]));
    }
  }

  lemma {:induction false} SpacesOver(ws: string, rest: string, at: nat)
    requires AllSpaces(ws) && at <= |ws| && (rest == "" || !IsSpace(rest[0]))
    ensures Spaces(ws + rest, at) == |ws|
    decreases |ws| - at
  {
    if at < |ws| {
      assert (ws + rest)[at] == ws[at];
      SpacesOver(ws, rest, at + 1);
    }
  }

  // atoi: blanks, at most one sign, digits most significant first, and whatever
  // comes behind them.
  lemma AtoiMeans(ws: string, sign: string, ds: string, tail: string)
    requires AllSpaces(ws) && (sign == "" || sign == "+" || sign == "-")
    requires ds != "" && AllDigits(ds) && (tail == "" || !('0' <= tail[0] <= '9'))
    ensures Atoi(ws + sign + ds + tail) == if sign == "-" then 0 - XmlRefs.Value(ds, 10) else XmlRefs.Value(ds, 10)
  {
    hide Atoi, Spaces, Digits, IsSpace;
    var s := ws + sign + ds + tail;
    var at := |ws| + |sign|;
    SignedAt(ws, sign, ds, tail);
    AtoiAt(s, |ws|);
    assert ds[..|ds|] == ds;
    DigitsUpTo(s, at, ds, |ds|);
    DigitsEnd(s, at + |ds|, XmlRefs.Value(ds, 10));
  }

  lemma SignedAt(ws: string, sign: string, ds: string, tail: string)
    requires AllSpaces(ws) && (sign == "" || sign == "+" || sign == "-") && ds != "" && AllDigits(ds)
    ensures var s, at := ws + sign + ds + tail, |ws| + |sign|;
            && Spaces(s, 0) == |ws| && s[at..at + |ds|] == ds && s[at + |ds|..] == tail
            && s[|ws|] == if sign == "" then ds[0] else sign[0]
  {
    hide Spaces;
    var s, rest := ws + sign + ds + tail, sign + ds + tail;
    assert s == ws + rest;
    assert rest[0] == if sign == "" then ds[0] else sign[0];
    SpacesOver(ws, rest, 0);
  }

  lemma AtoiAt(s: string, at: nat)
    requires at < |s| && Spaces(s, 0) == at
    ensures Atoi(s) == if s[at] == '-' then 0 - Digits(s, at + 1, 0)
                       else if s[at] == '+' then Digits(s, at + 1, 0) else Digits(s, at, 0)
  {
    hide Spaces, Digits;
  }

  lemma DigitsEnd(s: string, at: nat, value: nat)
    requires at <= |s| && (at < |s| ==> !IsDigit(s[at]))
    ensures Digits(s, at, value) == value
  {
  }

  // Without digits it is 0.
  lemma AtoiNothing(ws: string, tail: string)
    requires AllSpaces(ws) && (tail == "" || !(IsSpace(tail[0]) || '0' <= tail[0] <= '9' || tail[0] == '-' || tail[0] == '+'))
    ensures Atoi(ws + tail) == 0
  {
    SpacesOver(ws, tail, 0);
    assert tail != "" ==> (ws + tail)[|ws|] == tail[0];
  }

  // A printed number: the digits of n without leading zeros.
  lemma {:induction false} DecimalMeans(n: nat)
    ensures AllDigits(Decimal(n)) && XmlRefs.Value(Decimal(n), 10) == n
    ensures n > 0 ==> Decimal(n)[0] != '0'
    ensures n == 0 ==> Decimal(n) == "0"
  {
    if n < 10 {
      assert [Digit(n)][..0] == "";
      XmlRefs.NibbleIs(Digit(n), n);
    } else {
      DecimalMeans(n / 10);
      var front, c := Decimal(n / 10), Digit(n % 10);
      assert (front + [c])[..|front|] == front;
      XmlRefs.NibbleIs(c, n % 10);
    }
  }

  // ------------------------------------------------------------- flags of a word

  lemma ClearBitBits(x: nat, k: nat, j: nat)
    ensures Bit(ClearBit(x, k), j) == (Bit(x, j) && j != k)
  {
    hide Bit, Pow2, SetBit;
    if Bit(x, k) {
      ClearedThenSet(x, k);
      SetBitBits(x - Pow2(k), k, j);
    }
  }

  lemma ClearedThenSet(x: nat, k: nat)
    requires Bit(x, k)
    ensures x >= Pow2(k) && !Bit(x - Pow2(k), k) && SetBit(x - Pow2(k), k) == x
  {
    hide Pow2;
    var m := Pow2(k);
    OneLess(x, m);
    QuotientIs(x - m, m, x / m - 1, x % m);
  }

  lemma OneLess(x: nat, m: nat)
    requires m > 0 && x / m > 0
    ensures x >= m && x - m == (x / m - 1) * m + x % m
  {
    var q := x / m;
    assert x == q * m + x % m;
    assert (q - 1) * m == q * m - m;
    assert q * m >= m;
  }

  // The list of a word names every bit in order: 2, 4, 6, .. for a set one, 1, 3, 5, ..
  // for a clear one.
  lemma {:induction false} FlagPiecesMean(n: nat, size: nat, k: nat)
    requires k < size
    ensures FlagPieces(n, size)[k] == Decimal(if n / Pow2(k) % 2 == 1 then 2 * k + 2 else 2 * k + 1)
  {
    if k + 1 < size {
      FlagPiecesMean(n, size - 1, k);
    }
  }

  // 2k + 2 sets bit k, and 0 sets bit 0 too, since C rounds -1 / 2 to 0.
  predicate Sets(piece: string, k: nat) {
    piece != [] && (Atoi(piece) == 2 * k + 2 || (k == 0 && Atoi(piece) == 0))
  }

  predicate Clears(piece: string, k: nat) {
    Atoi(piece) == 2 * k + 1
  }

  // Some piece sets the bit and none behind it clears it.
  predicate LastSets(ps: seq<string>, k: nat) {
    exists i :: 0 <= i < |ps| && Sets(ps[i], k) && forall j :: i < j < |ps| ==> !Clears(ps[j], k)
  }

  lemma LastSetsStep(front: seq<string>, last: string, k: nat)
    ensures LastSets(front + [last], k) <==> Sets(last, k) || (LastSets(front, k) && !Clears(last, k))
  {
    hide Sets, Clears;
    var ps, n := front + [last], |front|;
    assert ps[n] == last && forall i :: 0 <= i < n ==> ps[i] == front[i];
    if Sets(last, k) {
      assert Sets(ps[n], k);
    } else if LastSets(front, k) && !Clears(last, k) {
      var i :| 0 <= i < n && Sets(front[i], k) && forall j :: i < j < n ==> !Clears(front[j], k);
      assert Sets(ps[i], k);
    }
  }

  lemma TakenMeans(dword: nat, piece: string, k: nat)
    requires FlagTaken(dword, piece).Some? && k < 32
    ensures Bit(FlagTaken(dword, piece).value, k) <==> Sets(piece, k) || (Bit(dword, k) && !Clears(piece, k))
  {
    hide Atoi, Bit, SetBit, ClearBit;
    EmptyIsZero();
    var npos := Half(Atoi(piece) - 1);
    if piece != [] && 0 <= npos < 32 {
      SetBitBits(dword, npos, k);
      ClearBitBits(dword, npos, k);
    }
  }

  lemma TakenFitsWord(dword: nat, piece: string)
    requires FlagTaken(dword, piece).Some? && dword < Pow2(32)
    ensures FlagTaken(dword, piece).value < Pow2(32)
  {
    hide Atoi, Bit, Pow2, SetBit;
    var npos := Half(Atoi(piece) - 1);
    if piece != [] && 0 <= npos < 32 {
      SetBitFits(dword, npos, 32);
    }
  }

  // What a list read as a word means: bit k is set exactly when the last piece about
  // it sets it, and no other bit is.
  lemma {:induction false} FlagsMean(ps: seq<string>)
    requires FlagsTaken(ps).Some?
    ensures FlagsTaken(ps).value < Pow2(32)
    ensures forall k: nat :: k < 32 ==> (Bit(FlagsTaken(ps).value, k) <==> LastSets(ps, k))
  {
    hide FlagTaken, Bit, LastSets, Pow2;
    if ps == [] {
      forall k: nat | k < 32 ensures !Bit(0, k) && !LastSets([], k) {
        BelowHasNoBit(0, k);
        NothingSets(k);
      }
    } else {
      var front, last := ps[..|ps| - 1], ps[|ps| - 1];
      FlagsMean(front);
      assert front + [last] == ps;
      TakenFitsWord(FlagsTaken(front).value, last);
      forall k: nat | k < 32 ensures Bit(FlagsTaken(ps).value, k) <==> LastSets(ps, k) {
        TakenMeans(FlagsTaken(front).value, last, k);
        LastSetsStep(front, last, k);
      }
    }
  }

  lemma NothingSets(k: nat)
    ensures !LastSets([], k)
  {
  }

  // The word 5 in three flags, as text and back.
  lemma FiveInThree()
    ensures JoinedBy(FlagPieces(5, 3)) == "2|3|6"
    ensures FlagsTaken(Pieces("2|3|6", [BAR], 0)) == Some(5)
  {
    hide FlagPieces, JoinedBy, FlagsTaken, Pieces;
    FiveListed();
    ThreeJoined();
    WordBack(5, 3);
    assert Pow2(3) == 8 by { assert Pow2(2) == 4; }
  }

  lemma FiveListed()
    ensures FlagPieces(5, 3) == ["2", "3", "6"]
  {
    hide FlagPieces, Decimal;
    FlagPiecesMean(5, 3, 0);
    FlagPiecesMean(5, 3, 1);
    FlagPiecesMean(5, 3, 2);
    assert Pow2(0) == 1 && Pow2(1) == 2 && Pow2(2) == 4;
    SmallDecimals();
  }

  lemma SmallDecimals()
    ensures Decimal(2) == "2" && Decimal(3) == "3" && Decimal(6) == "6"
  {
  }

  lemma ThreeJoined()
    ensures JoinedBy(["2", "3", "6"]) == "2|3|6"
  {
    assert ["2", "3", "6"][1..] == ["3", "6"] && ["3", "6"][1..] == ["6"];
  }

  // ------------------------------------------------------- position information

  // The keys in use, in order.
  lemma KeysMean(k: byte)
    ensures k in Keys() <==> 1 <= k <= 3 || 0x11 <= k <= 0x13 || 0x20 <= k <= 0x26 || 0x40 <= k <= 0x48
    ensures forall t, u :: 0 <= t < u < 22 ==> Keys()[t] < Keys()[u]
  {
    forall t, u | 0 <= t < u < 22 ensures Keys()[t] < Keys()[u] {
      KeysAscend(t, u);
    }
  }

  lemma {:induction false} KeysAscend(t: nat, u: nat)
    requires t < u < 22
    ensures Keys()[t] < Keys()[u]
  {
    NextKey(u - 1);
    hide Keys;
    if t < u - 1 { KeysAscend(t, u - 1); }
  }

  lemma NextKey(t: nat)
    requires t < 21
    ensures Keys()[t] < Keys()[t + 1]
  {
  }

  // The piece 2t + 1 asks for the bit of the t-th key, which is one less than the key.
  predicate Asks(piece: string, q: nat) {
    exists t: nat :: t < 22 && Keys()[t] == q + 1 && Atoi(piece) == 2 * t + 1
  }

  predicate AskedFor(ps: seq<string>, q: nat) {
    exists i :: 0 <= i < |ps| && Asks(ps[i], q)
  }

  lemma AskedForStep(front: seq<string>, last: string, q: nat)
    ensures AskedFor(front + [last], q) <==> AskedFor(front, q) || Asks(last, q)
  {
    hide Asks;
    var ps, n := front + [last], |front|;
    assert ps[n] == last && forall i :: 0 <= i < n ==> ps[i] == front[i];
    if AskedFor(front, q) {
      var i :| 0 <= i < n && Asks(front[i], q);
      assert Asks(ps[i], q);
    }
  }

  lemma PositionTakenMeans(b: seq<byte>, piece: string, q: nat)
    requires |b| == 32 && PositionTaken(b, piece).Some? && q < 256
    ensures BitAt(PositionTaken(b, piece).value, q) <==> BitAt(b, q) || Asks(piece, q)
  {
    hide Atoi, Bit, SetBit, Keys;
    EmptyIsZero();
    var nval := Atoi(piece);
    var npos := Half(nval - 1);
    if piece != [] && 0 <= npos < 22 && nval % 2 != 0 {
      assert nval == 2 * npos + 1;
      var k := Keys()[npos];
      SetBitBits(b[(k - 1) / 8], (k - 1) % 8, q % 8);
      assert q / 8 == (k - 1) / 8 ==> (q % 8 == (k - 1) % 8 <==> q == k - 1);
      SetBitFitsByte(b[(k - 1) / 8], (k - 1) % 8);
    }
  }

  // What a position list read means: just the bits of the keys asked for.
  lemma {:induction false} PositionsMean(ps: seq<string>)
    requires PositionsTaken(ps).Some?
    ensures forall q: nat :: q < 256 ==> (BitAt(PositionsTaken(ps).value, q) <==> AskedFor(ps, q))
  {
    hide PositionTaken, Bit, AskedFor;
    if ps == [] {
      NothingKept(NoPositions());
      forall q: nat | q < 256 ensures !BitAt(NoPositions(), q) && !AskedFor([], q) {
        BelowHasNoBit(0, q % 8);
        NothingAsked(q);
      }
    } else {
      var front, last := ps[..|ps| - 1], ps[|ps| - 1];
      PositionsMean(front);
      assert front + [last] == ps;
      forall q: nat | q < 256 ensures BitAt(PositionsTaken(ps).value, q) <==> AskedFor(ps, q) {
        PositionTakenMeans(PositionsTaken(front).value, last, q);
        AskedForStep(front, last, q);
      }
    }
  }

  lemma NothingAsked(q: nat)
    ensures !AskedFor([], q)
  {
  }

  // What the printed list says of the t-th key: 2t + 1 when its bit is set, else 2t + 2.
  function KeyNumber(b: seq<byte>, t: nat): nat
    requires |b| == 32 && t < 22
  {
    var q := Keys()[t] - 1;
    if b[q / 8] / Pow2(q % 8) % 2 == 1 then 2 * t + 1 else 2 * t + 2
  }

  lemma {:induction false} PiecesUpTo(b: seq<byte>, p: nat) returns (n: nat)
    requires |b| == 32 && p <= 256
    ensures n <= 22 && |PositionPieces(b, p)| == n
    ensures forall t :: 0 <= t < 22 ==> (Keys()[t] <= p <==> t < n)
    ensures forall t :: 0 <= t < n ==> PositionPieces(b, p)[t] == Decimal(KeyNumber(b, t))
  {
    hide Decimal, Keys, KeyNumber, PositionPieces, PositionPiece;
    KeysMean(0);
    NextPieces(b, 0);
    n := 0;
    if p > 0 {
      n := PiecesUpTo(b, p - 1);
      NextPieces(b, p - 1);
      if n < 22 && Keys()[n] == p {
        PieceOfKey(b, n);
        n := n + 1;
      } else {
        assert Keys()[21] < 256;
        NoPieceOf(b, p - 1);
      }
    }
  }

  lemma PieceOfKey(b: seq<byte>, t: nat)
    requires |b| == 32 && t < 22
    ensures PositionPiece(b, Keys()[t] - 1) == Some(Decimal(KeyNumber(b, t)))
  {
    hide Decimal, Pow2, Keys, PositionPiece, Tabled;
    KeyTabled(t);
    var i := PieceOf(b, Keys()[t] - 1);
    if i < t { KeysAscend(i, t); } else if t < i { KeysAscend(t, i); }
    KeyNumberIs(b, t);
  }

  lemma KeyTabled(t: nat)
    requires t < 22
    ensures 0 < Keys()[t] < 256 && Tabled(Keys()[t] - 1) && KeyOfBit(Keys()[t] - 1) == Keys()[t]
  {
  }

  lemma KeyNumberIs(b: seq<byte>, t: nat)
    requires |b| == 32 && t < 22
    ensures KeyNumber(b, t) == (t + 1) * 2 - if BitAt(b, Keys()[t] - 1) then 1 else 0
  {
    hide Keys, Pow2;
  }

  lemma NoPieceOf(b: seq<byte>, p: nat)
    requires |b| == 32 && p < 256 && p + 1 !in Keys()
    ensures PositionPiece(b, p) == None
  {
    hide Decimal;
    assert KeyOfBit(p) == 0 || KeyOfBit(p) == p + 1;
  }

  // The position list names every key once, in the order of the table.
  lemma PositionPiecesMean(b: seq<byte>)
    requires |b| == 32
    ensures PositionPieces(b, 256) == seq(22, t requires 0 <= t < 22 => Decimal(KeyNumber(b, t)))
  {
    hide Decimal, PositionPieces, KeyNumber;
    var n := PiecesUpTo(b, 256);
    assert Keys()[21] <= 256;
  }
}
