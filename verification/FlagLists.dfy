/** The four converters of src/pack/gbhandler.cpp between bit sets and flag lists, and
    what survives the way out and back. A word's list names every bit with an even
    number when it is set and an odd one when it is clear; a position list names the
    tabled bits only, the other way round. Reading checks the range one too far: the
    numbers it lets through there have no defined meaning, and here none. */
module FlagLists {
  import opened Bytes
  import opened Flags

  // C's division by two.
  function Half(n: int): int {
    if n >= 0 then n / 2 else 0 - (0 - n) / 2
  }

  // A list being appended to: a bar goes in front of all but the first piece.
  function Appended(val: string, piece: string): string {
    if val == [] then piece else val + [BAR] + piece
  }

  lemma {:induction false} JoinAppends(ps: seq<string>, p: string)
    requires forall k :: 0 <= k < |ps| ==> ps[k] != []
    ensures JoinedBy(ps + [p]) == Appended(JoinedBy(ps), p)
    ensures JoinedBy(ps) == [] <==> ps == []
  {
    if ps == [] {
      assert ps + [p] == [p];
    } else {
      JoinAppends(ps[1..], p);
      assert (ps + [p])[1..] == ps[1..] + [p];
      if |ps| == 1 {
        assert ps[1..] == [];
      } else {
        assert ps[0] + [BAR] + (JoinedBy(ps[1..]) + [BAR] + p) == ps[0] + [BAR] + JoinedBy(ps[1..]) + [BAR] + p;
      }
    }
  }

  // ------------------------------------------------------------ flags of a word

  function FlagNumber(n: nat, i: nat): nat {
    (i + 1) * 2 - if Bit(n, i) then 0 else 1
  }

  function FlagPieces(n: nat, size: nat): (ps: seq<string>)
    ensures |ps| == size
    ensures forall k :: 0 <= k < size ==> ps[k] != [] && BAR !in ps[k]
  {
    if size == 0 then [] else FlagPieces(n, size - 1) + [Decimal(FlagNumber(n, size - 1))]
  }

  // One piece read into the word. None: the shift by 32 that the range check lets through.
  function FlagTaken(dword: nat, piece: string): Option<nat> {
    if piece == [] then Some(dword)
    else
      var nval := Atoi(piece);
      var npos := Half(nval - 1);
      if npos < 0 || npos > 32 then Some(dword)
      else if npos == 32 then None
      else if nval % 2 == 0 then Some(SetBit(dword, npos))
      else Some(ClearBit(dword, npos))
  }

  function FlagsTaken(ps: seq<string>): Option<nat> {
    if ps == [] then Some(0)
    else
      var front := FlagsTaken(ps[..|ps| - 1]);
      if front.None? then None else FlagTaken(front.value, ps[|ps| - 1])
  }

  // Some piece reads as m or as n.
  ghost predicate Mentions(ps: seq<string>, m: int, n: int) {
    exists k :: 0 <= k < |ps| && (Atoi(ps[k]) == m || Atoi(ps[k]) == n)
  }

  lemma MentionsSplits(ps: seq<string>, m: int, n: int)
    requires ps != []
    ensures var last := ps[|ps| - 1];
            Mentions(ps, m, n) <==> Mentions(ps[..|ps| - 1], m, n) || Atoi(last) == m || Atoi(last) == n
  {
    hide Atoi;
    var front := ps[..|ps| - 1];
    assert forall k :: 0 <= k < |front| ==> front[k] == ps[k];
  }

  // Reading has no defined result exactly when some piece is 65 or 66.
  lemma {:induction false} FlagsUndefinedIff(ps: seq<string>)
    ensures FlagsTaken(ps).None? <==> Mentions(ps, 65, 66)
  {
    hide Atoi;
    if ps != [] {
      FlagsUndefinedIff(ps[..|ps| - 1]);
      MentionsSplits(ps, 65, 66);
      EmptyIsZero();
    }
  }

  lemma EmptyIsZero()
    ensures Atoi([]) == 0
  {
  }

  // The piece of a single number.
  lemma OnePiece(n: nat)
    ensures Pieces(Decimal(n), [BAR], 0) == [Decimal(n)] && Atoi(Decimal(n)) == n
  {
    hide Atoi, Pieces;
    AtoiDecimal(n);
    SplitJoined([], [Decimal(n)]);
    assert JoinedBy([Decimal(n)]) == Decimal(n) && [] + Decimal(n) == Decimal(n);
  }

  lemma Flag65IsUndefined()
    ensures FlagsTaken(Pieces(Decimal(65), [BAR], 0)) == None
  {
    hide Atoi, Pieces, Decimal;
    OnePiece(65);
    FlagsUndefinedIff([Decimal(65)]);
    assert Atoi([Decimal(65)][0]) == 65;
  }

  lemma {:induction false} FlagsOfWord(n: nat, size: nat)
    requires size <= 32
    ensures FlagsTaken(FlagPieces(n, size)) == Some(n % Pow2(size))
  {
    hide Atoi, Decimal, Bit;
    if size > 0 {
      var k := size - 1;
      FlagsOfWord(n, k);
      assert FlagPieces(n, size)[..k] == FlagPieces(n, k);
      OneFlag(n, k);
    }
  }

  lemma OneFlag(n: nat, k: nat)
    requires k < 32
    ensures FlagTaken(n % Pow2(k), Decimal(FlagNumber(n, k))) == Some(n % Pow2(k + 1))
  {
    hide Atoi, Decimal, Bit, Pow2;
    AtoiDecimal(FlagNumber(n, k));
    BelowHasNoBit(n % Pow2(k), k);
    NextRemainder(n, k);
  }

  // The flag list of the low bits of a word gives just those bits back.
  lemma WordBack(n: uint32, size: nat)
    requires size <= 32
    ensures FlagsTaken(Pieces(JoinedBy(FlagPieces(n, size)), [BAR], 0)) == Some(n % Pow2(size))
  {
    hide FlagsTaken;
    FlagsOfWord(n, size);
    if size > 0 {
      assert FlagPieces(n, size)[0] != [];
      SplitJoined([], FlagPieces(n, size));
      assert [] + JoinedBy(FlagPieces(n, size)) == JoinedBy(FlagPieces(n, size));
    }
  }

  method GetFlagByWord(n: uint32, size: nat) returns (val: string)
    requires size <= 32
    ensures val == JoinedBy(FlagPieces(n, size))
  {
    hide JoinedBy, Decimal, Bit;
    val := [];
    EmptyJoin();
    var i := 0;
    while i < size
      invariant 0 <= i <= size && val == JoinedBy(FlagPieces(n, i))
    {
      var buf := Decimal(if Bit(n, i) then (i + 1) * 2 else (i + 1) * 2 - 1);
      JoinAppends(FlagPieces(n, i), buf);
      if val != [] {
        val := val + [BAR];
      }
      val := val + buf;
      i := i + 1;
    }
  }

  lemma EmptyJoin()
    ensures JoinedBy([]) == []
  {
  }

  method GetDwordByFlag(val: string) returns (r: Option<nat>)
    ensures r == FlagsTaken(Pieces(val, [BAR], 0))
    ensures r.None? <==> Mentions(Pieces(val, [BAR], 0), 65, 66)
  {
    hide Atoi, Bit, Mentions;
    FlagsUndefinedIff(Pieces(val, [BAR], 0));
    var dword := 0;
    var vec := StrSplit(val, [BAR]);
    var i := 0;
    while i < |vec|
      invariant 0 <= i <= |vec| && FlagsTaken(vec[..i]) == Some(dword)
    {
      assert vec[..i + 1][..i] == vec[..i];
      var next := ReadFlag(dword, vec[i]);
      if next.None? {
        StaysUndefined(vec, i + 1);
        return None;
      }
      dword := next.value;
      i := i + 1;
    }
    assert vec[..i] == vec;
    r := Some(dword);
  }

  method ReadFlag(dword: nat, piece: string) returns (r: Option<nat>)
    ensures r == FlagTaken(dword, piece)
  {
    if piece == [] { return Some(dword); }
    var nval := Atoi(piece);
    var npos := Half(nval - 1);
    if npos < 0 || npos > 32 { return Some(dword); }
    if npos == 32 { return None; }
    r := Some(if nval % 2 == 0 then SetBit(dword, npos) else ClearBit(dword, npos));
  }

  lemma {:induction false} StaysUndefined(ps: seq<string>, k: nat)
    requires k <= |ps| && FlagsTaken(ps[..k]) == None
    ensures FlagsTaken(ps) == None
    decreases |ps|
  {
    if k == |ps| {
      assert ps[..k] == ps;
    } else {
      assert ps[..|ps| - 1][..k] == ps[..k];
      StaysUndefined(ps[..|ps| - 1], k);
    }
  }

  // ------------------------------------------------------- position information

  function Keys(): (r: seq<byte>)
    ensures |r| == 22 && forall i :: 0 <= i < 22 ==> 0 < r[i] <= 0x48
  {
    [0x01, 0x02, 0x03, 0x11, 0x12, 0x13, 0x20, 0x21, 0x22, 0x23, 0x24, 0x25,
     0x26, 0x40, 0x41, 0x42, 0x43, 0x44, 0x45, 0x46, 0x47, 0x48]
  }

  // The table entry of a key, from `i` on.
  function KeyIndex(key: nat, i: nat): (r: Option<nat>)
    requires i <= 22
    ensures r.Some? ==> r.value < 22 && Keys()[r.value] == key
    ensures r.None? ==> forall k :: i <= k < 22 ==> Keys()[k] != key
    decreases 22 - i
  {
    if i == 22 then None else if Keys()[i] == key then Some(i) else KeyIndex(key, i + 1)
  }

  function KeyOfBit(p: nat): nat {
    (p + 1) % 256
  }

  predicate Tabled(p: nat) {
    KeyOfBit(p) in Keys()
  }

  predicate BitAt(b: seq<byte>, p: nat)
    requires p < 8 * |b|
  {
    Bit(b[p / 8], p % 8)
  }

  // What the list says of bit p: nothing when it is not in the table.
  function PositionPiece(b: seq<byte>, p: nat): (r: Option<string>)
    requires |b| == 32 && p < 256
    ensures r.Some? ==> r.value != [] && BAR !in r.value
    ensures r.Some? <==> Tabled(p)
  {
    var at := KeyIndex(KeyOfBit(p), 0);
    if at.None? then None else Some(Decimal((at.value + 1) * 2 - if BitAt(b, p) then 1 else 0))
  }

  // The pieces for the first p bits of the 32 bytes.
  function PositionPieces(b: seq<byte>, p: nat): (ps: seq<string>)
    requires |b| == 32 && p <= 256
    ensures forall k :: 0 <= k < |ps| ==> ps[k] != [] && BAR !in ps[k]
  {
    if p == 0 then []
    else
      var front, piece := PositionPieces(b, p - 1), PositionPiece(b, p - 1);
      if piece.None? then front else front + [piece.value]
  }

  // One piece read into the bytes. None: the table entry behind the last that the
  // range check lets through.
  function PositionTaken(b: seq<byte>, piece: string): (r: Option<seq<byte>>)
    requires |b| == 32
    ensures r.Some? ==> |r.value| == 32
  {
    if piece == [] then Some(b)
    else
      var nval := Atoi(piece);
      var npos := Half(nval - 1);
      if npos < 0 || npos > 22 then Some(b)
      else if npos == 22 then None
      else if nval % 2 != 0 then
        var nbyte, nbit := (Keys()[npos] - 1) / 8, (Keys()[npos] - 1) % 8;
        SetBitFitsByte(b[nbyte], nbit);
        Some(b[nbyte := SetBit(b[nbyte], nbit)])
      else Some(b)
  }

  lemma SetBitFitsByte(x: byte, k: nat)
    requires k < 8
    ensures SetBit(x, k) < 256
  {
    assert Pow2(8) == 256 by { assert Pow2(4) == 16; }
    SetBitFits(x, k, 8);
  }

  function NoPositions(): (b: seq<byte>)
    ensures |b| == 32
  {
    seq(32, _ => 0)
  }

  function PositionsTaken(ps: seq<string>): (r: Option<seq<byte>>)
    ensures r.Some? ==> |r.value| == 32
  {
    if ps == [] then Some(NoPositions())
    else
      var front := PositionsTaken(ps[..|ps| - 1]);
      if front.None? then None else PositionTaken(front.value, ps[|ps| - 1])
  }

  // Reading goes behind the table exactly when some piece is 45 or 46.
  lemma {:induction false} PositionsOutsideIff(ps: seq<string>)
    ensures PositionsTaken(ps).None? <==> Mentions(ps, 45, 46)
  {
    hide Atoi, Keys, SetBit;
    if ps != [] {
      PositionsOutsideIff(ps[..|ps| - 1]);
      MentionsSplits(ps, 45, 46);
      EmptyIsZero();
    }
  }

  lemma Position45IsOutside()
    ensures PositionsTaken(Pieces(Decimal(45), [BAR], 0)) == None
  {
    hide Atoi, Pieces, Decimal;
    OnePiece(45);
    PositionsOutsideIff([Decimal(45)]);
    assert Atoi([Decimal(45)][0]) == 45;
  }

  // Of the first p bits just the tabled ones are kept; none of the others is set.
  predicate Kept(r: seq<byte>, b: seq<byte>, p: nat)
    requires |b| == 32
  {
    |r| == 32 && forall q :: 0 <= q < 256 ==> BitAt(r, q) == (q < p && Tabled(q) && BitAt(b, q))
  }

  lemma {:induction false} PositionsOfBits(b: seq<byte>, p: nat)
    requires |b| == 32 && p <= 256
    ensures PositionsTaken(PositionPieces(b, p)).Some?
    ensures Kept(PositionsTaken(PositionPieces(b, p)).value, b, p)
  {
    hide PositionTaken, PositionPiece, Kept, Tabled;
    if p == 0 {
      NothingKept(b);
    } else {
      PositionsOfBits(b, p - 1);
      var front, piece := PositionPieces(b, p - 1), PositionPiece(b, p - 1);
      var r := PositionsTaken(front).value;
      if piece.None? {
        UntabledKept(r, b, p - 1);
      } else {
        assert (front + [piece.value])[..|front|] == front;
        OnePosition(r, b, p - 1);
      }
    }
  }

  lemma NothingKept(b: seq<byte>)
    requires |b| == 32
    ensures Kept(NoPositions(), b, 0)
  {
    forall q | 0 <= q < 256 ensures !BitAt(NoPositions(), q) {
      BelowHasNoBit(0, q % 8);
    }
  }

  lemma UntabledKept(r: seq<byte>, b: seq<byte>, p: nat)
    requires |b| == 32 && Kept(r, b, p) && p < 256 && !Tabled(p)
    ensures Kept(r, b, p + 1)
  {
    hide Bit, Tabled;
  }

  lemma OnePosition(r: seq<byte>, b: seq<byte>, p: nat)
    requires |b| == 32 && |r| == 32 && Kept(r, b, p) && p < 256 && Tabled(p)
    ensures var t := PositionTaken(r, PositionPiece(b, p).value);
            t.Some? && Kept(t.value, b, p + 1)
  {
    hide Bit, SetBit, Kept, Tabled, Keys, PositionPiece, PositionTaken, Decimal;
    var i := PieceOf(b, p);
    PieceRead(r, i, BitAt(b, p));
    KeyPlace(p, i);
    SetBitFitsByte(r[p / 8], p % 8);
    if BitAt(b, p) {
      SetKept(r, b, p);
    } else {
      ClearKept(r, b, p);
    }
  }

  lemma PieceOf(b: seq<byte>, p: nat) returns (i: nat)
    requires |b| == 32 && p < 256 && Tabled(p)
    ensures i < 22 && Keys()[i] == KeyOfBit(p)
    ensures PositionPiece(b, p) == Some(Decimal((i + 1) * 2 - if BitAt(b, p) then 1 else 0))
  {
    hide Decimal, Bit, Keys;
    i := KeyIndex(KeyOfBit(p), 0).value;
  }

  lemma PieceRead(r: seq<byte>, i: nat, odd: bool)
    requires |r| == 32 && i < 22
    ensures var nbyte, nbit := (Keys()[i] - 1) / 8, (Keys()[i] - 1) % 8;
            SetBit(r[nbyte], nbit) < 256
            && PositionTaken(r, Decimal((i + 1) * 2 - if odd then 1 else 0))
            == Some(if odd then r[nbyte := SetBit(r[nbyte], nbit)] else r)
  {
    hide Decimal, Atoi, SetBit, Keys, Half;
    HalfPlace(i);
    SetBitFitsByte(r[(Keys()[i] - 1) / 8], (Keys()[i] - 1) % 8);
    AtoiDecimal((i + 1) * 2 - if odd then 1 else 0);
  }

  lemma HalfPlace(i: nat)
    ensures Half((i + 1) * 2 - 1) == i && Half((i + 1) * 2 - 1 - 1) == i
    ensures (i + 1) * 2 % 2 == 0 && ((i + 1) * 2 - 1) % 2 != 0
  {
  }

  lemma KeyPlace(p: nat, i: nat)
    requires p < 256 && i < 22 && Keys()[i] == KeyOfBit(p)
    ensures (Keys()[i] - 1) / 8 == p / 8 && (Keys()[i] - 1) % 8 == p % 8
  {
    var k := Keys()[i];
    assert k > 0;
    hide Keys;
    assert k == p + 1;
  }

  lemma SetKept(r: seq<byte>, b: seq<byte>, p: nat)
    requires |b| == 32 && Kept(r, b, p) && p < 256 && Tabled(p) && BitAt(b, p) && SetBit(r[p / 8], p % 8) < 256
    ensures Kept(r[p / 8 := SetBit(r[p / 8], p % 8)], b, p + 1)
  {
    hide Bit, SetBit, Tabled, Keys;
    var t := r[p / 8 := SetBit(r[p / 8], p % 8)];
    forall q | 0 <= q < 256 ensures BitAt(t, q) == (q < p + 1 && Tabled(q) && BitAt(b, q)) {
      SetBitBits(r[p / 8], p % 8, q % 8);
      assert q / 8 == p / 8 ==> (q % 8 == p % 8 <==> q == p);
      assert BitAt(r, q) == (q < p && Tabled(q) && BitAt(b, q));
      assert t[q / 8] == if q / 8 == p / 8 then SetBit(r[p / 8], p % 8) else r[q / 8];
    }
  }

  lemma ClearKept(r: seq<byte>, b: seq<byte>, p: nat)
    requires |b| == 32 && Kept(r, b, p) && p < 256 && !BitAt(b, p)
    ensures Kept(r, b, p + 1)
  {
    hide Bit, Tabled;
  }

  // The position list of 32 bytes gives back exactly their tabled bits.
  lemma PositionsBack(b: seq<byte>)
    requires |b| == 32
    ensures var r := PositionsTaken(Pieces(JoinedBy(PositionPieces(b, 256)), [BAR], 0));
            r.Some? && forall q :: 0 <= q < 256 ==> BitAt(r.value, q) == (Tabled(q) && BitAt(b, q))
  {
    hide PositionsTaken, Bit, Tabled, PositionPieces, Pieces, JoinedBy;
    PositionsOfBits(b, 256);
    SomePieces(b);
    var ps := PositionPieces(b, 256);
    assert ps[0] != [];
    SplitJoined([], ps);
    assert [] + JoinedBy(ps) == JoinedBy(ps);
  }

  lemma SomePieces(b: seq<byte>)
    requires |b| == 32
    ensures PositionPieces(b, 256) != []
  {
    hide PositionPiece, PositionPieces;
    assert KeyOfBit(0) == Keys()[0];
    NextPieces(b, 0);
    PiecesGrow(b, 1, 256);
  }

  lemma {:induction false} PiecesGrow(b: seq<byte>, p: nat, q: nat)
    requires |b| == 32 && p <= q <= 256
    ensures |PositionPieces(b, p)| <= |PositionPieces(b, q)|
    decreases q
  {
    hide PositionPiece, PositionPieces;
    if p < q {
      NextPieces(b, q - 1);
      PiecesGrow(b, p, q - 1);
    }
  }

  lemma NextPieces(b: seq<byte>, p: nat)
    requires |b| == 32 && p < 256
    ensures PositionPieces(b, 0) == []
    ensures var front, piece := PositionPieces(b, p), PositionPiece(b, p);
            PositionPieces(b, p + 1) == if piece.None? then front else front + [piece.value]
  {
    hide PositionPiece;
  }

  // get_postion_key
  method GetPostionKey(key: nat, bit: bool) returns (val: Option<string>)
    ensures val == if KeyIndex(key, 0).None? then None
                   else Some(Decimal((KeyIndex(key, 0).value + 1) * 2 - if bit then 1 else 0))
  {
    hide Decimal, Keys;
    var i := 0;
    while i < 22
      invariant 0 <= i <= 22 && KeyIndex(key, 0) == KeyIndex(key, i)
    {
      if Keys()[i] == key {
        return Some(Decimal((i + 1) * 2 - if bit then 1 else 0));
      }
      i := i + 1;
    }
    val := None;
  }

  // The list as far as the first p bits go.
  predicate Listed(val: string, b: seq<byte>, p: nat)
    requires |b| == 32 && p <= 256
  {
    val == JoinedBy(PositionPieces(b, p))
  }

  method GetPostionSet(b: seq<byte>) returns (val: string)
    requires |b| == 32
    ensures Listed(val, b, 256)
  {
    hide Listed;
    val := StartList(b);
    var i := 0;
    while i < 32
      invariant 0 <= i <= 32 && Listed(val, b, 8 * i)
    {
      var n := 0;
      while n < 8
        invariant 0 <= n <= 8 && Listed(val, b, 8 * i + n)
      {
        val := AppendPosition(val, b, i, n);
        n := n + 1;
      }
      i := i + 1;
    }
  }

  method StartList(b: seq<byte>) returns (val: string)
    requires |b| == 32
    ensures Listed(val, b, 0)
  {
    val := [];
    EmptyJoin();
    NextPieces(b, 0);
  }

  method AppendPosition(val: string, b: seq<byte>, i: nat, n: nat) returns (r: string)
    requires |b| == 32 && i < 32 && n < 8 && Listed(val, b, 8 * i + n)
    ensures Listed(r, b, 8 * i + n + 1)
  {
    hide JoinedBy, Decimal, Bit, KeyIndex, Tabled, PositionPieces;
    NextPieces(b, 8 * i + n);
    assert (8 * i + n) / 8 == i && (8 * i + n) % 8 == n;
    r := val;
    var sbuf := GetPostionKey((i * 8 + n + 1) % 256, Bit(b[i], n));
    if sbuf.Some? {
      JoinAppends(PositionPieces(b, 8 * i + n), sbuf.value);
      if r != [] {
        r := r + [BAR];
      }
      r := r + sbuf.value;
    }
  }

  // The bytes are cleared first and then changed in place.
  method BuildPostionSet(val: string, b: array<byte>) returns (defined: bool)
    requires b.Length == 32
    modifies b
    ensures defined == PositionsTaken(Pieces(val, [BAR], 0)).Some?
    ensures defined ==> b[..] == PositionsTaken(Pieces(val, [BAR], 0)).value
    ensures !defined <==> Mentions(Pieces(val, [BAR], 0), 45, 46)
  {
    hide Atoi, Bit, SetBit, PositionTaken, Mentions;
    PositionsOutsideIff(Pieces(val, [BAR], 0));
    var k := 0;
    while k < 32
      invariant 0 <= k <= 32 && forall j :: 0 <= j < k ==> b[j] == 0
    {
      b[k] := 0;
      k := k + 1;
    }
    assert b[..] == NoPositions();
    var vec := StrSplit(val, [BAR]);
    var i := 0;
    while i < |vec|
      invariant 0 <= i <= |vec| && PositionsTaken(vec[..i]) == Some(b[..])
    {
      assert vec[..i + 1][..i] == vec[..i];
      defined := ReadPosition(b, vec[i]);
      if !defined {
        StaysOutside(vec, i + 1);
        return;
      }
      i := i + 1;
    }
    assert vec[..i] == vec;
    defined := true;
  }

  method ReadPosition(b: array<byte>, piece: string) returns (defined: bool)
    requires b.Length == 32
    modifies b
    ensures defined == PositionTaken(old(b[..]), piece).Some?
    ensures defined ==> b[..] == PositionTaken(old(b[..]), piece).value
  {
    hide Atoi, Bit, SetBit;
    defined := true;
    if piece == [] { return; }
    var nval := Atoi(piece);
    var npos := Half(nval - 1);
    if npos < 0 || npos > 22 { return; }
    if npos == 22 { return false; }
    var nbyte, nbit := (Keys()[npos] - 1) / 8, (Keys()[npos] - 1) % 8;
    if nval % 2 != 0 {
      SetBitFitsByte(b[nbyte], nbit);
      b[nbyte] := SetBit(b[nbyte], nbit);
    }
  }

  lemma {:induction false} StaysOutside(ps: seq<string>, k: nat)
    requires k <= |ps| && PositionsTaken(ps[..k]) == None
    ensures PositionsTaken(ps) == None
    decreases |ps|
  {
    hide PositionTaken;
    if k == |ps| {
      assert ps[..k] == ps;
    } else {
      assert ps[..|ps| - 1][..k] == ps[..k];
      StaysOutside(ps[..|ps| - 1], k);
    }
  }
}
