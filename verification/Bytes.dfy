/** Bytes, and the big-endian integers DataBuffer writes and reads. */
module Bytes {
  type byte = b: int | 0 <= b < 256

  datatype Option<+T> = None | Some(value: T)

  const MAX16 := 0x1_0000
  const MAX32 := 0x1_0000_0000
  const MAX64 := 0x1_0000_0000_0000_0000

  type uint16 = n: int | 0 <= n < MAX16
  type uint32 = n: int | 0 <= n < MAX32
  type uint64 = n: int | 0 <= n < MAX64

  const READ_WRITE_SIZE := 8192  // of tcpcomponent.cpp
  const MAX_PACK_LEN := 4096     // of tprotocol.cpp

  // One piece after another.
  function Flatten(pieces: seq<seq<byte>>): seq<byte> {
    if pieces == [] then [] else pieces[0] + Flatten(pieces[1..])
  }

  lemma FlattenOne(d: seq<byte>)
    ensures Flatten([d]) == d
  {
    assert [d][1..] == [];
    assert d + [] == d;
  }

  lemma Assoc<T>(a: seq<T>, b: seq<T>, c: seq<T>)
    ensures (a + b) + c == a + (b + c)
  {
  }

  // The `width` low-order bytes of n, most significant first.
  function BigEndian(n: nat, width: nat): (s: seq<byte>)
    ensures |s| == width
  {
    if width == 0 then [] else BigEndian(n / 256, width - 1) + [n % 256]
  }

  function FromBigEndian(s: seq<byte>): nat {
    if s == [] then 0 else FromBigEndian(s[..|s| - 1]) * 256 + s[|s| - 1]
  }

  function Pow256(width: nat): (r: nat)
    ensures r > 0
  {
    if width == 0 then 1 else 256 * Pow256(width - 1)
  }

  // The digit at place i counts the rest of the number in units of the places behind it.
  lemma {:induction false} BigEndianDigit(n: nat, width: nat, i: nat)
    requires i < width
    ensures BigEndian(n, width)[i] == n / Pow256(width - 1 - i) % 256
  {
    if i < width - 1 {
      BigEndianDigit(n / 256, width - 1, i);
      DivideTwice(n, Pow256(width - 2 - i));
    }
  }

  lemma DivideTwice(n: nat, m: nat)
    requires m > 0
    ensures n / 256 / m == n / (256 * m)
  {
    var q, r := n / 256 / m, n / 256 % m;
    assert n / 256 == q * m + r;
    assert n == q * (256 * m) + (256 * r + n % 256) by { assert 256 * (q * m) == q * (256 * m); }
    QuotientIs(n, 256 * m, q, 256 * r + n % 256);
  }

  lemma QuotientIs(n: nat, m: nat, q: nat, r: nat)
    requires n == q * m + r && r < m
    ensures n / m == q
  {
    var d := q - n / m;
    assert d * m == n % m - r by {
      assert n == n / m * m + n % m;
      assert d * m == q * m - n / m * m;
    }
    SmallMultiple(d, m);
  }

  // So an integer of four bytes is written with its most significant byte first.
  lemma FourBytes(n: uint32)
    ensures BigEndian(n, 4) == [n / 0x100_0000, n / 0x1_0000 % 256, n / 0x100 % 256, n % 256]
  {
    hide BigEndian, Pow256;
    Powers();
    BigEndianDigit(n, 4, 0);
    BigEndianDigit(n, 4, 1);
    BigEndianDigit(n, 4, 2);
    BigEndianDigit(n, 4, 3);
    assert n / 0x100_0000 % 256 == n / 0x100_0000 && n / 1 % 256 == n % 256;
  }

  lemma Powers()
    ensures Pow256(0) == 1 && Pow256(1) == 0x100 && Pow256(2) == 0x1_0000 && Pow256(3) == 0x100_0000
  {
  }

  lemma TwoBytes(n: uint16)
    ensures BigEndian(n, 2) == [n / 0x100, n % 256]
  {
    BigEndianDigit(n, 2, 0);
    BigEndianDigit(n, 2, 1);
    assert Pow256(1) == 0x100 && Pow256(0) == 1;
  }

  function Pow2(n: nat): (r: nat)
    ensures r > 0
  {
    if n == 0 then 1 else 2 * Pow2(n - 1)
  }

  // Writing then reading keeps the number modulo the width.
  lemma {:induction false} ReadBackBigEndian(n: nat, width: nat)
    ensures FromBigEndian(BigEndian(n, width)) == n % Pow256(width)
  {
    if width == 0 {
    } else {
      var s := BigEndian(n, width);
      assert s[..|s| - 1] == BigEndian(n / 256, width - 1);
      ReadBackBigEndian(n / 256, width - 1);
      SplitRemainder(n, Pow256(width - 1));
    }
  }

  lemma SplitRemainder(n: nat, m: nat)
    requires m > 0
    ensures n % (256 * m) == (n / 256) % m * 256 + n % 256
  {
    var q := n / 256 / m;
    var r := (n / 256) % m * 256 + n % 256;
    assert n / 256 == q * m + (n / 256) % m;
    assert n == q * m * 256 + r;
    assert q * m * 256 == q * (256 * m);
    assert 0 <= r < 256 * m;
    RemainderUnique(n, 256 * m, q, r);
  }

  lemma RemainderUnique(n: nat, m: nat, q: nat, r: nat)
    requires n == q * m + r && r < m
    ensures n % m == r
  {
    var d := q - n / m;
    assert d * m == n % m - r by {
      assert n == n / m * m + n % m;
      assert d * m == q * m - n / m * m;
    }
    SmallMultiple(d, m);
  }

  lemma SmallMultiple(d: int, m: int)
    requires -m < d * m < m
    ensures d == 0
  {
  }

  lemma Widths()
    ensures Pow256(1) == 256 && Pow256(2) == MAX16 && Pow256(4) == MAX32 && Pow256(8) == MAX64
  {
    assert Pow256(3) == 0x100_0000;
    assert Pow256(5) == 0x100_0000_0000;
    assert Pow256(6) == 0x1_0000_0000_0000;
    assert Pow256(7) == 0x100_0000_0000_0000;
  }
}
