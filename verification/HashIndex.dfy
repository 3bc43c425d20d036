/** sock_hash, next_power and the two index masks of HashSock. Masks and exclusive
    or are defined on numbers, bit by bit. */
module HashIndex {
  import opened Bytes
  import opened Flags

  function And(x: nat, y: nat): (r: nat)
    ensures r <= y
  {
    if x == 0 || y == 0 then 0
    else 2 * And(x / 2, y / 2) + if x % 2 == 1 && y % 2 == 1 then 1 else 0
  }

  function Xor(x: nat, y: nat): nat
    decreases x + y
  {
    if x == 0 then y else if y == 0 then x
    else 2 * Xor(x / 2, y / 2) + if x % 2 == y % 2 then 0 else 1
  }

  function Swap16(n: uint16): uint16 {
    n % 256 * 256 + n / 256
  }

  function Swap32(n: uint32): uint32 {
    Swap16(n % MAX16) * MAX16 + Swap16(n / MAX16)
  }

  // HashSock::sock_hash on a little-endian host: the family is everything above
  // bit 48, the host the low 32 bits, the port the 16 bits between.
  function SockHash(sockId: uint64): nat {
    var port := Swap16(sockId / MAX32 % MAX16);
    var family := sockId / (MAX32 * MAX16);
    Xor(Xor(Xor(family, Swap32(sockId % MAX32)), port / 256), port)
  }

  // Bit by bit.
  lemma {:induction false} XorBits(x: nat, y: nat, k: nat)
    ensures Bit(Xor(x, y), k) <==> Bit(x, k) != Bit(y, k)
    decreases k
  {
    hide Bit;
    BelowHasNoBit(0, k);
    if x > 0 && y > 0 {
      var r := Xor(x, y);
      var low := if x % 2 == y % 2 then 0 else 1;
      assert r == 2 * Xor(x / 2, y / 2) + low;
      if k == 0 {
        BitLow(x);
        BitLow(y);
        BitLow(r);
      } else {
        XorBits(x / 2, y / 2, k - 1);
        HalfBit(x, k);
        HalfBit(y, k);
        HalfBit(r, k);
      }
    }
  }

  // The id of the address a.b.c.d and a port, both in network order, hashes to the
  // address and port in host order.
  lemma SockHashMeans(flags: nat, port: uint16, a: byte, b: byte, c: byte, d: byte)
    requires flags < 4
    ensures var net := port % 256 * 256 + port / 256;
            var host := a + b * 0x100 + c * 0x1_0000 + d * 0x100_0000;
            SockHash(flags * 0x1_0000_0000_0000 + net * 0x1_0000_0000 + host)
            == Xor(Xor(Xor(flags, a * 0x100_0000 + b * 0x1_0000 + c * 0x100 + d), port / 256), port)
  {
    hide Xor, Swap16, Swap32, SockHash;
    PortSwapped(port);
    HostSwapped(a, b, c, d);
    var net: uint16 := port % 256 * 256 + port / 256;
    var host: uint32 := a + b * 0x100 + c * 0x1_0000 + d * 0x100_0000;
    HashOfId(flags, net, host);
  }

  lemma HashOfId(flags: nat, net: uint16, host: uint32)
    requires flags < 4
    ensures SockHash(flags * 0x1_0000_0000_0000 + net * 0x1_0000_0000 + host)
         == Xor(Xor(Xor(flags, Swap32(host)), Swap16(net) / 256), Swap16(net))
  {
    SockIdParts(flags, net, host);
    SockHashParts(SockId(flags, net, host));
    hide Xor, Swap16, Swap32, SockHash;
  }

  lemma SockHashParts(sockId: uint64)
    ensures var port := Swap16(sockId / MAX32 % MAX16);
            SockHash(sockId) == Xor(Xor(Xor(sockId / (MAX32 * MAX16), Swap32(sockId % MAX32)), port / 256), port)
  {
  }

  lemma PortSwapped(port: uint16)
    ensures Swap16(port % 256 * 256 + port / 256) == port
  {
    QuotientIs(port % 256 * 256 + port / 256, 256, port % 256, port / 256);
  }

  lemma HostSwapped(a: byte, b: byte, c: byte, d: byte)
    ensures Swap32(a + b * 0x100 + c * 0x1_0000 + d * 0x100_0000) == a * 0x100_0000 + b * 0x1_0000 + c * 0x100 + d
  {
    var n := a + b * 0x100 + c * 0x1_0000 + d * 0x100_0000;
    QuotientIs(n, MAX16, c + d * 0x100, a + b * 0x100);
    QuotientIs(a + b * 0x100, 0x100, b, a);
    QuotientIs(c + d * 0x100, 0x100, d, c);
  }

  // The address 0.0.0.5 and port 259 under flags 2.
  lemma SockHashAt()
    ensures SockHash(0x2_0301_0500_0000) == 261
  {
    SockHashMeans(2, 259, 0, 0, 0, 5);
    assert Xor(2, 5) == 7;
    assert Xor(7, 1) == 6;
    assert Xor(6, 259) == 261;
  }

  lemma {:induction false} XorFits(x: nat, y: nat, bound: nat)
    requires IsPowerOf2(bound) && x < bound && y < bound
    ensures Xor(x, y) < bound
    decreases x + y
  {
    if x > 0 && y > 0 {
      XorFits(x / 2, y / 2, bound / 2);
    }
  }

  predicate IsPowerOf2(n: nat) {
    n == 1 || (n > 0 && n % 2 == 0 && IsPowerOf2(n / 2))
  }

  predicate IsPowerOf4(n: nat) {
    n == 1 || (n > 0 && n % 4 == 0 && IsPowerOf4(n / 4))
  }

  lemma HashIs32Bit(sockId: uint64)
    ensures SockHash(sockId) < MAX32
  {
    assert IsPowerOf2(MAX32) by { PowerOf2Values(); }
    var port := Swap16(sockId / MAX32 % MAX16);
    var family := sockId / (MAX32 * MAX16);
    XorFits(family, Swap32(sockId % MAX32), MAX32);
    XorFits(Xor(family, Swap32(sockId % MAX32)), port / 256, MAX32);
    XorFits(Xor(Xor(family, Swap32(sockId % MAX32)), port / 256), port, MAX32);
  }

  lemma PowerOf2Values()
    ensures IsPowerOf2(MAX32)
  {
    Doublings(1);
    Doublings(0x100);
    Doublings(0x1_0000);
    Doublings(0x100_0000);
  }

  lemma Doublings(n: nat)
    requires IsPowerOf2(n)
    ensures IsPowerOf2(256 * n)
  {
    hide IsPowerOf2;
    TimesTwo(n); TimesTwo(2 * n); TimesTwo(4 * n); TimesTwo(8 * n);
    TimesTwo(16 * n); TimesTwo(32 * n); TimesTwo(64 * n); TimesTwo(128 * n);
  }

  lemma TimesTwo(n: nat)
    requires IsPowerOf2(n)
    ensures IsPowerOf2(2 * n)
  {
  }

  // `x & (n - 1)` is the remainder when n is a power of two.
  lemma {:induction false} MaskIsRemainder(x: nat, n: nat)
    requires IsPowerOf2(n)
    ensures And(x, n - 1) == x % n
    decreases n
  {
    if n > 1 {
      MaskIsRemainder(x / 2, n / 2);
      assert (n - 1) / 2 == n / 2 - 1 && (n - 1) % 2 == 1;
      HalfRemainder(x, n / 2);
    }
  }

  lemma HalfRemainder(x: nat, m: nat)
    requires m > 0
    ensures x % (2 * m) == 2 * (x / 2 % m) + x % 2
  {
    var q, r := x / 2 / m, x / 2 % m;
    assert x == 2 * (q * m + r) + x % 2;
    assert 2 * (q * m) == q * (2 * m);
    RemainderUnique(x, 2 * m, q, 2 * r + x % 2);
  }

  lemma {:induction false} PowerOf4IsPowerOf2(n: nat)
    requires IsPowerOf4(n)
    ensures IsPowerOf2(n)
  {
    if n > 1 {
      PowerOf4IsPowerOf2(n / 4);
      assert n / 2 / 2 == n / 4;
    }
  }

  lemma {:induction false} PowersOf4Divide(m: nat, n: nat)
    requires IsPowerOf4(m) && IsPowerOf4(n) && m <= n
    ensures n % m == 0
  {
    if m > 1 {
      PowersOf4Divide(m / 4, n / 4);
      var k := n / 4 / (m / 4);
      assert n / 4 == k * (m / 4);
      assert n == k * m;
      RemainderUnique(n, m, k, 0);
    }
  }

  // ---------- ids of different buckets ----------

  // sock_addr2id: the flags, the port in network order, the host.
  function SockId(flags: nat, port: uint16, host: uint32): (r: uint64)
    requires flags < 4
  {
    flags * (MAX32 * MAX16) + port * MAX32 + host
  }

  // For any host, two ports whose ids hash to an odd and to an even number.
  lemma PortsDifferInParity(flags: nat, host: uint32)
    requires flags < 4
    ensures SockHash(SockId(flags, 256, host)) % 2 != SockHash(SockId(flags, 512, host)) % 2
  {
    SockIdParts(flags, 256, host);
    SockIdParts(flags, 512, host);
    assert Swap16(256) == 1 && Swap16(512) == 2;
    hide Swap16, Xor, SockId;
    XorLowBits(Xor(flags, Swap32(host)));
  }

  lemma SockIdParts(flags: nat, port: uint16, host: uint32)
    requires flags < 4
    ensures var id := SockId(flags, port, host);
            id / MAX32 % MAX16 == port && id / (MAX32 * MAX16) == flags && id % MAX32 == host
  {
    var id := SockId(flags, port, host);
    RemainderUnique(id, MAX32, flags * MAX16 + port, host);
    RemainderUnique(flags * MAX16 + port, MAX16, flags, port);
    RemainderUnique(id, MAX32 * MAX16, flags, port * MAX32 + host);
  }

  lemma XorLowBits(x: nat)
    ensures Xor(Xor(x, 0), 1) % 2 != Xor(Xor(x, 0), 2) % 2
  {
    XorNothing(x);
    XorOne(x);
    XorTwo(x);
    hide Xor;
    assert x % 2 == 0 || x % 2 == 1;
  }

  lemma XorNothing(x: nat)
    ensures Xor(x, 0) == x
  {
  }

  lemma XorOne(x: nat)
    ensures Xor(x, 1) % 2 == 1 - x % 2
  {
    XorNothing(x / 2);
  }

  lemma XorTwo(x: nat)
    ensures Xor(x, 2) % 2 == x % 2
  {
    hide Xor;
    if x > 0 { XorEven(x, 2); }
    else { XorZero(2); }
  }

  lemma XorZero(y: nat)
    ensures Xor(0, y) == y
  {
  }

  lemma XorEven(x: nat, y: nat)
    requires x > 0 && y > 0 && y % 2 == 0
    ensures Xor(x, y) % 2 == x % 2
  {
    hide Xor;
    XorUnfold(x, y);
    var rest, low := Xor(x / 2, y / 2), x % 2;
    RemainderUnique(Xor(x, y), 2, rest, low);
  }

  lemma XorUnfold(x: nat, y: nat)
    requires x > 0 && y > 0
    ensures Xor(x, y) == 2 * Xor(x / 2, y / 2) + if x % 2 == y % 2 then 0 else 1
  {
  }

  // So every table of more than one bucket tells two local ports of a host apart.
  lemma BucketsDifferIff(flags: nat, host: uint32, size: nat)
    requires flags < 4 && IsPowerOf4(size)
    ensures size > 0
    ensures BucketIndex(SockHash(SockId(flags, 256, host)), size) != BucketIndex(SockHash(SockId(flags, 512, host)), size)
            <==> size > 1
  {
    hide SockHash, SockId;
    PortsDifferInParity(flags, host);
    PowerOf4IsPowerOf2(size);
    var a, b := SockHash(SockId(flags, 256, host)), SockHash(SockId(flags, 512, host));
    MaskIsRemainder(a, size);
    MaskIsRemainder(b, size);
    if size > 1 {
      RemainderUnique(size, 2, size / 2, 0);
      NestedRemainder(a, size, 2);
      NestedRemainder(b, size, 2);
    }
  }

  // ---------- next_power ----------

  const LIMIT := 0x4000_0000_0000_0000 // 2^62
  const ULONG_MAX := MAX64 - 1

  // The value after k turns of the loop, shifted in 64 bits.
  function Turns(mini: nat, k: nat): uint64
    requires mini < MAX64
  {
    if k == 0 then mini else Turns(mini, k - 1) * 4 % MAX64
  }

  lemma PowerOf4Limit()
    ensures IsPowerOf4(LIMIT)
  {
    assert IsPowerOf4(1);
    hide IsPowerOf4;
    TimesFour(1); TimesFour(0x4); TimesFour(0x10); TimesFour(0x40);
    FourTurns(0x100);
    FourTurns(0x1_0000);
    FourTurns(0x100_0000);
    FourTurns(0x1_0000_0000);
    FourTurns(0x100_0000_0000);
    FourTurns(0x1_0000_0000_0000);
    TimesFour(0x100_0000_0000_0000);
    TimesFour(0x400_0000_0000_0000);
    TimesFour(0x1000_0000_0000_0000);
  }

  lemma FourTurns(n: nat)
    requires IsPowerOf4(n)
    ensures IsPowerOf4(256 * n)
  {
    hide IsPowerOf4;
    TimesFour(n); TimesFour(4 * n); TimesFour(16 * n); TimesFour(64 * n);
  }

  lemma {:induction false} TimesFour(n: nat)
    requires IsPowerOf4(n)
    ensures IsPowerOf4(4 * n)
  {
  }

  lemma {:induction false} PowersOf4Ordered(m: nat, n: nat)
    requires IsPowerOf4(m) && IsPowerOf4(n) && m < n
    ensures 4 * m <= n
  {
    if m > 1 { PowersOf4Ordered(m / 4, n / 4); }
  }

  // Inside the loop the value is a power of four up to 2^62, or it has wrapped to 0.
  lemma {:induction false} TurnsShape(mini: nat, k: nat)
    requires IsPowerOf4(mini) && mini <= LIMIT
    ensures Turns(mini, k) == 0 || (IsPowerOf4(Turns(mini, k)) && Turns(mini, k) <= LIMIT)
  {
    if k > 0 {
      TurnsShape(mini, k - 1);
      NextTurn(Turns(mini, k - 1));
    }
  }

  lemma NextTurn(n: nat)
    requires n == 0 || (IsPowerOf4(n) && n <= LIMIT)
    ensures var m := n * 4 % MAX64; m == 0 || (IsPowerOf4(m) && m <= LIMIT)
  {
    hide IsPowerOf4;
    PowerOf4Limit();
    if 0 < n < LIMIT {
      PowersOf4Ordered(n, LIMIT);
      TimesFour(n);
      assert n * 4 < MAX64;
    } else {
      assert LIMIT * 4 % MAX64 == 0;
    }
  }

  lemma {:induction false} TurnsShift(mini: nat, k: nat)
    requires 4 * mini < MAX64
    ensures Turns(mini, k + 1) == Turns(4 * mini, k)
  {
    if k > 0 { TurnsShift(mini, k - 1); }
  }

  lemma {:induction false} TurnsReach(size: nat, mini: nat) returns (k: nat)
    requires IsPowerOf4(mini) && mini <= LIMIT && size <= LIMIT
    ensures Turns(mini, k) >= size
    decreases LIMIT - mini
  {
    PowerOf4Limit();
    if mini >= size {
      k := 0;
    } else {
      PowersOf4Ordered(mini, LIMIT);
      TimesFour(mini);
      k := TurnsReach(size, 4 * mini);
      TurnsShift(mini, k);
      k := k + 1;
    }
  }

  // The loop ends exactly for sizes up to 2^62; above that the value wraps to 0
  // and stays there.
  lemma LoopEndsIff(size: uint64, mini: nat)
    requires IsPowerOf4(mini) && mini <= LIMIT
    ensures (exists k: nat :: Turns(mini, k) >= size) <==> size <= LIMIT
  {
    if size <= LIMIT {
      var k := TurnsReach(size, mini);
    } else {
      forall k: nat
        ensures Turns(mini, k) < size
      {
        TurnsShape(mini, k);
      }
    }
  }

  method NextPower(size: uint64, mini: uint64) returns (n: uint64)
    requires IsPowerOf4(mini) && mini <= LIMIT
    requires size <= LIMIT || size == ULONG_MAX
    ensures size == ULONG_MAX ==> n == ULONG_MAX
    ensures size <= LIMIT ==> IsPowerOf4(n) && mini <= n && size <= n
    ensures size <= LIMIT ==> forall m: nat {:trigger IsPowerOf4(m)} :: IsPowerOf4(m) && mini <= m && size <= m ==> n <= m
  {
    hide IsPowerOf4;
    if size >= ULONG_MAX { return ULONG_MAX; }
    n := mini;
    PowerOf4Limit();
    while n < size
      invariant IsPowerOf4(n) && mini <= n <= LIMIT
      invariant n == mini || n / 4 < size
      decreases LIMIT - n
    {
      PowersOf4Ordered(n, LIMIT);
      TimesFour(n);
      assert n * 4 % MAX64 == 4 * n && 4 * n / 4 == n;
      n := n * 4 % MAX64;
    }
    forall m: nat {:trigger IsPowerOf4(m)} | IsPowerOf4(m) && mini <= m && size <= m
      ensures n <= m
    {
      if m < n { PowersOf4Ordered(m, n); }
    }
  }

  // ---------- which lock ----------

  function BucketIndex(hash: nat, tableSize: nat): (r: nat)
    requires tableSize > 0
    ensures r < tableSize
  {
    And(hash, tableSize - 1)
  }

  // put, erase, remove and the sweep lock by bucket index; get by the raw hash.
  function LockByBucket(hash: nat, tableSize: nat, lockSize: nat): nat
    requires tableSize > 0 && lockSize > 0
  {
    And(BucketIndex(hash, tableSize), lockSize - 1)
  }

  function LockByHash(hash: nat, lockSize: nat): nat
    requires lockSize > 0
  {
    And(hash, lockSize - 1)
  }

  // get takes the lock that guards the bucket it walks, for every 32-bit hash,
  // exactly when there are no more locks than buckets (or 2^32 buckets).
  lemma SameLockIff(tableSize: nat, lockSize: nat)
    requires IsPowerOf4(tableSize) && IsPowerOf4(lockSize)
    ensures (forall h: nat | h < MAX32 :: LockByHash(h, lockSize) == LockByBucket(h, tableSize, lockSize))
            <==> lockSize <= tableSize || tableSize >= MAX32
  {
    assert tableSize > 0 && lockSize > 0;
    hide *;
    if lockSize <= tableSize {
      forall h: nat
        ensures LockByHash(h, lockSize) == LockByBucket(h, tableSize, lockSize)
      {
        FewerLocks(h, tableSize, lockSize);
      }
    } else if tableSize < MAX32 {
      MoreLocks(tableSize, lockSize);
      assert LockByHash(tableSize, lockSize) != LockByBucket(tableSize, tableSize, lockSize);
    } else {
      forall h: nat | h < MAX32
        ensures LockByHash(h, lockSize) == LockByBucket(h, tableSize, lockSize)
      {
        HugeTable(h, tableSize, lockSize);
      }
    }
  }

  lemma FewerLocks(h: nat, tableSize: nat, lockSize: nat)
    requires IsPowerOf4(tableSize) && IsPowerOf4(lockSize) && lockSize <= tableSize
    ensures LockByHash(h, lockSize) == LockByBucket(h, tableSize, lockSize)
  {
    LockIndices(h, tableSize, lockSize);
    hide *;
    PowersOf4Divide(lockSize, tableSize);
    NestedRemainder(h, tableSize, lockSize);
  }

  lemma MoreLocks(tableSize: nat, lockSize: nat)
    requires IsPowerOf4(tableSize) && IsPowerOf4(lockSize) && tableSize < lockSize
    ensures LockByHash(tableSize, lockSize) != LockByBucket(tableSize, tableSize, lockSize)
  {
    LockIndices(tableSize, tableSize, lockSize);
    hide *;
    RemainderUnique(tableSize, tableSize, 1, 0);
    RemainderUnique(0, lockSize, 0, 0);
    RemainderUnique(tableSize, lockSize, 0, tableSize);
  }

  lemma HugeTable(h: nat, tableSize: nat, lockSize: nat)
    requires IsPowerOf4(tableSize) && IsPowerOf4(lockSize) && h < tableSize
    ensures LockByHash(h, lockSize) == LockByBucket(h, tableSize, lockSize)
  {
    LockIndices(h, tableSize, lockSize);
    hide *;
    RemainderUnique(h, tableSize, 0, h);
  }

  lemma LockIndices(h: nat, tableSize: nat, lockSize: nat)
    requires IsPowerOf4(tableSize) && IsPowerOf4(lockSize)
    ensures tableSize > 0 && lockSize > 0
    ensures LockByHash(h, lockSize) == h % lockSize
    ensures LockByBucket(h, tableSize, lockSize) == h % tableSize % lockSize
  {
    PowerOf4IsPowerOf2(tableSize);
    PowerOf4IsPowerOf2(lockSize);
    MaskIsRemainder(h, lockSize);
    MaskIsRemainder(h, tableSize);
    MaskIsRemainder(h % tableSize, lockSize);
  }

  lemma NestedRemainder(h: nat, n: nat, m: nat)
    requires m > 0 && n > 0 && n % m == 0
    ensures h % n % m == h % m
  {
    var a, r, k := h / n, h % n, n / m;
    var b, low := r / m, r % m;
    Divided(h, n);
    Divided(n, m);
    Divided(r, m);
    hide *;
    Nested(h, a, n, r, k, b, low, m);
    RemainderUnique(h, m, a * k + b, low);
  }

  lemma Divided(h: nat, n: nat)
    requires n > 0
    ensures h == h / n * n + h % n && 0 <= h % n < n && h / n >= 0
  {
  }

  lemma Nested(h: nat, a: nat, n: nat, r: nat, k: nat, b: nat, low: nat, m: nat)
    requires h == a * n + r && n == k * m && r == b * m + low
    ensures a * k + b >= 0 && h == (a * k + b) * m + low
  {
    Distribute(a, k, b, m);
  }

  lemma Distribute(a: nat, k: nat, b: nat, m: nat)
    ensures (a * k + b) * m == a * (k * m) + b * m
  {
    assert (a * k) * m == a * (k * m);
  }

  // The default transport: a million sockets over 128 requested locks.
  lemma DefaultSizesShareLocks()
    ensures IsPowerOf4(0x4_0000) && IsPowerOf4(0x100)
    ensures forall h: nat | h < MAX32 :: LockByHash(h, 0x100) == LockByBucket(h, 0x4_0000, 0x100)
  {
    assert IsPowerOf4(1);
    hide IsPowerOf4;
    TimesFour(1); TimesFour(0x4); TimesFour(0x10); TimesFour(0x40);
    FourTurns(0x100);
    TimesFour(0x1_0000);
    SameLockIff(0x4_0000, 0x100);
  }
}
