/** The byte buffer every packet and every connection stands on
    (src/comm/databuffer.h): four pointers into one block, here three indices
    into an array, with `_pstart` at index 0 and `_pend` at its length. */
module DataBuffers {
  import opened Bytes

  const MAX_BUFFER_SIZE := 2048
  const FIRST_SIZE := 256

  // `while (len < need) len <<= 1`
  function Doubled(size: nat, need: nat): (r: nat)
    requires size > 0
    ensures r >= size && r >= need
    decreases need - size
  {
    if size < need then Doubled(2 * size, need) else size
  }

  // The size `expand` allocates when it has to reallocate.
  function Regrown(capacity: nat, dataLen: nat, need: nat): (r: nat)
    requires capacity > 0
  {
    Doubled(2 * capacity, dataLen + need)
  }

  // No doubling passes 2^31 while contents and request stay within 2^30, so the
  // source's `int` sizes do not wrap there.
  lemma {:induction false} DoubledFitsInt(size: nat, need: nat)
    requires 0 < size < 0x8000_0000 && need <= 0x4000_0000
    ensures Doubled(size, need) < 0x8000_0000
    decreases need - size
  {
    if size < need {
      DoubledFitsInt(2 * size, need);
    }
  }

  // Doubling overshoots by less than a factor of two.
  lemma {:induction false} DoubledIsTight(size: nat, need: nat)
    requires size > 0
    ensures Doubled(size, need) == size || Doubled(size, need) < 2 * need
    decreases need - size
  {
    if size < need {
      DoubledIsTight(2 * size, need);
    }
  }

  // The size doubled as often as it takes and no more often.
  lemma {:induction false} DoubledMeans(size: nat, need: nat) returns (k: nat)
    requires size > 0
    ensures Doubled(size, need) == size * Pow2(k) && Doubled(size, need) >= need
    ensures k > 0 ==> size * Pow2(k - 1) < need
    decreases need - size
  {
    hide Pow2, Doubled;
    DoubledUnfolds(size, need);
    k := 0;
    if size >= need {
      assert Pow2(0) == 1 by { Twice(size, 0); }
    } else {
      k := DoubledMeans(2 * size, need);
      Twice(size, k);
      if k > 0 { Twice(size, k - 1); } else { Twice(size, 0); }
      k := k + 1;
    }
  }

  lemma DoubledUnfolds(size: nat, need: nat)
    requires size > 0
    ensures Doubled(size, need) == if size < need then Doubled(2 * size, need) else size
  {
  }

  lemma Twice(size: nat, k: nat)
    ensures 2 * size * Pow2(k) == size * Pow2(k + 1) && Pow2(0) == 1
  {
  }

  // A block with `src` copied over it from `at` on.
  function Overwritten(block: seq<byte>, at: nat, src: seq<byte>): (r: seq<byte>)
    requires at + |src| <= |block|
    ensures |r| == |block|
  {
    block[..at] + src + block[at + |src|..]
  }

  // Contents that start at `start` of a block of which the bytes from `at` on are
  // overwritten.
  function Patched(contents: seq<byte>, start: nat, at: nat, src: seq<byte>): (r: seq<byte>)
    ensures |r| == |contents|
  {
    seq(|contents|, k requires 0 <= k < |contents| =>
      if at <= start + k < at + |src| then src[start + k - at] else contents[k])
  }

  lemma PatchedInside(contents: seq<byte>, at: nat, src: seq<byte>)
    requires at + |src| <= |contents|
    ensures Patched(contents, 0, at, src) == contents[..at] + src + contents[at + |src|..]
  {
  }

  lemma AppendInPlace(block: seq<byte>, start: nat, at: nat, src: seq<byte>)
    requires start <= at && at + |src| <= |block|
    ensures Overwritten(block, at, src)[start..at + |src|] == block[start..at] + src
  {
  }

  class DataBuffer {
    var buf: array?<byte>
    var pdata: nat
    var pfree: nat

    ghost predicate Valid()
      reads this, buf
    {
      if buf == null then pdata == 0 && pfree == 0
      else 0 < buf.Length && pdata <= pfree <= buf.Length
    }

    ghost function Repr(): set<object>
      reads this
    {
      if buf == null then {this} else {this, buf}
    }

    // What has been written and not yet read.
    ghost function Contents(): (s: seq<byte>)
      requires Valid()
      reads this, buf
      ensures |s| == pfree - pdata
    {
      if buf == null then [] else buf[pdata..pfree]
    }

    function Capacity(): nat
      reads this
    {
      if buf == null then 0 else buf.Length
    }

    constructor ()
      ensures Valid() && fresh(Repr()) && buf == null && Contents() == []
    {
      buf := null;
      pdata, pfree := 0, 0;
    }

    method GetDataLen() returns (n: nat)
      requires Valid()
      ensures n == |Contents()|
    {
      n := pfree - pdata;
    }

    method GetFreeLen() returns (n: nat)
      requires Valid()
      ensures n == Capacity() - pfree
    {
      n := Capacity() - pfree;
    }

    method Clear()
      requires Valid()
      modifies this
      ensures Valid() && Contents() == [] && buf == old(buf)
    {
      pdata, pfree := 0, 0;
    }

    // getData and getDataLen: the unread bytes as decode sees them.
    method Data() returns (s: seq<byte>)
      requires Valid()
      ensures s == Contents()
    {
      s := [];
      if buf != null {
        s := buf[pdata..pfree];
      }
    }

    // Draining more than there is empties the buffer.
    method DrainData(len: nat)
      requires Valid()
      modifies this
      ensures Valid() && buf == old(buf)
      ensures Contents() == if len < |old(Contents())| then old(Contents())[len..] else []
    {
      if pdata + len >= pfree {
        Clear();
      } else {
        pdata := pdata + len;
      }
    }

    // `chunk` stands for the bytes the socket stored at getFree().
    method PourData(chunk: seq<byte>)
      requires Valid()
      requires |chunk| <= Capacity() - pfree
      modifies Repr()
      ensures Valid() && buf == old(buf)
      ensures Contents() == old(Contents()) + chunk
    {
      if buf != null {
        AppendInPlace(buf[..], pdata, pfree, chunk);
        Store(pfree, chunk);
        assert buf[pdata..pfree + |chunk|] == buf[..][pdata..pfree + |chunk|];
      }
      pfree := pfree + |chunk|;
    }

    // memcpy into the block.
    method Store(at: nat, src: seq<byte>)
      requires buf != null && at + |src| <= buf.Length
      modifies buf
      ensures buf[..] == Overwritten(old(buf[..]), at, src)
    {
      var i := 0;
      while i < |src|
        invariant 0 <= i <= |src|
        invariant buf[at..at + i] == src[..i]
        invariant forall k :: 0 <= k < buf.Length && !(at <= k < at + i) ==> buf[k] == old(buf[k])
      {
        buf[at + i] := src[i];
        i := i + 1;
      }
    }

    // A new block holding just the unread bytes.
    method Reallocate(size: nat)
      requires Valid() && buf != null && |Contents()| <= size && size > 0
      modifies this
      ensures Valid() && fresh(buf) && Contents() == old(Contents())
      ensures buf != null && buf.Length == size && pdata == 0
    {
      ghost var before := Contents();
      var from, dlen, src := pdata, pfree - pdata, buf;
      var newbuf := new byte[size];
      var i := 0;
      while i < dlen
        invariant 0 <= i <= dlen
        invariant fresh(newbuf) && newbuf != src && src[..] == old(buf[..])
        invariant newbuf[..i] == before[..i]
      {
        newbuf[i] := src[from + i];
        i := i + 1;
      }
      buf, pdata, pfree := newbuf, 0, dlen;
    }

    // memmove of the unread bytes to the front of the same block.
    method Compact()
      requires Valid() && buf != null
      modifies this, buf
      ensures Valid() && buf == old(buf) && Contents() == old(Contents()) && pdata == 0
    {
      ghost var before := Contents();
      var dlen := pfree - pdata;
      var i := 0;
      while i < dlen
        invariant 0 <= i <= dlen
        invariant unchanged(this)
        invariant forall k :: 0 <= k < i ==> buf[k] == before[k]
        invariant forall k :: pdata + i <= k < pfree ==> buf[k] == before[k - pdata]
      {
        buf[i] := buf[pdata + i];
        i := i + 1;
      }
      pfree := dlen;
      pdata := 0;
    }

    // Three outcomes: first block, a bigger block, or compaction in place.
    method Expand(need: nat)
      requires Valid()
      modifies Repr()
      ensures Valid() && fresh(Repr() - old(Repr()))
      ensures buf != null && Contents() == old(Contents())
      ensures Capacity() - pfree >= need
      ensures old(Capacity()) - old(pfree) >= need && old(buf) != null ==>
                buf == old(buf) && pdata == old(pdata)
      ensures pdata == old(pdata) || pdata == 0
      ensures Capacity() ==
              if old(buf) == null then Doubled(256, need)
              else if old(Capacity()) - old(pfree) >= need then old(Capacity())
              else if old(Capacity()) - |old(Contents())| < need
                   || (old(Capacity()) - |old(Contents())|) * 4 < |old(Contents())|
              then Doubled(2 * old(Capacity()), |old(Contents())| + need)
              else old(Capacity())
    {
      if buf == null {
        var len := FIRST_SIZE;
        while len < need
          invariant len > 0 && Doubled(len, need) == Doubled(FIRST_SIZE, need)
        {
          len := 2 * len;
        }
        buf := new byte[len];
        pdata, pfree := 0, 0;
      } else if buf.Length - pfree < need {
        var flen, dlen := buf.Length - pfree + pdata, pfree - pdata;
        if flen < need || flen * 4 < dlen {
          var bufsize := buf.Length * 2;
          while bufsize - dlen < need
            invariant bufsize >= dlen && bufsize > 0
            invariant Doubled(bufsize, dlen + need) == Regrown(buf.Length, dlen, need)
            decreases need + dlen - bufsize
          {
            bufsize := 2 * bufsize;
          }
          Reallocate(bufsize);
        } else {
          Compact();
        }
      }
    }

    method Shrink()
      requires Valid()
      modifies this
      ensures Valid() && fresh(Repr() - old(Repr()))
      ensures Contents() == old(Contents())
      ensures Capacity() == if old(Capacity()) > 2048 && |old(Contents())| <= 2048 then 2048 else old(Capacity())
    {
      if buf == null { return; }
      if buf.Length <= MAX_BUFFER_SIZE || pfree - pdata > MAX_BUFFER_SIZE { return; }
      Reallocate(MAX_BUFFER_SIZE);
    }

    method WriteBytes(src: seq<byte>)
      requires Valid()
      modifies Repr()
      ensures Valid() && fresh(Repr() - old(Repr()))
      ensures Contents() == old(Contents()) + src
      ensures pdata == old(pdata) || pdata == 0
    {
      Expand(|src|);
      AppendInPlace(buf[..], pdata, pfree, src);
      Store(pfree, src);
      pfree := pfree + |src|;
      assert Contents() == buf[..][pdata..pfree];
    }

    method WriteInt8(n: byte)
      requires Valid()
      modifies Repr()
      ensures Valid() && fresh(Repr() - old(Repr()))
      ensures Contents() == old(Contents()) + BigEndian(n, 1)
      ensures pdata == old(pdata) || pdata == 0
    {
      assert BigEndian(n, 1) == [n];
      WriteInt(n, 1);
    }

    method WriteInt16(n: uint16)
      requires Valid()
      modifies Repr()
      ensures Valid() && fresh(Repr() - old(Repr()))
      ensures Contents() == old(Contents()) + BigEndian(n, 2)
      ensures pdata == old(pdata) || pdata == 0
    {
      WriteInt(n, 2);
    }

    method WriteInt32(n: uint32)
      requires Valid()
      modifies Repr()
      ensures Valid() && fresh(Repr() - old(Repr()))
      ensures Contents() == old(Contents()) + BigEndian(n, 4)
      ensures pdata == old(pdata) || pdata == 0
    {
      WriteInt(n, 4);
    }

    method WriteInt(n: nat, width: nat)
      requires Valid()
      modifies Repr()
      ensures Valid() && fresh(Repr() - old(Repr()))
      ensures Contents() == old(Contents()) + BigEndian(n, width)
      ensures pdata == old(pdata) || pdata == 0
    {
      Expand(width);
      ghost var src := BigEndian(n, width);
      AppendInPlace(buf[..], pdata, pfree, src);
      StoreInt(pfree, n, width);
      pfree := pfree + width;
      assert Contents() == buf[..][pdata..pfree];
    }

    // The unrolled stores of writeInt16/32/64 and fillInt32: last byte first.
    method StoreInt(at: nat, n: nat, width: nat)
      requires buf != null && at + width <= buf.Length
      modifies buf
      ensures buf[..] == Overwritten(old(buf[..]), at, BigEndian(n, width))
    {
      var rest: nat, k: nat := n, width;
      ghost var done: seq<byte> := [];
      while k > 0
        invariant 0 <= k <= width && |done| == width - k
        invariant buf[at + k..at + width] == done
        invariant BigEndian(rest, k) + done == BigEndian(n, width)
        invariant forall i :: 0 <= i < buf.Length && !(at <= i < at + width) ==> buf[i] == old(buf[i])
      {
        k := k - 1;
        buf[at + k] := rest % 256;
        assert BigEndian(rest, k + 1) + done == BigEndian(rest / 256, k) + ([rest % 256] + done);
        done := [rest % 256] + done;
        rest := rest / 256;
      }
    }

    // fill_int32: overwrites four bytes counted from the start of the block.
    method FillInt32(n: uint32, offset: nat)
      requires Valid() && buf != null && offset + 4 <= buf.Length
      modifies buf
      ensures Valid()
      ensures Contents() == Patched(old(Contents()), pdata, offset, BigEndian(n, 4))
    {
      hide BigEndian;
      ghost var was, block, src := Contents(), buf[..], BigEndian(n, 4);
      StoreInt(offset, n, 4);
      assert Contents() == buf[..][pdata..pfree];
      assert Overwritten(block, offset, src)[pdata..pfree] == Patched(was, pdata, offset, src);
    }

    // The checked reads: nothing happens when too few bytes are left.
    method ReadInt(width: nat) returns (ok: bool, n: nat)
      requires Valid()
      modifies this
      ensures Valid() && buf == old(buf)
      ensures ok == (|old(Contents())| >= width)
      ensures ok ==> n == FromBigEndian(old(Contents())[..width]) && Contents() == old(Contents())[width..]
      ensures !ok ==> n == 0 && Contents() == old(Contents())
    {
      if pdata + width > pfree { return false, 0; }
      ghost var was := Contents();
      n := 0;
      var i := 0;
      while i < width
        invariant 0 <= i <= width
        invariant n == FromBigEndian(was[..i])
      {
        assert was[..i + 1][..i] == was[..i];
        n := n * 256 + buf[pdata + i];
        i := i + 1;
      }
      pdata := pdata + width;
      ok := true;
    }

    method ReadBytes(len: nat) returns (ok: bool, dst: seq<byte>)
      requires Valid()
      modifies this
      ensures Valid() && buf == old(buf)
      ensures ok == (|old(Contents())| >= len)
      ensures ok ==> dst == old(Contents())[..len] && Contents() == old(Contents())[len..]
      ensures !ok ==> dst == [] && Contents() == old(Contents())
    {
      if pdata + len > pfree { return false, []; }
      ok, dst := true, [];
      if buf != null {
        dst := buf[pdata..pdata + len];
      }
      pdata := pdata + len;
    }
  }
}
