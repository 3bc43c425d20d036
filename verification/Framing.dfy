/** Cutting the byte stream of one connection into packets (src/pack/tprotocol.cpp)
    for the text, comm and ctfo protocols, and the read / pour / decode / drain
    iteration of the connection that feeds them (src/net/tcpcomponent.cpp). */
module Framing {
  import opened Bytes
  import opened DataBuffers

  const PACKET_MAX_SIZE := 10240
  const MSG_VERSION := 1
  const COMM_HEADER := 12
  const CTFO_HEADER := 9

  const SP: byte := 0x20
  const CR: byte := 0x0d
  const LF: byte := 0x0a

  datatype Protocol = Text | Comm | Ctfo

  // What decode_pack returns: a packet, or none; `used` is its decode_len.
  datatype Cut = Frame(pack: seq<byte>, used: nat) | NoFrame(used: nat)

  // ---------------------------------------------------------------- text

  predicate LineEnd(d: seq<byte>, i: nat) {
    i + 1 < |d| && d[i] == CR && d[i + 1] == LF
  }

  // Blank lines in front are skipped; the first other line end closes the packet.
  function CutLine(d: seq<byte>, start: nat, at: nat): (r: Cut)
    requires start <= at <= |d|
    ensures r.Frame? ==> start < r.used <= |d|
    decreases |d| - at
  {
    if at + 1 >= |d| then NoFrame(start)
    else if !LineEnd(d, at) then CutLine(d, start, at + 1)
    else if at == start then CutLine(d, at + 2, at + 2)
    else Frame(d[start..at + 2], at + 2)
  }

  // Where the leading blank lines end.
  function SkipBlank(d: seq<byte>, at: nat): (r: nat)
    requires at <= |d|
    ensures at <= r <= |d|
    decreases |d| - at
  {
    if LineEnd(d, at) then SkipBlank(d, at + 2) else at
  }

  // A packet of the text protocol: more than a line end, and closed by its only one.
  predicate IsLine(s: seq<byte>) {
    |s| > 2 && LineEnd(s, |s| - 2) && forall i :: 0 <= i < |s| - 2 ==> !LineEnd(s, i)
  }

  predicate HasNoLineEnd(s: seq<byte>) {
    forall i :: 0 <= i < |s| ==> !LineEnd(s, i)
  }

  // ------------------------------------------------- length in the header

  function HeaderSize(p: Protocol): nat {
    if p.Comm? then COMM_HEADER else CTFO_HEADER
  }

  function Xor8(a: byte, b: byte): byte {
    ((a as bv8) ^ (b as bv8)) as int
  }

  function CheckSum(s: seq<byte>): byte {
    if s == [] then 0 else Xor8(CheckSum(s[..|s| - 1]), s[|s| - 1])
  }

  // CTFO_TAG 0x1adf5fed as a little-endian machine stores it.
  const CTFO_TAG: seq<byte> := [0xed, 0x5f, 0xdf, 0x1a]

  function BodyLen(p: Protocol, h: seq<byte>): nat
    requires |h| == HeaderSize(p)
  {
    if p.Comm? then FromBigEndian(h[8..12]) else FromBigEndian(h[4..8])
  }

  predicate HeaderOk(p: Protocol, h: seq<byte>)
    requires |h| == HeaderSize(p)
  {
    if p.Comm? then FromBigEndian(h[..2]) == MSG_VERSION && BodyLen(p, h) < MAX_PACK_LEN
    else h[..4] == CTFO_TAG && h[8] == CheckSum(h[..8])
  }

  predicate HeaderAt(p: Protocol, d: seq<byte>, i: nat) {
    i + HeaderSize(p) <= |d| && HeaderOk(p, d[i..i + HeaderSize(p)])
  }

  // The first acceptable header that still has a byte behind it, or the last place.
  function Seek(p: Protocol, d: seq<byte>, at: nat): (r: nat)
    requires at + HeaderSize(p) <= |d|
    ensures at <= r && r + HeaderSize(p) <= |d|
    decreases |d| - at
  {
    if at + HeaderSize(p) < |d| && !HeaderAt(p, d, at) then Seek(p, d, at + 1)
    else at
  }

  // Seek stops at the first acceptable header, and passes none.
  lemma {:induction false} SeekIsFirst(p: Protocol, d: seq<byte>, at: nat)
    requires at + HeaderSize(p) <= |d|
    ensures Seek(p, d, at) + HeaderSize(p) < |d| ==> HeaderAt(p, d, Seek(p, d, at))
    ensures forall i :: at <= i < Seek(p, d, at) ==> !HeaderAt(p, d, i)
    decreases |d| - at
  {
    hide HeaderAt, HeaderSize;
    if at + HeaderSize(p) < |d| && !HeaderAt(p, d, at) {
      SeekIsFirst(p, d, at + 1);
    }
  }

  // The packet whose header is at `at`, if all of it has arrived.
  function CutAt(p: Protocol, d: seq<byte>, at: nat): (r: Cut)
    requires at + HeaderSize(p) <= |d|
    ensures r.Frame? ==> 0 < r.used <= |d|
  {
    if at + HeaderSize(p) == |d| then NoFrame(at)
    else
      var size := HeaderSize(p) + BodyLen(p, d[at..at + HeaderSize(p)]);
      if |d| - at < size then NoFrame(at) else Frame(d[at..at + size], at + size)
  }

  function CutSized(p: Protocol, d: seq<byte>): (r: Cut)
    ensures r.Frame? ==> 0 < r.used <= |d|
  {
    if |d| < HeaderSize(p) then NoFrame(0) else CutAt(p, d, Seek(p, d, 0))
  }

  // ------------------------------------------------------------ decoding

  function DecodePack(p: Protocol, d: seq<byte>): (r: Cut)
    ensures r.Frame? ==> 0 < r.used <= |d|
  {
    if p.Text? then CutLine(d, 0, 0) else CutSized(p, d)
  }

  datatype Decoded = Decoded(packs: seq<seq<byte>>, rest: seq<byte>)

  // Packets are taken off the front until decode_pack finds none; what the last
  // call skipped stays in the rest.
  function Decode(p: Protocol, d: seq<byte>): (r: Decoded)
    decreases |d|
  {
    match DecodePack(p, d)
    case NoFrame(_) => Decoded([], d)
    case Frame(pack, used) =>
      var r := Decode(p, d[used..]);
      Decoded([pack] + r.packs, r.rest)
  }

  // One chunk after another through pour, decode and drain.
  function Fed(p: Protocol, pending: seq<byte>, chunks: seq<seq<byte>>): (r: Decoded)
    decreases |chunks|
  {
    if chunks == [] then Decoded([], pending)
    else
      var now := Decode(p, pending + chunks[0]);
      var later := Fed(p, now.rest, chunks[1..]);
      Decoded(now.packs + later.packs, later.rest)
  }

  // ----------------------------------------- more bytes change no packet

  lemma {:induction false} CutLineStable(a: seq<byte>, b: seq<byte>, start: nat, at: nat)
    requires start <= at <= |a| && CutLine(a, start, at).Frame?
    ensures CutLine(a + b, start, at) == CutLine(a, start, at)
    decreases |a| - at
  {
    assert LineEnd(a + b, at) == LineEnd(a, at);
    if !LineEnd(a, at) {
      CutLineStable(a, b, start, at + 1);
    } else if at == start {
      CutLineStable(a, b, at + 2, at + 2);
    } else {
      assert (a + b)[start..at + 2] == a[start..at + 2];
    }
  }

  lemma {:induction false} SeekStable(p: Protocol, a: seq<byte>, b: seq<byte>, at: nat)
    requires at + HeaderSize(p) <= |a| && Seek(p, a, at) + HeaderSize(p) < |a|
    ensures Seek(p, a + b, at) == Seek(p, a, at)
    decreases |a| - at
  {
    assert (a + b)[at..at + HeaderSize(p)] == a[at..at + HeaderSize(p)];
    if !HeaderAt(p, a, at) {
      SeekStable(p, a, b, at + 1);
    }
  }

  lemma CutAtStable(p: Protocol, a: seq<byte>, b: seq<byte>, at: nat)
    requires at + HeaderSize(p) <= |a| && CutAt(p, a, at).Frame?
    ensures CutAt(p, a + b, at) == CutAt(p, a, at)
  {
    hide BodyLen, HeaderSize;
    assert (a + b)[at..at + HeaderSize(p)] == a[at..at + HeaderSize(p)];
    var used := CutAt(p, a, at).used;
    assert (a + b)[at..used] == a[at..used];
  }

  lemma CutSizedStable(p: Protocol, a: seq<byte>, b: seq<byte>)
    requires CutSized(p, a).Frame?
    ensures CutSized(p, a + b) == CutSized(p, a)
  {
    hide Seek, HeaderOk, BodyLen, HeaderSize;
    SeekStable(p, a, b, 0);
    CutAtStable(p, a, b, Seek(p, a, 0));
  }

  lemma PackStable(p: Protocol, a: seq<byte>, b: seq<byte>)
    requires DecodePack(p, a).Frame?
    ensures DecodePack(p, a + b) == DecodePack(p, a)
  {
    hide CutLine, CutSized;
    if p.Text? {
      CutLineStable(a, b, 0, 0);
    } else {
      CutSizedStable(p, a, b);
    }
  }

  // Decoding may stop after any prefix and go on with the unconsumed tail.
  lemma {:induction false} DecodeSplit(p: Protocol, a: seq<byte>, b: seq<byte>)
    ensures Decode(p, a + b)
         == Decoded(Decode(p, a).packs + Decode(p, Decode(p, a).rest + b).packs,
                    Decode(p, Decode(p, a).rest + b).rest)
    decreases |a|
  {
    hide DecodePack;
    match DecodePack(p, a)
    case NoFrame(_) =>
    case Frame(pack, used) =>
      PackStable(p, a, b);
      assert (a + b)[used..] == a[used..] + b;
      DecodeSplit(p, a[used..], b);
      var r := Decode(p, a[used..]);
      var s := Decode(p, r.rest + b);
      assert [pack] + (r.packs + s.packs) == [pack] + r.packs + s.packs;
  }

  // What is left over holds no packet.
  lemma {:induction false} RestIsIdle(p: Protocol, d: seq<byte>)
    ensures Decode(p, Decode(p, d).rest) == Decoded([], Decode(p, d).rest)
    decreases |d|
  {
    hide DecodePack;
    if DecodePack(p, d).Frame? {
      RestIsIdle(p, d[DecodePack(p, d).used..]);
    }
  }

  // Any chunking of a stream gives the packets of the whole stream.
  lemma {:induction false} AnyChunking(p: Protocol, pending: seq<byte>, chunks: seq<seq<byte>>)
    requires Decode(p, pending).packs == []
    ensures Fed(p, pending, chunks) == Decode(p, pending + Flatten(chunks))
    decreases |chunks|
  {
    hide DecodePack;
    if chunks == [] {
      assert pending + Flatten(chunks) == pending;
    } else {
      var now := Decode(p, pending + chunks[0]);
      RestIsIdle(p, pending + chunks[0]);
      AnyChunking(p, now.rest, chunks[1..]);
      DecodeSplit(p, pending + chunks[0], Flatten(chunks[1..]));
      assert pending + Flatten(chunks) == pending + chunks[0] + Flatten(chunks[1..]);
    }
  }

  // ------------------------------------------------- what a packet looks like

  // A packet is the text from behind the leading blank lines through the first
  // line end there; there is none exactly when no line end follows them.
  lemma LineMeaning(d: seq<byte>)
    ensures var r, from := CutLine(d, 0, 0), SkipBlank(d, 0);
            if r.Frame? then from < r.used && r.pack == d[from..r.used] && IsLine(r.pack)
            else r.used == from && HasNoLineEnd(d[from..])
  {
    hide IsLine, HasNoLineEnd;
    LineMeaningFrom(d, 0, 0);
  }

  lemma {:induction false} LineMeaningFrom(d: seq<byte>, start: nat, at: nat)
    requires start <= at <= |d| && NoEndBetween(d, start, at)
    ensures var r, from := CutLine(d, start, at), if at == start then SkipBlank(d, at) else start;
            if r.Frame? then from < r.used && r.pack == d[from..r.used] && IsLine(r.pack)
            else r.used == from && HasNoLineEnd(d[from..])
    decreases |d| - at
  {
    hide IsLine, HasNoLineEnd, NoEndBetween;
    if at + 1 >= |d| {
      NoEndAtAll(d, start, at);
    } else if !LineEnd(d, at) {
      NoEndSoFar(d, start, at);
      LineMeaningFrom(d, start, at + 1);
    } else if at == start {
      NoEndYet(d, at + 2);
      LineMeaningFrom(d, at + 2, at + 2);
    } else {
      OneLine(d, start, at);
    }
  }

  predicate NoEndBetween(d: seq<byte>, start: nat, at: nat) {
    forall i :: start <= i < at ==> !LineEnd(d, i)
  }

  lemma NoEndAtAll(d: seq<byte>, start: nat, at: nat)
    requires start <= at <= |d| <= at + 1 && NoEndBetween(d, start, at)
    ensures HasNoLineEnd(d[start..])
  {
    forall i | 0 <= i < |d| - start ensures !LineEnd(d[start..], i) {
      assert start + i < at ==> !LineEnd(d, start + i);
    }
  }

  lemma NoEndSoFar(d: seq<byte>, start: nat, at: nat)
    requires NoEndBetween(d, start, at) && !LineEnd(d, at)
    ensures NoEndBetween(d, start, at + 1)
  {
  }

  lemma NoEndYet(d: seq<byte>, at: nat)
    ensures NoEndBetween(d, at, at)
  {
  }

  lemma OneLine(d: seq<byte>, start: nat, at: nat)
    requires start < at && LineEnd(d, at) && NoEndBetween(d, start, at)
    ensures IsLine(d[start..at + 2])
  {
    var pack := d[start..at + 2];
    forall i | 0 <= i < |pack| - 2 ensures !LineEnd(pack, i) {
      assert !LineEnd(d, start + i);
    }
  }

  // Every packet the text protocol delivers is one line.
  lemma {:induction false} OnlyLines(d: seq<byte>)
    ensures forall k :: 0 <= k < |Decode(Text, d).packs| ==> IsLine(Decode(Text, d).packs[k])
    decreases |d|
  {
    hide CutLine, IsLine;
    match DecodePack(Text, d)
    case NoFrame(_) =>
    case Frame(pack, used) =>
      LineMeaning(d);
      OnlyLines(d[used..]);
  }

  // ------------------------------------------------- the same, byte by byte

  // Four bytes, most significant first.
  function Word(d: seq<byte>, i: nat): nat
    requires i + 4 <= |d|
  {
    d[i] as int * 0x100_0000 + d[i + 1] as int * 0x1_0000 + d[i + 2] as int * 0x100 + d[i + 3]
  }

  // Version 1 in the first two bytes, and a body length below 4096 in the last four.
  predicate CommHeader(d: seq<byte>, i: nat) {
    i + 12 <= |d| && d[i] == 0 && d[i + 1] == 1 && Word(d, i + 8) < 4096
  }

  // The tag, the body length, and the exclusive or of these eight bytes.
  predicate CtfoHeader(d: seq<byte>, i: nat) {
    && i + 9 <= |d| && d[i] == 0xed && d[i + 1] == 0x5f && d[i + 2] == 0xdf && d[i + 3] == 0x1a
    && d[i + 8] == Xor8(Xor8(Xor8(Xor8(Xor8(Xor8(Xor8(d[i], d[i + 1]), d[i + 2]), d[i + 3]), d[i + 4]), d[i + 5]), d[i + 6]), d[i + 7])
  }

  // A comm packet is the first header and the body it announces; the scan stops there,
  // and never passes a header.
  ghost predicate CommCut(d: seq<byte>, r: Cut) {
    match r
    case Frame(pack, used) =>
      |pack| <= used <= |d|
      && (var i := used - |pack|;
          CommHeader(d, i) && |pack| == 12 + Word(d, i + 8) && pack == d[i..used]
          && forall j :: 0 <= j < i ==> !CommHeader(d, j))
    case NoFrame(i) =>
      (forall j :: 0 <= j < i ==> !CommHeader(d, j))
      && (if |d| < 12 then i == 0
          else i == |d| - 12 || (CommHeader(d, i) && |d| - i < 12 + Word(d, i + 8)))
  }

  ghost predicate CtfoCut(d: seq<byte>, r: Cut) {
    match r
    case Frame(pack, used) =>
      |pack| <= used <= |d|
      && (var i := used - |pack|;
          CtfoHeader(d, i) && |pack| == 9 + Word(d, i + 4) && pack == d[i..used]
          && forall j :: 0 <= j < i ==> !CtfoHeader(d, j))
    case NoFrame(i) =>
      (forall j :: 0 <= j < i ==> !CtfoHeader(d, j))
      && (if |d| < 9 then i == 0
          else i == |d| - 9 || (CtfoHeader(d, i) && |d| - i < 9 + Word(d, i + 4)))
  }

  lemma WordMeans(s: seq<byte>)
    requires |s| == 4
    ensures FromBigEndian(s) == Word(s, 0)
  {
    PairMeans(s[..2]);
    assert s[..3][..2] == s[..2] && s[..3][2] == s[2];
    FromUnfolds(s);
    FromUnfolds(s[..3]);
  }

  lemma PairMeans(s: seq<byte>)
    requires |s| == 2
    ensures FromBigEndian(s) == s[0] as int * 0x100 + s[1]
  {
    FromUnfolds(s);
    FromUnfolds(s[..1]);
    FromUnfolds(s[..1][..0]);
  }

  lemma FromUnfolds(s: seq<byte>)
    ensures FromBigEndian(s) == if s == [] then 0 else FromBigEndian(s[..|s| - 1]) * 256 + s[|s| - 1]
  {
  }

  lemma SumUnfolds(s: seq<byte>)
    requires s != []
    ensures CheckSum(s) == Xor8(CheckSum(s[..|s| - 1]), s[|s| - 1])
  {
    hide Xor8;
  }

  lemma SumOfTwo(s: seq<byte>)
    requires |s| == 2
    ensures CheckSum(s) == Xor8(s[0], s[1])
  {
    hide CheckSum;
    assert s[..1][..0] == [];
    SumUnfolds(s);
    SumUnfolds(s[..1]);
    SumOfNone();
    XorNothing(s[0]);
  }

  lemma XorNothing(a: byte)
    ensures Xor8(0, a) == a
  {
  }

  lemma SumOfNone()
    ensures CheckSum([]) == 0
  {
  }

  lemma FrontOf(s: seq<byte>, k: nat)
    requires k < |s|
    ensures s[..k + 1][..k] == s[..k] && s[..k + 1][k] == s[k]
  {
  }

  lemma SumOfEight(s: seq<byte>)
    requires |s| == 8
    ensures CheckSum(s) == Xor8(Xor8(Xor8(Xor8(Xor8(Xor8(Xor8(s[0], s[1]), s[2]), s[3]), s[4]), s[5]), s[6]), s[7])
  {
    hide CheckSum, Xor8;
    FrontOf(s, 6);
    FrontOf(s, 5);
    FrontOf(s, 4);
    FrontOf(s, 3);
    FrontOf(s, 2);
    SumUnfolds(s);
    SumUnfolds(s[..7]);
    SumUnfolds(s[..6]);
    SumUnfolds(s[..5]);
    SumUnfolds(s[..4]);
    SumUnfolds(s[..3]);
    SumOfTwo(s[..2]);
  }

  // The exclusive or itself, bit by bit.
  lemma XorIs(a: byte, b: byte)
    ensures Xor8(a, b) as bv8 == a as bv8 ^ b as bv8
  {
  }

  lemma HeaderMeans(d: seq<byte>, i: nat)
    ensures HeaderAt(Comm, d, i) <==> CommHeader(d, i)
    ensures HeaderAt(Ctfo, d, i) <==> CtfoHeader(d, i)
    ensures i + 12 <= |d| ==> BodyLen(Comm, d[i..i + 12]) == Word(d, i + 8)
    ensures i + 9 <= |d| ==> BodyLen(Ctfo, d[i..i + 9]) == Word(d, i + 4)
  {
    hide FromBigEndian, CheckSum;
    if i + 12 <= |d| { CommHeaderMeans(d, i, d[i..i + 12]); }
    if i + 9 <= |d| { CtfoHeaderMeans(d, i, d[i..i + 9]); }
  }

  lemma CommHeaderMeans(d: seq<byte>, i: nat, h: seq<byte>)
    requires i + 12 <= |d| && h == d[i..i + 12]
    ensures HeaderOk(Comm, h) <==> CommHeader(d, i)
    ensures BodyLen(Comm, h) == Word(d, i + 8)
  {
    hide FromBigEndian;
    PairMeans(h[..2]);
    WordMeans(h[8..12]);
    WordMoves(h, h[8..12], 8);
    assert forall k :: 0 <= k < 12 ==> h[k] == d[i + k];
  }

  lemma WordMoves(d: seq<byte>, s: seq<byte>, i: nat)
    requires i + 4 <= |d| && s == d[i..i + 4]
    ensures Word(s, 0) == Word(d, i)
  {
    assert s[0] == d[i] && s[1] == d[i + 1] && s[2] == d[i + 2] && s[3] == d[i + 3];
  }

  lemma CtfoHeaderMeans(d: seq<byte>, i: nat, h: seq<byte>)
    requires i + 9 <= |d| && h == d[i..i + 9]
    ensures HeaderOk(Ctfo, h) <==> CtfoHeader(d, i)
    ensures BodyLen(Ctfo, h) == Word(d, i + 4)
  {
    hide FromBigEndian, CheckSum, Xor8;
    SumOfEight(h[..8]);
    WordMeans(h[4..8]);
    TagMeans(h);
    assert h[0] == d[i] && h[1] == d[i + 1] && h[2] == d[i + 2] && h[3] == d[i + 3] && h[4] == d[i + 4];
    assert h[5] == d[i + 5] && h[6] == d[i + 6] && h[7] == d[i + 7] && h[8] == d[i + 8];
  }

  lemma TagMeans(h: seq<byte>)
    requires |h| == 9
    ensures h[..4] == CTFO_TAG <==> h[0] == 0xed && h[1] == 0x5f && h[2] == 0xdf && h[3] == 0x1a
  {
    if h[..4] == CTFO_TAG {
      assert h[0] == CTFO_TAG[0] && h[1] == CTFO_TAG[1] && h[2] == CTFO_TAG[2] && h[3] == CTFO_TAG[3];
    }
  }

  // What decode_pack finds, whichever of the two header protocols.
  lemma PackMeans(p: Protocol, d: seq<byte>)
    requires !p.Text?
    ensures var r, size := DecodePack(p, d), HeaderSize(p);
            match r
            case Frame(pack, used) =>
              |pack| <= used <= |d|
              && (var i := used - |pack|;
                  i + size <= |d| && HeaderAt(p, d, i) && |pack| == size + BodyLen(p, d[i..i + size]) && pack == d[i..used]
                  && forall j :: 0 <= j < i ==> !HeaderAt(p, d, j))
            case NoFrame(i) =>
              (forall j :: 0 <= j < i ==> !HeaderAt(p, d, j))
              && (if |d| < size then i == 0
                  else i + size <= |d|
                       && (i + size == |d| || (HeaderAt(p, d, i) && |d| - i < size + BodyLen(p, d[i..i + size]))))
  {
    hide HeaderOk, BodyLen, HeaderSize, HeaderAt, Seek;
    if |d| >= HeaderSize(p) { SeekIsFirst(p, d, 0); }
  }

  lemma CommPackMeans(d: seq<byte>)
    ensures CommCut(d, DecodePack(Comm, d))
  {
    hide DecodePack, HeaderAt, BodyLen, CommHeader, Word;
    PackMeans(Comm, d);
    forall j: nat
      ensures HeaderAt(Comm, d, j) <==> CommHeader(d, j)
      ensures j + 12 <= |d| ==> BodyLen(Comm, d[j..j + 12]) == Word(d, j + 8)
    {
      HeaderMeans(d, j);
    }
  }

  lemma CtfoPackMeans(d: seq<byte>)
    ensures CtfoCut(d, DecodePack(Ctfo, d))
  {
    hide DecodePack, HeaderAt, BodyLen, CtfoHeader, Word;
    PackMeans(Ctfo, d);
    forall j: nat
      ensures HeaderAt(Ctfo, d, j) <==> CtfoHeader(d, j)
      ensures j + 9 <= |d| ==> BodyLen(Ctfo, d[j..j + 9]) == Word(d, j + 4)
    {
      HeaderMeans(d, j);
    }
  }

  // Every packet the comm protocol delivers, from any bytes: version 1, and as long
  // as its header says.
  lemma {:induction false} CommPackets(d: seq<byte>)
    ensures forall k :: 0 <= k < |Decode(Comm, d).packs| ==>
              var m := Decode(Comm, d).packs[k];
              |m| >= 12 && m[0] == 0 && m[1] == 1 && Word(m, 8) < 4096 && |m| == 12 + Word(m, 8)
    decreases |d|
  {
    hide DecodePack, Word;
    match DecodePack(Comm, d)
    case NoFrame(_) =>
    case Frame(pack, used) =>
      CommPackMeans(d);
      SliceHeader(d, used - |pack|, pack);
      CommPackets(d[used..]);
  }

  lemma {:induction false} CtfoPackets(d: seq<byte>)
    ensures forall k :: 0 <= k < |Decode(Ctfo, d).packs| ==>
              var m := Decode(Ctfo, d).packs[k]; CtfoHeader(m, 0) && |m| == 9 + Word(m, 4)
    decreases |d|
  {
    hide DecodePack, Word, CtfoHeader;
    match DecodePack(Ctfo, d)
    case NoFrame(_) =>
    case Frame(pack, used) =>
      CtfoPackMeans(d);
      SliceHeader(d, used - |pack|, pack);
      CtfoPackets(d[used..]);
  }

  lemma SliceHeader(d: seq<byte>, i: nat, m: seq<byte>)
    requires i + |m| <= |d| && m == d[i..i + |m|]
    ensures |m| >= 12 && CommHeader(d, i) ==> CommHeader(m, 0) && Word(m, 8) == Word(d, i + 8)
    ensures |m| >= 9 && CtfoHeader(d, i) ==> CtfoHeader(m, 0) && Word(m, 4) == Word(d, i + 4)
  {
    hide Xor8;
    if |m| >= 9 {
      assert m[0] == d[i] && m[1] == d[i + 1] && m[2] == d[i + 2] && m[3] == d[i + 3] && m[4] == d[i + 4];
      assert m[5] == d[i + 5] && m[6] == d[i + 6] && m[7] == d[i + 7] && m[8] == d[i + 8];
    }
    if |m| >= 12 {
      assert m[9] == d[i + 9] && m[10] == d[i + 10] && m[11] == d[i + 11];
    }
  }

  // ... and the text protocol's, by its bytes: blank lines 13, 10 in front, then a
  // line through its first 13, 10.
  ghost predicate TextCut(d: seq<byte>, r: Cut) {
    var from := if r.Frame? then r.used - |r.pack| else r.used;
    && 0 <= from <= |d| && r.used <= |d| && from % 2 == 0
    && (forall k :: 0 <= k < from ==> d[k] == if k % 2 == 0 then 13 else 10)
    && match r
       case Frame(pack, used) =>
         |pack| > 2 && pack == d[from..used] && d[used - 2] == 13 && d[used - 1] == 10
         && forall k :: from <= k < used - 2 ==> !(d[k] == 13 && d[k + 1] == 10)
       case NoFrame(_) => forall k :: from <= k < |d| - 1 ==> !(d[k] == 13 && d[k + 1] == 10)
  }

  lemma TextPackMeans(d: seq<byte>)
    ensures TextCut(d, DecodePack(Text, d))
  {
    hide CutLine, SkipBlank;
    LineMeaning(d);
    BlanksMean(d, 0);
    var r, from := CutLine(d, 0, 0), SkipBlank(d, 0);
    match r
    case Frame(pack, used) =>
      assert forall k :: 0 <= k < |pack| ==> pack[k] == d[from + k];
      forall k | from <= k < used - 2 ensures !(d[k] == 13 && d[k + 1] == 10) {
        assert !LineEnd(pack, k - from);
      }
    case NoFrame(_) =>
      forall k | from <= k < |d| - 1 ensures !(d[k] == 13 && d[k + 1] == 10) {
        assert !LineEnd(d[from..], k - from);
      }
  }

  lemma {:induction false} BlanksMean(d: seq<byte>, at: nat)
    requires at <= |d| && at % 2 == 0
    ensures var r := SkipBlank(d, at);
            r % 2 == 0 && forall k :: at <= k < r ==> d[k] == if k % 2 == 0 then 13 else 10
    decreases |d| - at
  {
    if LineEnd(d, at) { BlanksMean(d, at + 2); }
  }

  // -------------------------------------------------------------- encoding

  function EncodeText(data: seq<byte>): Option<seq<byte>> {
    if |data| == 0 || |data| > MAX_PACK_LEN then None else Some(data + [SP, CR, LF])
  }

  // CTFOHEADER(len) in front of the data; empty data is allowed.
  function EncodeCtfo(data: seq<byte>): Option<seq<byte>> {
    if |data| > PACKET_MAX_SIZE then None
    else
      var head := CTFO_TAG + BigEndian(|data|, 4);
      Some(head + [CheckSum(head)] + data)
  }

  function EncodeComm(data: seq<byte>): Option<seq<byte>> {
    if |data| > MAX_PACK_LEN then None else Some(data)
  }

  // A packet whose header is acceptable and announces exactly the body behind it.
  predicate Whole(p: Protocol, m: seq<byte>) {
    |m| >= HeaderSize(p) && HeaderOk(p, m[..HeaderSize(p)])
    && |m| == HeaderSize(p) + BodyLen(p, m[..HeaderSize(p)])
  }

  // The encoders in bytes: a text gets space, 13, 10 behind it; ctfo data gets the tag,
  // its length and the exclusive or of these in front; comm data is sent as it is.
  lemma EncodersMean(data: seq<byte>)
    ensures EncodeText(data) == if 1 <= |data| <= 4096 then Some(data + [0x20, 13, 10]) else None
    ensures EncodeComm(data) == if |data| <= 4096 then Some(data) else None
    ensures EncodeCtfo(data).Some? <==> |data| <= 10240
    ensures |data| <= 10240 ==>
              var m := EncodeCtfo(data).value;
              |m| == 9 + |data| && CtfoHeader(m, 0) && Word(m, 4) == |data| && m[9..] == data
  {
    hide BigEndian, CheckSum, FromBigEndian, Pow256;
    if |data| <= PACKET_MAX_SIZE {
      CtfoIsWhole(data);
      var m := EncodeCtfo(data).value;
      assert m[..9] == m[0..9];
      CtfoHeaderMeans(m, 0, m[0..9]);
    }
  }

  lemma CtfoIsWhole(data: seq<byte>)
    requires EncodeCtfo(data).Some?
    ensures Whole(Ctfo, EncodeCtfo(data).value)
    ensures EncodeCtfo(data).value[CTFO_HEADER..] == data
  {
    hide CheckSum, BigEndian, FromBigEndian, Pow256;
    var len := BigEndian(|data|, 4);
    var head := CTFO_TAG + len;
    var m := EncodeCtfo(data).value;
    assert m[..9][..4] == CTFO_TAG && m[..9][4..8] == len && m[..9][..8] == head;
    ReadBackBigEndian(|data|, 4);
    Widths();
  }

  // Whole packets come back one by one, except that a last packet with an empty
  // body is held back: its header has no byte behind it yet.
  lemma {:induction false} PacketsBack(p: Protocol, ms: seq<seq<byte>>)
    requires !p.Text? && forall k :: 0 <= k < |ms| ==> Whole(p, ms[k])
    ensures Decode(p, Flatten(ms))
         == if ms != [] && |ms[|ms| - 1]| == HeaderSize(p)
            then Decoded(ms[..|ms| - 1], ms[|ms| - 1]) else Decoded(ms, [])
    decreases |ms|
  {
    hide DecodePack, HeaderOk, BodyLen;
    if ms == [] {
    } else {
      var m, tail := ms[0], ms[1..];
      FirstPacket(p, m, Flatten(tail));
      PacketsBack(p, tail);
      if tail == [] {
        assert Flatten(ms) == m;
        assert m[|m|..] == [];
        assert [m] + [] == ms;
      } else {
        assert |Flatten(tail)| >= |tail[0]|;
        assert (m + Flatten(tail))[|m|..] == Flatten(tail);
        assert tail[|tail| - 1] == ms[|ms| - 1];
        assert [m] + tail == ms && [m] + tail[..|tail| - 1] == ms[..|ms| - 1];
      }
    }
  }

  lemma FirstPacket(p: Protocol, m: seq<byte>, tail: seq<byte>)
    requires !p.Text? && Whole(p, m)
    ensures DecodePack(p, m + tail)
         == if |m + tail| == HeaderSize(p) then NoFrame(0) else Frame(m, |m|)
  {
    var d := m + tail;
    assert d[0..HeaderSize(p)] == m[..HeaderSize(p)];
    assert Seek(p, d, 0) == 0;
    assert d[0..|m|] == m;
  }

  // Every packet comes back exactly when the last one has a body.
  lemma PacketsBackIff(p: Protocol, ms: seq<seq<byte>>)
    requires !p.Text? && forall k :: 0 <= k < |ms| ==> Whole(p, ms[k])
    ensures Decode(p, Flatten(ms)) == Decoded(ms, []) <==> (ms == [] || |ms[|ms| - 1]| > HeaderSize(p))
  {
    PacketsBack(p, ms);
  }

  function TextPackets(xs: seq<seq<byte>>): (r: seq<seq<byte>>)
    ensures |r| == |xs|
    ensures forall k :: 0 <= k < |xs| ==> r[k] == xs[k] + [SP, CR, LF]
  {
    if xs == [] then [] else [xs[0] + [SP, CR, LF]] + TextPackets(xs[1..])
  }

  // Texts sent one after another come back as the packets that were sent exactly
  // when no text holds a line end of its own.
  lemma TextBackIff(xs: seq<seq<byte>>)
    requires forall k :: 0 <= k < |xs| ==> EncodeText(xs[k]).Some?
    ensures Decode(Text, Flatten(TextPackets(xs))) == Decoded(TextPackets(xs), [])
       <==> forall k :: 0 <= k < |xs| ==> HasNoLineEnd(xs[k])
  {
    hide Decode, IsLine, HasNoLineEnd;
    if forall k :: 0 <= k < |xs| ==> HasNoLineEnd(xs[k]) {
      TextBack(xs);
    }
    OnlyLines(Flatten(TextPackets(xs)));
    forall k | 0 <= k < |xs| && IsLine(TextPackets(xs)[k]) ensures HasNoLineEnd(xs[k]) {
      LineInside(xs[k]);
    }
  }

  lemma LineInside(x: seq<byte>)
    requires IsLine(x + [SP, CR, LF])
    ensures HasNoLineEnd(x)
  {
    forall i | 0 <= i < |x| ensures !LineEnd(x, i) {
      assert !LineEnd(x + [SP, CR, LF], i);
    }
  }

  lemma {:induction false} TextBack(xs: seq<seq<byte>>)
    requires forall k :: 0 <= k < |xs| ==> xs[k] != [] && HasNoLineEnd(xs[k])
    ensures Decode(Text, Flatten(TextPackets(xs))) == Decoded(TextPackets(xs), [])
  {
    hide HasNoLineEnd;
    if xs != [] {
      var m := xs[0] + [SP, CR, LF];
      var tail := Flatten(TextPackets(xs[1..]));
      FirstLine(xs[0], tail);
      TextBack(xs[1..]);
      assert TextPackets(xs)[1..] == TextPackets(xs[1..]);
      assert (m + tail)[|m|..] == tail;
    }
  }

  lemma FirstLine(x: seq<byte>, tail: seq<byte>)
    requires x != [] && HasNoLineEnd(x)
    ensures DecodePack(Text, x + [SP, CR, LF] + tail) == Frame(x + [SP, CR, LF], |x| + 3)
  {
    hide CutLine;
    LineFrom(x, tail, 0);
  }

  lemma {:induction false} LineFrom(x: seq<byte>, tail: seq<byte>, at: nat)
    requires x != [] && at <= |x| + 1 && HasNoLineEnd(x)
    ensures CutLine(x + [SP, CR, LF] + tail, 0, at) == Frame(x + [SP, CR, LF], |x| + 3)
    decreases |x| + 1 - at
  {
    var d := x + [SP, CR, LF] + tail;
    if at <= |x| {
      assert !LineEnd(d, at) by { if at < |x| { assert !LineEnd(x, at); } }
      LineFrom(x, tail, at + 1);
    } else {
      assert LineEnd(d, at);
      assert d[0..at + 2] == x + [SP, CR, LF];
    }
  }

  // ------------------------------------------------------------ the loops

  method TextDecodePack(d: seq<byte>) returns (r: Cut)
    ensures r == DecodePack(Text, d) && TextCut(d, r)
  {
    hide TextCut;
    TextPackMeans(d);
    if |d| == 0 { return NoFrame(0); }
    var offset, start, used := 0, 0, 0;
    while offset < |d| - 1
      invariant start <= offset <= |d| && used == start
      invariant CutLine(d, 0, 0) == CutLine(d, start, offset)
      decreases |d| - offset
    {
      if d[offset] == CR && d[offset + 1] == LF {
        offset := offset + 2;
        used := offset;
        if offset - start <= 2 {
          start := offset;
          continue;
        }
        return Frame(d[start..offset], used);
      }
      offset := offset + 1;
    }
    r := NoFrame(used);
  }

  method CommDecodePack(d: seq<byte>) returns (r: Cut)
    ensures r == DecodePack(Comm, d) && CommCut(d, r)
  {
    hide CommCut;
    CommPackMeans(d);
    if |d| < COMM_HEADER { return NoFrame(0); }
    var offset, body := 0, 0;
    while offset < |d| - COMM_HEADER
      invariant 0 <= offset <= |d| - COMM_HEADER
      invariant Seek(Comm, d, 0) == Seek(Comm, d, offset)
    {
      CommFields(d, offset);
      var ver := FromBigEndian(d[offset..offset + 2]);
      body := FromBigEndian(d[offset + 8..offset + 12]);
      if ver == MSG_VERSION && body < MAX_PACK_LEN { break; }
      offset := offset + 1;
    }
    if offset >= |d| - COMM_HEADER { return NoFrame(offset); }
    CommFields(d, offset);
    if |d| - offset < COMM_HEADER + body { return NoFrame(offset); }
    r := Frame(d[offset..offset + COMM_HEADER + body], offset + COMM_HEADER + body);
  }

  lemma CommFields(d: seq<byte>, at: nat)
    requires at + COMM_HEADER <= |d|
    ensures d[at..at + COMM_HEADER][..2] == d[at..at + 2]
    ensures d[at..at + COMM_HEADER][8..12] == d[at + 8..at + 12]
  {
  }

  lemma CtfoFields(d: seq<byte>, at: nat)
    requires at + CTFO_HEADER <= |d|
    ensures d[at..at + CTFO_HEADER][4..8] == d[at + 4..at + 8]
  {
    var h := d[at..at + CTFO_HEADER];
    assert forall k :: 4 <= k < 8 ==> h[k] == d[at + k];
  }

  method Sum(s: seq<byte>) returns (sum: byte)
    ensures sum == CheckSum(s)
  {
    sum := 0;
    var i := 0;
    while i < |s|
      invariant 0 <= i <= |s| && sum == CheckSum(s[..i])
    {
      assert s[..i + 1][..i] == s[..i];
      sum := Xor8(sum, s[i]);
      i := i + 1;
    }
    assert s[..|s|] == s;
  }

  method CheckHeader(h: seq<byte>) returns (ok: bool)
    requires |h| == CTFO_HEADER
    ensures ok == HeaderOk(Ctfo, h) == CtfoHeader(h, 0)
  {
    hide CtfoHeader;
    assert h[0..9] == h;
    CtfoHeaderMeans(h, 0, h);
    var sum := Sum(h[..8]);
    ok := h[..4] == CTFO_TAG && h[8] == sum;
  }

  method CtfoDecodePack(d: seq<byte>) returns (r: Cut)
    ensures r == DecodePack(Ctfo, d) && CtfoCut(d, r)
  {
    hide HeaderOk, CtfoCut, CtfoHeader, Word;
    CtfoPackMeans(d);
    if |d| < CTFO_HEADER { return NoFrame(0); }
    var offset := 0;
    while offset < |d| - CTFO_HEADER
      invariant 0 <= offset <= |d| - CTFO_HEADER
      invariant Seek(Ctfo, d, 0) == Seek(Ctfo, d, offset)
    {
      var ok := CheckHeader(d[offset..offset + CTFO_HEADER]);
      if ok { break; }
      offset := offset + 1;
    }
    if offset == |d| - CTFO_HEADER { return NoFrame(offset); }
    var body := FromBigEndian(d[offset + 4..offset + 8]);
    CtfoFields(d, offset);
    if |d| - offset < CTFO_HEADER + body { return NoFrame(offset); }
    r := Frame(d[offset..offset + CTFO_HEADER + body], offset + CTFO_HEADER + body);
  }

  // TransProtocol::decode; the virtual call becomes a choice by protocol.
  method DecodeAll(p: Protocol, d: seq<byte>) returns (packs: seq<seq<byte>>, offset: nat)
    ensures offset <= |d| && Decode(p, d) == Decoded(packs, d[offset..])
  {
    hide DecodePack;
    packs, offset := [], 0;
    while true
      invariant offset <= |d|
      invariant Decode(p, d) == Decoded(packs + Decode(p, d[offset..]).packs, Decode(p, d[offset..]).rest)
      decreases |d| - offset
    {
      var cut := DecodeOne(p, d[offset..]);
      if cut.NoFrame? { break; }
      OneMore(p, packs, d, offset);
      packs := packs + [cut.pack];
      offset := offset + cut.used;
    }
  }

  lemma OneMore(p: Protocol, packs: seq<seq<byte>>, d: seq<byte>, offset: nat)
    requires offset <= |d| && DecodePack(p, d[offset..]).Frame?
    ensures var cut := DecodePack(p, d[offset..]);
            var r, s := Decode(p, d[offset..]), Decode(p, d[offset + cut.used..]);
            packs + r.packs == packs + [cut.pack] + s.packs && r.rest == s.rest
  {
    hide DecodePack;
    var cut := DecodePack(p, d[offset..]);
    assert d[offset..][cut.used..] == d[offset + cut.used..];
  }

  method DecodeOne(p: Protocol, d: seq<byte>) returns (r: Cut)
    ensures r == DecodePack(p, d)
  {
    match p {
      case Text => r := TextDecodePack(d);
      case Comm => r := CommDecodePack(d);
      case Ctfo => r := CtfoDecodePack(d);
    }
  }

  // -------------------------------------------------------- one connection


  // The receiving half of a connection: the bytes read and not yet decoded, and
  // the packets waiting for the handler. `seen` and `taken` are the whole stream
  // so far and the packets the handler already has.
  class Receiver {
    const streamer: Protocol
    const input: DataBuffer
    var inputQueue: seq<seq<byte>>
    ghost var seen: seq<byte>
    ghost var taken: seq<seq<byte>>

    ghost predicate Valid()
      reads this, input, input.buf
    {
      input.Valid() && Decode(streamer, seen) == Decoded(taken + inputQueue, input.Contents())
    }

    constructor (p: Protocol)
      ensures Valid() && fresh(input) && fresh(input.Repr())
      ensures streamer == p && seen == [] && taken == [] && inputQueue == []
    {
      streamer := p;
      inputQueue, seen, taken := [], [], [];
      input := new DataBuffer();
    }

    // ensureFree, then what read() put there is poured, decoded and drained.
    // `wire` is what the peer has sent; the socket gives `wanted` bytes of it or
    // as many as fit.
    method ReadData(wire: seq<byte>, wanted: nat) returns (n: nat)
      requires Valid() && wanted <= |wire|
      modifies this, input.Repr()
      ensures Valid() && fresh(input.Repr() - old(input.Repr()))
      ensures n <= wanted && (n == wanted || n >= READ_WRITE_SIZE)
      ensures seen == old(seen) + wire[..n] && taken == old(taken)
      ensures old(inputQueue) <= inputQueue
    {
      hide Decode;
      input.Expand(READ_WRITE_SIZE);
      var room := input.GetFreeLen();
      n := if wanted < room then wanted else room;
      input.PourData(wire[..n]);
      DecodeInput(wire[..n]);
    }

    // decode, then drain what it consumed; `chunk` has just been poured.
    method DecodeInput(ghost chunk: seq<byte>)
      requires input.Valid()
      requires Decode(streamer, seen).packs == taken + inputQueue
      requires input.Contents() == Decode(streamer, seen).rest + chunk
      modifies this, input
      ensures Valid() && input.buf == old(input.buf)
      ensures seen == old(seen) + chunk && taken == old(taken)
      ensures old(inputQueue) <= inputQueue
    {
      hide Decode;
      DecodeSplit(streamer, seen, chunk);
      var data := input.Data();
      var packs, used := DecodeAll(streamer, data);
      assert taken + (inputQueue + packs) == taken + inputQueue + packs;
      inputQueue := inputQueue + packs;
      if used > 0 {
        input.DrainData(used);
      }
      seen := seen + chunk;
    }

    // The handler takes the queue over; the read buffer goes back to its size.
    method HandOver() returns (packs: seq<seq<byte>>)
      requires Valid()
      modifies this, input
      ensures Valid() && fresh(input.Repr() - old(input.Repr()))
      ensures packs == old(inputQueue) && inputQueue == []
      ensures taken == old(taken) + packs && seen == old(seen)
    {
      hide Decode;
      packs := inputQueue;
      taken := taken + packs;
      inputQueue := [];
      assert taken + inputQueue == taken;
      input.Shrink();
    }
  }
}
