/** Reading back what was written: the messages of Messages survive body and unbody
    exactly when their sizes fit the wire's length fields, and a stream of packed
    messages survives the comm framing. */
module MessageProofs {
  import opened Bytes
  import opened Framing
  import opened Messages

  predicate StrFits(s: str) {
    |s| <= 255
  }

  predicate SrvFits(v: Srv) {
    StrFits(v.ip) && StrFits(v.id)
  }

  predicate CorpFits(c: Corp) {
    StrFits(c.corpId) && StrFits(c.masterIp) && StrFits(c.slaveIp)
  }

  predicate SrvsFit(vs: seq<Srv>) {
    forall i :: 0 <= i < |vs| ==> SrvFits(vs[i])
  }

  predicate CorpsFit(cs: seq<Corp>) {
    forall i :: 0 <= i < |cs| ==> CorpFits(cs[i])
  }

  // A field the mask leaves out is not sent, so it has to be empty to come back.
  predicate MaskedFits(mask: byte, bit: nat, s: str)
    requires bit > 0
  {
    if HasBit(mask, bit) then StrFits(s) else s == []
  }

  // What is sent of the message fits its length fields.
  predicate Sized(c: Content) {
    match c
    case SrvListRsp(_, _, srvs) => |srvs| < MAX16 && SrvsFit(srvs)
    case CorpInfoAllReq => true
    case CorpInfoAllRsp(_, corps) => |corps| < MAX16 && CorpsFit(corps)
    case VehicleInfoMod(mask, phone, oem, auth, city, flag, termType) =>
      StrFits(phone) && MaskedSized(mask, MASK_OEM, oem) && MaskedSized(mask, MASK_AUTH, auth)
      && MaskedSized(mask, MASK_CITY, city) && MaskedSized(mask, MASK_FLAG, flag)
      && MaskedSized(mask, MASK_TERM_TYPE, termType)
  }

  predicate MaskedSized(mask: byte, bit: nat, s: str)
    requires bit > 0
  {
    HasBit(mask, bit) ==> StrFits(s)
  }

  // What was sent of c, on top of what was there.
  function Merged(was: Content, c: Content): Content
    requires KindOf(was) == KindOf(c)
  {
    match c
    case SrvListRsp(result, kind, srvs) => SrvListRsp(result, kind, was.srvs + srvs)
    case CorpInfoAllReq => c
    case CorpInfoAllRsp(result, corps) => CorpInfoAllRsp(result, was.corps + corps)
    case VehicleInfoMod(mask, phone, oem, auth, city, flag, termType) =>
      VehicleInfoMod(mask, phone, MaskedOver(mask, MASK_OEM, was.oem, oem), MaskedOver(mask, MASK_AUTH, was.auth, auth),
                     MaskedOver(mask, MASK_CITY, was.city, city), MaskedOver(mask, MASK_FLAG, was.flag, flag),
                     MaskedOver(mask, MASK_TERM_TYPE, was.termType, termType))
  }

  function MaskedOver(mask: byte, bit: nat, was: str, s: str): str
    requires bit > 0
  {
    if HasBit(mask, bit) then s else was
  }

  // Nothing of `was` shows through: no list items, no field that is not sent and
  // differs.
  predicate Covers(c: Content, was: Content)
    requires KindOf(was) == KindOf(c)
  {
    match c
    case SrvListRsp(_, _, _) => was.srvs == []
    case CorpInfoAllReq => true
    case CorpInfoAllRsp(_, _) => was.corps == []
    case VehicleInfoMod(mask, _, oem, auth, city, flag, termType) =>
      (HasBit(mask, MASK_OEM) || was.oem == oem) && (HasBit(mask, MASK_AUTH) || was.auth == auth)
      && (HasBit(mask, MASK_CITY) || was.city == city) && (HasBit(mask, MASK_FLAG) || was.flag == flag)
      && (HasBit(mask, MASK_TERM_TYPE) || was.termType == termType)
  }

  predicate Fits(c: Content) {
    match c
    case SrvListRsp(_, _, srvs) => |srvs| < MAX16 && SrvsFit(srvs)
    case CorpInfoAllReq => true
    case CorpInfoAllRsp(_, corps) => |corps| < MAX16 && CorpsFit(corps)
    case VehicleInfoMod(mask, phone, oem, auth, city, flag, termType) =>
      StrFits(phone) && MaskedFits(mask, MASK_OEM, oem) && MaskedFits(mask, MASK_AUTH, auth)
      && MaskedFits(mask, MASK_CITY, city) && MaskedFits(mask, MASK_FLAG, flag)
      && MaskedFits(mask, MASK_TERM_TYPE, termType)
  }

  // ------------------------------------------------------------ single fields

  lemma IntBack(n: nat, width: nat, tail: seq<byte>, was: nat)
    requires n < Pow256(width)
    ensures TakeInt(BigEndian(n, width) + tail, width) == Got((n, tail))
    ensures TakeOr(BigEndian(n, width) + tail, width, was) == (n, tail)
  {
    ReadBackBigEndian(n, width);
    RemainderUnique(n, Pow256(width), 0, n);
    var d := BigEndian(n, width) + tail;
    assert d[..width] == BigEndian(n, width) && d[width..] == tail;
  }

  lemma StrBack(s: str, tail: seq<byte>)
    requires StrFits(s)
    ensures TakeStr(StrBytes(s) + tail) == Got((s, tail))
  {
    var d := StrBytes(s) + tail;
    assert s[..|s|] == s;
    assert d[0] == |s| && d[1..1 + |s|] == s && d[1 + |s|..] == tail;
  }

  lemma MaskedBack(mask: byte, bit: nat, was: str, s: str, tail: seq<byte>)
    requires bit > 0 && MaskedSized(mask, bit, s)
    ensures TakeMasked(mask, bit, was, MaskedBytes(mask, bit, s) + tail) == Got((MaskedOver(mask, bit, was, s), tail))
  {
    if HasBit(mask, bit) {
      StrBack(s, tail);
    } else {
      assert [] + tail == tail;
    }
  }

  // ------------------------------------------------------------------- lists

  lemma SrvBack(v: Srv, tail: seq<byte>)
    requires SrvFits(v)
    ensures TakeSrv(SrvBytes(v) + tail) == Got((v, tail))
  {
    hide StrBytes, TakeInt, TakeStr, BigEndian;
    Widths();
    var id := StrBytes(v.id) + tail;
    var ip := StrBytes(v.ip) + id;
    var port := BigEndian(v.port, 2) + ip;
    StrBack(v.id, tail);
    StrBack(v.ip, id);
    IntBack(v.port, 2, ip, 0);
    IntBack(v.load, 4, port, 0);
    Assoc(StrBytes(v.ip), StrBytes(v.id), tail);
    Assoc(BigEndian(v.port, 2), StrBytes(v.ip) + StrBytes(v.id), tail);
    Assoc(BigEndian(v.load, 4), BigEndian(v.port, 2) + (StrBytes(v.ip) + StrBytes(v.id)), tail);
  }

  lemma {:induction false} SrvsBack(vs: seq<Srv>, tail: seq<byte>)
    requires SrvsFit(vs)
    ensures TakeSrvs(|vs|, SrvsBytes(vs) + tail) == Got((vs, tail))
  {
    hide TakeSrv, SrvBytes, SrvFits;
    if vs == [] {
      assert [] + tail == tail;
    } else {
      var front, v := vs[..|vs| - 1], vs[|vs| - 1];
      SrvsBack(front, SrvBytes(v) + tail);
      SrvBack(v, tail);
      Assoc(SrvsBytes(front), SrvBytes(v), tail);
      assert front + [v] == vs;
    }
  }

  lemma AddressBack(ip: str, tcp: uint16, udp: uint16, tail: seq<byte>)
    requires StrFits(ip)
    ensures TakeAddress(AddressBytes(ip, tcp, udp) + tail) == Got((Address(ip, tcp, udp), tail))
  {
    hide StrBytes, TakeInt, TakeStr, BigEndian, StrFits;
    Widths();
    StrBack(ip, BigEndian(tcp, 2) + (BigEndian(udp, 2) + tail));
    IntBack(tcp, 2, BigEndian(udp, 2) + tail, 0);
    IntBack(udp, 2, tail, 0);
    Assoc(StrBytes(ip), BigEndian(tcp, 2) + BigEndian(udp, 2), tail);
    Assoc(BigEndian(tcp, 2), BigEndian(udp, 2), tail);
  }

  lemma CorpBack(c: Corp, tail: seq<byte>)
    requires CorpFits(c)
    ensures TakeCorp(CorpBytes(c) + tail) == Got((c, tail))
  {
    hide StrBytes, AddressBytes, TakeAddress, TakeStr, StrFits;
    var m, sl := AddressBytes(c.masterIp, c.masterTcp, c.masterUdp), AddressBytes(c.slaveIp, c.slaveTcp, c.slaveUdp);
    StrBack(c.corpId, m + (sl + tail));
    AddressBack(c.masterIp, c.masterTcp, c.masterUdp, sl + tail);
    AddressBack(c.slaveIp, c.slaveTcp, c.slaveUdp, tail);
    Assoc(StrBytes(c.corpId), m + sl, tail);
    Assoc(m, sl, tail);
  }

  lemma {:induction false} CorpsBack(cs: seq<Corp>, tail: seq<byte>)
    requires CorpsFit(cs)
    ensures TakeCorps(|cs|, CorpsBytes(cs) + tail) == Got((cs, tail))
  {
    hide TakeCorp, CorpBytes, CorpFits;
    if cs == [] {
      assert [] + tail == tail;
    } else {
      var front, c := cs[..|cs| - 1], cs[|cs| - 1];
      CorpsBack(front, CorpBytes(c) + tail);
      CorpBack(c, tail);
      Assoc(CorpsBytes(front), CorpBytes(c), tail);
      assert front + [c] == cs;
    }
  }

  // --------------------------------------------------------------- messages

  lemma SrvListBack(was: Content, count: uint16, c: Content)
    requires was.SrvListRsp? && c.SrvListRsp? && Sized(c)
    ensures TakeSrvList(was, count, ContentBytes(c)) == Got((Merged(was, c), []))
  {
    hide TakeOr, TakeSrvs, SrvsBytes, SrvsFit, BigEndian;
    Widths();
    assert c.srvs[..|c.srvs|] == c.srvs;
    var list := SrvsBytes(c.srvs);
    assert list + [] == list;
    SrvsBack(c.srvs, []);
    IntBack(|c.srvs|, 2, list, count);
    IntBack(c.srvKind, 4, BigEndian(|c.srvs|, 2) + list, was.srvKind);
    IntBack(c.result, 1, BigEndian(c.srvKind, 4) + (BigEndian(|c.srvs|, 2) + list), was.result);
  }

  lemma CorpListBack(was: Content, count: uint16, c: Content)
    requires was.CorpInfoAllRsp? && c.CorpInfoAllRsp? && Sized(c)
    ensures TakeCorpList(was, count, ContentBytes(c)) == Got((Merged(was, c), []))
  {
    hide TakeOr, TakeCorps, CorpsBytes, CorpsFit, BigEndian;
    Widths();
    assert c.corps[..|c.corps|] == c.corps;
    var list := CorpsBytes(c.corps);
    assert list + [] == list;
    CorpsBack(c.corps, []);
    IntBack(|c.corps|, 2, list, count);
    IntBack(c.result, 1, BigEndian(|c.corps|, 2) + list, was.result);
  }

  lemma VehicleBack(was: Content, c: Content)
    requires was.VehicleInfoMod? && c.VehicleInfoMod? && Sized(c)
    ensures TakeVehicle(was, ContentBytes(c)) == Got((Merged(was, c), []))
  {
    hide TakeOr, TakeStr, TakeMasked, StrBytes, MaskedBytes, MaskedSized, MaskedOver, StrFits, BigEndian, HasBit;
    Widths();
    var s7 := MaskedBytes(c.mask, MASK_TERM_TYPE, c.termType);
    var s6 := MaskedBytes(c.mask, MASK_FLAG, c.flag) + s7;
    var s5 := MaskedBytes(c.mask, MASK_CITY, c.city) + s6;
    var s4 := MaskedBytes(c.mask, MASK_AUTH, c.auth) + s5;
    var s3 := MaskedBytes(c.mask, MASK_OEM, c.oem) + s4;
    assert s7 + [] == s7;
    MaskedBack(c.mask, MASK_TERM_TYPE, was.termType, c.termType, []);
    MaskedBack(c.mask, MASK_FLAG, was.flag, c.flag, s7);
    MaskedBack(c.mask, MASK_CITY, was.city, c.city, s6);
    MaskedBack(c.mask, MASK_AUTH, was.auth, c.auth, s5);
    MaskedBack(c.mask, MASK_OEM, was.oem, c.oem, s4);
    StrBack(c.phone, s3);
    IntBack(c.mask, 1, StrBytes(c.phone) + s3, was.mask);
  }

  // Taken off into any message of its kind, a message that fits lands on top of what
  // was there, and is itself exactly when nothing of that shows through.
  lemma MergedBack(was: Content, count: uint16, c: Content)
    requires KindOf(was) == KindOf(c) && Sized(c)
    ensures TakeOver(was, count, ContentBytes(c)) == Got((Merged(was, c), []))
    ensures TakeOver(was, count, ContentBytes(c)) == Got((c, [])) <==> Covers(c, was)
  {
    hide TakeSrvList, TakeCorpList, TakeVehicle, Sized, ContentBytes;
    match c {
      case SrvListRsp(_, _, _) => SrvListBack(was, count, c);
      case CorpInfoAllReq => assert ContentBytes(c) == [] by { OnlyRequestIsEmpty(c); }
      case CorpInfoAllRsp(_, _) => CorpListBack(was, count, c);
      case VehicleInfoMod(_, _, _, _, _, _, _) => VehicleBack(was, c);
    }
    MergedIff(was, c);
  }

  lemma MergedIff(was: Content, c: Content)
    requires KindOf(was) == KindOf(c)
    ensures Merged(was, c) == c <==> Covers(c, was)
  {
    hide HasBit;
    if c.SrvListRsp? && Merged(was, c) == c { assert |was.srvs| + |c.srvs| == |c.srvs|; }
    if c.CorpInfoAllRsp? && Merged(was, c) == c { assert |was.corps| + |c.corps| == |c.corps|; }
  }

  lemma ContentBack(c: Content)
    requires Fits(c)
    ensures TakeContent(KindOf(c), ContentBytes(c)) == Got((c, []))
  {
    hide TakeOver, ContentBytes;
    assert KindOf(Blank(KindOf(c))) == KindOf(c);
    MergedBack(Blank(KindOf(c)), 0, c);
  }

  // ------------------------------------- nothing else can come off the wire

  lemma TakenStrFits(d: seq<byte>)
    ensures TakeStr(d).Got? ==> StrFits(TakeStr(d).value.0)
  {
  }

  lemma TakenMaskedFits(mask: byte, bit: nat, d: seq<byte>)
    requires bit > 0
    ensures TakeMasked(mask, bit, [], d).Got? ==> MaskedFits(mask, bit, TakeMasked(mask, bit, [], d).value.0)
  {
  }

  lemma TakenSrvFits(d: seq<byte>)
    ensures TakeSrv(d).Got? ==> SrvFits(TakeSrv(d).value.0)
  {
  }

  lemma TakenCorpFits(d: seq<byte>)
    ensures TakeCorp(d).Got? ==> CorpFits(TakeCorp(d).value.0)
  {
  }

  lemma {:induction false} TakenSrvsFit(count: nat, d: seq<byte>)
    ensures TakeSrvs(count, d).Got? ==>
              |TakeSrvs(count, d).value.0| == count && SrvsFit(TakeSrvs(count, d).value.0)
  {
    hide TakeSrv, SrvFits;
    if count > 0 && TakeSrvs(count - 1, d).Got? {
      TakenSrvsFit(count - 1, d);
      TakenSrvFits(TakeSrvs(count - 1, d).value.1);
    }
  }

  lemma {:induction false} TakenCorpsFit(count: nat, d: seq<byte>)
    ensures TakeCorps(count, d).Got? ==>
              |TakeCorps(count, d).value.0| == count && CorpsFit(TakeCorps(count, d).value.0)
  {
    hide TakeCorp, CorpFits;
    if count > 0 && TakeCorps(count - 1, d).Got? {
      TakenCorpsFit(count - 1, d);
      TakenCorpFits(TakeCorps(count - 1, d).value.1);
    }
  }

  lemma {:induction false} NumberFits(s: seq<byte>)
    ensures FromBigEndian(s) < Pow256(|s|)
  {
    if s != [] {
      NumberFits(s[..|s| - 1]);
    }
  }

  lemma ShortFits(d: seq<byte>)
    ensures TakeOr(d, 2, 0).0 < MAX16
  {
    Widths();
    if |d| >= 2 {
      NumberFits(d[..2]);
    }
  }

  lemma TakenListsFit(k: Kind, d: seq<byte>)
    requires k.SrvList? || k.AllRsp?
    ensures TakeContent(k, d).Got? ==> Fits(TakeContent(k, d).value.0)
  {
    hide TakeOr, TakeSrvs, TakeCorps, SrvsFit, CorpsFit;
    if k.SrvList? {
      var d2 := TakeOr(TakeOr(d, 1, 1).1, 4, 0).1;
      ShortFits(d2);
      TakenSrvsFit(TakeOr(d2, 2, 0).0, TakeOr(d2, 2, 0).1);
      assert forall vs: seq<Srv> :: [] + vs == vs;
    } else {
      var d1 := TakeOr(d, 1, 1).1;
      ShortFits(d1);
      TakenCorpsFit(TakeOr(d1, 2, 0).0, TakeOr(d1, 2, 0).1);
      assert forall cs: seq<Corp> :: [] + cs == cs;
    }
  }

  lemma TakenVehicleFits(d: seq<byte>)
    ensures TakeVehicle(Blank(VehicleMod), d).Got? ==> Fits(TakeVehicle(Blank(VehicleMod), d).value.0)
  {
    hide TakeOr, TakeStr, TakeMasked, MaskedFits, StrFits, HasBit;
    if TakeVehicle(Blank(VehicleMod), d).Got? {
      var mask, d1 := TakeOr(d, 1, 0).0 % 256, TakeOr(d, 1, 0).1;
      TakenStrFits(d1);
      var d2 := TakeStr(d1).value.1;
      TakenMaskedFits(mask, MASK_OEM, d2);
      var d3 := TakeMasked(mask, MASK_OEM, [], d2).value.1;
      TakenMaskedFits(mask, MASK_AUTH, d3);
      var d4 := TakeMasked(mask, MASK_AUTH, [], d3).value.1;
      TakenMaskedFits(mask, MASK_CITY, d4);
      var d5 := TakeMasked(mask, MASK_CITY, [], d4).value.1;
      TakenMaskedFits(mask, MASK_FLAG, d5);
      TakenMaskedFits(mask, MASK_TERM_TYPE, TakeMasked(mask, MASK_FLAG, [], d5).value.1);
    }
  }

  lemma TakenFits(k: Kind, d: seq<byte>)
    ensures TakeContent(k, d).Got? ==> Fits(TakeContent(k, d).value.0)
  {
    hide TakeSrvList, TakeCorpList, TakeVehicle;
    match k {
      case SrvList => TakenListsFit(k, d);
      case AllRsp => TakenListsFit(k, d);
      case AllReq =>
      case VehicleMod => TakenVehicleFits(d);
    }
  }

  // Reading a body back gives the message that was written, and consumes the body,
  // exactly when strings have at most 255 bytes, lists fewer than 65536 items, and
  // nothing is set that the mask leaves out.
  lemma ContentBackIff(c: Content)
    ensures TakeContent(KindOf(c), ContentBytes(c)) == Got((c, [])) <==> Fits(c)
  {
    hide TakeContent, ContentBytes, Fits;
    if Fits(c) {
      ContentBack(c);
    }
    TakenFits(KindOf(c), ContentBytes(c));
  }

  // ------------------------------------------------------- packed messages

  lemma HeaderFields(h: Header, tail: seq<byte>)
    ensures var d := HeaderBytes(h) + tail;
            d[..2] == BigEndian(h.ver, 2) && d[2..4] == BigEndian(h.kind, 2)
            && d[4..8] == BigEndian(h.seqNo, 4) && d[8..12] == BigEndian(h.len, 4) && d[12..] == tail
  {
  }

  lemma NumberBack(n: nat, width: nat)
    requires n < Pow256(width)
    ensures FromBigEndian(BigEndian(n, width)) == n
  {
    ReadBackBigEndian(n, width);
    RemainderUnique(n, Pow256(width), 0, n);
  }

  // A header is refused exactly when the body it announces is longer than what follows
  // and the length is not negative as a signed number; else it reads back.
  lemma HeaderRefusedIff(h: Header, tail: seq<byte>)
    ensures TakeHeader(HeaderBytes(h) + tail) ==
              if |tail| < h.len < 0x8000_0000 then None else Some((h, tail))
  {
    hide FromBigEndian, BigEndian, HeaderBytes;
    HeaderFields(h, tail);
    Widths();
    NumberBack(h.ver, 2);
    NumberBack(h.kind, 2);
    NumberBack(h.seqNo, 4);
    NumberBack(h.len, 4);
    assert |HeaderBytes(h) + tail| == 12 + |tail| by { HeaderSized(h); }
  }

  lemma HeaderBack(h: Header, tail: seq<byte>)
    requires h.len <= |tail|
    ensures TakeHeader(HeaderBytes(h) + tail) == Some((h, tail))
  {
    HeaderRefusedIff(h, tail);
  }

  lemma HeaderSized(h: Header)
    ensures |HeaderBytes(h)| == COMM_HEADER
  {
  }

  // A packed message in bytes: version 1, the code of its kind, the sequence number and
  // the body's length, most significant byte first, then the body.
  lemma PackedBytes(seqNo: uint32, c: Content)
    requires |ContentBytes(c)| < 0x1_0000_0000
    ensures var d, n := Packed(seqNo, c), |ContentBytes(c)|;
            && |d| == 12 + n && d[0] == 0 && d[1] == 1
            && d[2..4] == (match KindOf(c)
                           case SrvList => [0x80, 0x03]
                           case AllReq => [0x10, 0x37]
                           case AllRsp => [0x80, 0x37]
                           case VehicleMod => [0x10, 0x25])
            && d[4..8] == [seqNo / 0x100_0000, seqNo / 0x1_0000 % 256, seqNo / 0x100 % 256, seqNo % 256]
            && d[8..12] == [n / 0x100_0000, n / 0x1_0000 % 256, n / 0x100 % 256, n % 256]
            && d[12..] == ContentBytes(c)
  {
    hide BigEndian, ContentBytes, HeaderBytes;
    var h := HeaderOf(seqNo, c);
    HeaderFields(h, ContentBytes(c));
    HeaderSized(h);
    TwoBytes(h.ver);
    TwoBytes(h.kind);
    FourBytes(h.seqNo);
    FourBytes(h.len);
    var d := Packed(seqNo, c);
    assert d[0] == d[..2][0] && d[1] == d[..2][1];
  }

  // The code leads back to the kind, from any packed message.
  lemma CodeTellsKind(seqNo: uint32, c: Content, code: uint16)
    requires |ContentBytes(c)| < 0x1_0000_0000
    ensures KindOfCode(code) == Some(KindOf(c)) <==> code == TypeCode(KindOf(c))
    ensures var r := TakeHeader(Packed(seqNo, c));
            r.Some? && KindOfCode(r.value.0.kind) == Some(KindOf(c)) && r.value.0.seqNo == seqNo
  {
    hide TakeHeader, ContentBytes, HeaderBytes;
    HeaderBack(HeaderOf(seqNo, c), ContentBytes(c));
  }

  // The bodies, field by field.
  lemma BodyLayout(c: Content)
    ensures ContentBytes(c) ==
            match c
            case SrvListRsp(result, kind, srvs) =>
              BigEndian(result, 1) + BigEndian(kind, 4) + BigEndian(|srvs| % 0x1_0000, 2)
              + SrvsBytes(srvs[..|srvs| % 0x1_0000])
            case CorpInfoAllReq => []
            case CorpInfoAllRsp(result, corps) =>
              BigEndian(result, 1) + BigEndian(|corps| % 0x1_0000, 2) + CorpsBytes(corps[..|corps| % 0x1_0000])
            case VehicleInfoMod(mask, phone, oem, auth, city, flag, termType) =>
              BigEndian(mask, 1) + StrBytes(phone) + (if mask % 2 == 1 then StrBytes(oem) else [])
              + (if mask / 2 % 2 == 1 then StrBytes(auth) else []) + (if mask / 4 % 2 == 1 then StrBytes(city) else [])
              + (if mask / 8 % 2 == 1 then StrBytes(flag) else []) + (if mask / 16 % 2 == 1 then StrBytes(termType) else [])
  {
    hide BigEndian, StrBytes, SrvsBytes, CorpsBytes;
    match c {
      case SrvListRsp(result, kind, srvs) =>
        Assoc(BigEndian(result, 1) + BigEndian(kind, 4), BigEndian(|srvs| % MAX16, 2), SrvsBytes(srvs[..|srvs| % MAX16]));
        Assoc(BigEndian(result, 1), BigEndian(kind, 4), BigEndian(|srvs| % MAX16, 2) + SrvsBytes(srvs[..|srvs| % MAX16]));
      case CorpInfoAllReq =>
      case CorpInfoAllRsp(result, corps) =>
        Assoc(BigEndian(result, 1), BigEndian(|corps| % MAX16, 2), CorpsBytes(corps[..|corps| % MAX16]));
      case VehicleInfoMod(mask, phone, oem, auth, city, flag, termType) =>
        SevenJoin(BigEndian(mask, 1), StrBytes(phone), MaskedBytes(mask, 1, oem), MaskedBytes(mask, 2, auth),
                  MaskedBytes(mask, 4, city), MaskedBytes(mask, 8, flag), MaskedBytes(mask, 16, termType));
        MasksAre(mask);
    }
  }

  lemma MasksAre(mask: byte)
    ensures HasBit(mask, 1) <==> mask % 2 == 1
    ensures HasBit(mask, 2) <==> mask / 2 % 2 == 1
    ensures HasBit(mask, 4) <==> mask / 4 % 2 == 1
    ensures HasBit(mask, 8) <==> mask / 8 % 2 == 1
    ensures HasBit(mask, 16) <==> mask / 16 % 2 == 1
  {
  }

  lemma SevenJoin<T>(a: seq<T>, b: seq<T>, c: seq<T>, d: seq<T>, e: seq<T>, f: seq<T>, g: seq<T>)
    ensures a + b + c + d + e + f + g == a + (b + (c + (d + (e + (f + g)))))
  {
    Assoc(a + b + c + d + e, f, g);
    Assoc(a + b + c + d, e, f + g);
    Assoc(a + b + c, d, e + (f + g));
    Assoc(a + b, c, d + (e + (f + g)));
    Assoc(a, b, c + (d + (e + (f + g))));
  }

  // Nothing to read leaves a list as it was, if it does not expect items, and is too
  // little for a vehicle.
  lemma EmptyBody(was: Content, count: uint16)
    ensures TakeOver(was, count, []) ==
              if was.VehicleInfoMod? || (count > 0 && !was.CorpInfoAllReq?) then Beyond else Got((was, []))
  {
    NoItems(count);
    NoItems(0);
    assert was.SrvListRsp? ==> was.srvs + [] == was.srvs;
    assert was.CorpInfoAllRsp? ==> was.corps + [] == was.corps;
  }

  // So a new message keeps what its constructor put there.
  lemma NewFromNothing()
    ensures TakeContent(SrvList, []) == Got((SrvListRsp(1, 0, []), []))
    ensures TakeContent(AllReq, []) == Got((CorpInfoAllReq, []))
    ensures TakeContent(AllRsp, []) == Got((CorpInfoAllRsp(1, []), []))
    ensures TakeContent(VehicleMod, []) == Beyond
  {
    hide TakeOver;
    EmptyBody(Blank(SrvList), 0);
    EmptyBody(Blank(AllReq), 0);
    EmptyBody(Blank(AllRsp), 0);
    EmptyBody(Blank(VehicleMod), 0);
  }

  lemma {:induction false} NoItems(count: nat)
    ensures TakeSrvs(count, []) == if count == 0 then Got(([], [])) else Beyond
    ensures TakeCorps(count, []) == if count == 0 then Got(([], [])) else Beyond
  {
    if count > 0 { NoItems(count - 1); }
  }

  // A list's items one behind the other, and an item field by field.
  lemma ItemLayout(vs: seq<Srv>, v: Srv, cs: seq<Corp>, c: Corp)
    ensures SrvsBytes(vs + [v]) == SrvsBytes(vs) + SrvBytes(v)
    ensures SrvBytes(v) == BigEndian(v.load, 4) + BigEndian(v.port, 2) + StrBytes(v.ip) + StrBytes(v.id)
    ensures CorpsBytes(cs + [c]) == CorpsBytes(cs) + CorpBytes(c)
    ensures CorpBytes(c) == StrBytes(c.corpId)
                            + (StrBytes(c.masterIp) + (BigEndian(c.masterTcp, 2) + BigEndian(c.masterUdp, 2)))
                            + (StrBytes(c.slaveIp) + (BigEndian(c.slaveTcp, 2) + BigEndian(c.slaveUdp, 2)))
  {
    hide BigEndian, StrBytes;
    assert (vs + [v])[..|vs|] == vs && (cs + [c])[..|cs|] == cs;
    Assoc(BigEndian(v.load, 4) + BigEndian(v.port, 2), StrBytes(v.ip), StrBytes(v.id));
    Assoc(BigEndian(v.load, 4), BigEndian(v.port, 2), StrBytes(v.ip) + StrBytes(v.id));
    Assoc(StrBytes(c.corpId), StrBytes(c.masterIp) + (BigEndian(c.masterTcp, 2) + BigEndian(c.masterUdp, 2)),
          StrBytes(c.slaveIp) + (BigEndian(c.slaveTcp, 2) + BigEndian(c.slaveUdp, 2)));
  }

  lemma PackedIsWhole(seqNo: uint32, c: Content)
    requires |ContentBytes(c)| < MAX_PACK_LEN
    ensures Whole(Comm, Packed(seqNo, c))
    ensures |Packed(seqNo, c)| == COMM_HEADER + |ContentBytes(c)|
  {
    hide FromBigEndian, BigEndian, HeaderBytes, ContentBytes, Pow256;
    var h := HeaderOf(seqNo, c);
    HeaderFields(h, ContentBytes(c));
    HeaderSized(h);
    Widths();
    NumberBack(MSG_VERSION, 2);
    NumberBack(h.len, 4);
    var d := Packed(seqNo, c);
    assert d[..12][..2] == d[..2] && d[..12][8..12] == d[8..12];
  }

  // The sender's limit counts the header, the receiver's does not: encode_pack takes
  // the messages of at most 4084 body bytes, and these come back from the decoder
  // unless the body is empty; of those the decoder would take, it refuses the ones of
  // 4085 to 4095.
  lemma CommSendsIff(seqNo: uint32, c: Content)
    ensures Whole(Comm, Packed(seqNo, c)) <==> |ContentBytes(c)| < MAX_PACK_LEN
    ensures EncodeComm(Packed(seqNo, c)).Some? <==> |ContentBytes(c)| <= MAX_PACK_LEN - COMM_HEADER
    ensures EncodeComm(Packed(seqNo, c)).Some? ==>
              var sent := EncodeComm(Packed(seqNo, c)).value;
              Decode(Comm, sent) == Decoded([sent], []) <==> ContentBytes(c) != []
  {
    hide Decode, ContentBytes, HeaderBytes;
    var d := Packed(seqNo, c);
    HeaderSized(HeaderOf(seqNo, c));
    if |ContentBytes(c)| < MAX_PACK_LEN {
      PackedIsWhole(seqNo, c);
      FlattenOne(d);
      PacketsBackIff(Comm, [d]);
    }
  }

  // What the receiver makes of one packet: MsgPacket::unpack on a message that holds
  // `was`, or on a new one.
  function UnpackedOver(was: Content, count: uint16, d: seq<byte>): Outcome<(Header, Content)> {
    match TakeHeader(d)
    case None => Beyond
    case Some((h, body)) =>
      var (c, _) :- TakeOver(was, count, body);
      Got((h, c))
  }

  function Unpacked(k: Kind, d: seq<byte>): Outcome<(Header, Content)> {
    UnpackedOver(Blank(k), 0, d)
  }

  lemma UnpackedPacked(seqNo: uint32, c: Content)
    requires Fits(c) && |ContentBytes(c)| < MAX32
    ensures Unpacked(KindOf(c), Packed(seqNo, c)) == Got((HeaderOf(seqNo, c), c))
    ensures HeaderOf(seqNo, c).len == |ContentBytes(c)|
  {
    hide TakeHeader, TakeOver, ContentBytes, HeaderBytes, Fits;
    HeaderBack(HeaderOf(seqNo, c), ContentBytes(c));
    ContentBack(c);
  }

  datatype Sent = Sent(seqNo: uint32, content: Content)

  predicate Sendable(s: Sent) {
    Fits(s.content) && |ContentBytes(s.content)| < MAX_PACK_LEN
  }

  function Stream(ms: seq<Sent>): (r: seq<seq<byte>>)
    ensures |r| == |ms|
  {
    seq(|ms|, k requires 0 <= k < |ms| => Packed(ms[k].seqNo, ms[k].content))
  }

  // Any messages sent one after another are framed back into just those packets,
  // exactly when the last one has a body; and each packet unpacks to its message
  // with the header's length equal to the body's.
  lemma StreamBackIff(ms: seq<Sent>)
    requires forall k :: 0 <= k < |ms| ==> Sendable(ms[k])
    ensures Decode(Comm, Flatten(Stream(ms))) == Decoded(Stream(ms), [])
       <==> (ms == [] || ContentBytes(ms[|ms| - 1].content) != [])
    ensures forall k :: 0 <= k < |ms| ==>
              Unpacked(KindOf(ms[k].content), Stream(ms)[k]) == Got((HeaderOf(ms[k].seqNo, ms[k].content), ms[k].content))
              && HeaderOf(ms[k].seqNo, ms[k].content).len == |ContentBytes(ms[k].content)|
  {
    hide Decode, Packed, ContentBytes, Unpacked, Fits, Whole, HeaderOf;
    forall k | 0 <= k < |ms|
      ensures Whole(Comm, Stream(ms)[k])
      ensures |Stream(ms)[k]| == COMM_HEADER + |ContentBytes(ms[k].content)|
      ensures Unpacked(KindOf(ms[k].content), Stream(ms)[k]) == Got((HeaderOf(ms[k].seqNo, ms[k].content), ms[k].content))
      ensures HeaderOf(ms[k].seqNo, ms[k].content).len == |ContentBytes(ms[k].content)|
    {
      PackedIsWhole(ms[k].seqNo, ms[k].content);
      UnpackedPacked(ms[k].seqNo, ms[k].content);
    }
    PacketsBackIff(Comm, Stream(ms));
  }

  // The message without a body is the corporation-list request, so a stream that
  // ends with one keeps it waiting for bytes that only a later message brings.
  lemma OnlyRequestIsEmpty(c: Content)
    ensures ContentBytes(c) == [] <==> c.CorpInfoAllReq?
  {
  }
}
