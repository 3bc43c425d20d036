/** MsgPacket::pack/unpack and the body/unbody loops of its subclasses, over the
    packet's buffer (src/pack/msgpack.h, src/pack/commproto.h, src/pack/pack.cpp). */
module MsgPackets {
  import opened Bytes
  import opened DataBuffers
  import opened Framing
  import opened Messages
  import opened MessageProofs

  // ------------------------------------------------------- Packet's strings

  method WriteStr(pack: DataBuffer, s: str)
    requires pack.Valid()
    modifies pack.Repr()
    ensures pack.Valid() && fresh(pack.Repr() - old(pack.Repr()))
    ensures pack.Contents() == old(pack.Contents()) + StrBytes(s)
    ensures pack.pdata == old(pack.pdata) || pack.pdata == 0
  {
    hide BigEndian, StrBytes;
    var n := |s| % 256;
    StrJoins(pack.Contents(), s, n);
    pack.WriteInt8(n);
    if n > 0 {
      pack.WriteBytes(s[..n]);
    }
  }

  lemma StrJoins(w: seq<byte>, s: str, n: byte)
    requires n == |s| % 256
    ensures w + BigEndian(n, 1) + s[..n] == w + StrBytes(s)
    ensures n == 0 ==> w + BigEndian(n, 1) == w + StrBytes(s)
  {
    OneByte(n);
    StrUnfolds(s, n);
    hide BigEndian, StrBytes;
    Assoc(w, [n], s[..n]);
  }

  lemma OneByte(n: byte)
    ensures BigEndian(n, 1) == [n]
  {
  }

  lemma StrUnfolds(s: str, n: byte)
    requires n == |s| % 256
    ensures n <= |s| && StrBytes(s) == [n] + s[..n]
    ensures n == 0 ==> StrBytes(s) == [n]
  {
  }

  // None when the length byte itself lies behind the packet's end.
  method ReadStr(pack: DataBuffer) returns (r: Option<str>)
    requires pack.Valid()
    modifies pack
    ensures pack.Valid() && pack.buf == old(pack.buf)
    ensures match TakeStr(old(pack.Contents()))
            case Beyond => r == None
            case Got((s, rest)) => r == Some(s) && pack.Contents() == rest
    ensures StrRead(old(pack.Contents()), r, pack.Contents())
  {
    hide FromBigEndian, TakeStr, StrRead;
    ghost var was := pack.Contents();
    FirstByte(was);
    var ok, n := pack.ReadInt(1);
    if !ok {
      StrReadIs(was, None, pack.Contents());
      return None;
    }
    var found, dst := pack.ReadBytes(n);
    r := Some(if found then dst else Zeros(n));
    StrReadIs(was, r, pack.Contents());
  }

  // In bytes: no length byte, a text as long as it says, or, when there is not so much
  // left, as many zeros and just the length byte taken.
  predicate StrRead(d: seq<byte>, r: Option<str>, rest: seq<byte>) {
    && (r == None <==> d == [])
    && (r != None ==> |r.value| == d[0])
    && (r != None && d[0] < |d| ==> r.value == d[1..1 + d[0]] && rest == d[1 + d[0]..])
    && (r != None && d[0] >= |d| ==> (forall i :: 0 <= i < d[0] ==> r.value[i] == 0) && rest == d[1..])
  }

  lemma StrReadIs(d: seq<byte>, r: Option<str>, rest: seq<byte>)
    requires TakeStr(d).Beyond? ==> r == None
    requires TakeStr(d).Got? ==> r == Some(TakeStr(d).value.0) && rest == TakeStr(d).value.1
    ensures StrRead(d, r, rest)
  {
  }

  lemma FirstByte(d: seq<byte>)
    ensures d == [] ==> TakeStr(d) == Beyond
    ensures d != [] ==> FromBigEndian(d[..1]) == d[0]
    ensures d != [] ==> TakeStr(d) == if |d| - 1 < d[0] then Got((Zeros(d[0]), d[1..]))
                                      else Got((d[1..][..d[0]], d[1..][d[0]..]))
  {
    if d != [] {
      assert d[..1][..0] == [];
      if d[0] <= |d| - 1 {
        assert d[1..][..d[0]] == d[1..1 + d[0]];
        assert d[1..][d[0]..] == d[1 + d[0]..];
      }
    }
  }

  // ------------------------------------------------------------------ records

  method WriteSrv(pack: DataBuffer, v: Srv)
    requires pack.Valid()
    modifies pack.Repr()
    ensures pack.Valid() && fresh(pack.Repr() - old(pack.Repr()))
    ensures pack.Contents() == old(pack.Contents()) + SrvBytes(v)
    ensures pack.pdata == old(pack.pdata) || pack.pdata == 0
  {
    hide StrBytes, BigEndian;
    pack.WriteInt32(v.load);
    pack.WriteInt16(v.port);
    WriteStr(pack, v.ip);
    WriteStr(pack, v.id);
    Regroup4(old(pack.Contents()), BigEndian(v.load, 4), BigEndian(v.port, 2), StrBytes(v.ip), StrBytes(v.id));
  }

  lemma Regroup4<T>(w: seq<T>, a: seq<T>, b: seq<T>, c: seq<T>, d: seq<T>)
    ensures w + a + b + c + d == w + (a + (b + (c + d)))
  {
  }

  lemma Regroup7<T>(w: seq<T>, a: seq<T>, b: seq<T>, c: seq<T>, d: seq<T>, e: seq<T>, f: seq<T>, g: seq<T>)
    ensures w + a + b + c + d + e + f + g == w + (a + (b + (c + (d + (e + (f + g))))))
  {
    Regroup4(w + a + b + c, d, e, f, g);
    Regroup4(w, a, b, c, d + (e + (f + g)));
  }

  method WriteAddress(pack: DataBuffer, ip: str, tcp: uint16, udp: uint16)
    requires pack.Valid()
    modifies pack.Repr()
    ensures pack.Valid() && fresh(pack.Repr() - old(pack.Repr()))
    ensures pack.Contents() == old(pack.Contents()) + AddressBytes(ip, tcp, udp)
    ensures pack.pdata == old(pack.pdata) || pack.pdata == 0
  {
    hide StrBytes, BigEndian;
    WriteStr(pack, ip);
    pack.WriteInt16(tcp);
    pack.WriteInt16(udp);
    Assoc(old(pack.Contents()) + StrBytes(ip), BigEndian(tcp, 2), BigEndian(udp, 2));
    Assoc(old(pack.Contents()), StrBytes(ip), BigEndian(tcp, 2) + BigEndian(udp, 2));
  }

  method WriteCorp(pack: DataBuffer, c: Corp)
    requires pack.Valid()
    modifies pack.Repr()
    ensures pack.Valid() && fresh(pack.Repr() - old(pack.Repr()))
    ensures pack.Contents() == old(pack.Contents()) + CorpBytes(c)
    ensures pack.pdata == old(pack.pdata) || pack.pdata == 0
  {
    hide StrBytes, AddressBytes;
    ghost var m, sl := AddressBytes(c.masterIp, c.masterTcp, c.masterUdp), AddressBytes(c.slaveIp, c.slaveTcp, c.slaveUdp);
    WriteStr(pack, c.corpId);
    WriteAddress(pack, c.masterIp, c.masterTcp, c.masterUdp);
    WriteAddress(pack, c.slaveIp, c.slaveTcp, c.slaveUdp);
    Assoc(old(pack.Contents()) + StrBytes(c.corpId), m, sl);
    Assoc(old(pack.Contents()), StrBytes(c.corpId), m + sl);
  }

  // A field without a value of its own: none when the packet ends before it.
  method ReadField(pack: DataBuffer, width: nat) returns (r: Option<nat>)
    requires pack.Valid()
    modifies pack
    ensures pack.Valid() && pack.buf == old(pack.buf)
    ensures match TakeInt(old(pack.Contents()), width)
            case Beyond => r == None
            case Got((n, rest)) => r == Some(n) && pack.Contents() == rest
  {
    var ok, n := pack.ReadInt(width);
    r := if ok then Some(n) else None;
  }

  // A checked read that leaves `was` in the field when the packet is too short.
  method ReadOr(pack: DataBuffer, width: nat, was: nat) returns (n: nat)
    requires pack.Valid()
    modifies pack
    ensures pack.Valid() && pack.buf == old(pack.buf)
    ensures (n, pack.Contents()) == TakeOr(old(pack.Contents()), width, was)
  {
    var ok, m := pack.ReadInt(width);
    n := if ok then m else was;
  }

  method ReadSrv(pack: DataBuffer) returns (r: Option<Srv>)
    requires pack.Valid()
    modifies pack
    ensures pack.Valid() && pack.buf == old(pack.buf)
    ensures match TakeSrv(old(pack.Contents()))
            case Beyond => r == None
            case Got((v, rest)) => r == Some(v) && pack.Contents() == rest
  {
    hide TakeInt, TakeStr, StrRead;
    r := None;
    var load := ReadField(pack, 4);
    if load.None? { return; }
    var port := ReadField(pack, 2);
    if port.None? { return; }
    var ip := ReadStr(pack);
    if ip.None? { return; }
    var id := ReadStr(pack);
    if id.None? { return; }
    r := Some(Srv(load.value % MAX32, port.value % MAX16, ip.value, id.value));
  }

  method ReadAddress(pack: DataBuffer) returns (r: Option<Address>)
    requires pack.Valid()
    modifies pack
    ensures pack.Valid() && pack.buf == old(pack.buf)
    ensures match TakeAddress(old(pack.Contents()))
            case Beyond => r == None
            case Got((a, rest)) => r == Some(a) && pack.Contents() == rest
  {
    hide TakeInt, TakeStr, StrRead;
    r := None;
    var ip := ReadStr(pack);
    if ip.None? { return; }
    var tcp := ReadField(pack, 2);
    if tcp.None? { return; }
    var udp := ReadField(pack, 2);
    if udp.None? { return; }
    r := Some(Address(ip.value, tcp.value % MAX16, udp.value % MAX16));
  }

  method ReadCorp(pack: DataBuffer) returns (r: Option<Corp>)
    requires pack.Valid()
    modifies pack
    ensures pack.Valid() && pack.buf == old(pack.buf)
    ensures match TakeCorp(old(pack.Contents()))
            case Beyond => r == None
            case Got((c, rest)) => r == Some(c) && pack.Contents() == rest
  {
    hide TakeAddress, TakeStr, StrRead;
    r := None;
    var corpId := ReadStr(pack);
    if corpId.None? { return; }
    var master := ReadAddress(pack);
    if master.None? { return; }
    var slave := ReadAddress(pack);
    if slave.None? { return; }
    r := Some(Corp(corpId.value, master.value.ip, master.value.tcp, master.value.udp,
                   slave.value.ip, slave.value.tcp, slave.value.udp));
  }

  // --------------------------------------------------------------------- loops

  method WriteSrvs(pack: DataBuffer, vs: seq<Srv>)
    requires pack.Valid()
    modifies pack.Repr()
    ensures pack.Valid() && fresh(pack.Repr() - old(pack.Repr()))
    ensures pack.Contents() == old(pack.Contents()) + SrvsBytes(vs)
    ensures pack.pdata == old(pack.pdata) || pack.pdata == 0
  {
    hide SrvBytes;
    var i := 0;
    while i < |vs|
      invariant 0 <= i <= |vs|
      invariant pack.Valid() && fresh(pack.Repr() - old(pack.Repr()))
      invariant pack.Contents() == old(pack.Contents()) + SrvsBytes(vs[..i])
      invariant pack.pdata == old(pack.pdata) || pack.pdata == 0
    {
      WriteSrv(pack, vs[i]);
      assert vs[..i + 1][..i] == vs[..i];
      Assoc(old(pack.Contents()), SrvsBytes(vs[..i]), SrvBytes(vs[i]));
      i := i + 1;
    }
    assert vs[..i] == vs;
  }

  method WriteCorps(pack: DataBuffer, cs: seq<Corp>)
    requires pack.Valid()
    modifies pack.Repr()
    ensures pack.Valid() && fresh(pack.Repr() - old(pack.Repr()))
    ensures pack.Contents() == old(pack.Contents()) + CorpsBytes(cs)
    ensures pack.pdata == old(pack.pdata) || pack.pdata == 0
  {
    hide CorpBytes;
    var i := 0;
    while i < |cs|
      invariant 0 <= i <= |cs|
      invariant pack.Valid() && fresh(pack.Repr() - old(pack.Repr()))
      invariant pack.Contents() == old(pack.Contents()) + CorpsBytes(cs[..i])
      invariant pack.pdata == old(pack.pdata) || pack.pdata == 0
    {
      WriteCorp(pack, cs[i]);
      assert cs[..i + 1][..i] == cs[..i];
      Assoc(old(pack.Contents()), CorpsBytes(cs[..i]), CorpBytes(cs[i]));
      i := i + 1;
    }
    assert cs[..i] == cs;
  }

  method ReadSrvs(pack: DataBuffer, count: nat) returns (r: Option<seq<Srv>>)
    requires pack.Valid()
    modifies pack
    ensures pack.Valid() && pack.buf == old(pack.buf)
    ensures match TakeSrvs(count, old(pack.Contents()))
            case Beyond => r == None
            case Got((vs, rest)) => r == Some(vs) && pack.Contents() == rest
  {
    hide TakeSrv;
    var vs: seq<Srv> := [];
    var i := 0;
    while i < count
      invariant 0 <= i <= count
      invariant pack.Valid() && pack.buf == old(pack.buf)
      invariant TakeSrvs(i, old(pack.Contents())) == Got((vs, pack.Contents()))
    {
      var v := ReadSrv(pack);
      if v.None? {
        SrvsStayBeyond(i + 1, count, old(pack.Contents()));
        return None;
      }
      vs := vs + [v.value];
      i := i + 1;
    }
    r := Some(vs);
  }

  method ReadCorps(pack: DataBuffer, count: nat) returns (r: Option<seq<Corp>>)
    requires pack.Valid()
    modifies pack
    ensures pack.Valid() && pack.buf == old(pack.buf)
    ensures match TakeCorps(count, old(pack.Contents()))
            case Beyond => r == None
            case Got((cs, rest)) => r == Some(cs) && pack.Contents() == rest
  {
    hide TakeCorp;
    var cs: seq<Corp> := [];
    var i := 0;
    while i < count
      invariant 0 <= i <= count
      invariant pack.Valid() && pack.buf == old(pack.buf)
      invariant TakeCorps(i, old(pack.Contents())) == Got((cs, pack.Contents()))
    {
      var c := ReadCorp(pack);
      if c.None? {
        CorpsStayBeyond(i + 1, count, old(pack.Contents()));
        return None;
      }
      cs := cs + [c.value];
      i := i + 1;
    }
    r := Some(cs);
  }

  lemma {:induction false} SrvsStayBeyond(i: nat, count: nat, d: seq<byte>)
    requires i <= count && TakeSrvs(i, d).Beyond?
    ensures TakeSrvs(count, d).Beyond?
  {
    hide TakeSrv;
    if i < count {
      SrvsStayBeyond(i, count - 1, d);
    }
  }

  lemma {:induction false} CorpsStayBeyond(i: nat, count: nat, d: seq<byte>)
    requires i <= count && TakeCorps(i, d).Beyond?
    ensures TakeCorps(count, d).Beyond?
  {
    hide TakeCorp;
    if i < count {
      CorpsStayBeyond(i, count - 1, d);
    }
  }

  method WriteMasked(pack: DataBuffer, mask: byte, bit: nat, s: str)
    requires pack.Valid() && bit > 0
    modifies pack.Repr()
    ensures pack.Valid() && fresh(pack.Repr() - old(pack.Repr()))
    ensures pack.Contents() == old(pack.Contents()) + MaskedBytes(mask, bit, s)
    ensures pack.pdata == old(pack.pdata) || pack.pdata == 0
  {
    hide StrBytes;
    if HasBit(mask, bit) {
      WriteStr(pack, s);
    }
  }

  method ReadMasked(pack: DataBuffer, mask: byte, bit: nat, was: str) returns (r: Option<str>)
    requires pack.Valid() && bit > 0
    modifies pack
    ensures pack.Valid() && pack.buf == old(pack.buf)
    ensures match TakeMasked(mask, bit, was, old(pack.Contents()))
            case Beyond => r == None
            case Got((s, rest)) => r == Some(s) && pack.Contents() == rest
  {
    hide TakeStr, StrRead;
    if HasBit(mask, bit) {
      r := ReadStr(pack);
    } else {
      r := Some(was);
    }
  }

  // -------------------------------------------------------------------- bodies

  // What body leaves in `_count`.
  function CountSent(c: Content, count: uint16): uint16 {
    match c
    case SrvListRsp(_, _, srvs) => |srvs| % MAX16
    case CorpInfoAllRsp(_, corps) => |corps| % MAX16
    case _ => count
  }

  class MsgPacket {
    var header: Header
    var content: Content
    var count: uint16

    constructor (k: Kind, seqNo: uint32)
      ensures header == Header(MSG_VERSION, TypeCode(k), seqNo, 0) && content == Blank(k) && count == 0
    {
      header := Header(MSG_VERSION, TypeCode(k), seqNo, 0);
      content := Blank(k);
      count := 0;
    }

    method Body(pack: DataBuffer)
      requires pack.Valid()
      modifies this`count, pack.Repr()
      ensures pack.Valid() && fresh(pack.Repr() - old(pack.Repr()))
      ensures pack.Contents() == old(pack.Contents()) + ContentBytes(content)
      ensures pack.pdata == old(pack.pdata) || pack.pdata == 0
      ensures count == CountSent(content, old(count))
    {
      hide ContentBytes;
      NoBytes(pack.Contents());
      match content {
        case SrvListRsp(result, kind, srvs) =>
          count := |srvs| % MAX16;
          WriteSrvList(pack, result, kind, srvs);
        case CorpInfoAllReq =>
        case CorpInfoAllRsp(result, corps) =>
          count := |corps| % MAX16;
          WriteCorpList(pack, result, corps);
        case VehicleInfoMod(mask, phone, oem, auth, city, flag, termType) =>
          WriteVehicle(pack, mask, phone, oem, auth, city, flag, termType);
      }
    }

    // The length goes to the eighth byte of the block and counts all but one header:
    // right for a packet that was new, wrong for one that held bytes or was read from.
    method Pack(pack: DataBuffer)
      requires pack.Valid()
      modifies this`count, pack.Repr()
      ensures pack.Valid() && fresh(pack.Repr() - old(pack.Repr()))
      ensures pack.pdata == old(pack.pdata) || pack.pdata == 0
      ensures count == CountSent(content, old(count))
      ensures var all := old(pack.Contents()) + HeaderBytes(header) + ContentBytes(content);
              pack.Contents() == Patched(all, pack.pdata, 8, BigEndian((|all| - COMM_HEADER) % MAX32, 4))
      ensures old(pack.pdata) == 0 && old(pack.Contents()) == [] ==>
                pack.pdata == 0
                && pack.Contents() == HeaderBytes(header.(len := |ContentBytes(content)| % MAX32)) + ContentBytes(content)
    {
      hide BigEndian, ContentBytes, HeaderBytes, Patched;
      HeaderSized(header);
      WriteHeader(pack, header);
      Body(pack);
      var total := pack.GetDataLen();
      var len := (total - COMM_HEADER) % MAX32;
      ghost var body := ContentBytes(content);
      if old(pack.Contents()) == [] {
        assert [] + HeaderBytes(header) == HeaderBytes(header);
        FillLen(header, (|HeaderBytes(header) + body| - COMM_HEADER) % MAX32, body);
        PatchedInside(HeaderBytes(header) + body, 8, BigEndian((|HeaderBytes(header) + body| - COMM_HEADER) % MAX32, 4));
      }
      pack.FillInt32(len, 8);
    }

    // Fields are read over, or left, and list items appended.
    method Unbody(pack: DataBuffer) returns (ok: bool)
      requires pack.Valid()
      modifies this`content, this`count, pack
      ensures pack.Valid() && pack.buf == old(pack.buf)
      ensures match TakeOver(old(content), old(count), old(pack.Contents()))
              case Beyond => !ok
              case Got((c, rest)) =>
                ok && content == c && pack.Contents() == rest
                && count == CountTaken(old(content), old(count), old(pack.Contents()))
    {
      match KindOf(content) {
        case SrvList => ok := UnbodySrvList(pack);
        case AllReq => ok := true;
        case AllRsp => ok := UnbodyCorpList(pack);
        case VehicleMod => ok := UnbodyVehicle(pack);
      }
    }

    method UnbodySrvList(pack: DataBuffer) returns (ok: bool)
      requires pack.Valid() && content.SrvListRsp?
      modifies this`content, this`count, pack
      ensures pack.Valid() && pack.buf == old(pack.buf)
      ensures match TakeSrvList(old(content), old(count), old(pack.Contents()))
              case Beyond => !ok
              case Got((c, rest)) =>
                ok && content == c && pack.Contents() == rest
                && count == CountTaken(old(content), old(count), old(pack.Contents()))
    {
      hide TakeSrvs;
      ShortFits(TakeOr(TakeOr(pack.Contents(), 1, 0).1, 4, 0).1);
      var result := ReadOr(pack, 1, content.result);
      var kind := ReadOr(pack, 4, content.srvKind);
      var n := ReadOr(pack, 2, count);
      count := n % MAX16;
      var srvs := ReadSrvs(pack, n);
      if srvs.None? { return false; }
      content := SrvListRsp(result % 256, kind % MAX32, content.srvs + srvs.value);
      ok := true;
    }

    method UnbodyCorpList(pack: DataBuffer) returns (ok: bool)
      requires pack.Valid() && content.CorpInfoAllRsp?
      modifies this`content, this`count, pack
      ensures pack.Valid() && pack.buf == old(pack.buf)
      ensures match TakeCorpList(old(content), old(count), old(pack.Contents()))
              case Beyond => !ok
              case Got((c, rest)) =>
                ok && content == c && pack.Contents() == rest
                && count == CountTaken(old(content), old(count), old(pack.Contents()))
    {
      hide TakeCorps;
      ShortFits(TakeOr(pack.Contents(), 1, 0).1);
      var result := ReadOr(pack, 1, content.result);
      var n := ReadOr(pack, 2, count);
      count := n % MAX16;
      var corps := ReadCorps(pack, n);
      if corps.None? { return false; }
      content := CorpInfoAllRsp(result % 256, content.corps + corps.value);
      ok := true;
    }

    method UnbodyVehicle(pack: DataBuffer) returns (ok: bool)
      requires pack.Valid() && content.VehicleInfoMod?
      modifies this`content, pack
      ensures pack.Valid() && pack.buf == old(pack.buf)
      ensures match TakeVehicle(old(content), old(pack.Contents()))
              case Beyond => !ok
              case Got((c, rest)) => ok && content == c && pack.Contents() == rest
    {
      hide TakeOr, TakeStr, TakeMasked, StrRead;
      ok := false;
      var m := ReadOr(pack, 1, content.mask);
      var mask := m % 256;
      var phone := ReadStr(pack);
      if phone.None? { return; }
      var oem := ReadMasked(pack, mask, MASK_OEM, content.oem);
      if oem.None? { return; }
      var auth := ReadMasked(pack, mask, MASK_AUTH, content.auth);
      if auth.None? { return; }
      var city := ReadMasked(pack, mask, MASK_CITY, content.city);
      if city.None? { return; }
      var flag := ReadMasked(pack, mask, MASK_FLAG, content.flag);
      if flag.None? { return; }
      var termType := ReadMasked(pack, mask, MASK_TERM_TYPE, content.termType);
      if termType.None? { return; }
      content := VehicleInfoMod(mask, phone.value, oem.value, auth.value, city.value, flag.value, termType.value);
      ok := true;
    }

    // False when the header does not fit the packet, or the body reads beyond it.
    method Unpack(pack: DataBuffer) returns (ok: bool)
      requires pack.Valid()
      modifies this, pack
      ensures pack.Valid() && pack.buf == old(pack.buf)
      ensures match UnpackedOver(old(content), old(count), old(pack.Contents()))
              case Beyond => !ok
              case Got((h, c)) => ok && header == h && content == c
    {
      hide TakeOver;
      var fits := UnpackHeader(pack);
      if !fits { return false; }
      ok := Unbody(pack);
    }

    method UnpackHeader(pack: DataBuffer) returns (ok: bool)
      requires pack.Valid()
      modifies this`header, pack
      ensures pack.Valid() && pack.buf == old(pack.buf)
      ensures match TakeHeader(old(pack.Contents()))
              case None => !ok
              case Some((h, rest)) => ok && header == h && pack.Contents() == rest
    {
      hide FromBigEndian;
      ghost var was := pack.Contents();
      var size := pack.GetDataLen();
      if size < COMM_HEADER { return false; }
      var _, ver := pack.ReadInt(2);
      var _, kind := pack.ReadInt(2);
      var _, seqNo := pack.ReadInt(4);
      var _, len := pack.ReadInt(4);
      HeaderPieces(was);
      header := Header(ver % MAX16, kind % MAX16, seqNo % MAX32, len % MAX32);
      ok := header.len >= 0x8000_0000 || header.len <= size - COMM_HEADER;
    }
  }

  lemma NoBytes(w: seq<byte>)
    ensures w + ContentBytes(CorpInfoAllReq) == w
  {
  }

  method WriteSrvList(pack: DataBuffer, result: byte, kind: uint32, srvs: seq<Srv>)
    requires pack.Valid()
    modifies pack.Repr()
    ensures pack.Valid() && fresh(pack.Repr() - old(pack.Repr()))
    ensures pack.pdata == old(pack.pdata) || pack.pdata == 0
    ensures pack.Contents() == old(pack.Contents()) + ContentBytes(SrvListRsp(result, kind, srvs))
  {
    hide BigEndian, SrvsBytes;
    var count := |srvs| % MAX16;
    pack.WriteInt8(result);
    pack.WriteInt32(kind);
    pack.WriteInt16(count);
    WriteSrvs(pack, srvs[..count]);
    Regroup4(old(pack.Contents()), BigEndian(result, 1), BigEndian(kind, 4), BigEndian(count, 2), SrvsBytes(srvs[..count]));
  }

  method WriteCorpList(pack: DataBuffer, result: byte, corps: seq<Corp>)
    requires pack.Valid()
    modifies pack.Repr()
    ensures pack.Valid() && fresh(pack.Repr() - old(pack.Repr()))
    ensures pack.pdata == old(pack.pdata) || pack.pdata == 0
    ensures pack.Contents() == old(pack.Contents()) + ContentBytes(CorpInfoAllRsp(result, corps))
  {
    hide BigEndian, CorpsBytes;
    var count := |corps| % MAX16;
    pack.WriteInt8(result);
    pack.WriteInt16(count);
    WriteCorps(pack, corps[..count]);
    Assoc(old(pack.Contents()), BigEndian(result, 1), BigEndian(count, 2));
    Assoc(old(pack.Contents()), BigEndian(result, 1) + BigEndian(count, 2), CorpsBytes(corps[..count]));
    Assoc(BigEndian(result, 1), BigEndian(count, 2), CorpsBytes(corps[..count]));
  }

  method WriteVehicle(pack: DataBuffer, mask: byte, phone: str, oem: str, auth: str, city: str, flag: str, termType: str)
    requires pack.Valid()
    modifies pack.Repr()
    ensures pack.Valid() && fresh(pack.Repr() - old(pack.Repr()))
    ensures pack.pdata == old(pack.pdata) || pack.pdata == 0
    ensures pack.Contents() == old(pack.Contents())
            + ContentBytes(VehicleInfoMod(mask, phone, oem, auth, city, flag, termType))
  {
    hide BigEndian, StrBytes, MaskedBytes, ContentBytes, HasBit;
    VehicleJoins(pack.Contents(), mask, phone, oem, auth, city, flag, termType);
    pack.WriteInt8(mask);
    WriteStr(pack, phone);
    WriteMasked(pack, mask, MASK_OEM, oem);
    WriteMasked(pack, mask, MASK_AUTH, auth);
    WriteMasked(pack, mask, MASK_CITY, city);
    WriteMasked(pack, mask, MASK_FLAG, flag);
    WriteMasked(pack, mask, MASK_TERM_TYPE, termType);
  }

  lemma VehicleJoins(w: seq<byte>, mask: byte, phone: str, oem: str, auth: str, city: str, flag: str, termType: str)
    ensures w + BigEndian(mask, 1) + StrBytes(phone) + MaskedBytes(mask, MASK_OEM, oem) + MaskedBytes(mask, MASK_AUTH, auth)
            + MaskedBytes(mask, MASK_CITY, city) + MaskedBytes(mask, MASK_FLAG, flag)
            + MaskedBytes(mask, MASK_TERM_TYPE, termType)
         == w + ContentBytes(VehicleInfoMod(mask, phone, oem, auth, city, flag, termType))
  {
    hide BigEndian, StrBytes, MaskedBytes;
    Regroup7(w, BigEndian(mask, 1), StrBytes(phone), MaskedBytes(mask, MASK_OEM, oem),
             MaskedBytes(mask, MASK_AUTH, auth), MaskedBytes(mask, MASK_CITY, city),
             MaskedBytes(mask, MASK_FLAG, flag), MaskedBytes(mask, MASK_TERM_TYPE, termType));
  }

  method WriteHeader(pack: DataBuffer, h: Header)
    requires pack.Valid()
    modifies pack.Repr()
    ensures pack.Valid() && fresh(pack.Repr() - old(pack.Repr()))
    ensures pack.pdata == old(pack.pdata) || pack.pdata == 0
    ensures pack.Contents() == old(pack.Contents()) + HeaderBytes(h)
  {
    hide BigEndian;
    pack.WriteInt16(h.ver);
    pack.WriteInt16(h.kind);
    pack.WriteInt32(h.seqNo);
    pack.WriteInt32(h.len);
    Regroup4(old(pack.Contents()), BigEndian(h.ver, 2), BigEndian(h.kind, 2), BigEndian(h.seqNo, 4), BigEndian(h.len, 4));
  }

  // fill_int32(len, 8) hits the length field.
  lemma FillLen(h: Header, len: uint32, body: seq<byte>)
    ensures var d := HeaderBytes(h) + body;
            d[..8] + BigEndian(len, 4) + d[12..] == HeaderBytes(h.(len := len)) + body
  {
    hide BigEndian;
    var d := HeaderBytes(h) + body;
    assert d[12..] == body;
    assert d[..8] == BigEndian(h.ver, 2) + (BigEndian(h.kind, 2) + BigEndian(h.seqNo, 4));
  }

  lemma HeaderPieces(d: seq<byte>)
    requires |d| >= COMM_HEADER
    ensures d[2..][..2] == d[2..4] && d[2..][2..][..4] == d[4..8]
    ensures d[2..][2..][4..][..4] == d[8..12] && d[2..][2..][4..][4..] == d[12..]
  {
  }
}
