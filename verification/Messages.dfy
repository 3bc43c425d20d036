/** The wire form of the comm protocol's messages (src/pack/msgpack.h, src/pack/commproto.h,
    and read_str/write_str of src/pack/pack.cpp): what body writes, what unbody reads. */
module Messages {
  import opened Bytes
  import opened Framing

  const SRVLIST_RSP := 0x8003
  const WAS_VEHICLE_INFO_MOD := 0x1025
  const DP_CORP_INFO_ALL_REQ := 0x1037
  const DP_CORP_INFO_ALL_RSP := 0x8037

  const MASK_OEM := 0x01
  const MASK_AUTH := 0x02
  const MASK_CITY := 0x04
  const MASK_FLAG := 0x08
  const MASK_TERM_TYPE := 0x10

  type str = seq<byte>

  datatype Srv = Srv(load: uint32, port: uint16, ip: str, id: str)

  datatype Corp = Corp(corpId: str, masterIp: str, masterTcp: uint16, masterUdp: uint16,
                       slaveIp: str, slaveTcp: uint16, slaveUdp: uint16)

  datatype Header = Header(ver: uint16, kind: uint16, seqNo: uint32, len: uint32)

  // The fields of four message classes, without `_count`.
  datatype Content =
    | SrvListRsp(result: byte, srvKind: uint32, srvs: seq<Srv>)
    | CorpInfoAllReq
    | CorpInfoAllRsp(result: byte, corps: seq<Corp>)
    | VehicleInfoMod(mask: byte, phone: str, oem: str, auth: str, city: str, flag: str, termType: str)

  datatype Kind = SrvList | AllReq | AllRsp | VehicleMod

  function KindOf(c: Content): Kind {
    match c
    case SrvListRsp(_, _, _) => SrvList
    case CorpInfoAllReq => AllReq
    case CorpInfoAllRsp(_, _) => AllRsp
    case VehicleInfoMod(_, _, _, _, _, _, _) => VehicleMod
  }

  function TypeCode(k: Kind): uint16 {
    match k
    case SrvList => SRVLIST_RSP
    case AllReq => DP_CORP_INFO_ALL_REQ
    case AllRsp => DP_CORP_INFO_ALL_RSP
    case VehicleMod => WAS_VEHICLE_INFO_MOD
  }

  // The kind of a message by the type in its header.
  function KindOfCode(code: uint16): Option<Kind> {
    if code == SRVLIST_RSP then Some(SrvList)
    else if code == DP_CORP_INFO_ALL_REQ then Some(AllReq)
    else if code == DP_CORP_INFO_ALL_RSP then Some(AllRsp)
    else if code == WAS_VEHICLE_INFO_MOD then Some(VehicleMod)
    else None
  }

  // The fields as the constructors leave them.
  function Blank(k: Kind): Content {
    match k
    case SrvList => SrvListRsp(1, 0, [])
    case AllReq => CorpInfoAllReq
    case AllRsp => CorpInfoAllRsp(1, [])
    case VehicleMod => VehicleInfoMod(0, [], [], [], [], [], [])
  }

  predicate HasBit(mask: byte, bit: nat)
    requires bit > 0
  {
    mask / bit % 2 == 1
  }

  // -------------------------------------------------------------- writing

  // The length byte is the size truncated to eight bits.
  function StrBytes(s: str): seq<byte> {
    [|s| % 256] + s[..|s| % 256]
  }

  function SrvBytes(v: Srv): seq<byte> {
    BigEndian(v.load, 4) + (BigEndian(v.port, 2) + (StrBytes(v.ip) + StrBytes(v.id)))
  }

  function SrvsBytes(vs: seq<Srv>): seq<byte> {
    if vs == [] then [] else SrvsBytes(vs[..|vs| - 1]) + SrvBytes(vs[|vs| - 1])
  }

  function AddressBytes(ip: str, tcp: uint16, udp: uint16): seq<byte> {
    StrBytes(ip) + (BigEndian(tcp, 2) + BigEndian(udp, 2))
  }

  function CorpBytes(c: Corp): seq<byte> {
    StrBytes(c.corpId) + (AddressBytes(c.masterIp, c.masterTcp, c.masterUdp)
                          + AddressBytes(c.slaveIp, c.slaveTcp, c.slaveUdp))
  }

  function CorpsBytes(cs: seq<Corp>): seq<byte> {
    if cs == [] then [] else CorpsBytes(cs[..|cs| - 1]) + CorpBytes(cs[|cs| - 1])
  }

  function MaskedBytes(mask: byte, bit: nat, s: str): seq<byte>
    requires bit > 0
  {
    if HasBit(mask, bit) then StrBytes(s) else []
  }

  // The list size is truncated to sixteen bits, and only so many items follow.
  function ContentBytes(c: Content): seq<byte> {
    match c
    case SrvListRsp(result, kind, srvs) =>
      BigEndian(result, 1) + (BigEndian(kind, 4) + (BigEndian(|srvs| % MAX16, 2) + SrvsBytes(srvs[..|srvs| % MAX16])))
    case CorpInfoAllReq => []
    case CorpInfoAllRsp(result, corps) =>
      BigEndian(result, 1) + (BigEndian(|corps| % MAX16, 2) + CorpsBytes(corps[..|corps| % MAX16]))
    case VehicleInfoMod(mask, phone, oem, auth, city, flag, termType) =>
      BigEndian(mask, 1) + (StrBytes(phone) + (MaskedBytes(mask, MASK_OEM, oem) + (MaskedBytes(mask, MASK_AUTH, auth)
        + (MaskedBytes(mask, MASK_CITY, city) + (MaskedBytes(mask, MASK_FLAG, flag) + MaskedBytes(mask, MASK_TERM_TYPE, termType))))))
  }

  function HeaderBytes(h: Header): seq<byte> {
    BigEndian(h.ver, 2) + (BigEndian(h.kind, 2) + (BigEndian(h.seqNo, 4) + BigEndian(h.len, 4)))
  }

  // What pack leaves in a new packet: the length field holds the body's size.
  function Packed(seqNo: uint32, c: Content): seq<byte> {
    HeaderBytes(HeaderOf(seqNo, c)) + ContentBytes(c)
  }

  function HeaderOf(seqNo: uint32, c: Content): Header {
    Header(MSG_VERSION, TypeCode(KindOf(c)), seqNo, |ContentBytes(c)| % MAX32)
  }

  // -------------------------------------------------------------- reading

  // A value and the bytes behind it. Beyond is a read past the packet's end, or a
  // field left without a value: the program goes on with whatever was there.
  datatype Outcome<+T> = Beyond | Got(value: T) {
    predicate IsFailure() { Beyond? }
    function PropagateFailure<U>(): Outcome<U>
      requires Beyond?
    {
      Beyond
    }
    function Extract(): T
      requires Got?
    {
      value
    }
  }

  // A checked read into a field that has a value already.
  function TakeOr(d: seq<byte>, width: nat, was: nat): (nat, seq<byte>) {
    if |d| >= width then (FromBigEndian(d[..width]), d[width..]) else (was, d)
  }

  function TakeInt(d: seq<byte>, width: nat): Outcome<(nat, seq<byte>)> {
    if |d| >= width then Got((FromBigEndian(d[..width]), d[width..])) else Beyond
  }

  function Zeros(n: nat): seq<byte> {
    seq(n, _ => 0)
  }

  // The length byte is read unchecked; when the text is cut short nothing of it is
  // taken and the string keeps its new size.
  function TakeStr(d: seq<byte>): Outcome<(str, seq<byte>)> {
    if d == [] then Beyond
    else if |d| - 1 < d[0] then Got((Zeros(d[0]), d[1..]))
    else Got((d[1..1 + d[0]], d[1 + d[0]..]))
  }

  function TakeSrv(d: seq<byte>): Outcome<(Srv, seq<byte>)> {
    var (load, d1) :- TakeInt(d, 4);
    var (port, d2) :- TakeInt(d1, 2);
    var (ip, d3) :- TakeStr(d2);
    var (id, d4) :- TakeStr(d3);
    Got((Srv(load % MAX32, port % MAX16, ip, id), d4))
  }

  function TakeSrvs(count: nat, d: seq<byte>): Outcome<(seq<Srv>, seq<byte>)> {
    if count == 0 then Got(([], d))
    else
      var (vs, d1) :- TakeSrvs(count - 1, d);
      var (v, d2) :- TakeSrv(d1);
      Got((vs + [v], d2))
  }

  datatype Address = Address(ip: str, tcp: uint16, udp: uint16)

  function TakeAddress(d: seq<byte>): Outcome<(Address, seq<byte>)> {
    var (ip, d1) :- TakeStr(d);
    var (tcp, d2) :- TakeInt(d1, 2);
    var (udp, d3) :- TakeInt(d2, 2);
    Got((Address(ip, tcp % MAX16, udp % MAX16), d3))
  }

  function TakeCorp(d: seq<byte>): Outcome<(Corp, seq<byte>)> {
    var (corpId, d1) :- TakeStr(d);
    var (m, d2) :- TakeAddress(d1);
    var (sl, d3) :- TakeAddress(d2);
    Got((Corp(corpId, m.ip, m.tcp, m.udp, sl.ip, sl.tcp, sl.udp), d3))
  }

  function TakeCorps(count: nat, d: seq<byte>): Outcome<(seq<Corp>, seq<byte>)> {
    if count == 0 then Got(([], d))
    else
      var (cs, d1) :- TakeCorps(count - 1, d);
      var (c, d2) :- TakeCorp(d1);
      Got((cs + [c], d2))
  }

  // A field the mask leaves out stays as it was.
  function TakeMasked(mask: byte, bit: nat, was: str, d: seq<byte>): Outcome<(str, seq<byte>)>
    requires bit > 0
  {
    if HasBit(mask, bit) then TakeStr(d) else Got((was, d))
  }

  function TakeSrvList(was: Content, count: uint16, d: seq<byte>): Outcome<(Content, seq<byte>)>
    requires was.SrvListRsp?
  {
    var (result, d1) := TakeOr(d, 1, was.result);
    var (kind, d2) := TakeOr(d1, 4, was.srvKind);
    var (n, d3) := TakeOr(d2, 2, count);
    var (srvs, d4) :- TakeSrvs(n, d3);
    Got((SrvListRsp(result % 256, kind % MAX32, was.srvs + srvs), d4))
  }

  function TakeCorpList(was: Content, count: uint16, d: seq<byte>): Outcome<(Content, seq<byte>)>
    requires was.CorpInfoAllRsp?
  {
    var (result, d1) := TakeOr(d, 1, was.result);
    var (n, d2) := TakeOr(d1, 2, count);
    var (corps, d3) :- TakeCorps(n, d2);
    Got((CorpInfoAllRsp(result % 256, was.corps + corps), d3))
  }

  function TakeVehicle(was: Content, d: seq<byte>): Outcome<(Content, seq<byte>)>
    requires was.VehicleInfoMod?
  {
    var (m, d1) := TakeOr(d, 1, was.mask);
    var mask := m % 256;
    var (phone, d2) :- TakeStr(d1);
    var (oem, d3) :- TakeMasked(mask, MASK_OEM, was.oem, d2);
    var (auth, d4) :- TakeMasked(mask, MASK_AUTH, was.auth, d3);
    var (city, d5) :- TakeMasked(mask, MASK_CITY, was.city, d4);
    var (flag, d6) :- TakeMasked(mask, MASK_FLAG, was.flag, d5);
    var (termType, d7) :- TakeMasked(mask, MASK_TERM_TYPE, was.termType, d6);
    Got((VehicleInfoMod(mask, phone, oem, auth, city, flag, termType), d7))
  }

  // What unbody makes of a message that holds `was`: lists grow, and fields that are
  // not read stay. `count` is its `_count`, which is read over when it can be.
  function TakeOver(was: Content, count: uint16, d: seq<byte>): Outcome<(Content, seq<byte>)> {
    match was
    case SrvListRsp(_, _, _) => TakeSrvList(was, count, d)
    case CorpInfoAllReq => Got((CorpInfoAllReq, d))
    case CorpInfoAllRsp(_, _) => TakeCorpList(was, count, d)
    case VehicleInfoMod(_, _, _, _, _, _, _) => TakeVehicle(was, d)
  }

  function CountTaken(was: Content, count: uint16, d: seq<byte>): uint16 {
    match was
    case SrvListRsp(_, _, _) => TakeOr(TakeOr(TakeOr(d, 1, 0).1, 4, 0).1, 2, count).0 % MAX16
    case CorpInfoAllRsp(_, _) => TakeOr(TakeOr(d, 1, 0).1, 2, count).0 % MAX16
    case _ => count
  }

  // Of a new message, as the factory makes it.
  function TakeContent(k: Kind, d: seq<byte>): Outcome<(Content, seq<byte>)> {
    TakeOver(Blank(k), 0, d)
  }

  function TakeHeader(d: seq<byte>): Option<(Header, seq<byte>)> {
    if |d| < COMM_HEADER then None
    else
      var len := FromBigEndian(d[8..12]) % MAX32;
      // the length is compared as a signed number
      if len < 0x8000_0000 && len > |d| - COMM_HEADER then None
      else Some((Header(FromBigEndian(d[..2]) % MAX16, FromBigEndian(d[2..4]) % MAX16,
                        FromBigEndian(d[4..8]) % MAX32, len), d[12..]))
  }
}
