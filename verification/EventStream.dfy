/**
 Network events: how they are printed on a stream and how the event-stream parser reads them back.

 The texts are written with the text `k` that follows them.  The stream remembers whether numbers
 are printed in hexadecimal, so a text also depends on the state of the stream before it.
 */
module EventStream {
  import opened Wrappers
  import opened LineHandler

  type U64 = n: nat | n <= ULONG_MAX
  type U32 = n: nat | n < 0x1_0000_0000
  type I32 = n: int | -0x8000_0000 <= n < 0x8000_0000
  type Byte = n: nat | n < 256
  type MacAddress = s: seq<Byte> | |s| == 6 witness [0, 0, 0, 0, 0, 0]

  datatype EthernetHeader = EthernetHeader(lengthType: U64, src: MacAddress, dst: MacAddress)
  datatype ArpHeader = ArpHeader(isRequest: bool, src: U32, dst: U32)
  datatype Ipv4Header = Ipv4Header(length: U64, src: U32, dst: U32)
  datatype DeviceType = CosimNetDevice | SimpleNetDevice
  datatype BoundaryType = WithinSimulator | FromAdapter | ToAdapter
  datatype Kind = Enqueue | Dequeue | Drop

  datatype NetworkEvent = NetworkEvent(
    kind: Kind, timestamp: U64, parserIdent: U64, parserName: string,
    node: I32, device: I32, deviceType: DeviceType, packetUid: U64, interesting: bool, payloadSize: U64,
    boundaryType: BoundaryType,
    eth: Option<EthernetHeader>, arp: Option<ArpHeader>, ip: Option<Ipv4Header>)

  // ---------------------------------------------------------------- texts

  function DigitChar(d: nat): char
    requires d < 16
  {
    if d < 10 then '0' + d as char else 'a' + (d - 10) as char
  }

  function Digits(base: nat, n: nat): (s: string)
    requires base == 10 || base == 16
    ensures s != []
  {
    if n < base then [DigitChar(n)] else Digits(base, n / base) + [DigitChar(n % base)]
  }

  function Base(hex: bool): nat { if hex then 16 else 10 }

  function IntDigits(n: int): string { if n < 0 then "-" + Digits(10, -n) else Digits(10, n) }

  function Hex2(b: Byte): string { if b < 16 then "0" + Digits(16, b) else Digits(16, b) }

  function MacText(m: MacAddress, i: nat, k: string): string
    requires i < 6
    decreases |m| - i
  {
    Hex2(m[i]) + (if i == 5 then k else ":" + MacText(m, i + 1, k))
  }

  function IpText(ip: U32, k: string): string {
    Digits(10, ip / 0x100_0000) + ("." + (Digits(10, ip / 0x1_0000 % 256)
      + ("." + (Digits(10, ip / 0x100 % 256) + ("." + (Digits(10, ip % 256) + k))))))
  }

  function EthText(h: EthernetHeader, k: string): string {
    "EthernetHeader(" + ("length/type=0x" + (Digits(16, h.lengthType) + (", source="
      + MacText(h.src, 0, ", destination=" + MacText(h.dst, 0, ")" + k)))))
  }

  function ArpText(h: ArpHeader, k: string): string {
    "ns3::ArpHeader(" + ((if h.isRequest then "request" else "reply")
      + (" source ipv4: " + IpText(h.src, " dest ipv4: " + IpText(h.dst, ")" + k))))
  }

  function IpHeaderText(hex: bool, h: Ipv4Header, k: string): string {
    "Ipv4Header(" + ("length: " + (Digits(Base(hex), h.length) + (" "
      + IpText(h.src, " > " + IpText(h.dst, ")" + k)))))
  }

  function IpPart(hex: bool, e: NetworkEvent, k: string): string {
    if e.ip.Some? then ", " + IpHeaderText(hex, e.ip.value, k) else k
  }

  function ArpPart(hex: bool, e: NetworkEvent, k: string): string {
    if e.arp.Some? then ", " + ArpText(e.arp.value, IpPart(hex, e, k)) else IpPart(hex, e, k)
  }

  /** The Ethernet header leaves the stream in decimal. */
  function HeaderPart(hex: bool, e: NetworkEvent, k: string): string {
    if e.eth.Some? then ", " + EthText(e.eth.value, ArpPart(false, e, k)) else ArpPart(hex, e, k)
  }

  function KindName(kind: Kind): string {
    match kind case Enqueue => "NetworkEnqueue" case Dequeue => "NetworkDequeue" case Drop => "NetworkDrop"
  }

  function DeviceName(d: DeviceType): string {
    match d case CosimNetDevice => "ns3::CosimNetDevice" case SimpleNetDevice => "ns3::SimpleNetDevice"
  }

  function BoundaryName(b: BoundaryType): string {
    match b
    case WithinSimulator => "kWithinSimulator"
    case FromAdapter => "kFromAdapter"
    case ToAdapter => "kToAdapter"
  }

  function BoolText(b: bool): string { if b then "true" else "false" }

  function NetworkPart(e: NetworkEvent, k: string): string {
    ", node=" + (IntDigits(e.node) + (", device=" + (IntDigits(e.device) + (", device_name="
      + (DeviceName(e.deviceType) + (", packet-uid=" + (Digits(10, e.packetUid) + (", interesting="
      + (BoolText(e.interesting) + (", payload_size=" + (Digits(10, e.payloadSize) + (", boundary_type="
      + (BoundaryName(e.boundaryType) + k)))))))))))))
  }

  function PrefixOf(hex: bool, e: NetworkEvent, k: string): string {
    KindName(e.kind) + (": source_id=" + (Digits(Base(hex), e.parserIdent) + (", source_name="
      + (e.parserName + (", timestamp=" + (Digits(10, e.timestamp) + k))))))
  }

  function EventText(hex: bool, e: NetworkEvent, k: string): string {
    PrefixOf(hex, e, NetworkPart(e, HeaderPart(hex, e, k)))
  }

  function HexAfter(hex: bool, e: NetworkEvent): bool { hex && e.eth.None? }

  // ---------------------------------------------------------------- printing

  /** An output stream with its sticky format state.  The ghost argument `k` of every operation is
      the text that is going to follow. */
  class OStream {
    var text: string
    var hex: bool
    var fill: char

    constructor ()
      ensures text == "" && !hex && fill == ' '
    {
      text, hex, fill := "", false, ' ';
    }

    method Put(s: string, ghost k: string)
      modifies this`text
      ensures old(text) + (s + k) == text + k
    {
      text := text + s;
    }

    method PutUnsigned(n: nat, ghost k: string)
      modifies this`text
      ensures old(text) + (Digits(Base(hex), n) + k) == text + k
    {
      Put(Digits(Base(hex), n), k);
    }

    /** `setfill('0') << setw(2) << hex << byte` */
    method PutByte(b: Byte, ghost k: string)
      modifies this
      ensures old(text) + (Hex2(b) + k) == text + k && hex && fill == '0'
    {
      fill, hex := '0', true;
      var digits := Digits(16, b);
      Put(if b < 16 then [fill] + digits else digits, k);
    }

    method PutMac(m: MacAddress, ghost k: string)
      modifies this
      ensures old(text) + MacText(m, 0, k) == text + k && !hex && fill == ' '
    {
      PutByte(m[0], ":" + MacText(m, 1, k));
      var index := 1;
      while index < 6
        invariant 1 <= index <= 6
        invariant old(text) + MacText(m, 0, k) == text + (if index == 6 then k else ":" + MacText(m, index, k))
      {
        Put(":", MacText(m, index, k));
        PutByte(m[index], if index == 5 then k else ":" + MacText(m, index + 1, k));
        index := index + 1;
      }
      fill := ' ';
      hex := false;
    }

    method PutIp(ip: U32, ghost k: string)
      modifies this`text
      ensures old(text) + IpText(ip, k) == text + k
    {
      ghost var k1 := Digits(10, ip % 256) + k;
      ghost var k2 := Digits(10, ip / 0x100 % 256) + ("." + k1);
      ghost var k3 := Digits(10, ip / 0x1_0000 % 256) + ("." + k2);
      Put(Digits(10, ip / 0x100_0000), "." + k3);
      Put(".", k3);
      Put(Digits(10, ip / 0x1_0000 % 256), "." + k2);
      Put(".", k2);
      Put(Digits(10, ip / 0x100 % 256), "." + k1);
      Put(".", k1);
      Put(Digits(10, ip % 256), k);
    }

    method PutEthernet(h: EthernetHeader, ghost k: string)
      modifies this
      ensures old(text) + EthText(h, k) == text + k && !hex && fill == ' '
    {
      ghost var k1 := ", destination=" + MacText(h.dst, 0, ")" + k);
      ghost var k2 := ", source=" + MacText(h.src, 0, k1);
      Put("EthernetHeader(", "length/type=0x" + (Digits(16, h.lengthType) + k2));
      Put("length/type=0x", Digits(16, h.lengthType) + k2);
      hex := true;
      PutUnsigned(h.lengthType, k2);
      Put(", source=", MacText(h.src, 0, k1));
      PutMac(h.src, k1);
      Put(", destination=", MacText(h.dst, 0, ")" + k));
      PutMac(h.dst, ")" + k);
      Put(")", k);
    }

    method PutArp(h: ArpHeader, ghost k: string)
      modifies this`text
      ensures old(text) + ArpText(h, k) == text + k
    {
      ghost var k1 := " dest ipv4: " + IpText(h.dst, ")" + k);
      ghost var k2 := " source ipv4: " + IpText(h.src, k1);
      Put("ns3::ArpHeader(", (if h.isRequest then "request" else "reply") + k2);
      Put(if h.isRequest then "request" else "reply", k2);
      Put(" source ipv4: ", IpText(h.src, k1));
      PutIp(h.src, k1);
      Put(" dest ipv4: ", IpText(h.dst, ")" + k));
      PutIp(h.dst, ")" + k);
      Put(")", k);
    }

    method PutIpHeader(h: Ipv4Header, ghost k: string)
      modifies this`text
      ensures old(text) + IpHeaderText(hex, h, k) == text + k
    {
      ghost var k1 := " > " + IpText(h.dst, ")" + k);
      ghost var k2 := " " + IpText(h.src, k1);
      Put("Ipv4Header(", "length: " + (Digits(Base(hex), h.length) + k2));
      Put("length: ", Digits(Base(hex), h.length) + k2);
      PutUnsigned(h.length, k2);
      Put(" ", IpText(h.src, k1));
      PutIp(h.src, k1);
      Put(" > ", IpText(h.dst, ")" + k));
      PutIp(h.dst, ")" + k);
      Put(")", k);
    }

    /** NetworkEvent::Display after Event::Display. */
    method PutNetworkPart(e: NetworkEvent, ghost k: string)
      modifies this`text
      ensures old(text) + NetworkPart(e, k) == text + k
    {
      ghost var k1 := ", boundary_type=" + (BoundaryName(e.boundaryType) + k);
      ghost var k2 := ", payload_size=" + (Digits(10, e.payloadSize) + k1);
      ghost var k3 := ", interesting=" + (BoolText(e.interesting) + k2);
      ghost var k4 := ", packet-uid=" + (Digits(10, e.packetUid) + k3);
      ghost var k5 := ", device_name=" + (DeviceName(e.deviceType) + k4);
      ghost var k6 := ", device=" + (IntDigits(e.device) + k5);
      Put(", node=", IntDigits(e.node) + k6);
      Put(IntDigits(e.node), k6);
      Put(", device=", IntDigits(e.device) + k5);
      Put(IntDigits(e.device), k5);
      Put(", device_name=", DeviceName(e.deviceType) + k4);
      Put(DeviceName(e.deviceType), k4);
      Put(", packet-uid=", Digits(10, e.packetUid) + k3);
      Put(Digits(10, e.packetUid), k3);
      Put(", interesting=", BoolText(e.interesting) + k2);
      Put(BoolText(e.interesting), k2);
      Put(", payload_size=", Digits(10, e.payloadSize) + k1);
      Put(Digits(10, e.payloadSize), k1);
      Put(", boundary_type=", BoundaryName(e.boundaryType) + k);
      Put(BoundaryName(e.boundaryType), k);
    }

    method PutHeaders(e: NetworkEvent, ghost k: string)
      modifies this
      ensures old(text) + HeaderPart(old(hex), e, k) == text + k && hex == HexAfter(old(hex), e)
    {
      if e.eth.Some? {
        ghost var rest := ArpPart(false, e, k);
        Put(", ", EthText(e.eth.value, rest));
        PutEthernet(e.eth.value, rest);
      }
      PutArpAndIp(e, k);
    }

    method PutArpAndIp(e: NetworkEvent, ghost k: string)
      modifies this`text
      ensures old(text) + ArpPart(hex, e, k) == text + k
    {
      if e.arp.Some? {
        ghost var rest := IpPart(hex, e, k);
        Put(", ", ArpText(e.arp.value, rest));
        PutArp(e.arp.value, rest);
      }
      if e.ip.Some? {
        Put(", ", IpHeaderText(hex, e.ip.value, k));
        PutIpHeader(e.ip.value, k);
      }
    }

    /** Event::Display */
    method PutPrefix(e: NetworkEvent, ghost k: string)
      modifies this`text
      ensures old(text) + PrefixOf(hex, e, k) == text + k
    {
      ghost var k2 := ", timestamp=" + (Digits(10, e.timestamp) + k);
      ghost var k3 := ", source_name=" + (e.parserName + k2);
      Put(KindName(e.kind), ": source_id=" + (Digits(Base(hex), e.parserIdent) + k3));
      Put(": source_id=", Digits(Base(hex), e.parserIdent) + k3);
      PutUnsigned(e.parserIdent, k3);
      Put(", source_name=", e.parserName + k2);
      Put(e.parserName, k2);
      Put(", timestamp=", Digits(10, e.timestamp) + k);
      Put(Digits(10, e.timestamp), k);
    }

    method PutEvent(e: NetworkEvent, ghost k: string)
      modifies this
      ensures old(text) + EventText(old(hex), e, k) == text + k && hex == HexAfter(old(hex), e)
    {
      ghost var headers := HeaderPart(hex, e, k);
      PutPrefix(e, NetworkPart(e, headers));
      PutNetworkPart(e, headers);
      PutHeaders(e, k);
    }
  }

  // ---------------------------------------------------------------- what the parser computes

  /** One byte of an address and, unless it is the last, the colon after it. */
  function MacByte(r: string, last: bool): (Option<Byte>, string) {
    match ParseUint(16, r)
    case None => (None, r)
    case Some((v, r1)) =>
      if last then (Some(v % 256), r1)
      else match Literal(r1, ":") case None => (None, r1) case Some(r2) => (Some(v % 256), r2)
  }

  function MacBytes(r: string, i: nat, acc: seq<Byte>): (Option<MacAddress>, string)
    requires |acc| == i < 6
    decreases 6 - i, |r|
  {
    match MacByte(r, i == 5)
    case (None, r1) => (None, r1)
    case (Some(b), r1) => if i == 5 then (Some(acc + [b]), r1) else MacBytes(r1, i + 1, acc + [b])
  }

  function ReadMac(r: string): (Option<MacAddress>, string) { MacBytes(DropSpaces(r), 0, []) }

  /** One octet and, unless it is the last, the dot after it. */
  function Octet(r: string, last: bool): (o: (Option<Byte>, string)) {
    match ParseUint(10, r)
    case None => (None, r)
    case Some((v, r1)) =>
      if v > 255 then (None, r1)
      else if last then (Some(v), r1)
      else match Literal(r1, ".") case None => (None, r1) case Some(r2) => (Some(v), r2)
  }

  function Octets(r: string, i: nat, acc: seq<Byte>): (Option<U32>, string)
    requires |acc| == i < 4
    decreases 4 - i, |r|
  {
    match Octet(r, i == 3)
    case (None, r1) => (None, r1)
    case (Some(v), r1) => if i == 3 then (Some(IpOf(acc + [v])), r1) else Octets(r1, i + 1, acc + [v])
  }

  function IpOf(octets: seq<Byte>): U32
    requires |octets| == 4
  {
    var a: nat, b: nat, c: nat, d: nat := octets[0], octets[1], octets[2], octets[3];
    a * 0x100_0000 + b * 0x1_0000 + c * 0x100 + d
  }

  function ReadIp(r: string): (Option<U32>, string) { Octets(r, 0, []) }

  function ReadMacAfter(r: string, pat: string): (Option<MacAddress>, string) {
    match TillString(r, pat) case None => (None, r) case Some(r1) => ReadMac(r1)
  }

  function ReadMacs(lengthType: U64, r: string): (Option<EthernetHeader>, string) {
    match ReadMacAfter(r, "source=") case (None, r1) => (None, r1) case (Some(src), r1) =>
    match ReadMacAfter(r1, "destination=") case (None, r2) => (None, r2) case (Some(dst), r2) =>
    (Some(EthernetHeader(lengthType, src, dst)), r2)
  }

  function ReadEthernet(r: string): (Option<EthernetHeader>, string) {
    var r0 := DropSpaces(r);
    match TillString(r0, "EthernetHeader") case None => (None, r0) case Some(r1) =>
    match TillString(r1, "length/type=0x") case None => (None, r1) case Some(r2) =>
    match ParseUint(16, r2) case None => (None, r2) case Some((lengthType, r3)) =>
    ReadMacs(lengthType, r3)
  }

  function ReadIpAfter(r: string, pat: string): (Option<U32>, string) {
    match TillString(r, pat) case None => (None, r) case Some(r1) => ReadIp(r1)
  }

  function ReadArpBody(isRequest: bool, r: string): (Option<ArpHeader>, string) {
    match ReadIpAfter(r, " source ipv4: ") case (None, r1) => (None, r1) case (Some(src), r1) =>
    match ReadIpAfter(r1, " dest ipv4: ") case (None, r2) => (None, r2) case (Some(dst), r2) =>
    (Some(ArpHeader(isRequest, src, dst)), r2)
  }

  function ReadArp(r: string): (Option<ArpHeader>, string) {
    var r0 := DropSpaces(r);
    match TillString(r0, "ns3::ArpHeader") case None => (None, r0) case Some(r1) =>
    match TillString(r1, "request") case Some(r2) => ReadArpBody(true, r2) case None =>
    match TillString(r1, "reply") case Some(r2) => ReadArpBody(false, r2) case None => (None, r1)
  }

  function ReadIps(length: U64, r: string): (Option<Ipv4Header>, string) {
    match ReadIp(DropSpaces(r)) case (None, r1) => (None, r1) case (Some(src), r1) =>
    var r2 := DropSpaces(r1);
    match Literal(r2, ">") case None => (None, r2) case Some(r3) =>
    match ReadIp(DropSpaces(r3)) case (None, r4) => (None, r4) case (Some(dst), r4) =>
    (Some(Ipv4Header(length, src, dst)), r4)
  }

  function ReadIpHeader(r: string): (Option<Ipv4Header>, string) {
    var r0 := DropSpaces(r);
    match TillString(r0, "Ipv4Header") case None => (None, r0) case Some(r1) =>
    match TillString(r1, "length: ") case None => (None, r1) case Some(r2) =>
    match ParseUint(10, r2) case None => (None, r2) case Some((length, r3)) => ReadIps(length, r3)
  }

  predicate IsDeviceChar(c: char) { IsAlnum(c) || c == ':' }
  predicate IsNameChar(c: char) { IsAlnum(c) || c == '-' }
  predicate NotColon(c: char) { c != ':' }

  /** ExtractAndSubstrUntilInto fails on an empty token. */
  function Token(r: string, pred: char -> bool): Option<(string, string)> {
    var k := TokenLen(r, pred);
    if k == 0 then None else Some((r[..k], r[k..]))
  }

  function ReadBool(r: string): Option<(bool, string)> {
    match Literal(r, "true") case Some(r1) => Some((true, r1)) case None =>
    match Literal(r, "false") case Some(r1) => Some((false, r1)) case None => None
  }

  datatype Fields = Fields(node: I32, device: I32, deviceName: string, packetUid: U64, interesting: bool,
                           payloadSize: U64, boundaryName: string, rest: string)

  function IntField(r: string, lit: string): Option<(I32, string)> {
    var r1 :- Literal(r, lit);
    ParseIntText(r1)
  }

  function UintField(r: string, lit: string): Option<(U64, string)> {
    var r1 :- Literal(r, lit);
    ParseUint(10, r1)
  }

  function TokenField(r: string, lit: string, pred: char -> bool): Option<(string, string)> {
    var r1 :- Literal(r, lit);
    Token(r1, pred)
  }

  function ReadIds(r: string): Option<(I32, I32, string, string)> {
    var (node, r1) :- IntField(r, ", node=");
    var (device, r2) :- IntField(r1, ", device=");
    var (deviceName, r3) :- TokenField(r2, ", device_name=", IsDeviceChar);
    Some((node, device, deviceName, r3))
  }

  function ReadPacket(r: string): Option<(U64, bool, string)> {
    var r1 :- TillString(r, "packet-uid=");
    var (packetUid, r2) :- ParseUint(10, r1);
    var r3 :- TillString(r2, "interesting=");
    var (interesting, r4) :- ReadBool(r3);
    Some((packetUid, interesting, r4))
  }

  function ReadPayload(r: string): Option<(U64, string, string)> {
    var (payloadSize, r1) :- UintField(r, ", payload_size=");
    var (boundaryName, r2) :- TokenField(r1, ", boundary_type=", IsAlnum);
    Some((payloadSize, boundaryName, r2))
  }

  /** The fields up to the boundary type. */
  function ReadFields(r: string): Option<Fields> {
    var (node, device, deviceName, r1) :- ReadIds(r);
    var (packetUid, interesting, r2) :- ReadPacket(r1);
    var (payloadSize, boundaryName, r3) :- ReadPayload(r2);
    Some(Fields(node, device, deviceName, packetUid, interesting, payloadSize, boundaryName, r3))
  }

  function DeviceOf(name: string): Option<DeviceType> {
    if name == "ns3::CosimNetDevice" then Some(CosimNetDevice)
    else if name == "ns3::SimpleNetDevice" then Some(SimpleNetDevice)
    else None
  }

  function BoundaryOf(name: string): Option<BoundaryType> {
    if name == "kToAdapter" then Some(ToAdapter)
    else if name == "kFromAdapter" then Some(FromAdapter)
    else if name == "kWithinSimulator" then Some(WithinSimulator)
    else None
  }

  datatype Headers = Headers(eth: Option<EthernetHeader>, arp: Option<ArpHeader>, ip: Option<Ipv4Header>)

  function ReadHeaders(r: string): Headers {
    var (eth, r1) := ReadEthernet(DropSpaces(r));
    var (arp, r2) := ReadArp(DropSpaces(r1));
    var (ip, _) := ReadIpHeader(DropSpaces(r2));
    Headers(eth, arp, ip)
  }

  datatype Prefix = Prefix(ident: U64, name: string, ts: U64, rest: string)

  /** ParseIdentNameTs */
  function ReadPrefix(r: string): Option<Prefix> {
    var (ident, r1) :- UintField(r, ": source_id=");
    var (name, r2) :- TokenField(r1, ", source_name=", IsNameChar);
    var (ts, r3) :- UintField(r2, ", timestamp=");
    Some(Prefix(ident, name, ts, r3))
  }

  function ReadNetworkEvent(kind: Kind, p: Prefix): Option<NetworkEvent> {
    var f :- ReadFields(p.rest);
    var deviceType :- DeviceOf(f.deviceName);
    var boundaryType :- BoundaryOf(f.boundaryName);
    var h := ReadHeaders(f.rest);
    Some(NetworkEvent(kind, p.ts, p.ident, p.name, f.node, f.device, deviceType, f.packetUid, f.interesting,
                      f.payloadSize, boundaryType, h.eth, h.arp, h.ip))
  }

  function KindOf(name: string): Option<Kind> {
    if name == "NetworkEnqueue" then Some(Enqueue)
    else if name == "NetworkDequeue" then Some(Dequeue)
    else if name == "NetworkDrop" then Some(Drop)
    else None
  }

  /** The other kinds of events; what is printed for them and read back is not modelled. */
  const OtherKinds: set<string> := {
    "SimSendSyncSimSendSync", "SimProcInEvent", "HostInstr", "HostCall", "HostMmioImRespPoW", "HostMmioCR",
    "HostMmioCW", "HostDmaC", "HostMmioR", "HostMmioW", "HostDmaR", "HostDmaW", "HostMsiX", "HostConfRead",
    "HostConfWrite", "HostClearInt", "HostPostInt", "HostPciR", "HostPciW", "NicMsix", "NicMsi", "SetIX", "NicDmaI",
    "NicDmaEx", "NicDmaEn", "NicDmaCR", "NicDmaCW", "NicMmioR", "NicMmioW", "NicTx", "NicRx" }

  /** A parsed line: a network event, nothing, or a line of one of the kinds that are not modelled. */
  datatype Parsed = Network(event: NetworkEvent) | Null | OtherKind(name: string)

  /** What the rest of a line stands for, once the event's name and the prefix are read. */
  function ReadKind(name: string, p: Prefix): Parsed {
    match KindOf(name)
    case None => if name in OtherKinds then OtherKind(name) else Null
    case Some(kind) => match ReadNetworkEvent(kind, p) case None => Null case Some(e) => Network(e)
  }

  function ReadEvent(line: string): Parsed {
    var r := DropSpaces(line);
    var k := TokenLen(r, NotColon);
    var name := r[..k];
    if name == "" then Null
    else match ReadPrefix(r[k..]) case None => Null case Some(p) => ReadKind(name, p)
  }
}
