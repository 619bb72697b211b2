/**
 The event-stream parser: methods that move a `LineHandler` over the line, each tied to the function
 of `EventStream` that says what it reads and where it leaves the cursor.
 */
module EventParser {
  import opened Wrappers
  import opened Cursor = LineHandler
  import opened EventStream

  method ParseMacByte(lh: Cursor.LineHandler, last: bool) returns (byte: Option<Byte>)
    requires lh.Valid()
    modifies lh
    ensures lh.Valid() && (byte, lh.Left()) == MacByte(old(lh.Left()), last)
  {
    var ok, byteBuf := lh.ParseUintTrim(16);
    if !ok {
      return None;
    }
    if !last {
      ok := lh.ConsumeAndTrimChar(':');
      if !ok {
        return None;
      }
    }
    byte := Some(byteBuf % 256);
  }

  method ParseMacAddress(lh: Cursor.LineHandler) returns (mac: Option<MacAddress>)
    requires lh.Valid()
    modifies lh
    ensures lh.Valid() && (mac, lh.Left()) == ReadMac(old(lh.Left()))
  {
    lh.TrimL();
    ghost var start := lh.Left();
    var addr: seq<Byte> := [];
    var index := 0;
    while index < 6
      invariant lh.Valid() && |addr| == index <= 6
      invariant MacBytes(start, 0, []) == if index == 6 then (Some(addr), lh.Left()) else MacBytes(lh.Left(), index, addr)
    {
      var byte := ParseMacByte(lh, index == 5);
      if byte.None? {
        return None;
      }
      addr := addr + [byte.value];
      index := index + 1;
    }
    mac := Some(addr);
  }

  method ParseOctet(lh: Cursor.LineHandler, last: bool) returns (octet: Option<Byte>)
    requires lh.Valid()
    modifies lh
    ensures lh.Valid() && (octet, lh.Left()) == Octet(old(lh.Left()), last)
  {
    var ok, value := lh.ParseUintTrim(10);
    if !ok || value > 255 {
      return None;
    }
    if !last {
      ok := lh.ConsumeAndTrimChar('.');
      if !ok {
        return None;
      }
    }
    octet := Some(value);
  }

  method ParseIpAddress(lh: Cursor.LineHandler) returns (ip: Option<U32>)
    requires lh.Valid()
    modifies lh
    ensures lh.Valid() && (ip, lh.Left()) == ReadIp(old(lh.Left()))
  {
    ghost var start := lh.Left();
    var octets: seq<Byte> := [];
    for index := 0 to 4
      invariant lh.Valid() && |octets| == index
      invariant Octets(start, 0, []) == if index == 4 then (Some(IpOf(octets)), lh.Left())
                                        else Octets(lh.Left(), index, octets)
    {
      var octet := ParseOctet(lh, index == 3);
      if octet.None? {
        return None;
      }
      octets := octets + [octet.value];
    }
    ip := Some(IpOf(octets));
  }

  method ParseMacAfter(lh: Cursor.LineHandler, pat: string) returns (mac: Option<MacAddress>)
    requires lh.Valid()
    modifies lh
    ensures lh.Valid() && (mac, lh.Left()) == ReadMacAfter(old(lh.Left()), pat)
  {
    var ok := lh.ConsumeAndTrimTillString(pat);
    if !ok {
      return None;
    }
    mac := ParseMacAddress(lh);
  }

  method ParseMacs(lh: Cursor.LineHandler, lengthType: U64) returns (header: Option<EthernetHeader>)
    requires lh.Valid()
    modifies lh
    ensures lh.Valid() && (header, lh.Left()) == ReadMacs(lengthType, old(lh.Left()))
  {
    var src := ParseMacAfter(lh, "source=");
    if src.None? {
      return None;
    }
    var dst := ParseMacAfter(lh, "destination=");
    if dst.None? {
      return None;
    }
    header := Some(EthernetHeader(lengthType, src.value, dst.value));
  }

  method TryParseEthernetHeader(lh: Cursor.LineHandler) returns (header: Option<EthernetHeader>)
    requires lh.Valid()
    modifies lh
    ensures lh.Valid() && (header, lh.Left()) == ReadEthernet(old(lh.Left()))
  {
    lh.TrimL();
    var ok := lh.ConsumeAndTrimTillString("EthernetHeader");
    if !ok {
      return None;
    }
    ok := lh.ConsumeAndTrimTillString("length/type=0x");
    if !ok {
      return None;
    }
    var lengthType;
    ok, lengthType := lh.ParseUintTrim(16);
    if !ok {
      return None;
    }
    header := ParseMacs(lh, lengthType);
  }

  method ParseIpAfter(lh: Cursor.LineHandler, pat: string) returns (ip: Option<U32>)
    requires lh.Valid()
    modifies lh
    ensures lh.Valid() && (ip, lh.Left()) == ReadIpAfter(old(lh.Left()), pat)
  {
    var ok := lh.ConsumeAndTrimTillString(pat);
    if !ok {
      return None;
    }
    ip := ParseIpAddress(lh);
  }

  method ParseArpBody(lh: Cursor.LineHandler, isRequest: bool) returns (header: Option<ArpHeader>)
    requires lh.Valid()
    modifies lh
    ensures lh.Valid() && (header, lh.Left()) == ReadArpBody(isRequest, old(lh.Left()))
  {
    var src := ParseIpAfter(lh, " source ipv4: ");
    if src.None? {
      return None;
    }
    var dst := ParseIpAfter(lh, " dest ipv4: ");
    if dst.None? {
      return None;
    }
    header := Some(ArpHeader(isRequest, src.value, dst.value));
  }

  method TryParseArpHeader(lh: Cursor.LineHandler) returns (header: Option<ArpHeader>)
    requires lh.Valid()
    modifies lh
    ensures lh.Valid() && (header, lh.Left()) == ReadArp(old(lh.Left()))
  {
    lh.TrimL();
    var ok := lh.ConsumeAndTrimTillString("ns3::ArpHeader");
    if !ok {
      return None;
    }
    ok := lh.ConsumeAndTrimTillString("request");
    if ok {
      header := ParseArpBody(lh, true);
      return;
    }
    ok := lh.ConsumeAndTrimTillString("reply");
    if ok {
      header := ParseArpBody(lh, false);
      return;
    }
    header := None;
  }

  method ParseIps(lh: Cursor.LineHandler, length: U64) returns (header: Option<Ipv4Header>)
    requires lh.Valid()
    modifies lh
    ensures lh.Valid() && (header, lh.Left()) == ReadIps(length, old(lh.Left()))
  {
    lh.TrimL();
    var src := ParseIpAddress(lh);
    if src.None? {
      return None;
    }
    lh.TrimL();
    var ok := lh.ConsumeAndTrimChar('>');
    if !ok {
      return None;
    }
    lh.TrimL();
    var dst := ParseIpAddress(lh);
    if dst.None? {
      return None;
    }
    header := Some(Ipv4Header(length, src.value, dst.value));
  }

  method TryParseIpHeader(lh: Cursor.LineHandler) returns (header: Option<Ipv4Header>)
    requires lh.Valid()
    modifies lh
    ensures lh.Valid() && (header, lh.Left()) == ReadIpHeader(old(lh.Left()))
  {
    lh.TrimL();
    var ok := lh.ConsumeAndTrimTillString("Ipv4Header");
    if !ok {
      return None;
    }
    ok := lh.ConsumeAndTrimTillString("length: ");
    if !ok {
      return None;
    }
    var length;
    ok, length := lh.ParseUintTrim(10);
    if !ok {
      return None;
    }
    header := ParseIps(lh, length);
  }

  method ParseBoolFromStringRepr(lh: Cursor.LineHandler) returns (ok: bool, target: bool)
    requires lh.Valid()
    modifies lh
    ensures lh.Valid() && ok == ReadBool(old(lh.Left())).Some?
    ensures if ok then ReadBool(old(lh.Left())) == Some((target, lh.Left())) else lh.Left() == old(lh.Left())
  {
    target := true;
    ok := lh.ConsumeAndTrimString("true");
    if !ok {
      target := false;
      ok := lh.ConsumeAndTrimString("false");
    }
  }

  /** ExtractAndSubstrUntilInto */
  method ParseToken(lh: Cursor.LineHandler, pred: char -> bool) returns (ok: bool, target: string)
    requires lh.Valid()
    modifies lh
    ensures lh.Valid() && ok == Token(old(lh.Left()), pred).Some?
    ensures if ok then Token(old(lh.Left()), pred) == Some((target, lh.Left())) else lh.Left() == old(lh.Left())
  {
    ghost var left := lh.Left();
    target := lh.ExtractAndSubstrUntil(pred);
    ok := target != "";
  }

  method ParseIntField(lh: Cursor.LineHandler, lit: string) returns (ok: bool, target: I32)
    requires lh.Valid()
    modifies lh
    ensures lh.Valid() && ok == IntField(old(lh.Left()), lit).Some?
    ensures ok ==> IntField(old(lh.Left()), lit) == Some((target, lh.Left()))
  {
    target := 0;
    ok := lh.ConsumeAndTrimString(lit);
    if ok {
      ok, target := lh.ParseInt();
    }
  }

  method ParseUintField(lh: Cursor.LineHandler, lit: string) returns (ok: bool, target: U64)
    requires lh.Valid()
    modifies lh
    ensures lh.Valid() && ok == UintField(old(lh.Left()), lit).Some?
    ensures ok ==> UintField(old(lh.Left()), lit) == Some((target, lh.Left()))
  {
    target := 0;
    ok := lh.ConsumeAndTrimString(lit);
    if ok {
      ok, target := lh.ParseUintTrim(10);
    }
  }

  method ParseTokenField(lh: Cursor.LineHandler, lit: string, pred: char -> bool) returns (ok: bool, target: string)
    requires lh.Valid()
    modifies lh
    ensures lh.Valid() && ok == TokenField(old(lh.Left()), lit, pred).Some?
    ensures ok ==> TokenField(old(lh.Left()), lit, pred) == Some((target, lh.Left()))
  {
    target := "";
    ok := lh.ConsumeAndTrimString(lit);
    if ok {
      ok, target := ParseToken(lh, pred);
    }
  }

  method ParseIdentNameTs(lh: Cursor.LineHandler) returns (ok: bool, ident: U64, name: string, ts: U64)
    requires lh.Valid()
    modifies lh
    ensures lh.Valid() && ok == ReadPrefix(old(lh.Left())).Some?
    ensures ok ==> ReadPrefix(old(lh.Left())) == Some(Prefix(ident, name, ts, lh.Left()))
  {
    name, ts := "", 0;
    ok, ident := ParseUintField(lh, ": source_id=");
    if !ok {
      return;
    }
    ok, name := ParseTokenField(lh, ", source_name=", IsNameChar);
    if !ok {
      return;
    }
    ok, ts := ParseUintField(lh, ", timestamp=");
  }

  method ParseIds(lh: Cursor.LineHandler) returns (ok: bool, node: I32, device: I32, deviceName: string)
    requires lh.Valid()
    modifies lh
    ensures lh.Valid() && ok == ReadIds(old(lh.Left())).Some?
    ensures ok ==> ReadIds(old(lh.Left())) == Some((node, device, deviceName, lh.Left()))
  {
    device, deviceName := 0, "";
    ok, node := ParseIntField(lh, ", node=");
    if !ok {
      return;
    }
    ok, device := ParseIntField(lh, ", device=");
    if !ok {
      return;
    }
    ok, deviceName := ParseTokenField(lh, ", device_name=", IsDeviceChar);
  }

  method ParsePacket(lh: Cursor.LineHandler) returns (ok: bool, packetUid: U64, interesting: bool)
    requires lh.Valid()
    modifies lh
    ensures lh.Valid() && ok == ReadPacket(old(lh.Left())).Some?
    ensures ok ==> ReadPacket(old(lh.Left())) == Some((packetUid, interesting, lh.Left()))
  {
    packetUid, interesting := 0, false;
    ok := lh.ConsumeAndTrimTillString("packet-uid=");
    if !ok {
      return;
    }
    ok, packetUid := lh.ParseUintTrim(10);
    if !ok {
      return;
    }
    ok := lh.ConsumeAndTrimTillString("interesting=");
    if !ok {
      return;
    }
    ok, interesting := ParseBoolFromStringRepr(lh);
  }

  method ParsePayload(lh: Cursor.LineHandler) returns (ok: bool, payloadSize: U64, boundaryName: string)
    requires lh.Valid()
    modifies lh
    ensures lh.Valid() && ok == ReadPayload(old(lh.Left())).Some?
    ensures ok ==> ReadPayload(old(lh.Left())) == Some((payloadSize, boundaryName, lh.Left()))
  {
    boundaryName := "";
    ok, payloadSize := ParseUintField(lh, ", payload_size=");
    if !ok {
      return;
    }
    ok, boundaryName := ParseTokenField(lh, ", boundary_type=", IsAlnum);
  }

  /** ParseNetworkEvent up to the boundary type. */
  method ParseFields(lh: Cursor.LineHandler) returns (ok: bool, node: I32, device: I32, deviceName: string,
      packetUid: U64, interesting: bool, payloadSize: U64, boundaryName: string)
    requires lh.Valid()
    modifies lh
    ensures lh.Valid() && ok == ReadFields(old(lh.Left())).Some?
    ensures ok ==> ReadFields(old(lh.Left())) ==
                   Some(Fields(node, device, deviceName, packetUid, interesting, payloadSize, boundaryName, lh.Left()))
  {
    packetUid, interesting, payloadSize, boundaryName := 0, false, 0, "";
    ok, node, device, deviceName := ParseIds(lh);
    if !ok {
      return;
    }
    ok, packetUid, interesting := ParsePacket(lh);
    if !ok {
      return;
    }
    ok, payloadSize, boundaryName := ParsePayload(lh);
  }

  method ParseHeaders(lh: Cursor.LineHandler)
      returns (eth: Option<EthernetHeader>, arp: Option<ArpHeader>, ip: Option<Ipv4Header>)
    requires lh.Valid()
    modifies lh
    ensures lh.Valid() && Headers(eth, arp, ip) == ReadHeaders(old(lh.Left()))
  {
    lh.TrimL();
    eth := TryParseEthernetHeader(lh);
    lh.TrimL();
    arp := TryParseArpHeader(lh);
    lh.TrimL();
    ip := TryParseIpHeader(lh);
  }

  method ParseNetworkEvent(lh: Cursor.LineHandler, kind: Kind, timestamp: U64, parserIdent: U64, parserName: string)
      returns (event: Option<NetworkEvent>)
    requires lh.Valid()
    modifies lh
    ensures lh.Valid()
    ensures event == ReadNetworkEvent(kind, Prefix(parserIdent, parserName, timestamp, old(lh.Left())))
  {
    var ok, node, device, deviceName, packetUid, interesting, payloadSize, boundaryName := ParseFields(lh);
    if !ok {
      return None;
    }
    var deviceType;
    if deviceName == "ns3::CosimNetDevice" {
      deviceType := CosimNetDevice;
    } else if deviceName == "ns3::SimpleNetDevice" {
      deviceType := SimpleNetDevice;
    } else {
      return None;
    }
    var boundaryType;
    if boundaryName == "kToAdapter" {
      boundaryType := ToAdapter;
    } else if boundaryName == "kFromAdapter" {
      boundaryType := FromAdapter;
    } else if boundaryName == "kWithinSimulator" {
      boundaryType := WithinSimulator;
    } else {
      return None;
    }
    var eth, arp, ip := ParseHeaders(lh);
    event := Some(NetworkEvent(kind, timestamp, parserIdent, parserName, node, device, deviceType, packetUid,
                               interesting, payloadSize, boundaryType, eth, arp, ip));
  }

  /** The result `OtherKind` stands for the branches that are not part of the model. */
  method ParseKind(lh: Cursor.LineHandler, eventName: string, ts: U64, parserIdent: U64, parserName: string)
      returns (res: Parsed)
    requires lh.Valid()
    modifies lh
    ensures lh.Valid() && res == ReadKind(eventName, Prefix(parserIdent, parserName, ts, old(lh.Left())))
  {
    var kind := KindOf(eventName);
    if kind.None? {
      return if eventName in OtherKinds then OtherKind(eventName) else Null;
    }
    var event := ParseNetworkEvent(lh, kind.value, ts, parserIdent, parserName);
    res := if event.None? then Null else Network(event.value);
  }

  method ParseEvent(lh: Cursor.LineHandler) returns (res: Parsed)
    requires lh.Valid()
    modifies lh
    ensures lh.Valid() && res == ReadEvent(old(lh.Left()))
  {
    lh.TrimL();
    var eventName := lh.ExtractAndSubstrUntil(NotColon);
    if eventName == "" {
      return Null;
    }
    var ok, parserIdent, parserName, ts := ParseIdentNameTs(lh);
    if !ok {
      return Null;
    }
    res := ParseKind(lh, eventName, ts, parserIdent, parserName);
  }
}
