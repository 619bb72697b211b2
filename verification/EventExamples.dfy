/**
 Lines as they stand in the log of a simulator, and the events that they say.
 */
module EventExamples {
  import opened Wrappers
  import opened LineHandler
  import opened EventStream
  import opened EventRoundTrip

  const FRAME: NetworkEvent := NetworkEvent(
    Enqueue, 1905164778000, 1, "NS3Parser-test-parser", 1, 2, CosimNetDevice, 0, true, 42, FromAdapter,
    Some(EthernetHeader(0x806, [0xb0, 0x9a, 0xac, 0x67, 0x3c, 0x98], [0xff, 0xff, 0xff, 0xff, 0xff, 0xff])), None, None)

  // ---------------------------------------------------------------- the numbers and names in them

  lemma Timestamp()
    ensures Digits(10, 1905164778000) == "1905164778000"
  {
  }

  lemma SmallNumbers()
    ensures Digits(10, 0) == "0" && Digits(10, 1) == "1" && Digits(10, 2) == "2" && Digits(10, 42) == "42"
    ensures Digits(10, 84) == "84"
    ensures Digits(10, 192) == "192" && Digits(10, 168) == "168" && Digits(10, 64) == "64"
    ensures Digits(16, 0x806) == "806"
  {
  }

  lemma NameChars()
    ensures forall i :: 0 <= i < |"NS3Parser-test-parser"| ==> IsNameChar("NS3Parser-test-parser"[i])
  {
  }

  lemma MacInTurn(m: MacAddress, k: string)
    ensures MacText(m, 0, k)
         == Hex2(m[0]) + (":" + (Hex2(m[1]) + (":" + (Hex2(m[2]) + (":" + (Hex2(m[3]) + (":" + (Hex2(m[4]) + (":" +
            (Hex2(m[5]) + k))))))))))
  {
    assert MacText(m, 4, k) == Hex2(m[4]) + (":" + (Hex2(m[5]) + k));
    assert MacText(m, 2, k) == Hex2(m[2]) + (":" + (Hex2(m[3]) + (":" + MacText(m, 4, k))));
  }

  lemma Addresses(k: string)
    ensures IpText(0xC0A8_4001, k) == "192" + ("." + ("168" + ("." + ("64" + ("." + ("1" + k))))))
    ensures IpText(0xC0A8_4000, k) == "192" + ("." + ("168" + ("." + ("64" + ("." + ("0" + k))))))
  {
    SmallNumbers();
  }

  lemma AdapterMac(k: string)
    ensures MacText([0xb0, 0x9a, 0xac, 0x67, 0x3c, 0x98], 0, k)
         == "b0" + (":" + ("9a" + (":" + ("ac" + (":" + ("67" + (":" + ("3c" + (":" + ("98" + k))))))))))
  {
    MacInTurn([0xb0, 0x9a, 0xac, 0x67, 0x3c, 0x98], k);
  }

  lemma Broadcast(k: string)
    ensures MacText([0xff, 0xff, 0xff, 0xff, 0xff, 0xff], 0, k)
         == "ff" + (":" + ("ff" + (":" + ("ff" + (":" + ("ff" + (":" + ("ff" + (":" + ("ff" + k))))))))))
  {
    MacInTurn([0xff, 0xff, 0xff, 0xff, 0xff, 0xff], k);
  }

  lemma AdapterHeader(k: string)
    ensures EthText(EthernetHeader(0x806, [0xb0, 0x9a, 0xac, 0x67, 0x3c, 0x98], [0xff, 0xff, 0xff, 0xff, 0xff, 0xff]), k)
         == "EthernetHeader(" + ("length/type=0x" + ("806" + (", source=" + ("b0" + (":" + ("9a" + (":" + ("ac" +
            (":" + ("67" + (":" + ("3c" + (":" + ("98" + (", destination=" + ("ff" + (":" + ("ff" + (":" + ("ff" +
            (":" + ("ff" + (":" + ("ff" + (":" + ("ff" + (")" + k)))))))))))))))))))))))))))
  {
    SmallNumbers();
    AdapterMac(", destination=" + MacText([0xff, 0xff, 0xff, 0xff, 0xff, 0xff], 0, ")" + k));
    Broadcast(")" + k);
  }

  lemma AdapterLineHead(h: string)
    ensures PrefixOf(false, FRAME, NetworkPart(FRAME, h))
         == "NetworkEnqueue" + (": source_id=" + ("1" + (", source_name=" + ("NS3Parser-test-parser" +
            (", timestamp=" + ("1905164778000" + (", node=" + ("1" + (", device=" + ("2" + (", device_name=" +
            ("ns3::CosimNetDevice" + (", packet-uid=" + ("0" + (", interesting=" + ("true" + (", payload_size=" +
            ("42" + (", boundary_type=" + ("kFromAdapter" + h))))))))))))))))))))
  {
    Timestamp();
    SmallNumbers();
  }

  lemma AdapterLineText()
    ensures EventText(false, FRAME, "")
         == "NetworkEnqueue" + (": source_id=" + ("1" + (", source_name=" + ("NS3Parser-test-parser" +
            (", timestamp=" + ("1905164778000" + (", node=" + ("1" + (", device=" + ("2" + (", device_name=" +
            ("ns3::CosimNetDevice" + (", packet-uid=" + ("0" + (", interesting=" + ("true" + (", payload_size=" +
            ("42" + (", boundary_type=" + ("kFromAdapter" + (", " + ("EthernetHeader(" + ("length/type=0x" +
            ("806" + (", source=" + ("b0" + (":" + ("9a" + (":" + ("ac" + (":" + ("67" + (":" + ("3c" + (":" +
            ("98" + (", destination=" + ("ff" + (":" + ("ff" + (":" + ("ff" + (":" + ("ff" + (":" + ("ff" + (":" +
            ("ff" + (")" + "")))))))))))))))))))))))))))))))))))))))))))))))))
    ensures Printable(false, FRAME)
  {
    NameChars();
    SmallNumbers();
    AdapterLineHead(HeaderPart(false, FRAME, ""));
    AdapterHeader("");
  }

  /** A whole line. */
  lemma AdapterLine()
    ensures ReadEvent(
      "NetworkEnqueue" + (": source_id=" + ("1" + (", source_name=" + ("NS3Parser-test-parser" + (", timestamp=" +
      ("1905164778000" + (", node=" + ("1" + (", device=" + ("2" + (", device_name=" + ("ns3::CosimNetDevice" +
      (", packet-uid=" + ("0" + (", interesting=" + ("true" + (", payload_size=" + ("42" + (", boundary_type=" +
      ("kFromAdapter" + (", " + ("EthernetHeader(" + ("length/type=0x" + ("806" + (", source=" + ("b0" + (":" +
      ("9a" + (":" + ("ac" + (":" + ("67" + (":" + ("3c" + (":" + ("98" + (", destination=" + ("ff" + (":" + ("ff" +
      (":" + ("ff" + (":" + ("ff" + (":" + ("ff" + (":" + ("ff" + (")" +
      ""))))))))))))))))))))))))))))))))))))))))))))))))))
      == Network(FRAME)
  {
    AdapterLineText();
    ReadIffPrintable(false, FRAME);
  }

  // ---------------------------------------------------------------- other headers

  lemma ArpHeaderText(k: string)
    ensures ArpText(ArpHeader(true, 0xC0A8_4001, 0xC0A8_4000), k)
         == "ns3::ArpHeader(" + ("request" + (" source ipv4: " + ("192" + ("." + ("168" + ("." + ("64" + ("." + ("1" +
            (" dest ipv4: " + ("192" + ("." + ("168" + ("." + ("64" + ("." + ("0" + (")" + k))))))))))))))))))
  {
    Addresses(" dest ipv4: " + IpText(0xC0A8_4000, ")" + k));
    Addresses(")" + k);
  }

  lemma ArpExample()
    ensures ReadArp(", " + (
      "ns3::ArpHeader(" + ("request" + (" source ipv4: " + ("192" + ("." + ("168" + ("." + ("64" + ("." + ("1" +
      (" dest ipv4: " + ("192" + ("." + ("168" + ("." + ("64" + ("." + ("0" + (")" + ""))))))))))))))))))))
      == (Some(ArpHeader(true, 0xC0A8_4001, 0xC0A8_4000)), ")")
  {
    ArpHeaderText("");
    assert ")" + "" == ")";
    ReadArpText(", ", ArpHeader(true, 0xC0A8_4001, 0xC0A8_4000), "");
  }

  lemma IpPartText(k: string)
    ensures IpHeaderText(false, Ipv4Header(84, 0xC0A8_4001, 0xC0A8_4000), k)
         == "Ipv4Header(" + ("length: " + ("84" + (" " + ("192" + ("." + ("168" + ("." + ("64" + ("." + ("1" + (" > " +
            ("192" + ("." + ("168" + ("." + ("64" + ("." + ("0" + (")" + k)))))))))))))))))))
  {
    SmallNumbers();
    Addresses(" > " + IpText(0xC0A8_4000, ")" + k));
    Addresses(")" + k);
  }

  lemma IpExample()
    ensures ReadIpHeader(", " + (
      "Ipv4Header(" + ("length: " + ("84" + (" " + ("192" + ("." + ("168" + ("." + ("64" + ("." + ("1" + (" > " +
      ("192" + ("." + ("168" + ("." + ("64" + ("." + ("0" + (")" + ""))))))))))))))))))))).0
      == Some(Ipv4Header(84, 0xC0A8_4001, 0xC0A8_4000))
  {
    IpPartText("");
    ReadIpHeaderText(false, ", ", Ipv4Header(84, 0xC0A8_4001, 0xC0A8_4000), "");
  }
}
