/**
 The parser undoes the printer: numbers, addresses, headers, whole events and whole files.
 */
module EventRoundTrip {
  import opened Wrappers
  import opened LineHandler
  import opened EventStream

  // ---------------------------------------------------------------- numbers

  /** The text that follows does not continue a number or a name. */
  predicate Closed(k: string) { k != [] ==> !IsAlnum(k[0]) }

  predicate AllDigits(base: nat, d: string) { forall i :: 0 <= i < |d| ==> IsDigit(base, d[i]) }

  lemma {:induction false} DigitsAreDigits(base: nat, n: nat)
    requires base == 10 || base == 16
    ensures AllDigits(base, Digits(base, n))
  {
    if n >= base {
      DigitsAreDigits(base, n / base);
    }
  }

  lemma {:induction false} ValueOfPrefix(base: nat, d: string, k: string, end: nat)
    requires end <= |d|
    ensures Value(base, d + k, 0, end) == Value(base, d, 0, end)
  {
    if end > 0 {
      ValueOfPrefix(base, d, k, end - 1);
    }
  }

  lemma {:induction false} ValueOfDigits(base: nat, n: nat)
    requires base == 10 || base == 16
    ensures Value(base, Digits(base, n), 0, |Digits(base, n)|) == n
  {
    var d := Digits(base, n);
    if n < base {
      assert Value(base, d, 0, 0) == 0;
    } else {
      var front := Digits(base, n / base);
      ValueOfDigits(base, n / base);
      ValueOfPrefix(base, front, [DigitChar(n % base)], |front|);
    }
  }

  lemma TokenOf(d: string, k: string, pred: char -> bool)
    requires (forall i :: 0 <= i < |d| ==> pred(d[i])) && (k != [] ==> !pred(k[0]))
    ensures TokenLen(d + k, pred) == |d|
  {
    TokenUnique(d + k, pred, |d|);
  }

  lemma Behind(d: string, k: string)
    ensures (d + k)[..|d|] == d && (d + k)[|d|..] == k
  {
  }

  /** A text of digits has no prefix that strtoul would skip. */
  lemma DigitsStart(base: nat, d: string, k: string)
    requires (base == 10 || base == 16) && d != [] && AllDigits(base, d) && Closed(k)
    ensures |d + k| >= 2 ==> (d + k)[1] != 'x' && (d + k)[1] != 'X'
  {
    if |d| >= 2 {
      assert (d + k)[1] == d[1];
    } else if |d + k| >= 2 {
      assert (d + k)[1] == k[0];
    }
  }

  lemma StrToUlOfDigits(base: nat, d: string, k: string)
    requires (base == 10 || base == 16) && d != [] && AllDigits(base, d) && Closed(k)
    ensures StrToUl(base, d + k) == if Value(base, d, 0, |d|) > ULONG_MAX then ULONG_MAX else Value(base, d, 0, |d|)
  {
    DigitsStart(base, d, k);
    TokenOf(d, k, DigitOf(base));
    ValueOfPrefix(base, d, k, |d|);
  }

  lemma NumberToken(base: nat, d: string, k: string)
    requires (base == 10 || base == 16) && AllDigits(base, d) && Closed(k)
    ensures TokenLen(d + k, if base == 10 then IsNum else IsAlnum) == |d|
  {
    TokenOf(d, k, if base == 10 then IsNum else IsAlnum);
  }

  lemma NumberAndRest(base: nat, d: string, k: string)
    requires (base == 10 || base == 16) && d != []
    requires TokenLen(d + k, if base == 10 then IsNum else IsAlnum) == |d|
    ensures ParseUint(base, d + k)
            == if StrToUl(base, d + k) < ULONG_MAX then Some((StrToUl(base, d + k), k)) else None
  {
    Behind(d, k);
  }

  lemma NumberText(base: nat, d: string, k: string)
    requires (base == 10 || base == 16) && d != [] && AllDigits(base, d) && Closed(k)
    ensures ParseUint(base, d + k) == if Value(base, d, 0, |d|) < ULONG_MAX then Some((Value(base, d, 0, |d|), k)) else None
  {
    StrToUlOfDigits(base, d, k);
    NumberToken(base, d, k);
    NumberAndRest(base, d, k);
  }

  lemma ReadDigits(base: nat, n: U64, k: string)
    requires (base == 10 || base == 16) && Closed(k)
    ensures ParseUint(base, Digits(base, n) + k) == if n < ULONG_MAX then Some((n, k)) else None
  {
    DigitsAreDigits(base, n);
    ValueOfDigits(base, n);
    NumberText(base, Digits(base, n), k);
  }

  /** The first digit of a positive number is not 0. */
  lemma {:induction false} FirstDigit(n: nat)
    requires n > 0
    ensures Value(16, Digits(16, n), 0, 1) > 0
  {
    assert Value(16, Digits(16, n), 0, 0) == 0;
    if n >= 16 {
      FirstDigit(n / 16);
      var front := Digits(16, n / 16);
      ValueOfPrefix(16, front, [DigitChar(n % 16)], 1);
    }
  }

  lemma {:induction false} LongerValue(d: string, start: nat, end: nat)
    requires start <= end <= |d|
    ensures Value(16, d, 0, start) <= Value(16, d, 0, end)
  {
    if start < end {
      LongerValue(d, start, end - 1);
    }
  }

  /** Read in decimal, two or more digits stand for less than in hexadecimal. */
  lemma {:induction false} DecimalIsLess(d: string, end: nat)
    requires 1 <= end <= |d| && Value(16, d, 0, 1) > 0
    ensures Value(10, d, 0, end) <= Value(16, d, 0, end) && (end >= 2 ==> Value(10, d, 0, end) < Value(16, d, 0, end))
  {
    if end == 1 {
      assert Value(10, d, 0, 0) == Value(16, d, 0, 0) == 0;
    } else {
      DecimalIsLess(d, end - 1);
      LongerValue(d, 1, end - 1);
    }
  }

  /** The decimal digits in front of a number that was printed in hexadecimal. */
  lemma DecimalFront(n: nat, end: nat)
    requires n >= 10 && end <= |Digits(16, n)| && forall i :: 0 <= i < end ==> IsDigit(10, Digits(16, n)[i])
    ensures Value(10, Digits(16, n), 0, end) != n
  {
    var d := Digits(16, n);
    if end == 1 {
      assert Value(10, d, 0, 0) == 0;
    } else if end >= 2 {
      FirstDigit(n);
      DecimalIsLess(d, end);
      LongerValue(d, end, |d|);
      ValueOfDigits(16, n);
    }
  }

  /** Numbers that the parser reads back from a stream in the given format. */
  predicate Survives(hex: bool, n: U64) { n < if hex then 10 else ULONG_MAX }

  lemma Misread(n: U64, k: string)
    requires n >= 10 && Closed(k)
    ensures ParseUint(10, Digits(16, n) + k).Some? ==> ParseUint(10, Digits(16, n) + k).value.0 != n
  {
    var d := Digits(16, n);
    var end := TokenEnd(d + k, DigitOf(10), 0);
    TokenEndFacts(d + k, DigitOf(10), 0);
    assert k != [] ==> (d + k)[|d|] == k[0];
    assert end <= |d|;
    assert forall i :: 0 <= i < end ==> d[i] == (d + k)[i];
    DecimalFront(n, end);
    ValueOfPrefix(10, d, k, end);
  }

  /** A number printed in the stream's format, read in decimal. */
  lemma ReadNumber(hex: bool, n: U64, k: string)
    requires Closed(k)
    ensures if Survives(hex, n) then ParseUint(10, Digits(Base(hex), n) + k) == Some((n, k))
            else ParseUint(10, Digits(Base(hex), n) + k).Some? ==> ParseUint(10, Digits(Base(hex), n) + k).value.0 != n
  {
    if hex && n >= 10 {
      Misread(n, k);
    } else {
      ReadDigits(10, n, k);
    }
  }

  lemma IntText(d: string, k: string)
    requires d != [] && TokenLen(d + k, IsNum) == |d| && Value(10, d, 0, |d|) <= 0x7FFF_FFFF
    ensures ParseIntText(d + k) == Some((Value(10, d, 0, |d|), k))
  {
    Behind(d, k);
    ValueOfPrefix(10, d, k, |d|);
  }

  lemma ReadIntDigits(n: I32, k: string)
    requires Closed(k)
    ensures ParseIntText(IntDigits(n) + k) == if n >= 0 then Some((n, k)) else None
  {
    if n >= 0 {
      DigitsAreDigits(10, n);
      ValueOfDigits(10, n);
      NumberToken(10, Digits(10, n), k);
      IntText(Digits(10, n), k);
    } else {
      assert (IntDigits(n) + k)[0] == '-';
    }
  }

  // ---------------------------------------------------------------- literals and searches

  lemma LiteralText(lit: string, k: string)
    requires lit != []
    ensures Literal(lit + k, lit) == Some(k)
  {
    assert (lit + k)[..|lit|] == lit && (lit + k)[|lit|..] == k;
  }

  lemma FullMatch(p: string, pat: string, k: string)
    requires pat != []
    ensures MatchAt(p + pat + k, |p|, pat, 1) == |pat|
  {
    var r := p + pat + k;
    MatchFacts(r, |p|, pat, 1);
    var m := MatchAt(r, |p|, pat, 1);
    if m < |pat| {
      assert false;
    }
  }

  lemma {:induction false} ScanFrom(p: string, pat: string, k: string, i: nat)
    requires pat != [] && i <= |p| && forall j :: 0 <= j < |p| ==> p[j] != pat[0]
    ensures Scan(p + pat + k, i, pat) == Some(|p| + |pat|)
    decreases |p| - i
  {
    var r := p + pat + k;
    if i < |p| {
      assert r[i] == p[i];
      ScanFrom(p, pat, k, i + 1);
    } else {
      assert r[i] == pat[0];
      FullMatch(p, pat, k);
    }
  }

  /** A pattern is found behind a text that does not contain its first character. */
  lemma TillText(p: string, pat: string, k: string)
    requires pat != [] && forall j :: 0 <= j < |p| ==> p[j] != pat[0]
    ensures TillString(p + pat + k, pat) == Some(k)
  {
    ScanFrom(p, pat, k, 0);
    assert (p + pat + k)[|p| + |pat|..] == k;
  }

  /** A pattern is not found in a text that lacks one of its characters. */
  lemma TillAbsent(r: string, pat: string, at: nat)
    requires at < |pat| && pat[at] !in r
    ensures TillString(r, pat) == None
  {
    if TillString(r, pat).Some? {
      ScanIsSound(r, 0, pat);
      assert false;
    }
  }

  lemma NoSpaces(r: string)
    requires r != [] ==> !IsSpace(r[0])
    ensures DropSpaces(r) == r
  {
  }

  lemma OneSpace(r: string)
    requires r != [] ==> !IsSpace(r[0])
    ensures DropSpaces(" " + r) == r
  {
    TokenOf(" ", r, IsSpace);
    Behind(" ", r);
  }

  // ---------------------------------------------------------------- addresses

  lemma ByteText(b: Byte, k: string)
    requires Closed(k)
    ensures ParseUint(16, Hex2(b) + k) == Some((b, k))
  {
    DigitsAreDigits(16, b);
    ValueOfDigits(16, b);
    var d := Hex2(b);
    if b < 16 {
      assert Value(16, d, 0, 1) == 0;
    }
    NumberText(16, d, k);
  }

  lemma InnerByte(b: Byte, k: string)
    ensures MacByte(Hex2(b) + (":" + k), false) == (Some(b), k)
  {
    ByteText(b, ":" + k);
    LiteralText(":", k);
  }

  lemma LastByte(b: Byte, k: string)
    requires Closed(k)
    ensures MacByte(Hex2(b) + k, true) == (Some(b), k)
  {
    ByteText(b, k);
  }

  lemma MacByteText(m: MacAddress, i: nat, k: string)
    requires i < 6 && Closed(k)
    ensures MacByte(MacText(m, i, k), i == 5) == (Some(m[i]), if i == 5 then k else MacText(m, i + 1, k))
  {
    if i == 5 {
      LastByte(m[i], k);
    } else {
      InnerByte(m[i], MacText(m, i + 1, k));
    }
  }

  /** From byte `i` on, the bytes of `t` are those of the address, and `k` follows them. */
  predicate BytesFollow(m: MacAddress, i: nat, t: string, k: string)
    requires i < 6
    decreases |m| - i
  {
    var (b, rest) := MacByte(t, i == 5);
    b == Some(m[i]) && if i == 5 then rest == k else BytesFollow(m, i + 1, rest, k)
  }

  lemma {:induction false} MacTextFollows(m: MacAddress, i: nat, k: string)
    requires i < 6 && Closed(k)
    ensures BytesFollow(m, i, MacText(m, i, k), k)
    decreases 6 - i
  {
    MacByteText(m, i, k);
    if i < 5 {
      MacTextFollows(m, i + 1, k);
    }
  }

  lemma {:induction false} MacBytesText(m: MacAddress, i: nat, acc: seq<Byte>, t: string, k: string)
    requires |acc| == i < 6 && acc == m[..i] && BytesFollow(m, i, t, k)
    ensures MacBytes(t, i, acc) == (Some(m), k)
    decreases 6 - i
  {
    var next := acc + [m[i]];
    assert next == m[..i + 1];
    if i == 5 {
      assert m[..6] == m;
    } else {
      MacBytesText(m, i + 1, next, MacByte(t, i == 5).1, k);
    }
  }

  lemma ReadMacText(m: MacAddress, k: string)
    requires Closed(k)
    ensures ReadMac(MacText(m, 0, k)) == (Some(m), k)
  {
    var t := MacText(m, 0, k);
    DigitsAreDigits(16, m[0]);
    assert t[0] == Hex2(m[0])[0];
    NoSpaces(t);
    MacTextFollows(m, 0, k);
    MacBytesText(m, 0, [], t, k);
  }

  lemma AnyOctet(n: Byte, k: string)
    ensures Octet(Digits(10, n) + ("." + k), false) == (Some(n), k)
  {
    ReadDigits(10, n, "." + k);
    LiteralText(".", k);
  }

  lemma LastOctet(n: Byte, k: string)
    requires Closed(k)
    ensures Octet(Digits(10, n) + k, true) == (Some(n), k)
  {
    ReadDigits(10, n, k);
  }

  lemma FourOctets(ip: U32)
    ensures IpOf([ip / 0x100_0000, ip / 0x1_0000 % 256, ip / 0x100 % 256, ip % 256]) == ip
  {
    assert ip / 0x100_0000 == ip / 0x1_0000 / 256 && ip / 0x1_0000 == ip / 0x100 / 256;
    assert ip == ip / 0x100 * 0x100 + ip % 256;
  }

  lemma OctetsStep(r: string, acc: seq<Byte>, v: Byte, r1: string)
    requires |acc| < 4 && Octet(r, |acc| == 3) == (Some(v), r1)
    ensures Octets(r, |acc|, acc)
            == if |acc| == 3 then (Some(IpOf(acc + [v])), r1) else Octets(r1, |acc| + 1, acc + [v])
  {
  }

  lemma LastOctets(octets: seq<Byte>, acc: seq<Byte>, t2: string, t3: string, k: string)
    requires |octets| == 4 && acc == octets[..2]
    requires Octet(t2, false) == (Some(octets[2]), t3) && Octet(t3, true) == (Some(octets[3]), k)
    ensures Octets(t2, 2, acc) == (Some(IpOf(octets)), k)
  {
    var three := acc + [octets[2]];
    assert three + [octets[3]] == octets;
    OctetsStep(t2, acc, octets[2], t3);
    OctetsStep(t3, three, octets[3], k);
  }

  lemma FirstOctets(octets: seq<Byte>, t0: string, t1: string, t2: string)
    requires |octets| == 4 && Octet(t0, false) == (Some(octets[0]), t1) && Octet(t1, false) == (Some(octets[1]), t2)
    ensures Octets(t0, 0, []) == Octets(t2, 2, octets[..2])
  {
    var none: seq<Byte> := [];
    var one := none + [octets[0]];
    assert one + [octets[1]] == octets[..2];
    OctetsStep(t0, none, octets[0], t1);
    OctetsStep(t1, one, octets[1], t2);
  }

  lemma ReadIpText(ip: U32, k: string)
    requires Closed(k)
    ensures ReadIp(IpText(ip, k)) == (Some(ip), k)
  {
    var octets: seq<Byte> := [ip / 0x100_0000, ip / 0x1_0000 % 256, ip / 0x100 % 256, ip % 256];
    var t3 := Digits(10, octets[3]) + k;
    var t2 := Digits(10, octets[2]) + ("." + t3);
    var t1 := Digits(10, octets[1]) + ("." + t2);
    AnyOctet(octets[0], t1);
    AnyOctet(octets[1], t2);
    AnyOctet(octets[2], t3);
    LastOctet(octets[3], k);
    FourOctets(ip);
    FirstOctets(octets, IpText(ip, k), t1, t2);
    LastOctets(octets, octets[..2], t2, t3, k);
  }

  // ---------------------------------------------------------------- headers

  /** A search whose pattern ends the literal in front of the text. */
  lemma TillLiteral(lit: string, p: string, pat: string, k: string)
    requires lit == p + pat && pat != [] && forall j :: 0 <= j < |p| ==> p[j] != pat[0]
    ensures TillString(lit + k, pat) == Some(k)
  {
    TillText(p, pat, k);
  }

  lemma FindSource(k: string)
    ensures TillString(", source=" + k, "source=") == Some(k)
  {
    assert ", source=" == ", " + "source=";
    TillLiteral(", source=", ", ", "source=", k);
  }

  lemma FindDestination(k: string)
    ensures TillString(", destination=" + k, "destination=") == Some(k)
  {
    assert ", destination=" == ", " + "destination=";
    TillLiteral(", destination=", ", ", "destination=", k);
  }

  lemma MacsInTurn(h: EthernetHeader, t1: string, t2: string, k: string)
    requires ReadMac(t1) == (Some(h.src), ", destination=" + t2) && ReadMac(t2) == (Some(h.dst), k)
    ensures ReadMacs(h.lengthType, ", source=" + t1) == (Some(h), k)
  {
    FindSource(t1);
    FindDestination(t2);
  }

  lemma SourceThenRest(h: EthernetHeader, t2: string, k: string)
    requires ReadMac(t2) == (Some(h.dst), k)
    ensures ReadMacs(h.lengthType, ", source=" + MacText(h.src, 0, ", destination=" + t2)) == (Some(h), k)
  {
    var t1 := MacText(h.src, 0, ", destination=" + t2);
    assert ReadMac(t1) == (Some(h.src), ", destination=" + t2) by { ReadMacText(h.src, ", destination=" + t2); }
    MacsInTurn(h, t1, t2, k);
  }

  lemma ReadMacsText(h: EthernetHeader, k: string)
    ensures ReadMacs(h.lengthType, ", source=" + MacText(h.src, 0, ", destination=" + MacText(h.dst, 0, ")" + k)))
            == (Some(h), ")" + k)
  {
    var t2 := MacText(h.dst, 0, ")" + k);
    assert ReadMac(t2) == (Some(h.dst), ")" + k) by { ReadMacText(h.dst, ")" + k); }
    SourceThenRest(h, t2, ")" + k);
  }

  /** `p` is the part of a text in front of a header: an earlier header may have left its closing
      parenthesis behind. */
  predicate HeaderGap(p: string) { p == ", " || p == "), " }

  lemma GapStaysPut(p: string, k: string)
    requires HeaderGap(p)
    ensures DropSpaces(p + k) == p + k
  {
    NoSpaces(p + k);
  }

  lemma FindEthernet(k: string)
    ensures TillString(", " + ("EthernetHeader(" + k), "EthernetHeader") == Some("(" + k)
  {
    assert ", " + ("EthernetHeader(" + k) == ", " + "EthernetHeader" + ("(" + k);
    TillText(", ", "EthernetHeader", "(" + k);
  }

  lemma FindLengthType(k: string)
    ensures TillString("(" + ("length/type=0x" + k), "length/type=0x") == Some(k)
  {
    assert "(" + ("length/type=0x" + k) == "(" + "length/type=0x" + k;
    TillText("(", "length/type=0x", k);
  }

  lemma ReadEthernetText(h: EthernetHeader, k: string)
    ensures var (eth, rest) := ReadEthernet(", " + EthText(h, k));
            if h.lengthType < ULONG_MAX then eth == Some(h) && rest == ")" + k else eth == None
  {
    var k2 := ", source=" + MacText(h.src, 0, ", destination=" + MacText(h.dst, 0, ")" + k));
    var k1 := Digits(16, h.lengthType) + k2;
    GapStaysPut(", ", EthText(h, k));
    FindEthernet("length/type=0x" + k1);
    FindLengthType(k1);
    ReadDigits(16, h.lengthType, k2);
    ReadMacsText(h, k);
  }

  lemma FindArpIps(k: string)
    ensures TillString(" source ipv4: " + k, " source ipv4: ") == Some(k)
    ensures TillString(" dest ipv4: " + k, " dest ipv4: ") == Some(k)
  {
    TillLiteral(" source ipv4: ", "", " source ipv4: ", k);
    TillLiteral(" dest ipv4: ", "", " dest ipv4: ", k);
  }

  lemma ArpIpsInTurn(h: ArpHeader, t1: string, t2: string, k: string)
    requires ReadIp(t1) == (Some(h.src), " dest ipv4: " + t2) && ReadIp(t2) == (Some(h.dst), k)
    ensures ReadArpBody(h.isRequest, " source ipv4: " + t1) == (Some(h), k)
  {
    FindArpIps(t1);
    FindArpIps(t2);
  }

  function ArpTail(h: ArpHeader, k: string): string {
    " source ipv4: " + IpText(h.src, " dest ipv4: " + IpText(h.dst, ")" + k))
  }

  lemma ReadArpTail(h: ArpHeader, k: string)
    ensures ReadArpBody(h.isRequest, ArpTail(h, k)) == (Some(h), ")" + k)
  {
    var t2 := IpText(h.dst, ")" + k);
    ReadIpText(h.dst, ")" + k);
    ReadIpText(h.src, " dest ipv4: " + t2);
    ArpIpsInTurn(h, IpText(h.src, " dest ipv4: " + t2), t2, ")" + k);
  }

  lemma FindArp(p: string, k: string)
    requires HeaderGap(p)
    ensures TillString(p + ("ns3::ArpHeader(" + k), "ns3::ArpHeader") == Some("(" + k)
  {
    assert p + ("ns3::ArpHeader(" + k) == p + "ns3::ArpHeader" + ("(" + k);
    TillText(p, "ns3::ArpHeader", "(" + k);
  }

  lemma FindRequest(k: string)
    ensures TillString("(" + ("request" + k), "request") == Some(k)
  {
    assert "(" + ("request" + k) == "(" + "request" + k;
    TillText("(", "request", k);
  }

  lemma FindReply(k: string)
    requires 'q' !in k
    ensures TillString("(" + ("reply" + k), "request") == None
    ensures TillString("(" + ("reply" + k), "reply") == Some(k)
  {
    assert "(" + ("reply" + k) == "(" + "reply" + k;
    TillText("(", "reply", k);
    assert "request"[2] == 'q';
    TillAbsent("(" + ("reply" + k), "request", 2);
  }

  /** Characters that occur in no number, in no address and in no text between the addresses. */
  predicate Foreign(c: char) { c == 'E' || c == 'A' || c == 'q' || c == '\n' }

  lemma {:induction false} DigitsLack(base: nat, n: nat, c: char)
    requires (base == 10 || base == 16) && Foreign(c)
    ensures c !in Digits(base, n)
  {
    if n >= base {
      DigitsLack(base, n / base, c);
    }
  }

  lemma FieldLacks(lit: string, t: string, k: string, c: char)
    requires c !in lit && c !in t && c !in k
    ensures c !in lit + (t + k)
  {
  }

  lemma IpTextLacks(ip: U32, k: string, c: char)
    requires Foreign(c) && c !in k
    ensures c !in IpText(ip, k)
  {
    DigitsLack(10, ip / 0x100_0000, c);
    DigitsLack(10, ip / 0x1_0000 % 256, c);
    DigitsLack(10, ip / 0x100 % 256, c);
    DigitsLack(10, ip % 256, c);
  }

  lemma JoinLacks(a: string, b: string, c: char)
    requires c !in a && c !in b
    ensures c !in a + b
  {
  }

  lemma ArpTailLacks(h: ArpHeader, k: string, c: char)
    requires Foreign(c) && c !in k
    ensures c !in ArpTail(h, k)
  {
    var t2 := IpText(h.dst, ")" + k);
    assert c !in t2 by { IpTextLacks(h.dst, ")" + k, c); }
    JoinLacks(" dest ipv4: ", t2, c);
    var t1 := IpText(h.src, " dest ipv4: " + t2);
    assert c !in t1 by { IpTextLacks(h.src, " dest ipv4: " + t2, c); }
    JoinLacks(" source ipv4: ", t1, c);
  }

  lemma ArpInTurn(r: string, r1: string, r2: string, isRequest: bool)
    requires DropSpaces(r) == r && TillString(r, "ns3::ArpHeader") == Some(r1)
    requires if isRequest then TillString(r1, "request") == Some(r2)
             else TillString(r1, "request") == None && TillString(r1, "reply") == Some(r2)
    ensures ReadArp(r) == ReadArpBody(isRequest, r2)
  {
  }

  lemma ReadArpText(p: string, h: ArpHeader, k: string)
    requires HeaderGap(p) && 'q' !in k
    ensures ReadArp(p + ArpText(h, k)) == (Some(h), ")" + k)
  {
    var t := ArpTail(h, k);
    var t1 := (if h.isRequest then "request" else "reply") + t;
    GapStaysPut(p, ArpText(h, k));
    FindArp(p, t1);
    if h.isRequest {
      FindRequest(t);
    } else {
      ArpTailLacks(h, k, 'q');
      FindReply(t);
    }
    ArpInTurn(p + ("ns3::ArpHeader(" + t1), "(" + t1, t, h.isRequest);
    ReadArpTail(h, k);
  }

  lemma Arrow(t: string)
    requires t != [] && !IsSpace(t[0])
    ensures DropSpaces(" > " + t) == "> " + t
    ensures Literal("> " + t, ">") == Some(" " + t)
  {
    assert " > " + t == " " + ("> " + t);
    OneSpace("> " + t);
    assert "> " + t == ">" + (" " + t);
    LiteralText(">", " " + t);
  }

  lemma IpsInTurn(h: Ipv4Header, t1: string, t2: string, k: string)
    requires ReadIp(t1) == (Some(h.src), " > " + t2) && ReadIp(t2) == (Some(h.dst), k)
    requires t1 != [] && !IsSpace(t1[0]) && t2 != [] && !IsSpace(t2[0])
    ensures ReadIps(h.length, " " + t1) == (Some(h), k)
  {
    OneSpace(t1);
    Arrow(t2);
    OneSpace(t2);
  }

  lemma IpTextStart(ip: U32, k: string)
    ensures IpText(ip, k) != [] && !IsSpace(IpText(ip, k)[0])
  {
    DigitsAreDigits(10, ip / 0x100_0000);
    assert IpText(ip, k)[0] == Digits(10, ip / 0x100_0000)[0];
  }

  lemma ReadIpsText(h: Ipv4Header, k: string)
    ensures ReadIps(h.length, " " + IpText(h.src, " > " + IpText(h.dst, ")" + k))) == (Some(h), ")" + k)
  {
    var t2 := IpText(h.dst, ")" + k);
    var t1 := IpText(h.src, " > " + t2);
    ReadIpText(h.dst, ")" + k);
    ReadIpText(h.src, " > " + t2);
    IpTextStart(h.dst, ")" + k);
    IpTextStart(h.src, " > " + t2);
    IpsInTurn(h, t1, t2, ")" + k);
  }

  lemma FindIpHeader(p: string, k: string)
    requires HeaderGap(p)
    ensures TillString(p + ("Ipv4Header(" + k), "Ipv4Header") == Some("(" + k)
  {
    assert p + ("Ipv4Header(" + k) == p + "Ipv4Header" + ("(" + k);
    TillText(p, "Ipv4Header", "(" + k);
  }

  lemma FindLength(k: string)
    ensures TillString("(" + ("length: " + k), "length: ") == Some(k)
  {
    assert "(" + ("length: " + k) == "(" + "length: " + k;
    TillText("(", "length: ", k);
  }

  lemma IpHeaderInTurn(r: string, r1: string, r2: string)
    requires DropSpaces(r) == r && TillString(r, "Ipv4Header") == Some(r1) && TillString(r1, "length: ") == Some(r2)
    ensures ReadIpHeader(r)
            == match ParseUint(10, r2) case None => (None, r2) case Some((length, r3)) => ReadIps(length, r3)
  {
  }

  /** Only the number that was read can become the length. */
  lemma LengthRead(length: U64, r: string)
    ensures ReadIps(length, r).0.Some? ==> ReadIps(length, r).0.value.length == length
  {
  }

  lemma ReadIpHeaderText(hex: bool, p: string, h: Ipv4Header, k: string)
    requires HeaderGap(p)
    ensures ReadIpHeader(p + IpHeaderText(hex, h, k)).0 == Some(h) <==> Survives(hex, h.length)
  {
    var k2 := " " + IpText(h.src, " > " + IpText(h.dst, ")" + k));
    var r2 := Digits(Base(hex), h.length) + k2;
    GapStaysPut(p, IpHeaderText(hex, h, k));
    FindIpHeader(p, "length: " + r2);
    FindLength(r2);
    IpHeaderInTurn(p + IpHeaderText(hex, h, k), "(" + ("length: " + r2), r2);
    ReadNumber(hex, h.length, k2);
    if Survives(hex, h.length) {
      ReadIpsText(h, k);
    } else if ParseUint(10, r2).Some? {
      LengthRead(ParseUint(10, r2).value.0, ParseUint(10, r2).value.1);
    }
  }

  // ---------------------------------------------------------------- the header part

  /** What an earlier header leaves behind. */
  function Closing(seen: bool): string { if seen then ")" else "" }

  lemma IpHeaderTextLacks(hex: bool, h: Ipv4Header, c: char)
    requires Foreign(c)
    ensures c !in IpHeaderText(hex, h, "")
  {
    var t2 := IpText(h.dst, ")" + "");
    assert c !in t2 by { IpTextLacks(h.dst, ")" + "", c); }
    JoinLacks(" > ", t2, c);
    var t1 := IpText(h.src, " > " + t2);
    assert c !in t1 by { IpTextLacks(h.src, " > " + t2, c); }
    var d := Digits(Base(hex), h.length);
    assert c !in d by { DigitsLack(Base(hex), h.length, c); }
    FieldLacks(d, " ", t1, c);
    FieldLacks("Ipv4Header(", "length: ", d + (" " + t1), c);
  }

  lemma IpPartLacks(hex: bool, e: NetworkEvent, c: char)
    requires Foreign(c)
    ensures c !in IpPart(hex, e, "")
  {
    if e.ip.Some? {
      IpHeaderTextLacks(hex, e.ip.value, c);
    }
  }

  lemma ArpPartLacks(hex: bool, e: NetworkEvent, c: char)
    requires Foreign(c) && (c == 'A' || c == 'q' ==> e.arp.None?)
    ensures c !in ArpPart(hex, e, "")
  {
    IpPartLacks(hex, e, c);
    if e.arp.Some? {
      ArpTailLacks(e.arp.value, IpPart(hex, e, ""), c);
    }
  }

  lemma NoIpHeader(r: string)
    requires 'I' !in r && DropSpaces(r) == r
    ensures ReadIpHeader(r).0 == None
  {
    TillAbsent(r, "Ipv4Header", 0);
  }

  lemma ArpNotFound(r: string)
    requires 'A' !in r
    ensures TillString(r, "ns3::ArpHeader") == None
  {
    assert "ns3::ArpHeader"[5] == 'A';
    TillAbsent(r, "ns3::ArpHeader", 5);
  }

  lemma WithoutArp(r: string)
    requires DropSpaces(r) == r && TillString(r, "ns3::ArpHeader") == None
    ensures ReadArp(r) == (None, r)
  {
  }

  lemma NoArp(r: string)
    requires 'A' !in r && DropSpaces(r) == r
    ensures ReadArp(r) == (None, r)
  {
    ArpNotFound(r);
    WithoutArp(r);
  }

  lemma NoEthernet(r: string)
    requires 'E' !in r && DropSpaces(r) == r
    ensures ReadEthernet(r) == (None, r)
  {
    TillAbsent(r, "EthernetHeader", 0);
  }

  predicate Plain(t: string) { t != [] ==> t[0] == ',' }

  lemma PartsArePlain(hex: bool, e: NetworkEvent)
    ensures Plain(IpPart(hex, e, "")) && Plain(ArpPart(hex, e, "")) && Plain(HeaderPart(hex, e, ""))
  {
  }

  lemma StaysPut(seen: bool, t: string)
    requires Plain(t)
    ensures DropSpaces(Closing(seen) + t) == Closing(seen) + t
  {
    NoSpaces(Closing(seen) + t);
  }

  lemma Gap(seen: bool, t: string)
    ensures Closing(seen) + (", " + t) == (if seen then "), " else ", ") + t
  {
  }

  lemma ReadIpPart(hex: bool, seen: bool, e: NetworkEvent)
    ensures ReadIpHeader(Closing(seen) + IpPart(hex, e, "")).0 == e.ip
            <==> (e.ip.Some? ==> Survives(hex, e.ip.value.length))
  {
    if e.ip.Some? {
      Gap(seen, IpHeaderText(hex, e.ip.value, ""));
      ReadIpHeaderText(hex, if seen then "), " else ", ", e.ip.value, "");
    } else {
      StaysPut(seen, "");
      NoIpHeader(Closing(seen) + "");
    }
  }

  lemma ReadArpPart(hex: bool, seen: bool, e: NetworkEvent)
    ensures ReadArp(Closing(seen) + ArpPart(hex, e, ""))
            == (e.arp, Closing(seen || e.arp.Some?) + IpPart(hex, e, ""))
  {
    if e.arp.Some? {
      Gap(seen, ArpText(e.arp.value, IpPart(hex, e, "")));
      IpPartLacks(hex, e, 'q');
      ReadArpText(if seen then "), " else ", ", e.arp.value, IpPart(hex, e, ""));
    } else {
      PartsArePlain(hex, e);
      StaysPut(seen, ArpPart(hex, e, ""));
      ArpPartLacks(hex, e, 'A');
      NoArp(Closing(seen) + ArpPart(hex, e, ""));
    }
  }

  lemma ReadNoEth(hex: bool, e: NetworkEvent, part: string)
    requires part == ArpPart(hex, e, "")
    ensures ReadEthernet(part) == (None, Closing(false) + part)
  {
    ArpPartLacks(hex, e, 'E');
    assert DropSpaces(part) == part by {
      PartsArePlain(hex, e);
      NoSpaces(part);
    }
    NoEthernet(part);
    assert Closing(false) + part == part;
  }

  /** An Ethernet header puts the stream back into decimal before the other headers. */
  lemma ReadEthPart(hex: bool, e: NetworkEvent)
    ensures var (eth, rest) := ReadEthernet(HeaderPart(hex, e, ""));
            if e.eth.Some? && e.eth.value.lengthType == ULONG_MAX then eth == None
            else eth == e.eth && rest == Closing(e.eth.Some?) + ArpPart(HexAfter(hex, e), e, "")
  {
    if e.eth.Some? {
      ReadEthernetText(e.eth.value, ArpPart(false, e, ""));
    } else {
      ReadNoEth(hex, e, ArpPart(hex, e, ""));
    }
  }

  /** The numbers in the headers that the parser reads back. */
  predicate HeadersPrintable(hex: bool, e: NetworkEvent) {
    && (e.eth.Some? ==> Survives(false, e.eth.value.lengthType))
    && (e.ip.Some? ==> Survives(HexAfter(hex, e), e.ip.value.length))
  }

  lemma HeadersInTurn(r: string, eth: Option<EthernetHeader>, r1: string, arp: Option<ArpHeader>, r2: string,
                      ip: Option<Ipv4Header>)
    requires DropSpaces(r) == r && ReadEthernet(r) == (eth, r1)
    requires DropSpaces(r1) == r1 && ReadArp(r1) == (arp, r2)
    requires DropSpaces(r2) == r2 && ReadIpHeader(r2).0 == ip
    ensures ReadHeaders(r) == Headers(eth, arp, ip)
  {
  }

  /** What the ARP parser finds and leaves. */
  lemma ArpStep(hex: bool, seen: bool, e: NetworkEvent, r1: string, r2: string)
    requires r1 == Closing(seen) + ArpPart(hex, e, "") && r2 == Closing(seen || e.arp.Some?) + IpPart(hex, e, "")
    ensures DropSpaces(r1) == r1 && ReadArp(r1) == (e.arp, r2) && DropSpaces(r2) == r2
  {
    PartsArePlain(hex, e);
    StaysPut(seen, ArpPart(hex, e, ""));
    StaysPut(seen || e.arp.Some?, IpPart(hex, e, ""));
    ReadArpPart(hex, seen, e);
  }

  lemma ReadAfterEth(hex: bool, e: NetworkEvent, inner: bool, r: string, r1: string, r2: string)
    requires inner == HexAfter(hex, e) && r == HeaderPart(hex, e, "")
    requires r1 == Closing(e.eth.Some?) + ArpPart(inner, e, "") && ReadEthernet(r) == (e.eth, r1)
    requires r2 == Closing(e.eth.Some? || e.arp.Some?) + IpPart(inner, e, "")
    ensures ReadHeaders(r) == Headers(e.eth, e.arp, e.ip) <==> (e.ip.Some? ==> Survives(inner, e.ip.value.length))
  {
    assert DropSpaces(r) == r by {
      PartsArePlain(hex, e);
      NoSpaces(r);
    }
    ArpStep(inner, e.eth.Some?, e, r1, r2);
    ReadIpPart(inner, e.eth.Some? || e.arp.Some?, e);
    HeadersInTurn(r, e.eth, r1, e.arp, r2, ReadIpHeader(r2).0);
  }

  lemma FirstHeader(hex: bool, e: NetworkEvent, r: string)
    requires r == HeaderPart(hex, e, "")
    ensures ReadHeaders(r).eth == ReadEthernet(r).0
  {
    PartsArePlain(hex, e);
    NoSpaces(r);
  }

  lemma ReadHeaderPart(hex: bool, e: NetworkEvent)
    ensures ReadHeaders(HeaderPart(hex, e, "")) == Headers(e.eth, e.arp, e.ip) <==> HeadersPrintable(hex, e)
  {
    var r, inner := HeaderPart(hex, e, ""), HexAfter(hex, e);
    FirstHeader(hex, e, r);
    ReadEthPart(hex, e);
    if e.eth.Some? ==> e.eth.value.lengthType < ULONG_MAX {
      ReadAfterEth(hex, e, inner, r, Closing(e.eth.Some?) + ArpPart(inner, e, ""),
                   Closing(e.eth.Some? || e.arp.Some?) + IpPart(inner, e, ""));
    }
  }

  // ---------------------------------------------------------------- the fields

  lemma TokenText(t: string, k: string, pred: char -> bool)
    requires t != [] && (forall i :: 0 <= i < |t| ==> pred(t[i])) && (k != [] ==> !pred(k[0]))
    ensures Token(t + k, pred) == Some((t, k))
  {
    TokenOf(t, k, pred);
    Behind(t, k);
  }

  lemma IntFieldText(lit: string, n: I32, k: string)
    requires lit != [] && Closed(k)
    ensures IntField(lit + (IntDigits(n) + k), lit) == if n >= 0 then Some((n, k)) else None
  {
    LiteralText(lit, IntDigits(n) + k);
    ReadIntDigits(n, k);
  }

  lemma UintFieldText(lit: string, n: U64, k: string)
    requires lit != [] && Closed(k)
    ensures UintField(lit + (Digits(10, n) + k), lit) == if n < ULONG_MAX then Some((n, k)) else None
  {
    LiteralText(lit, Digits(10, n) + k);
    ReadDigits(10, n, k);
  }

  lemma TokenFieldText(lit: string, t: string, k: string, pred: char -> bool)
    requires lit != [] && t != [] && (forall i :: 0 <= i < |t| ==> pred(t[i])) && (k != [] ==> !pred(k[0]))
    ensures TokenField(lit + (t + k), lit, pred) == Some((t, k))
  {
    LiteralText(lit, t + k);
    TokenText(t, k, pred);
  }

  lemma DeviceNameText(d: DeviceType, k: string)
    requires k != [] && k[0] == ','
    ensures TokenField(", device_name=" + (DeviceName(d) + k), ", device_name=", IsDeviceChar) == Some((DeviceName(d), k))
  {
    TokenFieldText(", device_name=", DeviceName(d), k, IsDeviceChar);
  }

  lemma ReadIdsText(e: NetworkEvent, k: string)
    requires k != [] && k[0] == ','
    ensures ReadIds(", node=" + (IntDigits(e.node) + (", device=" + (IntDigits(e.device) + (", device_name="
                    + (DeviceName(e.deviceType) + k))))))
            == if e.node >= 0 && e.device >= 0 then Some((e.node, e.device, DeviceName(e.deviceType), k)) else None
  {
    var k2 := ", device_name=" + (DeviceName(e.deviceType) + k);
    var k1 := ", device=" + (IntDigits(e.device) + k2);
    IntFieldText(", node=", e.node, k1);
    IntFieldText(", device=", e.device, k2);
    DeviceNameText(e.deviceType, k);
  }

  lemma FindPacketUid(k: string)
    ensures TillString(", packet-uid=" + k, "packet-uid=") == Some(k)
  {
    assert ", packet-uid=" == ", " + "packet-uid=";
    TillLiteral(", packet-uid=", ", ", "packet-uid=", k);
  }

  lemma FindInteresting(k: string)
    ensures TillString(", interesting=" + k, "interesting=") == Some(k)
  {
    assert ", interesting=" == ", " + "interesting=";
    TillLiteral(", interesting=", ", ", "interesting=", k);
  }

  lemma ReadBoolText(b: bool, k: string)
    ensures ReadBool(BoolText(b) + k) == Some((b, k))
  {
    LiteralText(BoolText(b), k);
    if !b {
      assert ("false" + k)[0] != "true"[0];
    }
  }

  lemma ReadPacketText(e: NetworkEvent, k: string)
    ensures ReadPacket(", packet-uid=" + (Digits(10, e.packetUid) + (", interesting=" + (BoolText(e.interesting) + k))))
            == if e.packetUid < ULONG_MAX then Some((e.packetUid, e.interesting, k)) else None
  {
    var k2 := BoolText(e.interesting) + k;
    FindPacketUid(Digits(10, e.packetUid) + (", interesting=" + k2));
    ReadDigits(10, e.packetUid, ", interesting=" + k2);
    FindInteresting(k2);
    ReadBoolText(e.interesting, k);
  }

  lemma BoundaryNameText(b: BoundaryType, k: string)
    requires Closed(k)
    ensures TokenField(", boundary_type=" + (BoundaryName(b) + k), ", boundary_type=", IsAlnum)
            == Some((BoundaryName(b), k))
  {
    TokenFieldText(", boundary_type=", BoundaryName(b), k, IsAlnum);
  }

  lemma ReadPayloadText(e: NetworkEvent, k: string)
    requires Closed(k)
    ensures ReadPayload(", payload_size=" + (Digits(10, e.payloadSize) + (", boundary_type="
                        + (BoundaryName(e.boundaryType) + k))))
            == if e.payloadSize < ULONG_MAX then Some((e.payloadSize, BoundaryName(e.boundaryType), k)) else None
  {
    UintFieldText(", payload_size=", e.payloadSize, ", boundary_type=" + (BoundaryName(e.boundaryType) + k));
    BoundaryNameText(e.boundaryType, k);
  }

  predicate FieldsPrintable(e: NetworkEvent) {
    e.node >= 0 && e.device >= 0 && e.packetUid < ULONG_MAX && e.payloadSize < ULONG_MAX
  }

  lemma ReadFieldsText(e: NetworkEvent, k: string)
    requires Closed(k)
    ensures ReadFields(NetworkPart(e, k))
            == if FieldsPrintable(e) then
                 Some(Fields(e.node, e.device, DeviceName(e.deviceType), e.packetUid, e.interesting, e.payloadSize,
                             BoundaryName(e.boundaryType), k))
               else None
  {
    var k3 := ", payload_size=" + (Digits(10, e.payloadSize) + (", boundary_type=" + (BoundaryName(e.boundaryType) + k)));
    var k2 := ", packet-uid=" + (Digits(10, e.packetUid) + (", interesting=" + (BoolText(e.interesting) + k3)));
    ReadIdsText(e, k2);
    ReadPacketText(e, k3);
    ReadPayloadText(e, k);
  }

  predicate NameOk(name: string) { name != [] && forall i :: 0 <= i < |name| ==> IsNameChar(name[i]) }

  function PrefixText(hex: bool, ident: U64, name: string, ts: U64, k: string): string {
    ": source_id=" + (Digits(Base(hex), ident) + (", source_name=" + (name + (", timestamp=" + (Digits(10, ts) + k)))))
  }

  lemma AfterIdent(ident: U64, r1: string, name: string, ts: U64, k: string)
    requires Closed(k) && NameOk(name) && r1 == ", source_name=" + (name + (", timestamp=" + (Digits(10, ts) + k)))
    ensures TokenField(r1, ", source_name=", IsNameChar) == Some((name, ", timestamp=" + (Digits(10, ts) + k)))
    ensures UintField(", timestamp=" + (Digits(10, ts) + k), ", timestamp=") == if Survives(false, ts) then Some((ts, k)) else None
  {
    TokenFieldText(", source_name=", name, ", timestamp=" + (Digits(10, ts) + k), IsNameChar);
    UintFieldText(", timestamp=", ts, k);
  }

  lemma IdentRead(r: string)
    ensures ReadPrefix(r).Some? ==> UintField(r, ": source_id=").Some?
                                    && ReadPrefix(r).value.ident == UintField(r, ": source_id=").value.0
  {
  }

  lemma ReadPrefixText(hex: bool, ident: U64, name: string, ts: U64, k: string)
    requires Closed(k) && NameOk(name)
    ensures var p := ReadPrefix(PrefixText(hex, ident, name, ts, k));
            if Survives(hex, ident) && Survives(false, ts) then p == Some(Prefix(ident, name, ts, k))
            else p.Some? ==> p.value.ident != ident
  {
    var r1 := ", source_name=" + (name + (", timestamp=" + (Digits(10, ts) + k)));
    LiteralText(": source_id=", Digits(Base(hex), ident) + r1);
    ReadNumber(hex, ident, r1);
    AfterIdent(ident, r1, name, ts, k);
    IdentRead(PrefixText(hex, ident, name, ts, k));
  }

  /** Only such names are ever read. */
  lemma PrefixNameOk(r: string)
    ensures ReadPrefix(r).Some? ==> NameOk(ReadPrefix(r).value.name)
  {
    if ReadPrefix(r).Some? {
      var r1 := UintField(r, ": source_id=").value.1;
      TokenFacts(Literal(r1, ", source_name=").value, IsNameChar);
    }
  }

  // ---------------------------------------------------------------- whole events

  /** The events that survive printing on a stream in the given format and parsing. */
  predicate Printable(hex: bool, e: NetworkEvent) {
    && NameOk(e.parserName) && Survives(hex, e.parserIdent) && Survives(false, e.timestamp)
    && FieldsPrintable(e) && HeadersPrintable(hex, e)
  }

  lemma DeviceNames(d: DeviceType)
    ensures DeviceOf(DeviceName(d)) == Some(d)
  {
    assert "ns3::CosimNetDevice"[5] != "ns3::SimpleNetDevice"[5];
  }

  lemma BoundaryNames(b: BoundaryType)
    ensures BoundaryOf(BoundaryName(b)) == Some(b)
  {
    assert "kToAdapter"[1] != "kFromAdapter"[1] && "kToAdapter"[1] != "kWithinSimulator"[1];
    assert "kFromAdapter"[1] != "kWithinSimulator"[1];
  }

  lemma FieldsToEvent(e: NetworkEvent, p: Prefix, f: Fields)
    requires ReadFields(p.rest) == Some(f)
    requires f == Fields(e.node, e.device, DeviceName(e.deviceType), e.packetUid, e.interesting, e.payloadSize,
                         BoundaryName(e.boundaryType), f.rest)
    requires p.ident == e.parserIdent && p.name == e.parserName && p.ts == e.timestamp
    ensures ReadNetworkEvent(e.kind, p) == Some(e) <==> ReadHeaders(f.rest) == Headers(e.eth, e.arp, e.ip)
  {
    DeviceNames(e.deviceType);
    BoundaryNames(e.boundaryType);
  }

  lemma ReadNetworkText(hex: bool, e: NetworkEvent, p: Prefix)
    requires p.rest == NetworkPart(e, HeaderPart(hex, e, ""))
    requires p.ident == e.parserIdent && p.name == e.parserName && p.ts == e.timestamp
    ensures ReadNetworkEvent(e.kind, p) == Some(e) <==> FieldsPrintable(e) && HeadersPrintable(hex, e)
  {
    PartsArePlain(hex, e);
    ReadFieldsText(e, HeaderPart(hex, e, ""));
    if FieldsPrintable(e) {
      FieldsToEvent(e, p, ReadFields(p.rest).value);
      ReadHeaderPart(hex, e);
    }
  }

  lemma KindChars(kind: Kind)
    ensures KindName(kind) != [] && !IsSpace(KindName(kind)[0])
    ensures forall i :: 0 <= i < |KindName(kind)| ==> NotColon(KindName(kind)[i])
  {
  }

  lemma KindNames(kind: Kind)
    ensures KindOf(KindName(kind)) == Some(kind)
  {
    assert "NetworkEnqueue"[7] != "NetworkDequeue"[7] && "NetworkEnqueue"[7] != "NetworkDrop"[7];
    assert "NetworkDequeue"[8] != "NetworkDrop"[8];
  }

  lemma AfterName(line: string, name: string, k: string, kind: Kind)
    requires DropSpaces(line) == line && line[..TokenLen(line, NotColon)] == name && name != ""
    requires line[TokenLen(line, NotColon)..] == k && KindOf(name) == Some(kind)
    ensures ReadEvent(line)
            == match ReadPrefix(k) case None => Null case Some(p) =>
               match ReadNetworkEvent(kind, p) case None => Null case Some(e) => Network(e)
  {
  }

  lemma ReadEventName(name: string, kind: Kind, k: string)
    requires name != "" && !IsSpace(name[0]) && forall i :: 0 <= i < |name| ==> NotColon(name[i])
    requires KindOf(name) == Some(kind) && k != [] && k[0] == ':'
    ensures ReadEvent(name + k)
            == match ReadPrefix(k) case None => Null case Some(p) =>
               match ReadNetworkEvent(kind, p) case None => Null case Some(e) => Network(e)
  {
    NoSpaces(name + k);
    TokenOf(name, k, NotColon);
    Behind(name, k);
    AfterName(name + k, name, k, kind);
  }

  lemma ReadEventHead(kind: Kind, k: string)
    requires k != [] && k[0] == ':'
    ensures ReadEvent(KindName(kind) + k)
            == match ReadPrefix(k) case None => Null case Some(p) =>
               match ReadNetworkEvent(kind, p) case None => Null case Some(e) => Network(e)
  {
    KindNames(kind);
    KindChars(kind);
    ReadEventName(KindName(kind), kind, k);
  }

  lemma EventTextSplit(hex: bool, e: NetworkEvent)
    ensures EventText(hex, e, "")
            == KindName(e.kind) + PrefixText(hex, e.parserIdent, e.parserName, e.timestamp,
                                             NetworkPart(e, HeaderPart(hex, e, "")))
  {
  }

  /** An event is made of what the prefix says. */
  lemma FromPrefix(kind: Kind, p: Prefix)
    ensures var e := ReadNetworkEvent(kind, p);
            e.Some? ==> e.value.parserName == p.name && e.value.parserIdent == p.ident
  {
  }

  lemma ReadWellNamed(hex: bool, e: NetworkEvent, body: string, k: string)
    requires NameOk(e.parserName) && body == NetworkPart(e, HeaderPart(hex, e, ""))
    requires k == PrefixText(hex, e.parserIdent, e.parserName, e.timestamp, body)
    ensures Printable(hex, e) <==> ReadPrefix(k).Some? && ReadNetworkEvent(e.kind, ReadPrefix(k).value) == Some(e)
  {
    assert Closed(body);
    ReadPrefixText(hex, e.parserIdent, e.parserName, e.timestamp, body);
    if Survives(hex, e.parserIdent) && Survives(false, e.timestamp) {
      ReadNetworkText(hex, e, ReadPrefix(k).value);
    } else if ReadPrefix(k).Some? {
      FromPrefix(e.kind, ReadPrefix(k).value);
    }
  }

  lemma ReadIffPrintable(hex: bool, e: NetworkEvent)
    ensures ReadEvent(EventText(hex, e, "")) == Network(e) <==> Printable(hex, e)
  {
    var body := NetworkPart(e, HeaderPart(hex, e, ""));
    var k := PrefixText(hex, e.parserIdent, e.parserName, e.timestamp, body);
    EventTextSplit(hex, e);
    ReadEventHead(e.kind, k);
    if NameOk(e.parserName) {
      ReadWellNamed(hex, e, body, k);
    } else if ReadPrefix(k).Some? {
      PrefixNameOk(k);
      FromPrefix(e.kind, ReadPrefix(k).value);
    }
  }

  lemma PrintableInPlainTerms(hex: bool, e: NetworkEvent)
    ensures Printable(hex, e) <==>
      && e.parserName != ""
      && (forall i :: 0 <= i < |e.parserName| ==>
            || '0' <= e.parserName[i] <= '9' || 'a' <= e.parserName[i] <= 'z' || 'A' <= e.parserName[i] <= 'Z'
            || e.parserName[i] == '-')
      && e.parserIdent < (if hex then 10 else 0xFFFF_FFFF_FFFF_FFFF) && e.timestamp < 0xFFFF_FFFF_FFFF_FFFF
      && e.node >= 0 && e.device >= 0 && e.packetUid < 0xFFFF_FFFF_FFFF_FFFF && e.payloadSize < 0xFFFF_FFFF_FFFF_FFFF
      && (e.eth.Some? ==> e.eth.value.lengthType < 0xFFFF_FFFF_FFFF_FFFF)
      && (e.ip.Some? ==> e.ip.value.length < if hex && e.eth.None? then 10 else 0xFFFF_FFFF_FFFF_FFFF)
  {
  }

  /** Parsing undoes printing exactly for the printable events, whatever format the stream was left in. */
  lemma ParseUndoesPrint(hex: bool, e: NetworkEvent)
    ensures ReadEvent(EventText(hex, e, "")) == Network(e) <==> Printable(hex, e)
    // the same condition, written out
    ensures ReadEvent(EventText(hex, e, "")) == Network(e) <==>
      && e.parserName != ""
      && (forall i :: 0 <= i < |e.parserName| ==>
            || '0' <= e.parserName[i] <= '9' || 'a' <= e.parserName[i] <= 'z' || 'A' <= e.parserName[i] <= 'Z'
            || e.parserName[i] == '-')
      && e.parserIdent < (if hex then 10 else 0xFFFF_FFFF_FFFF_FFFF) && e.timestamp < 0xFFFF_FFFF_FFFF_FFFF
      && e.node >= 0 && e.device >= 0 && e.packetUid < 0xFFFF_FFFF_FFFF_FFFF && e.payloadSize < 0xFFFF_FFFF_FFFF_FFFF
      && (e.eth.Some? ==> e.eth.value.lengthType < 0xFFFF_FFFF_FFFF_FFFF)
      && (e.ip.Some? ==> e.ip.value.length < if hex && e.eth.None? then 10 else 0xFFFF_FFFF_FFFF_FFFF)
  {
    ReadIffPrintable(hex, e);
    PrintableInPlainTerms(hex, e);
  }
}
