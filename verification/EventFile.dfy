/**
 A whole event file: the printer writes one line per event, the line reader splits it, the parser
 turns the lines back into the events.
 */
module EventFile {
  import opened Wrappers
  import opened EventStream
  import opened EventRoundTrip
  import Cursor = LineHandler
  import Reader = LineReader
  import Parser = EventParser

  function Map<A, B>(f: A -> B, s: seq<A>): seq<B> {
    if s == [] then [] else [f(s[0])] + Map(f, s[1..])
  }

  /** Every text on a line of its own. */
  function Joined(texts: seq<string>): string {
    if texts == [] then "" else texts[0] + ("\n" + Joined(texts[1..]))
  }

  function LineOf(e: NetworkEvent): string { EventText(false, e, "") }

  function FileText(events: seq<NetworkEvent>): string { Joined(Map(LineOf, events)) }

  // ---------------------------------------------------------------- no newline inside a line

  lemma {:induction false} MacTextLacks(m: MacAddress, i: nat, k: string)
    requires i < 6 && '\n' !in k
    ensures '\n' !in MacText(m, i, k)
    decreases 6 - i
  {
    DigitsLack(16, m[i], '\n');
    if i < 5 {
      MacTextLacks(m, i + 1, k);
    }
  }

  lemma DestinationLacks(m: MacAddress, k: string)
    requires '\n' !in k
    ensures '\n' !in ", destination=" + MacText(m, 0, k)
  {
    var t := MacText(m, 0, k);
    assert '\n' !in t by { MacTextLacks(m, 0, k); }
    JoinLacks(", destination=", t, '\n');
  }

  lemma MacsLack(h: EthernetHeader, k: string)
    requires '\n' !in k
    ensures '\n' !in MacText(h.src, 0, ", destination=" + MacText(h.dst, 0, ")" + k))
  {
    assert '\n' !in ")" + k;
    DestinationLacks(h.dst, ")" + k);
    MacTextLacks(h.src, 0, ", destination=" + MacText(h.dst, 0, ")" + k));
  }

  lemma EthOpeningLacks(d: string, t: string)
    requires '\n' !in d && '\n' !in t
    ensures '\n' !in "EthernetHeader(" + ("length/type=0x" + (d + (", source=" + t)))
  {
    FieldLacks(d, ", source=", t, '\n');
    FieldLacks("EthernetHeader(", "length/type=0x", d + (", source=" + t), '\n');
  }

  lemma EthTextLacks(h: EthernetHeader, k: string)
    requires '\n' !in k
    ensures '\n' !in EthText(h, k)
  {
    MacsLack(h, k);
    DigitsLack(16, h.lengthType, '\n');
    EthOpeningLacks(Digits(16, h.lengthType), MacText(h.src, 0, ", destination=" + MacText(h.dst, 0, ")" + k)));
  }

  lemma HeaderPartLacks(e: NetworkEvent)
    ensures '\n' !in HeaderPart(false, e, "")
  {
    ArpPartLacks(false, e, '\n');
    if e.eth.Some? {
      EthTextLacks(e.eth.value, ArpPart(false, e, ""));
    }
  }

  lemma NamesLack(e: NetworkEvent)
    ensures '\n' !in DeviceName(e.deviceType) && '\n' !in BoundaryName(e.boundaryType) && '\n' !in KindName(e.kind)
    ensures '\n' !in BoolText(e.interesting)
  {
  }

  lemma IdsLack(e: NetworkEvent)
    ensures '\n' !in IntDigits(e.node) && '\n' !in IntDigits(e.device)
  {
    var node: int, device: int := e.node, e.device;
    DigitsLack(10, if node < 0 then -node else node, '\n');
    DigitsLack(10, if device < 0 then -device else device, '\n');
  }

  /** What NetworkEvent::Display prints from the packet id on. */
  function PacketPart(e: NetworkEvent, k: string): string {
    ", packet-uid=" + (Digits(10, e.packetUid) + (", interesting=" + (BoolText(e.interesting)
      + (", payload_size=" + (Digits(10, e.payloadSize) + (", boundary_type=" + (BoundaryName(e.boundaryType) + k)))))))
  }

  lemma PacketPartLacks(e: NetworkEvent, k: string)
    requires '\n' !in k
    ensures '\n' !in PacketPart(e, k)
  {
    DigitsLack(10, e.packetUid, '\n');
    DigitsLack(10, e.payloadSize, '\n');
    NamesLack(e);
    var k3 := ", boundary_type=" + (BoundaryName(e.boundaryType) + k);
    FieldLacks(", boundary_type=", BoundaryName(e.boundaryType), k, '\n');
    var k2 := ", payload_size=" + (Digits(10, e.payloadSize) + k3);
    FieldLacks(", payload_size=", Digits(10, e.payloadSize), k3, '\n');
    FieldLacks(", interesting=", BoolText(e.interesting), k2, '\n');
    FieldLacks(", packet-uid=", Digits(10, e.packetUid), ", interesting=" + (BoolText(e.interesting) + k2), '\n');
  }

  lemma NetworkPartLacks(e: NetworkEvent, k: string)
    requires '\n' !in k
    ensures '\n' !in NetworkPart(e, k)
  {
    var k2 := PacketPart(e, k);
    assert '\n' !in k2 by { PacketPartLacks(e, k); }
    NamesLack(e);
    IdsLack(e);
    var k1 := ", device_name=" + (DeviceName(e.deviceType) + k2);
    FieldLacks(", device_name=", DeviceName(e.deviceType), k2, '\n');
    FieldLacks(", device=", IntDigits(e.device), k1, '\n');
    FieldLacks(", node=", IntDigits(e.node), ", device=" + (IntDigits(e.device) + k1), '\n');
  }

  lemma LineOfLacks(e: NetworkEvent)
    requires '\n' !in e.parserName
    ensures '\n' !in LineOf(e) && LineOf(e) != ""
  {
    HeaderPartLacks(e);
    NetworkPartLacks(e, HeaderPart(false, e, ""));
    DigitsLack(10, e.parserIdent, '\n');
    DigitsLack(10, e.timestamp, '\n');
    NamesLack(e);
    var k3 := ", timestamp=" + (Digits(10, e.timestamp) + NetworkPart(e, HeaderPart(false, e, "")));
    FieldLacks(", timestamp=", Digits(10, e.timestamp), NetworkPart(e, HeaderPart(false, e, "")), '\n');
    var k2 := ", source_name=" + (e.parserName + k3);
    FieldLacks(", source_name=", e.parserName, k3, '\n');
    FieldLacks(": source_id=", Digits(10, e.parserIdent), k2, '\n');
    EventTextSplit(false, e);
  }

  // ---------------------------------------------------------------- the lines of a file

  lemma LineInFront(t: string, rest: string)
    requires t != "" && '\n' !in t
    ensures var s := t + ("\n" + rest);
            Reader.HasLine(s) && Reader.FirstLine(s) == t && Reader.Rest(s) == rest && Reader.Need(s) == |t| + 1
  {
    var s := t + ("\n" + rest);
    Reader.LineFound(s, 0, |t|);
    assert Reader.Strip(s) == s;
    assert s[|t| + 1..] == rest && s[..|t|] == t;
  }

  lemma LinesInFront(t: string, rest: string)
    requires t != "" && '\n' !in t
    ensures Reader.Lines(t + ("\n" + rest)) == [t] + Reader.Lines(rest)
  {
    LineInFront(t, rest);
  }

  predicate IsLine(t: string) { t != "" && '\n' !in t }

  lemma {:induction false} LinesOfJoined(texts: seq<string>)
    requires forall i :: 0 <= i < |texts| ==> IsLine(texts[i])
    ensures Reader.Lines(Joined(texts)) == texts
  {
    if texts == [] {
      Reader.RunEndFacts("", 0, true);
    } else {
      var rest := texts[1..];
      LinesOfJoined(rest);
      LinesInFront(texts[0], Joined(rest));
      assert texts == [texts[0]] + rest;
    }
  }

  lemma {:induction false} FitsJoined(texts: seq<string>, block: nat)
    requires forall i :: 0 <= i < |texts| ==> IsLine(texts[i])
    ensures Reader.Fits(Joined(texts), block) <==> forall i :: 0 <= i < |texts| ==> |texts[i]| + 1 <= block
  {
    if texts == [] {
      Reader.RunEndFacts("", 0, true);
    } else {
      var rest := texts[1..];
      FitsJoined(rest, block);
      LineInFront(texts[0], Joined(rest));
      assert forall i :: 0 <= i < |rest| ==> rest[i] == texts[i + 1];
      assert forall i :: 1 <= i < |texts| ==> texts[i] == rest[i - 1];
    }
  }

  lemma {:induction false} MapAt<A, B>(f: A -> B, s: seq<A>)
    ensures |Map(f, s)| == |s| && forall i :: 0 <= i < |s| ==> Map(f, s)[i] == f(s[i])
  {
    if s != [] {
      MapAt(f, s[1..]);
    }
  }

  lemma {:induction false} MapAppend<A, B>(f: A -> B, s: seq<A>, x: A)
    ensures Map(f, s + [x]) == Map(f, s) + [f(x)]
  {
    if s == [] {
      assert [x][1..] == [];
    } else {
      MapAppend(f, s[1..], x);
      assert (s + [x])[1..] == s[1..] + [x];
    }
  }

  lemma {:induction false} MapRoundTrip<A, B>(write: A -> string, read: string -> B, expected: A -> B, xs: seq<A>)
    requires forall i :: 0 <= i < |xs| ==> read(write(xs[i])) == expected(xs[i])
    ensures Map(read, Map(write, xs)) == Map(expected, xs)
  {
    if xs != [] {
      MapRoundTrip(write, read, expected, xs[1..]);
      assert Map(write, xs)[1..] == Map(write, xs[1..]);
    }
  }

  predicate LineFits(e: NetworkEvent, block: nat) { |LineOf(e)| + 1 <= block }

  function Parsing(e: NetworkEvent): Parsed { Network(e) }

  /** Every file of printable events parses back to its events, in order. */
  lemma FileRoundTrip(events: seq<NetworkEvent>)
    requires forall i :: 0 <= i < |events| ==> Printable(false, events[i])
    ensures Map(ReadEvent, Reader.Lines(FileText(events))) == Map(Parsing, events)
  {
    forall i | 0 <= i < |events| ensures ReadEvent(LineOf(events[i])) == Parsing(events[i]) {
      ParseUndoesPrint(false, events[i]);
    }
    MapRoundTrip(LineOf, ReadEvent, Parsing, events);
    FileLines(events, 0);
  }

  lemma MappedLines<A>(write: A -> string, xs: seq<A>, block: nat)
    requires forall i :: 0 <= i < |xs| ==> IsLine(write(xs[i]))
    ensures Reader.Lines(Joined(Map(write, xs))) == Map(write, xs)
    ensures Reader.Fits(Joined(Map(write, xs)), block) <==> forall i :: 0 <= i < |xs| ==> |write(xs[i])| + 1 <= block
  {
    MapAt(write, xs);
    LinesOfJoined(Map(write, xs));
    FitsJoined(Map(write, xs), block);
  }

  /** The lines of a file are the printed events; the line reader delivers them all if each fits
      into a block. */
  lemma FileLines(events: seq<NetworkEvent>, block: nat)
    requires forall i :: 0 <= i < |events| ==> Printable(false, events[i])
    ensures Reader.Lines(FileText(events)) == Map(LineOf, events)
    ensures Reader.Fits(FileText(events), block) <==> forall i :: 0 <= i < |events| ==> LineFits(events[i], block)
  {
    forall i | 0 <= i < |events| ensures IsLine(LineOf(events[i])) {
      LineOfLacks(events[i]);
    }
    MappedLines(LineOf, events, block);
  }

  // ---------------------------------------------------------------- the programs

  lemma {:induction false} JoinedAppend(texts: seq<string>, t: string)
    ensures Joined(texts + [t]) == Joined(texts) + (t + "\n")
  {
    if texts == [] {
      assert [t][1..] == [];
    } else {
      JoinedAppend(texts[1..], t);
      assert (texts + [t])[1..] == texts[1..] + [t];
    }
  }

  lemma MapNext<A, B>(f: A -> B, s: seq<A>, i: nat)
    requires i < |s|
    ensures Map(f, s[..i + 1]) == Map(f, s[..i]) + [f(s[i])]
  {
    MapAppend(f, s[..i], s[i]);
    assert s[..i] + [s[i]] == s[..i + 1];
  }

  lemma JoinedNext<A>(write: A -> string, xs: seq<A>, i: nat)
    requires i < |xs|
    ensures Joined(Map(write, xs[..i + 1])) == Joined(Map(write, xs[..i])) + (write(xs[i]) + "\n")
  {
    MapNext(write, xs, i);
    JoinedAppend(Map(write, xs[..i]), write(xs[i]));
  }

  lemma LineAppended(before: string, t: string, mid: string, after: string)
    requires before + t == mid + "" && mid + ("\n" + "") == after + ""
    ensures after == before + (t + "\n")
  {
    assert mid + "" == mid && after + "" == after;
    assert "\n" + "" == "\n";
  }

  method PrintLine(out: OStream, e: NetworkEvent)
    requires !out.hex
    modifies out
    ensures out.text == old(out.text) + (LineOf(e) + "\n") && !out.hex
  {
    ghost var before := out.text;
    out.PutEvent(e, "");
    ghost var mid := out.text;
    out.Put("\n", "");
    LineAppended(before, LineOf(e), mid, out.text);
  }

  method PrintNext(out: OStream, events: seq<NetworkEvent>, i: nat)
    requires i < |events| && out.text == FileText(events[..i]) && !out.hex
    modifies out
    ensures out.text == FileText(events[..i + 1]) && !out.hex
  {
    JoinedNext(LineOf, events, i);
    PrintLine(out, events[i]);
  }

  /** EventPrinter on a fresh stream: the stream is in decimal after every event. */
  method PrintAll(events: seq<NetworkEvent>) returns (text: string)
    ensures text == FileText(events)
  {
    var out := new OStream();
    for i := 0 to |events|
      invariant out.text == FileText(events[..i]) && !out.hex
    {
      PrintNext(out, events, i);
    }
    assert events[..|events|] == events;
    text := out.text;
  }

  method ParseLine(line: string) returns (parsed: Parsed)
    ensures parsed == ReadEvent(line)
  {
    var lh := new Cursor.LineHandler(line + "\n", |line|);
    assert (line + "\n")[..|line|] == line;
    parsed := Parser.ParseEvent(lh);
  }

  method ParseNext(parsed: seq<Parsed>, lines: seq<string>, i: nat) returns (more: seq<Parsed>)
    requires i < |lines| && parsed == Map(ReadEvent, lines[..i])
    ensures more == Map(ReadEvent, lines[..i + 1])
  {
    var event := ParseLine(lines[i]);
    MapNext(ReadEvent, lines, i);
    more := parsed + [event];
  }

  method ParseLines(lines: seq<string>) returns (parsed: seq<Parsed>)
    ensures parsed == Map(ReadEvent, lines)
  {
    parsed := [];
    for i := 0 to |lines|
      invariant parsed == Map(ReadEvent, lines[..i])
    {
      parsed := ParseNext(parsed, lines, i);
    }
    assert lines[..|lines|] == lines;
  }

  lemma {:induction false} MapPrefix<A, B>(f: A -> B, s: seq<A>, t: seq<A>)
    requires s <= t
    ensures Map(f, s) <= Map(f, t)
  {
    if s != [] {
      MapPrefix(f, s[1..], t[1..]);
    }
  }

  lemma SameLength<A, B>(f: A -> B, s: seq<A>, t: seq<A>)
    requires s <= t && Map(f, s) == Map(f, t)
    ensures s == t
  {
    MapAt(f, s);
    MapAt(f, t);
  }

  /** Printing, reading back through a block of any size in chunks of any size, parsing. */
  method ReplayFile(events: seq<NetworkEvent>, block: nat, oneByOne: bool, mayFail: bool)
      returns (o: Outcome, parsed: seq<Parsed>)
    requires block > 0 && forall i :: 0 <= i < |events| ==> Printable(false, events[i])
    ensures parsed <= Map(Parsing, events) && (!mayFail ==> o == Pass)
    ensures o == Pass && (forall i :: 0 <= i < |events| ==> LineFits(events[i], block)) ==> parsed == Map(Parsing, events)
    ensures o == Pass && oneByOne ==>
      (parsed == Map(Parsing, events) <==> forall i :: 0 <= i < |events| ==> LineFits(events[i], block))
  {
    var text := PrintAll(events);
    var lines;
    o, lines := Reader.ReadAll(text, block, oneByOne, mayFail);
    FileRoundTrip(events);
    FileLines(events, block);
    MapPrefix(ReadEvent, lines, Reader.Lines(text));
    if Map(ReadEvent, lines) == Map(ReadEvent, Reader.Lines(text)) {
      SameLength(ReadEvent, lines, Reader.Lines(text));
    }
    parsed := ParseLines(lines);
  }
}
