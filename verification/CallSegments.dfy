/**
 How the host spanner cuts the stream of call events into spans.
 */
module CallSegments {
  import opened Wrappers

  datatype CallKind = SyscallEntry | KernelTx | DriverTx | KernelRx | DriverRx | OtherCall

  datatype CallEvent = CallEvent(kind: CallKind, isPciWrite: bool, parserIdent: nat, timestamp: nat)

  predicate IsEntry(e: CallEvent) { e.kind == SyscallEntry }

  // ---------------------------------------------------------------- one span

  class HostCallSpan {
    var events: seq<CallEvent>
    var isPending: bool
    var callSpanEntry: Option<CallEvent>
    var syscallReturn: Option<CallEvent>
    var kernelTransmit: bool
    var driverTransmit: bool
    var kernelReceive: bool
    var driverReceive: bool
    var isFragmented: bool

    ghost predicate Valid()
      reads this
    {
      && (callSpanEntry.Some? <==> Entries(events) > 0) && Entries(events) <= (if isFragmented then 0 else 1)
      && Seen(kernelTransmit, driverTransmit, kernelReceive, driverReceive) == SeenIn(events)
    }

    constructor (fragmented: bool)
      ensures isFragmented == fragmented && events == [] && isPending && callSpanEntry.None?
      ensures !kernelTransmit && !driverTransmit && !kernelReceive && !driverReceive
    {
      events, isPending, isFragmented := [], true, fragmented;
      callSpanEntry, syscallReturn := None, None;
      kernelTransmit, driverTransmit, kernelReceive, driverReceive := false, false, false, false;
    }

    method IsPotentialAdd(e: CallEvent) returns (ok: bool)
      ensures ok == (isPending && (events == [] || events[0].parserIdent == e.parserIdent))
    {
      if !isPending {
        return false;
      }
      ok := events == [] || events[0].parserIdent == e.parserIdent;
    }

    method Classify(e: CallEvent)
      modifies this`kernelTransmit, this`driverTransmit, this`kernelReceive, this`driverReceive
      ensures Seen(kernelTransmit, driverTransmit, kernelReceive, driverReceive)
              == SeeOne(Seen(old(kernelTransmit), old(driverTransmit), old(kernelReceive), old(driverReceive)), e)
    {
      if e.kind == KernelTx {
        kernelTransmit := true;
      } else if e.kind == DriverTx {
        driverTransmit := true;
      } else if e.kind == KernelRx {
        kernelReceive := true;
      } else if e.kind == DriverRx {
        driverReceive := true;
      }
    }

    /** Refuses events of other parsers.  A second syscall entry, or any in a fragmented span, completes
        the span and is refused.  A fragmented span does not start with an entry. */
    method AddToSpan(e: CallEvent) returns (ok: bool)
      requires Valid() && (isFragmented && IsEntry(e) ==> events != [])
      modifies this
      ensures Valid()
      ensures var potential := old(isPending) && (old(events) == [] || old(events)[0].parserIdent == e.parserIdent);
              && ok == (potential && !(IsEntry(e) && (old(isFragmented) || Entries(old(events)) > 0)))
              && isPending == (old(isPending) && (potential ==> ok))
              && isFragmented == (old(isFragmented) && (potential ==> ok))
      ensures events == if ok then old(events) + [e] else old(events)
      ensures !ok && old(isPending) && !isPending ==> syscallReturn == Some(old(events)[|old(events)| - 1])
    {
      var potential := IsPotentialAdd(e);
      if !potential {
        return false;
      }
      OneMoreEvent(events, e);
      if IsEntry(e) {
        if isFragmented || callSpanEntry.Some? {
          isPending := false;
          syscallReturn := Some(events[|events| - 1]);
          isFragmented := false;
          return false;
        }
        isPending := true;
        callSpanEntry := Some(e);
        events := events + [e];
        return true;
      }
      Classify(e);
      events := events + [e];
      ok := true;
    }
  }

  function Entries(events: seq<CallEvent>): nat {
    if events == [] then 0
    else Entries(events[..|events| - 1]) + if IsEntry(events[|events| - 1]) then 1 else 0
  }

  /** Which transmit and receive events have come. */
  datatype Seen = Seen(kernelTx: bool, driverTx: bool, kernelRx: bool, driverRx: bool)

  function SeeOne(s: Seen, e: CallEvent): Seen {
    match e.kind
    case KernelTx => s.(kernelTx := true)
    case DriverTx => s.(driverTx := true)
    case KernelRx => s.(kernelRx := true)
    case DriverRx => s.(driverRx := true)
    case _ => s
  }

  function SeenIn(events: seq<CallEvent>): Seen {
    if events == [] then Seen(false, false, false, false)
    else SeeOne(SeenIn(events[..|events| - 1]), events[|events| - 1])
  }

  lemma OneMoreEvent(events: seq<CallEvent>, e: CallEvent)
    ensures Entries(events + [e]) == Entries(events) + if IsEntry(e) then 1 else 0
    ensures SeenIn(events + [e]) == SeeOne(SeenIn(events), e)
  {
    assert (events + [e])[..|events|] == events;
  }

  /** DoesKernelReceive: whether a kernel receive event is among the events. */
  lemma {:induction false} SeenMeansPresent(events: seq<CallEvent>)
    ensures SeenIn(events).kernelRx <==> exists i :: 0 <= i < |events| && events[i].kind == KernelRx
    ensures SeenIn(events).kernelTx <==> exists i :: 0 <= i < |events| && events[i].kind == KernelTx
    ensures SeenIn(events).driverRx <==> exists i :: 0 <= i < |events| && events[i].kind == DriverRx
    ensures SeenIn(events).driverTx <==> exists i :: 0 <= i < |events| && events[i].kind == DriverTx
  {
    if events != [] {
      var front := events[..|events| - 1];
      SeenMeansPresent(front);
      assert forall i :: 0 <= i < |front| ==> front[i] == events[i];
    }
  }

  // ---------------------------------------------------------------- the whole stream

  type Segments = seq<seq<CallEvent>>

  /** What HandelCall does to the spans created so far.  The first event of all is added twice: once
      when its span is created, and once more when it is then offered to that span. */
  function Cut(segments: Segments, e: CallEvent): Segments {
    if segments == [] then if IsEntry(e) then [[e], [e]] else [[e, e]]
    else
      var last := segments[|segments| - 1];
      if last == [] || last[0].parserIdent != e.parserIdent then segments
      else if IsEntry(e) && Entries(last) > 0 then segments + [[e]]
      else segments[|segments| - 1 := last + [e]]
  }

  function CutAll(events: seq<CallEvent>): Segments {
    if events == [] then [] else Cut(CutAll(events[..|events| - 1]), events[|events| - 1])
  }

  function Concat(segments: Segments): seq<CallEvent> {
    if segments == [] then [] else Concat(segments[..|segments| - 1]) + segments[|segments| - 1]
  }

  /** The events of one parser. */
  function Of(events: seq<CallEvent>, parserIdent: nat): seq<CallEvent> {
    if events == [] then []
    else
      var e := events[|events| - 1];
      Of(events[..|events| - 1], parserIdent) + if e.parserIdent == parserIdent then [e] else []
  }

  predicate StartsParser(segment: seq<CallEvent>, parserIdent: nat) {
    segment != [] && segment[0].parserIdent == parserIdent
  }

  /** Later spans start with a syscall entry and have no other. */
  predicate IsCall(segment: seq<CallEvent>) { segment != [] && IsEntry(segment[0]) && Entries(segment) == 1 }

  lemma ConcatOne(segments: Segments, last: seq<CallEvent>)
    ensures Concat(segments + [last]) == Concat(segments) + last
  {
    assert (segments + [last])[..|segments|] == segments;
  }

  lemma FirstTwice(e: CallEvent)
    ensures Concat(Cut([], e)) == [e, e]
  {
    if IsEntry(e) {
      ConcatOne([[e]], [e]);
      ConcatOne([], [e]);
      assert [] + [[e]] == [[e]] && [[e]] + [[e]] == [[e], [e]];
    } else {
      ConcatOne([], [e, e]);
      assert [] + [[e, e]] == [[e, e]];
    }
  }

  lemma LongerLast(segments: Segments, e: CallEvent)
    requires segments != []
    ensures Concat(segments[|segments| - 1 := segments[|segments| - 1] + [e]]) == Concat(segments) + [e]
  {
    var front, last := segments[..|segments| - 1], segments[|segments| - 1];
    assert segments[|segments| - 1 := last + [e]][..|segments| - 1] == front;
    assert Concat(front) + (last + [e]) == Concat(front) + last + [e];
  }

  lemma CutConcat(segments: Segments, e: CallEvent)
    requires segments != [] && segments[|segments| - 1] != []
    ensures Concat(Cut(segments, e))
            == Concat(segments) + if segments[|segments| - 1][0].parserIdent == e.parserIdent then [e] else []
  {
    ConcatOne(segments, [e]);
    LongerLast(segments, e);
  }

  predicate WellCut(segments: Segments, parserIdent: nat) {
    && segments != [] && (forall i :: 0 <= i < |segments| ==> StartsParser(segments[i], parserIdent))
    && Entries(segments[0]) <= 1 && (|segments| > 1 ==> Entries(segments[0]) == 1)
    && (forall i :: 1 <= i < |segments| ==> IsCall(segments[i]))
  }

  lemma OneEvent(e: CallEvent)
    ensures Entries([e]) == if IsEntry(e) then 1 else 0
    ensures Entries([e, e]) == if IsEntry(e) then 2 else 0
  {
    OneMoreEvent([], e);
    OneMoreEvent([e], e);
    assert [] + [e] == [e] && [e] + [e] == [e, e];
  }

  /** Where the entries are. */
  lemma {:induction false} EntriesAt(events: seq<CallEvent>)
    ensures Entries(events) > 0 <==> exists i :: 0 <= i < |events| && events[i].kind == SyscallEntry
    ensures Entries(events) <= 1 ==>
      forall i, j :: 0 <= i < j < |events| ==> events[i].kind != SyscallEntry || events[j].kind != SyscallEntry
  {
    if events != [] {
      var front := events[..|events| - 1];
      EntriesAt(front);
      assert forall i :: 0 <= i < |front| ==> front[i] == events[i];
    }
  }

  /** Every span but the first starts with a syscall entry, and no span has two. */
  lemma WellCutInPlainTerms(segments: Segments, parserIdent: nat)
    requires WellCut(segments, parserIdent)
    ensures forall i :: 0 <= i < |segments| ==> segments[i] != []
    ensures forall i :: 1 <= i < |segments| ==> segments[i][0].kind == SyscallEntry
    ensures forall i, j, k :: 0 <= i < |segments| && 0 <= j < k < |segments[i]| ==>
      segments[i][j].kind != SyscallEntry || segments[i][k].kind != SyscallEntry
    ensures |segments| > 1 ==> exists j :: 0 <= j < |segments[0]| && segments[0][j].kind == SyscallEntry
  {
    EntriesAt(segments[0]);
    forall i | 0 <= i < |segments|
      ensures segments[i] != []
      ensures forall j, k :: 0 <= j < k < |segments[i]| ==>
        segments[i][j].kind != SyscallEntry || segments[i][k].kind != SyscallEntry
    {
      assert StartsParser(segments[i], parserIdent);
      assert i > 0 ==> IsCall(segments[i]);
      EntriesAt(segments[i]);
    }
    forall i | 1 <= i < |segments| ensures segments[i][0].kind == SyscallEntry {
      assert IsCall(segments[i]);
    }
  }

  lemma CutStaysWellCut(segments: Segments, e: CallEvent, parserIdent: nat)
    requires WellCut(segments, parserIdent)
    ensures WellCut(Cut(segments, e), parserIdent)
  {
    var last := segments[|segments| - 1];
    assert StartsParser(last, parserIdent);
    OneEvent(e);
    OneMoreEvent(last, e);
    assert |segments| > 1 ==> IsCall(last);
  }

  lemma FirstIsOfferedAgain(e: CallEvent)
    ensures Cut([[e]], e) == Cut([], e)
  {
    OneEvent(e);
    assert [[e]] + [[e]] == [[e], [e]] && [e] + [e] == [e, e];
    assert [[e]][0 := [e, e]] == [[e, e]];
  }

  lemma {:induction false} CutsAreWell(events: seq<CallEvent>)
    requires events != []
    ensures Concat(CutAll(events)) == [events[0]] + Of(events, events[0].parserIdent)
    ensures WellCut(CutAll(events), events[0].parserIdent)
  {
    var front, e := events[..|events| - 1], events[|events| - 1];
    if front == [] {
      FirstTwice(e);
      OneEvent(e);
      assert events == [e] && Of([], e.parserIdent) == [];
    } else {
      CutsAreWell(front);
      assert front[0] == events[0];
      var segments := CutAll(front);
      assert StartsParser(segments[|segments| - 1], events[0].parserIdent);
      CutConcat(segments, e);
      CutStaysWellCut(segments, e, events[0].parserIdent);
    }
  }

  /** Call segmentation, for every stream: nothing of the first event's parser is lost or reordered, only
      the first event is repeated, and every later span is one call. */
  lemma CallSegmentation(events: seq<CallEvent>)
    requires events != []
    ensures Concat(CutAll(events)) == [events[0]] + Of(events, events[0].parserIdent)
    ensures WellCut(CutAll(events), events[0].parserIdent)
    // every span but the first starts with a syscall entry, no span has two, and only the last may have none
    ensures var segments := CutAll(events);
            && (forall i :: 0 <= i < |segments| ==> segments[i] != [])
            && (forall i :: 1 <= i < |segments| ==> segments[i][0].kind == SyscallEntry)
            && (forall i, j, k :: 0 <= i < |segments| && 0 <= j < k < |segments[i]| ==>
                  segments[i][j].kind != SyscallEntry || segments[i][k].kind != SyscallEntry)
            && (|segments| > 1 ==> exists j :: 0 <= j < |segments[0]| && segments[0][j].kind == SyscallEntry)
  {
    CutsAreWell(events);
    WellCutInPlainTerms(CutAll(events), events[0].parserIdent);
  }
}
