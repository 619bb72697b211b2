# Columbo, modelled and verified in Dafny

Columbo reads the logs of several simulators (hosts, NICs, networks), turns them into events, and links
the events of all simulators into spans and traces.  This project models the stateful pieces of that path
and proves what they promise:

- `Channel`, `Pipeline`, `Composition`, `PipelineFlow`: the bounded coroutine channel as a ring buffer, and the chain of
  a producer, `n` handlers and a consumer over `n + 1` such channels, under every interleaving.  A critical
  section is one atomic step, and `await` is a guarded re-check after a notification.
- `Timer`: the virtual-time barrier that merges the timestamps of all participants.
- `LineReader`, `LineHandler`: the block-buffered reader and the cursor over one line.
- `EventStream`, `EventParser`, `EventRoundTrip`, `EventExamples`, `EventFile`: printing network events on a
  stream with sticky number formats, parsing them, why the second undoes the first, up to whole files, and a
  line as it stands in a log.
- `Grounded`, `Scheduler`, `Spans`, `TraceBook`, `Tracer`: the tracer with its export scheduler, its
  traces and the exporter's bookkeeping.  `Grounded` is the specification: which spans may be exported, as
  a least fixpoint over the parent links.  `TraceBook` describes the traces as values and proves what every
  run of tracer operations keeps; `Tracer` is the class, each method tied to both.
- `CallSegments`, `HostSpanner`: how the call stream is cut into spans, and how a receiving span takes its
  parents from the queue of contexts.  The host spanner works on the verified tracer.
- `DmaMatching`, `NicSpanner`: the list of pending DMA spans as one FIFO matcher per key.  The NIC spanner works
  on the verified tracer, too.
- `Contexts`: the unbounded queue of contexts between the spanners.

`Outcome` has the value `Fail` where the original throws.  A line the parser rejects is `Null`.  The result
of `read` is any positive number of characters up to the amount asked for, or an error.  Integers are unbounded except
where their width shows: the 64-bit and 32-bit fields of events, the saturation of `strtoul` and `strtol`,
the conversion from `long` to `int`, and the unsigned decrement of the timer's participant count.  Ids that
are counted up are unbounded.

Facts about the code that the proofs brought out:

- `ConsumeAndTrimTillString` never looks at matched characters again.  It equals leftmost search on every
  text exactly for the patterns in which every recurrence of the first character starts a copy of the
  pattern's beginning (`LineHandler.ScanIsLeftmostIff`); for any other pattern `LineHandler.ScanMisses` gives
  a text with an occurrence that it misses.
- Parsing undoes printing exactly for the events that satisfy `EventRoundTrip.Printable`: a non-empty name of
  alphanumeric characters and `-`, no negative node or device, and no number equal to 2^64 - 1, which the
  parser takes for an error of `strtoul`.  On a stream that was left in hexadecimal the identifier must also be
  below 10, and so must the length in an IPv4 header that no Ethernet header precedes.
- The very first call event is stored twice, once when its span is created and once when it is offered to
  that span (`CallSegments.CallSegmentation`).
- A second `MarkSpanAsDone` throws if the span is exported, and otherwise parks it a second time
  (`Tracer.Tracer.MarkSpanAsDone`).
- `AddParentLazily` throws exactly if the new parent's trace is the span's own trace.
- Spans with the same parent are exported in the order in which they were finished, whether they waited or not
  (`Tracer.Tracer.SiblingsKeepOrder`).
- A started span is a member of its trace as long as that exists, provided that contexts name trace ids that
  were drawn before (`TraceBook.StartedAreHeld`); `TraceBook.UndrawnTraceMisses` is a run without that.
- Cycles of parent links and everything below them are never exported, nor is anything below a span that never
  finishes; nothing else is held back (`Grounded.NeverExportedIffTrapped`).

## Model

| member | source | states |
|---|---|---|
| Channel.CoroBoundedChannel.constructor | include/sync/channel.h:565-567 | the new ring buffer is the empty open channel |
| Channel.CoroBoundedChannel.PerformWrite | include/sync/channel.h:544-551 | the value becomes the last of the queue, wherever the indices stand; the write index stays (read index + size) mod capacity |
| Channel.CoroBoundedChannel.PerformRead | include/sync/channel.h:554-562 | the first value of the queue leaves it, nothing else moves |
| Channel.CoroBoundedChannel.Push | include/sync/channel.h:605-630 | one attempt: waits when full and open, refused when closed or poisoned, otherwise appended; the ghost history of accepted values grows by exactly the accepted value |
| Channel.CoroBoundedChannel.TryPush | include/sync/channel.h:633-656 | as Push, but a full channel refuses |
| Channel.CoroBoundedChannel.Pop | include/sync/channel.h:659-691 | one attempt: waits when empty and open, yields nothing when poisoned or closed and drained, otherwise the front |
| Channel.CoroBoundedChannel.TryPop | include/sync/channel.h:693-718 | as Pop, but an empty channel yields nothing |
| Channel.CoroBoundedChannel.TryPopOnTrue | include/sync/channel.h:720-747 | takes the front exactly if the predicate holds of it |
| Channel.CoroBoundedChannel.CloseChannel | include/sync/channel.h:450-462 | sets the closed flag, keeps the contents |
| Channel.CoroBoundedChannel.PoisenChannel | include/sync/channel.h:464-476 | sets the poisoned flag, keeps the contents |
| Channel.RunIsFifo | include/sync/channel.h:544-747 | over any interleaving of all operations of any threads: old contents ++ accepted == delivered ++ new contents, and the capacity is never exceeded |
| Channel.RunFromEmpty | include/sync/channel.h:544-747 | from the empty channel: accepted values are the delivered ones followed by the buffered ones |
| Channel.ClosedTakesNothing | include/sync/channel.h:605-656 | after close or poison no operation sequence gets a value in, and nobody blocks |
| Channel.PoisonedGivesNothing | include/sync/channel.h:659-747 | after poison no operation sequence gets a value out |
| Channel.ClosedDrains | include/sync/channel.h:659-691 | a closed channel still delivers exactly its contents, in order |
| Channel.StepKeepsNoLostWakeup | include/sync/channel.h:450-476 | one atomic step of any thread: a sleeper that could go on always coexists with a thread that has yet to notify |
| Channel.NeverLosesWakeup | include/sync/channel.h:605-747 | no lost wake-up in any state of any interleaving of any number of threads |
| Pipeline.StartInv | include/sync/corobelt.h:199-224 | the freshly wired pipeline satisfies the invariant |
| Pipeline.TaskStepKeepsInv | include/sync/corobelt.h:100-196 | every atomic step of producer, handler or consumer keeps it: no push is ever refused, a channel is closed exactly by its finished writer, readers stop only on a closed and drained channel, no wake-up is lost |
| Pipeline.DriverStepKeepsInv | include/sync/corobelt.h:226-236 | so does every step of the driver that awaits the tasks and closes the channels in order |
| Pipeline.StuckMeansFinished | include/sync/corobelt.h:100-236 | no deadlock: if nobody can step, every task and the driver have finished, for any number of handlers and capacity >= 1 |
| PipelineFlow.TaskStepKeepsTotal | include/sync/corobelt.h:100-196 | consumed output followed by everything in flight, pushed through its remaining handlers, is the same before and after every task step |
| PipelineFlow.DriverStepKeepsTotal | include/sync/corobelt.h:226-236 | and before and after every driver step |
| PipelineFlow.StepFacts | include/sync/corobelt.h:100-236 | every step keeps the invariant and the total and decreases an explicit measure |
| PipelineFlow.EveryReachableState | include/sync/corobelt.h:100-236 | in every state of every interleaving: invariant, no failing task, output ++ in flight == handler composition of the input, steps taken within the bound |
| PipelineFlow.RunsAreBounded | include/sync/corobelt.h:100-236 | every run is finite, with an explicit bound in handlers and inputs |
| PipelineFlow.MaximalRunsDeliver | include/sync/corobelt.h:199-236 | a run that cannot go on has finished everything and the consumer saw exactly the handler composition of what was produced |
| PipelineFlow.MaximalRunsInPlainTerms | include/sync/corobelt.h:173-236 | the same without the recursive specification: every handler gets what the previous one passed on, starts from its own memory and remembers what it returned, and passes on, rewritten and in order, exactly the values it says so of |
| PipelineFlow.NoHandler | include/sync/corobelt.h:199-236 | without handlers the consumer sees exactly what was produced |
| PipelineFlow.OneRewriter | include/sync/corobelt.h:173-196 | a handler that passes everything on, rewritten with f, delivers f of every value in order |
| PipelineFlow.OneFilter | include/sync/corobelt.h:173-196 | a pure filter delivers exactly the accepted values, unchanged and in order |
| Composition.OneMoreInput | include/sync/corobelt.h:173-196 | one more value: it is passed on, rewritten, exactly if the handler says so in the memory it has by then |
| PipelineFlow.RunPipelineImpl | include/sync/corobelt.h:199-236 | run under an arbitrary scheduler it ends and delivers that, handler by handler |
| Timer.Timer.constructor | include/analytics/timer.h:49 | nobody parked, maximum 0 |
| Timer.Timer.Done | include/analytics/timer.h:51-58 | one participant less, with unsigned wrap-around |
| Timer.Timer.Enter | include/analytics/timer.h:60-69 | returns at once below the maximum, otherwise the timestamp is parked |
| Timer.Timer.TryLeave | include/analytics/timer.h:73-84 | leaves exactly if the maximum has reached the timestamp, or all have arrived and it is the smallest parked one; then raises the maximum and pops the smallest parked timestamp |
| Timer.LeaverPopsItsOwn | include/analytics/timer.h:75-83 | in every invariant state the timestamp popped is the caller's own, and the maximum becomes that timestamp |
| Timer.HeapAtLeastMax | include/analytics/timer.h:60-84 | no parked timestamp is below the maximum |
| Timer.AllParkedIffReached | include/analytics/timer.h:67-77 | the counter reaches the participant count exactly when every active participant is parked |
| Timer.AdvanceNeedsEverybody | include/analytics/timer.h:75-81 | an advance of the maximum to t needs every active participant parked at t or later |
| Timer.StepKeepsInv | include/analytics/timer.h:51-87 | every step keeps: heap == multiset of parked timestamps, counter == its size, no lost wake-up, returned timestamps sorted |
| Timer.EveryReachableState | include/analytics/timer.h:51-87 | the invariant in every state of every interleaving of n participants |
| Timer.GlobalMerge | include/analytics/timer.h:60-87 | in every run the timestamps returned by MoveForward, over all participants, never decrease |
| Timer.MaximumAdvancesTogether | include/analytics/timer.h:75-81 | in every run the maximum advances to t only when all active participants are parked at t or later |
| Timer.SomebodyMayLeave | include/analytics/timer.h:75-78 | whenever all active participants are parked, one waiter's condition is true |
| Timer.NeverStuck | include/analytics/timer.h:60-87 | if nobody can move on its own while somebody is active, some participant is outside MoveForward |
| Timer.OvertakenLeaves | include/analytics/timer.h:75-84 | a parked call at or below the maximum leaves at its next check and moves nothing |
| Timer.CallsAreLogged | include/analytics/timer.h:60-87 | every call that returns is logged with its timestamp, and nothing else is |
| LineReader.InputFile.Read | include/reader/cReader.h:163-176 | any chunk of 1..n characters, none only at the end, moved from the front of the file to the given offset; or -1 for an error, and nothing is lost |
| LineReader.ReaderBuffer.FindLineEnd | include/reader/cReader.h:187-199 | skips exactly the newlines at the cursor and finds the end of the first line, or -1 iff the text has no complete line |
| LineReader.ReaderBuffer.HasStillLineEnd | include/reader/cReader.h:201-227 | true iff the unread part of the block holds a complete line; drops only leading newlines |
| LineReader.ReaderBuffer.Compact | include/reader/cReader.h:153-157 | the unread characters move to the front of the block, none is lost |
| LineReader.ReaderBuffer.NextBlock | include/reader/cReader.h:147-185 | throws only on a reading error; otherwise unread characters are conserved, and the block holds a line, is full, or the file has ended |
| LineReader.ReaderBuffer.HasStillLine | include/reader/cReader.h:249-267 | the exact condition under which a line is found, for any chunking; what follows the leading newlines is untouched |
| LineReader.ReaderBuffer.NextHandler | include/reader/cReader.h:269-280 | the handed-out range lies in the block, is followed by a newline, is the first non-empty line of the unread text, and exactly that line is consumed |
| LineReader.BlockDecides | include/reader/cReader.h:147-185 | whether the next block yields a line depends on the unread text alone: it has one and it fits, blank lines in front included |
| LineReader.LinesInPlainTerms | include/reader/cReader.h:187-199 | the lines of a text: leading newlines count for nothing, a non-empty run of other characters up to a newline is a line, an unfinished one is not |
| LineReader.ReadAll | include/reader/cReader.h:147-280 | repeated NextHandler yields a prefix of the file's non-empty newline-terminated lines, and without reading errors all of them if each fits with its newline and preceding blank lines; with one-character reads fitting is also necessary |
| LineHandler.LineHandler.TrimL | source/reader/cReader.cpp:35-47 | drops exactly the longest prefix of white space |
| LineHandler.LineHandler.ExtractAndSubstrUntil | source/reader/cReader.cpp:63-75 | extracts the longest prefix whose characters satisfy the predicate, and leaves the rest |
| LineHandler.LineHandler.ConsumeAndTrimTillString | source/reader/cReader.cpp:100-143 | computes the search without backtracking; on failure the cursor does not move |
| LineHandler.LineHandler.ConsumeAndTrimString | source/reader/cReader.cpp:145-171 | succeeds iff the rest starts with the text, and then drops it |
| LineHandler.LineHandler.ConsumeAndTrimChar | source/reader/cReader.cpp:173-183 | the same for one character |
| LineHandler.LineHandler.ParseUintTrim | source/reader/cReader.cpp:185-216 | value and rest of the number token in base 10 or 16 with strtoul's saturation as an error; on failure the cursor does not move |
| LineHandler.LineHandler.ParseInt | source/reader/cReader.cpp:218-241 | value and rest of the decimal token with strtol's saturation and the truncation to int |
| LineHandler.ScanIsSound | source/reader/cReader.cpp:113-142 | success leaves the cursor just behind an occurrence, for every pattern and text |
| LineHandler.ScanFindsLeftmost | source/reader/cReader.cpp:113-142 | for self-aligned patterns, among them all whose first character does not recur, it is leftmost search on every text |
| LineHandler.ScanMisses | source/reader/cReader.cpp:113-142 | for every other pattern, a text that contains the pattern and on which the search fails |
| LineHandler.ScanIsLeftmostIff | source/reader/cReader.cpp:100-143 | equal to leftmost search on all texts iff the pattern is self-aligned |
| EventStream.OStream.PutByte | source/events/events.cc:539-541 | two hexadecimal digits; leaves the stream in hexadecimal with fill '0' |
| EventStream.OStream.PutMac | source/events/events.cc:538-545 | six such bytes joined by colons; the stream is back in decimal |
| EventStream.OStream.PutIp | source/events/events.cc:547-552 | the four octets in decimal, whatever the stream's format |
| EventStream.OStream.PutEthernet | source/events/events.cc:554-560 | the header's text with a hexadecimal length; the stream is back in decimal |
| EventStream.OStream.PutIpHeader | source/events/events.cc:562-568 | the header's text, its length in the stream's current base |
| EventStream.OStream.PutArp | source/events/events.cc:570-577 | the header's text |
| EventStream.OStream.PutHeaders | source/events/events.cc:588-602 | the headers that are present, each in the base the previous one left |
| EventStream.OStream.PutPrefix | source/events/events.cc:31-36 | the text of name, identifier, parser name and timestamp, the identifier in the stream's current base |
| EventStream.OStream.PutEvent | source/events/events.cc:579-603 | the text of the whole event; a stream that was in decimal is in decimal again |
| EventParser.ParseMacAddress | source/parser/parser.cc:47-64 | result and cursor of the loop over six bytes, on every text, error paths included |
| EventParser.ParseIpAddress | source/parser/parser.cc:66-80 | result and cursor of the loop over four octets, on every text |
| EventParser.TryParseEthernetHeader | source/parser/parser.cc:82-103 | result and cursor position, also where a failed attempt leaves the cursor |
| EventParser.TryParseArpHeader | source/parser/parser.cc:105-130 | likewise, with the request/reply alternatives |
| EventParser.TryParseIpHeader | source/parser/parser.cc:132-159 | likewise |
| EventParser.ParseBoolFromStringRepr | source/reader/cReader.cpp:253-263 | true, false, or failure with the cursor unmoved |
| EventParser.ParseIdentNameTs | include/parser/eventStreamParser.h:41-64 | succeeds iff the prefix is well formed, with its fields and the rest |
| EventParser.ParseNetworkEvent | source/parser/event-stream.cpp:27-148 | the event described by the rest of the line, or nothing |
| EventParser.ParseKind | source/parser/event-stream.cpp:438-447 | which kind of event a name stands for; unknown names give null |
| EventParser.ParseEvent | source/parser/event-stream.cpp:150-170 | what a line stands for: a network event, null, or one of the kinds that are not modelled |
| EventRoundTrip.ReadDigits | source/reader/cReader.cpp:185-216 | a printed number reads back in its base unless it is 2^64 - 1 |
| EventRoundTrip.ReadNumber | source/reader/cReader.cpp:185-216 | a number printed in the stream's format reads back in decimal exactly below 2^64 - 1, on a stream in hexadecimal exactly below 10; otherwise another number or none is read |
| EventRoundTrip.ReadIntDigits | source/reader/cReader.cpp:218-241 | a printed int reads back iff it is not negative |
| EventRoundTrip.ReadMacText | source/parser/parser.cc:47-64 | every printed MAC address reads back |
| EventRoundTrip.ReadIpText | source/parser/parser.cc:66-80 | every printed IPv4 address reads back |
| EventRoundTrip.ReadEthernetText | source/parser/parser.cc:82-103 | a printed Ethernet header reads back, the rest of the line is left |
| EventRoundTrip.ReadArpText | source/parser/parser.cc:105-130 | a printed ARP header reads back, whatever follows it that lacks a 'q' |
| EventRoundTrip.ReadIpHeaderText | source/parser/parser.cc:132-159 | a printed IPv4 header reads back iff its length survives the stream's format |
| EventRoundTrip.ReadHeaderPart | source/parser/event-stream.cpp:80-87 | any combination of present and absent headers reads back iff its lengths survive the format they were printed in; no parser is misled by another header |
| EventRoundTrip.ReadFieldsText | source/parser/event-stream.cpp:43-58 | the printed fields read back exactly under the numeric conditions |
| EventRoundTrip.ReadPrefixText | include/parser/eventStreamParser.h:41-64 | identifier, name and timestamp read back if the numbers survive; otherwise another identifier or nothing is read |
| EventRoundTrip.ParseUndoesPrint | source/parser/event-stream.cpp:27-170 | for every network event and both stream formats: parsing its line gives the event itself iff its name is non-empty over digits, letters and `-`, node and device are not negative, and the numbers are below the bounds written out |
| EventExamples.AdapterLine | tests/stream-parser-test-files/event-stream-parser-test.txt:1 | the event that this line says |
| EventExamples.ArpExample | tests/stream-parser-test-files/event-stream-parser-test.txt:3 | the ARP header that this line says |
| EventExamples.IpExample | tests/stream-parser-test-files/event-stream-parser-test.txt:47 | the IPv4 header that this line says |
| EventFile.PrintAll | include/events/printer.h:50-65 | one line per event; every event is printed from a stream in decimal |
| EventFile.FileLines | include/events/printer.h:50-54 | the lines of the printed file are the printed events, none contains a newline, and the reader delivers them iff each fits |
| EventFile.FileRoundTrip | source/parser/event-stream.cpp:150-170 | parsing the lines of a printed file gives back the events in order |
| EventFile.ReplayFile | include/reader/cReader.h:269-280 | printing, reading through a block of any size in chunks of any size, and parsing gives back the events in order; without reading errors all of them if each line fits, and with one-character reads only then |
| Grounded.ExportsAreTheLeastFixpoint | include/analytics/tracer.h:142-205 | a parent-first log that holds nothing back contains exactly the finished spans whose parent chain is finished up to a root |
| Grounded.LogOrder | include/analytics/tracer.h:193-200 | parents before children, nothing twice |
| Grounded.NeverExportedIffTrapped | include/analytics/tracer.h:142-151 | a span is never exported iff it sits in a set closed under parents in which every finished span has its parent; cycles are such sets |
| Grounded.ExportsOnlyGrow | include/analytics/tracer.h:260-289 | finishing more spans takes no export back |
| Grounded.OneMoreSpan | include/analytics/tracer.h:286-288 | a span whose parent is not exported releases nothing |
| Scheduler.FinishReady | include/analytics/tracer.h:272-277 | exporting a ready span makes its waiters due and keeps everything else |
| Scheduler.FinishParked | include/analytics/tracer.h:287-288 | parking the others keeps the whole scheduler invariant |
| Scheduler.ExportOne | include/analytics/tracer.h:193-200 | the next span of a cascade is exported after its parent and its own waiters become due |
| Scheduler.ListDone | include/analytics/tracer.h:192-204 | a list that is worked off is no longer due |
| Scheduler.ExportsAreGrounded | include/analytics/tracer.h:260-289 | between operations the exported set is the specified one, so it does not depend on the order of finishing |
| Scheduler.ExportedOrWaiting | include/analytics/tracer.h:160-205 | every finished span is in precisely one of log and waiting list, once, and waits only for its own parent, which is not exported |
| Scheduler.FirstFinishedFirst | include/analytics/tracer.h:160-205 | of two finished spans with the same parent the one finished first is exported first, whether both waited, one or none |
| Spans.TraceContext.SetParentIdAndTs | include/analytics/traceContext.h:102-109 | sets the parent or throws on the invalid id and changes nothing |
| Spans.EventSpan.SetContext | source/analytics/span.cpp:68-86 | accepted iff an existing context may be overridden and the new one has a parent that does not start later; otherwise nothing changes |
| Spans.Trace.AddSpan | include/analytics/trace.h:84-91 | inserts, or throws on a duplicate and changes nothing |
| Spans.Trace.GetSpansAndRemoveSpans | include/analytics/trace.h:62-73 | returns every member exactly once and empties the trace |
| Spans.Exporter.StartSpan | include/exporter/exporter.h:813-833 | throws exactly on an unknown parent context, an invalid id or a colliding insert; otherwise both maps gain the span |
| Spans.Exporter.EndSpan | include/exporter/exporter.h:835-843 | removes the started span, throws if there is none |
| Spans.Exporter.ExportSpan | include/exporter/exporter.h:845-852 | the context map gains the span and the span map is as before |
| Tracer.Tracer.constructor | include/analytics/tracer.h:44-59 | an empty tracer without spans and traces is valid |
| Tracer.Tracer.TracerAndExporterAgree | include/analytics/tracer.h:260-289 | between operations: exporter's context keys == exported ids == logged spans == the specified set, span map empty, no waiting key exported |
| Tracer.Tracer.InsertExportedSpan | include/analytics/tracer.h:61-67 | throws on an invalid or repeated id |
| Tracer.Tracer.InsertTrace | include/analytics/tracer.h:69-75 | throws on a known id |
| Tracer.Tracer.RemoveTrace | include/analytics/tracer.h:87-92 | throws if nothing is removed |
| Tracer.Tracer.AddSpanToTraceIfTraceExists | include/analytics/tracer.h:94-103 | joins the trace if it exists, throws on a duplicate, changes no other trace |
| Tracer.Tracer.SafeToDeleteTrace | include/analytics/tracer.h:105-116 | true iff the trace exists and all its spans are exported |
| Tracer.Tracer.WasParentExported | include/analytics/tracer.h:142-151 | true iff there is no parent or it is exported |
| Tracer.Tracer.MarkSpanAsWaitingForParent | include/analytics/tracer.h:160-177 | becomes the last one in the list of its parent, behind those that were there; no other list changes |
| Tracer.Tracer.ExportWaitingForParentVec | include/analytics/tracer.h:179-205 | the cascade never throws, ends, exports only spans below the parent, drops exactly the keys it exported, and restores the scheduler invariant; parent links may be cyclic |
| Tracer.Tracer.MarkSpanAsDone | include/analytics/tracer.h:260-289 | the first time it never throws, the exported set is exactly the specified set of the finished spans, the log only grows, first by the span itself if it is exported, and the trace is removed exactly if all its spans are exported; a second time it throws and changes nothing if the span is exported, and parks the span once more, at the end of its list, if not |
| Tracer.Tracer.SiblingsKeepOrder | include/analytics/tracer.h:160-205 | after every operation: of two finished spans with the same parent, the one finished first stands first in the export log, and the other is not there without it |
| Tracer.Tracer.ParentExported | include/analytics/tracer.h:193-200 | after every operation the parent of an exported span is exported |
| Tracer.Tracer.StartSpanInternal | include/analytics/tracer.h:236-257 | a fresh root in a new trace that holds it alone; throws exactly if the span refuses its first event, and then only ids are used up |
| Tracer.Tracer.StartSpanByParentInternal | include/analytics/tracer.h:209-234 | a fresh span below the given parent; if its trace exists that gains exactly this span, and no other trace changes; throws exactly if the span refuses its first event, and then no trace changes |
| Tracer.Tracer.StartSpan | include/analytics/tracer.h:386-400 | as StartSpanInternal, and the whole invariant is kept; what is added to the tracer's objects is new |
| Tracer.Tracer.StartSpanByParent | include/analytics/tracer.h:332-354 | the new span's parent is the given span and its trace the same, which gains it if it exists; its context is its own |
| Tracer.Tracer.StartSpanByParentPassOnContext | include/analytics/tracer.h:359-381 | the new span's parent and trace are those of the context, and the trace gains it if it exists |
| Tracer.Tracer.CloneSpan | include/analytics/span.h:236-249 | a copy with an id of its own that shares context and original and belongs to no trace yet |
| Tracer.Tracer.StartSpanSetParentContext | include/analytics/tracer.h:402-423 | registers the copy below the context and in its trace if that exists, or throws exactly if the parent starts later and changes nothing |
| Tracer.Tracer.AddParentLazily | include/analytics/tracer.h:291-327 | gives an unfinished root a parent and merges its trace: the other trace, if it exists, holds both traces' spans, exactly the members' trace ids are rewritten, only the root's parent changes, the old trace goes; throws iff both are the same trace |
| Tracer.Tracer.StartedSpanIsHeld | include/analytics/tracer.h:94-103 | after every run whose contexts named drawn trace ids, a span whose trace exists is one of its members |
| TraceBook.ApplyKeepsOk | include/analytics/tracer.h:209-327 | every operation keeps: a span is in at most one trace, the trace of an unfinished root exists and holds it, roots have traces of their own, parents of finished spans are fixed |
| TraceBook.EveryRunOk | include/analytics/tracer.h:209-327 | this holds after every run of operations |
| TraceBook.RootTraceExists | include/analytics/tracer.h:305-309 | the lookup of AddParentLazily always succeeds for an unfinished root |
| TraceBook.InOneTraceOnly | include/analytics/tracer.h:94-103 | after every run no span is in two traces |
| TraceBook.FinishedForGood | include/analytics/tracer.h:260-289 | finished spans stay finished and their parent never changes |
| TraceBook.MergedOk | include/analytics/tracer.h:311-326 | merging keeps the invariant |
| TraceBook.RemovedOk | include/analytics/tracer.h:279-282 | removing a trace whose spans are all finished keeps it |
| TraceBook.StartedAreHeld | include/analytics/tracer.h:209-327 | the same for the runs as values |
| TraceBook.UndrawnTraceMisses | include/analytics/tracer.h:94-103 | a run in which a span is started below a context with a trace id that was not drawn yet: the trace that gets the id later does not hold it |
| CallSegments.HostCallSpan.IsPotentialAdd | source/analytics/span.cpp:100-121 | pending, and of the same parser as the first event |
| CallSegments.HostCallSpan.AddToSpan | source/analytics/span.cpp:123-161 | accepts unless it is a second syscall entry, or any entry in a fragmented span, which completes the span; the flags say which receive and transmit events are stored |
| CallSegments.SeenMeansPresent | source/analytics/span.cpp:149-157 | each of the four flags holds iff an event of its kind is among the stored ones |
| CallSegments.CutStaysWellCut | source/analytics/hostSpanner.cc:103-122 | one more event keeps: every later span starts with its only syscall entry |
| CallSegments.CallSegmentation | source/analytics/hostSpanner.cc:92-123 | for every stream: the spans' events in creation order are the first event followed by all events of its parser; no span has two syscall entries, every span but the first starts with one, and only the last span may have none |
| Contexts.ContextQueue.Push | include/sync/channel.h:787-810 | the context becomes the last one, unless the queue is closed |
| Contexts.ContextQueue.Pop | include/sync/channel.h:824-857 | the front context, in order |
| Contexts.ContextQueue.TryPopOnTrue | include/sync/channel.h:883-909 | the front context exactly if the predicate holds of it |
| Contexts.PushPropagateContext | include/analytics/spanner.h:120-133 | the last context in the queue is the span's: its trace, its id and its start; throws because the queue is closed |
| HostSpanner.FinishCopy | source/analytics/hostSpanner.cc:67-70 | a copy with a fresh id that knows its original is registered below the context, joins the context's trace if that exists, not its original's, and is finished; SetContext never refuses |
| HostSpanner.FanOut | source/analytics/hostSpanner.cc:56-71 | one copy per early context at the front of the queue, in order, all with different new ids and each in the trace of its context, and no other context is taken |
| HostSpanner.HostSpanner.FinishPendingSpan | source/analytics/hostSpanner.cc:31-75 | the first context becomes the span's parent and trace, each further one that started before the span a copy's, up to the first that did not; exactly these spans are finished, once; every copy belongs to the trace of its context; throws exactly if no context is there or it is of the span's own trace |
| HostSpanner.AnnounceAndFinish | source/analytics/nicSpanner.cc:139 | from the NIC to the host: the spans that were announced become the recorded parents of the receiving span and of its copies, in order and with their traces, and no receiver is exported before the span that caused it |
| HostSpanner.HostSpanner.CreateTraceStartingSpan | source/analytics/hostSpanner.cc:77-90 | finishes the pending span as above, then starts a trace with a span that has exactly the event; throws exactly if finishing throws |
| HostSpanner.HostSpanner.HandelCall | source/analytics/hostSpanner.cc:92-123 | on the modelled tracer and queue the spans' events are cut as CallSegmentation describes; false exactly for events of other parsers; exactly a second syscall entry finishes the pending span, as FinishPendingSpan says, and nothing else is finished; throws exactly if that does; whether the last event wrote to the PCI configuration |
| HostSpanner.HostSpanner.HandelAll | source/analytics/hostSpanner.cc:92-123 | for a whole stream on a new spanner: unless it throws, the spans' events are the first event followed by all events of its parser, and every later span is one call; it throws only at a syscall entry that completes a span with a kernel receive |
| NicSpanner.NicDmaSpan.AddToSpan | source/analytics/span.cpp:433-486 | accepts exactly issue, execution, completion of one key in this order |
| NicSpanner.NicSpanner.IterateAddErase | include/analytics/spanner.h:93-108 | the first span ever started that takes the event gets it; exactly the incomplete spans stay listed, in order |
| NicSpanner.NicSpanner.PushToHost | source/analytics/nicSpanner.cc:77 | the host gets the context of span k, or it throws because the queue is closed |
| NicSpanner.NicSpanner.HandelDma | source/analytics/nicSpanner.cc:66-105 | on the modelled tracer and queue: an issue starts a span below the last causing one, an execution of span k appends to the queue one context, with the trace, the id and the start of span k, a completion finishes it, and nothing else happens; exactly the complete spans are finished and each executed one was pushed once; throws iff an issue has no causing span or an execution finds the queue closed |
| NicSpanner.NicSpanner.HandelAll | source/analytics/nicSpanner.cc:66-105 | for a whole stream on a new spanner: the history is the one of DmaMatching, every span holds the events of its rank, and what HandelDma promises of tracer and pushes holds at the end: the queue gained one context per announced span, in order, that names the span as parent |
| DmaMatching.HandledServesQueue | include/analytics/spanner.h:93-108 | searching the list from the front refines one FIFO per parser, id and address |
| DmaMatching.EveryStream | source/analytics/nicSpanner.cc:66-105 | so for every stream of DMA events |
| DmaMatching.RankJoins | source/analytics/nicSpanner.cc:66-105 | the span with rank k of its key holds the k-th issue, execution and completion of the key |
| DmaMatching.KthJoinsKth | source/analytics/nicSpanner.cc:66-105 | for every stream the k-th accepted execution and completion of a key join its k-th issue |

## Left out

- concurrencpp executors, locks, condition variables and threads: a critical section is one atomic step.
- The channels for plain threads, and `CoroUnBoundedChannel` beyond `Push`, `Pop` and `TryPopOnTrue`: the same protocol without capacity.
- include/sync/specializations.h: the production copy of the pipeline tasks, the same algorithm as include/sync/corobelt.h.
- OpenTelemetry, span attributes and time conversions: the exporter keeps the keys of its two maps and a ghost log.
- Logging, YAML configuration, the command line, Docker, opening and closing files and pipes.  `feof` never holds because reads bypass stdio.
- `WeakTimer` and `LazyTtLMap`.  The timer's heap is a multiset, without the layout of `std::priority_queue`.
- EventParser.ParseEvent: how host and NIC events are printed and read back is not modelled; their lines give `OtherKind`.
- `Equal` on events is equality of the datatype.  Names are any string; only printable ones are claimed to round-trip.
- A final line without newline and lines longer than the block: the code does not deliver them, and neither does the model.
- Other spans than host call and NIC DMA spans, other spanners, `Trace::display`, the recognition of gem5, nicbm and ns3 logs, and symbol tables.
- Tracer.Tracer.AddParentLazily: the span is an unfinished root, which is the only case it is meant for (include/analytics/tracer.h:307-308); what the exception for equal trace ids leaves behind is not specified.
- Tracer.Tracer.StartSpanSetParentContext: the span is not registered with a trace yet, as at its call sites.
- Tracer.Tracer.StartSpanInternal: the span's event list is reduced to the timestamp of its first event and to whether the span takes it; context ids, which nothing reads, are not counted.
- Contexts.ContextQueue.Pop: an empty queue stands for a closed one; on an open one the original waits.  Poisoning a queue of contexts is not modelled, and `HasParent` and the expectation of a context are always right.
- HostSpanner.HostSpanner.FinishPendingSpan: as for Contexts.ContextQueue.Pop, the wait for a context is not modelled.
- HostSpanner.AnnounceAndFinish: of the NIC's receive handler, which announces its spans to the host, only the announcements are modelled.
- NicSpanner.NicSpanner.HandelDma: the MMIO handler, which sets the last causing span, is not modelled; the span is a field.
- LineReader.ReaderBuffer.HasStillLine: `IsStreamStillGood` is a parameter.
- LineReader.ReaderBuffer.NextBlock: the file is open, so `reached_eof_` is below 2.
- PipelineFlow.RunPipelineImpl: handlers, producer and consumer are functions that always return; exceptions from them are not modelled.
