# telnetpp in Dafny

A model of the core of telnetpp, a C++ Telnet library, with proofs about
that model. The model covers:

- **The stream codec.**
  - The six-state IAC framing parser of RFC 854 ("TELNET COMMAND STRUCTURE") with the IAC SB ... IAC SE envelope of RFC 855. It is a class whose fields change byte by byte.
  - The `parse` loop that reports how far the input was consumed.
  - The element encoder with its IAC doubling, and both generators, the plain one and the one that batches around pass-through tokens.
  - The byte converter and the token combiner.
- **Option negotiation.** Four generations of the option state machine of RFC 1143 section 7, each of them without the queued-opposite flag:
  - the `option` template;
  - `detail::option`;
  - `client_option`;
  - `server_option`.
- **Routing and the session.**
  - The keyed router with its fallback route.
  - The registration of client and server options.
  - The routing visitor.
  - The session, which parses each incoming chunk, dispatches every element and answers unknown options with a refusal.
- **MCCP.** The engaged-flag codec splice, the decompressor, and the server and client options that drive them. The compression itself is an abstract hook.
- **Option payloads.**
  - MSDP: the decoder, the encoder, variable equality, the printer, and the client and server.
  - NEW-ENVIRON (RFC 1572): ESC escaping, the request and response parsers of both generations, the server's ordered variable tables and subnegotiation handling, and the client.
  - NAWS (RFC 1073).
  - TERMINAL-TYPE (RFC 1091).
- **The printers** for commands, negotiations and subnegotiations.
- **`rot13_encode`** from the example server.

Code that changes state step by step is modelled as a Dafny class or a method with loops. Each such method is proved equal to a specification function, and the properties are proved as lemmas about those functions. Pure code is modelled as functions and lemmas. Bytes are the newtype `Protocol.byte`. Signals, meaning the boost::signals2 slots, are modelled in two ways:
- the slots' results are a parameter, combined as `token_combiner` combines them;
- firings are recorded in an event log or a counter.

## Model

| member | source | states |
|---|---|---|
| ParseHelper.ParseTemps.constructor | include/telnetpp/detail/parse_helper.hpp:19-26 | a new parser is idle with no elements and no content |
| ParseHelper.ParseTemps.AppendParsedElement | src/detail/parse_helper.cpp:135-168 | a data run is merged into a data run ending the list, anything else is appended |
| ParseHelper.ParseTemps.ParseIdle | src/detail/parse_helper.cpp:21-33 | idle: IAC moves to the IAC state, any other byte extends the data |
| ParseHelper.ParseTemps.ParseIac | src/detail/parse_helper.cpp:38-68 | after IAC: IAC is one literal 0xFF, a verb waits for the option, SB opens a subnegotiation, anything else is a command |
| ParseHelper.ParseTemps.ParseNegotiation | src/detail/parse_helper.cpp:73-79 | the byte after a verb completes the negotiation, whatever it is |
| ParseHelper.ParseTemps.ParseSubnegotiation | src/detail/parse_helper.cpp:84-91 | the byte after SB is the option and the content is cleared |
| ParseHelper.ParseTemps.ParseSubnegotiationContent | src/detail/parse_helper.cpp:96-109 | content bytes are kept, IAC moves to the content-IAC state |
| ParseHelper.ParseTemps.ParseSubnegotiationContentIac | src/detail/parse_helper.cpp:114-130 | IAC SE completes the subnegotiation, IAC x keeps x |
| ParseHelper.ParseTemps.ParseByte | src/detail/parse_helper.cpp:175-207 | `parse_helper` dispatches on the state; every state is handled |
| ParseHelper.AppendParsedKeepsNoAdjacentData | src/detail/parse_helper.cpp:135-168 | appending never leaves two neighbouring data runs |
| ParseHelper.AppendParsedMergesData | src/detail/parse_helper.cpp:142-160 | appending two data runs one after the other is appending their concatenation |
| ParseHelper.StepKeepsNoAdjacentData | src/detail/parse_helper.cpp:21-168 | no byte in any state creates neighbouring data runs |
| ParseHelper.NonIdleStepAddsNothing | src/detail/parse_helper.cpp:21-130 | a byte that leaves the parser outside idle completes no element |
| Parser.RunKeepsNoAdjacentData | src/detail/parse_helper.cpp:135-168 | along any input, the element list never has neighbouring data runs |
| Parser.EscapedIacIsData | src/detail/parse_helper.cpp:38-46 | outside a subnegotiation IAC IAC adds exactly one 0xFF to the data and ends idle |
| Parser.NegotiationTakesAnyOption | src/detail/parse_helper.cpp:51-57 | IAC, a verb and any option byte, 0xFF included, give that negotiation and end idle |
| Parser.AnyOtherByteIsCommand | src/detail/parse_helper.cpp:63-65 | IAC and any byte other than IAC, SB or a verb is a command, unvalidated |
| Parser.SubnegotiationOpens | src/detail/parse_helper.cpp:84-91 | after IAC SB the next byte is always the option and the content starts empty |
| Parser.SubnegotiationContentBytes | src/detail/parse_helper.cpp:96-130 | in content: IAC SE completes, IAC x keeps x (IAC IAC gives one 0xFF), other bytes are kept |
| Parser.RunAppend | src/detail/parse_helper.cpp:175-207 | parsing a concatenation is parsing the second part from where the first left the temporaries |
| Parser.RunJoin | src/detail/parse_helper.cpp:135-168 | elements are only appended: the elements after a run are the earlier ones followed by the new ones, a data run at the seam merged |
| Parser.AgreeRun | include/telnetpp/detail/parser.hpp:24-39 | two temporaries with the same elements and state, differing only in fields the state does not read, stay so along any input |
| Parser.LastIdle | include/telnetpp/detail/parser.hpp:29-39 | the consumed length never exceeds the input and ends on an idle point or is zero |
| Parser.LastIdleMaximal | include/telnetpp/detail/parser.hpp:35-38 | no longer prefix leaves a fresh parser idle |
| Parser.ElementsCompleteAtLastIdle | include/telnetpp/detail/parser.hpp:29-41 | the bytes after the last idle point complete no element |
| Parser.Parse | include/telnetpp/detail/parser.hpp:21-42 | the loop returns the elements a fresh parser completes on `[begin, end)` and moves `begin` to the last idle point |
| Parser.EmptyInput | include/telnetpp/detail/parser.hpp:24-41 | empty input yields no elements and leaves `begin` unchanged |
| Parser.ConsumedAllIffBoundary | include/telnetpp/detail/parser.hpp:35-38 | everything is consumed exactly when the input ends on a frame boundary |
| Parser.PartialFrameUnconsumed | include/telnetpp/detail/parser.hpp:29-39 | a trailing fragment that never returns to idle is left unconsumed and completes nothing |
| Parser.LoneIacUnconsumed | include/telnetpp/detail/parser.hpp:29-39 | a lone trailing IAC is left unconsumed |
| Parser.IacVerbUnconsumed | include/telnetpp/detail/parser.hpp:29-39 | a trailing IAC and verb without the option byte are left unconsumed |
| Parser.ReparseTail | include/telnetpp/detail/parser.hpp:24-39 | parsing the unconsumed tail plus new bytes afresh gives the same elements as one parse of everything, up to a data run split at the seam |
| GenerateHelper.AppendEscaped | src/detail/generate_helper.cpp:8-33 | appends the input with every 0xFF doubled and leaves what was there untouched |
| GenerateHelper.Generate | src/detail/generate_helper.cpp:37-67 | appends an element's encoding to `result`: data escaped, `[IAC, c]`, `[IAC, verb, option]`, IAC SB option, the escaped content and IAC SE |
| GenerateHelper.EscapeAppend | src/detail/generate_helper.cpp:8-23 | escaping works byte by byte: escaping a concatenation concatenates the escapes |
| GenerateHelper.EscapeLength | src/detail/generate_helper.cpp:12-22 | the escaped length is the length plus the number of 0xFF bytes |
| GenerateHelper.UnescapeAppend | src/detail/generate_helper.cpp:8-23 | an escaped suffix undoes to itself after any undoable prefix |
| GenerateHelper.EscapeRoundTrip | src/detail/generate_helper.cpp:8-23 | undoing the doubling gives the data back, so no 0xFF is left unpaired |
| GenerateHelper.EscapedDataParses | src/detail/generate_helper.cpp:43-46 | escaped data parses back from idle as exactly that data run |
| GenerateHelper.EscapedContentParses | src/detail/generate_helper.cpp:58-66 | escaped content parses back inside a subnegotiation as exactly that content |
| GenerateHelper.EncodedElementParses | src/detail/generate_helper.cpp:37-67 | from idle, parsing an element's encoding appends exactly that element and ends idle |
| GenerateHelper.RoundTrip | src/detail/generate_helper.cpp:37-67 | a nonempty data run, any negotiation, any subnegotiation and any command other than IAC, SB or a verb parse back to themselves, all bytes consumed |
| GenerateHelper.CommandIacReadsAsData | src/detail/generate_helper.cpp:47-51 | the encoding of command 0xFF reads back as the data byte 0xFF |
| Generator.Generate | include/telnetpp/generator.hpp:14-25 | the output is each element's encoding in input order; empty input gives empty output |
| Generator.GeneratedIsConcatenation | include/telnetpp/generator.hpp:14-25 | the output is the concatenation of the per-element encodings, and its length is the sum of theirs |
| Generator.GeneratedParses | include/telnetpp/generator.hpp:14-25 | parsing the output from idle appends the elements in order and ends idle |
| Generator.GenerateThenParse | include/telnetpp/generator.hpp:14-25 | a list of encodable elements with no neighbouring data runs parses back to itself, all bytes consumed |
| DetailGenerator.Generate | include/telnetpp/detail/generator.hpp:16-49 | the batching loop returns exactly the stream tokens of the specification |
| DetailGenerator.GenInvariant | include/telnetpp/detail/generator.hpp:22-41 | during the loop: no empty stream has been emitted, emitted plus pending bytes are the encoding of the elements so far, and the pass-through tokens are emitted in order |
| DetailGenerator.GeneratedContract | include/telnetpp/detail/generator.hpp:22-46 | no empty stream token is emitted, the streams concatenate to the encoding of all elements, and the pass-through tokens come out in order |
| DetailGenerator.SplitAtPassThrough | include/telnetpp/detail/generator.hpp:30-39 | a pass-through token flushes the pending bytes, then is emitted itself, order preserved |
| DetailGenerator.OnlyElements | include/telnetpp/detail/generator.hpp:26-29 | consecutive elements share one stream, flushed at the end and only if nonempty |
| DetailGenerator.ConvertedEqualsEncoded | src/byte_converter.cpp:28-39 | converting the generated tokens gives the encoding of the elements |
| ByteConverter.Send | src/byte_converter.cpp:28-39 | the result is the concatenation of the byte-stream tokens in order |
| ByteConverter.FlattenLength | src/byte_converter.cpp:14-17 | the output length is the sum of the stream lengths |
| ByteConverter.FlattenAppend | src/byte_converter.cpp:33-36 | converting a concatenation concatenates the conversions |
| ByteConverter.PassThroughContributesNothing | src/byte_converter.cpp:19-21 | a pass-through token contributes nothing, even between streams |
| TokenCombiner.AccumulateLength | include/telnetpp/element.hpp:43-51 | the fold's length is the accumulator's plus the sum of the slot results' |
| TokenCombiner.AccumulateKeepsPrefix | include/telnetpp/element.hpp:47-50 | the fold only appends to the accumulator |
| TokenCombiner.AccumulatePosition | include/telnetpp/element.hpp:43-51 | the j-th token of the i-th slot result sits at its offset in the fold |
| TokenCombiner.CombinedContents | include/telnetpp/element.hpp:41-52 | the combined length is the sum of the slot result lengths and every token sits at its own place: nothing dropped, duplicated or reordered |
| TokenCombiner.CombineEmpty | include/telnetpp/element.hpp:43-46 | no slot results combine to nothing |
| TokenCombiner.Combine | include/telnetpp/element.hpp:41-52 | the combined list holds as many tokens as all the slot results together |
| OptionTemplate.TelnetOption.constructor | include/telnetpp/option.hpp:241-244 | an option starts inactive with its code and verbs |
| OptionTemplate.TelnetOption.Activate | include/telnetpp/option.hpp:82-106 | from inactive: activating and sends exactly the local positive verb; from active: sends nothing and signals; while pending: nothing |
| OptionTemplate.TelnetOption.Deactivate | include/telnetpp/option.hpp:113-137 | from active: deactivating and sends the local negative verb; from inactive: signals; while pending: nothing |
| OptionTemplate.TelnetOption.Negotiate | include/telnetpp/option.hpp:144-207 | the reply and new state for each state and verb, as the four branches give them |
| OptionTemplate.TelnetOption.Subnegotiate | include/telnetpp/option.hpp:214-221 | content reaches the handler only while active |
| OptionTemplate.SendsAtMostOne | include/telnetpp/option.hpp:82-207 | every call sends at most one negotiation, always with the option's own code and verbs, and none while pending |
| OptionTemplate.NegotiationSettles | include/telnetpp/option.hpp:144-207 | after any received verb the option is active exactly when the verb was the remote positive, and it signals exactly when its state changed |
| OptionTemplate.RequestSignalsOnlyWhenSettled | include/telnetpp/option.hpp:82-137 | activate signals only from active, deactivate only from inactive, and each moves only inactive or active on |
| OptionTemplate.LastVerbDecides | include/telnetpp/option.hpp:144-207 | after any sequence of received verbs the state is decided by the last one |
| OptionTemplate.NoQueuedRequest | include/telnetpp/option.hpp:113-137 | a deactivate while activating is dropped: a later positive reply still activates the option |
| DetailOption.DetailOption.constructor | include/telnetpp/detail/option.hpp:28-31 | the older option starts inactive |
| DetailOption.DetailOption.Activate | include/telnetpp/detail/option.hpp:59-80 | as the template; a call while deactivating fails an assertion, so it is a precondition |
| DetailOption.DetailOption.Deactivate | include/telnetpp/detail/option.hpp:87-109 | from active it also signals at once; a call while activating fails an assertion, so it is a precondition |
| DetailOption.DetailOption.Negotiate | include/telnetpp/detail/option.hpp:116-177 | the reply and new state for each state and verb |
| DetailOption.DetailOption.Subnegotiate | include/telnetpp/detail/option.hpp:185-193 | content reaches the handler only while active |
| DetailOption.NegotiateMatchesTemplate | include/telnetpp/detail/option.hpp:116-177 | negotiation reaches the same state with the same events as the template, in a different order |
| DetailOption.RequestsMatchTemplate | include/telnetpp/detail/option.hpp:59-109 | activate agrees with the template; deactivate agrees except that from active it signals too |
| DetailOption.SendsAtMostOne | include/telnetpp/detail/option.hpp:59-177 | at most one negotiation per call, none in reply to a verb while pending |
| ClientOption.ClientOption.constructor | src/client_option.cpp:11-14 | a client option starts inactive and not activatable |
| ClientOption.ClientOption.SetActivatable | src/client_option.cpp:27-30 | the option accepts an unsolicited WILL from now on |
| ClientOption.ClientOption.Activate | src/client_option.cpp:35-55 | from inactive: activating and DO sent; from active: the signal's tokens; while pending: nothing |
| ClientOption.ClientOption.Deactivate | src/client_option.cpp:60-78 | from inactive: the signal's tokens; from active: deactivating and DONT sent; while pending: nothing |
| ClientOption.ClientOption.Negotiate | src/client_option.cpp:91-162 | the new state, reply tokens and signal firing for each state and verb |
| ClientOption.ClientOption.Subnegotiate | src/client_option.cpp:167-178 | content reaches the handler, and its tokens are returned, only while active |
| ClientOption.UnsolicitedWill | src/client_option.cpp:95-113 | an unsolicited WILL is accepted with DO and a signal exactly when the option is activatable, refused with DONT otherwise |
| ClientOption.SignalOnlyOnChange | src/client_option.cpp:91-162 | the signal fires only on a change of state, and the only silent change is active to inactive |
| ClientOption.NegotiationOutcome | src/client_option.cpp:91-162 | the option ends active exactly on WILL when it was already asked for or is activatable; a non-WILL, non-WONT verb while pending changes nothing |
| ClientOption.RepliesOwnVerbs | src/client_option.cpp:91-162 | every reply is nothing, the signal's tokens, or DO or DONT for the option's own code, possibly before the signal's tokens |
| ServerOption.ServerOption.constructor | src/server_option.cpp:11-14 | a server option starts inactive and not activatable |
| ServerOption.ServerOption.SetActivatable | src/server_option.cpp:27-30 | the option accepts an unsolicited DO from now on |
| ServerOption.ServerOption.Activate | src/server_option.cpp:35-55 | from inactive: activating and WILL sent; from active: the signal's tokens; while pending: nothing |
| ServerOption.ServerOption.Deactivate | src/server_option.cpp:60-78 | from inactive: the signal's tokens; from active: deactivating and WONT sent, no signal; while pending: nothing |
| ServerOption.ServerOption.Negotiate | src/server_option.cpp:91-160 | the new state, reply tokens and signal firing for each state and verb |
| ServerOption.ServerOption.Subnegotiate | src/server_option.cpp:165-176 | content reaches the handler only while active |
| ServerOption.MirrorsClient | src/server_option.cpp:91-160 | with DO for WILL and DONT for WONT the server reaches the client's state and signal; from inactive or active its reply is the client's with the leading negotiation's verb swapped, while settling it is the client's exactly; except that while activating any verb settles it |
| ServerOption.ActivatingAlwaysSettles | src/server_option.cpp:115-126 | while activating, DO activates and every other verb deactivates, with a signal either way |
| ServerOption.UnsolicitedDo | src/server_option.cpp:95-113 | an unsolicited DO is accepted with WILL exactly when the option is activatable, refused with WONT otherwise |
| ServerOption.DeactivationIsSilent | src/server_option.cpp:60-78 | leaving active by a received verb or by deactivate fires no signal |
| Routing.Router.constructor | include/telnetpp/detail/router.hpp:139-141 | a new router has no routes and no route for unregistered keys |
| Routing.Router.RegisterRoute | include/telnetpp/detail/router.hpp:74-81 | the key now maps to the handler, replacing any earlier one; the other keys keep theirs |
| Routing.Router.UnregisterRoute | include/telnetpp/detail/router.hpp:89-93 | the key has no route any more; the other keys keep theirs |
| Routing.Router.SetUnregisteredRoute | include/telnetpp/detail/router.hpp:101-105 | the handler becomes the route for every unregistered key |
| Routing.Router.Route | include/telnetpp/detail/router.hpp:115-137 | a message is handled exactly when its key is registered or a fallback is set, by its own key's handler when that is registered |
| Routing.RegisteredWins | include/telnetpp/detail/router.hpp:118-125 | a registered key takes its own handler whatever the fallback |
| Routing.UnregisteredTakesFallback | include/telnetpp/detail/router.hpp:126-136 | an unregistered key takes the fallback, and nothing without one |
| Routing.RegisterReplaces | include/telnetpp/detail/router.hpp:74-81 | after registering, the key takes the new handler and every other key is routed as before |
| Routing.UnregisterFallsBack | include/telnetpp/detail/router.hpp:89-93 | after unregistering, the key takes the fallback and every other key is routed as before |
| Routing.VerbsRouteSeparately | include/telnetpp/detail/negotiation_router.hpp:11-17 | a negotiation is keyed by verb and option together, so a route for WILL does not catch WONT for the same option |
| Registration.RegisterRouteFromNegotiationToOption | include/telnetpp/detail/registration.hpp:31-43 | the verb and the option's code now route to the option's negotiate for that verb |
| Registration.RegisterRouteFromSubnegotiationToOption | include/telnetpp/detail/registration.hpp:48-58 | the option's code now routes subnegotiations to the option's subnegotiate |
| Registration.RegisterClientOption | src/detail/registration.cpp:8-19 | WILL and WONT for the code reach the client option, and so do its subnegotiations |
| Registration.RegisterServerOption | src/detail/registration.cpp:24-35 | DO and DONT for the code reach the server option, and so do its subnegotiations |
| Registration.RegistrationKeepsConsistent | include/telnetpp/detail/registration.hpp:37-42 | every registered negotiation route calls its option with the verb of the key it is registered under |
| Registration.ClientReceivesWillWont | src/detail/registration.cpp:8-19 | after registering a client option exactly WILL and WONT for its code route to it; every other negotiation is routed as before |
| Registration.ServerReceivesDoDont | src/detail/registration.cpp:24-35 | after registering a server option exactly DO and DONT for its code route to it; every other negotiation is routed as before |
| Registration.DoForClientOnlyTakesFallback | src/detail/registration.cpp:8-19 | with only a client option for a code, DO and DONT for it take the fallback |
| Registration.LaterInstallOwnsSubnegotiation | include/telnetpp/detail/registration.hpp:48-58 | a client and a server option for the same code each get their own verbs, but the subnegotiation route belongs to the one registered last |
| RoutingVisitor.VisitResults | src/routing_visitor.cpp:23-58 | text goes to the text handler or yields nothing; a command or negotiation returns the tokens of its own route's handler, else of its router's fallback, else nothing; subnegotiations return nothing |
| RoutingVisitor.Visit | src/routing_visitor.cpp:23-58 | tokens come only from a handler that runs: subnegotiations, text without a text handler, and commands or negotiations with neither a route nor a fallback yield nothing |
| RoutingVisitor.OneSinkPerKind | include/telnetpp/detail/routing_visitor.hpp:26-29 | every element goes to the sink of its own kind and to no other, a subnegotiation to its option's route |
| Session.Session.constructor | src/session.cpp:23-40 | a new session has a fresh parser, no routes, empty logs, and refuses every negotiation by default |
| Session.Session.Write | src/session.cpp:95-99 | the channel receives exactly the generator's encoding of the element |
| Session.Session.InstallCommand | src/session.cpp:104-109 | the command's code now routes to the handler; other codes keep theirs |
| Session.Session.InstallClientOption | src/session.cpp:114-118 | the option gets the next slot, and WILL, WONT and its subnegotiations route to it |
| Session.Session.InstallServerOption | src/session.cpp:123-127 | the option gets the next slot, and DO, DONT and its subnegotiations route to it |
| Session.Session.DispatchElement | src/session.cpp:72-85 | one element changes the sinks exactly as the dispatch specification says |
| Session.Session.AsyncRead | src/session.cpp:66-90 | a chunk leaves the parser and the sinks exactly as the receive specification says, and keeps the session's invariant |
| Session.Session.ParseChunk | src/session.cpp:87 | the parser's pass over a chunk yields the elements the parse specification completes and carries its temporaries on |
| Session.Session.DispatchEach | src/session.cpp:71-87 | the parsed elements reach their sinks one after another, in order |
| Session.UnknownOptionRefused | src/session.cpp:25-39 | a negotiation with no installed option is answered on the channel with DONT for WILL/WONT and WONT for DO/DONT, for the same option, and nothing else changes |
| Session.OneSinkPerElement | src/session.cpp:74-84 | data reaches only the read callback, a command only its handler (if installed), a negotiation only the options and channel, a subnegotiation only the options |
| Session.DispatchAppend | src/session.cpp:71-87 | dispatching two lists is dispatching the first, then the second |
| Session.DispatchDelivers | src/session.cpp:76-77 | the read callback receives the data runs of the elements, in order, and nothing else |
| Session.DispatchKeepsSame | src/session.cpp:71-87 | dispatch respects sinks that no observer can tell apart |
| Session.SplitRunIsSame | src/session.cpp:76-77 | a data run split in two is indistinguishable from the run delivered whole |
| Session.DispatchJoin | src/session.cpp:71-87 | dispatching the joined elements of two chunks is indistinguishable from dispatching each chunk's elements in turn |
| Session.MarkerAddsNoData | src/session.cpp:88 | the empty completion run adds no data |
| Session.ReceiveKeepsSame | src/session.cpp:66-90 | receiving a chunk respects indistinguishable sinks |
| Session.ReceiveTwo | src/session.cpp:66-90 | two chunks in turn have the effect of their concatenation |
| Session.ChunkingIsInvisible | src/session.cpp:66-90 | however the stream is cut into chunks, the parser state, options, written bytes, commands and delivered data are those of the stream in one chunk |
| Session.ByteAtATime | src/session.cpp:66-90 | delivering a stream one byte per chunk is indistinguishable from delivering it whole |
| Session.StepKeepsDataNonEmpty | src/detail/parse_helper.cpp:135-168 | a parser step never creates an empty data run |
| Session.RunKeepsDataNonEmpty | src/detail/parse_helper.cpp:175-207 | the parser never produces an empty data run |
| Session.DataRunsNonEmpty | src/session.cpp:76-77 | every data run handed to the read callback is non-empty |
| Session.CompletionMarker | src/session.cpp:87-88 | a chunk hands the callback its non-empty data runs in arrival order, then exactly one empty run |
| Session.OneReplyBytes | src/detail/generate_helper.cpp:37-67 | a single negotiation reply is written as IAC, the verb and the code |
| Session.InstalledClientAcceptsWill | src/session.cpp:114-118 | with an activatable client option installed, IAC WILL code activates it and writes IAC DO code back |
| Session.DoForClientOnlyRefused | src/session.cpp:25-39 | DO for a code only a client option holds does not reach the option; the default route answers IAC WONT code |
| MccpCodec.Codec.constructor | include/telnetpp/options/mccp/codec.hpp:75 | a new codec is disengaged |
| MccpCodec.Codec.Start | src/options/mccp/codec.cpp:8-12 | the codec is engaged and the start hook has run |
| MccpCodec.Codec.Finish | src/options/mccp/codec.cpp:17-21 | the codec is disengaged and the finish hook's output is handed on |
| MccpCodec.Codec.Transform | src/options/mccp/codec.cpp:26-48 | the emissions, engaged flag, hook state and corruption are those the splice specification gives for the old flag, hook state and buffer |
| MccpCodec.DisengagedPassesThrough | src/options/mccp/codec.cpp:40-46 | while disengaged every byte is emitted alone, in order, never marked as the end, and the hooks are not called |
| MccpCodec.PassThroughKeepsBytes | src/options/mccp/codec.cpp:44-45 | passing bytes through neither loses nor repeats any |
| MccpCodec.EmptyInputNoCallback | src/options/mccp/codec.cpp:28 | an empty buffer emits nothing and changes nothing |
| MccpCodec.SpliceAtStreamEnd | src/options/mccp/codec.cpp:30-39 | when the transform reports the end of the stream, its unconsumed bytes follow its output untransformed and the codec ends disengaged |
| MccpCodec.CorruptionStops | include/telnetpp/options/mccp/codec.hpp:69-73 | a corrupted stream stops the codec at once, still engaged, with nothing emitted |
| MccpCodec.DisengagedSplits | src/options/mccp/codec.cpp:40-46 | while disengaged, two buffers in turn emit what their concatenation emits |
| MccpDecompressor.Decompressor.constructor | include/telnetpp/options/mccp/codec.hpp:75 | a new decompressor is disengaged, like the codec whose flag it shares |
| MccpDecompressor.Decompressor.BeginDecompression | src/options/mccp/decompressor.cpp:8-12 | the decompressor is engaged and the begin hook has run |
| MccpDecompressor.Decompressor.EndDecompression | src/options/mccp/decompressor.cpp:17-21 | the decompressor is disengaged and the end hook has run |
| MccpDecompressor.Decompressor.Decompress | src/options/mccp/decompressor.cpp:26-48 | a buffer is decompressed exactly as the codec's splice specification says |
| MccpDecompressor.TailAfterEndDelivered | src/options/mccp/decompressor.cpp:30-46 | after an in-stream end the decompressed output is followed by exactly the unconsumed bytes, in order, and the decompressor ends disengaged |
| MccpServer.MccpServer.constructor | src/options/mccp/server.cpp:9-27 | a new server is inactive, not compressing, and uses the given codec |
| MccpServer.MccpServer.OnStateChanged | src/options/mccp/server.cpp:13-26 | on a state change while compressing the codec is finished and its output sent; otherwise nothing happens |
| MccpServer.MccpServer.Signal | src/options/mccp/server.cpp:13-26 | the option's events are delivered in order, each signal running the slot |
| MccpServer.MccpServer.Negotiate | src/options/mccp/server.cpp:13-26 | a negotiation has the option's effect followed, at each signal, by the slot's |
| MccpServer.MccpServer.Activate | src/options/mccp/server.cpp:13-26 | activation has the option's effect followed, at each signal, by the slot's |
| MccpServer.MccpServer.Deactivate | src/options/mccp/server.cpp:13-26 | deactivation has the option's effect followed, at each signal, by the slot's |
| MccpServer.MccpServer.StartCompression | src/options/mccp/server.cpp:32-41 | only while active: the empty MCCP subnegotiation is sent, then the codec starts and compression is on |
| MccpServer.MccpServer.FinishCompression | src/options/mccp/server.cpp:46-58 | only while active and compressing: the codec finishes, its output is sent, and compression is off |
| MccpServer.PlayStep | src/options/mccp/server.cpp:13-26 | replaying events is replaying the first, then the rest |
| MccpServer.SignalEndsCompression | src/options/mccp/server.cpp:13-26 | the slot never changes the option state; a signal leaves compression off; with no signal only the option's elements are sent |
| MccpServer.OperationsKeepSound | src/options/mccp/server.cpp:32-58 | every operation keeps compression on only while the option is active or deactivating, with the codec engaged |
| MccpServer.NoDeferredStart | src/options/mccp/server.cpp:34 | a start asked for while not active is not remembered: a later DO does not start the codec |
| MccpServer.RefusalFinishesBeforeWont | src/options/mccp/server.cpp:13-26 | refusing while compressing sends the codec's final output before the WONT, and ends inactive with compression off |
| MccpServer.StartThenFinish | src/options/mccp/server.cpp:32-58 | start then finish sends the subnegotiation before the codec starts and the finish output after it finishes, and restores the option |
| MccpServer.StartWhileActive | src/options/mccp/server.cpp:32-41 | a start while active always restarts the codec, even when already compressing |
| MccpClient.ClientPlayStep | src/options/mccp/client.cpp:14-25 | replaying events is replaying the first, then the rest |
| MccpClient.MccpClient.constructor | src/options/mccp/client.cpp:10-26 | a new client is an inactive MCCP client option using the given codec |
| MccpClient.MccpClient.OnStateChanged | src/options/mccp/client.cpp:14-25 | on a state change that leaves the option not active the codec is finished and its output sent; otherwise nothing happens |
| MccpClient.MccpClient.Signal | src/options/mccp/client.cpp:14-25 | the option's events are delivered in order, each signal running the slot |
| MccpClient.MccpClient.Negotiate | src/options/mccp/client.cpp:14-25 | a negotiation has the option's effect followed, at each signal, by the slot's |
| MccpClient.MccpClient.Activate | src/options/mccp/client.cpp:14-25 | activation has the option's effect followed, at each signal, by the slot's |
| MccpClient.MccpClient.Deactivate | src/options/mccp/client.cpp:14-25 | deactivation has the option's effect followed, at each signal, by the slot's |
| MccpClient.MccpClient.Subnegotiate | src/options/mccp/client.cpp:31-36 | a subnegotiation received while active starts the codec, whatever its content |
| MccpClient.ClientSignal | src/options/mccp/client.cpp:14-25 | the slot never changes the option state; while active only the option's elements go out; a signal while not active leaves the codec disengaged |
| MccpClient.NegotiationAndTheCodec | src/options/mccp/client.cpp:14-25 | the option ends active exactly on WILL, which never touches the codec; any other verb out of a non-inactive state finishes it |
| MccpClient.SendsNoCodecEffect | src/options/mccp/client.cpp:14-25 | the option's own elements are never codec calls |
| MccpClient.RefusalFinishesBeforeDont | src/options/mccp/client.cpp:14-25 | refusing while active sends the codec's final output before the DONT |
| MccpClient.SubnegotiationStartsCodec | src/options/mccp/client.cpp:31-36 | a subnegotiation starts the codec exactly when active, independently of its content |
| MccpClient.DeactivateWhileInactiveFinishes | src/options/mccp/client.cpp:14-25 | deactivating an inactive option fires the signal and finishes the codec even if it never started |
| MsdpVariable.Equals | src/options/msdp.cpp:57-61 | the library's variable equality holds exactly when the names and values are identical |
| MsdpVariable.ValueEquals | src/options/msdp.cpp:7-27 | two values are equal exactly when they are the same alternative with identical contents |
| MsdpVariable.EntriesEqual | src/options/msdp.cpp:7-27 | two tables compare equal exactly when they hold the same entries in the same order |
| MsdpVariable.AlternativesDiffer | src/options/msdp.cpp:18-22 | values of different alternatives never compare equal, whatever their contents |
| MsdpVariable.EqualityLaws | src/options/msdp.cpp:57-66 | equality is reflexive and symmetric, and inequality is its negation |
| MsdpDecoder.Put | src/options/msdp/detail/decoder.cpp:71-82 | writing through a reference below the root never renames the root |
| MsdpDecoder.MsdpParser.constructor | src/options/msdp/detail/decoder.cpp:22-25 | a new parser has a default root, an empty stack, is idle and has reported nothing |
| MsdpDecoder.MsdpParser.OpenVariable | src/options/msdp/detail/decoder.cpp:119-132 | an empty stack starts a fresh root; otherwise a new entry is appended to the top's table and pushed, and a top that is not a table is an error |
| MsdpDecoder.MsdpParser.CloseVariable | src/options/msdp/detail/decoder.cpp:137-146 | the stack is popped; emptying it reports the root and resets it; popping an empty stack is an error |
| MsdpDecoder.MsdpParser.ParseIdle | src/options/msdp/detail/decoder.cpp:151-168 | VAR opens a variable, TABLE_CLOSE closes one, every other byte is ignored |
| MsdpDecoder.MsdpParser.ParseName | src/options/msdp/detail/decoder.cpp:173-184 | VAL starts an empty string value, every other byte extends the top's name |
| MsdpDecoder.MsdpParser.ParseValue | src/options/msdp/detail/decoder.cpp:189-218 | ARRAY_OPEN and TABLE_OPEN start an empty array or table, TABLE_CLOSE closes, VAR closes and opens, other bytes extend a string value and fail on any other value |
| MsdpDecoder.MsdpParser.ParseArray | src/options/msdp/detail/decoder.cpp:223-240 | ARRAY_CLOSE closes, VAL starts a new element, other bytes extend the last element; an empty array is an error |
| MsdpDecoder.MsdpParser.Parse | src/options/msdp/detail/decoder.cpp:30-54 | one byte is dispatched on the state and changes the parser as the step specification says |
| MsdpDecoder.MsdpParser.Finish | src/options/msdp/detail/decoder.cpp:59-65 | a root with a non-empty name is reported at the end, any other is dropped |
| MsdpDecoder.Decode | src/options/msdp/detail/decoder.cpp:262-273 | decoding feeds every byte to a fresh parser and finishes it; the result is the decode specification's, `None` where the source's behaviour is undefined |
| MsdpDecoder.EmptyPayload | src/options/msdp/detail/decoder.cpp:262-273 | an empty payload reports nothing |
| MsdpDecoder.IdleIgnores | src/options/msdp/detail/decoder.cpp:165-166 | in idle every byte but VAR and TABLE_CLOSE leaves the parser unchanged |
| MsdpDecoder.HazardsReachable | src/options/msdp/detail/decoder.cpp:137-139 | a payload starting with TABLE_CLOSE, and a non-VAL byte right after ARRAY_OPEN, reach the undefined cases |
| MsdpDecoder.FeedReportsAtMostOne | src/options/msdp/detail/decoder.cpp:137-146 | each byte reports at most one variable, keeps the earlier reports, and reports only the root of a one-deep stack |
| MsdpDecoder.RunAppend | src/options/msdp/detail/decoder.cpp:267-270 | feeding two pieces in turn is feeding their concatenation |
| MsdpEncoder.EncodeVariable | src/options/msdp/detail/encoder.cpp:12-45 | the storage is extended by exactly the variable's encoding: VAR, name, VAL, then the value |
| MsdpEncoder.AppendArray | src/options/msdp/detail/encoder.cpp:26-35 | the storage is extended by ARRAY_OPEN, VAL and each element in turn, and ARRAY_CLOSE |
| MsdpEncoder.AppendTable | src/options/msdp/detail/encoder.cpp:36-44 | the storage is extended by each entry's encoding inside its own TABLE_OPEN ... TABLE_CLOSE |
| MsdpEncoder.EncodingFraming | src/options/msdp/detail/encoder.cpp:16-18 | every encoding starts with VAR, the name and VAL, followed by the value's encoding |
| MsdpEncoder.EmptyValues | src/options/msdp/detail/encoder.cpp:20-44 | an empty array encodes as ARRAY_OPEN ARRAY_CLOSE, and an empty table encodes exactly as an empty string |
| MsdpEncoder.ItemsLength | src/options/msdp/detail/encoder.cpp:29-33 | the array items take one VAL each plus their own bytes |
| MsdpEncoder.EncodeListEmpty | src/options/msdp/client.cpp:21-26 | the encoding of a list is empty exactly when the list is |
| MsdpPrint.CText | src/options/msdp/variable.cpp:20-22 | a byte string prints as its bytes up to, and not including, the first NUL |
| MsdpPrint.CTextStopsAtNul | src/options/msdp/variable.cpp:20-22 | without NUL the whole string prints; anything after a NUL never prints |
| MsdpPrint.AsciiPrintsItself | src/options/msdp/variable.cpp:20-22 | a NUL-free text stored as bytes prints as itself |
| MsdpPrint.JoinTextsSnoc | src/options/msdp/variable.cpp:31-35 | one more array element adds a comma and the element's text |
| MsdpPrint.CommaFree | src/options/msdp/variable.cpp:20-22 | a byte string without commas prints without commas |
| MsdpPrint.ArrayCommas | src/options/msdp/variable.cpp:31-35 | an array of comma-free elements prints with exactly one comma fewer than it has elements |
| MsdpPrint.Show | src/options/msdp/variable.cpp:16-51 | a variable prints as its name up to the first NUL, `=`, then its value, opening and closing with the delimiters of its alternative |
| MsdpPrint.ShowValue | src/options/msdp/variable.cpp:26-48 | a value prints as at least two characters: a string in double quotes, an array in brackets, a table in braces, and the first character alone tells the alternative |
| MsdpPrint.JoinShownSnoc | src/options/msdp/variable.cpp:36-47 | one more table entry adds a comma and the entry's text |
| MsdpRoundTrip.VarStarts | src/options/msdp/detail/decoder.cpp:208-212 | in a state ready for a new variable, VAR opens a fresh root |
| MsdpRoundTrip.NameRun | src/options/msdp/detail/decoder.cpp:180-183 | mark-free bytes in the name state extend the name |
| MsdpRoundTrip.TextRun | src/options/msdp/detail/decoder.cpp:214-216 | mark-free bytes extend a string value |
| MsdpRoundTrip.ElementRun | src/options/msdp/detail/decoder.cpp:236-238 | mark-free bytes extend the last array element |
| MsdpRoundTrip.ItemsRun | src/options/msdp/detail/decoder.cpp:223-240 | the encoded array items are read back as those items |
| MsdpRoundTrip.VariableRun | src/options/msdp/detail/encoder.cpp:12-35 | the encoding of a string or array variable is read back as that variable, the string one still open |
| MsdpRoundTrip.ListRun | src/options/msdp/detail/decoder.cpp:262-273 | the encoding of a list of such variables is read back as that list |
| MsdpRoundTrip.RoundTrip | src/options/msdp/detail/decoder.cpp:262-273 | decoding the encoding of a list of string and array variables without MSDP marks gives the list back, when a trailing string variable is named |
| MsdpRoundTrip.UnnamedStringLost | src/options/msdp/detail/decoder.cpp:59-65 | an unnamed string variable left open at the end is not reported |
| MsdpRoundTrip.EmptyTableComesBackAsString | src/options/msdp/detail/encoder.cpp:36-44 | a named empty table decodes as an empty string |
| MsdpRoundTrip.TableSwallowsNextVariable | src/options/msdp/detail/encoder.cpp:36-44 | a table followed by a variable decodes as one table holding both |
| MsdpRoundTrip.TableThenVariable | src/options/msdp/detail/encoder.cpp:36-44 | the bytes a table and a following variable are encoded as |
| MsdpRoundTrip.OpenTableRun | src/options/msdp/detail/decoder.cpp:198-201 | after TABLE_OPEN the next VAR opens an entry of the table |
| MsdpRoundTrip.TableEntryRun | src/options/msdp/detail/decoder.cpp:203-212 | the entry's TABLE_CLOSE leaves the table open, so the next VAR becomes another entry |
| MsdpOption.SendVariables | src/options/msdp/client.cpp:18-29 | nothing for an empty list, otherwise one MSDP subnegotiation |
| MsdpOption.Receive | src/options/msdp/client.cpp:34-45 | the signal fires at most once, exactly when the content decodes to a non-empty list, with that list |
| MsdpOption.SendThenReceive | src/options/msdp/server.cpp:18-44 | what one side sends the other side's slots receive whole |
| MsdpOption.EmptySubnegotiationIsSilent | src/options/msdp/client.cpp:39-42 | an empty subnegotiation fires nothing |
| MsdpOption.UnnamedStringFiresNothing | src/options/msdp/client.cpp:39-42 | an unnamed string variable fires nothing |
| MsdpOption.NoSlotsNoOutput | src/options/msdp/client.cpp:44 | with no slots connected, receiving returns no tokens |
| EnvironStream.TypeToByte | src/options/new_environ/server.cpp:17-22 | a type goes on the wire as VAR or USERVAR, and that byte reads back as the same type |
| EnvironStream.AppendEscaped | src/options/new_environ/detail/stream.cpp:10-28 | the storage gains the content with ESC in front of every VAR, VALUE, ESC and USERVAR byte |
| EnvironStream.EscapedLength | src/options/new_environ/detail/stream.cpp:10-28 | escaping adds exactly one byte per reserved byte |
| EnvironStream.EscapedAppend | src/options/new_environ/detail/stream.cpp:12-27 | escaping a concatenation is concatenating the escapings |
| EnvironStream.PlainIsUnchanged | src/options/new_environ/detail/stream.cpp:23-25 | content with no reserved byte goes out unchanged |
| EnvironTable.BeforeIrreflexive | src/options/new_environ/server.cpp:38-47 | the name order of the variable map is irreflexive |
| EnvironTable.BeforeTransitive | src/options/new_environ/server.cpp:38-47 | the name order is transitive |
| EnvironTable.BeforeTotal | src/options/new_environ/server.cpp:38-47 | any two different names are ordered one way or the other |
| EnvironTable.AbsentBefore | src/options/new_environ/server.cpp:38-47 | a name below every key of an ordered map is not in it |
| EnvironTable.AssignedLookup | src/options/new_environ/server.cpp:40-41 | after assignment the name maps to the new value and every other name keeps its value |
| EnvironTable.AssignedOrdered | src/options/new_environ/server.cpp:40-41 | assignment keeps the map sorted by name without duplicates |
| EnvironTable.ErasedLookup | src/options/new_environ/server.cpp:54 | after erasure the name is absent and every other name keeps its value |
| EnvironTable.ErasedOrdered | src/options/new_environ/server.cpp:54 | erasure keeps the map sorted |
| EnvironRequests.RequestParser.constructor | include/telnetpp/options/new_environ/detail/request_parser_helper.hpp:18-22 | a fresh parser waits for SEND |
| EnvironRequests.RequestParser.ParseByte | include/telnetpp/options/new_environ/detail/request_parser_helper.hpp:93-121 | one byte moves the parser as the request machine does and hands on the requests it ends |
| EnvironRequests.RequestParser.ParseEnd | include/telnetpp/options/new_environ/detail/request_parser_helper.hpp:126-133 | at the end the open request is handed on only if it has a name |
| EnvironRequests.ForEachRequest | include/telnetpp/options/new_environ/detail/for_each_request.hpp:10-19 | the requests handed on are exactly those of the payload, in order |
| EnvironRequests.ParseData | src/options/new_environ/detail/request_parser.cpp:92-121 | the older per-byte parser computes the same step as the library's |
| EnvironRequests.ParseRequests | src/options/new_environ/detail/request_parser.cpp:128-152 | the older parser returns the same requests as the library's |
| EnvironRequests.RequestRunAppend | include/telnetpp/options/new_environ/detail/for_each_request.hpp:10-19 | parsing two pieces in turn is parsing their concatenation |
| EnvironRequests.FirstByteSkipped | include/telnetpp/options/new_environ/detail/request_parser_helper.hpp:27-34 | the first byte of a payload does not affect what it requests |
| EnvironRequests.NameByte | include/telnetpp/options/new_environ/detail/request_parser_helper.hpp:52-88 | an escaped byte is added to the name as itself |
| EnvironRequests.NameRun | include/telnetpp/options/new_environ/detail/request_parser_helper.hpp:52-88 | an escaped name is read back whole and ends no request |
| EnvironRequests.NothingWithoutAName | include/telnetpp/options/new_environ/detail/request_parser_helper.hpp:64-69 | a short payload requests nothing, an unnamed request followed by another is still handed on, and VALUE is an ordinary name byte |
| EnvironResponses.ResponseParser.constructor | include/telnetpp/options/new_environ/detail/response_parser_helper.hpp:16-20 | a fresh parser waits for IS or INFO |
| EnvironResponses.ResponseParser.ParseByte | include/telnetpp/options/new_environ/detail/response_parser_helper.hpp:102-135 | one byte moves the parser as the response machine does and hands on the variables it ends |
| EnvironResponses.ResponseParser.ParseEnd | include/telnetpp/options/new_environ/detail/response_parser_helper.hpp:137-144 | at the end the open variable is handed on only if it has a name |
| EnvironResponses.ForEachResponse | include/telnetpp/options/new_environ/detail/for_each_response.hpp:7-21 | the variables handed on are exactly those of the payload, in order |
| EnvironResponses.ResponseRunAppend | include/telnetpp/options/new_environ/detail/for_each_response.hpp:7-21 | parsing two pieces in turn is parsing their concatenation |
| EnvironResponses.ValueAlwaysOpen | include/telnetpp/options/new_environ/detail/response_parser_helper.hpp:54-57 | whenever the parser is in a value, the value is present, so appending to it is defined |
| EnvironResponses.FirstByteSkipped | include/telnetpp/options/new_environ/detail/response_parser_helper.hpp:23-26 | the first byte of a payload does not affect what it reports |
| EnvironResponses.ValuePresence | include/telnetpp/options/new_environ/detail/response_parser_helper.hpp:36-63 | a variable without VALUE is reported with no value, one with VALUE and nothing after with an empty value |
| EnvironResponses.ParseData | src/options/new_environ/detail/response_parser.cpp:131-168 | the older per-byte parser computes its own step, with the type kept as the raw byte |
| EnvironResponses.ParseResponses | src/options/new_environ/detail/response_parser.cpp:175-199 | the older parser returns the responses of its machine |
| EnvironResponses.AllModernAppend | src/options/new_environ/detail/response_parser.cpp:183-191 | converting a concatenation is concatenating the conversions |
| EnvironResponses.RawStepAgrees | src/options/new_environ/detail/response_parser.cpp:131-168 | one step of the older parser agrees with one step of the library's |
| EnvironResponses.RawRunAgrees | src/options/new_environ/detail/response_parser.cpp:175-191 | a run of the older parser agrees with a run of the library's |
| EnvironResponses.OlderParserAgrees | src/options/new_environ/detail/response_parser.cpp:175-199 | both parsers report the same variables for every payload |
| EnvironServer.Listed | src/options/new_environ/server.cpp:100-111 | every stored variable is listed, in map order, with its type, name and value |
| EnvironServer.Found | src/options/new_environ/server.cpp:115-134 | at most one variable is answered per request |
| EnvironServer.NewEnvironServer.constructor | src/options/new_environ/server.cpp:29-33 | a new server holds no variables and no user variables |
| EnvironServer.NewEnvironServer.AppendName | src/options/new_environ/server.cpp:173-178 | the storage gains the type marker and the escaped name |
| EnvironServer.NewEnvironServer.AppendValued | src/options/new_environ/server.cpp:183-192 | the storage gains the type marker, the escaped name, VALUE and the escaped value |
| EnvironServer.NewEnvironServer.BroadcastUpdate | src/options/new_environ/server.cpp:143-153 | the update is INFO followed by the variable with its value |
| EnvironServer.NewEnvironServer.BroadcastDeletion | src/options/new_environ/server.cpp:158-168 | the deletion is INFO followed by the variable without a value |
| EnvironServer.NewEnvironServer.SetVariable | src/options/new_environ/server.cpp:38-47 | the variable map gains or replaces the name, stays sorted, and an update is written exactly when the option is active |
| EnvironServer.NewEnvironServer.DeleteVariable | src/options/new_environ/server.cpp:52-60 | the name leaves the variable map, which stays sorted, and a deletion is written exactly when the option is active |
| EnvironServer.NewEnvironServer.SetUserVariable | src/options/new_environ/server.cpp:65-74 | the same for the user variable map |
| EnvironServer.NewEnvironServer.DeleteUserVariable | src/options/new_environ/server.cpp:79-87 | the same for the user variable map |
| EnvironServer.NewEnvironServer.HandleSubnegotiation | src/options/new_environ/server.cpp:92-138 | the reply is IS followed by every variable for a one-byte payload, otherwise by the requested variables that exist |
| EnvironServer.NewEnvironServer.ListEverything | src/options/new_environ/server.cpp:94-112 | the reply lists every variable, then every user variable |
| EnvironServer.NewEnvironServer.AppendListed | src/options/new_environ/server.cpp:100-111 | the storage gains every entry of one map, in order |
| EnvironServer.NewEnvironServer.AppendFound | src/options/new_environ/server.cpp:115-134 | the storage gains the found variables, in request order |
| EnvironServer.ListedStep | src/options/new_environ/server.cpp:100-103 | listing one more entry appends that entry's bytes |
| EnvironServer.FoundStep | src/options/new_environ/server.cpp:115-134 | one more request appends its variable if it exists, and nothing otherwise |
| EnvironServer.ResponseListAppend | src/options/new_environ/server.cpp:183-192 | the bytes of two lists of variables are the two lists' bytes in turn |
| EnvironServer.ResponseListOne | src/options/new_environ/server.cpp:183-192 | a one-variable list is that variable's bytes |
| EnvironResponses.VarNameByte | include/telnetpp/options/new_environ/detail/response_parser_helper.hpp:36-70 | the response parser reads an escaped byte into the name as itself |
| EnvironResponses.VarNameRun | include/telnetpp/options/new_environ/detail/response_parser_helper.hpp:36-70 | the response parser reads an escaped name back whole |
| EnvironResponses.ValueByte | include/telnetpp/options/new_environ/detail/response_parser_helper.hpp:73-100 | the response parser reads an escaped byte into the value as itself |
| EnvironResponses.ValueRun | include/telnetpp/options/new_environ/detail/response_parser_helper.hpp:73-100 | the response parser reads an escaped value back whole |
| EnvironServer.ResponseBytesSplit | src/options/new_environ/server.cpp:183-192 | a variable's bytes are its type marker followed by its body |
| EnvironResponses.RunOne | include/telnetpp/options/new_environ/detail/for_each_response.hpp:15-18 | parsing one byte is one step |
| EnvironResponses.FirstKind | include/telnetpp/options/new_environ/detail/response_parser_helper.hpp:29-33 | the first type marker opens a variable of that type |
| EnvironResponses.NextKind | include/telnetpp/options/new_environ/detail/response_parser_helper.hpp:42-48 | a later type marker hands on the variable read so far and opens a new one |
| EnvironResponses.BodyRun | src/options/new_environ/server.cpp:183-192 | a variable's body is read back as that variable |
| EnvironServer.ListStep | src/options/new_environ/server.cpp:183-192 | one more variable on the wire hands on the previous one and is itself read back |
| EnvironServer.FirstRun | src/options/new_environ/server.cpp:183-192 | a lone variable is read back as itself |
| EnvironServer.ListRun | src/options/new_environ/server.cpp:92-134 | a list of variables is read back, all but the last handed on and the last still open |
| EnvironServer.ResponseRoundTrip | src/options/new_environ/server.cpp:92-192 | after any lead byte, a list of variables whose last has a name is reported as exactly that list |
| EnvironServer.SettledRead | include/telnetpp/options/new_environ/detail/response_parser_helper.hpp:137-144 | a named variable still open at the end is reported |
| EnvironResponses.LeadSkipped | include/telnetpp/options/new_environ/detail/response_parser_helper.hpp:23-26 | the lead byte only moves the parser on |
| EnvironServer.BroadcastsReadBack | src/options/new_environ/server.cpp:143-168 | a client reads a broadcast update or deletion of a named variable back as that variable, with or without its value |
| EnvironServer.BareSendListsEverything | src/options/new_environ/server.cpp:96-112 | a client reads the reply to a one-byte payload as every variable and then every user variable |
| EnvironServer.RequestsAnsweredInOrder | src/options/new_environ/server.cpp:113-135 | a client reads the reply to any other payload as the requested variables that exist, in request order |
| EnvironServer.FoundStored | src/options/new_environ/server.cpp:118-132 | every variable answered is stored under its name with that value |
| EnvironServer.NamedIfFound | src/options/new_environ/server.cpp:118-132 | a lookup only succeeds for a named variable when every stored name is non-empty |
| EnvironServer.SetThenDeleted | src/options/new_environ/server.cpp:38-60 | a variable just set is answered with its value; one just deleted is not answered |
| EnvironClient.RequestListAppend | src/options/new_environ/client.cpp:27-31 | the bytes of two request lists are the two lists' bytes in turn |
| EnvironClient.RequestListOne | src/options/new_environ/client.cpp:29-30 | a one-request list is that request's type marker and escaped name |
| EnvironClient.ContentIsBareSend | src/options/new_environ/client.cpp:25-33 | the request starts with SEND, and is SEND alone exactly when nothing is requested |
| EnvironClient.NewEnvironClient.RequestVariables | src/options/new_environ/client.cpp:23-34 | the content written is SEND and then each request's type marker and escaped name, in order |
| EnvironClient.NewEnvironClient.HandleSubnegotiation | src/options/new_environ/client.cpp:39-43 | the variables reported as changed are exactly those of the payload, in order |
| EnvironClient.RunOne | include/telnetpp/options/new_environ/detail/for_each_request.hpp:15-17 | parsing one byte is one step |
| EnvironClient.FirstRequest | include/telnetpp/options/new_environ/detail/request_parser_helper.hpp:39-75 | the first request on the wire is read back and left open |
| EnvironClient.NextRequest | include/telnetpp/options/new_environ/detail/request_parser_helper.hpp:64-69 | a later request hands on the previous one and is itself read back |
| EnvironClient.RequestListRun | include/telnetpp/options/new_environ/detail/request_parser_helper.hpp:93-121 | a request list is read back, all but the last handed on and the last still open |
| EnvironClient.SendSkipped | include/telnetpp/options/new_environ/detail/request_parser_helper.hpp:27-34 | the leading SEND only moves the parser on |
| EnvironClient.RequestRoundTrip | src/options/new_environ/client.cpp:23-34 | the server's parser reads the client's request back as the same list when the last request has a name |
| EnvironClient.UnnamedLastDropped | include/telnetpp/options/new_environ/detail/request_parser_helper.hpp:126-133 | an unnamed request at the end of the list is lost |
| EnvironClient.Exchange | src/options/new_environ/server.cpp:92-138 | the client reads the server's answer to its request as every variable when it asked for none, and as the requested variables that exist otherwise |
| Naws.Decoded | src/options/naws/client.cpp:20-30 | a payload carries a window size exactly when it has four bytes, and the size is within 16 bits |
| Naws.HandleSubnegotiation | src/options/naws/client.cpp:17-31 | the signal fires once, with the decoded size, exactly for a four-byte payload; otherwise nothing happens |
| Naws.PayloadDecoded | src/options/naws/client.cpp:22-23 | every 16-bit window size is read back from the payload sent for it |
| Naws.DecodedPayload | src/options/naws/client.cpp:22-23 | every four-byte payload is the one sent for the size it is read as |
| Naws.HighByteFirst | src/options/naws/client.cpp:22-23 | the first byte of each dimension is its high byte, and payloads of other lengths carry nothing |
| TerminalType.RequestTerminalType | src/options/terminal_type/client.cpp:17-24 | the request is one subnegotiation of option 24 holding SEND alone |
| TerminalType.Reported | src/options/terminal_type/client.cpp:35-43 | a payload reports a terminal type exactly when it starts with IS |
| TerminalType.HandleSubnegotiation | src/options/terminal_type/client.cpp:29-44 | the signal fires once, with the bytes after IS, exactly for a payload starting with IS; otherwise nothing happens |
| TerminalType.IsPayloadReported | src/options/terminal_type/client.cpp:38-40 | every terminal type, the empty one included, is read back from the payload sent for it |
| TerminalType.ReportedIsPayload | src/options/terminal_type/client.cpp:38-40 | every payload that reports a type is IS followed by that type |
| TerminalType.OthersIgnored | src/options/terminal_type/client.cpp:35-43 | empty payloads and payloads not starting with IS report nothing |
| TerminalType.RequestOnTheWire | src/options/terminal_type/client.cpp:17-24 | the request goes out as IAC SB 24 SEND IAC SE and is parsed back as that subnegotiation |
| Printers.Hex2RoundTrip | src/command.cpp:41 | a byte prints as two uppercase hexadecimal digits that read back as the byte |
| Printers.Hex2Injective | src/command.cpp:41 | different bytes print differently |
| Printers.CommandName | src/command.cpp:13-37 | exactly the codes NOP to GA have a name |
| Printers.ShowCommand | src/command.cpp:11-42 | every command is read back from its text, so different commands print differently |
| Printers.CommandForms | src/command.cpp:39-41 | named commands print by name, all others, SE included, in hexadecimal |
| Printers.ShowNegotiation | src/negotiation.cpp:11-32 | the verb and the option are both read back from the text |
| Printers.NegotiationInjective | src/negotiation.cpp:11-32 | different negotiations print differently |
| Printers.HexListStep | src/subnegotiation.cpp:23-31 | one more content byte adds a separator, unless it is the first, and its item |
| Printers.HexListLayout | src/subnegotiation.cpp:21-31 | the list is six characters per byte less two, with the i-th byte's item at 6 i and a separator before every item but the first |
| Printers.EmptyContent | src/subnegotiation.cpp:18-33 | empty content prints as an empty list |
| Printers.SubnegotiationInjective | src/subnegotiation.cpp:14-34 | different subnegotiations print differently: the option and every content byte are recoverable |
| Printers.ShowSubnegotiation | src/subnegotiation.cpp:14-34 | the text written is the option and the content list in brackets |
| Rot13.Encode | examples/rot13server/src/rot13_server.cpp:42-45 | the encoding has as many bytes as the input |
| Rot13.EncodePointwise | examples/rot13server/src/rot13_server.cpp:42-45 | each output byte is the transformation of the input byte at the same place |
| Rot13.EncodeByte | examples/rot13server/src/rot13_server.cpp:21-40 | letters stay letters of the same case, 13 places on round the alphabet; NUL becomes a newline; nothing else changes |
| Rot13.ByteInvolution | examples/rot13server/src/rot13_server.cpp:21-40 | transforming twice gives back every byte but NUL, which comes back as a newline |
| Rot13.EncodeTwice | examples/rot13server/src/rot13_server.cpp:19-46 | encoding twice is the identity on data without NUL bytes |

## Left out

- zlib: `deflate` and `inflate`, behind the MCCP compressor and decompressor, are foreign library calls. The model replaces the chunk transform, the decompression step and the finish call with hooks given as parameters. The transform hook must consume at least one byte of a non-empty buffer, or report the end of the compressed stream, or report corruption. `corrupted_stream_error` becomes an error outcome of the decompression hook.
- MccpDecompressor.Decompressor.EndDecompression: the output of the end hook is discarded, because the source discards it.
- I/O: the session's channel is a log of the bytes written, and `async_read` is a synchronous call that receives one chunk. `is_alive` and `close` are not modelled, because they only forward to the channel.
- The example server's connection, its socket server and `main` are asio networking; only `rot13_encode` is modelled.
- Signals, meaning the boost::signals2 slots, are not objects in the model. What the connected slots return is a parameter, and firings are an event log or a counter. Connecting and disconnecting slots at run time is not modelled.
- The session holds its installed options as values. Aliasing between an option the caller still holds and the one the session routes to is not modelled.
- Pass-through tokens (`boost::any`) are opaque tags. Their contents are never inspected.
- The stateful `telnetpp::parser` object used by the session is not part of this model. It is modelled as the parse state of the parse helper, carried from one chunk to the next. include/telnetpp/parser.hpp is not part of this model either; it calls overloads that are not available.
- src/options/naws/server.cpp is not part of this model, because it relies on `report_window_size`, which is not available.
- The constructors of the NAWS, TERMINAL-TYPE, NEW-ENVIRON and MSDP options only pass the option code to the client or server option base class. They are not modelled separately.
- The MSDP client and server have identical `send` and `handle_subnegotiation`, so one pair of functions models both.
- The list-level MSDP `encode` is not available. It is modelled as the concatenation of `encode_variable` over the list, which is what its uses need.
- MSDP tables do not round-trip. The encoder wraps every table entry in its own TABLE_OPEN ... TABLE_CLOSE, and the decoder closes only the entry at each entry's TABLE_CLOSE. The table stays open, so variables that follow become entries of it, and an empty table reads back as an empty string. After an array-valued entry, whose ARRAY_CLOSE already closed the entry, the TABLE_CLOSE closes the table itself. MsdpRoundTrip.EmptyTableComesBackAsString, MsdpRoundTrip.TableSwallowsNextVariable and MsdpRoundTrip.TableThenVariable state what happens instead, and MsdpRoundTrip.RoundTrip covers lists of string- and array-valued variables.
- The MSDP decoder's two undefined behaviours are modelled as an error outcome of `decode`: a TABLE_CLOSE with no open variable, and a non-VAL byte after ARRAY_OPEN with an empty array.
- The MSDP printer reads each byte string as a C string. Locale and stream formatting state are not modelled.
- The subnegotiation printer saves and restores the stream's formatting flags. That restoration is not modelled; the text written is.
- Printers.ShowNegotiation requires a verb, because the source asserts this. With assertions disabled the source would print an empty verb name.
- `byte_to_type` is not available. VAR is read as the well-known type and every other byte as USERVAR, as `u8_to_type` in src/options/new_environ/detail/request_parser.cpp does.
- NEW-ENVIRON's `std::map` tables are sorted association lists without duplicate names, ordered lexicographically by bytes.
- EnvironServer.Found: its own contract only bounds the length. What each answer holds is stated by EnvironServer.FoundStored, EnvironServer.SetThenDeleted and EnvironServer.RequestsAnsweredInOrder.
- `for_each_request` and `for_each_response` call their continuation during the scan. The model collects the requests or responses first and then runs the continuation over them in order. This is the same thing, because the continuations never touch the parser.
- The option byte `id` of the parse state is left uninitialised in the source. The model starts it at 0; it is never read before a negotiation or subnegotiation sets it.
- In the NEW-ENVIRON response parser, appending to an absent value would be undefined behaviour in the source. It cannot happen, as EnvironResponses.ValueAlwaysOpen proves, and `EnvironResponses.Pushed` takes an absent value as empty.
- Option negotiation has no queued-opposite flag, unlike RFC 1143 section 7: a request made while a negotiation is pending is ignored, as the code does.
- Code is followed where tests or documentation describe another version:
  - when an active server option receives DONT, it answers WONT and becomes inactive without firing its state-changed signal, unlike what an older test expects;
  - `start_compression` while the option is inactive does nothing and is not deferred, though the header comment describes deferral.
- Naws.Decoded: `width` and `height` are 16-bit in the source, and the model keeps them as naturals proved to be at most 65535.
- Integer widths: byte arithmetic is done on unbounded integers and then truncated to a byte where the source casts.
