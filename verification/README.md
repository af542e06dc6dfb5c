# Antenna: a verified model

Antenna is the background engine of a messenger-like radio: it routes lines of Turtle between an
embedding app, a peer-to-peer carrier, a triple store and script threads. This project models the
parts of it in which something can go wrong over a whole run, and proves what they are for. `dafny
verify dfyconfig.toml` checks everything.

## What is modelled

**Channels** (`Words`, `Framing`, `RingSlots`, `RingBytes`, `RingBuffer`, `RingProtocol`,
`ChannelProtocol`, `LineBatch`). The lock-free byte ring is modelled twice. `RingBuffer` is the
object itself, an array changed in place under two wrapping 32-bit counters, proved to be a queue
of messages. `RingProtocol` is the same algorithm with a producer and a consumer interleaved at
every load, byte access and publish, each with a possibly stale view of the other's counter; it
refines a FIFO. `ChannelProtocol` adds the sender's twenty attempts, the clock pipe and the polling
reader, and relates its answers to the calls of a run. `LineBatch` is the splitting of one FFI call
into ring entries, and a run of such calls; which lines those are is said of texts written as
lines.

**Text** (`Text`, `TurtleText`, `Dispatch`, `ErrorLines`, `CarrierEvents`, `JsonText`,
`CompletionText`, `LiteralReading`, `Calendar`, `CalendarText`). Printers and the scanners that
must undo them, over all strings and all surroundings: the Turtle escapers and the property
scanner, directive stripping and type routing, error lines, the carrier's event lines, the JSON
printer and parser, the long-literal printer and the completion readers, and the two
epoch-to-calendar loops against an independent closed form, with the order and the layout of the
printed texts. `LiteralReading` holds the two string readers and the printers against the literals
of RFC 8259 and RDF 1.1 Turtle, part by part.

**Themes** (`Rdf`, `ThemeGraph`, `ThemePrecedence`, `ThemeMeaning`, `ThemeResolver`).
`ThemeMeaning` says in triples what the resolved theme is, without queries, and the resolver is
proved to give exactly that. Its queries were rewritten from property paths to a depth table.
Table, paths and recursive inheritance are three separate definitions here; they are proved equal
where they are, with the exact condition where they are not. The replaced path queries are not in
the repository: their form is read off the header of `spin/theme_resolver.spin.ttl`, where nothing
keeps an overriding theme from being the overridden one on a cycle.

**Whole-run machines** (`SemanticRouter`, `Pipeline`, `Tick`, `TickOutput`, `TickExports`,
`FfiLifecycle`, `FfiHistory`, `WsForwarder`). The router's latch, pipeline replacement over a
persistent store, the worker's tick, the FFI handle with its poison, and the WebSocket forwarder.
The first three run on one thread: a class updates its fields in place and is proved against a
function, and the run theorems are about that function. The last two are interleavings: the
theorems are about a machine of atomic steps, and a class executes the calls and loops in place
while recording the run of the machine that they make. `TickOutput` and `FfiHistory` say what such
runs put out from what came in alone: from what the ticks find, and from the steps of the run.

## What turned out to have a condition

- A ring gives back every message at every counter value, wrap-around included, exactly when its
  capacity divides 2^32 (`RingBytes.ReadsBackIff`); both capacities in the repository do. Its
  length test is wrong for messages of almost 2^32 bytes (`RingSlots.AcceptsIffFits`), and then the
  queued bytes survive only where the message repeats them (`RingBytes.QueueSurvivesIff`).
- The rewritten theme queries are said to have byte-identical output. The triples are the same
  exactly when each is won by some theme that is not on an `extends` cycle
  (`ThemeResolver.RewriteOutputIff`); a self-extending theme loses its stroke width to the path
  form (`ThemeResolver.SelfExtendingStrokeWidth`).
- A pipeline replacement deletes by type, so an older triple survives exactly if its subject was
  not typed when it was stored and is typed by the new document (`Pipeline.OnlyNewTriplesIff`).
- Timestamps before the epoch, and only those, print a wrong or impossible date and time
  (`Calendar.PrintedRightIff`). Printed texts sort by time up to the year 9999
  (`CalendarText.TextOrderIff`).
- An event is taken for an account-ready one if its line has `carrier:AccountReady` anywhere, so a
  peer's text message can trigger or use up the automatic export (`CarrierEvents.IsMarkedIff`,
  `TickExports.ExportsFollowReadyIff`, `TickExports.PathTakenOnce`). And the archive exported is
  that of the active account, not of the event's (`TickExports.ExportedAccountIff`).
- The trusted pipeline graph is the last replaced document unless a SPARQL update changed it
  (`Pipeline.TrustedIsLastReplacedIff`).
- The account id learned from an event is the escaped one; it is the account exactly when nothing
  in it needs escaping (`CarrierEvents.AccountRoundTrip`).
- The router's error statement escapes quotes only (`SemanticRouter.ErrorMessageReadsBackIff`).
- Directive stripping is documented for `@prefix` and `@base`; the code takes anything that starts
  with `@`, and cuts a declaration short exactly when the prefix holds a full stop
  (`Dispatch.PrefixDroppedIff`). A comment behind a directive is not seen as one
  (`Dispatch.BundledRoutesAlikeIff`).
- A long literal is readable Turtle exactly when the run of quotes at the end of its text is a
  multiple of three long (`CompletionText.LongRoundTripIff`), and the completion readers return the
  text exactly when it is plain (`CompletionText.LongCompletionIff`), or, printed as a short
  literal, holds no carriage return (`CompletionText.ShortRoundTripIff`).
- The JSON reader returns what a literal means exactly when it has no `\b`, no `\f` and no surrogate
  pair (`LiteralReading.ReadsAsStandardIff`), the Turtle reader exactly when its only escapes are the
  quote, the backslash, `\n` and `\t` (`LiteralReading.TurtleReadsAsStandardIff`).
- The forwarder's second look at the registrations closes the race for one pending registration;
  with two, a message for a connected client can be lost (`WsForwarder.TwoPendingLoses`). How many
  pending registrations a message survives depends on where the forwarder is and on the messages in
  front (`WsForwarder.QueuedGetsThroughIff`).

## Model

| member | source | states |
|---|---|---|
| `RingBuffer.RingBuffer.constructor` | src/channel.rs:121-129 | An empty ring of any capacity; it is a valid one exactly when the capacity is between 1 and 2^32 - 1 and divides 2^32 |
| `RingBuffer.RingBuffer.Push` | src/channel.rs:131-171 | For every message: accepted exactly by the wrapped length test, with the new head and every byte of the new buffer. Below 2^32 - 4 bytes that appends the message to the queue exactly when its frame fits; an accepted longer one leaves the queued bytes as they were exactly when it repeats them; a refusal changes nothing |
| `RingBytes.QueueSurvivesIff` | src/channel.rs:153-167 | A stored frame at least as long as the ring leaves the queued bytes as they were if and only if the last byte it stores to each of their slots repeats them |
| `RingBytes.ReadsBackIff` | src/channel.rs:153-195 | A ring that can hold a frame gives back every message that fits, at every counter value, if and only if its capacity divides 2^32 |
| `RingBuffer.RingBuffer.Pop` | src/channel.rs:173-200 | Returns the oldest message byte for byte and removes it; `None`, with nothing changed, exactly on an empty queue |
| `RingSlots.SlotsContiguousIff` | src/channel.rs:153-167 | Consecutive counter values address consecutive slots across the 2^32 wrap if and only if the capacity divides 2^32 |
| `RingSlots.AcceptsIffFits` | src/channel.rs:133-142 | When the wrapped length test of `push` is the intended one, for every message length and counter state: both directions |
| `RingSlots.OversizedIsAccepted` | src/channel.rs:133-142 | A message of 2^32 - 4 bytes passes the test in every state of every ring, and leaves the head where it is |
| `Framing.StreamInjective` | src/channel.rs:151-167 | The byte layout has at most one reading as messages |
| `Framing.FrameAt` | src/channel.rs:182-195 | What stands at a frame boundary: the little-endian length, then that many message bytes |
| `RingProtocol.RunInv` | src/channel.rs:131-200 | Every state of every interleaving of single loads, byte accesses and publishes satisfies the ring invariant, with stale views and any number of counter wraps |
| `RingProtocol.DeliveredIsPrefix` | src/channel.rs:131-200 | In every reachable state the popped messages are exactly the first ones pushed, byte for byte and in order |
| `RingProtocol.RefinesFifo` | src/channel.rs:131-200 | Each atomic step refines a FIFO queue: publishing the head enqueues, publishing the tail dequeues what is delivered, nothing else changes the queue |
| `RingProtocol.RegionsDisjoint` | src/channel.rs:144-198 | At every interleaving point the slots still to be written and the slots still to be read are disjoint, and head - tail (wrapping) is at most the capacity |
| `RingProtocol.RefusesIffFull` | src/channel.rs:135-142 | A push is refused exactly when its frame does not fit what its view of the tail leaves free |
| `RingProtocol.EmptyIff` | src/channel.rs:175-180 | A pop reports empty exactly when its view of the head shows no new message, although the counters are compared modulo 2^32 |
| `ChannelProtocol.RunInv` | src/channel.rs:71-89 | The invariant of ring, retrying writer, clock pipe and polling reader over every run |
| `ChannelProtocol.NoLostWakeUp` | src/channel.rs:240-257 | A reader about to block on a non-empty ring will be woken: a signal byte is pending or the writer is between push and signal; with 8-byte consumes, dropped signals on a full pipe, pushes during the drain, and a drain whose view of the head is stale except for what was signalled before its consume |
| `ChannelProtocol.SendsExactlyOnce` | src/channel.rs:240-257 | Between calls the ring has taken precisely the messages whose `send` returned true, once each and in order; the reader received a prefix of them |
| `ChannelProtocol.InRingWillReportTrue` | src/channel.rs:240-247 | The step that puts a message in the ring commits its `send` to returning true |
| `ChannelProtocol.CallsAnswered` | src/channel.rs:240-251 | Over any run every call of `send` is answered once, in call order, except the one in progress |
| `ChannelProtocol.FalseAfterTwenty` | src/channel.rs:240-251 | While a message is being tried, its `send` returns false exactly at the twentieth attempt refused since the call |
| `ChannelProtocol.FalseOnlyWhileTrying` | src/channel.rs:240-251 | Every false answer is that of a call being tried, for its own message |
| `Text.LinesOfJoined` | src/ffi.rs:293 | What `str::lines` gives: lines joined by line feeds, with or without carriage returns before them, read back as they are, the unended last one too unless it is empty |
| `Text.EveryTextIsJoined` | src/ffi.rs:293 | Every text is such a join, so that says what `lines` gives on every text |
| `LineBatch.PayloadOfWritten` | src/ffi.rs:292-303 | The payload of any text, however it is written as lines: the part of each line between the white space around it, in order, without the blank ones |
| `LineBatch.PushTurtleLines` | src/ffi.rs:292-303 | One batch: however the text is written as lines, what is sent is the part of each line between the white space around it, in order, without the blank ones, up to the first refusal; 0 exactly when none is refused, else -3 |
| `LineBatch.BatchAccepts` | src/ffi.rs:292-303 | What a batch put in the ring: all of its payload on 0, the part before the refused line on -3 |
| `LineBatch.PayloadIsTrimmed` | src/ffi.rs:293-297 | Entries are non-empty and have no white space at either end |
| `LineBatch.SendBatches` | src/ffi.rs:346 | A run of batches enqueues the concatenation of what each took, of the lines its text is written as; a batch was taken whole exactly when its call returned 0 |
| `LineBatch.WorkerReceivesPrefix` | src/lib.rs:388-400 | End to end: what the worker receives is a prefix of what the run of batches enqueued |
| `TurtleText.DispatchEscapeIsSinglePass` | src/dispatch.rs:983-988 | Four whole-string replacements equal one pass, on every string |
| `TurtleText.CarrierEscape` | src/carrier.rs:596-608 | The event printer's loop computes the escaped form |
| `TurtleText.FfiEscape` | src/ffi.rs:530-542 | The FFI shim's loop computes the same escaped form |
| `TurtleText.UnescapeEscaped` | src/carrier.rs:596-608 | Every escaped string is a legal STRING_LITERAL_QUOTE body (section 6.5 of RDF 1.1 Turtle) and reads back as the original |
| `TurtleText.EscapedInjective` | src/dispatch.rs:983-988 | Different strings have different escaped forms |
| `TurtleText.LegalBodyIsOneLine` | src/ffi.rs:530-542 | A body that reads back holds no raw line feed or carriage return |
| `TurtleText.EscapedIsIdentityIff` | src/dispatch.rs:983-988 | The escaped form is the string itself exactly when nothing in it needs escaping |
| `TurtleText.ExtractProperty` | src/dispatch.rs:943-981 | The scanner, with its loop over escape state, computes the first-occurrence property value |
| `TurtleText.ClosingQuoteIff` | src/dispatch.rs:949-966 | The loop stops at a position exactly when a complete non-empty literal body ends there before a quote |
| `TurtleText.PrintThenScan` | src/dispatch.rs:943-981 | Print then scan: the field where its name first occurs yields exactly the escaped value, whatever follows; an empty value is reported absent |
| `TurtleText.BareTokenRead` | src/dispatch.rs:971-976 | A bare token where the name first occurs is read as it stands, up to a separator |
| `TurtleText.CStrIs` | src/carrier.rs:591-594 | A fixed buffer gives the text before its first NUL, or all of it |
| `Dispatch.StripLeadingDirectives` | src/dispatch.rs:887-909 | The loops over directives and angle brackets compute the stripped line |
| `Dispatch.PrologueStripped` | src/dispatch.rs:887-909 | Any number of bundled directives leaves what the line alone leaves |
| `Dispatch.StrippedIsBare` | src/dispatch.rs:887-909 | What is left starts with neither white space nor a directive, and stripping is idempotent |
| `Dispatch.PrefixDroppedIff` | src/dispatch.rs:883-909 | A prefix declaration is dropped whole exactly when its prefix has no full stop, whatever the IRI |
| `Dispatch.PrefixedTypeRead` | src/dispatch.rs:911-941 | A type with one of the six known prefixes is read as the full IRI it stands for, for any subject and any continuation |
| `Dispatch.UnknownTypeNotRead` | src/dispatch.rs:911-941 | A type with any other prefix is not read |
| `Dispatch.IriTypeRead` | src/dispatch.rs:911-941 | A type written as an IRI is read as that IRI, whatever follows; so both spellings route alike |
| `Dispatch.HeaderTypeRead` | src/carrier.rs:665-677 | The printed event header is read back as the carrier class, whatever the account buffer holds |
| `CarrierEvents.EscapedContainsIff` | src/carrier.rs:596-608 | Escaping neither makes nor breaks an occurrence of a pattern without special characters |
| `CarrierEvents.IsMarkedIff` | src/lib.rs:344 | The text test for account-ready events passes exactly those, and the events that carry the mark in their account or in a field's value |
| `CarrierEvents.TextMessagePasses` | src/carrier.rs:818-830 | A text message with the mark in its body passes the test, while its type is read as a text message |
| `CarrierEvents.ClassRead` | src/carrier.rs:701-1051 | The type scanner reads the class of every printed event, whatever its data |
| `CarrierEvents.ReadyReadIff` | src/carrier.rs:701-1051 | It reads the account-ready class exactly from account-ready events |
| `CarrierEvents.FieldRead` | src/carrier.rs:701-1051 | A field that is the first to have its name is scanned as printed: its escaped text, or its digits |
| `CarrierEvents.TimeRead` | src/carrier.rs:612-663 | Every line ends with the event's time, which from the epoch to the year 9999 reads as the date and time of its second |
| `CarrierEvents.AccountRoundTrip` | src/carrier.rs:665-677 | The account scanned from any printed event that has one is the escaped account, and is the account itself exactly when nothing in it needs escaping |
| `Dispatch.BundledRoutesAlikeIff` | src/dispatch.rs:21-75 | Bundling directives in front of a line keeps its route if and only if the line is not a comment |
| `Dispatch.IriTypedRoute` | src/dispatch.rs:44-75 | A statement typed with an IRI goes where the IRI's vocabulary says: SPIN, carrier, design, the blocklist subscription, or else into the store |
| `Dispatch.PrefixTypedRoute` | src/dispatch.rs:44-75 | A statement typed with a known prefix goes where the IRI it stands for says |
| `Dispatch.BundledRoute` | src/dispatch.rs:21-42 | A bare line goes to the same place behind any number of directives; comments and empty lines are dropped |
| `JsonText.JsonEscape` | src/llm.rs:253-271 | The printing loop computes the JSON string literal |
| `JsonText.ParseJsonString` | src/llm.rs:311-341 | The index loop, with skipped surrogates, short escapes at the end of input and unknown escapes, computes the recursive reading; what that reads is said part by part in `LiteralReading` |
| `LiteralReading.ReadsAsStandardIff` | src/llm.rs:311-341 | For any string literal of section 7 of RFC 8259 and any rest, the reader returns what the literal means if and only if it has no `\b`, no `\f` and no surrogate pair |
| `LiteralReading.CodeRead` | src/llm.rs:328-334 | `\u` and four digits of either case give the character of that code, a surrogate's nothing |
| `LiteralReading.BadCodeRead` | src/llm.rs:328-334 | Four characters that are not all digits give nothing |
| `LiteralReading.SignedCodeRead` | src/llm.rs:328-334 | Except a plus sign and three digits, which count as a code |
| `LiteralReading.CutCodeRead` | src/llm.rs:328-334 | A literal that breaks off within the four characters is not terminated |
| `LiteralReading.ShortRead` | src/llm.rs:321-335 | Each of the six known two-character escapes gives its character, any other a question mark |
| `LiteralReading.Ends` | src/llm.rs:311-320 | No opening quote, an empty literal, and where a literal breaks off |
| `LiteralReading.PrintsStandard` | src/llm.rs:253-271 | The printer writes a literal that means its string by section 7 |
| `JsonText.FieldErrors` | src/llm.rs:282-301 | The three errors of the field search: no such name, no colon behind it, no string behind that |
| `JsonText.JsonRoundTrip` | src/llm.rs:253-341 | Print then parse returns the original for every string of Unicode scalar values and every rest, control characters included |
| `JsonText.FieldRecovered` | src/llm.rs:282-301 | A printed field is recovered from any object in which its quoted name first occurs as that key, with any white space around the colon |
| `JsonText.PrintedHasNoControls` | src/llm.rs:253-271 | No control character is left in a printed body (section 7 of RFC 8259) |
| `CompletionText.ParseTurtleString` | src/llm.rs:367-387 | The index loop computes the recursive reading of a short literal; what that reads is said part by part in `LiteralReading` |
| `LiteralReading.TurtleReadsAsStandardIff` | src/llm.rs:367-387 | For any STRING_LITERAL_QUOTE of RDF 1.1 Turtle and any rest, the reader returns what the literal means by section 6.4 if and only if every escape in it is a quote, a backslash, `\n` or `\t` |
| `LiteralReading.TurtleShortRead` | src/llm.rs:377-383 | Each of these four gives its character, any other a question mark |
| `LiteralReading.EscapesStandard` | src/dispatch.rs:983-988 | The Turtle escapers write a literal body that means its string by section 6.4 |
| `LiteralReading.UnescapeIsStandard` | src/carrier.rs:596-608 | Reading a body back, as the round trips of the escapers do, is reading it by section 6.4 |
| `CompletionText.ShortRoundTripIff` | src/llm.rs:366-387 | The reader undoes the Turtle escapers of the other modules exactly on strings without a carriage return, whatever follows |
| `CompletionText.LongEscapeIsSinglePass` | src/llm.rs:273-278 | The two whole-string replacements equal one pass |
| `CompletionText.LongRoundTripIff` | src/llm.rs:273-278 | A printed long literal reads back (STRING_LITERAL_LONG_QUOTE, section 6.5 of RDF 1.1 Turtle) exactly when the run of quotes at the end of the text is a multiple of three long |
| `CompletionText.LongCompletionIff` | src/llm.rs:352-357 | The long-completion reader returns the printed text exactly when it has no backslash, no three quotes in a row and no quote at the end |
| `CompletionText.ShortCompletionIff` | src/llm.rs:352-360 | A short completion is returned exactly when it has no carriage return; an empty one directly followed by a quote is read as a long literal, and returned exactly when that is empty |
| `CompletionText.CompletionFound` | src/llm.rs:344-350 | The completion is read from behind the first marker |
| `CompletionText.LongEscapeIsIdentityIff` | src/llm.rs:273-278 | The long-literal printer leaves a text as it is exactly when it has no backslash and no three quotes in a row |
| `Calendar.FieldsRoundTrip` | src/carrier.rs:610-663 | For every second from the epoch on, the loops give a date and time that exist, and an independent closed form maps them back to the same second |
| `Calendar.FieldsInverse` | src/carrier.rs:610-663 | Every valid date and time from 1970 on is what the loops compute for its second |
| `Calendar.FieldsStrictlyMonotone` | src/carrier.rs:610-663 | Later seconds have strictly later fields, compared one after the other |
| `CalendarText.RenderInjective` | src/carrier.rs:654-662 | The printed text determines the fields, in any year |
| `CalendarText.RenderInOrder` | src/carrier.rs:654-662 | With four-digit years the order of the texts is the order of the fields |
| `CalendarText.TextOrderIff` | src/logging.rs:96-105 | Up to a second, text order is time order if and only if that second is not later than the last one of 9999 (section 5.6 of RFC 3339) |
| `CalendarText.RenderReads` | src/carrier.rs:654-662 | The fields stand where section 5.6 of RFC 3339 has them, each with its value |
| `CalendarText.TimestampReads` | src/carrier.rs:612-663 | A printed timestamp from the epoch to the year 9999 reads as a date and time that exist and name its second |
| `Calendar.DaysFromCivilIsCount` | src/carrier.rs:618-651 | The closed form equals counting leap-aware years and months one by one |
| `Calendar.FormatTimestamp` | src/carrier.rs:610-663 | The printer renders exactly those fields |
| `Calendar.Iso8601Millis` | src/logging.rs:46-106 | The log timestamp renders the same fields with the same text, then milliseconds and `Z` |
| `Calendar.PrintedRightIff` | src/carrier.rs:610-613 | The printed date and time exist and name the second in which the instant falls, if and only if the timestamp is not negative |
| `ThemeGraph.AncestorChain` | src/theme.rs:166-178 | The walk ends on every graph, cycles and forks included, as a path without repeats that went on as long as it could |
| `ThemeGraph.WalkCoversIff` | src/theme.rs:155-178 | The walk covers exactly `extends*` if and only if no theme on it has a parent off it |
| `ThemeGraph.WalkIsShortest` | src/theme.rs:155-185 | With single inheritance the rows are exactly the `extends*` set and each is numbered by its smallest hop count |
| `ThemeGraph.PlusOnChain` | spin/theme_resolver.spin.ttl:25-35 | `extends+` between two ancestors, read off their positions on the walk |
| `ThemePrecedence.InheritsEquation` | spin/theme_resolver.spin.ttl:38-41 | The recursion: a theme has its own rows, and its parent's for the keys it does not bind |
| `ThemePrecedence.TableIsInheritance` | spin/theme_resolver.spin.ttl:38-41 | Selecting by depth is recursive inheritance, on every single-inheritance graph |
| `ThemePrecedence.TableIsPathIff` | spin/theme_resolver.spin.ttl:25-41 | For one key, depth comparison and property paths select the same if and only if no cycle contributes the row |
| `ThemePrecedence.TableIsPathWhenAcyclic` | spin/theme_resolver.spin.ttl:25-41 | They agree on acyclic graphs of any depth |
| `ThemePrecedence.ConstructIsInheritance` | spin/theme_resolver.spin.ttl:97-108 | A query over the depth table constructs exactly what the theme resolves to by inheritance |
| `ThemePrecedence.ConstructIsPathQuery` | spin/theme_resolver.spin.ttl:25-41 | Without a cycle it constructs exactly what the replaced path query did |
| `ThemePrecedence.RewriteExactIff` | spin/theme_resolver.spin.ttl:25-36 | The two forms of a query select the same rows, key by key, if and only if nothing comes from a cycle |
| `ThemePrecedence.PathConstructsIff` | spin/theme_resolver.spin.ttl:25-36 | The path query constructs a triple exactly when a row with it wins by depth at a position off the cycle |
| `ThemePrecedence.SelfExtendingThemeDiffers` | spin/theme_resolver.spin.ttl:25-36 | The smallest difference: a theme that extends itself |
| `ThemeResolver.QueriesCoherent` | spin/theme_resolver.spin.ttl:88-186 | In each of the three queries a row's own theme binds the row's key |
| `ThemeResolver.ActiveTheme` | src/theme.rs:112-128 | The pick, in triples: a theme that some radio has if any has one, else one typed and marked active, else none |
| `ThemeMeaning.InheritsFromNearest` | spin/theme_resolver.spin.ttl:38-42 | Recursive inheritance is taking the rows of the nearest theme on the chain that binds the key |
| `ThemeResolver.ResolveActiveTheme` | src/theme.rs:77-110 | With single inheritance, exactly these triples for a theme that may be picked: the resolved theme's type, each role's token from the nearest theme that binds the role, each name's token from the nearest theme with one of that name, the stroke width of the nearest theme with one, and each token's fourteen properties; nothing without a pick. On any graph, the three queries' answers for one walk |
| `ThemeResolver.RolesFlatten` | spin/theme_resolver.spin.ttl:88-125 | What the role query constructs, in triples |
| `ThemeResolver.TokensFlatten` | spin/theme_resolver.spin.ttl:134-161 | What the token query constructs, in triples |
| `ThemeResolver.StrokeFlattens` | spin/theme_resolver.spin.ttl:168-186 | What the stroke query constructs, in triples |
| `ThemeResolver.RewriteOutputIff` | spin/theme_resolver.spin.ttl:25-36 | The claim of identical output, for the three queries together on every single-inheritance graph: it holds if and only if every triple of the output is won off the cycle, by some query |
| `ThemeResolver.SelfExtendingStrokeWidth` | spin/theme_resolver.spin.ttl:168-186 | The smallest theme graph on which the output differs: a self-extending theme with a stroke width |
| `ThemeResolver.RewritePreservesOutput` | spin/theme_resolver.spin.ttl:25-36 | On acyclic theme graphs the three depth-table queries return the triples of the three path queries |
| `SemanticRouter.Router.Step` | src/dag.rs:327-428 | One turn of the latch loop in place: drain both rings, fire when both slots are full, clear them |
| `SemanticRouter.Router.Drain` | src/dag.rs:348-366 | The drain keeps the latest non-empty message |
| `SemanticRouter.Router.Fire` | src/dag.rs:368-422 | A second request exactly after a first answer that is not accepted; an accepted answer is emitted behind the prefixes, trimmed; a second answer that is not gives the statement of its own error; nothing is emitted exactly when the last request failed |
| `SemanticRouter.RunPairsLatest` | src/dag.rs:324-428 | Over any run each firing pairs the latest non-empty messages of both inputs since the firing before; the rest is still latched, not both |
| `SemanticRouter.FiringsAdvance` | src/dag.rs:324-428 | Fired positions strictly increase in both inputs, so no message is used twice |
| `SemanticRouter.EmitsAreValid` | src/dag.rs:63-82 | One or two requests and at most one emit a firing, each emit Turtle with at least one triple or the error statement |
| `SemanticRouter.FiringsHaveOutcomes` | src/dag.rs:368-422 | Over any run every firing asks and emits so, on what the backend answers in its round |
| `SemanticRouter.ErrorStatementReads` | src/dag.rs:401-406 | The error statement, where it reads back, is a declaration and a line in which the scanners find the error type and the message |
| `SemanticRouter.ErrorMessageReadsBackIff` | src/dag.rs:395-420 | The error statement reads back as its message exactly when that has no backslash and no line break |
| `Pipeline.RdfStore.ReplacePipeline` | src/lib.rs:96-119 | In triples: the default graph keeps what had no node or source as subject and gains the document, the trusted graph is the document, other graphs stay; a document that does not parse only deletes. That is one replacement |
| `Pipeline.RdfStore.InsertTurtle` | src/store.rs:27-32 | Adds a document's triples to the default graph, or nothing when it does not parse |
| `Pipeline.RdfStore.InsertTurtleToGraph` | src/store.rs:35-42 | The same for a named graph |
| `Pipeline.RdfStore.ClearGraph` | src/store.rs:45-49 | Empties one named graph and nothing else |
| `Pipeline.BothDeletes` | src/lib.rs:97-106 | The two deletes in order remove exactly the triples of subjects typed node or source before |
| `Pipeline.KeepsTrustedIff` | src/dispatch.rs:299-316 | An operation other than a replacement keeps the trusted graph exactly when it is no update, or one that takes none of its triples and adds no other |
| `Pipeline.TrustedIsLastReplacedIff` | src/lib.rs:109-118 | Over any run of inserts, theme writes, replacements and SPARQL updates, the trusted graph has been the last replaced document ever since, if and only if every later update spares it |
| `Pipeline.GatedLoaderForgetsPeers` | src/dag.rs:644-652 | Two histories with the same last replaced document, spared by later updates, load the same rows in a gated build: the document's |
| `Pipeline.OnlyNewTriplesIff` | src/lib.rs:96-107 | After a replace the node and source subjects are the document's, and carry nothing older if and only if no untyped older triple of such a subject was there |
| `Pipeline.UntypedTripleSurvives` | src/lib.rs:96-107 | A store in which an older triple survives |
| `Pipeline.LoadNodes` | src/dag.rs:655-697 | The fold over rows in any order: one entry a node, body and language of its first row, duplicate-free channel lists equal to the sets its rows bind |
| `Pipeline.RowsAreSolutions` | src/dag.rs:613-653 | The query's rows in triples: a typed node, its source, the source's body, and each optional part bound to an object there is or unbound where there is none |
| `Pipeline.ChannelsAreTheGraphs` | src/dag.rs:613-653 | Over the query's rows, in any order and multiplicity, those lists are exactly the channels bound in the graph |
| `Tick.AntennaContext.Tick` | src/lib.rs:279-420 | One tick in place: startup, bootstrap, carrier events, input, script emits, stopping when the carrier fails |
| `Tick.AntennaContext.HandleEvent` | src/lib.rs:339-384 | One carrier event: the text test, learn the account, take the pending export, forward |
| `Tick.MarkerCountsTriples` | src/dispatch.rs:149-162 | The number in the bundle marker reads back as the count of lines before it |
| `TickOutput.FailureReadsBack` | src/dispatch.rs:173-180 | When resolving fails, the line sent instead reads back as an error with the failure's message |
| `TickOutput.RunSays` | src/lib.rs:279-420 | The output of a whole run: the theme bundle, the deferred account load and the bootstrap line, once each and in this order, then tick by tick the events, the answers to input and the answers to script emits |
| `Tick.AccountIdSetOnce` | src/lib.rs:344-356 | Over any run the account id changes at most once, from empty |
| `Tick.StartupComesFirst` | src/lib.rs:280-316 | The theme bundle and its marker come before any other output |
| `Tick.StartupOnce` | src/lib.rs:296-297 | The startup block runs in the first tick and in no later one |
| `Tick.ExportsJustified` | src/lib.rs:358-381 | Every export directly follows an event that passed the text test, for the account active then, with the path pending at that moment |
| `TickExports.ExportsFollowReadyIff` | src/lib.rs:344-381 | Every export follows an account-ready event if and only if no other event that carries the mark ever came in while a path was pending and, by then, an account active |
| `TickExports.PathTakenOnce` | src/lib.rs:358-365 | An event that passes the test takes the pending path for good: it is exported next, or lost exactly when no account is active |
| `TickExports.PathsTakenByReadyIff` | src/lib.rs:344-365 | Every path that is taken is taken by an account-ready event if and only if no other event that carries the mark ever came in while a path was pending |
| `TickExports.UnmarkedEventsKeepExports` | src/lib.rs:344-381 | When no event of the run but account-ready ones carries the mark, all exports follow account-ready events and all paths are taken by them |
| `TickExports.MarkedComeIn` | src/lib.rs:339-344 | Every event logged as passing the test is an event of one of the ticks, and an account-ready one or one that carries the mark |
| `TickExports.TextMessageTakesPath` | src/lib.rs:344-381 | A text message with the mark in its body triggers the pending export, or loses the path |
| `TickExports.ExportedAccountIff` | src/lib.rs:345-374 | The exported account is the event's, as printed, if and only if no account was active before or that one was |
| `TickExports.ActiveAccountExported` | src/lib.rs:366-374 | Such a case: any account-ready event while another account is active exports that one |
| `TickExports.ExportAnswersRequest` | src/carrier.rs:1137-1155 | Every export answers the last request before the event that took it, and no other export answers that request |
| `FfiLifecycle.RunInv` | src/ffi.rs:94-476 | The registry, handle and conservation invariants hold in every state of every interleaving of calls and worker |
| `FfiLifecycle.AtMostOneAlive` | src/ffi.rs:35-46 | At most one handle is alive; between calls it is the one in the slot |
| `FfiLifecycle.CreateRebindsIff` | src/ffi.rs:119-149 | While a handle is alive a create returns it and touches nothing; otherwise it opens a new one or fails |
| `FfiLifecycle.FreedOnceAndNeverUsed` | src/ffi.rs:456-476 | A handle is freed at most once, only after its worker has gone, and no later step touches it |
| `FfiLifecycle.PoisonIsFinal` | src/ffi.rs:231-242 | The error document is offered to OUT before the poison is visible; from then on OUT takes nothing and IN is not read |
| `FfiLifecycle.SendAfterPoison` | src/ffi.rs:332-334 | Every send that starts after the poison returns -4 and changes no handle |
| `FfiLifecycle.DrainsInOrder` | src/ffi.rs:378-388 | The drained documents are a prefix, in order, of those OUT accepted |
| `FfiHistory.AttemptsAreOffers` | src/ffi.rs:213-242 | From the steps of any run: what a handle's worker offered to OUT is, in order, the documents its ticks emitted and, after a panic, a document that reads as an error with that panic's message |
| `FfiHistory.DrainsWhatWasOffered` | src/ffi.rs:362-391 | From the steps of any run: what is drained is, in order, what the worker offered and OUT took; the rest of it is still in OUT |
| `FfiHistory.PoisonedAfterPanic` | src/ffi.rs:223-240 | The last thing a poisoned handle's worker offered is the error document of its panic |
| `FfiHistory.ErrorDocReadsBack` | src/ffi.rs:231-236 | The error document reads back through the type and property scanners as an error with the panic's message |
| `FfiLifecycle.DrainAfterPoison` | src/ffi.rs:362-391 | A drain that returns after the poison has delivered everything there will ever be, the error document last if OUT took it |
| `FfiLifecycle.SendsConserved` | src/ffi.rs:328-347 | The lines on IN are those the finished sends report, call after call; 0 exactly when all lines of a send went in |
| `FfiHistory.FlagsFromSteps` | src/ffi.rs:237-240 | From the steps of any run: a worker is told to stop exactly by the destroy of its own handle, a handle is poisoned exactly by its own worker, and freed exactly by its own destroy (src/ffi.rs:456-476) |
| `FfiHistory.EnteredAsGiven` | src/ffi.rs:292-347 | From the steps of any run: the lines that entered IN are, in order, those of the texts the sends were given, each as far as its lines went in |
| `FfiLifecycle.Process.Create` | src/ffi.rs:94-283 | The call in place, with the worker running beside it |
| `FfiLifecycle.Process.Send` | src/ffi.rs:320-349 | Each return code exactly when it is due: 0 when the ring takes every line, -3 when it refuses one, with the number of lines that went in |
| `FfiLifecycle.Process.Drain` | src/ffi.rs:362-391 | Drains until OUT is empty and counts what it delivered, saturating |
| `FfiLifecycle.Process.Destroy` | src/ffi.rs:456-476 | Clears the slot, stops and joins the worker, frees the handle once |
| `WsForwarder.RunInv` | src/ws.rs:60-93 | The forwarder invariant over every interleaving with registrations, disconnections and outgoing messages |
| `WsForwarder.ReachesTheConnectedClient` | src/ws.rs:70-87 | A message queued with at most one registration pending goes to the client connected then, unless that client goes away |
| `WsForwarder.NeverToAnEarlierClient` | src/ws.rs:80-87 | No message goes to a client earlier than the one registered last when it was queued |
| `WsForwarder.GetsThroughIff` | src/ws.rs:80-87 | A message about to be forwarded gets through exactly when a client is connected and its registration has been taken |
| `WsForwarder.QueuedGetsThroughIff` | src/ws.rs:62-87 | At queueing time: when nobody comes or goes until it is forwarded, a message gets through if and only if a client is connected and no more registrations are pending than the forwarder will look at before |
| `WsForwarder.OutgoingIsQueued` | src/ws.rs:62-87 | The outgoing queue holds the queued texts, in order, and nothing else |
| `WsForwarder.ReceivesSubsequence` | src/ws.rs:83-87 | Each client receives a subsequence of the texts queued, in order |
| `WsForwarder.TwoPendingLoses` | src/ws.rs:62-87 | With two registrations pending a message for a connected client can be lost: a run |
| `WsForwarder.Forwarder.Turn` | src/ws.rs:62-92 | One way round the loop in place is a path of the machine |

## Left out

- RingBuffer.RingBuffer.constructor: a capacity of 2^32 or more, which the source cuts to 32 bits, gives no valid ring here; `Push` and `Pop` ask for a valid one.
- RingBuffer.RingBuffer.Push: overflow panics of a debug build are not modelled.
- RingBytes.ReadsBackIff: speaks of one message through an empty ring whose counters stand at any value; how a run gets there is not part of it.
- RingProtocol.RunInv: messages are shorter than 2^32 - 4 bytes, and loads and publishes are atomic steps in program order; reordering beyond that by a weak memory is not modelled.
- ChannelProtocol.NoLostWakeUp: the clock is the self-pipe; the eventfd of Linux, poll timeouts, the FFI worker's IN side (which never consumes its clock), a drain without a callback, and the platform language model's reader (which can leave its drain early, src/llm.rs:181-186) are outside it.
- LineBatch.PushTurtleLines: the ring's answers are given, one a line; `LineBatch.WorkerReceivesPrefix` connects them to the channel.
- LineBatch.WorkerReceivesPrefix: the encoding of text as UTF-8 bytes, and the lossy decoding, are a parameter.
- TurtleText.UnescapeEscaped: reads the ECHAR escapes, not the UCHAR ones, which no printer here writes.
- CarrierEvents.AccountRoundTrip: buffers that are not UTF-8 (read as empty) are not modelled; an event without an account is left aside, and there the scanner may find the text of a field.
- CarrierEvents.IsMarkedIff: an event is a class with any list of fields; the table of which class has which fields, in which order, is written out for account-ready events and text messages only.
- LiteralReading.ReadsAsStandardIff: a surrogate code that stands alone is no part of a literal here; RFC 8259 leaves its meaning open, and `LiteralReading.CodeRead` says that the reader skips it.
- JsonText.FieldRecovered: only for the first occurrence of the quoted name, as the text search goes.
- CarrierEvents.FieldRead: only for a field that is the first to have its name; text in an earlier field may hold it. Which text stands for which class or field is a table taken from the source; of the classes, the account-ready one and text messages are stated apart from it (`CarrierEvents.ReadyReadIff`, `CarrierEvents.TextMessageRead`).
- ThemeResolver.ResolveActiveTheme: which triples a theme with several parents gets is said for the walk that was made; results are sets; the order of the bundle and repeated triples are not modelled. Queries are evaluated as set comprehensions, `LIMIT 1` picks any solution, and the active theme is an IRI.
- Pipeline.RdfStore.ReplacePipeline: documents are ground triples or do not parse; fresh blank nodes on loading are not modelled, nor failures of the store itself.
- Pipeline.TrustedIsLastReplacedIff: an update is what it deletes and inserts in each graph; its evaluation against the store is not modelled.
- SemanticRouter.RunPairsLatest: the Turtle parser and the backend's answers are parameters, and the text of the prompts is not modelled.
- Tick.AntennaContext.Tick: which effects a dispatched line has is a parameter, as are carrier events and script emits; inserts into the store and broadcasts to scripts are not in the log.
- Tick.ExportsJustified: an export is the attempt; whether the carrier can do it is not modelled.
- FfiLifecycle.RunInv: calls come one after another and only with handles in the caller's hands, as their safety contract says; each line or document passes a ring in one step, and the ring's answer is given.
- FfiHistory.AttemptsAreOffers: the documents a tick emits are the steps' own; `TickOutput.RunSays` says what a tick emits, without a panic in it.
- FfiLifecycle.Process.Drain: what the workers do while calls run is a finite script, so that the loop ends; the machine has no such bound.
- FfiLifecycle.Process.Destroy: a tick ends when the script has run out; a tick that never ends would block the join.
- WsForwarder.RunInv: delivery is to the client's own queue; writing it to the socket, the greeting and the handshake are not modelled.
- The rendering and substitution of the ancestor table as query text (`bind_query`), and fetching the query texts.
- The roughly 35 carrier command arms of the dispatcher, the blocklist and SPARQL handlers, and the before and after notifications of a raw insert: uniform, or foreign calls.
- `pump_queries`, `broadcast`, health checks and script execution in `dag.rs`; libcarrier, QuickJS, HTTP clients, sockets, logging set-up and the command line: foreign code and I/O.
