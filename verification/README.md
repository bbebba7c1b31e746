# Verified models of a mail server and its console

This project models the self-contained algorithms of the mail server and of the TypeScript console that
watches it, and proves what they promise on every input or over every run. Where the code loops and
updates state, the model is a Dafny method or class proved against a specification function, and the
theorems are about that function. Where the code and its documentation differ, the model follows the
code.

Strings are sequences of Unicode scalar values or, on the wire, of bytes. Numbers of the console are
reals or integers. 32-bit and 64-bit wrap-around is written out where the code relies on it. Clocks,
hashes, the lower-casing of text, UTF-8 decoding, variable names (`T::from_str`), commands
(`CommandParser`), the acceptance of a row by the database and the matching of an event by a query are
parameters.

| files | what they model |
|---|---|
| `Receiver`, `ReceiverRoundTrip`, `RequestReceiver` | the IMAP and ManageSieve request receiver: nine byte-level states, literals, quoting, size accounting (sections 4.3 and 9 of RFC 9051, section 4 of RFC 7888) |
| `Template`, `TemplateEval`, `TemplateText` | the template compiler, whose nested blocks become jumps in a flat array, and the evaluator that jumps |
| `Glob`, `MatchTypes` | the wildcard compiler, the matcher that backtracks only to the last star, and the shortcuts some patterns get |
| `Topological` | Kahn's algorithm over a multigraph |
| `RateLimit`, `TokenVerifier`, `VerifierObject` | the console's token verifier: four maps changed by interleaved calls and completions |
| `Utf7`, `JmapId` | modified UTF-7 (section 5.1.3 of RFC 3501); the stop-bit base-32 printer of ids and its two readers |
| `Protobuf`, `Otlp`, `OtlpRoundTrip`, `OtlpAccepts` | the OpenTelemetry metrics decoder over the protobuf wire format |
| `TraceEvents`, `TraceStore`, `TraceDatabase`, `LiveFeed`, `Retention` | events sent at least once, stored once; the delivery traces that follow them; the live feed; the deletion of old rows beside all that |
| `MetricSamples`, `DerivedHistogram`, `MetricLaws`, `MetricHistory`, `MetricTable` | cumulative pushes turned into increments, the histories dashboards read, pruning |
| `DeadProperty` | WebDAV dead properties: a flat tag sequence that behaves as a table (section 4 of RFC 4918) |
| `Basics`, `Arithmetic`, `Sorting` | shared definitions |

Where a promise is not kept by the code, the model has the failing case and the exact condition:

- `GlobPattern::try_compile` and `compile` disagree on patterns that hold a doubled backslash and in which
  every wildcard directly follows a backslash, and on no others (`Glob.InsertAgreesWithCompile`,
  `Glob.DoubledBackslashDisagrees`).
- `MatchType::parse` takes shortcuts: what it fires on is what the pattern matches, for every value, if and only
  if the pattern is `*`, or has nothing special but one star at one end, or has stars inside only, or has
  nothing special at all (`MatchTypes.AgreesIffSound`, `MatchTypes.SecondStarIsLiteral`).
- `utf7_decode` cuts characters above U+FFFF to 16 bits when they stand outside a shift: text without `&`
  decodes to itself if and only if it has none (`Utf7.PlainText`, `Utf7.PlainTextIsCut`).
- The verifier's caches stay within their caps over every run if and only if `maxCacheEntries` is at least
  one or no check is within the budget; otherwise the first conclusion leaves one entry
  (`TokenVerifier.CapsHoldIff`, `TokenVerifier.NoEntriesStillOne`).
- A push that is recorded twice is counted twice unless no series ends with a histogram of increments
  with a positive count and what an entry of a repeated name adds is stored already
  (`MetricSamples.ReplayIsIdle`, `MetricSamples.IncrementCountsTwice`, `MetricSamples.RepeatedNameCountsLater`).
- The samples of a counter add up to what was heard of it if and only if no entry but the last of its name
  in a push adds anything (`MetricLaws.CountsOnceIff`, `MetricLaws.NamedTwiceCountsTwice`).
- The total sum of a histogram follows the law of counters at every push exactly when every reading's
  sum grows with its count; sums that fall, or move while the count stands still, are dropped
  (`MetricLaws.HistogramSumLaw`, `MetricLaws.SumMovesAlone`).
- The samples of a histogram start at zero, rise and end with its totals after every step if and only if its
  first push names it once and, in every later push, the entries that add go up and the last adds if any does
  (`MetricLaws.ClimbsIffTidy`, `MetricLaws.NamedTwiceGoesDown`, `MetricLaws.SmallerLastGoesDown`). Its stored
  totals never fall in any case (`MetricLaws.TotalsNeverFall`).
- The dashboards show all that was heard of a counter if and only if no two of its growths fall into one
  millisecond, since the second is not stored (`MetricTable.DashboardExactIff`,
  `MetricTable.OneMillisecondShowsLess`).
- They show all of a histogram if and only if the last time it is sampled at is newer than all others
  (`MetricTable.DashboardHistogram`), and its totals rise with time if and only if those times, each at its
  first place, rise (`MetricTable.ColumnClimbsIff`); an observation that comes late breaks both
  (`MetricTable.LateObservationIsMissed`). The times are those the pushes and the observations tell.
- `Id::from_str` takes the upper-case letters K to Z for digits, reads the empty text as zero and wraps at 64
  bits; the console's reader does none of this and gives up from 2^53 on. The two agree on exactly the texts
  neither takes and the non-empty numerals in small letters below 2^53 (`JmapId.ReadersAgree`,
  `JmapId.ServerOnly`, `JmapId.TooLargeForTheConsole`, `JmapId.ServerWraps`).

## Model

| member | source | states |
|---|---|---|
| `Receiver.ResetAfter` | crates/imap-proto/src/receiver.rs:102-116 | whatever byte completes a request or raises an error, the receiver then equals a new one with the same limits and start state |
| `Receiver.FeedConcat` | crates/imap-proto/src/receiver.rs:146-414 | feeding a stream in two pieces gives the events of the first, then those of the second, and the same receiver as feeding it whole |
| `Receiver.StepSized` | crates/imap-proto/src/receiver.rs:118-144 | every byte keeps the stored argument bytes within the current request size, that within the limit, and an accepted literal's remainder within what is left |
| `Receiver.ReachableSized` | crates/imap-proto/src/receiver.rs:146-414 | the size invariant holds after any stream of bytes |
| `Receiver.LiteralTaken` | crates/imap-proto/src/receiver.rs:397-409 | an accepted literal never fails: its bytes, whatever they are, become one argument |
| `Receiver.LiteralDiscarded` | crates/imap-proto/src/receiver.rs:385-396 | a discarded literal swallows exactly its bytes, raises one error and leaves a reset receiver |
| `Receiver.OversizedLiteral` | crates/imap-proto/src/receiver.rs:361-396 | an oversized non-synchronizing literal, from its line end on: exactly n bytes swallowed, exactly one error, a reset receiver |
| `ReceiverRoundTrip.OversizedFeeds` | crates/imap-proto/src/receiver.rs:312-396 | from any ready receiver, a written `{n+}` or `~{n+}` literal that does not fit: the n bytes it announces are swallowed, whatever they are, one error is raised and the receiver is a new one |
| `ReceiverRoundTrip.DigitsRead` | crates/imap-proto/src/receiver.rs:312-360 | the decimal digits of a literal's length read back as that length |
| `ReceiverRoundTrip.ArgFeeds` | crates/imap-proto/src/receiver.rs:216-411 | each written argument (atom, mark, quoted string, literal) yields its token, and a prompt if it is a synchronizing literal |
| `ReceiverRoundTrip.TailFeeds` | crates/imap-proto/src/receiver.rs:216-411 | all arguments and the line end yield the prompts, then the request with exactly those tokens |
| `ReceiverRoundTrip.HeadFeeds` | crates/imap-proto/src/receiver.rs:149-215 | tag, optional UID prefix and command name are read back as written |
| `ReceiverRoundTrip.RoundTrip` | crates/imap-proto/src/receiver.rs:146-414 | a written request that fits the limit comes back with its tag, command and tokens, empty strings as Nil, after one prompt per synchronizing literal |
| `ReceiverRoundTrip.StreamRoundTrip` | crates/imap-proto/src/receiver.rs:146-414 | the outcome of requests in a row is the outcomes of each in a row |
| `RequestReceiver.Receiver.ErrorReset` | crates/imap-proto/src/receiver.rs:102-116 | reports under the request's tag and resets every field |
| `RequestReceiver.Receiver.PushArgument` | crates/imap-proto/src/receiver.rs:118-132 | moves the buffer into a token against the size limit, as the byte-level model does |
| `RequestReceiver.Receiver.PushToken` | crates/imap-proto/src/receiver.rs:134-144 | adds a one-byte token against the size limit |
| `RequestReceiver.Receiver.OnByte` | crates/imap-proto/src/receiver.rs:147-411 | one byte in any of the nine states changes the object as the byte-level model says |
| `RequestReceiver.Receiver.Parse` | crates/imap-proto/src/receiver.rs:146-414 | reads up to the first event, consuming exactly the bytes that led to it |
| `RequestReceiver.Receiver.DrainFrame` | crates/imap-proto/src/receiver.rs:146-414 | calling it until a frame is used up yields the events of the frame |
| `RequestReceiver.Receiver.Drain` | crates/imap-proto/src/receiver.rs:146-414 | any split of a stream into frames gives the events of the stream |
| `TemplateSyntax.FindDoubleIsFirst` | crates/utils/src/template.rs:42-47 | a tag is cut at the first doubled brace |
| `TemplateSyntax.CompileTree` | crates/utils/src/template.rs:41-126 | the pieces of a tree compile to its flat layout, after any items already there |
| `TemplateSyntax.ReadTree` | crates/utils/src/template.rs:41-126 | pieces that compile are the pieces of some tree |
| `TemplateSyntax.CompilesIffTree` | crates/utils/src/template.rs:36-126 | a piece list compiles exactly when it spells a well-formed tree of blocks, stray closes included, and the result is that tree's layout |
| `TemplateEval.EscapeRoundTrip` | crates/utils/src/template.rs:199-210 | escaping loses nothing: an HTML reader gets the text back |
| `TemplateEval.EscapeSafe` | crates/utils/src/template.rs:199-210 | escaped text holds no angle bracket and no quote |
| `TemplateEval.HtmlEscapeInto` | crates/utils/src/template.rs:199-210 | appends the escaped text to what is there |
| `TemplateEval.FlattenNested` | crates/utils/src/template.rs:83-105 | inside a laid-out tree every block end lies inside its parent |
| `TemplateEval.LayoutNested` | crates/utils/src/template.rs:83-105 | every `block_end` is in bounds and properly nested |
| `TemplateEval.EvalIsRender` | crates/utils/src/template.rs:128-196 | the jumping evaluation of a layout is the recursive rendering of its tree: presence tests, one rendering per entry in entry scope, an inner each transparent |
| `TemplateEval.CompilerCorrect` | crates/utils/src/template.rs:36-196 | compiling and evaluating the pieces of any tree renders it |
| `TemplateEval.ParseItems` | crates/utils/src/template.rs:36-126 | the loop compiles the pieces of the text and counts the static bytes |
| `TemplateEval.Parse` | crates/utils/src/template.rs:36-126 | succeeds exactly on texts that spell a tree; what it returns is nested and is the layout of every tree the text spells |
| `TemplateEval.EvalEntry` | crates/utils/src/template.rs:165-186 | one entry of an each block, with ifs skipped by jumping |
| `TemplateEval.EvalBlock` | crates/utils/src/template.rs:164-187 | the body once for each entry |
| `TemplateEval.Eval` | crates/utils/src/template.rs:128-196 | outputs exactly the rendering of the tree the template was laid out from |
| `TemplateText.LexWrite` | crates/utils/src/template.rs:41-119 | pieces written as text are read back as they were |
| `TemplateText.WrittenTreeRenders` | crates/utils/src/template.rs:36-196 | a tree written as text, compiled and evaluated renders the tree |
| `Glob.DenotesIffAccepts` | crates/utils/src/glob.rs:108-150 | splitting the value along the pattern (star any run, question mark one character) is the same as matching element by element |
| `Glob.Exchange` | crates/utils/src/glob.rs:108-150 | if an earlier star can still succeed by taking more, so can the later one from where it stands |
| `Glob.Walk` | crates/utils/src/glob.rs:108-150 | the loop that only goes back to the most recent star terminates and answers yes exactly when the value splits along the pattern |
| `Glob.Matches` | crates/utils/src/glob.rs:108-150 | the same, on the lowered value when the pattern is lowered |
| `Glob.Compile` | crates/utils/src/glob.rs:34-75 | backslashes escape, runs of stars merge, case is lowered when asked |
| `Glob.EscapeCompiles` | crates/utils/src/glob.rs:34-75 | every pattern has a text that compiles to it |
| `Glob.TryCompile` | crates/utils/src/glob.rs:77-106 | a glob exactly when some wildcard does not follow a backslash, else the text without its backslashes |
| `Glob.InsertAgreesWithCompile` | crates/utils/src/glob.rs:77-106 | an inserted pattern matches what `compile` would match, for every key, exactly unless it holds a doubled backslash and every wildcard directly follows a backslash |
| `Glob.DoubledBackslashDisagrees` | crates/utils/src/glob.rs:77-106 | a pattern where the two differ, both ways |
| `Glob.GlobSet.InsertPattern` | crates/utils/src/glob.rs:170-179 | the set then holds what it held and what the pattern matches |
| `Glob.GlobSet.InsertEntry` | crates/utils/src/glob.rs:181-183 | the set then holds what it held and that one key |
| `Glob.GlobSet.Contains` | crates/utils/src/glob.rs:185-188 | yes exactly for the keys some insertion covers |
| `MatchTypes.AgreesIffSound` | crates/utils/src/glob.rs:228-252 | the shortcut a pattern gets fires on exactly what the compiled pattern matches, for every value, if and only if a condition on its characters holds |
| `MatchTypes.SecondStarIsLiteral` | crates/utils/src/glob.rs:228-252 | `a*b*` matches `ab` when compiled and not as the prefix it is taken for |
| `Topological.Exhausted` | crates/utils/src/topological.rs:59-82 | when no node is free, those emitted are exactly those no cycle leads to, and none is left exactly when the graph is acyclic |
| `Topological.TopologicalSort.Insert` | crates/utils/src/topological.rs:24-28 | keeps adjacency and in-degrees right for edges inserted so far, duplicates and self-loops included |
| `Topological.TopologicalSort.IntoIterator` | crates/utils/src/topological.rs:30-50 | starts with the nodes that have no predecessor |
| `Topological.TopologicalSortIterator.Next` | crates/utils/src/topological.rs:59-76 | emits a node all of whose predecessors were emitted, keeping the iterator consistent |
| `Topological.TopologicalSortIterator.Release` | crates/utils/src/topological.rs:60-72 | takes off a node's edges and frees the nodes left without predecessors |
| `Topological.TopologicalSortIterator.IsValid` | crates/utils/src/topological.rs:79-81 | true exactly when every node was returned or is ready; then the graph has no cycle, and once nothing is ready it is true if and only if the graph has none |
| `Topological.EmittedOnce` | crates/utils/src/topological.rs:59-76 | an emitted node is one of the graph's and was not emitted before |
| `Topological.Finished` | crates/utils/src/topological.rs:59-82 | an exhausted iterator has emitted each node not behind a cycle once, in order, and is valid exactly on acyclic graphs |
| `Topological.Exhaust` | crates/utils/src/topological.rs:59-76 | iterating ends, with no free node left |
| `Topological.Sort` | crates/utils/src/topological.rs:24-82 | over any edge list: no node twice, none before a predecessor, exactly those not behind a cycle, valid iff acyclic |
| `RateLimit.MinuteBound` | console/src/lib/auth.ts:164-186 | ticks in windows of a minute that follow each other, each with at most `cap`: no closed minute holds more than twice `cap` |
| `RateLimit.CountMetered` | console/src/lib/auth.ts:169-186 | counting a check keeps every window in step with the admissions it stands for |
| `RateLimit.YoungWindowsBound` | console/src/lib/auth.ts:183-185 | a table of young windows only has at most 2 × perMinute + 1 entries |
| `RateLimit.CountSmall` | console/src/lib/auth.ts:169-186 | after any call the window table has at most max(10000, 2 × perMinute + 1) entries |
| `RateLimit.MeteredBounds` | console/src/lib/auth.ts:164-186 | at most 2 × perMinute admissions in any minute, and 2 × the client budget per client |
| `RateLimit.RunBounded` | console/src/lib/auth.ts:164-186 | both bounds and the table bound after any run of asks with a clock that does not go back |
| `TokenVerifier.StepKeeps` | console/src/lib/auth.ts:247-310 | every call, conclusion and completion keeps the invariant of the four maps |
| `TokenVerifier.RunKeeps` | console/src/lib/auth.ts:247-310 | the invariant holds in every state of every interleaving |
| `TokenVerifier.OneCheckPerToken` | console/src/lib/auth.ts:300-306 | at most one check of a token is in flight |
| `TokenVerifier.ServedYesIsCurrent` | console/src/lib/auth.ts:292-299 | a remembered yes is the latest conclusion on that token, and is served neither past its expiry nor `cacheMs` after that check began |
| `TokenVerifier.FreeCheckPassedBefore` | console/src/lib/auth.ts:247-249 | a check is free of the budget only if the token's latest conclusive check passed and it has not expired |
| `TokenVerifier.CachesCapped` | console/src/lib/auth.ts:188-204 | `cache` and `passed` stay within their caps, from one entry on |
| `TokenVerifier.ChecksBounded` | console/src/lib/auth.ts:164-186 | the rate and table bounds hold in every state of every run |
| `TokenVerifier.NoBudgetRemembersNothing` | console/src/lib/auth.ts:164-204 | without a budget no check concludes and both tables stay empty over every run |
| `TokenVerifier.NoEntriesStillOne` | console/src/lib/auth.ts:188-204 | a cap of no entries is exceeded by the first conclusion, in `cache` by a refusal and in `passed` by a pass |
| `TokenVerifier.CapsHoldIff` | console/src/lib/auth.ts:188-204 | each of the two caps holds in every state of every run if and only if it allows one entry or the budget is nothing |
| `VerifierObject.SweepWindows` | console/src/lib/auth.ts:183-185 | drops the windows that are a minute old once the table is large |
| `VerifierObject.DeleteExpired` | console/src/lib/auth.ts:190 | deletes exactly the expired sessions, keeping the order of the others |
| `VerifierObject.Verifier.CountIntrospection` | console/src/lib/auth.ts:169-186 | admits and counts, or refuses and changes nothing |
| `VerifierObject.Verifier.RememberPassed` | console/src/lib/auth.ts:188-195 | makes room by expiry, then by age, before it remembers |
| `VerifierObject.Verifier.Remember` | console/src/lib/auth.ts:197-204 | makes room by age before it remembers |
| `VerifierObject.Verifier.Verify` | console/src/lib/auth.ts:292-310 | serves, joins or begins a check, as one step of the state machine, and keeps the invariant |
| `VerifierObject.Verifier.BeginCheck` | console/src/lib/auth.ts:247-249 | spends the budget unless the session passed before, and enters the check |
| `VerifierObject.Verifier.Conclude` | console/src/lib/auth.ts:255-290 | the end of a check, conclusive or not, as one step that keeps the invariant |
| `VerifierObject.Verifier.Settle` | console/src/lib/auth.ts:303 | the check leaves the table of checks and the invariant stays |
| `Utf7.Utf16RoundTrip` | crates/imap-proto/src/utf7.rs:72-118 | every string survives UTF-16, surrogate pairs included |
| `Utf7.Utf16Unique` | crates/imap-proto/src/utf7.rs:21-70 | units that decode to a string are that string's units |
| `Utf7.Accumulates` | crates/imap-proto/src/utf7.rs:99-106 | the unmasked 32-bit accumulator still yields the right six-bit digits after any run |
| `Utf7.CanonicalPrintable` | crates/imap-proto/src/utf7.rs:72-118 | the encoding is printable ASCII |
| `Utf7.CanonicalSplits` | crates/imap-proto/src/utf7.rs:72-118 | the encoding falls apart next to every character that stands for itself |
| `Utf7.CanonicalRun` | crates/imap-proto/src/utf7.rs:72-118 | a run of the other characters is one shift: none closes to reopen at once |
| `Utf7.Encode` | crates/imap-proto/src/utf7.rs:72-118 | the loop writes the canonical encoding of the string's units |
| `Utf7.DecodeLoop` | crates/imap-proto/src/utf7.rs:21-70 | the loop computes the specified decoding, errors included |
| `Utf7.UnitsRoundTrip` | crates/imap-proto/src/utf7.rs:21-118 | any sequence of units decodes from its encoding |
| `Utf7.RoundTrip` | crates/imap-proto/src/utf7.rs:21-118 | every string decodes from its encoding |
| `Utf7.PlainText` | crates/imap-proto/src/utf7.rs:21-70 | text without an ampersand decodes to itself if and only if it has no character above U+FFFF |
| `Utf7.PlainTextIsCut` | crates/imap-proto/src/utf7.rs:21-70 | one such character and what becomes of it |
| `JmapId.NumeralValue` | crates/types/src/id.rs:71-120 | the canonical numeral of a number denotes it |
| `JmapId.NumeralCanonical` | crates/types/src/id.rs:71-120 | at most 13 digits, no leading zero digit |
| `JmapId.NumeralUnique` | crates/types/src/id.rs:71-120 | a numeral without a leading zero is the canonical one |
| `JmapId.PrintDigits` | crates/types/src/id.rs:110-117 | the stop-bit loop terminates and prints exactly the digits above the stop bit |
| `JmapId.AsString` | crates/types/src/id.rs:71-120 | every 64-bit id prints as its canonical numeral |
| `JmapId.FromStr` | crates/types/src/id.rs:38-52 | the value of the digits modulo 2^64, zero for no digits, or an error at the first other character |
| `JmapId.DecodeServerId` | console/src/lib/directory.ts:17-30 | the value exactly when the text is a non-empty numeral below 2^53, else null |
| `JmapId.ReadersAgree` | crates/types/src/id.rs:38-52 | server and console read a text alike if and only if the server refuses it or it is a non-empty small-letter numeral below 2^53 |
| `JmapId.ServerOnly` | crates/types/src/id.rs:38-52 | K and the empty text are read by the server only |
| `JmapId.TooLargeForTheConsole` | console/src/lib/directory.ts:17-30 | every id from 2^53 on is read by the server only |
| `JmapId.ServerWraps` | crates/types/src/id.rs:38-52 | every numeral past 64 bits is read by the server as another number, and by the console not at all |
| `JmapId.IdsRoundTrip` | crates/types/src/id.rs:38-120 | the numeral of an id is readable by both and denotes it |
| `JmapId.PrintAndRead` | crates/types/src/id.rs:38-120 | printing any id and reading it back gives it on the server, and on the console exactly below 2^53, null from there on |
| `DeadProperties.BalancedIffForest` | crates/types/src/dead_property.rs:11-30 | the balanced tag sequences are exactly the flattened forests |
| `DeadProperties.FindIsLookup` | crates/types/src/dead_property.rs:58-97 | the scan with a depth finds the content of the first element of that name at the top, never a nested one |
| `DeadProperties.RemoveIsWithout` | crates/types/src/dead_property.rs:101-124 | exactly the elements of that name at the top go, with all they hold |
| `DeadProperties.RemoveLaw` | crates/types/src/dead_property.rs:101-124 | removal keeps balance, hides that name and changes no other lookup |
| `DeadProperties.AddLaw` | crates/types/src/dead_property.rs:126-130 | a balanced value added is found under its name unless an older element comes first; other lookups do not change |
| `DeadProperties.RunIsTable` | crates/dav/src/file/proppatch.rs:128-150 | after any run of requests that set and remove several properties, each taken back as a whole when one of them is refused, every lookup answers as a plain table does |
| `DeadProperties.RunWithinLimit` | crates/dav/src/file/proppatch.rs:237-260 | no run of requests stores more than the configured limit |
| `DeadProperties.DeadProperty.FindTag` | crates/types/src/dead_property.rs:58-97 | the loop computes the specified lookup and changes nothing |
| `DeadProperties.DeadProperty.RemoveElement` | crates/types/src/dead_property.rs:101-124 | retains what the specification keeps |
| `DeadProperties.DeadProperty.AddElement` | crates/types/src/dead_property.rs:126-130 | to a balanced sequence a balanced value is added that its name then finds, unless an older element comes first, and no other lookup changes |
| `DeadProperties.DeadProperty.StoredSize` | crates/types/src/dead_property.rs:132-148 | the sum of the tag sizes |
| `DeadProperties.DeadProperty.RemoveElements` | crates/dav/src/file/proppatch.rs:276-292 | every name of the list is removed |
| `DeadProperties.DeadProperty.SetElements` | crates/dav/src/file/proppatch.rs:237-260 | the properties are set in order, an update clearing first; success exactly when every one fits |
| `DeadProperties.DeadProperty.Patch` | crates/dav/src/file/proppatch.rs:128-150 | sets and removals in either order, kept only if all of them are accepted |
| `TraceEvents.RootIsFirst` | console/src/lib/traceEvents.ts:75 | the root is the first event that starts a trace |
| `TraceEvents.DistinctMeans` | console/src/lib/traceEvents.ts:78-80 | each value once, none lost |
| `TraceEvents.LargestMeans` | console/src/lib/traceEvents.ts:91 | the largest size, at least zero, or none when no event has one |
| `TraceEvents.SummaryExists` | console/src/lib/traceEvents.ts:73-76 | a span has a trace exactly when one of its events starts one |
| `TraceEvents.ArrivalOrderIsFree` | console/src/lib/traceEvents.ts:73-108 | with distinct times, the trace is the same whatever order the events arrived in |
| `TraceEvents.SummarizeSpan` | console/src/lib/traceEvents.ts:73-108 | one pass in time order gathers each field as its own definition says |
| `TraceStore.UniqueHashes` | console/src/lib/traceStore.ts:77 | a batch keeps each hash once, where it first occurs |
| `TraceStore.UniqueRows` | console/src/lib/traceStore.ts:77 | of rows with one hash the last of the batch is kept |
| `TraceStore.RegroupKeepsView` | console/src/lib/traceStore.ts:41-65 | regrouping only the spans a batch touched keeps `delivery_traces` equal to what all stored events say, for every span |
| `TraceStore.StepKeeps` | console/src/lib/traceStore.ts:72-115 | every committed batch and every rollback keeps ids rising, hashes distinct, rows equal to all that was returned as fresh, and the view exact |
| `TraceStore.StoredIsFresh` | console/src/lib/traceStore.ts:72-115 | after any run every stored row was returned as fresh exactly once, and the traces are those of all stored events |
| `TraceStore.OfferedIsStored` | console/src/lib/traceStore.ts:72-115 | a hash is stored exactly when some batch of the run brought an acceptable row of it |
| `TraceDatabase.Dedupe` | console/src/lib/traceStore.ts:77 | one row for each hash |
| `TraceDatabase.Database.InsertRow` | console/src/lib/traceStore.ts:32-37 | a known hash adds nothing, and the id is used up either way |
| `TraceDatabase.Database.InsertChunk` | console/src/lib/traceStore.ts:24-39 | all rows of the statement that are new, or nothing and an error when one is rejected |
| `TraceDatabase.Database.InsertBatch` | console/src/lib/traceStore.ts:84-88 | the chunks add exactly the new rows, or some row was rejected |
| `TraceDatabase.Database.InsertEach` | console/src/lib/traceStore.ts:93-103 | row by row, the acceptable new rows are added and exactly the others reported |
| `TraceDatabase.Database.SaveTraces` | console/src/lib/traceStore.ts:41-65 | each named span gets the summary of all its stored events, if it has one |
| `TraceDatabase.Database.InsertTraceEvents` | console/src/lib/traceStore.ts:72-115 | both paths end alike: the same rows added, returned and reported, and the traces regrouped |
| `TraceDatabase.Database.PruneTraces` | console/src/lib/traceStore.ts:330-334 | deletes exactly the events and the traces from before its two times and returns how many |
| `LiveFeed.PollIsExact` | console/src/lib/traceStore.ts:316-327 | an answer holds exactly the matching events between the cursor asked with and the cursor returned |
| `LiveFeed.PollAdvances` | console/src/lib/traceStore.ts:316-327 | a poll with rows left to scan moves the cursor on |
| `LiveFeed.ShortAnswerIsCaughtUp` | console/src/lib/traceStore.ts:324-327 | an answer short of the limit after one full scan has reached the newest event |
| `LiveFeed.LaterEventsStayAhead` | console/src/lib/traceStore.ts:7-12 | events that commit later do not slip in behind a cursor |
| `LiveFeed.FeedIsExact` | console/src/lib/traceStore.ts:274-328 | whatever commits between polls, and whatever limit each poll has, all answers joined are the matching events above the first cursor and up to the last, in order, none missing or repeated |
| `LiveFeed.FeedContinuesFirstPoll` | console/src/lib/traceStore.ts:303-327 | after a first poll the feed goes on with exactly the events that commit after it |
| `LiveFeed.FirstAnswerIsNewest` | console/src/lib/traceStore.ts:303-314 | the first answer is the newest end of all matching events since the time asked for |
| `LiveFeed.StoreGivesSnapshots` | console/src/lib/traceStore.ts:72-115 | the tables of any run of the store are snapshots such a feed may see, with positive ids |
| `Retention.TableIsUntaken` | console/src/lib/traceStore.ts:72-115 | over any run of batches, rollbacks and deletions: the table is the history less what a later deletion took, ids rise over the whole history, no hash stands twice and one is stored again only after it was taken |
| `Retention.HistoryIsFresh` | console/src/lib/traceStore.ts:72-115 | deletions or not, every event ever stored was returned as fresh, once, in order |
| `Retention.WholeSpansAreExact` | console/src/lib/traceStore.ts:330-334 | the trace of a span that lost no event is what all its events say, or was deleted for its age |
| `Retention.FeedDelivers` | console/src/lib/traceStore.ts:274-334 | whatever commits and is deleted between polls, the joined answers are exactly the matching events the feed has passed that no deletion took before it did |
| `Retention.StoreGivesThinned` | console/src/lib/traceStore.ts:330-334 | the tables of any such run are what is left of a history that only grows, as that feed needs |
| `MetricSamples.LatestTimeMeans` | console/src/lib/metricSamples.ts:49-57 | the newest time of the points |
| `MetricSamples.EarliestStartMeans` | console/src/lib/metricSamples.ts:49-57 | the oldest start of the points |
| `MetricSamples.Latest` | console/src/lib/metricSamples.ts:49-57 | one pass finds both |
| `MetricSamples.SamplesFromPush` | console/src/lib/metricSamples.ts:70-133 | each metric of a push gives its samples and state against the series before the push |
| `MetricSamples.SavedOf` | console/src/lib/metricStore.ts:35-45 | a series takes the state of the last metric of its name that leaves one, and stays as it is without one |
| `MetricSamples.ReplayIsIdle` | console/src/lib/metricStore.ts:51-93 | for any push: recording it again changes nothing if and only if no series ends with a histogram of increments that adds, and whatever an entry adds to the series the push leaves has its place taken |
| `MetricSamples.ReplayOfDistinct` | console/src/lib/metricStore.ts:51-93 | when names are not repeated that is: no histogram of increments has a positive count |
| `MetricSamples.IncrementCountsTwice` | console/src/lib/metricStore.ts:51-93 | a histogram of one observation sent as an increment and recorded twice differs |
| `MetricSamples.RepeatedNameCountsLater` | console/src/lib/metricStore.ts:51-93 | so does a counter named twice in a push that was first seen stale |
| `DerivedHistogram.AddToHistogram` | console/src/lib/metricSamples.ts:136-159 | the loop gives the specified samples and totals |
| `DerivedHistogram.ObservedTells` | console/src/lib/metricSamples.ts:149-154 | every sample carries the number and the sum of all observations up to its time |
| `DerivedHistogram.ObservedRises` | console/src/lib/metricSamples.ts:149-154 | at most one sample for each time, in order |
| `DerivedHistogram.TimeIsSampled` | console/src/lib/metricSamples.ts:149-154 | every time of an observation has its sample |
| `MetricLaws.StepOnSeries` | console/src/lib/metricSamples.ts:75-131 | a step touches a series only through the metrics it holds for it, and leaves it the state of the last |
| `MetricLaws.CounterSamples` | console/src/lib/metricSamples.ts:63-96 | over any run the samples of a counter are exactly what each reported value adds to the readings before its push, at its time |
| `MetricLaws.CounterLaw` | console/src/lib/metricSamples.ts:63-96 | they add up to the last value of every server run, less the first value if the series was first seen stale, and what repeated names add |
| `MetricLaws.CountsOnceIff` | console/src/lib/metricSamples.ts:63-96 | which is what was heard if and only if no entry but the last of its name in a push adds anything |
| `MetricLaws.NamedTwiceCountsTwice` | console/src/lib/metricSamples.ts:75-96 | a push that names a counter twice, with 5 and with 7, counts 12 |
| `MetricLaws.HistogramLaw` | console/src/lib/metricSamples.ts:99-130 | the total count of a histogram obeys the same law |
| `MetricLaws.HistogramSumLaw` | console/src/lib/metricSamples.ts:99-130 | the total sum obeys the law after every step if and only if every reading's sum follows its count |
| `MetricLaws.SumMovesAlone` | console/src/lib/metricSamples.ts:99-130 | two pushes of one count with another sum break it |
| `MetricLaws.MarkIsBorne` | console/src/app/api/ingest/traces/route.ts:26-38 | the stored state of a histogram is what it was told last: nothing, a reading, or the console's own observations, which stop where the server exports the series |
| `MetricLaws.TotalsNeverFall` | console/src/lib/metricSamples.ts:99-130 | over any run of pushes and observations, names repeated or not, the stored count and sum never fall |
| `MetricLaws.ClimbsIffTidy` | console/src/lib/metricSamples.ts:99-158 | the samples start from a zero baseline, rise and end with the totals after every step, if and only if every push adds to the histogram in rising order and its last entry adds if any does, the first having one entry only |
| `MetricLaws.HistogramSamplesClimb` | console/src/lib/metricSamples.ts:111-121 | so they do after any run of such pushes and of observations |
| `MetricLaws.NamedTwiceGoesDown` | console/src/lib/metricSamples.ts:111-121 | any first push that names a histogram twice breaks that |
| `MetricLaws.SmallerLastGoesDown` | console/src/lib/metricSamples.ts:111-121 | so does any later push of two growing totals of which the second is not the larger |
| `MetricHistory.MergeConserves` | console/src/lib/metricStore.ts:119-125 | merging into steps of any size keeps the sum of a counter |
| `MetricHistory.MergeMeans` | console/src/lib/metricStore.ts:119-125 | one row for each step with samples, in order, that adds up and counts exactly those |
| `MetricHistory.IncreasesTelescope` | console/src/lib/metricStore.ts:126-134 | the differences within a step are the totals at its end less those at the end before |
| `MetricHistory.EndsKeepIncreases` | console/src/lib/metricStore.ts:126-134 | keeping the first and last histogram sample of each step changes the increase of no step |
| `MetricHistory.PruneKeepsHistory` | console/src/lib/metricStore.ts:107-148 | pruning changes no answer for a window from the cutoff on, baseline included |
| `MetricHistory.HistoryConserves` | console/src/lib/metricStore.ts:107-148 | counters are added up without loss and every step of a histogram keeps its increase, measured from the baseline |
| `MetricTable.FirstIsStored` | console/src/lib/metricStore.ts:18-33 | of the samples of a metric, the table holds exactly the first of each time |
| `MetricTable.ColumnIsKept` | console/src/lib/metricStore.ts:18-33 | a metric read in the order of its times is those samples sorted |
| `MetricTable.ColumnUnique` | console/src/lib/metricStore.ts:18-33 | the table determines the order of a metric's samples |
| `MetricTable.DashboardTotal` | console/src/lib/metricStore.ts:107-148 | from push to dashboard, for every run: a window over everything adds a counter up to its growths, the first of each millisecond; that is what was heard and repeated exactly when no two fall together |
| `MetricTable.DashboardExactIff` | console/src/lib/metricStore.ts:107-148 | without repeated names the dashboards show what was heard if and only if the times at which the pushes add to the counter are all different |
| `MetricTable.OneMillisecondShowsLess` | console/src/lib/metricStore.ts:18-33 | two pushes in one millisecond, of 5 and of 7: 7 is heard, and the dashboards add up to 5 |
| `MetricTable.ProducedTimes` | console/src/lib/metricSamples.ts:99-158 | the times of a histogram's samples are those its pushes and observations tell: a baseline before a new series, each push that adds, each observed time once |
| `MetricTable.ColumnClimbsIff` | console/src/lib/metricStore.ts:126-134 | a histogram read in the order of its times climbs if and only if those times, each at its first place, rise |
| `MetricTable.DashboardHistogram` | console/src/lib/metricStore.ts:107-148 | the increases shown of a histogram, pushed or observed, never exceed its total count and sum; they add up to the count if and only if the last of those times is newer than all others, and then to the sum |
| `MetricTable.DashboardHeardIff` | console/src/lib/metricStore.ts:107-148 | for totals pushed by the server the same of what was heard |
| `MetricTable.LateObservationIsMissed` | console/src/lib/metricStore.ts:107-148 | of two observations, the second from before the first, the dashboards show one, and the column goes down |
| `MetricTable.PruneColumn` | console/src/lib/metricStore.ts:173-184 | the delete statement leaves each metric what the specification keeps |
| `MetricTable.PruneKeepsAnswers` | console/src/lib/metricStore.ts:173-184 | deleting from the table changes no answer for a window from the cutoff on |
| `MetricTable.MetricStore.InsertSamples` | console/src/lib/metricStore.ts:18-33 | chunk by chunk, a sample is stored unless its metric has one at that time |
| `MetricTable.MetricStore.SaveStates` | console/src/lib/metricStore.ts:35-45 | each state replaces the one of its metric |
| `MetricTable.MetricStore.RecordPush` | console/src/lib/metricStore.ts:51-93 | samples are computed against the stored series, then both are saved |
| `MetricTable.MetricStore.Prune` | console/src/lib/metricStore.ts:173-184 | row by row, each judged against the table as it was: old samples go but each histogram's newest, the number deleted is returned, and no history of a window from the cutoff on changes |
| `Protobuf.VarintReads` | console/src/lib/otlp.ts:49-58 | every 64-bit varint reads back, whatever follows it |
| `Protobuf.FieldReads` | console/src/lib/otlp.ts:75-105 | every well-formed field reads back with its number and payload |
| `Protobuf.FieldConsumes` | console/src/lib/otlp.ts:109-114 | a field takes at least one byte, so reading a message ends |
| `Protobuf.FoldReads` | console/src/lib/otlp.ts:109-114 | reading a written message visits its fields in order |
| `Protobuf.FoldIsRead` | console/src/lib/otlp.ts:107-121 | reading any bytes visits their fields in order, padded varints included, and fails when they are not fields |
| `Protobuf.UnknownFieldsPass` | console/src/lib/otlp.ts:109-114 | fields a decoder does not read change nothing, wherever they stand |
| `Protobuf.Reader.ReadVarint` | console/src/lib/otlp.ts:49-58 | at most ten bytes, in bounds, the specified value or an error |
| `Protobuf.Reader.TakeBytes` | console/src/lib/otlp.ts:60-65 | exactly the bytes asked for, or an error and no movement |
| `Protobuf.Reader.ReadBytes` | console/src/lib/otlp.ts:75-79 | a length and that many bytes |
| `Protobuf.Reader.ReadTag` | console/src/lib/otlp.ts:82-86 | field number and wire type of the tag as a 32-bit number |
| `Protobuf.Reader.ReadWire` | console/src/lib/otlp.ts:88-105 | the payload of the four wire types, an error for the others |
| `Protobuf.Reader.NextField` | console/src/lib/otlp.ts:109-114 | the next field, moving on by at least one byte |
| `Otlp.ReadPoint` | console/src/lib/otlp.ts:126-178 | a point's fields, each with its wire type |
| `Otlp.ReadSeries` | console/src/lib/otlp.ts:181-204 | points in order, temporality, monotonicity |
| `Otlp.ReadMetric` | console/src/lib/otlp.ts:217-249 | a named gauge, sum or histogram, or none |
| `Otlp.ReadScope` | console/src/lib/otlp.ts:251-268 | the metrics of a scope added in order |
| `Otlp.ReadResource` | console/src/lib/otlp.ts:251-268 | the metrics of a resource's scopes added in order |
| `Otlp.DecodeMetricsRequest` | console/src/lib/otlp.ts:261-272 | terminates on every input with the specified decoding or an error |
| `OtlpRoundTrip.PointDecodes` | console/src/lib/otlp.ts:126-178 | fields in any order, repeated or missing, decode to the point whose parts are told by the last field for each |
| `OtlpRoundTrip.DataDecodes` | console/src/lib/otlp.ts:181-204 | so do the fields of a series: all points in order, the last temporality, the last monotonicity |
| `OtlpRoundTrip.DraftDecodes` | console/src/lib/otlp.ts:217-249 | so do those of a metric: the last name and the last data, or no metric when either is missing |
| `OtlpRoundTrip.DecodeInverts` | console/src/lib/otlp.ts:261-272 | a request of any resources, scopes and metrics decodes to its complete metrics in order, with fields of each message in any order and unread fields and unstored metrics anywhere |
| `OtlpAccepts.PointIff` | console/src/lib/otlp.ts:126-178 | any bytes decode to a point if and only if their fields tell it |
| `OtlpAccepts.DecodesIff` | console/src/lib/otlp.ts:261-272 | any body decodes to a list of metrics if and only if it is a request of resources and scopes whose complete metrics they are; every other body is refused |
| `OtlpRoundTrip.RoundTrip` | console/src/lib/otlp.ts:261-272 | any list of named gauges, sums and histograms with integers up to 2^53, written canonically, decodes to itself |
| `Sorting.SortSorts` | console/src/lib/metricSamples.ts:144 | the sort loses nothing and orders by key |
| `Sorting.SortedStays` | console/src/lib/traceEvents.ts:74 | sorting what is in order changes nothing |

## Left out

- Session loops of IMAP, POP3 and ManageSieve: a session stops reading a frame at a prompt or an error and drops the rest of it; the model's receiver is fed to the end.
- `CommandParser`, `T::from_str`, UTF-8 validity and text decoding, lower-casing: parameters of the model.
- `Token` accessors of the receiver: single-branch conversions.
- `GlobMap`: a thin client of the matcher that is modelled.
- `bearerToken`, `clientKey`, `forwardedClient` and the HTTP calls of the token verifier: a check's answer is an input of its step.
- `utf7_maybe_decode`: one branch over the decoder that is modelled.
- `from_parts`, `document_id`, `prefix_id` of ids: bit fields without a law of their own.
- Reading JSON values out of an event (`idOf`, `strings`): events carry the values read; `traceRow` and its SHA-256 hash are a row's identity.
- `derivedTimes`: a table of event kinds; its observations are inputs of `addToHistogram`.
- Postgres: statements and transactions are atomic steps, ids rise in commit order, and a failure that is not about data is a rollback step.
- Retention.WholeSpansAreExact: says nothing about a span that lost events, whose trace is what stood when it was last grouped.
- Trace search, cursors of the history lists and `latestGauges`: single queries.
- MetricLaws.CounterLaw: for values that are not negative.
- MetricTable.DashboardHistogram: of the sum it says when it is whole one way only, since a sum may stand still; it is for the runs of `MetricLaws.ClimbsIffTidy`.
- MetricHistory.HistoryOf: the average of a gauge's step is left as its total and its number of samples, and the final order of rows across metrics is not modelled.
- MetricHistory.Bin: the origin is midnight of the first of January 2000 in UTC; the database takes it in the time zone of its session.
- `resolutionFor`: the step width is any positive number here.
- Floating point: counts and sums are reals, doubles in protobuf are their 64 bits.
- DeadProperties.RunIsTable: for values that are balanced, as the XML parser gives them; depths beyond 32 bits are not modelled, sizes count characters.
- Otlp.DecodeMetricsRequest: which error is raised is not modelled, only that one is.
- HTTP, DAV and POP3 dispatch, the React interface, configuration, caches, the queue and the stores: routing and input or output around the algorithms above.
