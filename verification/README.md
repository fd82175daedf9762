# xtils: a verified model

xtils is a C++ utility library. This project models its algorithmic cores in Dafny and proves what each
core is for, over all inputs, runs or interleavings. `dafny verify dfyconfig.toml` checks everything.

| files | what they model |
|---|---|
| `Calendar`, `OrderedIntSet`, `Cron`, `CronFallback`, `CronHistory` | the calendar behind `timegm`/`gmtime`, the cron scheduler's search for the next run, when that search gives up, and which tasks run when |
| `BehaviorTree`, `BehaviorTreeLaws`, `BehaviorTreeNodes`, `BehaviorTreeMeaning` | behavior trees: their ticks, the laws of them, the mutable nodes that compute them, and what each kind of node promises |
| `Json`, `JsonParser`, `JsonRoundTrip`, `JsonUnicode`, `JsonReader`, `JsonWriter` | JSON values, the parser and the printer, both as loops over text |
| `JsonStrings`, `JsonGrammar`, `JsonLayout` | the tables and the grammar of RFC 8259 as relations, and the layout of printed text |
| `Doubles`, `DoubleRounding` | the rounding of `stod` |
| `IpcChannel`, `IpcHistory`, `IpcWire`, `IpcServer` | the IPC client's pending calls under all interleavings, what its callers are told, its line-based messages, and the server's answers |
| `Bytes`, `WebSocketFrame`, `WebSocketWire`, `WebSocketStream` | WebSocket frames with two decoders, their bytes as RFC 6455 has them, and the client's reassembly from a byte stream |
| `HttpChunked`, `ChunkSizes` | the HTTP client's chunked-body decoder, and what it reads on the wire |
| `Multipart`, `MultipartWire` | multipart/form-data as the client sends it, byte for byte, and as the server parses it |
| `Services`, `ServiceOrder` | the start order of services (Kahn's algorithm), and which order it is |
| `Sha1`, `Sha1Example`, `Base64`, `Base64Alphabet` | streaming SHA-1 against FIPS 180-3 and a published digest; Base64 against RFC 4648 |
| `TaskRunner`, `TaskHistory`, `Timers` | the task runner's two queues and what becomes of a task; one-shot and repeating timers |
| `Config` | the configuration tree: dotted paths, defaults, merging |
| `Options`, `Integers`, `Text` | `std::optional`; conversion to `int`; searching in text |

## How the model is built

Code that changes state is a class whose methods run the source's loops and assignments; each method's
contract equates its result or new state with a function, and the lemmas are about that function. Where a
format or a table is fixed from outside, it is written down once more as a relation on texts, bytes or statuses,
apart from those functions, and the lemmas say that the code accepts and makes exactly what is so related. Code
shared by several threads (IPC calls, the task runner, timers) is a state machine with one step for each
locked section, atomic access or socket call, and the results hold for every sequence of steps. Data
arriving from outside is an arbitrary text or byte string, cut into reads at arbitrary places; clocks,
shuffles and the outcomes of sends are parameters.

A std::string is a sequence of characters standing for bytes; a std::map is a sequence in key order or a
map. Integer widths are written out where they matter: int64 in JSON, the `int` that holds a chunk size or
a poll timeout, uint64 lengths, bytes and words as bit-vectors. The JSON parser skips what `std::isspace`
accepts, which is vertical tab and form feed besides the four whitespace characters of RFC 8259.

## What the proofs found

The code was followed where it differs from its comments or from what one would expect.

- Cron: the search gives up after 400 steps and then answers with the start plus 365 days. The days it stops
  on can be told from the schedule, and for every schedule it falls back exactly when 400 of them, less the at
  most three iterations that put the clock right, come before every match (`CronFallback.FallsBackExactly`).
  Without a weekday set that never happens to a date that exists, 29 February across 2096 to 2104 included
  (`CronFallback.YearlyFallsBack`); without a month set it happens at gaps of about 400 days, such as the 427
  days between two Fridays the 13th (`CronFallback.FridayThe13thFallsBack`); with a month and a weekday it can
  happen 20 years early (`CronFallback.LeapMondayFallsBack`). Before 1970 a time point with a fraction of a
  second is rounded up, so the search starts one second late; `Cron.NextRunIsFirstMatch` says exactly when
  that matters.
- EventGuard: its comments (`src/fsm/behavior_tree.cc:651` and the port description) say that a deferred
  interrupt takes effect on the next tick. The code interrupts in the same tick, and the two modes cannot be
  told apart (`BehaviorTreeLaws.SimplifyPreserves`).
- IPC: a result of depth 100 can be printed, and could be parsed on its own, but inside a response it is one
  level too deep: the client drops the line and the call times out (`IpcWire.ResultArrives`). Parameters of
  depth 100 fare the same: the server answers a parse error to no id (`IpcServer.Exchange`).
- WebSocket: a frame refused for its mask or its size stays in the client's buffer and is reported again on
  every later read (`WebSocketStream.CutMatters`); a frame longer than 1 MiB is never reported at all, the
  decoder waits for ever (`WebSocketFrame.OversizeNeverParses`).
- HTTP chunked bodies: the loop waits for a line end even when it already knows the size, so a whole chunk
  with no CRLF in its data or behind it is taken or not depending on how the stream is cut; and a size read as
  a negative int stops the read, while the next one takes a size line again. Two reads differ from one exactly
  where one of these happens at the second (`HttpChunked.CutMatters`), every cut of a response is decoded
  alike exactly when neither does (`HttpChunked.CutsDoNotMatter`), and a decoder that lags is behind by one
  chunk only (`HttpChunked.CutsLag`). A size keeps its low 32 bits, so the multiples of 2^32 below 2^64 end
  the body (`HttpChunked.HugeSizeEndsBody`); from 2^64 on every size reads as -1, which throws, loses a
  character or counts for nothing, depending on the cut (`HttpChunked.MinusOneCut`).
- Multipart: the announced Content-Length is too large when a name is so long that the disposition line is cut
  short (`Multipart.SizeIsExact`); two delimiters with nothing between them make the parser take the rest of
  the body for a part, because a length wraps (`Multipart.EmptyPartTakesRest`).
- Services: names may be repeated as long as they depend on nothing and nothing depends on them
  (`Services.SortIsRight`). Otherwise the sort can miss a dependency cycle (`Services.RepeatedNameHidesCycle`)
  or start a service before one it depends on (`Services.RepeatedNameBreaksOrder`), and when a service of a
  repeated name has a dependency it always reports a cycle (`Services.SortedRepeatsAreFree`).
- Task runner: if the next deadline is 2^31 ms or more away the poll timeout wraps to 0 and the loop spins
  (`TaskRunner.NeverOversleeps`).
- Timers: a callback that has passed the locked test may still start after `CancelTimer` returned true
  (`Timers.CancelComesTooLate`), at most once and only for a repeating timer.
- Config: a default whose name lies below a plain value replaces that value by an object
  (`Config.DefaultsKeepValue`).

## Model

| member | source | states |
|---|---|---|
| Calendar.YearStartFormula | src/tasks/cron_scheduler.cc:80-99 | the calendar built day by day (leap rule, month lengths) has the closed form of the Gregorian calendar that timegm and gmtime_r compute |
| Calendar.DayNumCounts | src/tasks/cron_scheduler.cc:80-99 | day numbers follow the calendar: the next date has the next number, across month and year ends |
| Calendar.MonthsInOrder | src/tasks/cron_scheduler.cc:80-99 | day numbers order dates as years and months do, even when the day of month is past the end of its month |
| Calendar.CivilUnique | src/tasks/cron_scheduler.cc:80-99 | no two dates share a day number |
| Calendar.TimeGmInverts | src/tasks/cron_scheduler.cc:88-99 | fromLocalTm after toLocalTm: timegm(gmtime(t)) is t, for every second, before and after the epoch |
| Calendar.GmTimeInverts | src/tasks/cron_scheduler.cc:88-99 | toLocalTm after fromLocalTm: for in-range fields gmtime(timegm(tm)) is tm, with the right weekday |
| OrderedIntSet.Least | src/tasks/cron_scheduler.cc:168-231 | begin() of a field set: the least value allowed |
| OrderedIntSet.LowerBound | src/tasks/cron_scheduler.cc:168-231 | lower_bound on a field set: the least value not below x, if there is one |
| Cron.SecondJump | src/tasks/cron_scheduler.cc:171-181 | the second jump advances and skips no second that matches the schedule |
| Cron.MinuteJump | src/tasks/cron_scheduler.cc:183-194 | the same for the minute jump, which carries into the hour |
| Cron.HourJump | src/tasks/cron_scheduler.cc:196-208 | the same for the hour jump, which carries into the day |
| Cron.DayJump | src/tasks/cron_scheduler.cc:210-217 | the same for the day jump: a whole day with a date that is not allowed |
| Cron.MonthJump | src/tasks/cron_scheduler.cc:219-233 | the same for the month jump, also when the first allowed day is past the end of the month it lands on |
| Cron.JumpSkipsNothing | src/tasks/cron_scheduler.cc:162-247 | every iteration moves strictly forward and no matching second lies between |
| Cron.SearchFindsFirst | src/tasks/cron_scheduler.cc:155-247 | a search that exits by a match returns the first matching second at or after its start |
| Cron.JumpProgress | src/tasks/cron_scheduler.cc:162-247 | each iteration either fixes a clock field without going back a day or reaches the first allowed time of a later day |
| Cron.SearchReaches | src/tasks/cron_scheduler.cc:162-247 | a search with steps enough to walk day by day to a matching second ends in a match |
| Cron.StartSecond | src/tasks/cron_scheduler.cc:80-87 | the second the search starts in, for any time point: the next whole second, or one later for a fraction before 1970 |
| Cron.NextRunIsFirstMatch | src/tasks/cron_scheduler.cc:155-251 | exit by a match: the result is strictly after `from`, matches all six fields and is the first such second, if and only if the start was not rounded past a match |
| Cron.SearchCoversWindow | src/tasks/cron_scheduler.cc:155-251 | every match within 396 days is found; so the fallback means there is none in that window |
| Cron.AllowedDayFound | src/tasks/cron_scheduler.cc:155-251 | an allowed date within 396 days keeps the search from its fallback |
| Cron.DailyWithinFour | src/tasks/cron_scheduler.cc:155-251 | with day, month and weekday sets empty the search matches within 4 iterations: the fallback is unreachable |
| Cron.WeeklyNeverFallsBack | src/tasks/cron_scheduler.cc:155-251 | with only a weekday restricted, the fallback is unreachable |
| Cron.FallbackIsNoMatch | src/tasks/cron_scheduler.cc:250-250 | the fallback answer lies inside the window that was searched in vain: it is never the next run |
| CronFallback.StopsNext | src/tasks/cron_scheduler.cc:210-247 | the days that some disallowed month with an allowed day passes over are the ones the search leaves out: the rest are its stops, one after the other |
| CronFallback.JumpStops | src/tasks/cron_scheduler.cc:210-247 | with the clock right, each iteration lands on the next of these days |
| CronFallback.SearchStops | src/tasks/cron_scheduler.cc:162-247 | with the clock right, n iterations end in a match if and only if there is one with fewer than n stops before it |
| CronFallback.ClockJumpsEnd | src/tasks/cron_scheduler.cc:168-208 | the iterations that put the clock right, at most three, end at the first second from the start that the clock fields allow |
| CronFallback.FallsBackExactly | src/tasks/cron_scheduler.cc:155-250 | for every schedule: the fallback is reached if and only if 400 stops, less the clock iterations, come before every match |
| CronFallback.FallsBackWithoutMonths | src/tasks/cron_scheduler.cc:155-250 | with no month set, if and only if no second matches before the end of day 400, less the clock iterations, from where those end |
| CronFallback.YearlyFallsBack | src/tasks/cron_scheduler.cc:155-250 | with no weekday set, if and only if no date of any year is allowed: 29 February is found even eight years away |
| CronFallback.FridayThe13thFallsBack | src/tasks/cron_scheduler.cc:162-250 | an instance: midnight on Friday the 13th, from August 1999, has a next run in October 2000, and the search answers with the fallback |
| CronFallback.LeapMondayFallsBack | src/tasks/cron_scheduler.cc:162-250 | another: midnight on Monday 29 February, from March 2024, has a next run in 2044, and the search answers with the fallback |
| Cron.OutOfRangePassesMatch | src/tasks/cron_scheduler.cc:168-231 | with seconds {5, 75} the jump from second 10 passes over the match at second 65: why the sets must be in range |
| Cron.CronScheduler.CalcNextRunTime | src/tasks/cron_scheduler.cc:155-251 | the loop that updates the tm fields in place computes NextRun |
| Cron.CronScheduler.AddTask | src/tasks/cron_scheduler.cc:101-114 | a new task gets a fresh id and its first run computed from now; other tasks are unchanged |
| Cron.CronScheduler.Cancel | src/tasks/cron_scheduler.cc:46-55 | makes exactly the task with that id inactive and says whether there was one |
| Cron.CronScheduler.RunOnce | src/tasks/cron_scheduler.cc:268-287 | runs exactly the due tasks, sets their last run to the scheduled time and computes the next from now |
| Cron.NextRunAdvances | src/tasks/cron_scheduler.cc:155-287 | every next run of a cron task lies strictly after the time it was computed from, match or fallback |
| Cron.SecondCheckRunsNothing | src/tasks/cron_scheduler.cc:75-78 | a second triggerCheck(now) runs a task again if and only if it is an interval task of length zero or less that the first one ran |
| Cron.RunsIncrease | src/tasks/cron_scheduler.cc:268-287 | over any checks with a clock that never goes back a task runs for strictly increasing scheduled times |
| CronHistory.Perform | src/tasks/cron_scheduler.cc:101-114 | the object does to its tasks what a history of additions, cancellations and checks is said to do |
| CronHistory.RunsWhenDue | src/tasks/cron_scheduler.cc:268-280 | a check runs a task if and only if it is active and its time has come |
| CronHistory.CancelledNeverRuns | src/tasks/cron_scheduler.cc:46-55 | a cancelled task never runs again and is never changed, over any additions, cancellations and checks |
| CronHistory.IntervalRuns | src/tasks/cron_scheduler.cc:155-157 | an interval task runs at the first check one interval after it was added, then at each check one interval after the last that ran it, and at no other |
| CronHistory.RescheduledToFirst | src/tasks/cron_scheduler.cc:155-287 | a cron task that ran is next due at the first later second whose local fields, each named, are in the sets |
| BehaviorTree.TickInv | src/fsm/behavior_tree.cc:240-258 | a tick from a well-formed state returns Success, Failure or Running and leaves a well-formed state, for every tree and every behaviour of the actions |
| BehaviorTree.RunInv | src/fsm/behavior_tree.cc:18-46 | so does every sequence of ticks, resets and events |
| BehaviorTree.StartedIffRunning | src/fsm/behavior_tree.cc:240-258 | in a well-formed state every node is started exactly when its status is Running |
| BehaviorTree.OneActivePath | src/fsm/behavior_tree.cc:240-258 | in a started tree the started nodes are exactly those on one path from the root to an action |
| BehaviorTree.ReachableStructure | src/fsm/nodes.h:11-189 | both hold in every state reachable by ticks, resets and events; otherwise no node is started |
| BehaviorTreeLaws.SameTick | src/fsm/behavior_tree.cc:240-258 | one tick of two bisimilar trees: same status, same actions called in the same order, same events left, and still bisimilar |
| BehaviorTreeLaws.SameObserved | src/fsm/behavior_tree.cc:240-264 | bisimilar trees cannot be told apart by any sequence of ticks, resets and events |
| BehaviorTreeLaws.ResetIsFresh | src/fsm/behavior_tree.cc:260-264 | after reset() any state is bisimilar to a freshly built tree |
| BehaviorTreeLaws.ResetRunsAsFresh | src/fsm/behavior_tree.cc:232-264 | in every reachable state reset() leaves a tree that runs exactly as a freshly built one |
| BehaviorTreeLaws.FinishedIsFresh | src/fsm/behavior_tree.cc:240-258 | so does a tree whose tick just returned Success or Failure |
| BehaviorTreeLaws.DeMorgan | src/fsm/behavior_tree.cc:18-46 | Inverter(Sequence(c..)) and Selector(Inverter(c)..), and the dual pair, agree on every run: statuses, calls and their order |
| BehaviorTreeLaws.SimplifyPreserves | src/fsm/nodes.h:164-189 | replacing Fallback by Selector, deferred EventGuards by immediate ones and double inverters by their child, anywhere in a tree, changes no run |
| BehaviorTreeNodes.BtTree.SendEvent | src/fsm/behavior_tree.cc:437-444 | appends to the event queue |
| BehaviorTreeNodes.BtTree.ConsumeEvent | src/fsm/behavior_tree.cc:456-466 | removes the first event of the type, if there is one, and keeps the order of the others |
| BehaviorTreeNodes.Node.Tick | src/fsm/behavior_tree.cc:240-258 | ticking the mutable node and its children changes status, memory and queue exactly as the function Tick |
| BehaviorTreeNodes.Node.TickSequence | src/fsm/behavior_tree.cc:18-31 | the loop of Sequence::OnTick, which resumes at current_ |
| BehaviorTreeNodes.Node.TickSelector | src/fsm/behavior_tree.cc:33-46 | the loop of Selector::OnTick |
| BehaviorTreeNodes.Node.TickFallback | src/fsm/nodes.h:164-189 | the loop of Fallback::OnTick |
| BehaviorTreeNodes.Node.TickRandomSelector | src/fsm/nodes.h:30-50 | the loop of RandomSelector::OnTick over the shuffled indices |
| BehaviorTreeNodes.Node.TickInverter | src/fsm/behavior_tree.cc:280-286 | Inverter::OnTick |
| BehaviorTreeNodes.Node.TickRetry | src/fsm/nodes.h:102-124 | the loop of Retry::OnTick with its attempt count and resets of the child |
| BehaviorTreeNodes.Node.TickRepeater | src/fsm/nodes.h:140-161 | the loop of Repeater::OnTick |
| BehaviorTreeNodes.Node.TickEventGuard | src/fsm/behavior_tree.cc:636-664 | EventGuard::OnTick: the event is consumed, the child reset, Failure returned |
| BehaviorTreeNodes.Node.DoReset | src/fsm/behavior_tree.cc:234-264 | reset() of a node and everything below it |
| BehaviorTreeNodes.ResetTwice | src/fsm/behavior_tree.cc:234-238 | Composite::reset visits the children twice; the second visit changes nothing |
| BehaviorTreeNodes.BuildNode | src/fsm/behavior_tree.cc:62-102 | building a tree, children first, gives nodes that share nothing and form the fresh tree of that shape |
| BehaviorTreeNodes.Drive | src/fsm/behavior_tree.cc:334-349 | ticks, resets and events given to the nodes in any order change them, and show statuses, as Run and Observed say |
| BehaviorTreeNodes.BuildAndDrive | src/fsm/behavior_tree.cc:334-349 | after building a tree and driving it by any commands, its started nodes are those of one path from the root to an action, or none |
| BehaviorTreeMeaning.SequenceTick | src/fsm/behavior_tree.cc:18-31 | a Sequence ticks its children in order from its memory; it returns Success if and only if all of them do, else the first other status, and ticks none after it |
| BehaviorTreeMeaning.SelectorTick | src/fsm/behavior_tree.cc:33-46 | a Selector returns Failure if and only if all of them do, else the first other status, and ticks none after it |
| BehaviorTreeMeaning.FallbackTick | src/fsm/nodes.h:172-189 | a Fallback does the same |
| BehaviorTreeMeaning.RandomSelectorTick | src/fsm/nodes.h:18-50 | a RandomSelector does the same in an order drawn when it starts and kept while it runs |
| BehaviorTreeMeaning.RetryTick | src/fsm/nodes.h:93-124 | a Retry fails if and only if every attempt it has left fails, the child being reset after each; a new start gives it max_retries |
| BehaviorTreeMeaning.RepeaterTick | src/fsm/nodes.h:130-161 | a Repeater succeeds if and only if every round it has left succeeds |
| BehaviorTreeMeaning.InverterTick | src/fsm/behavior_tree.cc:280-286 | an Inverter exchanges Success and Failure and passes Running on |
| BehaviorTreeMeaning.NoChildTick | src/fsm/behavior_tree.cc:280-281 | a decorator without a child fails |
| BehaviorTreeMeaning.ActionTick | include/xtils/fsm/behavior_tree.h:257-261 | an action calls its function once and returns what it returns |
| BehaviorTreeMeaning.EventGuardTick | src/fsm/behavior_tree.cc:636-664 | an event of its type, wherever it is in the queue, is taken out and the child reset and not ticked; without one the child decides |
| BehaviorTreeMeaning.ConsumeTakes | src/fsm/behavior_tree.cc:456-466 | of the events in the queue exactly the first of the type is taken |
| Json.InsertSorted | src/utils/json.cc:205-262 | inserting into the object map keeps it sorted and adds exactly the new member |
| JsonRoundTrip.StringRoundTrip | src/utils/json.cc:42-162 | parse_string reads back every byte string dump_string prints, and stops behind its closing quote |
| JsonRoundTrip.IntegerRoundTrip | src/utils/json.cc:264-358 | every int64 is read back from its decimal text |
| JsonRoundTrip.ScientificReads | src/utils/json.cc:346-354 | a whole number written with an exponent is read as that integer, for every value below 2^53 |
| Doubles.NearestIsNearest | src/utils/json.cc:348-348 | rounding gives a nearest integer of units of the last place |
| Doubles.SmallWhole | src/utils/json.cc:348-349 | stod of an integer below 2^53 is that integer |
| DoubleRounding.StodIsNearest | src/utils/json.cc:348-348 | no finite double is nearer to the number written than the one given, and of two equally near it has the even significand |
| DoubleRounding.StodIsFinite | src/utils/json.cc:348-348 | what is given is a finite IEEE 754 double |
| DoubleRounding.OutOfRange | src/utils/json.cc:347-356 | stod throws if and only if the number is half a unit or more above the largest double, or inexact and below the least normal one |
| JsonRoundTrip.ValueRoundTrip | src/utils/json.cc:371-404 | parse_value on dump_value, at any depth, with any text behind it |
| JsonRoundTrip.RoundTrip | src/utils/json.cc:872-899 | parse(dump(v, indent)) is v if and only if no node of v lies below level 100, and fails otherwise; every float-free value, every indent |
| JsonRoundTrip.DumpInjective | src/utils/json.cc:804-877 | no two values print alike, in whatever forms |
| JsonRoundTrip.ParsedWellFormed | src/utils/json.cc:371-404 | what the parser accepts has int64 integers, sorted objects without duplicate keys and depth at most 100 |
| JsonRoundTrip.ParseDumpParse | src/utils/json.cc:872-899 | printing what was parsed and parsing again gives the same value |
| JsonUnicode.Utf8Decodes | src/utils/json.cc:42-162 | the bytes made from a code point are its UTF-8 form: decoding them gives it back |
| JsonUnicode.EscapeReads | src/utils/json.cc:42-162 | a \u escape, or a surrogate pair of them, in any case of the digits, reads as the UTF-8 form of its code point |
| JsonUnicode.LoneSurrogateFails | src/utils/json.cc:42-162 | a surrogate that is not part of a pair is an error |
| JsonStrings.StringsAreRead | src/utils/json.cc:42-162 | a string is read, with a value, if and only if it is a text of that value by the table of section 7 of RFC 8259, written as data |
| JsonStrings.StringIsWritten | src/utils/json.cc:765-802 | between quotes the printer writes each character by the same table, by a \u escape below the space, or as it is |
| JsonStrings.WrittenOnce | src/utils/json.cc:765-802 | no character is written in two ways |
| JsonGrammar.DecimalValue | src/utils/json.cc:264-358 | a run of digits is read as the number it writes in base ten |
| JsonGrammar.ParsesTexts | src/utils/json.cc:879-899 | Json::parse accepts a text, with a value, if and only if it is derived from the grammar with that value: white space, literals, numbers, strings, commas and colons where they belong, no key twice, no more than 100 levels |
| JsonLayout.ArrayLayout | src/utils/json.cc:804-870 | the exact text of an array: commas, line ends and spaces by indent and level |
| JsonLayout.ObjectLayout | src/utils/json.cc:804-870 | the exact text of an object |
| JsonLayout.PlainLayout | src/utils/json.cc:804-870 | the exact text of literals, and decimal integers without leading zeros |
| JsonReader.Reader.ReadString | src/utils/json.cc:42-162 | the loop of parse_string |
| JsonReader.Reader.ReadNumber | src/utils/json.cc:264-358 | the loops of parse_number |
| JsonReader.Reader.ReadArray | src/utils/json.cc:164-203 | parse_array with its depth cap and its trailing-comma checks |
| JsonReader.Reader.ReadElements | src/utils/json.cc:172-203 | the loop over the elements |
| JsonReader.Reader.ReadMembers | src/utils/json.cc:213-262 | the loop over the members, with its duplicate-key check |
| JsonReader.Reader.ReadValue | src/utils/json.cc:371-404 | parse_value |
| JsonReader.Parse | src/utils/json.cc:879-899 | Json::parse: the reader over the whole text, and nothing but space after the value |
| JsonWriter.Writer.DumpString | src/utils/json.cc:765-802 | the loop of dump_string |
| JsonWriter.Writer.DumpValue | src/utils/json.cc:804-870 | dump_value appends the printed form, compact or indented |
| JsonWriter.DumpText | src/utils/json.cc:872-877 | Json::dump |
| IpcChannel.MoveKeeps | src/net/ipc_channel.cc:354-420 | each step of Call and CallAsync keeps the invariant of the pending-call protocol |
| IpcChannel.ActKeeps | src/net/ipc_channel.cc:339-350 | so does each step of the reader and of Disconnect |
| IpcChannel.RunInv | src/net/ipc_channel.cc:339-577 | the invariant holds after every interleaving of any number of callers, the reader and repeated Disconnects |
| IpcChannel.AtMostOnce | src/net/ipc_channel.cc:443-484 | a callback is dispatched at most once, and only for a call that completed or was refused |
| IpcChannel.CompletedIsNotPending | src/net/ipc_channel.cc:554-561 | a completed call is never in the pending map, and the map holds every call under its own id |
| IpcChannel.AnswersAreOnesOwn | src/net/ipc_channel.cc:526-577 | a result delivered to a call is a failure or a received response with its id, which no other call can be given |
| IpcChannel.CompletionIsFinal | src/net/ipc_channel.cc:443-458 | done, its result, dispatched callbacks and return values are never changed by a later step |
| IpcChannel.DisconnectWakes | src/net/ipc_channel.cc:339-350 | after Disconnect returned every synchronous call still waiting has been completed |
| IpcChannel.DisconnectSettles | src/net/ipc_channel.cc:339-350 | after Disconnect returned, with no caller in the middle of a call, the map is empty and every asynchronous callback was dispatched exactly once |
| IpcChannel.ResponseCompletes | src/net/ipc_channel.cc:549-577 | handling a response to a pending call completes exactly that call with it |
| IpcHistory.SynchronousReturn | src/net/ipc_channel.cc:354-388 | over every interleaving: a synchronous call returns a timeout if and only if its wait ended before it was complete, a failed send if and only if its send failed, and else what completed it, a response received for its id or the disconnection that found it |
| IpcHistory.GivesUpIncomplete | src/net/ipc_channel.cc:377-384 | a wait ends early only while the call is not complete |
| IpcHistory.AsynchronousReturn | src/net/ipc_channel.cc:390-420 | a callback is given a response received for its id, a disconnection that found the call, its own failed send, or the refusal of a call begun while not connected |
| IpcHistory.ResponseReturned | src/net/ipc_channel.cc:549-577 | a response to a call that waits is what Call returns |
| IpcHistory.ResponsePosted | src/net/ipc_channel.cc:443-484 | and what the callback of CallAsync is given |
| IpcWire.CutsDoNotMatter | src/net/ipc_channel.cc:500-520 | ReadLoop hands on the same lines however the stream is cut |
| IpcWire.DumpOneLine | src/net/ipc_channel.cc:486-490 | a printed message has no line break inside, whatever its strings contain |
| IpcWire.MessagesArrive | src/net/ipc_channel.cc:500-528 | any messages sent, over any cuts, arrive as exactly the lines sent, each parsing back if it is not too deep |
| IpcWire.LineReader.OnRead | src/net/ipc_channel.cc:510-519 | the find and erase loop of ReadLoop |
| IpcWire.RequestArrives | src/net/ipc_channel.cc:358-363 | the server finds in the parsed request the id, method and parameters of the call |
| IpcWire.ResultArrives | src/net/ipc_channel.cc:531-577 | the client reads a result as a reply with the call id and that result, if and only if the result is less than 100 deep |
| IpcWire.ErrorArrives | src/net/ipc_channel.cc:563-568 | an error response is read as that code and message |
| IpcWire.RequestMembers | src/net/ipc_channel.cc:358-363 | the members of a request, by name |
| IpcWire.ResultMembers | src/net/ipc_channel.cc:242-253 | the members of a result |
| IpcWire.ErrorMembers | src/net/ipc_channel.cc:254-258 | the members of an error |
| IpcServer.RequestText | src/net/ipc_channel.cc:486-490 | the text of a request, character by character |
| IpcServer.Exchange | src/net/ipc_channel.cc:172-270 | every request is answered, and the caller is given what the handler makes of its parameters, or -32601; it is given nothing if and only if parameters or result are 100 levels deep |
| IpcServer.Notices | src/net/ipc_channel.cc:211-230 | a notification is heard on the other side and never answered, unless its parameters are 100 levels deep |
| Bytes.BigEndianRoundTrip | src/net/websocket_common.cc:55-63 | a length written in 2 or 8 bytes in network order is read back |
| WebSocketFrame.MaskTwice | src/net/websocket_common.cc:176-180 | masking twice with one key restores the payload |
| WebSocketFrame.FrameRoundTrip | src/net/websocket_common.cc:31-174 | ParseFrame on any frame BuildFrame makes, with any bytes behind it, returns that frame and consumes exactly its bytes |
| WebSocketFrame.ParseStable | src/net/websocket_common.cc:97-174 | a complete frame is read the same whatever follows, for any bytes |
| WebSocketFrame.PrefixNeedsMore | src/net/websocket_common.cc:97-174 | no strict prefix of a frame is taken for a frame |
| WebSocketFrame.OversizeNeverParses | src/net/websocket_common.cc:141-144 | a frame announced as longer than the limit never parses, however much data follows |
| WebSocketFrame.DecodersAgree | src/net/http_server.cc:342-452 | on any bytes, within both limits, the client decoder and the server decoder see the same masked frame |
| WebSocketFrame.ServerRoundTrip | src/net/http_server.cc:342-452 | the server recovers the payload of every frame masked with any key |
| WebSocketFrame.ApplyMask | src/net/websocket_common.cc:176-180 | the in-place loop masks exactly its bytes |
| WebSocketFrame.BuildFrame | src/net/websocket_common.cc:31-95 | the frame built step by step |
| WebSocketFrame.ReadFrame | src/net/websocket_common.cc:97-174 | the decoder advancing through the buffer |
| WebSocketFrame.HttpServerConnection.ParseOneWebsocketFrame | src/net/http_server.cc:342-452 | the server decoder, unmasking in its receive buffer: what it consumes, closes, answers and hands on, and that the bytes after the frame are untouched |
| WebSocketWire.BuiltOnWire | src/net/websocket_common.cc:31-95 | the frame built, byte by byte as section 5.2 of RFC 6455 has it: FIN, opcode number, mask bit, the shortest of the three lengths in network order, key, payload |
| WebSocketWire.HeaderOnWire | src/net/websocket_common.cc:97-150 | the header read from any bytes is the one they spell |
| WebSocketWire.ClientReads | src/net/websocket_common.cc:97-174 | any frame so spelled, within the size limit, is read by the client as that frame |
| WebSocketWire.ServerReads | src/net/http_server.cc:342-452 | and by the server if it is masked and within its limit; otherwise it is refused |
| WebSocketWire.ReadIsOnWire | src/net/websocket_common.cc:97-174 | nothing else is read |
| WebSocketWire.FrameHeard | src/net/websocket_client.cc:441-547 | what the client tells its listener and sends back for a frame of each opcode number |
| WebSocketStream.CutMatters | src/net/websocket_client.cc:312-318 | two reads do what one would if and only if the first did not end in a refused frame |
| WebSocketStream.CutsDoNotMatter | src/net/websocket_client.cc:245-254 | the client ends in the same state however the stream is cut if and only if no frame of it is refused |
| WebSocketStream.MessagesArrive | src/net/websocket_client.cc:412-492 | every message, whole or in any fragments with control frames between, is heard once, whole and in order; each control frame in its place; nothing is left over; any cut |
| WebSocketStream.CloseEchoed | src/net/websocket_client.cc:494-520 | a close frame is answered once with its code and reason and reported |
| WebSocketStream.WebSocketClient.HandleWebSocketFrame | src/net/websocket_client.cc:441-547 | the switch over opcodes and its updates of the fragment buffer |
| WebSocketStream.WebSocketClient.ParseWebSocketFrame | src/net/websocket_client.cc:412-439 | takes one frame from the receive buffer, or refuses it |
| WebSocketStream.WebSocketClient.OnDataReceived | src/net/websocket_client.cc:245-254 | a read, after the handshake |
| Text.FindStable | src/net/http_client.cc:715-715 | later bytes do not move the first line end |
| HttpChunked.ProcessSplit | src/net/http_client.cc:712-777 | decoding what came and then more, without waiting for a line end once a size is known, agrees with decoding both at once |
| HttpChunked.CutMatters | src/net/http_client.cc:714-753 | two reads agree with one if and only if the second neither leaves a whole chunk waiting with no CRLF in the buffer nor meets a line after a size below -2; all texts but those with -1 followed by data |
| HttpChunked.CutsLag | src/net/http_client.cc:660-777 | over any cuts, headers included, the decoder agrees with one read as soon as it has taken the one chunk it may be waiting on, and before that if and only if it waits on none; where no negative size meets a line |
| HttpChunked.CutsDoNotMatter | src/net/http_client.cc:660-777 | every cut of a response is decoded alike if and only if its last chunk has a CRLF somewhere behind its size line and no size below -2 has one; all texts but those with -1 followed by data |
| HttpChunked.ChunkedResponse | src/net/http_client.cc:660-777 | a well-formed chunked response, over any cuts, completes exactly once; the pieces delivered are the chunk data in order and the body is their concatenation |
| HttpChunked.HexSizeOfDigits | src/net/http_client.cc:722-722 | hexadecimal digits of either case, with leading zeros, read as their value, or as 2^64 - 1 from there on |
| HttpChunked.MissingLineEnd | src/net/http_client.cc:714-718 | a chunk and any two characters behind it, read at once or with a cut after the size line, agree if and only if a CRLF occurs in data and characters; otherwise the chunk is delivered in one read and not in two |
| HttpChunked.NegativeSizeCut | src/net/http_client.cc:719-753 | a size below -2 as an int makes one read wait for ever; a cut behind it agrees with that if and only if no further line comes |
| HttpChunked.MinusOneCut | src/net/http_client.cc:719-775 | a size read as -1 with data behind it: one read throws or loses a character, a cut makes nothing of the size, and the two agree only if the data has a negative size too |
| HttpChunked.HugeSizeEndsBody | src/net/http_client.cc:719-748 | a size is taken for the last chunk if and only if it is a multiple of 2^32 below 2^64 |
| HttpChunked.HttpClient.ProcessChunkedBody | src/net/http_client.cc:712-777 | the loop that consumes the receive buffer |
| HttpChunked.HttpClient.OnDataReceived | src/net/http_client.cc:466-472 | a read, which is ignored once the response is complete |
| Text.FindIs | src/net/http_client.cc:715-715 | std::string::find answers with a place if and only if the pattern stands there and nowhere before |
| ChunkSizes.SizesAreRead | src/net/http_client.cc:721-726 | a size line is read, as a number, if and only if it spells that number: white space, a sign, a prefix, hexadecimal digits; too large a number is 2^64 - 1 and a minus wraps |
| ChunkSizes.ResponseHeard | src/net/http_client.cc:660-777 | a response as section 7.1 of RFC 9112 has it, given as a relation on its text, completes once over any cuts, with the data of its chunks |
| Multipart.SizeIsExact | src/net/http_client.cc:1093-1129 | a size is announced if and only if no file is empty; the bytes sent are then never more, and exactly as many if and only if no disposition line is cut short by its 128- or 256-byte buffer or by a NUL |
| MultipartWire.FieldOnWire | src/net/http_client.cc:571-585 | the bytes of a field: delimiter, disposition line of 127 characters at most, empty line, value, line end |
| MultipartWire.FileOnWire | src/net/http_client.cc:587-640 | the bytes of a file, with its name and content type |
| MultipartWire.EndOnWire | src/net/http_client.cc:643-648 | the closing delimiter |
| Multipart.PartsOfJoined | src/net/http_multipart.cc:48-98 | the cursor loop over a body finds exactly the parts joined with the delimiter, none of which contains it |
| Multipart.HeaderEndIs | src/net/http_multipart.cc:100-126 | the headers end at the first empty line, whatever the content |
| Multipart.NameRead | src/net/http_multipart.cc:195-225 | the name parameter is read back from a disposition whatever follows it |
| Multipart.FilenameRead | src/net/http_multipart.cc:187-225 | the filename parameter is read back, and absent for a field whose name does not contain "filename=" |
| Multipart.FieldReads | src/net/http_multipart.cc:100-185 | the part sent for a field is read as that field |
| Multipart.FileReads | src/net/http_multipart.cc:100-185 | the part sent for a file is read as that file, with its content type and content |
| Multipart.RoundTrip | src/net/http_multipart.cc:48-185 | any fields and files sent with plain names and a boundary that occurs in none of them are read back, the same and in the same order |
| Multipart.EmptyPartTakesRest | src/net/http_multipart.cc:69-82 | where two delimiters follow each other directly, everything from the second on is taken for a part |
| Multipart.SendMultipartBody | src/net/http_client.cc:568-658 | the loops over fields and files send exactly the body |
| Multipart.MultipartParser.ReadHeaders | src/net/http_multipart.cc:131-155 | the loop over header lines |
| Multipart.MultipartParser.ParsePart | src/net/http_multipart.cc:100-185 | adds one field or one file, or nothing for a part without a name |
| Multipart.MultipartParser.Parse | src/net/http_multipart.cc:48-98 | the whole parser |
| Services.GraphCounts | src/app/app.cc:382-391 | indegree and reverse_deps count every dependency entry, repeated ones as often as they are repeated |
| Services.PeelKeepsInv | src/app/app.cc:399-406 | the main loop keeps: a count is the number of unmet entries, a service is listed exactly when its count is 0, dependencies come first |
| Services.KahnSorts | src/app/app.cc:382-422 | for known dependencies, and names repeated only apart from all others: an order of all services, dependencies first, independent services first and as registered, and no cycle exists; or names among which there is a cycle |
| Services.SortIsRight | src/app/app.cc:351-423 | success if and only if the dependency graph is acyclic, with the result as above |
| Services.ReportsUnknown | src/app/app.cc:365-379 | an unknown dependency is reported if and only if there is one, and it is one; repeated names included |
| Services.ShortcutIsKahn | src/app/app.cc:380-380 | without dependencies the early return gives what the main loop would give |
| Services.RepeatedNameHidesCycle | src/app/app.cc:355-363 | with a repeated name that others depend on, a cyclic graph can pass |
| Services.RepeatedNameBreaksOrder | src/app/app.cc:355-363 | and an acyclic one can be ordered with a service before one it depends on |
| Services.SortedRepeatsAreFree | src/app/app.cc:351-423 | on any list, repeated names included, a result lists every name as often as it was registered, and no repeated name has a dependency |
| ServiceOrder.FirstIsReported | src/app/app.cc:365-379 | the unknown dependency reported is the first in registration order |
| ServiceOrder.CycleNames | src/app/app.cc:408-420 | the services named are the largest set in which each waits for another: those on a cycle and those that wait for them |
| ServiceOrder.SortGives | src/app/app.cc:346-423 | the sort gives an order if and only if it is the one that starts independent services first, as registered, and then whatever is ready first, by registration among equals; there is at most one |
| Services.CountDependencies | src/app/app.cc:382-391 | the loops that build the two maps |
| Services.PeelReady | src/app/app.cc:393-406 | the loop over the ready list |
| Services.TopoSortServices | src/app/app.cc:351-423 | the whole function |
| Sha1.SwappedLoad | src/utils/sha1.cc:134-134 | a word read in memory order and byte-swapped is the big-endian word FIPS 180-3 means |
| Sha1.SwappedStore | src/utils/sha1.cc:122-122 | swapping the words of H puts the digest in memory in big-endian order |
| Sha1.LengthIsBigEndian | src/utils/sha1.cc:179-186 | the eight shifts of l store the length in big-endian order |
| Sha1.PaddedInjective | src/utils/sha1.cc:167-187 | no two messages under 2^61 bytes have the same padded form |
| Sha1.SecureHashAlgorithm.Process | src/utils/sha1.cc:125-165 | the loops over W and the rounds compute the compression function of the block in M, whatever they leave in the union |
| Sha1.SecureHashAlgorithm.Update | src/utils/sha1.cc:109-116 | bytes stream through M; cursor stays under 64 between bytes |
| Sha1.SecureHashAlgorithm.Pad | src/utils/sha1.cc:167-187 | both cases of the padding store exactly what section 5.1.1 asks for |
| Sha1.SecureHashAlgorithm.Final | src/utils/sha1.cc:118-123 | the digest is that of all bytes given to Update, in however many calls |
| Sha1.Sha1Hash | src/utils/sha1.cc:204-209 | the one-shot function |
| Sha1Example.DigestOfAbc | src/utils/sha1.cc:70-165 | the digest of "abc" is the published one, by all 80 rounds |
| Base64.Encode | include/xtils/utils/base64.h:13-13 | the encoder fills exactly Base64EncSize characters |
| Base64.DecodeEncodeChar | src/utils/base64.cc:34-37 | decoding an alphabet character gives its place in the table |
| Base64.DecodeEncode | src/utils/base64.cc:41-116 | decoding an encoding returns the bytes, with its padding whole, cut short or absent, and in either alphabet chosen character by character |
| Base64.DecodeAccepts | src/utils/base64.cc:99-106 | a text decodes if and only if every character is of an alphabet or padding and its length is not 1 modulo 4 |
| Base64.EncodeInto | src/utils/base64.cc:41-79 | the encoder writing into a buffer, or -1 and nothing written if there is no room |
| Base64.DecodeInto | src/utils/base64.cc:89-116 | the decoder writing into a buffer, never past Base64DecSize |
| Base64Alphabet.WrittenAt | src/utils/base64.cc:15-32 | each sextet is written as the character at its place in the alphabet, written out |
| Base64Alphabet.ReadAt | src/utils/base64.cc:18-37 | each character of either alphabet is read as its place |
| Base64Alphabet.NotRead | src/utils/base64.cc:18-37 | and no other character |
| Base64Alphabet.EncodingIs | src/utils/base64.cc:41-79 | the encoding as section 4 of RFC 4648 has it, by groups of 24 bits |
| TaskRunner.RunInv | src/tasks/unix_task_runner.cc:101-237 | in every run each task is in exactly one place, delayed tasks are ordered by deadline and posting, handles are unique |
| TaskRunner.ImmediateInOrder | src/tasks/unix_task_runner.cc:185-195 | immediate tasks run in the order they were posted |
| TaskRunner.AtMostOnce | src/tasks/unix_task_runner.cc:101-126 | no task runs twice; one that ran was not cancelled; none is lost |
| TaskRunner.TakesEarliestDue | src/tasks/unix_task_runner.cc:113-119 | a delayed task taken is due and is the least pending by deadline and posting; if none is taken none is due |
| TaskRunner.CancelTells | src/tasks/unix_task_runner.cc:227-237 | CancelDelayedTask returns true if and only if the task was neither taken nor cancelled before |
| TaskRunner.CancelledNeverRuns | src/tasks/unix_task_runner.cc:227-237 | a task whose cancellation returned true never runs, whatever follows |
| TaskRunner.DelayedWithin | src/tasks/unix_task_runner.cc:101-126 | a due task with k before it is taken within k + 1 rounds if no earlier deadline is posted |
| TaskRunner.ImmediateWithin | src/tasks/unix_task_runner.cc:101-126 | an immediate task with k before it runs within k + 1 rounds, whatever is posted |
| TaskRunner.NeverOversleeps | src/tasks/unix_task_runner.cc:175-183 | the poll timeout is never past the next deadline, is endless only when nothing waits, and is exact below 2^31 ms |
| TaskHistory.PostedRuns | src/tasks/unix_task_runner.cc:185-195 | a task posted while the runner has not quit runs within as many rounds as tasks are waiting, and one more |
| TaskHistory.QuitDrops | src/tasks/unix_task_runner.cc:185-195 | from Quit to the next start a posted task never runs |
| TaskHistory.StartTakes | src/tasks/unix_task_runner.cc:185-195 | from a start to the next Quit it is taken |
| TaskHistory.PostedSlot | src/tasks/unix_task_runner.cc:210-225 | a delayed task is due at the time it was posted plus its delay |
| TaskHistory.NeverEarly | src/tasks/unix_task_runner.cc:101-126 | it is never taken before that, over any events |
| TaskHistory.AdvancedIs | src/tasks/unix_task_runner.cc:84-90 | time advanced by tests counts for deadlines and rounds alike |
| TaskRunner.UnixTaskRunner.PostTask | src/tasks/unix_task_runner.cc:185-195 | appends, or drops the task after Quit |
| TaskRunner.UnixTaskRunner.PostDelayedTaskWithHandle | src/tasks/unix_task_runner.cc:210-225 | takes a new handle, and then, under the lock, inserts after equal deadlines |
| TaskRunner.UnixTaskRunner.CancelDelayedTask | src/tasks/unix_task_runner.cc:227-237 | the search and erase loop |
| TaskRunner.UnixTaskRunner.RunImmediateAndDelayedTask | src/tasks/unix_task_runner.cc:101-126 | the locked part, and the order in which the two tasks then run |
| Timers.StepInv | src/tasks/timer.cc:64-146 | every step of setting, executing, rescheduling and cancelling keeps the invariant of a timer |
| Timers.OneOutstanding | src/tasks/timer.cc:117-135 | never more than one execution of a timer is under way, and exactly one while it is active |
| Timers.OneShotOnce | src/tasks/timer.cc:64-106 | a one-shot callback runs at most once, and not at all once CancelTimer returned true |
| Timers.TargetsDoNotDrift | src/tasks/timer.cc:137-146 | the k-th execution is due exactly k intervals after the first target |
| Timers.CallbackStarts | src/tasks/timer.cc:90-121 | an active timer left to go on starts its callback |
| Timers.StaysActive | src/tasks/timer.cc:90-121 | and stays active until it is cancelled or, as a one-shot timer, begins |
| Timers.NoStartAfterCancel | src/tasks/timer.cc:91-106 | after a successful cancel no execution passes the locked test |
| Timers.CancelStops | src/tasks/timer.cc:64-121 | after a successful cancel a repeating callback starts at most once more, and only if it had passed the test |
| Timers.CancelComesTooLate | src/tasks/timer.cc:64-121 | after a successful cancel the callback can still start if and only if an execution had passed the locked test |
| Timers.CancelCanComeTooLate | src/tasks/timer.cc:96-110 | a run in which it does |
| Timers.BaseTimer.SetRelativeTimer | src/tasks/timer.cc:8-30 | creates one timer with a fresh id, or none without a callback |
| Timers.BaseTimer.CancelTimer | src/tasks/timer.cc:64-74 | returns true if and only if the timer was active |
| Timers.BaseTimer.EnterTimer | src/tasks/timer.cc:92-106 | the locked part of ExecuteTimer |
| Timers.BaseTimer.FinishTimer | src/tasks/timer.cc:117-121 | the end of ExecuteTimer |
| Config.SplitJoin | src/config/config.cc:536-548 | splitting a dotted path of non-empty parts gives the parts |
| Config.GetAfterSet | src/config/config.cc:380-411 | after Set the value is read at its path and below it, an object above it, and every other path reads as before |
| Config.MergeAbsorbs | src/config/config.cc:571-589 | merging an overlay again changes nothing |
| Config.FindMerged | src/config/config.cc:571-589 | what any path reads after a merge, from what it read in base and overlay |
| Config.DefaultsPresent | src/config/config.cc:528-534 | after apply_defaults every optional option has a value |
| Config.DefaultsKeepValue | src/config/config.cc:528-534 | apply_defaults keeps a plain value if and only if no default lies below it |
| Config.DefaultGiven | src/config/config.cc:528-534 | an optional option reads as what it was, or as its default if it had no value |
| Config.DefaultsApart | src/config/config.cc:528-534 | paths apart from all optional options are left alone |
| Config.SplitAtDot | src/config/config.cc:536-548 | a path splits at its dots, and empty parts count for nothing |
| Config.LoadedWins | src/config/config.cc:279-289 | a plain value in the JSON is the value after loading |
| Config.LoadTwice | src/config/config.cc:279-289 | loading the same JSON twice is loading it once, for all options, states and JSON |
| Config.Config.SplitPath | src/config/config.cc:536-548 | the getline loop |
| Config.Config.GetValue | src/config/config.cc:550-569 | the walk of Get |
| Config.Config.SetValue | src/config/config.cc:380-411 | Set: the loop that moves a pointer down the path and makes objects on the way |
| Config.Config.ApplyDefaults | src/config/config.cc:528-534 | the loop over the options |
| Config.Config.ParseJson | src/config/config.cc:279-289 | defaults, merge and validation |

## Left out

- Cron: overflow of time_t and of the year field, the worker thread and its priority queue, and tasks added or cancelled from inside a callback.
- Behavior trees: Delay, Timeout, Wait, SubTree and WaitForEvent, exceptions and re-entrant callbacks, pausing, ports and the blackboard. Timeout leaves its child running when it fails, and SubTree keeps its inner tree out of reach of reset, so neither has the structural invariant.
- JSON floating point: a number that does not become an integer is kept as its text once stod accepts it, so printing with %.17g is not modelled; the round trip is for float-free values. stod rejects what is too large for a double and, as in glibc, what is inexact below the least normal one.
- JsonRoundTrip.ParseDumpParse: is stated for texts whose value holds no float.
- JSON input as a stream: the parser's position is the remaining text, and the stream's end-of-file bit is that text being empty.
- IPC: reconnecting after Disconnect, the threads of the server, which serves one line at a time here, and wrap-around of the 64-bit id. FailPendingCalls completes the calls it took in any order, which covers the order of ids.
- WebSocket: the handshake text, the ping timer, reconnecting, and random masking keys, which are a parameter. The client's buffers are sequences that the methods reassign.
- HttpChunked.CutMatters: texts with a size read as -1 and data behind it are left to MinusOneCut, which says what both readings make of them but not for every text whether the two agree.
- HttpChunked.CutsDoNotMatter: the same.
- HttpChunked.CutsLag: where a negative size meets another line the readings part for good, and nothing is said of how.
- HTTP chunked bodies: sizes above 2^31 - 3, for which chunk_size + 2 overflows, wrap around here.
- HTTP client: redirects, cancelling, progress counts, Content-Length bodies; headers are kept as text, for a response announced as chunked.
- Services: logging, and exit(1), which is a result value here.
- SHA-1: the union of M and W is an array of bytes into which Process stores its first sixteen words at the end.
- Base64: the two tables are given as ranges of characters.
- Task runner: file-descriptor watches and the wake-up event; empty tasks.
- Timers: the task group that runs the executions, and when it does so.
- Config: command-line parsing, environment variables, typed access; objects are maps of subtrees and all other JSON values are leaves.
- Multipart: opening and reading the files, progress reports, ExtractBoundary, and the parser's input as string views into one buffer.
- The HTTP router, scripting, sockets, TLS, files, logging, metrics and presentation are not part of this model.
