# Verified model of LingShu

A Dafny 4.11 model of the algorithms and state machines of LingShu, an
operations agent for Kubernetes, with proofs of what they promise. Everything
that answers from outside (the database, the language model, the security
gateway, tools, clocks, cancellation) is an arbitrary function or an arbitrary
choice, so every theorem holds whatever it answers.

`dafny verify dfyconfig.toml` checks the whole project.

| module | what it models |
|---|---|
| `SessionGraph`, `SessionForest` | child and parent traversals over parent pointers that may form cycles, with listings cut after 50 rows |
| `DependencyGraph`, `ToolOrdering` | inferred dependencies between tool calls, Kahn's algorithm, the executors |
| `Calendar`, `CronFields`, `CronSchedule` | the Gregorian calendar, the cron field parser, the search for the next firing |
| `CronLiveness`, `CronStandard` | which expressions always have a next firing, and which mean what the `crontab` utility means by them |
| `SqlLexer`, `SqlSplitter`, `SqlRegions` | the SQL statement splitter, against a reference lexer, and what it does with comments and quotes |
| `AuditPipeline` | loggers, bounded queue, batching worker and drain as interleaved steps, and the methods that take them |
| `StableJson`, `ContentHash`, `EvidenceChain`, `ChainProperties` | the hashed form of an audit event, the per-session hash chain, its verification |
| `AuditTrail` | chain and pipeline together: which stored events the verification accepts |
| `FileFallback` | the rotating fallback log |
| `CircuitBreaker`, `CallExecution`, `ContextWindow` | the parts of the agent loop: operation limits, execution of tool calls, the message window |
| `AgentRun`, `MessagePairing`, `AgentLoop` | its runs as values, whether the messages of a run answer its tool calls, the loop itself |
| `Workflow` | the workflow interpreter, against a reference interpreter |

## What the code does and its text does not say

Each of these is proved of the model, with the exact condition where there is one.

- A recursive child listing and the parent chains agree below a session only
  if no listing on the way down has more than 50 rows (`SessionForest.TraversalsAreDual`);
  of 51 children the last is not found (`SessionForest.LastOfFamilyIsMissed`).
- Dependent execution runs the last call of each tool name, once, after all it
  depends on (`ToolOrdering.LastCallsAreRun`, `ToolOrdering.SortRespectsDependencies`),
  so it runs every call exactly when no two calls have the same tool name
  (`ToolOrdering.SortIsPermutation`); of two calls of one tool only the second runs
  (`ToolOrdering.SecondOfTwoRuns`).
- The search for the next firing looks at 366 calendar days, and what is left of
  the first may hold nothing. An expression with an open weekday always has a
  next firing exactly when month and day admit two dates of a leap year
  (`CronLiveness.FoundIffTwoDates`), one with an open day of the month always has
  one (`CronLiveness.FoundOnOpenDay`), and for any other the days of 400 years
  decide (`CronLiveness.FoundIffFoundInCycle`); one day of the month on one weekday,
  like "0 0 13 * 5", is never enough (`CronLiveness.DayAndWeekdayIsDropped`).
  Otherwise some run of the job ends for good (`CronLiveness.NeverSilentIff`),
  though all it misses is 366 or more days past its last firing
  (`CronSchedule.RunEndsAtGap`). So "0 0 1 1 *" is not found again after it fires
  on 1 January of a leap year
  (`CronLiveness.YearlyJobIsDropped`), and "0 0 29 2 *" asked for on 1 January is
  found only in leap years (`CronLiveness.LeapDayIsFoundInLeapYears`).
- Day of month and weekday must both match, where the INPUT FILES section of
  the `crontab` utility in IEEE Std 1003.1-2017 asks for either. The two select
  the same days exactly when the weekday or the date is `*`, or nothing is
  restricted (`CronStandard.RulesAgreeIff`); "0 0 13 * 5" is a case where they
  differ (`CronStandard.SomeFridayDiffers`). Of a field only its first number
  counts (`CronFields.OnlyFirstNumberCounts`), so `5-10` is 5 and `1,2` is 1
  (`CronFields.RangeAndListAreFirst`).
- Only an interval counted from an old run, or one that is not positive, is ever
  due at once (`CronSchedule.NextRunIsAhead`).
- The splitter gives the text back exactly when every dollar tag is ASCII
  (`SqlSplitter.NothingIsLost`); `$`, the byte 0xC8, `$` comes back changed
  (`SqlSplitter.ForeignTagIsChanged`).
- The counters of the audit manager add up after a stop exactly when since the
  drain no event was accepted by the queue and none is pending
  (`AuditPipeline.StoppedIsSettled`, and `AuditPipeline.LateEvent` for an input).
- `VerifyChain` reads the events of `List`, which are newest first
  (pkg/audit/audit.go:435-439, 795-810); in that order the events of a session are
  accepted only if there are fewer than two (`ChainProperties.NewestFirstSessionRejected`,
  and `ChainProperties.TwoEventsNewestFirst` for an input).
- In the order they were logged the events of a named session are accepted, except
  those of a session called "global" with an event without a session between two of
  them: events without a session are chained under that name
  (`ChainProperties.SessionEventsAcceptedIff`, `ChainProperties.GlobalSessionIsBroken`).
  The whole log, if no text of it holds a NUL, is accepted in that order exactly
  when it has one session (`ChainProperties.WholeLogAcceptedIffOneSession`).
- An event that is refused, falls back or is lost has moved the chain on, so the
  stored events of a session are accepted in log order exactly when none of it was
  missed between two of them (`AuditTrail.StoredAcceptedIff`).
- The text of a map determines it if no key holds a quote (`StableJson.TextIsUnique`);
  otherwise one member can read like two (`StableJson.OneReadsLikeTwo`).
- The fallback log goes on behind an unterminated last line, which then runs into
  the next record (`FileFallback.LinesGrowIff`, `FileFallback.RecordIsAddedIff`).
- `MaxL2Operations` 0 means 5, not unlimited as its comment says
  (pkg/agent/types.go:106, pkg/agent/circuit_breaker.go:43-49). A configuration
  without `MaxIterations` is replaced as a whole, `DryRun` included
  (`AgentRun.DryRunSurvivesIff`).
- A half-open breaker closes at any call that is no known write, also when its
  tool does not exist or the gateway stops it (`CallExecution.HalfOpenClosesIff`).
  A plain read is let through in every state (`CircuitBreaker.ReadReopens`).
- The loop reports neither failures nor successes to its breaker, so what opens
  it is one L2+ call too many and nothing else (`AgentLoop.AgentLoop.OpenIffOneTooMany`).
- A failed risk evaluation is reported without the call's id, and the overflow
  check can cut a turn in two. The window a run leaves is well paired exactly when
  it does not begin with a tool message and no evaluation failed in a turn still
  whole (`MessagePairing.RunPairedIff`), and so is each window sent to the model
  (`MessagePairing.SentPairedIff`); `MessagePairing.TrimmingOrphans` is a run that ends
  with a tool message whose call is gone.
- Key messages move behind the others when the window is trimmed, and some are
  lost exactly when they are over the budget on their own (`ContextWindow.KeysLostIff`).
- A workflow step's `OnFailure` is never read (`Workflow.OnFailureIsIgnored`),
  and no action can make a step repeat: it repeats only if it is its own next step
  (`Workflow.RepeatsByNextStep`).

## Model

| member | source | states |
|---|---|---|
| SessionGraph.DescendantsAreReached | pkg/session/session.go:411-453 | the descendants of a session are what walks over listed child links reach, itself excepted |
| SessionGraph.DescentIsShortest | pkg/session/session.go:427-450 | the depth of a descendant is the length of a shortest walk to it |
| SessionGraph.FrontierIsComplete | pkg/session/session.go:427-450 | when the queue of the traversal is empty, exactly the descendants have been found |
| SessionGraph.ClimbIsComplete | pkg/session/session.go:384-409 | a climb that cannot go on has met exactly the stored ancestors of its start, cycles included |
| SessionGraph.DescentIsListedAscent | pkg/session/session.go:384-453 | one session is below another iff it is above the other over pointers that the listings show |
| SessionGraph.Duality | pkg/session/session.go:384-453 | "below" and "above" agree for all sessions iff no pointer on the way down is missing from a listing |
| SessionForest.PagingIsComplete | pkg/session/session.go:276-382 | asking page after page with any positive limit lists every child once, in order |
| SessionForest.PageHolds | pkg/session/session.go:276-382 | a page holds the children from its offset on in order, 50 if no positive number is asked for and never more than 500, is short only at the end, and says whether there are more |
| SessionForest.ListedMeansBeforeCut | pkg/session/session.go:281-292 | a listing without a limit shows a child iff it is among the first 50, and none if its query fails |
| SessionForest.GetChildren | pkg/session/session.go:411-453 | an empty id is an error; without recursion the listing or its error; with it, breadth-first order of exactly the descendants, whatever queries fail |
| SessionForest.Explore | pkg/session/session.go:427-450 | the queue loop ends on every parent relation and leaves every found session expanded, in non-decreasing depth |
| SessionForest.FoundIsBreadthFirst | pkg/session/session.go:427-452 | what the loop leaves is duplicate-free, complete and ordered by distance |
| SessionForest.GetParentChain | pkg/session/session.go:384-409 | the chain is root first, ends at the session, links neighbours by parent, repeats nothing, holds exactly the stored ancestors, and ends on cycles |
| SessionForest.HiddenMeansCutOff | pkg/session/session.go:281-292 | pointers missing from listings are those of children past the 50th or of failing queries |
| SessionForest.TraversalsAreDual | pkg/session/session.go:384-453 | a session is below `p` iff `p` is on its chain, for all sessions, exactly when no listing below `p` is cut short |
| SessionForest.ListedBelowIsAbove | pkg/session/session.go:384-453 | what is listed below a session always has it among its ancestors |
| SessionForest.LaterChildrenAreMissed | pkg/session/session.go:411-453 | the 51st child and those after it are not found below their session, though it is on their chains |
| SessionForest.LastOfFamilyIsMissed | pkg/session/session.go:411-453 | a table with 51 children where the last is missed |
| DependencyGraph.EmittedIsUnblocked | pkg/agent/parallel.go:301-341 | the tools emitted are exactly those that depend on no cycle and on no missing name |
| DependencyGraph.OrdersEmitTheSame | pkg/agent/parallel.go:318-341 | every order of the first queue leads to the same set of tools |
| DependencyGraph.RankedIsEmitted | pkg/agent/parallel.go:301-341 | if a rank falls along every dependency, nothing is left out |
| DependencyGraph.LeftOutPath | pkg/agent/parallel.go:301-341 | from a tool left out, dependencies lead on without end or to a missing name |
| ToolOrdering.InferDependencies | pkg/agent/parallel.go:254-273 | the inferred names are those of the other calls that the pattern table makes a call depend on, in order |
| ToolOrdering.DependsIff | pkg/agent/parallel.go:276-298 | exactly which pairs of calls depend: four kinds of change on three kinds of lookup with the same non-empty `name`, and logs on events whose `name` is their `pod_name` |
| ToolOrdering.InferredRankFalls | pkg/agent/parallel.go:276-298 | the inferred relation is acyclic: a rank on names falls along it |
| ToolOrdering.InferredGraphIsRanked | pkg/agent/parallel.go:239-298 | so does a rank on the whole graph built from any calls |
| ToolOrdering.TopologicalSort | pkg/agent/parallel.go:301-341 | for every order of the first queue and every graph: of entries with one name the last tool, no name twice, names without dependencies first, and none left out whose dependencies are emitted; with distinct names each after all it depends on |
| DependencyGraph.FlatOrder | pkg/agent/parallel.go:301-341 | where nothing depends on a tool with dependencies, that is a dependency order whatever names come twice |
| ToolOrdering.SortIsPermutation | pkg/agent/parallel.go:206-225 | no call is lost or invented iff no two calls share a name |
| ToolOrdering.LastCallsAreRun | pkg/agent/parallel.go:206-225 | what is run is the last call of each name asked for, once |
| ToolOrdering.SecondOfTwoRuns | pkg/agent/parallel.go:206-225 | of two calls of one tool, whatever their arguments, just the second is run |
| ToolOrdering.SortIsDependencyOrder | pkg/agent/parallel.go:254-341 | for any calls, the names sorted are a dependency order of the inferred graph |
| ToolOrdering.SortRespectsDependencies | pkg/agent/parallel.go:206-225 | for any calls, no call that is run comes before one it depends on |
| ToolOrdering.LookupsComeFirst | pkg/agent/parallel.go:206-298 | so a lookup of what a change names comes before it, and events of a pod before its logs |
| ToolOrdering.RegisteredAreRun | pkg/agent/parallel.go:97-135 | in every list of answers, whole or cut short, a call is answered with the outcome of its tool iff that is registered, and as not found iff not |
| ToolOrdering.ExecuteDependent | pkg/agent/parallel.go:206-225 | results answer, one by one, the last calls of each name in a dependency order, and stop right after the first cancellation |
| ToolOrdering.ExecuteConcurrent | pkg/agent/parallel.go:57-71 | whatever order calls finish in, result `i` answers call `i` |
| ToolOrdering.ExecuteInBatches | pkg/agent/parallel.go:74-95 | results are a prefix of all answers that ends at a batch boundary, short only when cancelled there |
| ToolOrdering.ExecuteSequential | pkg/agent/parallel.go:189-203 | results are a prefix of all answers, short only at the first cancellation |
| Calendar.DateOfDayNumber | pkg/scheduler/scheduler.go:326-344 | dates and day numbers determine each other, in every year |
| Calendar.NextDay | pkg/scheduler/scheduler.go:326-330 | the next day number is the next calendar date |
| Calendar.MonthLengths | pkg/scheduler/scheduler.go:326-344 | the lengths of the twelve months in a common and in a leap year |
| Calendar.LeapYears | pkg/scheduler/scheduler.go:326-344 | a year is a leap year iff its last two digits say so, or for a century its first ones |
| Calendar.KnownDates | pkg/scheduler/scheduler.go:326-344 | 1 January 1970 is day 719162 and a Thursday, 29 February 2000 a Tuesday, and there is no 29 February 1900 |
| CronFields.ParseCronFields | pkg/scheduler/scheduler.go:291-308 | the loop cuts an expression into its words |
| CronFields.FieldsReadBack | pkg/scheduler/scheduler.go:291-308 | fields written with any number of blanks around them are read back as they were |
| CronFields.ParseCronField | pkg/scheduler/scheduler.go:367-399 | exactly the valid fields parse, and a value of the range is listed iff the field admits it |
| CronFields.OnlyFirstNumberCounts | pkg/scheduler/scheduler.go:387-396 | a field of digits followed by anything else means the number of those digits, within 64 bits |
| CronFields.StarsAndSteps | pkg/scheduler/scheduler.go:367-386 | `*` means every value, and `*/` with digits a step of the number they write, which must be positive and fit 64 bits, whatever follows |
| CronFields.AdmittedValues | pkg/scheduler/scheduler.go:367-399 | the values that a star, a step and a number admit, in terms of the number written |
| CronFields.DecimalOfFirst | pkg/scheduler/scheduler.go:377-393 | a digit in front of others is worth its power of ten |
| CronFields.WrittenIsRead | pkg/scheduler/scheduler.go:377-393 | a number as it is written is read back |
| CronFields.SignsAndBlanks | pkg/scheduler/scheduler.go:377-393 | signs are taken and blanks before a number skipped |
| CronFields.OtherFieldsAreMalformed | pkg/scheduler/scheduler.go:387-396 | a field that begins with anything else, like the name of a month, is an error |
| CronFields.StepValues | pkg/scheduler/scheduler.go:371-386 | a step lists every step-th value of the range, also when the last addition wraps around |
| CronSchedule.FindNextTime | pkg/scheduler/scheduler.go:310-365 | nothing for invalid fields; else the least minute after `now` at which all five fields match within 366 calendar days, or none iff there is none |
| CronSchedule.NextIsUnique | pkg/scheduler/scheduler.go:310-365 | that answer is determined by fields and time |
| CronSchedule.RunEnumeratesFirings | pkg/scheduler/scheduler.go:310-365 | asking again and again lists all firings in order and skips none |
| CronLiveness.NeverSilentIff | pkg/scheduler/scheduler.go:310-365 | a job that fires at all is found again after each of its firings, for ever, iff a next firing is found whatever the time asked at |
| CronLiveness.FoundIffFoundInCycle | pkg/scheduler/scheduler.go:326-364 | a next firing is always found iff one of the next 365 days matches after each day of one 400-year cycle |
| CronLiveness.AllDatesButOneCome | pkg/scheduler/scheduler.go:326-344 | the 365 days after a day hold every month and day of a leap year but one: that of the day itself, or 29 February |
| CronLiveness.FoundIffTwoDates | pkg/scheduler/scheduler.go:326-364 | with an open weekday a next firing is always found iff month and day admit at least two dates of a leap year |
| CronLiveness.FoundOnOpenDay | pkg/scheduler/scheduler.go:326-364 | with an open day of the month a next firing is always found |
| CronLiveness.DayAndWeekdayIsDropped | pkg/scheduler/scheduler.go:326-364 | one day of the month on one weekday, in whatever months, is not always found |
| CronLiveness.NextExists | pkg/scheduler/scheduler.go:282-399 | the next firing exists from any time if the day of the month, or both month and weekday, are open |
| CronLiveness.YearlyJobIsDropped | pkg/scheduler/scheduler.go:326-364 | "0 0 1 1 *" asked for when it fires in a leap year is not found, though it fires a year later |
| CronLiveness.LeapDayIsFoundInLeapYears | pkg/scheduler/scheduler.go:326-364 | "0 0 29 2 *" is found from 1 January iff that year is a leap year, though it fires in later years |
| CronStandard.RulesAgreeIff | pkg/scheduler/scheduler.go:336-344 | requiring date and weekday selects the same days as the standard's rule iff the weekday or the date is `*`, or nothing is restricted |
| CronStandard.SomeFridayDiffers | pkg/scheduler/scheduler.go:336-344 | a Friday that the standard selects for "0 0 13 * 5" and the scheduler does not |
| CronSchedule.CalculateNextRun | pkg/scheduler/scheduler.go:261-280 | the next run of each kind of schedule |
| SqlLexer.JoinedPieces | pkg/db/migrate.go:134-249 | the pieces joined with `;` are as long as the text plus what re-encoding tags adds, and equal it iff that is nothing |
| SqlLexer.ReadInParts | pkg/db/migrate.go:144-241 | a text read in two parts at a token boundary gives the same pieces |
| SqlLexer.CutSplits | pkg/db/migrate.go:232-238 | at a top-level semicolon, both sides are read as if alone |
| SqlLexer.OnePieceIfNoCut | pkg/db/migrate.go:232-238 | there is one piece iff no semicolon is met at top level |
| SqlLexer.PiecesStandAloneIff | pkg/db/migrate.go:134-249 | every piece is read back as itself iff no tag was re-encoded |
| SqlLexer.Utf8Decodes | pkg/db/migrate.go:144-175 | a tag byte outside ASCII becomes the two bytes that UTF-8 has for its number |
| SqlSplitter.ReadToken | pkg/db/migrate.go:144-241 | one turn of the loop, with at most one of the five flags set, reads the token of the reference lexer |
| SqlSplitter.SplitSQLStatements | pkg/db/migrate.go:134-249 | the statements are the pieces between cuts, the last one trimmed and dropped if blank |
| SqlSplitter.NothingIsLost | pkg/db/migrate.go:134-249 | joined, the pieces give the text back iff its dollar tags are ASCII |
| SqlSplitter.ForeignTagIsChanged | pkg/db/migrate.go:144-175 | a text of three bytes whose tag is not ASCII comes back changed |
| SqlSplitter.SplittingAgainIsStable | pkg/db/migrate.go:134-249 | splitting pieces again leaves all of them whole iff the dollar tags are ASCII |
| SqlSplitter.StatementsAreWhole | pkg/db/migrate.go:134-249 | splitting a returned statement again yields just its trimmed text, or nothing if blank |
| SqlSplitter.TrimmedStatementsAreFixed | pkg/db/migrate.go:134-249 | with ASCII tags a returned statement, trimmed, is split into itself or nothing |
| SqlSplitter.SplitAtCut | pkg/db/migrate.go:232-248 | a text splits at a cut as its two sides do |
| SqlRegions.RegionIsWhole | pkg/db/migrate.go:144-241 | a comment, a quote or an ASCII dollar quote goes up to the first closing mark behind its opening mark, whatever it holds, and what follows is read at top level |
| SqlRegions.OpenRegionTakesRest | pkg/db/migrate.go:144-241 | one that is not closed takes the rest of the text |
| SqlRegions.PlainThenCut | pkg/db/migrate.go:226-241 | plain text up to a semicolon outside all of them is a piece |
| SqlRegions.OtherByteIsCopied | pkg/db/migrate.go:144-241 | where no mark and no cut begins, the byte is copied |
| SqlRegions.RegionIsOneStatement | pkg/db/migrate.go:134-249 | such a region alone, closed or not, is one statement |
| SqlRegions.RegionStaysInStatement | pkg/db/migrate.go:134-249 | and in front of a text it becomes the beginning of its first statement |
| AuditPipeline.StepKeepsInvariant | pkg/audit/audit.go:130-339 | every step of every participant keeps conservation, order and the queue bound |
| AuditPipeline.RunKeepsInvariant | pkg/audit/audit.go:130-339 | in every interleaving, total = flushed + fallback + dropped + queued + batched + in flight + pending, and handed ++ batch ++ queue = accepted |
| AuditPipeline.StoppedIsSettled | pkg/audit/audit.go:130-152 | after a stop the batch is empty, the queue holds only late events, and total = flushed + fallback + dropped iff there are none |
| AuditPipeline.LateEvent | pkg/audit/audit.go:130-152 | a run in which an event logged after the stop is queued and never counted again, or settled if the queue has no room |
| AuditPipeline.Manager.Log | pkg/audit/audit.go:278-339 | an event is queued iff there is room, counted either way, and the call is a sequence of steps |
| AuditPipeline.Manager.FlushBatch | pkg/audit/audit.go:207-239 | a batch is counted once, as stored, fallen back or dropped |
| AuditPipeline.Manager.Receive | pkg/audit/audit.go:154-176 | the worker takes the oldest event and hands on a full batch |
| AuditPipeline.Manager.FlushRemaining | pkg/audit/audit.go:186-205 | the drain empties the queue in order and every event of it is counted |
| StableJson.StableJSON | pkg/audit/audit.go:769-791 | the text is that of the members in increasing key order |
| StableJson.OrderIsUnique | pkg/audit/audit.go:775-779 | there is one increasing list of given keys |
| StableJson.TextIsStable | pkg/audit/audit.go:769-791 | every iteration order of the map gives the same text |
| StableJson.TextIsUnique | pkg/audit/audit.go:769-791 | maps with the same text are equal if their keys hold no quote and no value with the comma or brace behind it reads as another value |
| StableJson.OneReadsLikeTwo | pkg/audit/audit.go:769-791 | a map of one member, with quotes in its key, has the text of a map of two |
| ContentHash.StreamDecodes | pkg/audit/audit.go:727-767 | the hashed stream of NUL-free fields can be read back |
| ContentHash.StreamIsInjective | pkg/audit/audit.go:727-767 | equal streams come from equal lists of fields |
| ContentHash.EntriesAreUnique | pkg/audit/audit.go:727-767 | equal lists of fields come from equal texts, with the same optional fields present |
| ContentHash.ContentIsUnique | pkg/audit/audit.go:727-767 | the stream determines the hashed texts |
| ContentHash.FieldsAreUnique | pkg/audit/audit.go:727-791 | it determines the event's maps too, if those can be read back from their texts |
| EvidenceChain.HashEventContent | pkg/audit/audit.go:727-767 | the digest is that of the content's stream |
| EvidenceChain.ChainState.ComputeChainHash | pkg/audit/audit.go:693-723 | the event links to its session's last hash and becomes it; other sessions keep theirs |
| EvidenceChain.ChainGrows | pkg/audit/audit.go:693-723 | one more event keeps the whole log chained |
| EvidenceChain.VerifyLinks | pkg/audit/audit.go:811-840 | accepts iff every event's stored hash follows from the one before it |
| ChainProperties.LastHashIsFold | pkg/audit/audit.go:693-723 | the last hash of a session depends on its own contents alone |
| ChainProperties.HashesDiffer | pkg/audit/audit.go:693-723 | no two events of a log have the same chain hash, if their contents tell their sessions |
| ChainProperties.LinkIffNext | pkg/audit/audit.go:811-840 | within a session a link holds iff the second event is the next after the first |
| ChainProperties.LinkIffNextInSession | pkg/audit/audit.go:811-840 | in the whole log a link holds iff the second event is the next of the first one's session, if contents tell their sessions |
| ChainProperties.AcceptedIffConsecutive | pkg/audit/audit.go:811-840 | any selection of logged events is accepted iff each is the next of its predecessor's session |
| ChainProperties.AcceptedIffNoneMissing | pkg/audit/audit.go:811-840 | events of one session in log order are accepted iff none between them is missing |
| ChainProperties.WholeSessionAccepted | pkg/audit/audit.go:795-840 | all events of a session in log order are accepted |
| ChainProperties.KeyAcceptedIff | pkg/audit/audit.go:811-840 | logged events of one key in log order are accepted iff none of that key is left out between two of them, whatever their texts |
| ChainProperties.SessionEventsAcceptedIff | pkg/audit/audit.go:795-840 | all events of a named session in log order are accepted iff it is not called "global" or no event without a session was logged between two of them |
| ChainProperties.GlobalSessionIsBroken | pkg/audit/audit.go:699-702 | three events where the session "global" is rejected in log order |
| ChainProperties.WholeLogAcceptedIffOneSession | pkg/audit/audit.go:811-840 | the whole log in log order is accepted iff it has one session, if contents tell their sessions |
| ChainProperties.NewestFirstIsRejected | pkg/audit/audit.go:435-439 | newest first, events are accepted iff there are fewer than two |
| ChainProperties.NewestFirstSessionRejected | pkg/audit/audit.go:795-840 | newest first, as VerifyChain lists them, the events of a session are accepted iff there are fewer than two, whatever their texts |
| ChainProperties.NewestFirstEventsRejected | pkg/audit/audit.go:795-840 | so are those of all sessions together, if no text holds a NUL |
| ChainProperties.TwoEventsNewestFirst | pkg/audit/audit.go:795-840 | two events accepted in log order and rejected newest first |
| ChainProperties.LastHashBindsList | pkg/audit/audit.go:811-840 | accepted lists of equal length with the same last hash agree on every chain hash, and on content hashes after the first |
| ChainProperties.LastHashBindsContent | pkg/audit/audit.go:727-840 | and on all content after the first event |
| AuditTrail.RunAccounts | pkg/audit/audit.go:278-339 | with serialized calls, at every moment of every run, the events stored or still waiting are in log order and are all those offered but the missed ones |
| AuditTrail.StoredAcceptedIff | pkg/audit/audit.go:207-339 | the stored events of a session pass the check in log order iff none of it was refused, fell back or was lost between two of them |
| FileFallback.SplitLines | pkg/audit/file_fallback.go:326-339 | the lines of the text, the unterminated rest last |
| FileFallback.SplitInvertsWriting | pkg/audit/file_fallback.go:197-205 | lines written with a newline each are split into the same lines |
| FileFallback.WritingInvertsSplit | pkg/audit/file_fallback.go:326-339 | writing the lines of a text gives it back iff it is empty or ends in a newline |
| FileFallback.LinesGrowIff | pkg/audit/file_fallback.go:197-205 | a line written at the end of a text becomes one more line iff the text is empty or ends in a newline |
| FileFallback.FileReadsBack | pkg/audit/file_fallback.go:250-273 | a file read gives the records written to it |
| FileFallback.RecordIsAddedIff | pkg/audit/file_fallback.go:197-273 | a record written to any file is read back after those there iff the file ends in a newline or is empty, or the rest behind its last newline is no record and does not disturb this one |
| FileFallback.FileFallback.constructor | pkg/audit/file_fallback.go:36-117 | on any directory, whatever its files hold: goes on with the newest file unless it is full |
| FileFallback.FileFallback.CreateNewFile | pkg/audit/file_fallback.go:119-171 | adds an empty file and keeps the newest `maxFiles` |
| FileFallback.FileFallback.WriteBatch | pkg/audit/file_fallback.go:173-218 | when enabled the directory is that of the rotation rule and every file written stays within the limit or holds one record; a batch that fits goes to the end of the newest file and nothing is begun or lost; behind a newline all encodable events are added in order, and behind an unterminated line the first runs on from it |
| FileFallback.BatchTextIsFileText | pkg/audit/file_fallback.go:191-205 | what a batch writes is the file of its encodable records |
| FileFallback.BatchFits | pkg/audit/file_fallback.go:191-215 | if the newest file has room for it, the batch goes to its end and no other file changes |
| FileFallback.FittingNeedsNoFile | pkg/audit/file_fallback.go:199-203 | and no file is begun |
| FileFallback.BatchIsEconomical | pkg/audit/file_fallback.go:191-215 | over any batch, between neighbouring files written the earlier one had no room for the first line of the later, and files before them are as they were, unless removed |
| FileFallback.FewRotations | pkg/audit/file_fallback.go:199-203 | the number of files begun, times one more than the limit, is at most twice what is in the newest file and the batch |
| FileFallback.FewCharactersFewFiles | pkg/audit/file_fallback.go:147-203 | so with few enough characters there never are more than `maxFiles` files, and nothing is lost |
| FileFallback.FileFallback.ReadAll | pkg/audit/file_fallback.go:227-273 | returns a suffix of what was found and written, all of it if there were never more than `maxFiles` files |
| FileFallback.FileFallback.Clear | pkg/audit/file_fallback.go:275-297 | removes every file and starts over |
| CircuitBreaker.CircuitBreaker.Allow | pkg/agent/circuit_breaker.go:58-100 | the answer and the new state for every state and kind of call |
| CircuitBreaker.ResetForgets | pkg/agent/circuit_breaker.go:124-133 | only what came after the last reset matters |
| CircuitBreaker.L2Bounded | pkg/agent/circuit_breaker.go:73-81 | since the last reset at most `maxL2Ops` L2+ calls are admitted, in any use |
| CircuitBreaker.AllAdmittedIff | pkg/agent/circuit_breaker.go:58-100 | a new or reset breaker admits every call of a run iff it has at most `maxL2Ops` L2+ calls and nowhere more than `maxConsecWrites` writes in a row |
| CircuitBreaker.WritesBounded | pkg/agent/circuit_breaker.go:83-97 | at most `maxConsecWrites` writes are admitted between two other admitted calls |
| CircuitBreaker.OpenBlocksWrites | pkg/agent/circuit_breaker.go:62-65 | open, it stays open and admits no write until a reset |
| CircuitBreaker.OpenIffTripped | pkg/agent/circuit_breaker.go:73-121 | it is open iff an L2+ call beyond the limit was counted, or a third failure in a row after an L2+ call |
| CircuitBreaker.OpenIffOverLimit | pkg/agent/circuit_breaker.go:58-121 | asked for calls alone it is open iff one L2+ call more than the limit was counted, none is counted after that, and the failure rule plays no part |
| CircuitBreaker.RunIsSound | pkg/agent/circuit_breaker.go:58-133 | counters stay within their limits unless the state says so |
| CallExecution.ResultsAnswerCalls | pkg/agent/loop.go:417-569 | one result per call in order, with the call's id iff its risk evaluation did not fail |
| CallExecution.RunsIff | pkg/agent/loop.go:420-603 | a tool runs iff it is known, admitted by the breaker after the calls before, cleared by gateway and user, and no dry run holds it back |
| CallExecution.OutcomesAre | pkg/agent/loop.go:417-603 | when each of the seven outcomes is reported, and what the breaker is asked for each call |
| CallExecution.ReportsAreTrue | pkg/agent/loop.go:541-543 | the results name exactly the tools that ran, with their success |
| CallExecution.L2RunsAdmitted | pkg/agent/loop.go:421-439 | the L2+ tools that run are among the L2+ calls the breaker admitted |
| CallExecution.DryRunOnlyReads | pkg/agent/loop.go:587-603 | a dry run runs only L0 tools and rolls nothing back |
| CallExecution.RollbackIsOrderly | pkg/agent/loop.go:521-565 | a rollback follows a failed run of the same call and the snapshot taken before it |
| CallExecution.RolledBackIff | pkg/agent/loop.go:521-565 | a snapshot of a call is tried iff it gets so far, is wanted and names its resource, and it is rolled back iff the snapshot was taken, rollbacks are on and the tool failed |
| CallExecution.HalfOpenClosesIff | pkg/agent/loop.go:420-440 | a half-open breaker closes iff the call is no known write, executed or not |
| ContextWindow.ContextManager.AddAssistantWithToolCalls | pkg/agent/context.go:68-89 | appends the message and keeps the token count the sum over messages |
| ContextWindow.PlainTextTokens | pkg/agent/context.go:296-314 | a quarter of a token for each plain character, rounded down, and one |
| ContextWindow.MixedTextTokens | pkg/agent/context.go:296-326 | and half a token for each Chinese character besides the quarters of its other two bytes |
| ContextWindow.ContextManager.MarkKeyContext | pkg/agent/context.go:255-264 | marks exactly the messages at given indices that exist |
| ContextWindow.ContextManager.TrimContext | pkg/agent/context.go:152-234 | the loops leave the window that the trimming theorems below speak of, and the token count is its sum |
| ContextWindow.TrimEndsWithin | pkg/agent/context.go:152-234 | trimming ends within the budget iff it is not negative |
| ContextWindow.TrimDropsShortestPrefix | pkg/agent/context.go:161-196 | while the key messages fit, they all stay, and of the others all but the shortest prefix that makes room, each in order |
| ContextWindow.TrimKeepsNewestKeys | pkg/agent/context.go:198-234 | otherwise just the longest fitting suffix of the key messages stays |
| ContextWindow.KeysLostIff | pkg/agent/context.go:152-234 | a key message is lost iff there are some and they exceed the budget alone |
| ContextWindow.TrimLeavesSuffix | pkg/agent/context.go:161-196 | without key messages trimming leaves a suffix of the window |
| ContextWindow.AdvancedContextManager.TrimContext | pkg/agent/context.go:379-392 | every strategy leaves what it promises, with the token count its sum; only a failing summary is an error, and changes nothing |
| ContextWindow.RecentEndsWithin | pkg/agent/context.go:463-489 | keeping recent messages keeps the longest fitting suffix |
| ContextWindow.SummaryEndsWithin | pkg/agent/context.go:423-461 | after a summary the window is within the budget iff the summary is no longer than what the newer half leaves free |
| AgentLoop.AgentLoop.constructor | pkg/agent/loop.go:55-81 | limits in force after defaults |
| AgentRun.LimitsInForce | pkg/agent/loop.go:60-79 | the limits are those configured if they are positive and an iteration limit is given, and fixed ones else |
| AgentLoop.AgentLoop.ExecuteTools | pkg/agent/loop.go:417-569 | results, breaker state and effects are those of handling the calls one after the other, each from the state the one before left |
| AgentLoop.AgentLoop.ExecuteWithTools | pkg/agent/loop.go:119-405 | the model is sent at most as many windows as the iteration limit, each the one its turns before make; the run stops at the first iteration that is cancelled, timed out, at the limit, failed or without tool calls, with the state, results and window of exactly the iterations before |
| AgentRun.EveryCallAnswered | pkg/agent/loop.go:326-338 | every requested call of a run has one result, in request order |
| AgentRun.RunIsCounted | pkg/agent/loop.go:417-440 | over a run the breaker's state and the L2+ tools run are accounted for by what it was asked |
| AgentLoop.AgentLoop.L2RunsBounded | pkg/agent/loop.go:417-569 | over all runs of one loop at most `maxL2Ops` L2+ tools run |
| AgentLoop.AgentLoop.OpenIffOneTooMany | pkg/agent/loop.go:417-440 | over all runs of one loop its breaker is open iff one L2+ call beyond the limit was counted |
| AgentRun.DryRunsOnlyRead | pkg/agent/loop.go:587-603 | under a dry run a whole run executes only L0 tools |
| AgentRun.RollbacksFollowFailures | pkg/agent/loop.go:545-565 | every rollback of a run restores the snapshot of a call that ran and failed just before |
| AgentRun.RunRollsBackIff | pkg/agent/loop.go:521-565 | in the effects of a run, what is done for each call holds its snapshot and its rollback iff they should be made |
| AgentRun.RoomIsEnough | pkg/agent/loop.go:239-260 | after the overflow check the window is within the target, and with a reply of up to three quarters of the budget within the budget |
| AgentRun.RoomDropsFront | pkg/agent/loop.go:239-260 | it changes nothing unless the next request would exceed the budget, and then drops the shortest beginning that leaves what the reply leaves of the budget, or a quarter |
| AgentRun.InputIsSent | pkg/agent/loop.go:131-168 | the first request ends with the input of the user, runbooks before it |
| AgentRun.ResultsAreSent | pkg/agent/loop.go:306-338 | every request after a turn is the one before, with room made, and behind it the reply and the whole text of each result, in order |
| AgentRun.AnswerIsLastReply | pkg/agent/loop.go:189-304 | how a run ends, by what stops it; the answer is the text of the last reply and the last message of the window, a fixed text at the iteration limit, and empty otherwise |
| MessagePairing.ConversationPaired | pkg/agent/loop.go:306-338 | untrimmed turns are well paired iff no risk evaluation failed |
| MessagePairing.CutConversationPaired | pkg/agent/loop.go:239-338 | turns cut anywhere are well paired iff they do not begin with a tool message and no evaluation failed in a turn left whole |
| MessagePairing.RunPairedIff | pkg/agent/loop.go:168-384 | the window any run leaves is an end of its whole conversation, and well paired iff it does not begin with a tool message and no evaluation failed in a turn still whole |
| MessagePairing.SentPairedIff | pkg/agent/loop.go:168-238 | so is every window sent to the model |
| MessagePairing.UntrimmedPairedIff | pkg/agent/loop.go:168-384 | a window from which nothing was trimmed is well paired iff no evaluation failed |
| MessagePairing.TrimmingOrphans | pkg/agent/loop.go:239-260 | a run whose overflow check leaves a tool message without its call |
| Workflow.CompletedIffNoError | pkg/workflow/engine.go:84-131 | every run that ends is completed iff it has no error, and cancelled iff the context stopped it |
| Workflow.VisitsOnce | pkg/workflow/engine.go:84-128 | if a rank falls along the edges, no step has its turn twice |
| Workflow.OnFailureIsIgnored | pkg/workflow/engine.go:108-113 | failure steps make no difference to any run |
| Workflow.RepeatsByNextStep | pkg/workflow/engine.go:115-123 | a step follows itself only if it is its own next step, whatever its actions jump to |
| Workflow.RankedRunsEnd | pkg/workflow/engine.go:84-128 | a ranked run ends within the rank of its start, whatever tools, variables and context do |
| Workflow.RankedEnds | pkg/workflow/engine.go:84-128 | so the reference gives every ranked run an end |
| Workflow.EndsIffNotForever | pkg/workflow/engine.go:84-128 | the reference gives an end iff the loop does not go on for ever |
| Workflow.MeaningStays | pkg/workflow/engine.go:84-128 | and the same one for any number of turns that is enough |
| Workflow.ForeverIffInLoop | pkg/workflow/engine.go:84-128 | undisturbed, a run goes on for ever iff it starts in a set of steps closed under successors |
| Workflow.WorkFlowEngine.ExecuteAction | pkg/workflow/engine.go:198-267 | the effect of each kind of action on variables, results and place |
| Workflow.WorkFlowEngine.ExecuteActions | pkg/workflow/engine.go:101-119 | actions run up to the first jump or failure; a jump overrides an exit |
| Workflow.WorkFlowEngine.Execute | pkg/workflow/engine.go:62-132 | on every run that ends, cycles or not, the engine agrees with the recursive reference on status, place, data, error and steps visited |
| Workflow.NumberGuards | pkg/workflow/engine.go:134-176 | a step guarded by a number acts iff that is strictly above, or strictly below, the expected one |
| Workflow.TextGuards | pkg/workflow/engine.go:134-176 | by a text iff it is the expected one, is not, has it in the middle, or matches |
| Workflow.OtherGuards | pkg/workflow/engine.go:134-176 | without the variable, or by a guard of no known kind, iff it is inverted |
| Workflow.InvertedGuards | pkg/workflow/engine.go:134-176 | an inverted guard lets the step act exactly where the plain one does not |
| Workflow.RestartsAreIssues | pkg/workflow/builtin_workflows.go:41-63 | the built-in look at the restart count finds issues for three restarts and none for zero |
| Workflow.StepLeads | pkg/workflow/engine.go:101-123 | where a step leads: the first next step among its actions, nowhere after an exit, or its own next step |
| Workflow.ToolCallEffect | pkg/workflow/engine.go:198-267 | a tool that answers has its result kept and its data put over the variables; an unknown or failing one changes neither |
| Workflow.OtherEffects | pkg/workflow/engine.go:198-267 | the effects of the other actions |
| Workflow.ActionsAreChecked | pkg/workflow/engine.go:101-119 | the context is checked once before each action, and the first check that finds it done ends the step |
| Workflow.CancelledAtFirstDone | pkg/workflow/engine.go:84-119 | a run is cancelled iff a check finds the context done, at the first that does |
| Workflow.MeaningMoves | pkg/workflow/engine.go:84-128 | the reference follows the turns of the loop |

## Left out

- I/O, locks, goroutines, logging, wall-clock time, daylight saving time and panics: atomic steps, oracles and a fixed UTC offset stand for them.
- Kubernetes clients and tools, language model and retrieval providers, HTTP handlers, the terminal interface, commands, report rendering: no algorithm to state.
- SQL text, drivers, transactions and rows: a session table is a list of rows with possibly failing queries. Creation times are distinct, so the listing order is fixed.
- JSON codecs: the fallback log assumes a codec that writes one non-empty line per record and reads it back; the loss of precision of a database round trip before `VerifyChain` is not modelled.
- SHA-256 (section 6.2 of FIPS 180-4): a digest is its preimage, so there are no collisions.
- EvidenceChain.ChainState.ComputeChainHash: does not model two loggers between reading and writing the last hash; calls are serialized. It advances the chain also for an event dropped later, as the source does.
- ContentHash.ContentIsUnique: says nothing of texts that contain NUL, where streams are ambiguous.
- StableJson: nested values are opaque texts, and keys are taken as written.
- CronFields.ParseCronField: covers the five ranges of a cron expression, not arbitrary bounds.
- CronLiveness: with both day of the month and weekday restricted by steps, the exact condition is the one over a 400-year cycle, and no shorter one is given.
- AuditTrail: covers calls of `Log` that do not overlap, since chain and queue are not updated together.
- CronSchedule: the job table (adding, pausing, resuming, executing jobs) would only add map updates.
- FileFallback: no I/O errors, sizes in one-byte characters, and file names that sort in the order of creation.
- AuditPipeline: a worker that panics and insertion retries are outcomes of a flush.
- AgentLoop.AgentLoop.ExecuteWithTools: does not model events, thinking history, token usage totals, session records, audit records and dead-loop warnings, which nothing in the loop reads. Parsing of replies and texts of results are oracles.
- Workflow.WorkFlowEngine.Execute: requires that the run ends, since a method must end; `Turn`, `Move`, `EndsIffNotForever` and `ForeverIffInLoop` cover the others. Tool parameters with variables substituted are left to the tool oracle, because substitution depends on map iteration order.
- Integers are unbounded where the source's 64 bits cannot be reached (counters, sizes, token sums); the step of a cron field wraps around as in the source.
- Workflow numbers are reals: rounding and NaN are not modelled.
