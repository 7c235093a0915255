# Verified core of gwx

gwx is a command line tool and MCP server for Google Workspace. Most of it passes requests on; this project
models the parts that have state, loops or concurrency of their own, and proves what they are relied on for.

- **The skill engine** (`Text`, `Json`, `Rescan`, `RescanExact`, `Template`, `Reference`, `Interpolation`, `Engine`,
  `Runner`, `RunShape`, `StepMeaning`, `SkillAnswer`, `ParallelMeaning`, `AbortError`, `Schedule`, `Parser`). `Engine` gives the meaning of a skill run as functions over the step list
  and the store; `Runner` is the engine as it runs, with one mutable store, loops and a slot array, each method
  tied to that meaning. On the meaning stand the theorems: goroutine scheduling cannot change a batch's result,
  clearing the `parallel` flags preserves the answer of an independent skill, every report of an answer is what the
  tool of its step says to the arguments rendered at that point, every run has one report per step and a store that
  its reports account for, and the rescanning template loop is a single left-to-right pass when no substituted text
  brings in a `{{`. A template loop that never ends has no result; the methods ask for one that ends.
- **The cache and the calendar service on top of it** (`Lru`, `LruGuarantee`, `Cache`, `Calendar`,
  `CalendarRace`). Class `Cache` keeps a map and a list of shared elements and refines a plain recency list; whole runs are judged on that list.
  Class `Service` reads through the cache, and the cache cannot be told from its absence. `CalendarRace` takes a
  list call apart into look-up, fetch and store, and says how stale a hit can be when calls overlap.
- **Slot search** (`FindSlot`, `SlotHours`): the search as a function of its inputs, exactly which starts it misses,
  and for exactly which durations it never misses one.
- **Retry transport and circuit breaker** (`Transport`, `Breaker`): both retry budgets (status 429 as in section 4
  of RFC 6585, Retry-After as in section 10.2.3 of RFC 9110) and the breaker over whole sequences of calls.
- **Fan-out protocols** (`Sums`, `Fanout`, `DriveBatch`, `SheetsBatch`, `ServiceTable`): transition systems over
  semaphore, wait group, channel, closer and mutex, with invariants over every run and progress.
- **Sheets and pipelines** (`Sheet`, `SheetDiff`, `SheetSchema`, `SplitArgs`): a diff that is a patch, inferred
  rules that accept their own samples, a tokenizer with its grammar and its inverse.

What lies outside is a parameter: tools, `%v` and JSON decoding (`Engine.World`), the server's list answer and the
digest in a cache key (`Calendar.Site`), the response script with jitter, cancellation and clock readings
(`Transport.Script`), factories (`ServiceTable.Call`), equality up to case (`fold` in `SheetSchema`). Times are
integers. Methods that Go guards by a mutex are single steps.

## Findings

Where the code does not meet what one would expect, the exact extent is proved.

- An aborted run names its error, however its steps behave, exactly when no step that is not skipped on failure stands
  before another one in its parallel batch (`AbortError.AbortNamesErrorExact`): the run takes the error of the last
  report of the batch, which may be a success (`AbortError.ParallelAbortCanLoseItsError`).
- Where a single left-to-right pass over a template succeeds, the rescanning loop ends with its result exactly when no
  substituted text brings in a `{{`, neither inside nor with what follows it (`RescanExact.RescanIsOnePassExactly`, for
  the engine `Template.RenderIsOnePassExactly`). A template whose value prints as its own `{{...}}` is rescanned forever
  (`Template.SelfNamingInput`). Where the pass fails, loop and pass can agree in spite of such a text
  (`RescanExact.FailingPassCanAgree`).
- A query that was just fetched is served from the cache again, for two minutes, exactly when it names its calendar
  (`Calendar.ServedAgainExact`); the empty name is correct but never hits, since the list is stored under `primary`
  (`Calendar.EmptyNameNeverHits`).
- With overlapping calls the cache stays coherent, whatever the server answers, exactly when no accepted write changes
  the calendars between a fetch and its store (`CalendarRace.CoherentExactly`); without that a hit still is no older
  than the life of an entry, counted from its store (`CalendarRace.HitIsRecent`).
- The slot search does not always return the earliest slots. What it misses is exactly what a step of one hour slips
  past, from an eight o'clock hour of a workday, off the whole hour (`FindSlot.MissedExactly`,
  `FindSlot.HourStepExact`); from every such cursor it returns a late slot (`FindSlot.SlipReturnsALateSlot`). With
  busy periods that end on whole hours it never misses one exactly when it begins on the hour and the duration is
  whole hours, divides the hour, or is under fifteen minutes (`SlotHours.NeverMissesExact`); it begins on the hour of
  the local clock just in the zones that are whole hours off, so elsewhere every duration can miss one
  (`SlotHours.OffHourStartMisses`).
- The end-of-day test of the slot search lets slots end until just before 19:00, and its wrap past midnight makes it
  right for all starts exactly when the duration is at most six hours (`FindSlot.EndOfDayTestExact`).
- A Retry-After in seconds is honoured, up to the 30 seconds granted, exactly when it is at most 30 or its nanoseconds
  still are at least 30 seconds after wrapping to 64 bits; up to 9223372036 seconds that is always so, and the next number
  already asks for no wait (`Transport.RetryAfterHonoured`, `Transport.FirstDishonoured`).
- A factory that returns nil without an error breaks the sharing of service objects, and nothing else does
  (`ServiceTable.AgreementIffNotMixed`).
- Default step ids can clash with given ones; ids end up distinct exactly when the given ids differ from one another
  and from the default ids of the steps without one (`Parser.DistinctExactly`).
- `-`, `.` and `-.` pass for numbers (`SheetSchema.DigitlessNumbers`). A sampled cell passes the rule inferred from it
  always in free text and empty columns, exactly when it is trimmed in enum and number columns, and exactly when it is
  empty or a URL in url columns (`SheetSchema.SamplePassesExact`).
- Changed cells alone tell a modified row exactly when the column names are distinct
  (`SheetDiff.ExactlyDistinctNames`).
- Documentation that differs from the code: README.md line 519 says the breaker opens after 5 failures, the code
  says 8; docs/dag-workflows.md describes `DependsOn`, which `Step` does not have. The code is followed.

## Model

| member | source | states |
|---|---|---|
| Rescan.Interpolate | internal/skill/template.go:52-71 | The loop returns the value, or the first error, of repeatedly expanding the first `{{...}}` of the whole text, for every text on which that ends |
| Rescan.LoopGives | internal/skill/template.go:54-70 | The value of a loop that ends does not depend on how many turns it is allowed |
| Rescan.FindBehind | internal/skill/template.go:55-62 | Behind text in which no `{{` begins, also not across its end, the two searches find what they find in the rest alone |
| Rescan.FindBehindExact | internal/skill/template.go:55-62 | And only then, unless the search ends in an unclosed brace: a pair formed at a splice is found instead |
| Rescan.SettledGrows | internal/skill/template.go:69 | No new `{{` forms at a splice when none begins in the substituted text followed by the rest, also when it is empty |
| Rescan.TurnBehind | internal/skill/template.go:54-70 | One turn behind such text does what it does on the rest, errors included |
| Rescan.LoopIsOnePass | internal/skill/template.go:52-71 | From any such point the loop equals the single pass and needs at most one turn per character left |
| Rescan.RescanIsOnePass | internal/skill/template.go:52-71 | If no substituted text brings in a `{{`, inside or across its end, the rescanning loop terminates and equals one left-to-right pass, including which error comes first |
| RescanExact.RescanIsOnePassExactly | internal/skill/template.go:52-71 | Where the pass succeeds and no expression that begins with a brace resolves, the loop ends with the result of the pass exactly when no substituted text brings in a `{{` |
| RescanExact.UncleanSpoils | internal/skill/template.go:52-71 | Behind settled text, no number of turns ends a loop with the result of a pass that brings in a `{{` |
| RescanExact.BraceBeforePairFails | internal/skill/template.go:55-68 | A last brace of a substituted text before a pair makes the loop ask for an expression that begins with a brace, and fail |
| RescanExact.FailingPassCanAgree | internal/skill/template.go:52-71 | Where the pass fails, a pair that is brought in and expands away leaves the failure as it is |
| Rescan.FixedTextDiverges | internal/skill/template.go:54-70 | A text that a turn reproduces is rescanned forever |
| Rescan.MeaningFrame | internal/skill/template.go:54-70 | Termination and result depend on the resolver only through the expressions the run expands |
| Rescan.CleanRunExpands | internal/skill/template.go:54-70 | On a clean text the run expands only what stands between braces in the text itself |
| Template.DrillField | internal/skill/template.go:128-156 | Following the dotted path field by field, with the error of the first segment that is missing or not navigable |
| Template.WalkOn | internal/skill/template.go:141-155 | Following a path is following its front part and then the rest, with the first error of either |
| Template.ParseSpelled | internal/skill/template.go:79-124 | Reading a reference as it is written, with its namespace, name and dotted path, gives back that reference |
| Template.ParsedIsSpellable | internal/skill/template.go:79-124 | Every expression is read as one that can be written so: names end at a dot, only paths and item fields hold one |
| Template.ResolveFrame | internal/skill/template.go:79-125 | An expression's value depends on the store only at the key it names |
| Text.TrimCutsSpace | internal/skill/template.go:42-64 | Trimming cuts white space off both ends of an expression and nothing else |
| Text.TrimPadded | internal/skill/template.go:42-64 | White space around a trimmed text comes off again |
| Text.SplitJoined | internal/skill/template.go:141 | Splitting a path at its dots gives back the field names that were joined |
| Text.JoinSplit | internal/skill/template.go:141 | Every path is the join of the dotless names it is split into |
| Reference.WalkIsChain | internal/skill/template.go:141-155 | A path leads to the last value of a chain of fields, or fails at the first name that cannot be taken, with the error of that name |
| Reference.StepOutput | internal/skill/template.go:101-109 | `.steps.id` is the whole output stored under the id, or the error that there is none |
| Reference.StepField | internal/skill/template.go:101-112 | `.steps.id.path` follows every name of the path into that output; null is like a map without fields, texts, numbers and lists are no maps |
| Reference.ItemField | internal/skill/template.go:114-122 | `.item.path` follows the whole path into the current item, and fails outside an `each` step |
| Reference.ItemAndInput | internal/skill/template.go:81-98 | `.item` is the item itself and `.input.name` the input as a text, or the error that it is unknown |
| Reference.NothingElse | internal/skill/template.go:82-124 | A word without a dot other than `item`, and every other namespace, is an error |
| Template.RenderValueWithItem | internal/skill/template.go:35-72 | A plain text stands for itself, a single expression keeps its type, a mixed text is interpolated; result or error as the rendering means, whenever it ends |
| Interpolation.RenderPlain | internal/skill/template.go:37-39 | A text without double opening braces stands for itself |
| Interpolation.SingleExactly | internal/skill/template.go:42-44 | A template counts as a single expression exactly when, trimmed, it is one pair of double braces around a text without double opening ones; the expression is that text, trimmed |
| Interpolation.RenderSingle | internal/skill/template.go:42-49 | It then has the value of its expression, with its type |
| Interpolation.PassSubstitutes | internal/skill/template.go:52-71 | The single pass over texts with expressions between them puts the values in the places of the expressions, or gives the first error |
| Interpolation.RenderSubstitutes | internal/skill/template.go:52-71 | So does the rendering of such a template when the values print without opening braces |
| Interpolation.PaddedExpression | internal/skill/template.go:64 | White space inside the braces does not matter |
| Interpolation.UnclosedFails | internal/skill/template.go:59-62 | A template whose first pair of opening braces is not closed fails as such |
| Template.RenderIsOnePass | internal/skill/template.go:52-71 | A mixed template whose values bring in no `{{` always renders, to the single left-to-right pass |
| Template.EngineOpensFail | internal/skill/template.go:79-124 | No expression that begins with a brace resolves, whatever inputs, store and item are |
| Template.RenderIsOnePassExactly | internal/skill/template.go:35-72 | Where the single pass over a mixed template succeeds, rendering gives its result exactly when no value brings in a `{{` |
| Template.SelfNamingHangs | internal/skill/template.go:54-70 | An expression whose value prints as the `{{...}}` that asks for it makes rendering hang |
| Template.SelfNamingInput | internal/skill/template.go:92-98 | Such an expression exists: an input that holds its own reference |
| Template.RenderFrame | internal/skill/template.go:35-125 | Rendering, and whether it ends, depends on the store only at the keys it looks up |
| Template.CleanUsesAreNamed | internal/skill/template.go:35-125 | In a single expression, and in a mixed template with clean values, those keys are named in the template's own text |
| Template.RenderArgs | internal/skill/engine.go:351-364 | In whatever order the map is visited: all arguments rendered, or one that really fails, with its own error |
| Template.RenderAllFrame | internal/skill/template.go:17-27 | Rendering a step's arguments depends on the store only at the keys they look up |
| Runner.RunSingleStep | internal/skill/engine.go:185-240 | Report, abort flag and updated store of one step, as the step means; the argument named for a bad one really fails, with its own error |
| StepMeaning.ToolGetsItsArguments | internal/skill/engine.go:193-238 | A step without `each` whose arguments render calls its tool with exactly the rendered arguments, and reports the tool's error, or its output, which alone is stored, under the step's store name or else its id |
| StepMeaning.BadArgumentFails | internal/skill/engine.go:195-203 | When an argument cannot be rendered the step fails, whatever its tool would answer |
| StepMeaning.LaterStepsSeeTheOutput | internal/skill/engine.go:227-238 | What the tool answered is what later references give: an object its fields, a text that is JSON the fields of the decoded object, another text none; null becomes an empty map |
| StepMeaning.EachRunsItsList | internal/skill/engine.go:248-266 | An `each` step runs over the list of its expression and fails when that is an error or no list |
| StepMeaning.BareEachFails | internal/skill/parser.go:61-63 | An `each` without double braces, which the parser refuses, could only fail |
| StepMeaning.ItemIsSeen | internal/skill/engine.go:333-348 | Inside an `each` step an object gives its fields as `.item`, another value itself as `.item.value`, and null no item at all |
| StepMeaning.ItemsRunInOrder | internal/skill/engine.go:268-304 | The items run in order, each on the store the one before left, up to the first unskipped failure, which is reported; otherwise the outputs of the succeeded ones are, as a list, or nil when there are none |
| Runner.RunEachStep | internal/skill/engine.go:244-266 | The same for an `each` step, with the failures of its list expression |
| Runner.RunItems | internal/skill/engine.go:268-305 | The loop over the items: each runs on the store the previous left; an unskipped failure ends it with that failure |
| Runner.CollectParallelBatch | internal/skill/engine.go:106-112 | The batch is the maximal run of parallel steps from the position |
| Runner.RunParallelBatch | internal/skill/engine.go:123-179 | Whatever the order of the goroutines, reports, abort flag and store are those of running every step on the snapshot and merging by index |
| Runner.MergeResults | internal/skill/engine.go:153-178 | The merge loop writes exactly the successful outputs, in index order, under the keys found by id |
| Runner.FindKey | internal/skill/engine.go:165-173 | The key is that of the first step of the batch with the id |
| Runner.PrepareInputs | internal/skill/engine.go:40-49 | The defaults are written into the caller's map, up to the first required input without one, which is named |
| RunShape.InputsAreFilled | internal/skill/engine.go:40-49 | Supplied inputs stay, missing ones get their first default, nothing else is added and no required one is lacking; or the input named is the first that is lacking |
| RunShape.DefaultsBeforeMissing | internal/skill/engine.go:40-49 | When a required input is missing, exactly the defaults declared before it have been written to the map of the caller |
| Runner.RunSteps | internal/skill/engine.go:58-85 | The main loop's reports, abort flag and final store are those of the meaning of the step list |
| Runner.RunNext | internal/skill/engine.go:59-84 | One turn takes a whole batch or one step and leaves the rest of the run to do |
| Runner.Run | internal/skill/engine.go:38-103 | The answer: missing input, the abort with the last report's error, the rendered output, the store when rendering fails, or the last output; and the caller's inputs with the defaults in them |
| Engine.BatchEnd | internal/skill/engine.go:106-112 | The position found is the end of the maximal run of parallel steps |
| Engine.AbortedReports | internal/skill/engine.go:67-83 | An aborted run has a report to take the error from |
| RunShape.StepEffect | internal/skill/engine.go:185-305 | A step reports under its own id and tool, aborts exactly on an unskipped failure, changes only its own key, and without an abort leaves there the reported output |
| RunShape.EachCollects | internal/skill/engine.go:268-304 | An unaborted `each` step ran every item and collects one output per succeeded item, in item order |
| RunShape.KeyForOwn | internal/skill/engine.go:164-174 | With distinct ids the search by id finds the reporting step itself |
| RunShape.BatchReports | internal/skill/engine.go:153-178 | A batch gives one report per step in step order, and aborts exactly if some step does |
| RunShape.MergeIsReplay | internal/skill/engine.go:156-177 | The merge of a batch equals writing its outputs one after the other |
| RunShape.RunHasShape | internal/skill/engine.go:58-85 | Every run reports on a prefix of its steps, one report each in order; an unaborted run on all, and its store is the replay of its reports |
| RunShape.ReplayHolds | internal/skill/engine.go:156-177 | A replayed store holds under each key the output of the last success for it, or what it held before |
| RunShape.RunStore | internal/skill/engine.go:38-103 | After an unaborted run the store's keys are exactly those of the steps reported successful, each with its last output |
| StepMeaning.ReportsAreExplained | internal/skill/engine.go:58-179 | Every report of every run, aborted or not, is what its step makes of the store at that point: what the outputs of the steps before its own parallel batch have made of the first one |
| SkillAnswer.EveryReportIsTrue | internal/skill/engine.go:38-179 | The same for the answer of a skill, with its inputs filled in |
| SkillAnswer.ReportIsTheToolsAnswer | internal/skill/engine.go:38-240 | So every report of a step without `each` is the answer of its tool to the arguments rendered from the filled inputs and that store |
| SkillAnswer.AbortedExactly | internal/skill/engine.go:58-85 | A run is aborted exactly when some step that is not skipped reports a failure |
| SkillAnswer.SuccessExactly | internal/skill/engine.go:65-83 | An answer is a success exactly when no such step failed, and then reports on every step without an error; otherwise its error is that of the last report and it has no output |
| SkillAnswer.DefaultOutput | internal/skill/engine.go:96-101 | Without an output template a success gives the output of its last step |
| SkillAnswer.TemplateOutput | internal/skill/engine.go:89-95 | With one, what it renders to on the final store, or that store when it fails |
| SkillAnswer.StepAsOutput | internal/skill/engine.go:89-95 | A template that asks for the output under one key gives the last successful output stored there |
| ParallelMeaning.BatchInSequence | internal/skill/engine.go:123-179 | An insulated batch run step by step ends with its reports cut at the first abort, or goes on from the merged store |
| ParallelMeaning.InsulatedRunPreserved | internal/skill/engine.go:58-85 | The preservation theorem for an arbitrary semantics of steps |
| ParallelMeaning.NamingSuffices | internal/skill/template.go:35-125 | Independence can be read off the argument texts when the values of mixed templates bring in no `{{` |
| ParallelMeaning.SameReport | internal/skill/engine.go:185-240 | A step reports the same on any store that agrees on what its arguments look up |
| ParallelMeaning.IndependentIsInsulated | internal/skill/engine.go:123-179 | In a batch where no step reads an earlier step's key, running in sequence reports what running on the snapshot reports |
| ParallelMeaning.ParallelPreservesMeaning | internal/skill/engine.go:58-179 | For validated, independent steps, clearing every `parallel` flag leaves an unaborted run unchanged, and cuts an aborted one after its first aborting step |
| ParallelMeaning.SkillPreserved | internal/skill/engine.go:38-103 | The same for whole skills: success, reports and output; after an abort the sequential reports are the parallel ones cut |
| AbortError.AbortNamesErrorExact | internal/skill/engine.go:58-85 | For steps with distinct ids: every aborted run, however the steps behave, ends in the report of a failure exactly when no step that can abort is followed by another one in its parallel batch |
| AbortError.UnmaskedSkillNamesError | internal/skill/engine.go:38-103 | The answer of an aborted skill without such a step names an error |
| AbortError.MaskedRun | internal/skill/engine.go:65-71 | With such a step some behaviour of the steps aborts the run and ends it in a success |
| AbortError.ParallelAbortCanLoseItsError | internal/skill/engine.go:65-71 | With actual tools: a failing parallel step followed by a succeeding one aborts without an error in the answer |
| Schedule.NextDecreases | internal/skill/engine.go:134-151 | Every move of a goroutine or the merge uses up exactly one unit |
| Schedule.MoveKeepsInv | internal/skill/engine.go:134-150 | Every move of a goroutine keeps what it has computed equal to what its step makes of the snapshot |
| Schedule.MergedIsBatch | internal/skill/engine.go:153-178 | Merging filled slots by index is running every step on the snapshot and merging left to right |
| Schedule.ScheduleIndependent | internal/skill/engine.go:123-179 | Every interleaving that reaches the merge has the same reports, abort flag and store |
| Schedule.NeverStuck | internal/skill/engine.go:130-151 | Until the merge some move is possible, unless a template of the batch never ends |
| Schedule.ScheduleLength | internal/skill/engine.go:134-151 | A schedule after k moves has exactly five moves per step and the merge, less k, to go |
| Schedule.EverySchedule | internal/skill/engine.go:123-179 | Every schedule that cannot go on has merged, with the right result |
| Parser.CheckStep | internal/skill/parser.go:55-68 | The late checks on a step: none applies exactly if it is well formed, else the first that applies |
| Parser.CompleteStep | internal/skill/parser.go:40-68 | One turn of the step loop: default id and on_fail written in place, and the step's first violation |
| Parser.ValidateSteps | internal/skill/parser.go:39-69 | Accepts exactly if ids are distinct after defaulting and every step is well formed, and then has completed all; else reports the first violation |
| Parser.CheckInputs | internal/skill/parser.go:70-80 | The first input without a name or of an unknown type, if there is one |
| Parser.Validate | internal/skill/parser.go:32-82 | Accepts exactly the acceptable files, completes those in place to distinct ids without parallel `each` steps, and otherwise reports the file's first violation |
| Parser.FirstIsUnique | internal/skill/parser.go:32-82 | The first violation is unique, so the report is determined by the file |
| Parser.AcceptedExactly | internal/skill/parser.go:32-82 | A file is accepted exactly when it has a name and steps, no id clashes, every step has a tool, `each` only with double braces and not with `parallel`, `transform` an input, and every input a name and one of four types |
| Parser.AbortsUnlessSkipped | internal/skill/parser.go:51-53 | A completed step stops a run on every failure unless it was given `skip`; what was given is kept |
| Parser.ValidateIsIdempotent | internal/skill/parser.go:40-53 | An accepted file is accepted again and stays as it is |
| Parser.UnnamedStepsAreDistinct | internal/skill/parser.go:41-43 | Default ids never clash with one another |
| Parser.GivenNameCanClash | internal/skill/parser.go:41-46 | A given name of the default form can clash with a default id |
| Parser.DistinctExactly | internal/skill/parser.go:40-47 | Ids are distinct after the defaults exactly when no given id equals another one or the default id of a step without one |
| Lru.ApplyKeeps | internal/api/cache.go:53-145 | Every operation keeps keys distinct and the size within capacity |
| Lru.PrefixSurvivor | internal/api/cache.go:135-145 | What a prefix invalidation leaves was there before and does not begin with the prefix |
| Lru.KeepWithout | internal/api/cache.go:139-144 | Removing keys one at a time, in any order, is keeping all the others in their order |
| Lru.KeepIsPrefix | internal/api/cache.go:139-144 | Removing all keys with the prefix in any order leaves the survivors in the same order |
| Cache.Cache.constructor | internal/api/cache.go:36-48 | An empty valid cache with the defaults for non-positive settings |
| Cache.Cache.Get | internal/api/cache.go:53-73 | Returns what a lookup in the recency list returns; a hit moves to the front, an expired entry goes |
| Cache.Cache.Set | internal/api/cache.go:78-107 | The entry is in front with its expiry; an old one is overwritten, and at capacity the least recently used goes |
| Cache.Cache.EvictLRU | internal/api/cache.go:111-119 | Exactly the last entry of the recency list goes |
| Cache.Cache.Invalidate | internal/api/cache.go:122-132 | Exactly the entry of the key goes, if any |
| Cache.Cache.InvalidatePrefix | internal/api/cache.go:135-145 | Whatever the map order, exactly the entries with the prefix go and the rest keep their order |
| Cache.Cache.Len | internal/api/cache.go:148-152 | The size of the recency list, never above the capacity |
| LruGuarantee.RunInv | internal/api/cache.go:53-145 | Over every run, the keys in front of an entry were all touched since it was, and an absent one was invalidated, expired or pushed out |
| LruGuarantee.LookupGuarantee | internal/api/cache.go:53-119 | A lookup hits with the last value set if it is unexpired, not invalidated and fewer than capacity distinct other keys were touched since; and a hit is always that value |
| LruGuarantee.EvictionGuarantee | internal/api/cache.go:95-119 | An entry is evicted only when at least capacity distinct other keys, the new one included, were touched since its last touch |
| Calendar.CacheKeyInjective | internal/api/cache_helpers.go:11-15 | With an injective digest, queries with the same key are the same |
| Calendar.HitIsTruthful | internal/api/calendar.go:64-69 | On a coherent cache a hit is an event list, and what the server would answer now |
| Calendar.ListIsCoherent | internal/api/calendar.go:63-108 | ListEvents keeps the cache coherent through lookup, expiry, store and eviction |
| Calendar.WriteIsCoherent | internal/api/calendar.go:213-217 | An accepted write leaves no stale list behind |
| Calendar.RunIsCoherent | internal/api/calendar.go:63-297 | Every sequence of lists, writes and other uses of the shared cache keeps it coherent |
| Calendar.TransparentCache | internal/api/calendar.go:63-108 | After any run ListEvents answers what an uncached ListEvents would, for any expiry and eviction, except that a hit also answers while the server is out of reach |
| Calendar.CacheDoesNotReachTheServer | internal/api/calendar.go:182-297 | The server goes through the same states as without a cache |
| Calendar.EmptyNameNeverHits | internal/api/calendar.go:65-105 | A query with the empty calendar name never hits |
| Calendar.ServedAgainExact | internal/api/calendar.go:64-106 | After a ListEvents that fetched its answer, the same query is served from the cache exactly when it names its calendar and comes within two minutes |
| Calendar.Service.ListEvents | internal/api/calendar.go:63-108 | Answer and new cache contents as specified, and a successful answer is the server's present one |
| Calendar.Service.WriteEvent | internal/api/calendar.go:182-297 | A create, update or delete changes the server exactly if accepted, and then drops all keys that begin with `calendar:` and nothing else |
| Calendar.AsksForItsCalendar | internal/api/calendar.go:80-91 | A list request asks the server for the calendar it names, `primary` when it names none, and for no limit unless it is positive |
| Calendar.KeyText | internal/api/cache_helpers.go:11-15 | The key of a list begins with the name of its service and method |
| Calendar.ChangesOneEvent | internal/api/calendar.go:182-297 | An accepted change creates, replaces or removes the event it names and leaves every other one as it was |
| Calendar.DeleteUndoesCreate | internal/api/calendar.go:182-297 | Deleting what was created restores the calendars |
| Calendar.UpdateTwice | internal/api/calendar.go:241-261 | Two updates of an event are one with the later patch laid over the earlier |
| Calendar.PatchWritesItsFields | internal/api/calendar.go:241-261 | A patch writes just the fields that it fills |
| CalendarRace.AskedAtFetch | internal/api/calendar.go:84-97 | A call waiting to store holds the answer of the server at its own fetch |
| CalendarRace.HitIsRecent | internal/api/calendar.go:63-108 | However calls overlap, a hit is what the server answered to a fetch of that very query, stored at most the life of an entry before, and no write was accepted since the store |
| CalendarRace.UndisturbedIsCoherent | internal/api/calendar.go:63-108 | If at every store the calendars are those of the fetch, the cache is coherent after every step |
| CalendarRace.LateStoreIsStale | internal/api/calendar.go:94-106 | After any store whose calendars are not those of its fetch some server shows a stale list |
| CalendarRace.CoherentExactly | internal/api/calendar.go:63-297 | Whatever the server answers, the cache is coherent at all times exactly when no accepted write changes the calendars between a fetch and its store |
| FindSlot.BusyJump | internal/api/calendar.go:360-366 | No instant passed over by a jump to the end of a busy period could have passed the tests |
| FindSlot.BusinessByTheClock | internal/api/calendar.go:346-350 | Business time is from nine to six on Monday to Friday |
| FindSlot.MorningByTheClock | internal/api/calendar.go:354-356 | The next morning is nine o'clock of the next day |
| FindSlot.OverlapsExactly | internal/api/calendar.go:361 | A slot and a busy period overlap exactly when some instant lies in both |
| FindSlot.FreeIsIdle | internal/api/calendar.go:359-374 | No instant of a free span lies in a busy period |
| FindSlot.EmptyPeriodsBlock | internal/api/calendar.go:361 | A busy period without an instant blocks the starts that would have it strictly inside the slot |
| FindSlot.EveningSkip | internal/api/calendar.go:352-357 | For durations up to six hours, none passed over by the skip to the next morning could |
| FindSlot.HourStep | internal/api/calendar.go:346-350 | Outside business hours the one-hour step passes over business time exactly from nine o'clock on when it starts in an eight o'clock hour of a workday, off the whole hour |
| FindSlot.HourStepExact | internal/api/calendar.go:346-350 | So whether it passes over business time can be told from the cursor alone |
| FindSlot.PassedOver | internal/api/calendar.go:346-366 | For durations up to six hours, a move of any of the three kinds passes over an acceptable start exactly when it is a one-hour step that slips past nine o'clock |
| FindSlot.EndsSameDay | internal/api/calendar.go:352-353 | A slot of at most six hours ends on its day, before 19:00 |
| FindSlot.EndOfDayTestExact | internal/api/calendar.go:352-353 | The end-of-day test holds slots to their day for all starts exactly when the duration is at most six hours |
| FindSlot.LongSlotPassesMidnight | internal/api/calendar.go:352-353 | For every longer duration some start is accepted that ends on a later day |
| FindSlot.Move | internal/api/calendar.go:346-366 | One turn of the loop: the cursor is a slot exactly if it passes all tests, and otherwise goes where the first failing test sends it |
| FindSlot.FindSlots | internal/api/calendar.go:342-377 | For every duration the loop ends with at most five slots, those of the search function: each free, on a weekday in [9:00,18:00), in the window and in order, and none with an instant inside a busy period; for durations up to six hours the acceptable starts it misses are exactly those that a one-hour step slips past |
| FindSlot.SearchIsGood | internal/api/calendar.go:343-375 | Every slot of a search is acceptable, in the window and not before the end of the one before |
| FindSlot.MissedExactly | internal/api/calendar.go:343-375 | A start before a slot, or left over when too few are found, is missed exactly when some visited cursor slips past it |
| FindSlot.SlipReturnsALateSlot | internal/api/calendar.go:346-350 | From every cursor that slips, with nothing busy, the first slot returned is an hour on although nine o'clock was acceptable |
| FindSlot.SlotsAreDisjoint | internal/api/calendar.go:368-374 | For positive durations the slots are increasing and disjoint and not before the start |
| SlotHours.NeverMissesExact | internal/api/calendar.go:310-375 | For durations up to six hours and busy periods that end on whole hours, searches that begin at a given offset into the hour never miss a start exactly when the offset is zero and the duration is whole hours, divides the hour, or is less than a quarter of it |
| SlotHours.SteadySearch | internal/api/calendar.go:343-375 | For such a duration no visited cursor slips |
| SlotHours.UnfittingMisses | internal/api/calendar.go:343-375 | For every other duration some whole-hour start misses one, with nothing busy at all |
| SlotHours.OffHourStartMisses | internal/api/calendar.go:310-375 | From every offset but zero a search of any duration misses a start, with nothing busy at all |
| SlotHours.OffHourEndMisses | internal/api/calendar.go:359-366 | For every duration a busy period that ends off the whole hour can make the search miss a start |
| Breaker.CircuitBreaker.IsOpen | internal/api/circuitbreaker.go:32-45 | Answers whether the breaker is open after closing one whose window has passed |
| Breaker.CircuitBreaker.RecordSuccess | internal/api/circuitbreaker.go:48-53 | Resets the counter and closes |
| Breaker.CircuitBreaker.RecordFailure | internal/api/circuitbreaker.go:57-67 | Counts, opens from the threshold on, and tells whether it just opened |
| Breaker.BreakerCountsStreak | internal/api/circuitbreaker.go:32-67 | In every reachable state the counter is the length of the current streak of failures, and the breaker is open exactly from 8 on |
| Transport.ClampDuration | internal/api/transport.go:188-196 | The result lies between 0 and 30 seconds, is raised only to 0 and lowered only to 30 seconds |
| Transport.CalculateBackoff | internal/api/transport.go:116-131 | Every delay lies between 0 and 30 seconds, also when the seconds wrap around |
| Transport.ExponentialNotClamped | internal/api/transport.go:127-130 | Up to the fifth attempt the exponential delay is at most 24 seconds, so never clamped |
| Transport.RetryAfterHonoured | internal/api/transport.go:116-120 | The seconds asked for, up to 30, are granted exactly when they are at most 30 or still at least that after wrapping to 64 bits, so always up to 9223372036; and no wait is asked for exactly when they wrap to nothing or below |
| Transport.FirstDishonoured | internal/api/transport.go:118-119 | The next number of seconds is not honoured |
| Transport.DateHonoured | internal/api/transport.go:121-130 | A date is honoured up to 30 seconds, one that has passed leaves the exponential delay |
| Transport.RetriedBound | internal/api/transport.go:74-87 | The retried replies stay within both budgets and are exactly those counted |
| Transport.RetriedEarly | internal/api/transport.go:50-87 | The retry budgets keep every retried reply among the first five attempts |
| Transport.SleepsAreExponential | internal/api/transport.go:74-80 | So in every round trip the sleep after a 429 without a hint is the exponential delay, at most 24 seconds and not clamped |
| Transport.ServerErrorSleeps | internal/api/transport.go:82-87 | The sleep after a server error is one second for each attempt so far, at most five |
| Transport.RetryTransport.TryOnce | internal/api/transport.go:59-96 | One turn retries exactly within the budgets, after the delay of calculateBackoff for a 429 and of the attempt number in seconds for a 5xx, or ends with the reply and at most one breaker record |
| Transport.RetryTransport.Attempts | internal/api/transport.go:54-105 | At most six base calls, the code after the loop is never reached, at most one breaker record, none for a final 4xx; each sleep is the one asked for after its attempt, at most 99 seconds in all |
| Transport.RetryTransport.RoundTrip | internal/api/transport.go:35-106 | The same from the breaker's check on: an open breaker or an unreadable body means no base call at all |
| Transport.ExhaustedBudgets | internal/api/transport.go:74-96 | A returned 429 follows exactly three retried ones, a returned 5xx exactly two |
| Transport.OutcomeIsDetermined | internal/api/transport.go:54-97 | The response script determines outcome and number of base calls |
| Transport.OpenTurnsAway | internal/api/transport.go:37-39 | Within 30 seconds of the last failure an open breaker turns a call away and nothing changes |
| Transport.OtherCallsDoNotCount | internal/api/transport.go:66-96 | A let-through call below status 400 resets the counter and closes the breaker; a final 4xx, a cancelled or an unreplayable one leaves it as the check left it |
| Transport.FailuresInARow | internal/api/transport.go:60-92 | Failed calls in a row are counted one by one, and just the eighth opens the breaker |
| Transport.EightFailuresOpen | internal/api/transport.go:35-106 | Eight failed calls in a row open a fresh breaker, and a ninth within 30 seconds is turned away |
| Transport.CallsCountStreak | internal/api/transport.go:35-106 | Over any sequence of calls the counter is the streak of failures recorded, and calls are turned away exactly while it is eight or more |
| Transport.OpeningTakesEight | internal/api/transport.go:35-106 | From a fresh breaker, opening takes eight failed calls |
| Transport.ReopeningTakesEight | internal/api/circuitbreaker.go:39-43 | After the window the first call is let through and reopening takes eight fresh failures |
| Fanout.ClampConcurrency | internal/api/drive_batch.go:39-47 | The result lies between 1 and the maximum, is raised only to 1 and lowered only to the maximum |
| DriveBatch.NextKeepsInv | internal/api/drive_batch.go:57-126 | Every step of any goroutine, the closer or the caller keeps semaphore, wait group, channel and result in balance |
| DriveBatch.BoundedConcurrency | internal/api/drive_batch.go:58-82 | In every reachable state at most min(max(concurrency,1),5) goroutines hold the semaphore |
| DriveBatch.SendNeverBlocks | internal/api/drive_batch.go:74-101 | A goroutine about to send finds the channel open and with room |
| DriveBatch.FinishedIsComplete | internal/api/drive_batch.go:111-125 | At the return every path is in exactly one of the two lists, those with a success sent for them in the one and those with a failure in the other |
| DriveBatch.OutcomeIsReal | internal/api/drive_batch.go:67-101 | An outcome sent for a path is that of its own upload earlier in the run, or a failure for its own refusal |
| DriveBatch.NeverStuck | internal/api/drive_batch.go:65-125 | Until the return some step is possible, without any cancellation |
| DriveBatch.RunsAreShort | internal/api/drive_batch.go:65-125 | Every run is over after at most seven steps per path and three |
| DriveBatch.EveryRunReturns | internal/api/drive_batch.go:57-126 | Every run that cannot go on has returned a complete result |
| SheetsBatch.NextKeepsInv | internal/api/sheets_batch.go:55-105 | The same balance when the caller acquires the semaphore and sends cancellations itself |
| SheetsBatch.BoundedConcurrency | internal/api/sheets_batch.go:48-74 | At most min(max(concurrency,1),5) appends hold the semaphore |
| SheetsBatch.SendNeverBlocks | internal/api/sheets_batch.go:64-87 | No send blocks or follows the close, also the caller's after it has signed the entry off |
| SheetsBatch.ReturnedIsComplete | internal/api/sheets_batch.go:97-105 | At the return every range is in exactly one of the two lists, those with a success sent for them in the one and those with a failure in the other |
| SheetsBatch.OutcomeIsReal | internal/api/sheets_batch.go:62-88 | An outcome sent for an entry is that of its own append earlier in the run, or a failure for its being turned down |
| SheetsBatch.NeverStuck | internal/api/sheets_batch.go:59-105 | Until the return some step is possible, without any cancellation |
| SheetsBatch.RunsAreShort | internal/api/sheets_batch.go:59-105 | Every run is over after at most nine steps per entry and seven |
| SheetsBatch.EveryRunReturns | internal/api/sheets_batch.go:38-106 | Every run that cannot go on has returned a complete result |
| SheetsBatch.EarlyCloserWouldBreak | internal/api/sheets_batch.go:64-95 | During the loop the wait group can be at zero with a send still to come, so the closer has to start behind it |
| ServiceTable.Client.Commit | internal/api/client.go:170-175 | A set entry stays and is returned, otherwise the created object is stored and returned |
| ServiceTable.Client.GetOrCreateService | internal/api/client.go:156-176 | Alone: a set entry is returned without the factory; otherwise what the factory makes is stored, and its error changes nothing |
| ServiceTable.EntryIsWrittenOnce | internal/api/client.go:156-176 | For any number of calls and any interleaving a set entry never changes |
| ServiceTable.LaterCallsReuse | internal/api/client.go:157-162 | A call that starts when the entry is set never runs its factory and returns that entry |
| ServiceTable.SuccessIsTheEntry | internal/api/client.go:170-175 | With object-making factories every successful call returns the entry of its key, made by a call for that key |
| ServiceTable.AgreementIffNotMixed | internal/api/client.go:156-176 | All successful calls for a key get the same object, in every interleaving, exactly when its factories do not mix nil and objects |
| ServiceTable.RunsAreShort | internal/api/client.go:156-176 | Calls take three steps each at most, whatever the interleaving |
| ServiceTable.CallCanMove | internal/api/client.go:156-176 | No call ever waits for another one |
| SheetDiff.IndexByKey | internal/api/sheets_ops.go:361-372 | The index of the rows by trimmed first cell |
| SheetDiff.IndexIsLast | internal/api/sheets_ops.go:361-372 | The index holds exactly the keys that occur, each with the last row that has it |
| SheetDiff.CompareRows | internal/api/sheets_ops.go:194-209 | The loop lists the changed cells of columns 1 up to the longer row's width |
| SheetDiff.ListedIffDiffers | internal/api/sheets_ops.go:199-209 | A change is listed exactly for each column whose trimmed cells differ, with its name and both texts |
| SheetDiff.ChangeTellsCells | internal/api/sheets_ops.go:199-209 | A change names its column by the header, if there is one, and tells the trimmed texts before and after |
| SheetDiff.NoChangesIffSame | internal/api/sheets_ops.go:199-213 | Nothing is listed exactly when the rows agree on every trimmed cell behind the key |
| SheetDiff.CompareKey | internal/api/sheets_ops.go:186-214 | One round over the first table adds at most one, right change and keeps the counters |
| SheetDiff.DiffRanges | internal/api/sheets_ops.go:170-222 | Fails exactly when a range has no header row; otherwise, for any map order, one right change for each key that differs and no others, additions last, and counters that count them |
| SheetDiff.DiffIsAPatch | internal/api/sheets_ops.go:186-222 | Applying the changes to the first table gives the second, on every trimmed cell |
| SheetDiff.CountersAreExact | internal/api/sheets_ops.go:182-222 | The counters are the numbers of keys that went, came, and stayed with other cells |
| SheetDiff.SizesBalance | internal/api/sheets_ops.go:182-222 | Keys after = keys before - removed + added |
| SheetDiff.SwapMirrors | internal/api/sheets_ops.go:186-222 | Swapping the ranges swaps added with removed and From with To, change by change |
| SheetDiff.CellsRebuildRow | internal/api/sheets_ops.go:199-211 | With distinct column names the changed cells and the old row give every cell of the new row, up to trimming |
| SheetDiff.ExactlyDistinctNames | internal/api/sheets_ops.go:199-211 | They tell the new row exactly when the column names, empty beyond the headers, are distinct |
| SheetSchema.CollectValues | internal/api/sheets_smart.go:143-154 | The trimmed, non-empty cells of the column in row order, and their number |
| SheetSchema.AllFilled | internal/api/sheets_smart.go:156-158 | Fill count and row count agree exactly when no sampled cell is empty |
| SheetSchema.UniqueValues | internal/api/sheets_smart.go:274-284 | The distinct values in order of first occurrence |
| SheetSchema.UniqueIsDistinct | internal/api/sheets_smart.go:274-284 | They hold each value once, and are fewer exactly when some value repeats |
| SheetSchema.IsNumeric | internal/api/sheets_smart.go:293-314 | Accepts exactly an optional leading minus, digits and at most one point, not empty |
| SheetSchema.DigitlessNumbers | internal/api/sheets_smart.go:293-314 | The texts without a digit that pass are exactly `-`, `.` and `-.` |
| SheetSchema.NumbersAreNumeric | internal/api/sheets_smart.go:293-314 | Whole numbers, also negative ones, and decimal fractions are accepted |
| SheetSchema.NumericHasOnly | internal/api/sheets_smart.go:293-314 | Accepted texts hold digits, at most one point and a minus only in front |
| SheetSchema.KindsExactly | internal/api/sheets_smart.go:137-225 | A column is of numbers exactly when it has values and all are numeric, of URLs exactly when most are, an enum exactly when it is neither and its values repeat with at most five different ones |
| SheetSchema.RequiredExactly | internal/api/sheets_smart.go:156-225 | A column is required exactly when every sampled cell is filled and it is not free text called optional |
| SheetSchema.AnalyzeColumn | internal/api/sheets_smart.go:137-225 | The rule of a column: mostly URLs, all numbers, few repeated values, or free text; required when all rows are filled, but for optional free text |
| SheetSchema.DescribeSheet | internal/api/sheets_smart.go:63-78 | One such rule per header, from the sampled rows; no schema without a header row |
| SheetSchema.SampleSizeExactly | internal/api/sheets_smart.go:34-70 | At most twenty rows are sampled unless another number is asked for, and all when there are fewer |
| SheetSchema.ValidateCell | internal/api/sheets_smart.go:227-259 | The first complaint about a value, if any |
| SheetSchema.RefusesExactly | internal/api/sheets_smart.go:227-259 | An empty cell is refused exactly when the column is required, a filled one exactly when it is no number, URL or allowed value where one is asked for; the complaint says which |
| SheetSchema.ValidateRow | internal/api/sheets_smart.go:97-119 | One issue for each rule the row breaks, in column order; valid exactly when every rule accepts its cell |
| SheetSchema.NoIssuesIffAccepted | internal/api/sheets_smart.go:97-119 | No issue is listed exactly when every rule accepts its cell |
| SheetSchema.IssuesExactly | internal/api/sheets_smart.go:97-119 | Every issue is a rule's refusal of its own cell, with index, text and complaint, and every refusal is an issue |
| SheetSchema.SamplePassesExact | internal/api/sheets_smart.go:137-259 | A rule accepts a row it was inferred from exactly when the cell passes by its kind: always in free text and empty columns, trimmed in enum and number columns, empty or a URL in url columns |
| SheetSchema.SampledRowIssues | internal/api/sheets_smart.go:97-225 | Every complaint about a trimmed sampled row is about a url column whose cell is filled with no URL |
| SheetSchema.SampledRowsAreValid | internal/api/sheets_smart.go:97-225 | A schema accepts a trimmed row it was inferred from exactly when no cell but a URL fills one of its url columns |
| SheetSchema.UrlAcceptsMost | internal/api/sheets_smart.go:169-181 | A url rule accepts strictly more than half of the filled, trimmed cells of its column |
| SheetSchema.UrlCanRejectASample | internal/api/sheets_smart.go:169-181 | But it can reject one of its own samples |
| SplitArgs.SplitArgs | internal/cmd/pipe.go:112-142 | The byte loop returns the words of a grammar of bare bytes, quoted parts and blanks |
| SplitArgs.BytesByKind | internal/cmd/pipe.go:119-136 | Between two ordinary bytes a space or tab parts them, a quote mark joins them and every other byte stays |
| SplitArgs.SplitAtBlank | internal/cmd/pipe.go:128-132 | At a blank outside a quote, the arguments of a line are those of its two parts |
| SplitArgs.NothingIsLost | internal/cmd/pipe.go:112-142 | The arguments end to end are the text without quote marks and separating blanks, and none is empty |
| SplitArgs.ExactlyOutsideQuotes | internal/cmd/pipe.go:112-142 | A text can be continued behind a blank without disturbing its arguments exactly when it ends outside a quote |
| SplitArgs.LineRoundTrip | internal/cmd/pipe.go:112-142 | Arguments written bare or in marks they do not contain, joined by blanks, come back, but for the empty ones |
| SplitArgs.ExactRoundTrip | internal/cmd/pipe.go:112-142 | The round trip is exact just when no argument is empty |
| SplitArgs.EveryListCanBeWritten | internal/cmd/pipe.go:112-142 | The results of splitting are exactly the lists without empty arguments |

## Left out

- Template.RenderArgs: which of several failing arguments is named is left open, as Go's map order leaves it; the meaning of a step therefore says only that an argument was bad.
- Template.RenderValueWithItem: asks that the rescanning ends, since a loop that may run forever has no result to state; the lemmas beside it say when it ends with the result of the single pass, and give texts on which it does not end.
- RescanExact.RescanIsOnePassExactly: where the pass fails, the loop may agree or not, which depends on what the brought-in text expands to.
- Runner.RunSingleStep: for an `each` step it does not say at which item the named argument failed; tools are functions of name and arguments that do not panic (after a panic the engine returns no report, engine.go lines 205-210); transforms are one more tool; cancellation is not modelled.
- Runner.RunParallelBatch: runs the goroutines whole, in any order; their interleaving is the subject of Schedule.
- Schedule.ScheduleIndependent: asks for steps without `each`, which the parser guarantees of parallel steps; data races inside a map copy are not modelled.
- Parser.Validate: after a refusal it says of the steps only that nothing but missing ids and on_fail values were filled in; the program discards them.
- AbortError.AbortNamesErrorExact: the steps behave arbitrarily; that two steps with the same tool and arguments behave alike is not used.
- Cache.Cache.Get: container/list is a sequence of elements; its links between elements are not modelled.
- Cache.Cache.Set: the two clock readings of a Set are one.
- Calendar.TransparentCache: assumes sequential calls (CalendarRace is about overlapping ones), a server changed only through this client, a failed call that changes nothing, and no digest collisions; the rate limiter's failures are the `down` parameter.
- CalendarRace.CoherentExactly: a write is one step; between the server's acceptance and the drop of the keys a hit may be stale.
- Calendar.Service.WriteEvent: create, update and delete are one method with a change; time zones of an event and the returned summary are left out.
- FindSlot.FindSlots: times are in one fixed zone without clock changes, although after a busy jump the program reads the hour in the zone of the busy period; reading the free/busy answer is left out. Go cuts the start to a whole hour of absolute time, which need not be one of the zone; SlotHours treats every offset.
- FindSlot.EveningSkip: for durations above six hours the end-of-day test itself is wrong, as EndOfDayTestExact states.
- Transport.CalculateBackoff: the jitter is an integer between 0 and half the base delay instead of a float.
- Transport.RetryTransport.RoundTrip: bodies, draining and the base transport are left out; the reply carries a status and a Retry-After.
- DriveBatch.BoundedConcurrency: an upload either succeeds or fails; its error text, file id and name are left out.
- SheetsBatch.ReturnedIsComplete: the early return for an empty list is the same result as the run with no entries.
- SheetDiff.DiffRanges: within removed and modified, and within added, the order of the changes is left open, as Go's map order leaves it; the summary text is left out.
- SheetSchema.AnalyzeColumn: fill rate, samples and descriptions are left out; whether a header calls its column optional is a parameter.
- SheetSchema.SamplePassesExact: equality up to case is a parameter that is reflexive and does not confuse trimmed with untrimmed text.
- SheetSchema.ValidateRow: an issue names its column by index and its kind instead of by header and message text.
- SheetSchema.DescribeSheet: its own cache and the choice of the first tab are left out.
- SplitArgs.SplitArgs: the rest of the pipeline command (stages, substitution, flags) is left out.
- Read-your-writes for tasks and for CopyTab: those writes do not invalidate the cache, so there is nothing to prove.
- Agenda caching: its key holds only the number of days, so it is not transparent across midnight.
- Google, GitHub, Slack and Notion requests, HTTP, TLS, OAuth, rate limiting, YAML, regular expressions and file paths: code of others.
- Commands, completion, MCP tables, output formats, onboarding, updates: wrappers.
- Encryption, keyring and file locks of internal/auth: cryptography and operating system.
