# Automation and planning backend: verified model

A Dafny model of the stateful core of the backend, and proofs of what that core guarantees. The
modules follow the program's parts:

| modules | part of the program |
|---|---|
| `Automation`, `Template`, `Exchange` | units, actions, durations, `{{path}}` templates, what a list of actions does |
| `Store`, `Runs` | tables, waiting index, step log and event keys, and the run engine's methods on them |
| `Engine`, `Guarantees`, `Results`, `Refinement` | the run engine as a protocol of atomic steps, and what holds after every history |
| `Matching`, `Ingest`, `Delivery` | from webhook to event to runs, with two layers of deduplication |
| `Placeholders`, `Plan` | the action plan executor and its substitution of earlier results |
| `Sync`, `Watermark` | the Salesforce sync and its high-water-mark protocol |
| `Citations` | merging enrichment batches into an interpretive response |
| `Breaker`, `Retry` | circuit breaker and retry with backoff |
| `Parameters`, `History` | parameter collection for an action, and the per-user history |
| `Json`, `Wrappers` | JSON values and optional values |

Where the program changes state in place there is a class whose methods are proved equal to a
specification function on values; the laws are proved about those functions, and each such function
is also tied to a description that does not use it. The outside world
(tools, the language model, Salesforce, conditions, random numbers) is a parameter that may answer
anything, or fail, and for runs may depend on everything the same run asked before.

In `Engine` a state holds the tables, the waiting index, the clock, every run object in memory and
the scheduler's queue. A happening is one atomic step of any one run, the arrival of a matched event,
a run that an interrupted match leaves behind, a rerun, a tick, the resumption of one due run, the
passing of time, or a crash that loses all memory. The main theorems quantify over all lists of happenings. `Refinement.ExecuteIsSteps` and
`Refinement.TickIsSteps` tie the loops of `execute` and `resumeWaitingRuns` to these steps.

## What the code does that one might not expect

Each of these is the code's behaviour, kept in the model; the lemma named shows it.

- A wait that would end beyond the last instant a Date can hold raises an error, so the run fails at
  the wait itself (`Guarantees.FarWaitExample`; `Guarantees.HopelessWait` says which lists never
  end otherwise, `Guarantees.WaitErasureWithinTime` when none does).
- The step log is written before the row, so a crash between the two leaves a success logged at a
  step the row has not passed (`Guarantees.CrashLeavesLogAhead`); the row then stays `running` for
  good, which no tick reads (`Guarantees.StuckForGood`).
- Nothing prevents two ticks from overlapping, and then an action can be performed twice
  (`Refinement.OverlappingTicksPerformTwice`, `Refinement.OverlapExample`). The protocol in `Engine` assumes that ticks do not overlap.
- A plan step left `failed` or `running` is skipped on re-entry and the run still ends `completed`
  (`Plan.FailedStepIsSkipped`). A success without data marks the step completed but fails the run,
  because announcing it throws (src/services/PlannerService.ts:419-428).
- The whole-string pattern takes `{{a}} x {{b}}` for one placeholder
  (`Placeholders.TwoPlaceholdersTakenForOne`), and a placeholder that names only a step asks for an
  empty key (`Placeholders.BareStepAsksForEmptyKey`).
- Records that share a whole-second stamp can lose one at the limit of an answer, for good
  (`Watermark.TieIsLost`, `Watermark.TieLostExactly`), and a second with as many records as the limit stops the sync (`Watermark.CrowdedExample`,
  `Watermark.CrowdStopsTheSync`).
- A condition asked of the model that throws interrupts the match: runs saved before it are never
  started (`Delivery.NeverStarted`), and the event's key stays taken (`Ingest.InterruptedMatch`).
- Citations of text segments are not renumbered (`Citations.TextCitationsGoAstray`,
  `Citations.TextCitationSurvivesExactly`), and duplicate URLs
  in the base response make numbers wrong (`Citations.DuplicatesLeaveNumbersDangling`,
  `Citations.CitationSurvivesExactly`).
- Successes of calls admitted before the failure count towards closing the breaker
  (`Breaker.StaleSuccessesClose`).
- Different connections can share an event key (`Ingest.KeysCollide`).
- A history page of size 0 at offset 0 is the whole history (`History.EmptyPageExactly`).

## Model

| member | source | states |
|---|---|---|
| `Guarantees.WaitErasure` | src/cortex/runtime.ts:31-89 | After any list of happenings (arrivals, reruns, single steps of any runs interleaved, ticks, resumptions, passing time, crashes), a run that is over ended as a straight-line execution of its actions without the waits (same outcome, error, first failing action, context, calls in order) if and only if it did not stop at a wait that ends after the last instant a Date can hold. |
| `Guarantees.WaitErasureWithinTime` | src/cortex/runtime.ts:169-176 | If every wait of the unit ends within that instant, wait erasure holds without exception. |
| `Guarantees.HopelessWait` | src/cortex/runtime.ts:91-97 | No run gets beyond a wait longer than all time; and if the actions before it raise nothing in a straight line, every run of the list that is over stopped at a wait and did not end as the straight line. |
| `Guarantees.FarWaitExample` | src/cortex/runtime.ts:91-97 | A list with one wait of 14,285,715 weeks or more: its run fails at the wait, unlike the straight line. |
| `Guarantees.ExactlyOnce` | src/cortex/runtime.ts:46-88 | In every reachable state the calls of a run are in strictly increasing action order, hence at most one per action, and come from exactly the `llm` and `tool` actions below the current step, plus the current one if and only if its request is out. |
| `Guarantees.LogAgrees` | src/cortex/store.ts:171-177 | In every reachable state the steps logged as successes are exactly the actions other than waits below the current step, plus the current one exactly between its log entry and the save of the row; a failed entry exists exactly at the step where the run failed or is about to be marked failed. |
| `Guarantees.CrashLeavesLogAhead` | src/cortex/runtime.ts:68-72 | Wherever an action has answered, a crash right after its log entry leaves a row `running` at a step that the log calls a success, after every list of further happenings. |
| `Guarantees.StuckForGood` | src/cortex/runtime.ts:169-176 | A row that is not waiting and has no live execution keeps its content, index entry, log and calls whatever happens next: no tick reads it. |
| `Guarantees.OverForGood` | src/cortex/runtime.ts:75-88 | A run that has succeeded or failed never changes again: row, index entry, log and calls. |
| `Guarantees.LogAheadExample` | src/cortex/runtime.ts:68-72 | A concrete run that reaches such a state. |
| `Guarantees.IndexAlwaysAgrees` | src/cortex/store.ts:107-121 | In every reachable state a run is in `runs:waiting` with score s if and only if its row is `waiting` with `resume_at` = s. |
| `Guarantees.PayloadKept` | src/cortex/store.ts:107-114 | The payload column of a run never changes after the first save: a matched run keeps its truthy event payload, a rerun has none. |
| `Guarantees.RerunOfRerun` | src/cortex/runtime.ts:179-181 | A rerun of a rerun is null and changes nothing. |
| `Guarantees.RerunStartsAlike` | src/cortex/runtime.ts:183-194 | A rerun of a matched run with a truthy payload starts for the same unit and user from the context the original started from. |
| `Guarantees.ReplayAgrees` | src/cortex/runtime.ts:179-196 | Two finished runs for the same unit, user and payload (an original and its rerun, say), neither stopped at a wait, agree on status, step, error, context and calls. |
| `Guarantees.WaitsAreKept` | src/cortex/runtime.ts:91-97 | When a run stands at step k, at least the waiting asked for below k has passed since it first executed; a parked run is due only after its own wait too; it was resumed at most once per wait, crashes aside. |
| `Results.ContextMeans` | src/cortex/runtime.ts:63-66 | In every reachable state, under every name, a run's context holds the value of the last action below its step that left one there, read off the calls made and their replies; if there is none, the payload under `payload` and nothing under any other name. |
| `Results.CallsMean` | src/cortex/runtime.ts:99-107 | Every call a run has made is that of its action: same tool or prompt, for the run's user, its templates filled from a context that obeys the same law for the actions below. |
| `Results.ResultReachesCall` | src/cortex/runtime.ts:114-133 | If a tool's argument is one hole `{{x}}` and the last action below that left something under x left a string, the call carries exactly that string. |
| `Results.SecondCallCarriesFirstReply` | src/cortex/runtime.ts:46-73 | Two actions: what the first finds and stores, the second is called with. |
| `Results.LogMeans` | src/cortex/store.ts:171-177 | Every success row of the step log keeps its action and the value it came back with, unless that is falsy; a failure row keeps the error that was raised, unless it is empty. |
| `Results.EndMeans` | src/cortex/runtime.ts:75-88 | A row has a completion time exactly if it is over; a failed row has the error of its step's log row, any other none. |
| `Results.EndSucceeds` | src/cortex/runtime.ts:75-76 | At the end of its list a run succeeds at that instant. |
| `Results.WaitParks` | src/cortex/runtime.ts:93-97 | At a wait a run is parked until exactly now plus the wait, in row and index alike; beyond the last instant of a Date an error is raised instead. |
| `Results.CallTakesTime` | src/cortex/runtime.ts:52-52 | A call takes the time of its reply, any other action none. |
| `Results.ErrorMeans` | src/cortex/runtime.ts:79-88 | An error fails the run at that instant, with its text. |
| `Results.WaitsMean` | src/cortex/runtime.ts:155-166 | The waiting asked for below a step is the sum of the delays of the waits there. |
| `Results.BegunMeans` | src/cortex/runtime.ts:40-41 | The instant a run first executes is noted once. |
| `Engine.AlwaysOk` | src/cortex/runtime.ts:31-89 | The invariant behind these results, for every run at once and after every list of happenings: row, waiting index, step log, calls, memory and history fit one position computed from the run's origin alone. |
| `Engine.StepSlices` | src/cortex/runtime.ts:46-88 | A step of one run changes that run's row, index entry, log, calls and memory as specified and nothing of any other run. |
| `Engine.TickOk` | src/cortex/store.ts:138-143 | Reading the due runs keeps the invariant: what a tick reads is waiting, due, and not being executed. |
| `Engine.IdealLog` | src/cortex/runtime.ts:68-69 | Below the reached step exactly the actions other than waits are logged, all as successes, each with its own action. |
| `Refinement.ExecuteIsSteps` | src/cortex/runtime.ts:31-89 | From any state with a run about to execute, some number of atomic steps of that run leads to exactly the stores, clock and calls that `execute` as a whole leaves, with the run out of memory. |
| `Refinement.TickIsSteps` | src/cortex/runtime.ts:169-176 | From any reachable state without a tick under way, for every reading of the due rows, a whole tick is what some happenings do, so the state it leaves is reachable and every guarantee holds of it. |
| `Refinement.StepsComeDown` | src/cortex/runtime.ts:46-73 | In every reachable state each step of a run strictly lowers a rank that is never negative, dominated by actions not yet passed: no run steps for ever. |
| `Refinement.ResumptionsComeDown` | src/cortex/runtime.ts:169-176 | Each resumption lowers the same rank, so waiting does not defeat termination. |
| `Refinement.OverlappingTicksPerformTwice` | src/index.ts:213-217 | Two ticks that execute one after the other, both having read a row before either executed it, from any state and with whatever else they read: if the row has a next call, which can be read off its list (actions that send nothing are passed over, a wait or the end means none), that request is sent twice whatever the replies; if it has none, neither tick calls anything for it, given that neither read another version of the row. |
| `Refinement.OverlapExample` | src/index.ts:213-217 | A reachable state, one run parked at a wait of five minutes and then due, from which two such ticks call its tool twice. |
| `Refinement.ResumingCallsExactly` | src/cortex/runtime.ts:169-176 | Resuming a parked run sends the request of its next calling action right after all calls made before; if it has none, nothing is called. |
| `Automation.StraightAppend` | src/cortex/runtime.ts:46-73 | Executing a list of actions is executing any prefix and, if that raised nothing, the rest from where it ended. |
| `Automation.DurationRoundTrip` | src/cortex/runtime.ts:155-166 | A number in decimal followed by m, h, d or w is read as that many times 60,000, 3,600,000, 86,400,000 or 604,800,000 milliseconds, by any other character as no delay. |
| `Automation.DurationForm` | src/cortex/runtime.ts:155-157 | A delay is only read from digits followed by one of the four letters. |
| `Template.ResolveLocal` | src/cortex/runtime.ts:114-133 | Resolved arguments depend only on the context names that occur as first keys of the templates in them. |
| `Template.ScanKeepsText` | src/cortex/runtime.ts:117-122 | Reading a template splits it without losing a character, so text outside the holes is copied as it stands. |
| `Template.ResolveMeans` | src/cortex/runtime.ts:114-133 | At any depth keys, lengths and leaves that are not strings are kept, and every string has its holes filled one after another from the left; what is put in is not scanned. |
| `Template.RenderMeans` | src/cortex/runtime.ts:117-122 | The same for one string: a hole is two braces, a path of letters, digits, underscores and dots, two braces; it becomes the string that stands at its path as it is, the JSON text of any other value there, and empty text if there is none. |
| `Template.Embedded` | src/cortex/runtime.ts:117-122 | A hole after a text in which nothing opens: the text is kept, what stands at the path is put in, the rest is resolved on its own. |
| `Template.PlainText` | src/cortex/runtime.ts:117-122 | A text in which nothing opens is kept. |
| `Json.WalkMeans` | src/cortex/runtime.ts:118-120 | Following a path of keys finds a value exactly if it stands there, under field names of objects and decimal positions of arrays. |
| `Json.ArrayIndexMeans` | src/cortex/runtime.ts:120-120 | A key is an array position exactly if it is that number in decimal. |
| `Json.SplitJoin` | src/cortex/runtime.ts:118-118 | Splitting a path of keys without dots gives the keys. |
| `Exchange.SwapNeighbours` | src/cortex/runtime.ts:46-73 | Anywhere in any list, two neighbouring actions that do not fail where they stand, store under different names and do not read each other's name can be swapped: same progress, error and context, same calls. Needs a world whose replies ignore earlier calls. |
| `Exchange.IndependenceExample` | src/cortex/runtime.ts:63-66 | Two tools that store under different names and read neither are independent, two that store under one name are not. |
| `Exchange.HistoryIrrelevant` | src/cortex/runtime.ts:46-73 | In such a world the calls made before do not change what a list of actions does. |
| `Guarantees.ExchangedRunsAgree` | src/cortex/runtime.ts:31-89 | The exchange for lists with waits and persisted runs: two runs that are over, not at a wait, whose lists without waits differ only in the order of two such neighbours agree on status, error, context, progress and calls. |
| `Runs.Runtime.Execute` | src/cortex/runtime.ts:31-89 | The loop over the mutable stores ends in exactly the stores, clock, calls and run of the recursive specification, and leaves the units alone. |
| `Runs.Runtime.ResumeWaitingRuns` | src/cortex/runtime.ts:169-176 | A tick resumes exactly the rows that were due when it began, one after another, each one step further, and keeps index and table in agreement. |
| `Runs.Runtime.Rerun` | src/cortex/runtime.ts:179-196 | Null and nothing changed unless the row kept a truthy payload; otherwise a new run from that payload is executed. |
| `Runs.Runtime.Advance` | src/cortex/runtime.ts:63-72 | After a success: value stored, step logged, then row saved at the next step. |
| `Runs.Runtime.Abort` | src/cortex/runtime.ts:79-88 | After an error: failed row logged at the step, then the run saved as failed with its error and completion time. |
| `Runs.Outside.Perform` | src/cortex/runtime.ts:99-110 | An `llm` or `tool` action sends one request with resolved arguments and takes time; any other type sends none and returns nothing. |
| `Runs.ExecuteKeepsIndex` | src/cortex/runtime.ts:31-89 | Executing any run, from any state in which index and table agree, keeps them in agreement. |
| `Runs.ResumeAllKeepsIndex` | src/cortex/runtime.ts:169-176 | So does a whole tick. |
| `Store.HybridStore.SaveRun` | src/cortex/store.ts:107-121 | Upsert: on conflict only status, step, context, completion, resumption time and error change, never the payload; the index gets the run exactly if it is waiting until some time, and loses it otherwise. |
| `Store.HybridStore.LogRunStep` | src/cortex/store.ts:171-177 | One row per run and step index; a second entry keeps the action and overwrites the rest. |
| `Store.HybridStore.GetWaitingRuns` | src/cortex/store.ts:138-143 | The rows of all index members with score at most now, each once, in any order. |
| `Store.HybridStore.WriteEvent` | src/cortex/store.ts:19-30 | False and nothing changed if the event has a key seen in the last seven days; otherwise the event is published once and its key, if any, lives for seven days. |
| `Store.DueMeansDue` | src/cortex/store.ts:138-143 | When index and table agree, the runs read are exactly the rows that say `waiting` with `resume_at` reached. |
| `Store.SavedAgrees` | src/cortex/store.ts:107-121 | Any save of a run that, if waiting, says until when, keeps index and table in agreement. |
| `Store.SavedFrame` | src/cortex/store.ts:107-121 | A save touches no other run's row or index entry and no payload column. |
| `Store.SavedMeans` | src/cortex/store.ts:107-114 | What a save writes, field by field: a new row is the run as it is, with a truthy payload; an existing row takes over progress and times and keeps unit, event, user, start and payload. |
| `Matching.Matcher.Match` | src/cortex/matcher.ts:18-38 | One new pending run, saved with the payload, for each triggered unit that passes, in order, up to the first unit that throws; it returns the runs exactly if none throws; no existing row changes. |
| `Matching.Matcher.Evaluate` | src/cortex/matcher.ts:40-77 | It throws exactly if a condition that the evaluation gets to throws; otherwise it says whether the filter, if there is one, and all conditions hold. |
| `Matching.Matcher.UnitsByTrigger` | src/cortex/store.ts:67-73 | The active units with the trigger, each once. |
| `Matching.OneRunPerUnit` | src/cortex/matcher.ts:18-77 | When no unit throws: the runs of a match are for distinct units, and a unit has one if and only if it is active, its source and event are the event's, its filter (if any) and all its expressions hold and the model says yes to each of its other conditions. |
| `Matching.RunsUpToThrow` | src/cortex/matcher.ts:26-35 | In every case: the saved runs are for distinct units, and a triggered unit has one if and only if it passes and stands before the first that throws. |
| `Ingest.EventShaper.HandleWebhook` | src/cortex/event-shaper.ts:47-137 | Nothing inside the five-minute window, without an owner or without changes; otherwise the event goes to the store, which may know it already, and the window is set either way. |
| `Ingest.Spacing` | src/cortex/event-shaper.ts:47-137 | Two events emitted for one connection and model are at least five minutes apart, two accepted under one key at least seven days. |
| `Ingest.EmittedExactly` | src/cortex/event-shaper.ts:55-60 | A webhook with changes and an owner is emitted if and only if no emission under its window key is less than five minutes old. |
| `Ingest.NothingToEmit` | src/cortex/event-shaper.ts:75-95 | A webhook without an owner or without changes is never emitted. |
| `Ingest.AcceptedExactly` | src/cortex/store.ts:19-30 | An emitted event is accepted if and only if none under its key was accepted less than seven days before. |
| `Ingest.EventMeans` | src/cortex/event-shaper.ts:100-116 | What the event says: name, owner, key, source by the beginning of the model's name, and connection, model, counts and sync name in its payload. |
| `Ingest.OncePerSevenDays` | src/cortex/store.ts:19-30 | In any seven days at most one event is accepted under a key. |
| `Ingest.OneRunPerUnitAndKey` | src/index.ts:185-202 | Hence two runs of one unit that events of one key left within seven days are the same run, also when a match is interrupted. |
| `Ingest.Processor.ProcessCortexEvent` | src/index.ts:185-202 | A known key: nothing happens. A new event: its key is taken first, the runs up to a throw are saved, and they are handed to execution exactly if no unit throws. |
| `Ingest.InterruptedMatch` | src/cortex/matcher.ts:79-107 | After a throw exactly the passing units before it have a saved run, which is pending, and the key is refused for seven days, so sending the event again does not help. |
| `Delivery.NeverStarted` | src/index.ts:185-202 | An interrupted match in any reachable state: the table then is what the match made it, and whatever happens next each run it saved stays pending at step 0 as first saved, with nothing logged and nothing called for it. |
| `Ingest.KeysCollideExactly` | src/cortex/event-shaper.ts:112-114 | Two webhooks share an event key if and only if connection and model agree or one connection goes on, after an underscore, with the start of the other's model. |
| `Ingest.KeysCollide` | src/cortex/event-shaper.ts:112-114 | A concrete pair of different connections that share an event key, so that the second one's changes are emitted and dropped. |
| `Placeholders.WholeIsOneExactly` | src/services/PlanExecutorService.ts:52-84 | A string taken for one placeholder is one placeholder to the scan of the other branch if and only if no two braces close it earlier. |
| `Plan.PlanExecutor.ExecutePlan` | src/services/PlanExecutorService.ts:164-535 | The loop over the mutable plan ends in the plan, run status, completion mark and calls of the recursive specification. |
| `Plan.PlanExecutor.ExecuteStep` | src/services/PlanExecutorService.ts:212-429 | Arguments resolved, corrected if invalid and the correction is valid; one call; the step completed, failed or left running as the reply says; goes on only after success with data. |
| `Plan.PlanExecutor.FollowUp` | src/services/PlanExecutorService.ts:432-504 | After a completed step the next step's arguments may be replaced, from the last completed step's result, whatever the next step's status. |
| `Plan.FailStop` | src/services/PlanExecutorService.ts:180-430 | For any plan: the tools are called exactly for the open steps up to and including the first that does not go on, once each, in plan order; later steps are untouched; every open step before the stop is completed with data; steps that were not open keep status and result; the stopping step was open and failed, is left running, or came back without data. |
| `Plan.OpenMeans` | src/services/PlanExecutorService.ts:212-212 | A step is executed exactly if it is pending or ready. |
| `Plan.CompletedExactly` | src/services/PlanExecutorService.ts:505-510 | From a plan of pending, ready and completed steps the run ends completed if and only if every step is completed and each executed one brought data. |
| `Plan.CompletedRunFromAnyPlan` | src/services/PlanExecutorService.ts:191-210 | From any plan: a run that ends completed has all steps completed if and only if the plan held only pending, ready and completed steps. |
| `Plan.FailedStepIsSkipped` | src/services/PlanExecutorService.ts:191-210 | A failed step is skipped on re-entry and the run marked completed. |
| `Plan.Resumption` | src/services/PlanExecutorService.ts:180-505 | For any plan and any point k its execution reaches: a plan that holds the statuses and results of that point below k (any arguments) and the original steps from k on executes, from its beginning, to the same statuses, results, calls and run status, and the same arguments from k on. |
| `Plan.StepMeans` | src/services/PlanExecutorService.ts:212-429 | For every open step an execution gets to: the next call is that step's, with its arguments of then, their placeholders filled from the results the plan has then, or corrected if those are invalid; afterwards the step holds that reply for good, and the steps before it stay. |
| `Plan.PlaceholderReachesTool` | src/services/PlanExecutorService.ts:219-223 | If the first step with an id ends with data that has v under some keys, and a later open step then has an argument that is exactly the placeholder for that id and these keys, its resolved arguments carry v there, and so does the call if those are valid. |
| `Plan.ResultsMean` | src/services/PlanExecutorService.ts:62-65 | A placeholder sees the result data of the first step with its id, and nothing exactly if there is no such step or it has no result. |
| `Plan.FollowUpMeans` | src/services/FollowUpService.ts:34-48 | A follow-up is shown the data of the last completed step and the next tool; what it proposes replaces the next step's arguments and nothing else. |
| `Plan.CallAlike` | src/services/PlanExecutorService.ts:212-260 | The call a step makes does not depend on the arguments of other steps. |
| `Plan.FollowedUpAlike` | src/services/FollowUpService.ts:34-48 | Nor does what a follow-up proposes. |
| `Placeholders.Get` | src/services/PlanExecutorService.ts:31-42 | The loop with its early exit finds the value at the path, or nothing. |
| `Placeholders.PlaceholderMeans` | src/services/PlanExecutorService.ts:54-66 | A placeholder asks the step before the first dot for what stands under the keys after it; one `result` between them is passed over. |
| `Placeholders.UnbracketMeans` | src/services/PlanExecutorService.ts:32-32 | An index in brackets is one more key. |
| `Placeholders.LeadingIndex` | src/services/PlanExecutorService.ts:32-32 | A leading index needs no key before it. |
| `Placeholders.WholeMeans` | src/services/PlanExecutorService.ts:52-52 | A string is one whole placeholder exactly if it is one line of text, not empty, between double braces. |
| `Placeholders.ResolveReshapes` | src/services/PlanExecutorService.ts:44-108 | At any depth, keys, array lengths and leaves that are not strings are kept; a string that is one whole placeholder becomes exactly the value it names, unscanned, or stays; in any other string the placeholders are filled one after another from the left, the text around them is kept, and what is put in is not scanned. |
| `Placeholders.RenderSubstitutes` | src/services/PlanExecutorService.ts:76-98 | The scan and replacement of a string meets that description, stated by splitting the string at its first placeholder. |
| `Placeholders.Embedded` | src/services/PlanExecutorService.ts:76-98 | A placeholder after a text in which nothing opens: the text is kept, the value put in as it is, whatever braces it contains, and the rest resolved on its own. |
| `Placeholders.OneEmbedded` | src/services/PlanExecutorService.ts:76-98 | One placeholder between plain texts resolves to the texts around its value. |
| `Placeholders.ResolveLocal` | src/services/PlanExecutorService.ts:44-108 | The result depends only on the results of the steps named in placeholders. |
| `Placeholders.UnresolvedUnchanged` | src/services/PlanExecutorService.ts:44-108 | A false flag means the value comes out as it went in. |
| `Placeholders.ArgsUnresolvedUnchanged` | src/services/PlanExecutorService.ts:44-108 | The same for a whole argument object. |
| `Placeholders.FlagOfString` | src/services/PlanExecutorService.ts:66-88 | The flag is set for a string exactly if a placeholder in it has a value. |
| `Placeholders.FlagInside` | src/services/PlanExecutorService.ts:100-102 | For an array or object it is set exactly if it is for something in it. |
| `Placeholders.FilledMeans` | src/services/PlanExecutorService.ts:76-98 | A placeholder inside a text becomes the text of what it asks for, or stays if that is not there. |
| `Placeholders.ScanKeepsText` | src/services/PlanExecutorService.ts:64-84 | Reading a string with placeholders loses no character. |
| `Placeholders.TwoPlaceholdersTakenForOne` | src/services/PlanExecutorService.ts:52-52 | `{{a}} x {{b}}` is taken as one placeholder naming a step that is neither a nor b. |
| `Placeholders.BareStepAsksForEmptyKey` | src/services/PlanExecutorService.ts:44-62 | A placeholder of a step id alone, or with `.result`, has a value only if the data is an object with the empty key. |
| `Sync.Syncer.SyncEntity` | nango-integrations/salesforce-2/syncs/fetch-entities.ts:175-233 | With a stamp it asks for what changed since that stamp's whole second, oldest first, up to the incremental limit; without one for the newest, up to the backfill limit. It saves a prefix of what it reads, under its own model only; it ends without an error if and only if reading does and every save works, and then it has saved all it read and the state advances to the latest stamp. |
| `Sync.Syncer.FetchData` | nango-integrations/salesforce-2/syncs/fetch-entities.ts:145-173 | Each of the six entities is synced from its own previous state and saves under its own model; one that throws or has nothing keeps what it had; no other state or model changes; if every save works, exactly those whose pages can be read end without an error. |
| `Sync.Syncer.SaveRecords` | nango-integrations/salesforce-2/syncs/fetch-entities.ts:252-264 | Saved in chunks of 200: always a prefix, all of it in as few saves as that allows on success, and only under the model named. |
| `Sync.LatestIsLatest` | nango-integrations/salesforce-2/syncs/fetch-entities.ts:196-206 | The new watermark is the old one or a stamp that was read, and at least as late as each. |
| `Sync.LatestAppend` | nango-integrations/salesforce-2/syncs/fetch-entities.ts:196-206 | Folding the stamps page by page is folding them over all pages. |
| `Sync.ReadMeans` | nango-integrations/salesforce-2/syncs/fetch-entities.ts:188-206 | Exactly what is read: page after page while there is a next one and fewer than 1200 records have come; an error on the way keeps what came before. |
| `Sync.NextStateMeans` | nango-integrations/salesforce-2/syncs/fetch-entities.ts:213-220 | No state if there was none and no record has a stamp; otherwise the latest of the old stamp and the records' (SystemModstamp, else LastModifiedDate), with the backfill done. |
| `Watermark.NeverAGap` | nango-integrations/salesforce-2/syncs/fetch-entities.ts:175-221 | Over any list of changes, deletions, syncs, page errors, failed saves and retries, if no two records ever share a whole-second stamp: every current version stamped between the first sync's floor and the watermark has been saved, and every one above the floor has been or is still asked for; if no two ever share a stamp, also those stamped exactly at the floor or the watermark. |
| `Watermark.MarkNeverMovesBack` | nango-integrations/salesforce-2/syncs/fetch-entities.ts:175-221 | The watermark never moves back, whatever happens next. |
| `Watermark.SyncRefines` | nango-integrations/salesforce-2/syncs/fetch-entities.ts:175-221 | What SyncEntity promises, when the server answers the query it asks (spelled out) correctly or fails on the way, is an `Ask` and a `Reply` of the protocol: the states agree, what the platform holds is what the protocol has saved, nothing is lost and the mark does not move back. |
| `Watermark.FirstSyncSaves` | nango-integrations/salesforce-2/syncs/fetch-entities.ts:180-186 | A complete first sync saves everything if its answer has room for more, and otherwise everything newer than its last row. |
| `Watermark.FloorMeans` | nango-integrations/salesforce-2/syncs/fetch-entities.ts:180-186 | The floor is below every stamp if the first answer had room for more, otherwise the stamp of its last row. |
| `Watermark.FloorStays` | nango-integrations/salesforce-2/syncs/fetch-entities.ts:180-186 | Once there is a watermark the floor never moves. |
| `Watermark.MovesExactly` | nango-integrations/salesforce-2/syncs/fetch-entities.ts:223-233 | In a quiet source a complete incremental sync moves the watermark if and only if something is new and the records of the cut-off second that must be fetched again are fewer than the limit. |
| `Watermark.CrowdStopsTheSync` | nango-integrations/salesforce-2/syncs/fetch-entities.ts:223-233 | If those records are as many as the limit, no number of complete syncs of a quiet source moves the watermark. |
| `Watermark.CrowdedExample` | nango-integrations/salesforce-2/syncs/fetch-entities.ts:223-233 | Such a source for every entity, with a new record that a correct answer leaves out. |
| `Watermark.MovingShrinks` | nango-integrations/salesforce-2/syncs/fetch-entities.ts:223-233 | When it moves, the set of records not yet synced gets strictly smaller. |
| `Watermark.QuietSourceIsCaughtUp` | nango-integrations/salesforce-2/syncs/fetch-entities.ts:270-276 | If no second holds as many records as the limit, every complete sync of a quiet source with anything new shrinks what remains. |
| `Watermark.CatchesUp` | nango-integrations/salesforce-2/syncs/fetch-entities.ts:175-233 | Then as many complete syncs as there are new records reach a watermark beyond which there is nothing, with everything from the floor on saved if no two records ever shared a stamp; one sync more saves everything above the floor in any case. |
| `Watermark.TieIsLost` | nango-integrations/salesforce-2/syncs/fetch-entities.ts:223-233 | The hypothesis is needed, for every entity: if one record more than fits into an answer share a whole-second stamp, a complete sync can leave one out, and that version is never saved, whatever happens next. |
| `Watermark.TieIsLostExample` | nango-integrations/salesforce-2/syncs/fetch-entities.ts:25-143 | Such a state and sync for each of the six entities. |
| `Watermark.TieLostExactly` | nango-integrations/salesforce-2/syncs/fetch-entities.ts:270-276 | A record up to the new watermark that a complete answer leaves out shares the watermark's stamp, and the next query asks for it if and only if that stamp is not a whole second. |
| `Watermark.MissedForGood` | nango-integrations/salesforce-2/syncs/fetch-entities.ts:223-233 | A version stamped with a whole second at or below the watermark and not saved by then is never saved. |
| `Watermark.DefinitionsAreCapped` | nango-integrations/salesforce-2/syncs/fetch-entities.ts:25-143 | Every entity's limits stay within the cap on records per sync. |
| `Citations.CitationsPreserved` | src/routes/interpret.ts:222-272 | If the base sources have distinct URLs and are numbered by position, then after any batches in any order and the clean-up they still are, base sources and segments are prefixes, and every in-range citation of a context or quote leads to the URL its batch cited. |
| `Citations.CleanUpIsIdentityExactly` | src/routes/interpret.ts:267-272 | For position-numbered base sources the final filter and re-index changes nothing if and only if the base sources have distinct URLs. |
| `Citations.MergeCitesAlike` | src/routes/interpret.ts:222-255 | Every segment of every batch ends up at a known place in the merged response and cites what its batch cited, whether or not base URLs are distinct. |
| `Citations.MergeGrows` | src/routes/interpret.ts:222-255 | Merging only appends; distinct URLs and numbering by position are kept. |
| `Citations.AddAllIsFirsts` | src/routes/interpret.ts:222-237 | Merging gives the base, then the first source of each new URL, in order, with URL and title as they are, numbered on. |
| `Citations.CleanedUpIsFirsts` | src/routes/interpret.ts:267-272 | The clean-up gives the first source of each URL, in order, numbered from one. |
| `Citations.FinalSources` | src/routes/interpret.ts:222-272 | The sources of the final response are, of the base's and then the batches' sources, the first of each URL, in order, with URL and title as they are, numbered from one. |
| `Citations.FinalSegments` | src/routes/interpret.ts:240-255 | The segments are the base's, then each batch's in order, and no others. |
| `Citations.FinalSegment` | src/routes/interpret.ts:240-255 | Each batch segment keeps its kind, its title as tagged with the batch's key, and every number that is not one of the batch's sources. |
| `Citations.NumberSurvivesExactly` | src/routes/interpret.ts:267-272 | The clean-up on its own: number n still leads to the URL it led to if and only if the first n sources have distinct URLs. |
| `Citations.CitationSurvivesExactly` | src/routes/interpret.ts:222-272 | For any base, batches and in-range citation of a context or quote: the rewritten number leads to the cited URL before the clean-up, and after it if and only if the base sources up to that URL, or all of them if it is new, have distinct URLs. |
| `Citations.DuplicatesLeaveNumbersDangling` | src/routes/interpret.ts:267-272 | A base with one URL twice and a batch that quotes its own new source: the rewritten number is 3, and two sources are left. |
| `Citations.TextCitationSurvivesExactly` | src/routes/interpret.ts:239-272 | In the final response a text segment is as its batch had it, and an in-range number leads to the URL its batch meant if and only if that number is where the URL goes, computed from the base sources and the batches' sources alone: its place in the base, or the base's length plus the number of new URLs before it. |
| `Citations.NewBatchKeepsNumbersExactly` | src/routes/interpret.ts:239-255 | A batch of distinct URLs new to the base keeps the numbers of its text segments if and only if the base is empty. |
| `Citations.TextCitationsGoAstray` | src/routes/interpret.ts:236-255 | A text segment's citation is not rewritten: a batch citing its own source ends up citing the base's. |
| `Citations.Response.Merge` | src/routes/interpret.ts:222-255 | The callback with its index map appends sources and rewritten segments as the specification says. |
| `Citations.Response.MergeSources` | src/routes/interpret.ts:222-237 | The loop appends exactly the new sources and its map holds, for each local number, the position of that URL. |
| `Citations.Response.Rewrite` | src/routes/interpret.ts:236-252 | Looking a citation up in the index map is renumbering it by URL. |
| `Citations.Response.CleanUp` | src/routes/interpret.ts:267-272 | The filter and re-index leave sources with distinct URLs, numbered by position, and lose no URL; the filter by first position over the whole list is the recursive one. |
| `Breaker.Safety` | src/monitoring/error-handling.ts:175-215 | For thresholds at least 1 and any interleaving of any number of calls: the failure count is the failures since construction or last close; closed if and only if below the threshold; the remembered time is that of the latest failure; while half-open the success count is that since the trial began, below its threshold, with no failure since. |
| `Breaker.OpenAdmitsAfterTimeout` | src/monitoring/error-handling.ts:176-184 | While open, a call is admitted if and only if more than the timeout has passed since the latest failure, and it opens a trial. |
| `Breaker.OtherwiseAdmits` | src/monitoring/error-handling.ts:175-190 | While the breaker is not open every call is admitted and changes nothing. |
| `Breaker.Defaults` | src/monitoring/error-handling.ts:166-172 | Absent or zero options mean five failures, two successes and one minute. |
| `Breaker.ClosesExactly` | src/monitoring/error-handling.ts:191-200 | It closes if and only if the event is the success that makes up the threshold since the trial began, with no failure in between. |
| `Breaker.StaleSuccessesClose` | src/monitoring/error-handling.ts:191-200 | Successes of calls admitted before the failure can close it while the trial call is still out. |
| `Breaker.CircuitBreaker.constructor` | src/monitoring/error-handling.ts:163-172 | Closed with no counts; an absent or zero option means its default. |
| `Breaker.CircuitBreaker.Begin` | src/monitoring/error-handling.ts:175-184 | The part of a call before the operation is one `Enter` event; it fails fast exactly if not admitted. |
| `Breaker.CircuitBreaker.Succeeded` | src/monitoring/error-handling.ts:188-200 | The part after a success is one `Succeed` event on the state then found. |
| `Breaker.CircuitBreaker.Failed` | src/monitoring/error-handling.ts:202-215 | The part after a failure is one `Fail` event on the state then found. |
| `Retry.WithRetry` | src/monitoring/error-handling.ts:91-149 | For `maxRetries` at least 0: between one and `maxRetries + 1` runs, stopping at the first attempt that succeeds, is not retryable, is the last or is not transient; returns that attempt; sleeps the delays between. Below 0 the operation never runs. |
| `Retry.FirstSuccess` | src/monitoring/error-handling.ts:98-148 | The result is a success if and only if a run was, and every earlier run failed with a transient, retryable error. |
| `Retry.DelayBounded` | src/monitoring/error-handling.ts:74-88 | Each delay is between 0 and the smaller of its exponential value and the maximum, jitter included. |
| `Retry.DelayMeans` | src/monitoring/error-handling.ts:74-88 | Without jitter a delay is the smaller of the exponential value and the maximum; with jitter that times 0.5 plus half the random number. |
| `Retry.TransientMarks` | src/monitoring/error-handling.ts:223-247 | An error is transient if one of eleven marks stands anywhere in its text, in capitals or not. |
| `Retry.NotTransient` | src/monitoring/error-handling.ts:223-247 | A short text without a mark is not. |
| `Retry.LinearBound` | src/monitoring/error-handling.ts:74-88 | At most `maxRetries` delays sum to at most `maxRetries * maxDelayMs`. |
| `Retry.GeometricBound` | src/monitoring/error-handling.ts:74-88 | For a multiplier above 1, n delays sum to at most `initial * (mult^n - 1) / (mult - 1)`. |
| `Parameters.OrderIndependent` | src/action-launcher.service.ts:267-306 | Two non-empty lists of updates of known parameters that agree on every last value leave the same missing set, status and values. |
| `Parameters.MissingAfter` | src/action-launcher.service.ts:283-295 | The missing list stays free of duplicates and holds exactly the names that start and last values demand. |
| `Parameters.ReadyExactly` | src/action-launcher.service.ts:297-300 | After at least one update the status is ready if and only if no required parameter is missing. |
| `Parameters.ValuesAfter` | src/action-launcher.service.ts:276-281 | Each parameter has the last value given for it, else its first one. |
| `Parameters.ValueMeans` | src/action-launcher.service.ts:287-287 | A text with a character that is not white space is a value; a missing value or a blank text is none. |
| `Parameters.ActionLauncher.UpdateParameterValue` | src/action-launcher.service.ts:267-306 | Null and nothing changed for an unknown action or parameter; otherwise the stored action is updated in place and the ready event is emitted exactly when it ends ready. |
| `Parameters.ActionLauncher.CreateAndStoreAction` | src/action-launcher.service.ts:432-487 | A new action is stored under its session and id; every other one is still found. |
| `History.StreamedIsTop` | src/services/HistoryService.ts:70-99 | After any additions the stored set is the 100 greatest, in order of score and member, of everything ever added; nothing added is lost or doubled in the full set it is cut from. |
| `History.GreatestAreGreatest` | src/services/HistoryService.ts:88-99 | What the cut keeps is greater than all it drops, and there are 100 of it. |
| `History.PagesCoverAll` | src/services/HistoryService.ts:116-131 | Pages of any size at least 1 put together are the whole history, newest first. |
| `History.NewestFirst` | src/services/HistoryService.ts:116-131 | The reverse of a set in order goes down and has the same entries. |
| `History.OrderMeans` | src/services/HistoryService.ts:88-96 | Order is by score, then by member, character by character, a text before its continuations. |
| `History.EmptyPageExactly` | src/services/HistoryService.ts:116-131 | A page of size 0 is empty, except at offset 0, where it is everything. |
| `History.UpdateKeepsLimit` | src/services/HistoryService.ts:175-205 | An update never makes the history longer. |
| `History.UpdateLaw` | src/services/HistoryService.ts:175-205 | An update of an unknown id changes nothing; otherwise the first entry with the id is replaced by its rewriting under its own time stamp, the order is kept and every entry of another member stays. |
| `History.StoredIsSortedAndBounded` | src/services/HistoryService.ts:70-224 | After any additions, updates and deletions the stored set is in order and holds at most 100 entries. |
| `History.HistoryService.AddHistoryItem` | src/services/HistoryService.ts:70-99 | The member is added with its score, then all but the greatest 100 are removed, for this user only. |
| `History.HistoryService.GetUserHistory` | src/services/HistoryService.ts:116-131 | The entries from position `offset` on, newest first, `limit` of them or as many as there are; a limit of 0 at offset 0 gives all, at any other none. |
| `History.HistoryService.UpdateHistoryItem` | src/services/HistoryService.ts:175-205 | The first member with the id is removed and added again as rewritten, with the score of its own time stamp; false if there is none. |
| `History.HistoryService.DeleteUserHistory` | src/services/HistoryService.ts:219-224 | The user's set is gone, no other changes. |

## Left out

- Guarantees.WaitErasure: runs whose unit does not exist are excluded; they only ever fail, with no log and no calls, which `Engine.AlwaysOk` says of them. The unit's action list is fixed while runs exist.
- Engine.AlwaysOk: assumes ticks that do not overlap, and atomic single operations on the stores; a database or Redis failure inside one `saveRun` is not modelled.
- Exchange.SwapNeighbours: assumes a world that forgets earlier calls, which any exchange of calls needs.
- Store.HybridStore.WriteEvent: the test for the key and its setting are one atomic step, and the stored copy of the event is left out.
- Matching.Matcher.Match: what an expression yields, and what the model answers to a condition or that it throws, are arbitrary functions of the condition and the payload. Run ids are supplied and unused. A failing save is not modelled.
- Ingest.Spacing: webhooks are processed one after another. `getUserId` and its cache are the owner given with the webhook, and the event id and the times are given.
- Plan.PlanExecutor.ExecutePlan: announcements, history records, step start and end times and the offloading of large results to Redis are left out. Validation, correction and follow-up are functions of what they are shown.
- Placeholders.ResolveReshapes: substitution is modelled on values; that the source works in place on a copy, and aliasing between arguments and results, are not captured.
- Sync.Syncer.SyncEntity: the query text, its escaping and the request are left out; what a correct answer to a query is, is stated in `Watermark.IsAnswer`.
- Watermark.NeverAGap: assumes that no change gets a stamp earlier than one before it, and none a whole second that was used before; the paging server answers from the source as it was when the query ran. The first sync vouches for records from its floor on, since its query is cut at a limit.
- Citations.Response.Merge: titles get their tag from a function given, and image candidates, hero images and artifacts are left out. Each callback runs without interruption, as it does in the event loop.
- Breaker.Safety: the thresholds are at least 1, as the constructor makes them; clocks may go backwards.
- Retry.GeometricBound: times are real numbers, without floating-point rounding. Letters are lowered for ASCII only.
- Parameters.ActionLauncher.UpdateParameterValue: values are seen as their text; notification timers and the execution of the action are left out.
- History.StreamedIsTop: members are distinct, as each carries a fresh id; expiry of keys is left out. Updates between the additions are left to History.StoredIsSortedAndBounded: an update of an entry already cut away is lost, so the stored set is then not the top of all.
- JSON: numbers are reals, object keys are unordered, and the text of a value is an arbitrary function. Properties that JavaScript finds on strings, array lengths or prototypes are absent.
- Null entries in a unit's action list, on which the loop of `execute` stops with success.
- Deletion of units and the cascade to their runs, and edits of a unit while its runs wait.
- The `shape...Events` methods of the event shaper, which `handleWebhook` does not call.
- The second copies of this logic in `packages/` and in the other Salesforce sync.
- Sessions, streaming, prompts, metrics, exporters and the HTTP and WebSocket layers.
