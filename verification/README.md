# Nuclei engine: a verified model

This project models the self-contained algorithms of the Nuclei scan engine in Dafny and proves what
they promise, over every input, every schedule and any number of runs:

- **Resume.** One template over all targets with its in-flight records, and whole scans that are
  interrupted, saved, crashed and resumed any number of times (`Resume`, `ResumeProtocol`). Resuming
  executes every target at least once exactly when there are at most 2^32 targets, no host-error skips,
  no cancellation, and no save with nothing in flight. Every other case has a schedule that loses one.
- **Workflows.** The recursive, concurrent step scheduler over a pool of slots (`WorkflowStep`,
  `WorkflowScheduler`, `WorkflowDeadlock`): every interleaving ends with the same answer after the same
  number of steps, and the exact pool sizes with which parents that hold a slot can get stuck.
- **Clustering.** Grouping, naming and merging of templates (`ClusterGroups`, `ClusterID`,
  `ClusterTemplates`), the shared pass of all operators over one response (`Operators`, `OperatorResults`,
  `ClusterExecuter`, `ClusterMeaning`, `DefaultProtocol`), and the executer that runs a template alone
  (`TemplateExecuter`). The two are compared in `ClusterAlone` and `ClusterEquivalence`: without
  interference, a cluster writes and reports what its templates write and report alone if and only if
  no template is in one of five ways different, each with an input in `ClusterDifferences`.
  `ClusterEvents` compares them on all responses of one request.
- **Scan strategies.** Template-spray and host-spray as two loop nests with goroutines and pools
  (`Strategies`): under all schedules the same pairs, each once, and the same answer.
- **Uploads.** The buffered writer of results and its channel (`Upload`, `UploadProtocol`): the ledger of
  lines, which lines can be dropped, and the identifier of the scan.
- **Fuzzing.** A rule over a component that its clones partly share (`FuzzComponent`, `FuzzRule`,
  `FuzzExecute`, `FuzzSingle`, `FuzzMeaning`): which requests are made, what is restored, what ends a rule.
- **Tag filter.** Construction and matching against a statement in terms of the configuration
  (`TagFilter`).

Code that updates state is modelled by classes, methods and loops that are proved equal to a function of
the old state; concurrency is modelled by schedules of atomic steps. Goroutines, channels, tickers and
callbacks become events or parameters, and so does everything the code asks of the outside: executer
outcomes, match and extract functions, regular expressions, globs, server answers, and the order in which
a range over a map visits its keys.

## Where a natural claim fails

The code is modelled as it is. Each of these has a lemma for all inputs that says exactly when it holds.

- Completion leaves nothing in flight exactly without host-error skips (`DrainsExactly`).
- An interrupted template with nothing in flight compiles to a window that skips everything
  (`EmptySnapshotLoses`, `SnapshotIsSafeExactly`); a cancelled template is marked completed
  (`CancellationLoses`); a host-error skip shifts the indexes of the targets behind it
  (`HostErrorShiftLosesAnotherTarget`); indexes wrap at 2^32 (`WrapAroundLoses`).
- One spare thread does not prevent a workflow from getting stuck (`TwoThreadsCanDeadlock`,
  `DeadlockExactly`).
- A template of a cluster differs from the same template alone (`ClusterPreservesOutputExactly`,
  `TemplateReportsExactly`, `ClusterAnswersExactly`) when its match comes from internal matchers only,
  which is hidden alone and written by the cluster; when dynamic values suppress in the cluster what it
  shows alone; with failures reported, when AND aborts its matchers or it has dynamic values only, which
  are failures alone and not in the cluster; and when it fails while the event still carries the results
  of an earlier template, which are then written again in place of its failure. Over several responses
  of a request the template alone reports at most one failure, after the last response and only if it
  showed nothing, and the cluster reports one for each (`ClusterPreservesEventsExactly`, with an input
  in `FailureIsRepeated`).
- A line that does not fit behind the upload buffer is dropped even when the flush it causes succeeds
  (`DroppedLine`, `NothingDroppedExactly`).
- A fuzzed value comes back only if it is of certain kinds and its component does not escape its text
  (`RestorableExactly`), so single mode leaves the component as it was exactly when all values come back
  that match and can be set (`SingleRestoresExactly`). A clone shares lists with its component, so a
  payload can change the component of the caller: it does not exactly when every shared list that is
  visited is empty or ends in its own text (`ListsUntouchedExactly`, and for a payload that is refused
  or fails `SingleUntouchedExactly`; for multiple mode and pairs `MultipleUntouchedExactly` and
  `PairUntouchedExactly`), with an input in `SharedListIsOverwritten`.
- A refused request of a key-value rule does not end the rule (`PairsStopExactly`, with an input in
  `RefusedPairsGoOn`).
- One more include tag can lose a match, because blocked tags are not recorded as excluded identifiers
  (`IncludeTagLosesExactly`, with an input in `IncludeTagLoses`).

## Model

| member | source | states |
|---|---|---|
| Resume.ResumeInfo.Clone | pkg/types/resume.go:39-60 | a clone is a new record with the same value in every field |
| Resume.ResumeInfo.CompileRecord | pkg/types/resume.go:93-114 | a record compiles from its serialized part alone to the least and the greatest index that was in flight; a completed one to an empty window |
| Resume.ResumeCfg.Compile | pkg/types/resume.go:90-116 | every loaded record becomes the window of its own snapshot |
| Resume.CompiledSkips | pkg/core/executors.go:87-103 | after compiling, the four-way test runs an index exactly when the template is not completed and the index is not below all that was in flight |
| Resume.EmptySnapshotSkipsEverything | pkg/types/resume.go:98-113 | a snapshot with nothing in flight, of a template not completed, skips every index but the largest |
| Resume.SaveResumeConfig | internal/runner/runner.go:770-781 | the file holds the progress of the current run, and only what is serialized |
| Resume.LoadResumeConfig | internal/runner/runner.go:282-296 | a loaded file gives a compiled record per template and no current records |
| Resume.SaveThenLoad | internal/runner/runner.go:770-781 | saving and loading leaves each template with the window of its own progress |
| ResumeProtocol.TrackingHolds | pkg/core/executors.go:73-156 | every step of the loop and of its goroutines but a host-error skip keeps the in-flight bookkeeping, a cancelled loop included |
| ResumeProtocol.InFlightTracking | pkg/core/executors.go:73-156 | in every state of every run without host-error skips, cancelled or resumed from anything, an index in flight belongs to a worker or is about to get one, the pool bounds their number, and completion leaves none; while indexes do not wrap a target that was taken is in flight, passed over or executed |
| ResumeProtocol.InFlightOrExecuted | pkg/core/executors.go:73-156 | without any hazard a target that was taken is in flight or executed |
| ResumeProtocol.BookkeepingHolds | pkg/core/executors.go:73-156 | the bookkeeping behind the bound is kept for any number of targets |
| ResumeProtocol.DrainsExactly | pkg/core/executors.go:105-156 | completion leaves nothing in flight, over all schedules, if and only if host-error skips are excluded |
| ResumeProtocol.InFlightBound | pkg/core/executors.go:105-156 | at most one index more than the pool holds is in flight |
| ResumeProtocol.NotInFlightIsExecuted | pkg/core/executors.go:73-103 | what was taken and is no longer in flight has been executed in this or an earlier run |
| ResumeProtocol.CompletedMeansAllExecuted | pkg/core/executors.go:150-156 | a template marked completed has been executed on every target |
| ResumeProtocol.SnapshotIsSafe | pkg/types/resume.go:90-116 | a window compiled from a snapshot with something in flight starts where everything before is executed |
| ResumeProtocol.SnapshotIsSafeExactly | pkg/types/resume.go:90-116 | it does so exactly when the template is completed, something was in flight, or nothing is left to lose |
| ResumeProtocol.InvariantHolds | pkg/core/executors.go:49-156 | one invariant over file, records, running templates and a save that is not atomic is kept by every event, crash and restart |
| ResumeProtocol.ReachedInvariant | pkg/core/executors.go:49-156 | it holds after every schedule without hazards, over any number of runs |
| ResumeProtocol.ResumeAtLeastOnce | pkg/core/executors.go:49-156 | after any number of interruptions windows, completed records and finished templates stand for executed targets |
| ResumeProtocol.ResumeAtLeastOnceExactly | pkg/core/executors.go:49-156 | at-least-once execution holds for all schedules if and only if no hazard is allowed and there are at most 2^32 targets |
| ResumeProtocol.EmptySnapshotLoses | pkg/types/resume.go:98-113 | a save between two targets loses targets, for every configuration |
| ResumeProtocol.CancellationLoses | pkg/core/executors.go:80-85 | a cancelled context loses targets, for every configuration |
| ResumeProtocol.HostErrorsLose | pkg/core/executors.go:109-112 | a host-error skip loses targets, for every configuration |
| ResumeProtocol.HostErrorShiftLosesAnotherTarget | pkg/core/executors.go:109-112 | the skip of one host loses another target that was in flight, whose own host is fine |
| ResumeProtocol.WrapAroundLoses | pkg/core/executors.go:53-55 | with more than 2^32 targets the 32-bit index takes a target for another |
| WorkflowStep.CompileCondition | pkg/workflows/workflows.go:86-98 | "and" compiles to AND, "or" and nothing to OR; another condition is an error and leaves none |
| WorkflowStep.Match | pkg/workflows/workflows.go:101-124 | the search over the names decides "some", "all", or without a condition "the last one" |
| WorkflowStep.RunWorkflowStep | pkg/core/workflow_execute.go:53-177 | what a step swaps into the shared flag, which subtemplates it starts in what order, and when it gives up |
| WorkflowStep.ReportsExactly | pkg/core/workflow_execute.go:53-177 | a step reports a match exactly when some such step is reached below it and matches |
| WorkflowScheduler.EachActionIsOneStep | pkg/core/workflow_execute.go:28-47 | every action takes exactly one from the work that remains |
| WorkflowScheduler.ScheduleLength | pkg/core/workflow_execute.go:28-47 | a schedule is as long as the work it did: every run is finite |
| WorkflowScheduler.WaitCounter | pkg/core/workflow_execute.go:28-47 | the wait counter is the number of live activations and of taken slots; once the workflow returned none is left |
| WorkflowScheduler.Confluence | pkg/core/workflow_execute.go:19-49 | every schedule that returns leaves the same flag after the same number of steps, and none is longer |
| WorkflowScheduler.WorkflowResult | pkg/core/workflow_execute.go:19-177 | a workflow returns true exactly when a step without matchers and subtemplates is reached and matches |
| WorkflowDeadlock.PotentialFalls | pkg/core/workflow_execute.go:135-147 | no schedule raises the number of activations that can still come to wait at once |
| WorkflowDeadlock.StuckNeedsLoad | pkg/core/workflow_execute.go:135-147 | a stuck state means that at least as many activations as there are slots can wait at once |
| WorkflowDeadlock.DeadlockExactly | pkg/core/workflow_execute.go:28-47 | a stuck state is reachable if and only if the pool is no larger than that number |
| WorkflowDeadlock.LargePoolProgresses | pkg/core/workflow_execute.go:162-174 | with more slots than activations that start others, something can happen in every unfinished state |
| WorkflowDeadlock.TwoThreadsCanDeadlock | pkg/core/workflow_execute.go:20-26 | a workflow of four steps gets stuck with one or two template threads and with no more |
| Operators.RunExtractors | pkg/operators/operators.go:247-277 | the loop computes the extraction function over data that it updates as it goes |
| Operators.OutputsExactly | pkg/operators/operators.go:247-277 | the output extracts are what the extractors that are not internal find, each once |
| Operators.ExtractionShape | pkg/operators/operators.go:247-277 | the output extracts repeat nothing, and are not empty when something is extracted under a name |
| Operators.RunMatchers | pkg/operators/operators.go:297-325 | the loop yields "some active matcher holds", under AND "there is one and all hold", and what was recorded up to the first that does not |
| Operators.Execute | pkg/operators/operators.go:233-348 | the early returns amount to one closed form: success exactly with dynamic values, a match, or no matchers and something to output |
| Operators.DedupeIdempotent | pkg/operators/operators.go:259-263 | removing repetitions twice is removing them once |
| OperatorResults.MakeDefaultResultEvent | pkg/protocols/protocols.go:265-301 | the events of a result, one per recorded match, else per named extract, else one |
| OperatorResults.ResultEventsExactly | pkg/protocols/protocols.go:265-301 | events made directly of a pass, as a cluster does, exist if and only if something matched, or there are no matchers, no dynamic values and something to output |
| OperatorResults.MutableResult.Merge | pkg/operators/operators.go:184-224 | merging in place, also of a result with itself, is the pointwise combination of the old values |
| OperatorResults.MergeAssociative | pkg/operators/operators.go:184-224 | merging is associative in all merged fields |
| OperatorResults.MergedOutputs | pkg/operators/operators.go:199-211 | merged outputs hold the outputs of both, each once |
| OperatorResults.MakeDynamicValuesCallback | pkg/operators/operators.go:133-181 | call number i sees of every key its value number i or its last, and the calls end after the longest list or at a stop |
| OperatorResults.EveryValueIsSeen | pkg/operators/operators.go:133-181 | without a stop every value of every key is seen |
| ClusterGroups.Place | pkg/templates/cluster.go:51-91 | a template goes into the table of its class, or alone into the list |
| ClusterGroups.SplitUp | pkg/templates/cluster.go:44-91 | after the loop the three tables hold exactly the templates of each class, in order |
| ClusterGroups.Cluster | pkg/templates/cluster.go:43-107 | whatever order the maps are ranged in, the result is the singles and one group per class that occurs |
| ClusterGroups.ClusterPartition | pkg/templates/cluster.go:43-107 | every template is in the groups as often as in the list, each group is a single template or all of one class, and templates of one class share their groups |
| ClusterID.SortSorts | pkg/templates/cluster.go:115 | the sort yields the same strings in order |
| ClusterID.SortedUnique | pkg/templates/cluster.go:115 | any two sorted lists of the same strings are equal, so the algorithm does not matter |
| ClusterID.SplitJoin | pkg/templates/cluster.go:116 | joined identifiers without commas can be split back |
| ClusterID.ValidIDExactly | pkg/templates/parser_config.go:6 | the regular expression of identifiers in closed form, both directions |
| ClusterID.JoinedIDs | pkg/templates/cluster.go:110-116 | the loop, sort and join compute the joined sorted identifiers |
| ClusterID.NameExactly | pkg/templates/cluster.go:110-118 | before hashing, valid clusters have the same name if and only if they have the same templates |
| ClusterID.CommaCollides | pkg/templates/parser_config.go:6 | without the check of identifiers, an identifier of two parts and a comma collides with the cluster of its parts if and only if they are in order |
| ClusterID.CommaCollidesExactly | pkg/templates/cluster.go:110-118 | the same for parts that hold commas themselves |
| ClusterTemplates.NewClusterExecuter | pkg/templates/cluster.go:180-219 | the shared request and, in order, the operators compiled for each member under its own identifier |
| ClusterTemplates.GroupIsIndexable | pkg/templates/cluster.go:202-217 | every group that is clustered keeps all indexes of the constructor in bounds |
| ClusterTemplates.MembersShare | pkg/templates/cluster.go:51-91 | members of a class are flow-free, of a single protocol, with one clusterable request under one key, on the protocol that the constructor selects |
| ClusterTemplates.OneOperatorEach | pkg/templates/cluster.go:191-217 | each operator occurs as often as members with it and its identifier do |
| ClusterTemplates.FirstOperatorsLead | pkg/templates/cluster.go:180-217 | the operators of the shared request, if it has some, come first |
| ClusterTemplates.ClusterTemplates | pkg/templates/cluster.go:120-158 | the final list is what the groups become, and the count is the number of replaced templates; disabled, it is the list |
| ClusterTemplates.LengthBalance | pkg/templates/cluster.go:120-158 | the final list is shorter by the replaced templates and longer by the large groups |
| ClusterTemplates.GetRequestCount | pkg/core/execute_options.go:166-177 | the total over the templates that are not workflows |
| ClusterTemplates.CountOfPermutation | pkg/core/execute_options.go:166-177 | the total depends only on which templates occur how often |
| ClusterTemplates.RequestBalance | pkg/core/execute_options.go:39-54 | the total changes by exactly what the large groups count for before and after |
| ClusterTemplates.ClusteringReduces | pkg/core/execute_options.go:39-54 | clustering never increases the total when every clusterable template counts at least the requests it holds |
| ClusterExecuter.ProcessEvent | pkg/templates/cluster.go:248-276 | one event processed by all operators in turn over its shared data and results |
| ClusterExecuter.WriteFailure | pkg/output/output.go:401-417 | an event that carries results writes those, as failures, instead of a new one |
| ClusterExecuter.WriteResult | pkg/protocols/common/helpers/writer/writer.go:11-34 | nothing is written of an event without an operators result, otherwise every result, and the answer is whether there was one |
| ClusterMeaning.EvaluateLocal | pkg/operators/operators.go:233-348 | operators that read within some keys cannot tell apart data that agree on them |
| ClusterMeaning.PassFrame | pkg/templates/cluster.go:254-258 | a pass changes no key but those that the members extract to and the three of the template |
| ClusterMeaning.PassClosedForm | pkg/templates/cluster.go:254-274 | without interference the output, the results left on the event and the answer of a pass are functions of what the operators of each member come to on the response |
| TemplateExecuter.CreateEvent | pkg/protocols/common/helpers/eventcreator/eventcreator.go:20-50 | the event of a response, with the operators of its request run and dynamic values moved into the data where there are extracts |
| TemplateExecuter.CreatedResultsExactly | pkg/protocols/common/helpers/eventcreator/eventcreator.go:30-48 | a created event carries results if and only if something matched, or there are no matchers and something to output |
| TemplateExecuter.OnResult | pkg/tmplexec/exec.go:144-175 | what the callback writes, and whether a failure may be due |
| TemplateExecuter.ExecuteAlone | pkg/tmplexec/exec.go:133-203 | a template alone on one response: hidden, written, or a failure, and what it answers |
| TemplateExecuter.ExecuteCluster | pkg/templates/cluster.go:245-277 | the event that the shared request created with the operators of the first template, processed by all |
| ClusterAlone.AloneClosedForm | pkg/tmplexec/exec.go:133-203 | what a template reports alone, from its operators on the response itself |
| ClusterAlone.EvaluateAgain | pkg/protocols/common/helpers/eventcreator/eventcreator.go:30-40 | stable operators that created an event come to the same on it again |
| ClusterAlone.SharedIsPlain | pkg/templates/cluster.go:245-277 | that the shared request already ran the first operators makes no difference to the pass |
| ClusterAlone.AnswerAlone | pkg/tmplexec/exec.go:133-203 | a template alone answers true if and only if it hides no match, and counts with something to write or failures are reported |
| ClusterEquivalence.ClusterPreservesOutputExactly | pkg/templates/cluster.go:248-276 | the output of a cluster, results and failures in order, is that of its templates alone if and only if none differs in one of the five ways |
| ClusterEquivalence.TemplateReportsExactly | pkg/templates/cluster.go:267-274 | the results under the name of a template are those of the template alone if and only if it hides no match and no dynamic values stand in the way |
| ClusterEquivalence.ClusterReportsExactly | pkg/templates/cluster.go:267-274 | all results, in operator order, are those of the templates alone if and only if that holds of every template |
| ClusterEquivalence.ClusterAnswersExactly | pkg/templates/cluster.go:235-279 | the answer of the cluster, those of the templates alone, and when they agree for a template |
| ClusterDifferences.DynamicValuesSuppress | pkg/protocols/common/helpers/eventcreator/eventcreator.go:35-40 | an input on which dynamic values suppress a result in the cluster only |
| ClusterDifferences.InternalMatchIsWritten | pkg/tmplexec/exec.go:149-162 | an input on which a hidden match is written by the cluster |
| ClusterDifferences.FailureUnderAndIsLost | pkg/templates/cluster.go:260-265 | an input on which a failure under AND is written alone only |
| ClusterDifferences.DynamicValuesAnswer | pkg/templates/cluster.go:267-270 | an input on which the cluster answers true and the template false |
| ClusterDifferences.FailureIsMisattributed | pkg/output/output.go:401-417 | an input on which a failure is written under the name of another template |
| ClusterDifferences.UnstableOperatorsAreLost | pkg/protocols/common/helpers/eventcreator/eventcreator.go:30-40 | an input on which operators that read what they write report alone and not where they lead a cluster |
| ClusterEvents.ExecuteAloneOn | pkg/tmplexec/exec.go:133-203 | the loop of a template alone over the responses of one request: what it shows on any, and one failure for the last event with nothing to show, if none had something |
| ClusterEvents.ExecuteClusterOn | pkg/templates/cluster.go:245-277 | every response goes through all operators, one after the other |
| ClusterEvents.AloneOnClosedForm | pkg/tmplexec/exec.go:133-203 | output and answer of a template alone over all responses, from its operators on each |
| ClusterEvents.EventsReportExactly | pkg/templates/cluster.go:248-276 | over all responses, the results under the name of a template are those of the template alone if and only if it hides no match, and no dynamic values stand in the way, on each |
| ClusterEvents.ClusterPreservesEventsExactly | pkg/templates/cluster.go:248-276 | the cluster writes under the name of every template what it writes alone over all responses if and only if also no results are left over where one fails, and, with failures reported, a template that shows something fails on no response and one that shows nothing on exactly one, with the failure of the last |
| ClusterEvents.EventsAnswerExactly | pkg/templates/cluster.go:235-279 | the cluster answers true exactly when a template counts on some response, a template alone exactly when it answers true on one |
| ClusterDifferences.FailureIsRepeated | pkg/tmplexec/exec.go:134-141 | an input on which a failure is reported once alone and twice by the cluster |
| DefaultProtocol.DefaultIsLocal | pkg/protocols/protocols.go:303-360 | the default match and extract functions read only the parts and keys that plain operators name, which the theorems on clusters assume |
| Strategies.AtMostOnce | pkg/core/execute_options.go:104-163 | under every schedule, cancelled or not, no pair is executed twice and none outside the scan |
| Strategies.ExactlyOnce | pkg/core/executors.go:159-214 | a scan that is not cancelled executes every pair exactly once |
| Strategies.ResultOfScan | pkg/core/execute_options.go:75-101 | it answers whether a template matched a target or a self-contained template matched; an unknown strategy runs only the latter |
| Strategies.StrategiesAgree | pkg/core/execute_options.go:75-163 | under any two schedules both strategies execute the same multiset of pairs and answer the same |
| Strategies.InvariantHolds | pkg/core/execute_options.go:104-163 | log, flag, loops and answers stay consistent under every schedule |
| Strategies.ScheduleLength | pkg/core/executors.go:49-214 | every step takes one from the work left, so every schedule is finite |
| Strategies.Progress | pkg/core/executors.go:159-214 | with no empty pool something can happen until the scan returns |
| Strategies.PoolsRespected | pkg/core/workpool.go:34-69 | no outer or inner pool is ever over its size |
| Strategies.Separate | pkg/core/execute_options.go:75-84 | the loop that separates self-contained templates |
| Strategies.Separated | pkg/core/execute_options.go:75-84 | every template goes to exactly one side |
| Strategies.Selected | pkg/core/execute_options.go:69-73 | which options select which strategy, and which select none |
| Upload.UploadWriter.SetScanID | internal/pdcp/writer.go:100-106 | an identifier is accepted exactly when it has the valid form, and otherwise nothing changes |
| Upload.UploadWriter.GetRequest | internal/pdcp/writer.go:226-257 | the request creates a scan exactly while there is no identifier, and only then carries the name |
| Upload.UploadWriter.Upload | internal/pdcp/writer.go:196-221 | only a decoded answer with status 200 succeeds, and only it can set an identifier that is not set |
| Upload.UploadWriter.UploadChunk | internal/pdcp/writer.go:185-194 | the buffer is emptied exactly on success |
| Upload.UploadWriter.AutoCommit | internal/pdcp/writer.go:113-182 | the loop over lines, ticks, the closed channel and cancellation |
| UploadProtocol.Ledger | internal/pdcp/writer.go:113-182 | under every schedule successful chunks followed by the buffer are the accepted lines in order, and every line read is received, in the channel or in hand |
| UploadProtocol.LoopFollowsSchedule | internal/pdcp/writer.go:113-182 | in every schedule without a caller's identifier the writer is where the loop gets on the lines, ticks and endings that arrive |
| UploadProtocol.ChunksBounded | internal/pdcp/writer.go:169-178 | the buffer and every chunk stay within the largest size |
| UploadProtocol.DroppedLine | internal/pdcp/writer.go:169-178 | a line that does not fit is gone, although the buffer is empty after the flush |
| UploadProtocol.NothingDroppedExactly | internal/pdcp/writer.go:143-182 | lines are safe from being dropped under all schedules if and only if together they fit into one chunk |
| UploadProtocol.DeliveredExactly | internal/pdcp/writer.go:143-182 | all that was read is uploaded if and only if buffer, channel and hand are empty and nothing was dropped |
| UploadProtocol.EmptyChunkExactly | internal/pdcp/writer.go:169-174 | an empty chunk is attempted exactly for a line that is too long alone, when nothing is buffered |
| UploadProtocol.ScanIDStable | internal/pdcp/writer.go:217-219 | once a request appended, or was answered with an identifier, no later one creates a scan |
| UploadProtocol.IDKept | internal/pdcp/writer.go:217-219 | an identifier that is set stays for the rest of every run, unless a caller sets another |
| UploadProtocol.OneScan | internal/pdcp/writer.go:229-237 | without such a caller all appending requests go to the scan that the first answer named |
| FuzzComponent.RestoresExactly | pkg/fuzz/component/value.go:76-119 | where a component does not escape, storing the shown text brings a value back exactly for texts, flags, 64-bit integers, empty lists and what cannot be set |
| FuzzComponent.ParseFormatted | pkg/fuzz/component/value.go:96-101 | a formatted number parses back exactly within 64 bits |
| FuzzComponent.Component.SetValue | pkg/fuzz/component/value.go:76-119 | one key changes as its kind allows, lists stay in place, a typed slice is copied |
| FuzzComponent.Component.Clone | pkg/fuzz/component/value.go:40-46 | a clone has the same values and shares the lists |
| FuzzComponent.Component.Delete | pkg/fuzz/component/value.go:122-124 | one key goes, and the answer says whether it was there |
| FuzzRule.ExecuteRuleTypes | pkg/fuzz/parts.go:196-230 | the five ways to combine a value with its replacement |
| FuzzRule.ReplacementIsInserted | pkg/fuzz/parts.go:196-223 | prefix, postfix and infix rules insert the replacement at one place, and cutting it out gives the value back |
| FuzzRule.ExecWithInput | pkg/fuzz/parts.go:149-177 | one request is logged under its reported parameter, and a refusal is the only error |
| FuzzRule.ExecutePartComponentOnValues | pkg/fuzz/parts.go:52-101 | the mutate, send and restore loop over the keys of a clone, and the one request of multiple mode |
| FuzzRule.ExecutePartComponentOnKV | pkg/fuzz/parts.go:105-146 | one pair on a clone, where a refusal is answered with the error of the rebuild, and a key that was not visited is deleted after an accepted request |
| FuzzRule.ExecutePartComponent | pkg/fuzz/parts.go:38-47 | the component of the caller keeps its values, except for shared lists |
| FuzzExecute.ExecuteParts | pkg/fuzz/execute.go:203-215 | an impossible store ends a payload, any other error the rule |
| FuzzExecute.ExecuteRuleValues | pkg/fuzz/execute.go:201-255 | values, pairs and the second pass of pairs in multiple mode, on the component itself |
| FuzzExecute.ExecuteSets | pkg/fuzz/execute.go:137-160 | all value sets on one component, which may come out changed |
| FuzzExecute.Execute | pkg/fuzz/execute.go:117-162 | all components and value sets; with a generator a refusal ends without an error |
| FuzzSingle.LeftExactly | pkg/fuzz/parts.go:89-92 | whether storing the old text brings a value back does not depend on what was stored over it |
| FuzzSingle.RestorableExactly | pkg/fuzz/parts.go:89-92 | over all stores and escapings, which values are restored in single mode |
| FuzzSingle.ChangesAre | pkg/fuzz/parts.go:53-70 | the changes of a payload, computed from the base, are of visited keys that match, and are what storing over the value of the base gives |
| FuzzSingle.SingleExactly | pkg/fuzz/parts.go:52-101 | the loop of single mode from the base: its requests as long as they can be rebuilt, up to the first refusal, what is left of the component, and the error |
| FuzzSingle.SingleFromBase | pkg/fuzz/parts.go:52-101 | when every value that matches and can be set comes back, request number i differs from the base in the i-th such key and nothing else, and the component is the base in the end |
| FuzzSingle.ReturnsExactly | pkg/fuzz/parts.go:81-92 | every visit returns to the base if and only if every value that matches and can be set comes back |
| FuzzSingle.TraceAligned | pkg/fuzz/parts.go:53-92 | a visit depends on the value of its key in the base alone, whatever earlier visits left under other keys |
| FuzzSingle.SingleRestoresExactly | pkg/fuzz/parts.go:81-92 | without an error the component is the base again if and only if every value of the base that matches and can be set comes back; after a refusal or an error, if and only if those do that were visited before, and the last was rewritten to itself |
| FuzzSingle.SingleUntouchedExactly | pkg/fuzz/parts.go:38-47 | in single mode the component of the caller is untouched if and only if every shared list that was visited comes back, but the last one, after a refusal or an error, was rewritten to itself |
| FuzzSingle.ListsUntouchedExactly | pkg/fuzz/parts.go:38-47 | after a payload that ends well, if and only if every shared list of the base that matches and is not empty ends in its own text |
| FuzzSingle.ListVisit | pkg/fuzz/component/value.go:84-89 | a list comes back exactly when it ends in its own text, and keeps what is stored over it exactly when it ends in that |
| FuzzSingle.SharedListIsOverwritten | pkg/fuzz/component/value.go:84-89 | a shared list of one item that matches ends as its own text in brackets in the component of the caller |
| FuzzSingle.PairUntouchedExactly | pkg/fuzz/parts.go:105-146 | a pair leaves the component of the caller untouched if and only if its key is no shared list, or what it leaves there was there |
| FuzzMeaning.EditsAre | pkg/fuzz/parts.go:53-70 | which keys a payload rewrites, and to what |
| FuzzMeaning.MultipleExactly | pkg/fuzz/parts.go:92-101 | multiple mode makes one request, if it can be rebuilt: the base with all those keys rewritten |
| FuzzMeaning.PayloadsExactly | pkg/fuzz/execute.go:203-215 | one request per payload, each from the base and what earlier payloads left in shared lists, as long as they can be rebuilt and up to the first refusal |
| FuzzMeaning.UnsharedFromSame | pkg/fuzz/parts.go:38-47 | without shared lists every payload starts from the same base |
| FuzzMeaning.WholesLength | pkg/fuzz/execute.go:203-215 | these are as many requests as there are payloads |
| FuzzMeaning.MultipleUntouchedExactly | pkg/fuzz/parts.go:39-46 | in multiple mode, if and only if no shared list is rewritten to something else |
| FuzzMeaning.RefusalEndsRule | pkg/fuzz/execute.go:117-162 | over all components, value sets and payloads of a rule with values no request follows a refused one, and the rule reports a refusal exactly then |
| FuzzMeaning.UnsharedPairsFromSame | pkg/fuzz/parts.go:105-146 | without shared lists all pairs start from the same base, whatever the callback answers |
| FuzzMeaning.PairsIgnoreRefusals | pkg/fuzz/parts.go:130-132 | pairs in single mode make all their requests that can be rebuilt, whatever the callback answers, each from what the pairs before it left in shared lists; nothing else of the component changes |
| FuzzMeaning.PairsStopExactly | pkg/fuzz/parts.go:130-132 | so they end at a refusal if and only if none but their last request is refused |
| FuzzMeaning.RefusedPairsGoOn | pkg/fuzz/parts.go:130-132 | an input: two pairs are both asked for although everything is refused |
| FuzzMeaning.PairsTogether | pkg/fuzz/execute.go:233-250 | pairs in multiple mode make one request, of the component itself with all pairs stored |
| TagFilter.SplitCommaTrim | pkg/templates/tag_filter.go:462-472 | an option without a comma is not trimmed, one with commas is split and trimmed |
| TagFilter.NewTagFilter | pkg/templates/tag_filter.go:367-455 | the filter represents its configuration, its block list is disjoint from its include list and its excluded from its allowed identifiers; it fails exactly when a condition does not compile |
| TagFilter.TagFilter.IncludeTags | pkg/templates/tag_filter.go:415-422 | include tags are allowed and taken off the block list |
| TagFilter.TagFilter.ExcludeIds | pkg/templates/tag_filter.go:433-439 | excluded identifiers are recorded unless they are blocked tags |
| TagFilter.TagFilter.Match | pkg/templates/tag_filter.go:44-84 | excluded exactly for a tag that is excluded and not included, else the conjunction of the seven tests on the configuration |
| TagFilter.TagFilter.IsAuthorMatch | pkg/templates/tag_filter.go:104-117 | no required author, or one of them, in whatever order they are visited |
| TagFilter.TagFilter.IsIdMatch | pkg/templates/tag_filter.go:169-193 | some allowed pattern matches or none is given, and the identifier is not excluded |
| TagFilter.TagFilter.IsConditionMatch | pkg/templates/tag_filter.go:321-348 | all conditions hold of the template |
| TagFilter.IncludeTagNeverExcludes | pkg/templates/tag_filter.go:44-55 | one more include tag never excludes, and ends an exclusion exactly when it names all blocked tags of the template |
| TagFilter.IncludeTagLosesExactly | pkg/templates/tag_filter.go:433-439 | and loses a match exactly for an excluded identifier that was spared for being a blocked tag |
| TagFilter.IncludeTagLoses | pkg/templates/tag_filter.go:433-439 | an input that loses its match: a template whose identifier is excluded both as a tag and as an identifier |

## Left out

- AdaptiveWaitGroup: its source is not part of the repository. It is modelled as a counting semaphore that also counts what to wait for; resizing pools during a scan is not modelled.
- Operators: the sliceutil and mapsutil helpers are not part of the repository either. Dedupe is taken to keep first occurrences, and cloning an ordered map to copy its top level.
- ClusterEquivalence.ClusterReportsExactly: assumes that match and extract functions are local to the keys they name, that no member reads what another writes, and that the first reads nothing it extracts itself. DSL matchers and extractors read the whole map and are covered only where they satisfy that.
- ClusterEquivalence.ClusterPreservesOutputExactly: assumes distinct template identifiers, events that name their template, and items that are not made of dynamic values. It is about one response, in the order of the operators; ClusterEvents.ClusterPreservesEventsExactly is about several, template by template.
- ClusterEvents.ClusterPreservesEventsExactly: the responses are those that the request evaluates, the same alone and in the cluster; that a match can end a chain of redirects early (pkg/protocols/http/request.go:989-991) is not modelled.
- ClusterTemplates.ClusterTemplates: the hash of the joined identifiers is a parameter, so collisions of SHA-256 are not excluded, and the template identifier stored in the options of the shared requests is not modelled.
- ClusterExecuter: input transformation, the host-error cache and ExecuteWithResults, which logs into a scan context of its own.
- TemplateExecuter.ExecuteAlone: flows, several requests, template contexts, interaction servers and the payload values of a request; requests that can be clustered have no payloads.
- ClusterGroups.Cluster: when two requests have the same cluster key is a parameter.
- WorkflowStep.RunWorkflowStep: outcomes of executers are fixed per activation; variables that steps share through their input, conditions on them, and progress counters are not modelled.
- Strategies.StrategiesAgree: what an execution answers is fixed per pair, callbacks and workflows included; it starts from fresh resume records, so that nothing is skipped, without a host-error cache.
- Strategies.Selected: case folding is that of ASCII letters, which decides the comparison with the one name that is folded.
- ResumeProtocol.ResumeAtLeastOnceExactly: an execution counts when its goroutine gets past the executer, whether or not it failed; targets keep their order between runs.
- UploadProtocol.Ledger: a last line without a line break is never read by the code, and is not read here; the value of the largest chunk size, HTTP retries, headers and the final flush of the underlying writer are not modelled.
- UploadProtocol.DeliveredExactly: says nothing about when a flush happens, only what any flush leaves.
- FuzzComponent.RestoresExactly: items of lists are represented by their text, and numeric kinds by their value, so a change of representation alone does not show.
- FuzzSingle.SingleExactly: the request is the component; encoding it into headers, paths and bodies is not modelled beyond a rebuild that may fail.
- FuzzRule: the filter of frequent parameters is off, the order of visits is a parameter and errors of expressions are ignored as in the code; which components a rule applies to, and its compilation, are not modelled.
- TagFilter.NewTagFilter: upper and lower case and white space are those of ASCII; globs and conditions are parameters.
- TagFilter.TagFilter.Match: a protocol without a name counts as the invalid protocol.
- Everything that is input and output, parsing, signing, authentication, options and logging, and small members that one branch decides, such as EvalBoolSlice and the getters.
