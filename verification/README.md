# Verified model of the logging operator

A Dafny 4.11 model of the Kubernetes logging operator and of its log report tool, with proofs of
what they promise. `dafny verify dfyconfig.toml` checks all of it.

| files | what they model |
|---|---|
| `GraylogTables`, `GraylogServer`, `Provisioning`, `RestartSafety` | provisioning of Graylog index sets, streams and processing rules over an API in which every request may fail and a failed request may have been applied; whole histories of aborted and repeated runs |
| `StreamSelection` | which streams a resource enables |
| `LoggingServiceTypes`, `Status`, `StatusUpdaters` | the condition list, its four updates, lost status patches, and all runs of updates |
| `ApiServer`, `Reconcilers`, `Components`, `Collectors`, `Waiter`, `Backoff`, `Reconcile`, `ClusterHistory` | versioned API objects with interleaved writers, the component reconcilers, the wait for pending components, the reconcile cycle, and histories of cycles |
| `Credentials`, `FluentdQuote`, `GraylogConf`, `GraylogConfOrder` | credential resolution against its watch index, the FluentD quoter, the graylog.conf rewriter |
| `TopRows`, `ColumnInference`, `KbConversion`, `KbTheorems`, `KbTwice`, `KbReading`, `KbValues`, `AdaptiveSize` | ranking, column inference, KB conversion and units of the report tool |

Code that changes state step by step is a class or a method with loops, proved against functions on
values; the properties are lemmas about those functions. Map iteration order, request outcomes,
lost patches, time and other writers are nondeterministic choices. Ghost logs (`sent`, `ops`,
`log`) record every request and every event, so that lemmas speak about every state on the way;
ghost counts (`failures`) separate calls that failed from outcomes the code decides itself.

## Where the code does not do what one would expect

Each of these keeps the code as it is and states exactly when the expectation holds.

- The sweep of temporary conditions always cuts off the last condition instead of the one it
  looks at. It equals the filter exactly when no kept condition follows a dropped one
  (`SweepIsFilterIff`). In `SweepCanLoseFailure` a complete first cycle, in which two components do
  not start in time, leaves a list on which the next cycle's sweep loses a failure. The cycle
  status is never lost (`StatusInvariant`).
- The documented content policies are only-create and force-update. Any other value creates no
  streams but still resumes every wanted one, with an empty id exactly if there is none of that
  title. Without a failing request such a run completes exactly if the default index set and all
  wanted streams exist; with the default index set there and a stream missing it has sent the
  empty id (`ConfigureGraylog`, `ResumeStreamByTitle`). `OtherRunCannotComplete` is such a run.
- A documented run cannot always complete either: without a failing request it does exactly if the
  default index set exists and, where a default-stream rule has to be rendered, a stream "Default
  Stream" or "All messages" exists or is created (`ConfigureGraylog`); on the server of
  `DocumentedRunCannotComplete` no run does. Aborted attempts do not change the answer, whatever
  they were asked for (`RestartCompletesIff`).
- The requeue delay is the promised power of two exactly up to 33 failures in a row; from there on
  the 64-bit nanosecond count has wrapped (`BackoffExactIff`). Past 33 it is positive only for
  eight counts, and zero for good from 55 on, so that nothing is requeued (`DelayPositiveIff`).
- A failure of the forwarder and aggregator is reported under the reason of Fluent Bit; a failure
  under its own reason, which only a wait that times out reports, is never one the sweep means to
  keep (`DeployCollectors`, `KeptFailures`).
- The service account of the events reader is deleted on uninstall but not created on install
  (`ServiceAccountOutlives`).
- Rewriting a field of graylog.conf is idempotent exactly when the value has no line feed or no
  line has the field (`UpdateIdempotentIff`). The user and the password rewrite commute exactly
  when there is no user line, or no password line in the file or inside the user name, or the user
  name survives a rewrite: each line feed in it follows a carriage return, and no line in it is one
  the password rewrite would change (`UpdatesCommuteIff`). Names without line feeds survive.
- Inferred columns are the fields followed by both aliases exactly when no field has an alias's
  name (`ColumnsAsPromisedIff`, `AliasNamedField`).
- Cells read the same after conversion to KB exactly when converted column names stay distinct
  (`ReadsTheSameIff`). Where converted member names stay distinct, a second conversion changes
  nothing exactly when nothing convertible stands under a byte-named key (`ConvertTwiceIff`);
  `ConvertingTwiceCanDiffer` is a report it changes.
- The default audit stream is enabled unless an entry matches its name up to letter case; the
  entry that matches only up to case enables nothing itself (`AuditEnabledIff`).
- The forwarder's ConfigMap is written without a version. The write replaces an object it never
  read exactly if somebody changed the object between the read and the write
  (`UnconditionalLosesIff`); `ConfigMapChangeCanBeLost` is a run in which a change is lost. All
  other updates are conditional and never lose one (`ConditionalIsExclusive`).
- Each collector has its own fate. Without failing calls it ends as the spec asks if its
  configuration renders, its objects can be built and, for the forwarder and aggregator, the output
  is configured and the aggregator starts; otherwise the last object of its installation is not
  touched (`WorksFor`, `CycleEffect`). So from a state in which the chosen collectors were not
  complete, a cycle without failing calls leaves exactly the objects its spec asks for if and only
  if all of them work (`FollowsSpecIff`); `MisconfiguredAggregatorMisses` is one that does not.
  Graylog, slow components and the other collectors play no part.

## Model

| member | source | states |
|---|---|---|
| GraylogTables.OperatorTablesAgree | internal/utils/vars.go:63-149 | the operator's lookup tables agree: every index set a stream maps to has a configuration, every rule its stream and configuration |
| GraylogTables.OperatorTablesSeparate | internal/utils/vars.go:63-149 | no stream that provisioning creates serves the default-stream rules, and these rules are the common ones |
| GraylogTables.TargetsAgree | internal/controllers/graylog/utils/index-sets.go:85-101 | for any enabled streams, each stream's index set is among the index sets provided and each rule's stream is known |
| GraylogTables.StreamTargetsExact | internal/controllers/graylog/utils/streams.go:203-216 | a title is a wanted stream if and only if it is enabled and has an index set in the table |
| GraylogTables.IndexTargetsExact | internal/controllers/graylog/utils/index-sets.go:85-101 | a title is a wanted index set if and only if it is the default one, the audit one or that of an enabled stream, each with its own configuration |
| GraylogTables.RuleTargetsExact | internal/controllers/graylog/utils/processing-rules.go:200-216 | a title is a wanted rule if and only if it is a common one or that of an enabled stream |
| GraylogTables.LastOwnerDecides | internal/controllers/graylog/utils/processing-rules.go:206-213 | a rule goes to the last enabled stream that has it |
| GraylogTables.UnownedIsDefault | internal/controllers/graylog/utils/processing-rules.go:200-205 | a common rule that no enabled stream has goes to the default stream |
| GraylogTables.OperatorRulesOneOwner | internal/utils/vars.go:63-149 | no two streams of the operator share a rule |
| GraylogTables.RuleOfStream | internal/controllers/graylog/utils/processing-rules.go:206-213 | so the rule of every enabled stream goes to that very stream |
| GraylogServer.FirstTitleWins | internal/controllers/graylog/utils/entity.go:10-17 | the lookup gives the id of the first entity with the title, also where the title occurs twice |
| Provisioning.Connector.GetIndexSets | internal/controllers/graylog/utils/index-sets.go:85-101 | the loop yields the default and audit index sets and those of the enabled streams |
| Provisioning.Connector.CreateOrUpdateIndexSet | internal/controllers/graylog/utils/index-sets.go:50-66 | one index set is created if its title is missing, rewritten only as the policy allows, otherwise untouched; a missing default index set is an error |
| Provisioning.Connector.ManageIndexSets | internal/controllers/graylog/utils/index-sets.go:68-83 | in any map order and with any request outcome only wanted titles change; on success all of them are provided |
| Provisioning.Connector.GetStreams | internal/controllers/graylog/utils/streams.go:203-216 | the loop yields each enabled stream with its index set |
| Provisioning.Connector.OnlyCreateStream | internal/controllers/graylog/utils/streams.go:104-118 | a stream is created only if its title is missing, with the id of an existing index set |
| Provisioning.Connector.UpdateOrCreateStream | internal/controllers/graylog/utils/streams.go:54-73 | a present stream is rewritten in place under its id, a missing one is created |
| Provisioning.Connector.CreateOrUpdateStreams | internal/controllers/graylog/utils/streams.go:164-175 | which of the two loops runs depends on the policy; any other policy sends nothing |
| Provisioning.Connector.ResumeStreamByTitle | internal/controllers/graylog/utils/streams.go:144-151 | the one resume sent carries the id of a stream with the title, and the empty id exactly if there is none; without a failing request it succeeds exactly if there is one |
| Provisioning.Connector.ResumeStreams | internal/controllers/graylog/utils/streams.go:153-162 | on success every wanted title had a stream resumed; without a failing request it succeeds exactly if all wanted streams exist, and otherwise has sent the empty id |
| Provisioning.Connector.ManageStreams | internal/controllers/graylog/utils/streams.go:177-201 | the stream stage changes only wanted titles, sends only good requests, and on success provides and resumes them all |
| Provisioning.Connector.GetProcessingRules | internal/controllers/graylog/utils/processing-rules.go:200-216 | the loop yields exactly the map that RuleTargetsExact, LastOwnerDecides and UnownedIsDefault characterise: the common rules and those of the enabled streams, each with its stream |
| Provisioning.Connector.RuleEntryIsGood | internal/controllers/graylog/utils/processing-rules.go:35-56 | a rendered rule holds the non-empty id of an existing stream with the rule's title, or of the all-messages stream in place of the default one |
| Provisioning.Connector.OnlyCreateRules | internal/controllers/graylog/utils/processing-rules.go:135-154 | a rule is created only if its title is missing and its stream can be found |
| Provisioning.Connector.CreateOrUpdateRules | internal/controllers/graylog/utils/processing-rules.go:92-116 | a present rule is rewritten under its id with a newly looked-up stream, a missing one is created |
| Provisioning.Connector.ManageProcessingRules | internal/controllers/graylog/utils/processing-rules.go:187-198 | the rule stage changes only wanted titles and on success provides them all |
| Provisioning.Connector.ConfigureGraylog | internal/controllers/graylog/reconciler.go:118-147 | the stages in order, stopping at the first error: every run evolves the store lawfully, a successful one settles it and has resumed every wanted stream, every request sent is good; without a failing request it completes exactly if it can |
| Provisioning.RulesWorkIff | internal/controllers/graylog/utils/processing-rules.go:35-56 | after the stream stage the rules can be rendered exactly if the store before it allowed the run to complete |
| Provisioning.Connector.RunIsEvolution | internal/controllers/graylog/reconciler.go:129-147 | stages that evolved the store one after another, or stopped midway, make a lawful run |
| Provisioning.Connector.RunIsSettled | internal/controllers/graylog/reconciler.go:129-147 | three completed stages make a settled run: no later stage undoes what an earlier one provided |
| RestartSafety.RestartSafe | internal/controllers/graylog/utils/index-sets.go:50-83 | after any number of aborted runs, each with a plan of its own, the first completed one leaves every title it was asked for as often as one uninterrupted run would: as before, or once; and so every title that no run wanted |
| RestartSafety.EnabledStreamProvided | internal/controllers/graylog/reconciler.go:118-147 | after a completed documented run the default and audit index sets, the common rules and, for every enabled stream, the stream, its index set and its rule exist |
| RestartSafety.IndexSetIsFresh | internal/controllers/graylog/utils/index-sets.go:50-66 | a wanted index set that was missing, is forced or is the default one holds the configuration listed for its title |
| RestartSafety.StreamIsFresh | internal/controllers/graylog/utils/streams.go:27-73 | an enabled stream that was missing or is forced writes to the index set listed for it |
| RestartSafety.RuleIsFresh | internal/controllers/graylog/utils/processing-rules.go:35-116 | the rule of an enabled stream that was missing or is forced holds the source listed for it, with the id of that very stream, or of the all-messages stream for the default one |
| RestartSafety.CreatedAtMostOnce | internal/controllers/graylog/utils/streams.go:104-118 | over any history of runs with any plans no title is created twice, none that was there is duplicated, and none that no run wanted is created |
| RestartSafety.RestartCompletesIff | internal/controllers/graylog/utils/processing-rules.go:92-197 | after any aborted attempts with compatible plans a run without failing requests completes exactly if it would have completed in the first place |
| RestartSafety.PlansCompatible | internal/utils/vars.go:63-149 | with the operator's tables any two plans are compatible |
| RestartSafety.DocumentedRunCannotComplete | internal/controllers/graylog/utils/processing-rules.go:35-44 | a server with the default index set on which no documented run can complete |
| RestartSafety.OtherRunCannotComplete | internal/controllers/graylog/utils/streams.go:164-201 | and one on which a run under another policy cannot |
| RestartSafety.OnlyCreateKeepsBodies | internal/controllers/graylog/utils/streams.go:104-131 | over any history of only-create runs no entity that was there before changes, the default index set excepted |
| RestartSafety.ReferencesStayIntact | internal/controllers/graylog/utils/streams.go:27-36 | after any history every entity not as in the beginning was rendered by some run and still refers to an existing entity of the right title |
| RestartSafety.CompletedRunIsStable | internal/controllers/graylog/utils/processing-rules.go:156-171 | once everything is provided a further only-create run adds nothing and leaves streams and rules as they are |
| RestartSafety.ForceUpdateRendersAll | internal/controllers/graylog/utils/processing-rules.go:118-133 | if titles were unique, a completed force-update run leaves them unique and every entity of a wanted title freshly rendered |
| RestartSafety.OtherPolicyNeedsStreams | internal/controllers/graylog/utils/streams.go:164-201 | a completed run under any other policy found all wanted streams, since it changes no stream |
| StreamSelection.GraylogSpec.ManageRequiredStreams | internal/controllers/graylog/utils/connector.go:273-301 | the spec's stream list ends up with the required streams appended where no entry has their name up to case |
| StreamSelection.SelectStreams | internal/controllers/graylog/utils/connector.go:303-340 | the quadratic loop with its flags computes the selection |
| StreamSelection.SelectionExact | internal/controllers/graylog/utils/connector.go:303-340 | the selection holds exactly the last entry of each name that is installed and known, in order of last occurrence, each title once |
| StreamSelection.SelectedIff | internal/controllers/graylog/utils/connector.go:303-340 | a stream comes out exactly if it is an installed, known entry that no later one of its name replaces, with the period and sizes of the entry and its strategy, or "sizeBased" if that is not one of the two |
| StreamSelection.FoldsToLetterIff | internal/controllers/graylog/utils/connector.go:278-283 | which characters match a letter up to case |
| StreamSelection.RequiredIsIdempotent | internal/controllers/graylog/utils/connector.go:273-301 | appending the required streams twice is appending them once |
| StreamSelection.RequiredExact | internal/controllers/graylog/utils/connector.go:273-301 | the list given stays in front; behind it come exactly the required entries whose name no entry has, audit before system |
| StreamSelection.AuditEnabledIff | internal/controllers/graylog/utils/connector.go:273-340 | when exactly the default audit stream is enabled |
| Status.GetCondition | internal/utils/status.go:37-49 | the first condition with the reason, or none exactly when no condition has it |
| Status.StatusInvariant | internal/utils/status.go:51-173 | over all runs from an empty list, with any patch lost: reasons stay distinct and a non-empty list starts with the cycle status, in memory and as stored |
| Status.FailureSticks | internal/utils/status.go:77-90 | with patches applied, a failed cycle status stays first, failed and with its transition time in every state until a cycle succeeds |
| Status.SweepIsFilterIff | internal/utils/status.go:138-173 | the sweep equals the filter it stands for exactly when no kept condition follows a dropped one |
| Status.SweepCanLoseFailure | internal/utils/status.go:162 | a complete failing cycle after which the sweep drops a failure it should keep and keeps a condition it should drop |
| Status.KeptIff | internal/utils/status.go:141-160 | a condition is among those the sweep means to keep exactly if it is in the list and passes the test that KeptFailures and OthersAreTemporary spell out |
| Status.KeptFailures | internal/utils/status.go:146-160 | for each of the eight reasons, in the fields of the spec: a failure is kept exactly while its own component is installed, that of the wait and of the cycle always, that of the forwarder and aggregator never |
| Status.OthersAreTemporary | internal/utils/status.go:141-146 | of the conditions that are no failures only the cycle status is kept |
| Status.UpsertedExact | internal/utils/status.go:68-90 | a failure that is reported already, at whatever time, changes nothing; otherwise the new condition takes the place of the old one of its reason, or the end, and all others stay in theirs |
| Status.RemovedExact | internal/utils/status.go:51-55 | a removal leaves exactly the conditions of other reasons, a first one of another reason in its place |
| StatusUpdaters.StatusUpdater.UpdateStatus | internal/utils/status.go:68-100 | the list becomes the upserted one; a repeated failure keeps its transition time and sends nothing |
| StatusUpdaters.StatusUpdater.RemoveStatus | internal/utils/status.go:51-66 | the last condition takes the removed one's place; reports whether there was one |
| StatusUpdaters.StatusUpdater.CutTemporaryStatuses | internal/utils/status.go:138-164 | the downward loop never leaves the list's range and leaves the prefix as long as the conditions to keep, which KeptFailures and OthersAreTemporary spell out |
| StatusUpdaters.RemovedReasons | internal/utils/status.go:51-55 | removal by swapping in the last element removes exactly that reason |
| StatusUpdaters.UpsertedReasons | internal/utils/status.go:77-90 | an upsert adds exactly that reason, and a failing one makes it failed |
| StatusUpdaters.UpsertKeepsFailures | internal/utils/status.go:77-90 | an upsert leaves the failures of other reasons in place, and a failing one every failure |
| Reconcilers.CreateOrUpdate | internal/reconcilers/reconcilers.go:80-103 | a nil return means the stored object carries the desired pod spec, template labels, selector, replicas, ports and labels as its kind asks, and was just created, or the last event replaced exactly the object read in this call and nobody changed it in between |
| Reconcilers.MutateIff | internal/reconcilers/reconcilers.go:29-78 | field by field for each kind: an update sets the fields the operator owns and keeps all others, and is the only object that does |
| Reconcilers.ConfigMutateIff | internal/utils/config_secret.go:13-48 | a configuration replaces the whole object unless data and labels are equal already |
| Reconcilers.CreateOrUpdateConfigSecret | internal/utils/config_secret.go:18-48 | the same for the config Secret, whose data and labels are the desired ones afterwards; the unchanged case is reported as such |
| Reconcilers.UpdateConfigMap | internal/controllers/fluentbit-forwarder-aggregator/handler.go:259-283 | created, or read and equal, or read, different and overwritten without a version; data and labels are the desired ones afterwards |
| Reconcilers.ConditionalIsExclusive | internal/reconcilers/reconcilers.go:95-102 | in every run, an update on condition of the version read replaces the very object read, unchanged since |
| Reconcilers.UnconditionalLosesIff | internal/controllers/fluentbit-forwarder-aggregator/handler.go:259-283 | an update replaces the object read exactly if nobody changed it in between |
| Reconcilers.ConfigMapChangeCanBeLost | internal/controllers/fluentbit-forwarder-aggregator/handler.go:259-283 | a run that overwrites another writer's ConfigMap unseen; on condition of the version read it would have been refused |
| ApiServer.WriteReplacesReadIff | internal/utils/config_secret.go:34-46 | over every run of any writers: a write replaces the object read before it exactly if nobody changed it in between; a change never brings an old version back |
| Reconcilers.DeleteIfExists | internal/controllers/events-reader/reconciler.go:89-97 | a missing object is no error; without failures and other writers the object is gone afterwards |
| Reconcilers.AppliedIsIdempotent | internal/reconcilers/reconcilers.go:29-78 | applying the same desired object again changes nothing |
| Reconcilers.MergeAllLastWins | internal/reconcilers/reconcilers.go:122-128 | merging label maps in turn gives each key the value of the last map that has it |
| Reconcilers.MergeAllUnset | internal/reconcilers/reconcilers.go:122-128 | a key that no desired map has keeps its initial value or absence |
| Reconcilers.WorkloadLabelsAccumulate | internal/reconcilers/reconcilers.go:29-60 | over any history of reconciles a workload's labels are the last-wins merge of the initial and all desired labels |
| Reconcilers.ServiceForgetsHistory | internal/reconcilers/reconcilers.go:62-70 | a Service's labels, ports and selector depend on the last desired object only |
| Reconcilers.WorkloadForgetsHistory | internal/reconcilers/reconcilers.go:29-60 | over any history of reconciles a workload's pod spec and template labels, the Deployment's selector and the StatefulSet's replicas are those of the last desired object, and all fields but its labels that the operator does not own those of the first |
| Components.FluentdReconciler.Run | internal/controllers/fluentd/reconciler.go:37-67 | which objects, condition and pending entry a run leaves, installed or not; without failing calls it succeeds exactly if rendering and building do |
| Components.FluentdReconciler.Uninstall | internal/controllers/fluentd/reconciler.go:70-83 | without failures every FluentD object is gone, errors are not returned |
| Components.FluentbitReconciler.Run | internal/controllers/fluentbit/reconciler.go:37-68 | plain mode is installed exactly when it is chosen and removed otherwise |
| Components.FluentbitReconciler.Uninstall | internal/controllers/fluentbit/reconciler.go:71-84 | without failures every object of plain mode is gone |
| Components.HAFluentReconciler.Run | internal/controllers/fluentbit-forwarder-aggregator/reconciler.go:38-90 | forwarder and aggregator are installed exactly in that mode; a misconfigured output is an error that changes no object; without failing calls it succeeds exactly if the output is configured, everything renders and builds and the aggregator starts |
| Components.HAFluentReconciler.WaitForAggregator | internal/controllers/fluentbit-forwarder-aggregator/handler.go:157-177 | succeeds exactly if the pods become ready; only a timeout marks its own condition failed |
| Components.HAFluentReconciler.Uninstall | internal/controllers/fluentbit-forwarder-aggregator/reconciler.go:93-115 | without failures all objects of the mode are gone |
| Components.EventsReaderReconciler.Run | internal/controllers/events-reader/reconciler.go:41-69 | the events reader's objects, condition and pending entry, installed or not |
| Components.HandleConfigSecret | internal/controllers/fluentd/handler.go:17-42 | the config Secret is written and the older ConfigMap deleted, or an error is returned |
| Components.ClusterCompose | internal/controllers/fluentbit/reconciler.go:43-66 | two steps with disjoint objects make one step over both |
| Waiter.ComponentsPendingReconciler.CheckPass | internal/utils/waiter.go:150-170 | a pass asks each component exactly once from the end, and its record of the answers is the logged one; without error it leaves a permutation of exactly the unavailable ones, and nothing is lost |
| Waiter.ComponentsPendingReconciler.Poll | internal/utils/waiter.go:139-178 | the log of sleeps, looks at the clock and questions is that of rounds, each begun before the timeout on what the one before left; they go on until a question fails, nothing is pending, or the timeout has passed; at most 30 |
| Waiter.ComponentsPendingReconciler.MarkPending | internal/utils/waiter.go:143-146 | every component pending at the timeout is marked failed |
| Waiter.ComponentsPendingReconciler.Run | internal/utils/waiter.go:125-184 | an error-free return is true exactly if nothing is pending; started components have lost their condition, pending ones are failed; it is not true only after the full timeout or an unanswered question |
| Waiter.PassAdvances | internal/utils/waiter.go:164-169 | swapping in the last component and cutting keeps the unchecked part in place and accounts for every answer |
| Waiter.PassEnds | internal/utils/waiter.go:150-170 | what a pass comes to when it ends or is broken off |
| Waiter.StartedIff | internal/utils/waiter.go:139-178 | a wait that does not fail ends in time exactly if every component was found started in some round; otherwise the last round found the rest waiting |
| Waiter.AnsweredIff | internal/utils/waiter.go:155-169 | a component counts as started or waiting exactly if that was the answer |
| Backoff.DelayIsWrappedPower | internal/controllers/loggingservice_controller.go:81-90 | after k failures in a row the delay is 2^k seconds wrapped to 64 bits, a success resets it |
| Backoff.BackoffExactIff | internal/controllers/loggingservice_controller.go:81-90 | the wrapped delay is the power of two exactly for k up to 33 |
| Backoff.DelayPositiveIff | internal/controllers/loggingservice_controller.go:81-90 | for which numbers of failures the stored delay is positive, and from which on it is zero |
| Reconcile.GraylogReconciler.Run | internal/controllers/graylog/reconciler.go:41-91 | one attempt at provisioning unless skipped, complete on success, under the policy that the *Text lemmas of ClusterHistory link to the text; with Graylog's objects in place and no failing request it succeeds exactly if the attempt can complete |
| Reconcile.DeployCollectors | internal/controllers/loggingservice_controller.go:118-144 | the four collectors, each with its own outcome whatever becomes of the others; without failing calls they all succeed exactly if all of them work, each failure is reported under its reason, and exactly the chosen ones that work are waited for |
| Reconcile.LoggingServiceReconciler.StartCycle | internal/controllers/loggingservice_controller.go:98-103 | a failed cycle status is kept, any other becomes in progress; then the sweep |
| Components.StartStatus | internal/controllers/graylog/reconciler.go:42-44 | a failed component condition is kept, any other becomes in progress |
| Reconcile.DeployComponents | internal/controllers/loggingservice_controller.go:108-144 | all five components run whatever the others return, so neither Graylog nor a collector takes anything from the others' objects; conditions, pending list and provisioning accounted for |
| Reconcile.LoggingServiceReconciler.AwaitComponents | internal/controllers/loggingservice_controller.go:146-156 | after a deployment and a wait that succeed only the cycle condition is left; a wait that does not succeed was given up and is reported, and no failure of a component that is not waited for is touched |
| Reconcile.LoggingServiceReconciler.ReconcileLoggingServiceCluster | internal/controllers/loggingservice_controller.go:97-157 | one cycle, successful or not: every collector's outcome, one provisioning attempt with the plan of this resource, complete on success; undisturbed it succeeds exactly if all collectors work and Graylog's content can be provided |
| Reconcile.LoggingServiceReconciler.Reconcile | internal/controllers/loggingservice_controller.go:57-95 | a missing resource changes nothing; a failed cycle requeues after the current delay and its status sticks; a successful one leaves exactly the cycle condition; undisturbed it succeeds exactly if all collectors work and Graylog's content can be provided; whatever fails is reported at the end; the effects of the cycle on objects and Graylog either way |
| Reconcile.OnlyCycleRemains | internal/utils/waiter.go:164-182 | if all deployed and all started, no other condition can be left |
| Reconcile.FailureNotAwaited | internal/controllers/loggingservice_controller.go:118-147 | the wait concerns no reason under which a collector that does not work is reported, so its failure outlasts the wait |
| Reconcile.LoggingServiceReconciler.StickyCycle | internal/controllers/loggingservice_controller.go:98-101 | in a failing cycle that starts failed, every intermediate state has the stored failed condition first |
| Collectors.SwitchedOffIsGone | internal/controllers/fluentbit-forwarder-aggregator/reconciler.go:83-87 | without failing calls the objects of a collector that is not chosen are gone, whatever becomes of the others |
| Collectors.CompleteIffWorks | internal/controllers/fluentd/reconciler.go:43-66 | a chosen collector that was not complete is complete after a cycle without failing calls exactly if it works |
| Collectors.PartsCompose | internal/controllers/loggingservice_controller.go:118-144 | what is done for one collector survives what is done for the others |
| Collectors.FluentdObjects | internal/controllers/fluentd/reconciler.go:37-83 | by name, from any state and without failing calls: FluentD's Secret, DaemonSet and Service are there exactly if the spec has FluentD, and the older ConfigMap is gone |
| Collectors.FluentbitObjects | internal/controllers/fluentbit/reconciler.go:37-84 | the same for plain Fluent Bit, which needs Fluent Bit without an aggregator to install |
| Collectors.AggregatorObjects | internal/controllers/fluentbit-forwarder-aggregator/reconciler.go:38-115 | the same for the six objects of forwarder and aggregator, with a configured output and an aggregator that starts |
| Collectors.AggregatorStops | internal/controllers/fluentbit-forwarder-aggregator/reconciler.go:45-75 | without host or port, or without the aggregator's start, the forwarder's Service stays as it was |
| Collectors.EventsReaderObjects | internal/controllers/events-reader/reconciler.go:41-97 | the same for the events reader's Deployment and Service |
| Collectors.EventsReaderAccountGoes | internal/controllers/events-reader/reconciler.go:71-87 | its service account is deleted with it and otherwise not touched |
| ClusterHistory.KeysArePartitioned | internal/controllers/fluentbit/reconciler.go:43-84 | every object of a collector is either installed or removed under any spec, never both |
| ClusterHistory.LastCycleDecides | internal/controllers/loggingservice_controller.go:97-157 | from any state, a cycle without failing calls leaves each object of a collector that works exactly if its spec asks for it, whatever Graylog, the pods and the other collectors do |
| ClusterHistory.ObjectsFollowSpec | internal/controllers/loggingservice_controller.go:97-157 | the same for the last of any history of cycles with any specs and any failures |
| ClusterHistory.ObjectsCarryManifest | internal/reconcilers/reconcilers.go:29-103 | and they carry what the builders of the last cycle ask for, pod spec and configuration included, whatever earlier cycles wrote |
| ClusterHistory.FollowsSpecIff | internal/controllers/loggingservice_controller.go:118-144 | from a state in which the chosen collectors were not complete, a cycle without failing calls leaves exactly the objects its spec asks for if and only if all collectors work |
| ClusterHistory.MisconfiguredAggregatorMisses | internal/controllers/fluentbit-forwarder-aggregator/reconciler.go:45-49 | a cycle without failing calls that misses what its spec asks for |
| ClusterHistory.SameSpecSameObjects | internal/controllers/loggingservice_controller.go:97-157 | two histories of any cycles hold the same objects of a collector if the last cycle of each is clean for it and both specs choose it or neither does |
| ClusterHistory.OthersStay | internal/controllers/fluentbit/reconciler.go:43-84 | no history of cycles touches an object that no component manages |
| ClusterHistory.NeverBothModes | internal/controllers/fluentbit-forwarder-aggregator/reconciler.go:44-115 | from any state, a cycle without failing calls leaves at most one collector mode, even if the chosen one could not be installed; one that works is there exactly if the spec chooses it |
| ClusterHistory.RepeatChangesNothing | internal/reconcilers/reconcilers.go:80-103 | repeating a cycle changes no object of a collector it is clean for |
| ClusterHistory.CleanRepeatChangesNothing | internal/reconcilers/reconcilers.go:80-103 | repeating a cycle that is clean for all collectors changes no object |
| ClusterHistory.ServiceAccountOutlives | internal/controllers/events-reader/reconciler.go:71-87 | over any history without failing calls the events reader's service account is there exactly if it was there in the beginning and the events reader was chosen throughout, whatever became of the collectors |
| ClusterHistory.CyclesAreAttempts | internal/controllers/loggingservice_controller.go:111-116 | the cycles of an operator, each with the plan of its own resource, are a history of provisioning attempts, so restart safety holds of them |
| ClusterHistory.OnlyCreateText | api/v1/loggingservice_types.go:685-691 | over any history of cycles that say "only-create" or "skip" or have no Graylog, no entity that was there before changes, the default index set excepted |
| ClusterHistory.ForceUpdateText | api/v1/loggingservice_types.go:685-687 | a successful cycle that says "force-update" leaves every entity of a wanted title freshly rendered, if titles were unique |
| ClusterHistory.DocumentedTextProvides | api/v1/loggingservice_types.go:685-691 | a successful cycle that says either leaves the stream, the index set and the rule of every enabled stream |
| ClusterHistory.UndocumentedText | internal/controllers/graylog/utils/streams.go:164-175 | a cycle with any other text changes no stream and no rule, and one that says "skip" or has no Graylog nothing |
| Credentials.ResolveAuthValues | internal/utils/output_credentials.go:95-120 | the loop over the fields gives what AuthHolds characterises: each value in its own field, or the first error |
| Credentials.AuthHolds | internal/utils/output_credentials.go:95-120 | token, user and password are each the datum of their own selector, which the validator accepts, or empty without one; the error is the first of token, user and password |
| Credentials.ResolveOutputAuth | internal/utils/output_credentials.go:81-93 | the array loop fills every enabled output or returns the first error |
| Credentials.ResolveOutputCredentials | internal/controllers/fluentbit/handler.go:64-84 | the handler returns the resolved credentials, all empty on error |
| Credentials.FluentdGetsOwnData | internal/utils/output_credentials.go:81-120 | token, user and password of Loki and Http are each the datum its own selector points at, and empty without selector, auth block, output or when disabled; an error is the first in the order of outputs and fields |
| Credentials.FluentbitGetsOwnData | internal/controllers/fluentbit/handler.go:64-84 | the same for Loki, Http and Otel of Fluent Bit's output, and of the aggregator's own output |
| Credentials.AcceptsIff | internal/utils/output_credentials.go:122-145 | a value is accepted exactly without carriage return, line feed and NUL, and for Fluent Bit without "${" anywhere |
| Credentials.MapSecretToLoggingServices | internal/controllers/loggingservice_controller.go:211-229 | exactly one request for each resource that references the Secret, in the order listed |
| Credentials.ReferencingIff | internal/controllers/loggingservice_controller.go:218-228 | a name is enqueued exactly if a resource of that name references the Secret |
| Credentials.ReadsIsReferences | internal/controllers/loggingservice_controller.go:231-274 | the watch predicates hold of a Secret exactly when a handler reads it |
| Credentials.UnreferencedSecretIsIrrelevant | internal/controllers/loggingservice_controller.go:231-274 | stores that differ only in an unreferenced Secret resolve to the same values or the same error, in every handler |
| Credentials.DroppedUpdateIsHarmless | internal/controllers/loggingservice_controller.go:280-298 | an update event that is dropped changes no resolved credential |
| Credentials.OutputsResolveIff | internal/utils/output_credentials.go:47-119 | resolution succeeds exactly when every selected key exists and its value passes the validator |
| Credentials.ReferencedSecretMatters | internal/controllers/loggingservice_controller.go:246-274 | the watch is not wider than needed: for a referenced Secret there are two stores that differ only in it and resolve differently |
| FluentdQuote.QuoteIsEscape | internal/utils/output_credentials.go:147-157 | the two replacements in sequence are one escape per character |
| FluentdQuote.QuoteRoundTrip | internal/utils/output_credentials.go:147-157 | a reader that knows only the two escapes recovers every value and stops at the final quote, whatever follows |
| FluentdQuote.QuoteSingleLineIff | internal/utils/output_credentials.go:122-157 | the literal stays on one line exactly when the value passes the validator |
| GraylogConf.ScanLines | internal/controllers/graylog/utils/watch-secret.go:109-114 | the scanner's lines |
| GraylogConf.Update | internal/controllers/graylog/utils/watch-secret.go:109-126 | the loop overwrites matching lines and the text is written back only if one matched |
| GraylogConf.ScanUndoesWrite | internal/controllers/graylog/utils/watch-secret.go:109-126 | scanning undoes writing for all lines free of line feeds |
| GraylogConf.UpdateChangesOnlyField | internal/controllers/graylog/utils/watch-secret.go:109-126 | an update changes exactly the lines with its prefix |
| GraylogConf.UpdatedLines | internal/controllers/graylog/utils/watch-secret.go:109-126 | line by line: one that starts with the field becomes field, equals sign and value, every other one stays, and without such a line so does the text |
| GraylogConf.UpdateIdempotentIff | internal/controllers/graylog/utils/watch-secret.go:165-186 | when exactly an update is idempotent |
| GraylogConf.UpdateGrowsWithLF | internal/controllers/graylog/utils/watch-secret.go:165-186 | a value with a line feed makes the text longer with every update |
| GraylogConfOrder.UpdatesCommuteIff | internal/controllers/graylog/utils/watch-secret.go:84-195 | for every configuration, user name and digest: when exactly the user and the password rewrite commute |
| GraylogConfOrder.PlainNameSurvives | internal/controllers/graylog/utils/watch-secret.go:109-126 | user names without line feeds meet the condition |
| GraylogConfOrder.BareLineFeedDiffers | internal/controllers/graylog/utils/watch-secret.go:84-195 | with a bare line feed for a user name the orders differ on every file with both lines |
| GraylogConfOrder.WriteUndoesScanIff | internal/controllers/graylog/utils/watch-secret.go:109-126 | writing undoes scanning, for a text that ends its last line, exactly if every line feed follows a carriage return |
| TopRows.SortIsStableSort | scripts/log-analysis/clients.py:1176-1188 | sorting is stable and descending |
| TopRows.StableSortIsUnique | scripts/log-analysis/clients.py:1176-1188 | there is only one stable descending order, so this is what the library sort returns |
| TopRows.TopOfTops | scripts/log-analysis/clients.py:769-775 | cutting each stream to the top before merging changes nothing, for any streams, ties and limit |
| TopRows.CollectRows | scripts/log-analysis/clients.py:866-869 | the loop collects every stream's rows, tagged with its title, in order |
| TopRows.ReportUnaffectedByCutting | scripts/log-analysis/clients.py:866-874 | the report table is the same whether or not the backend cut each stream first |
| TopRows.ReportDescends | scripts/log-analysis/clients.py:769-775 | the report descends in the numbers its sort cells show, as numbers or as text, rows without a number last; it holds as many rows as fit, and no larger row is left out |
| TopRows.RaisesIff | scripts/log-analysis/clients.py:1176-1188 | sorting raises exactly if some row that is not empty ends before the sort column |
| TopRows.TaggedExact | scripts/log-analysis/clients.py:866-869 | the collected rows are exactly the rows of all streams, each behind its stream's title |
| ColumnInference.InferLogsqlColumns | scripts/log-analysis/clients.py:622-636 | the loop computes the inferred columns |
| ColumnInference.GroupIsReadBack | scripts/log-analysis/clients.py:639-645 | splitting, stripping and unquoting undo printing and joining |
| ColumnInference.PrintedIffValid | scripts/log-analysis/clients.py:52-57 | a query is printed exactly when every field is valid |
| ColumnInference.InferenceUndoesPrinting | scripts/log-analysis/clients.py:347-357 | from the printed query come the fields and then the aliases that are not fields |
| ColumnInference.ColumnsAsPromisedIff | scripts/log-analysis/clients.py:622-636 | the promised list comes out exactly when no field has an alias's name |
| ColumnInference.AliasNamedField | scripts/log-analysis/clients.py:632-635 | a field on which the promised list does not come out |
| ColumnInference.TotalColumns | scripts/log-analysis/clients.py:347-351 | the columns of a total query are the two aliases |
| ColumnInference.NoStageColumns | scripts/log-analysis/clients.py:631-635 | in a query without a stats stage the alias is looked for in the whole text |
| ColumnInference.PrintedField | scripts/log-analysis/clients.py:52-57 | which names are printed, and which of them in quotes |
| ColumnInference.CategoryPrefixes | scripts/log-analysis/collectors.py:11-25 | no prefix the report prints for a category, over any time range, has a stats stage of its own, so the theorems apply to all its queries |
| KbConversion.ConvertRowByteFields | scripts/log-analysis/log_storage_report.py:404-413 | the column loop converts exactly the cells of byte columns |
| KbConversion.ConvertDictByteFields | scripts/log-analysis/log_storage_report.py:416-423 | the dictionary loop computes the converted dictionary |
| KbConversion.ConvertByteFieldsToKb | scripts/log-analysis/log_storage_report.py:434-469 | the recursive walk computes the converted report |
| KbConversion.ColumnIndex | scripts/log-analysis/log_storage_report.py:501-503 | the last index of a repeated column name |
| KbTheorems.KbNameIsFinal | scripts/log-analysis/log_storage_report.py:374-383 | a converted name is no byte field |
| KbTheorems.ConvertTwice | scripts/log-analysis/log_storage_report.py:434-469 | converting a report twice is converting it once when byte-named keys hold scalars |
| KbTwice.ConvertTwiceIff | scripts/log-analysis/log_storage_report.py:434-469 | where converted member names stay distinct: when exactly a second conversion changes nothing |
| KbTwice.InertIff | scripts/log-analysis/log_storage_report.py:434-469 | conversion leaves a value alone exactly if there is nothing in it to convert |
| KbTheorems.SettledTwice | scripts/log-analysis/log_storage_report.py:434-469 | one direction of it without the condition on names |
| KbTheorems.RowTwice | scripts/log-analysis/log_storage_report.py:404-413 | the same for a row read with columns |
| KbTwice.ByteKeyOverContainer | scripts/log-analysis/log_storage_report.py:462-468 | for one object or list under a byte-named key it holds exactly when conversion leaves that value alone |
| KbTwice.ConvertingTwiceCanDiffer | scripts/log-analysis/log_storage_report.py:462-468 | for every byte field a report that a second conversion changes |
| KbReading.ReadsTheSameIff | scripts/log-analysis/log_storage_report.py:485-503 | every row reads the same under every column exactly when converted names stay distinct |
| KbReading.DictReadsTheSame | scripts/log-analysis/log_storage_report.py:485-491 | a converted dictionary row read by the converted name gives the converted member |
| KbReading.SectionOfConverted | scripts/log-analysis/log_storage_report.py:472-483 | a section found in the converted report is the converted section, and reading raises on both or neither |
| KbReading.CeilExceedsIff | scripts/log-analysis/log_storage_report.py:397-398 | rounding up: the KB exceed the threshold exactly when the bytes do |
| KbReading.RoundExceedsIff | scripts/log-analysis/log_storage_report.py:399-402 | the same for rounding to six decimals, half to even |
| KbReading.LargeMessagesExact | scripts/log-analysis/log_storage_report.py:534-570 | on the converted report a check finds exactly the rows over the threshold in bytes, in order, with or without a column list |
| KbReading.BothChecksCovered | scripts/log-analysis/log_storage_report.py:534-566 | both large-message checks are instances |
| KbValues.KbNameOfByteField | scripts/log-analysis/log_storage_report.py:374-379 | the suffix "_bytes" is traded for "_kb", and the two fields without suffix get one |
| KbValues.ByteFieldIff | scripts/log-analysis/log_storage_report.py:374-383 | no other name changes |
| KbValues.CellShowsKb | scripts/log-analysis/log_storage_report.py:386-402 | a number, also one written as text, becomes the KB rounded up or to the nearest millionth as its field asks; any other value stays |
| KbValues.HalfEvenIff | scripts/log-analysis/log_storage_report.py:399 | the rounding goes to the nearest number, and of two to the even one |
| KbValues.CellOfRow | scripts/log-analysis/log_storage_report.py:404-413 | in a row exactly the cells of byte columns are converted |
| KbValues.MemberOfReport | scripts/log-analysis/log_storage_report.py:434-469 | where converted names stay distinct: queries stay, a byte field is found in KB under its converted name, anything else converted with the columns listed for it |
| KbValues.ColumnsComeFirst | scripts/log-analysis/log_storage_report.py:442-444 | the column dictionary comes first, with converted names |
| KbValues.OnlyMembers | scripts/log-analysis/log_storage_report.py:434-469 | a converted dictionary has no other members |
| KbValues.MemberOfRow | scripts/log-analysis/log_storage_report.py:416-423 | the same for a dictionary that is a row, where queries and columns are nothing special |
| KbValues.SectionOnPath | scripts/log-analysis/log_storage_report.py:472-483 | the rows at the end of a path, with the columns listed next to them |
| KbValues.OversizedIff | scripts/log-analysis/log_storage_report.py:534-570 | a check keeps a row exactly if its number exceeds the threshold |
| KbValues.OversizedKeepsOrder | scripts/log-analysis/log_storage_report.py:534-570 | in the order of the rows |
| AdaptiveSize.Adapt | scripts/log-analysis/html_report.py:79-94 | both loops end and keep the size; the number is zero, or at least 1 unless in KB, and below 1024 unless in PB |
| AdaptiveSize.ShownIsUnique | scripts/log-analysis/html_report.py:79-94 | a non-zero size is shown the same way whatever base unit it came in |

## Left out

- HTTP, TLS, template rendering and JSON encoding: a rendered body is an uninterpreted value made from its inputs; a created index set carries the title it was asked for under.
- Descriptions of streams and rules; content packs, dashboards, inputs, extractors, pipelines, grok patterns, OpenSearch configuration and user accounts: they may fail and stop a run but change none of the three modelled collections.
- Graylog's own Kubernetes objects, its credentials and its uninstall: they may fail, their effect is not modelled.
- Other writers to Graylog during a run, and a listing that misses an entity.
- Reconcile.LoggingServiceReconciler.Reconcile: the plan for Graylog, that is the enabled streams and parameters of the resource, comes with the resource; StreamSelection is how the code derives the streams.
- The object builders and defaults: an arbitrary function from object key to desired object stands for them. Namespaces: there is one. Failing owner references and the cluster-scope fallback of GetResource.
- The container runtime discovery and the other dynamic parameters, which only change what is rendered.
- The decoding of a patch response into the resource in memory.
- The watch on the LoggingService resource itself (ignoreDeletionPredicate) and manager start-up.
- Components.DeleteAll: the uninstall sequences that delete one object after another are one loop over a list of keys.
- Components.HAFluentReconciler.WaitForAggregator: the poll's answer is one of the inputs of a cycle, its timing is not modelled.
- Components.HandleConfigSecret: whether credentials resolve and the configuration renders is an input of a cycle; what resolution reads is in Credentials. So is whether an object can be built.
- Provisioning.Connector.CreateOrUpdateIndexSet: rendering an index set or a rule from its asset never fails.
- Waiter.ComponentsPendingReconciler.IsAvailable: the answer about a DaemonSet or Deployment is an arbitrary choice.
- Waiter.Clock: an abstract clock that never runs backwards; what a pass itself takes is arbitrary.
- Credentials.ResolveAuthValues: the three pointer fields of an Auth are a list of fields in the order the code visits them.
- GraylogConf.ScanLines: the scanner's limit on line length; SHA-256 is an arbitrary digest.
- GraylogConfOrder.UpdatesCommuteIff: the digest has no line feed, as the code writes it in hexadecimal.
- TopRows.SortedLimitedRows: not-a-number cells, and a mapping from title to rows whose order is the order given.
- ColumnInference.Unquote: text with a backslash between the quotes counts as undecodable; no printed field has one.
- ColumnInference.StatsAt: the word boundary is that of ASCII text; a non-ASCII letter directly after `stats` in a caller's filter counts as a boundary.
- ColumnInference.InferenceUndoesPrinting: prefixes with a stats stage of their own, which the tool never prints (CategoryPrefixes).
- KbConversion.BytesToKb: exact rationals instead of floating point; infinities and not-a-number are not values of the model.
- KbConversion.ColumnNames: in a column list that holds something other than text the code raises; the model passes over that column.
- KbTwice.ConvertTwiceIff: where a converted name replaces another member's, only SettledTwice holds; a member that is overwritten hides what became of it. Reports are compared with the order of their keys.
- KbReading.LargeMessagesExact: the evidence text of a finding, which quotes its first five rows.
- AdaptiveSize.Adapt: exact reals, and not the rendering of values that are no numbers.
- Thread pools, query transport and HTML rendering of the report tool.
