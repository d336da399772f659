# Verified models of the cluster compiler and its companions

This project models, in Dafny, the parts of the repository whose guarantees come from
several functions together:

- **the cluster compiler** of masson: it takes clusters, services, dependencies and node
  affinities, discovers missing services, settles dependencies, orders the services, places
  them on nodes, lists and sorts the services of each node, checks local dependencies and
  configures every instance (`Labels`, `Affinities`, `AffinityForms`, `AffinityLaws`, `Cluster`,
  `Merging`, `Visits`, `Discovery`, `DiscoveryLaws`, `ModuleLaws`, `Dependencies`,
  `TopologicalSort`, `Ordering`, `Placement`, `AffinityPass`, `PlacementLaws`, `OrderLaws`,
  `NodeIndex`, `Configure`, `ConfigureLaws`, `Compiler`, `CompilerLaws`, `FinishedLaws`,
  `FailureLaws`);
- **command dispatch**, which consumes the compiled configuration (`Dispatch`, `DispatchLaws`);
- **the HDFS upload lock**, run by any number of hosts (`UploadLock`, `UploadLaws`);
- **the HDFS recursive mkdir** (`HdfsMkdir`);
- **the JSON indenter** of the alert plugins (`Indent`, `IndentLaws`), whose source is
  repeated word for word in `check_aggregate.php:149-198`;
- **the secret store** (`SecretCodec`, `SecretStore`, `SecretLaws`, `SecretSharing`).

The compiler is a class, `Cluster.Config`, whose maps and lists the stages reassign in
place; each stage is a method proved against a specification function or an exact condition
of success, and the laws are lemmas about those specifications. `Compiler.Compile` runs all
stages; `Visits.Discovered` and `Compiler.Stages` say how the services it leaves come from the
declared ones, and `CompilerLaws.Outcome` is what can be relied on in the end. The mkdir and the secret store are
classes, and the lock is a step relation over a world of processes. Affinities and
indentation are specification functions with the loops of the source proved against them.

`dafny verify dfyconfig.toml` checks the whole project.

## Where the code differs from what is said of it

- A lock older than the timeout is taken over even from a living holder
  (`UploadLock.SlowHolderIsJoined`), and taking over the lock of a dead process is a race even
  between punctual hosts (`UploadLock.TakeoverRace`). Otherwise the lock excludes
  (`UploadLock.MutualExclusion`). A lock that is gone when its creation time is asked for ends
  the script: `mkcmd.coffee:57-61` makes one group of its commands, and the failed arithmetic
  discards all of it.
- The sleep adds the age of the lock instead of subtracting it. It outlasts the lock whenever
  the clock was read after the lock was created, and fails to exactly when
  `UploadLock.SleepOutlastsExactly` says; `UploadLock.ShortSleep` is such a run.
- The pass of placement computes the least solution for every declaration exactly when each
  service that activates another one comes first (`PlacementLaws.OrderExactly`). The ordering
  skips dependencies whose service has the dependent's name, also in another cluster. So
  placement is right for every order that the sort may return exactly when each service needs,
  transitively, what it activates (`OrderLaws.LeastExactly`); the laws of a finished
  configuration assume this, and it holds when no automatic dependency has its dependent's
  name in another cluster (`OrderLaws.NamesSuffice`).
- A dependency that names no service inherits the service, and the cluster, that an earlier
  dependency named (`Visits.ReferenceLeaks`), and an automatic service replaces one that uses
  its key for another module. The rejection of an automatic service that is missing follows an
  earlier dependency of the same service, or the same one, that names a service
  (`Visits.Stray`, `Discovery.Cause`), and `DiscoveryLaws.StrayRun` is a configuration that is
  so rejected for a dependency on a module alone. It happens on the first visit of a service
  only, unless a name is empty, `null` or holds a colon: these are read differently once
  resolved.
- `disabled: false` keeps a dependency on that leads nowhere; later stages are sound exactly
  when there is none (`Dependencies.SoundExactly`).
- `none` over a tag that a node lacks fails instead of matching (`Affinities.Resolve`).
- The quote flag of the indenter follows JSON strings exactly when no quote comes after a
  nonempty even run of backslashes (`IndentLaws.FlagExactly`,
  `IndentLaws.EscapedBackslashMisleads`).
- Secret store objects never read the file again. An object reads the last secrets exactly
  when no other one has written since it loaded them or last wrote
  (`SecretSharing.ReadsLatestExactly`); otherwise its next write loses what the others wrote
  (`SecretLaws.StaleWriteLosesSecret`).

## Model

| member | source | states |
|---|---|---|
| Labels.LabelRoundTrip | legacy/masson/lib/config/normalize.js:500 | a label `cluster:service` is split back into its two parts exactly when neither contains a colon |
| Labels.ReferenceRoundTrip | legacy/masson/lib/config/normalize.js:174-176 | a reference read from the right gives the service, and the cluster if there is one |
| Affinities.SharesAny | legacy/masson/lib/config/affinities.js:329-338 | true exactly when the two lists have a common element |
| Affinities.MatchTests | legacy/masson/lib/config/affinities.js:246-327 | the outputs of the passing tests in order; fails exactly when `none` meets a test without subject while there are values |
| Affinities.ResolveRule | legacy/masson/lib/config/affinities.js:150-165 | the nodes satisfying one tag rule, in node order; fails exactly when the rule is blocked on the fleet |
| Affinities.Resolve | legacy/masson/lib/config/affinities.js:75-237 | any nested affinity resolves to the nodes its boolean reading holds of, or fails when a `none` rule meets a node without the tag |
| Affinities.ResolutionIsExact | legacy/masson/lib/config/affinities.js:75-327 | the result is duplicate-free, in node order, and holds exactly the satisfying nodes; all, any and none are intersection, union and complement of the union |
| AffinityForms.Normalize | legacy/masson/lib/config/affinities.js:44-236 | the handlers' loops compute the normal form, with the same refusals |
| AffinityForms.NormalFormIdempotent | legacy/masson/lib/config/affinities.js:44-236 | normalising a normal form, at every depth, changes nothing |
| AffinityForms.SurfaceIrrelevant | legacy/masson/lib/config/affinities.js:95-236 | scalar, array and object spellings of the same values are accepted alike and mean the same on every fleet |
| AffinityForms.SurfaceResolvesAlike | legacy/masson/lib/config/affinities.js:75-237 | and resolve to the same nodes |
| AffinityForms.OmittedMatch | legacy/masson/lib/config/affinities.js:129-141 | where normalisation lets `match` be omitted on tags or nodes, all and any agree exactly when there is a value |
| AffinityForms.NodesIndifferent | legacy/masson/lib/config/affinities.js:220-237 | with at most one node, all and any agree exactly when there is one |
| AffinityForms.RuleIndifference | legacy/masson/lib/config/affinities.js:129-164 | the same for the values of one tag |
| AffinityLaws.OneValue | legacy/masson/lib/config/affinities.js:246-327 | one value of a tag holds on a node whose tag is that value, or a list with it; none of it holds everywhere else; the empty text matches nothing |
| AffinityLaws.NoValue | legacy/masson/lib/config/affinities.js:246-327 | without values a rule asks for a tag that is not the empty text; any of them holds nowhere and none of them everywhere |
| AffinityLaws.ValuesOfTag | legacy/masson/lib/config/affinities.js:150-165 | several values of a tag hold when all of them, one of them, or none of them does |
| AffinityLaws.ResolutionOfTree | legacy/masson/lib/config/affinities.js:75-91 | the nodes of a tree are the intersection, the union or the complement of the union of those of its parts |
| AffinityLaws.ResolutionOfTags | legacy/masson/lib/config/affinities.js:149-172 | the same for the tags of an affinity |
| AffinityLaws.ResolutionOfNodes | legacy/masson/lib/config/affinities.js:225-236 | of a list of nodes, any selects those listed, none the others, and all a node that is the only one listed, or every node where none is |
| AffinityLaws.UnresolvableExactly | legacy/masson/lib/config/affinities.js:304-327 | an affinity cannot be resolved exactly when at some depth a rule matches none of its values on a tag that some node lacks |
| AffinityLaws.NormalFormDescribes | legacy/masson/lib/config/affinities.js:44-236 | a normal form has the kind, the match, the tags and exactly the values of the declaration, at every depth |
| AffinityLaws.RefusedExactly | legacy/masson/lib/config/affinities.js:44-236 | a declaration is refused for an error that it, or a part of it at some depth, deserves, and accepted when it deserves none |
| Merging.MergeNames | legacy/masson/lib/config/normalize.js:163 | merging a definition gives no name twice |
| Merging.MergeOrigin | legacy/masson/lib/config/normalize.js:163 | every dependency of the merge is one of the user with the definition over it, or one of the definition under a new name |
| Merging.MergeByName | legacy/masson/lib/config/normalize.js:163 | looking a name up in the merge is merging what the two sides have under it: the only one there is, or the definition's over the user's field by field |
| Merging.BuiltTwice | legacy/masson/lib/config/normalize.js:132-163 | loading a module a second time makes of a service what loading it once may make |
| Merging.MergeTwice | legacy/masson/lib/config/normalize.js:163 | merging the same definition again changes no dependency |
| Visits.ReferenceLeaks | legacy/masson/lib/config/normalize.js:174-180 | a dependency naming no service gets the service, and unless it has one the cluster, named last before it in the same service; or none, and the cluster of the outer loop, when there was none |
| Discovery.FindByModule | legacy/masson/lib/config/normalize.js:189-202 | the services of the cluster that load the module, each once |
| Discovery.ResolveModule | legacy/masson/lib/config/normalize.js:181-216 | the unique provider of the module, nothing when there is none; refused for exactly the stated causes |
| Discovery.Register | legacy/masson/lib/config/normalize.js:227-233 | stored under the module's name, replacing what was there; the number of pairs still to register goes down |
| Discovery.DiscoverDep | legacy/masson/lib/config/normalize.js:168-236 | which service the dependency gets, by the services there are then; only cluster and service of it change; every service added or replaced meanwhile was asked for, and is done; an automatic one names an existing service afterwards; each error only where what is known of the configuration does not exclude it |
| Discovery.DiscoverService | legacy/masson/lib/config/normalize.js:132-237 | the recursion ends; unless replaced the service is its own merge with every dependency decided by the services there were; what was added or replaced was asked for by some dependency, nothing else changes; errors as for one dependency |
| Visits.DoneIsCalm | legacy/masson/lib/config/normalize.js:168-236 | with regular names, a service that was discovered is met again with every automatic dependency naming a service that exists, whatever the definition merged into it once more |
| Discovery.Discover | legacy/masson/lib/config/normalize.js:132-262 | the services are the declared ones and those registered, each because an enabled automatic dependency of a service there was then asked for its module; each service comes from the declared or newly registered one by visits that decide every dependency; all automatic dependencies exist; each of the five errors has its cause in the declared configuration, so without any cause discovery succeeds |
| DiscoveryLaws.DiscoveredBuilds | legacy/masson/lib/config/normalize.js:132-262 | every service found is what its module makes of the declared one, or of a new one when it was registered |
| DiscoveryLaws.RegisteredIsAsked | legacy/masson/lib/config/normalize.js:218-235 | what is registered has as name a module that a declared dependency is on, in a known cluster, and some declared dependency is automatic |
| DiscoveryLaws.RegisteredForEnabled | legacy/masson/lib/config/normalize.js:213-233 | each service was registered for a dependency on its module, automatic and not disabled, of a service that existed before it |
| DiscoveryLaws.OnlyOnDemand | legacy/masson/lib/config/normalize.js:218-262 | without automatic dependencies the services found are the declared ones |
| DiscoveryLaws.NeverLost | legacy/masson/lib/config/normalize.js:218-226 | where no dependency names a service, "Not sure if dservice.service can even exist here" cannot be reached on a first visit |
| DiscoveryLaws.StrayRun | legacy/masson/lib/config/normalize.js:174-226 | a configuration on which discovery always ends in that rejection, for an automatic dependency on a module alone |
| ModuleLaws.DeclaredIsLoaded | legacy/masson/lib/config/normalize.js:132-163 | a declared service that was not replaced has, after discovery, its own properties with those of its module over them: options and commands entry by entry, affinities and plugin where the module has some, a callback if either has one |
| ModuleLaws.RegisteredIsLoaded | legacy/masson/lib/config/normalize.js:227-236 | a registered service has exactly the properties of the module that it is named after |
| ModuleLaws.DeclaredDeps | legacy/masson/lib/config/normalize.js:160-172 | its dependencies are those of both sides by name, each property that of the module where given, a bare module name giving nothing else |
| ModuleLaws.RegisteredDeps | legacy/masson/lib/config/normalize.js:160-172 | those of a registered service are those of its module |
| ModuleLaws.VisitFinds | legacy/masson/lib/config/normalize.js:174-216 | a dependency on a module, with no service named up to it, gets a service that loads this module, in its cluster or that of the loop |
| ModuleLaws.AutomaticExist | legacy/masson/lib/config/normalize.js:213-236 | every automatic dependency that is not disabled names a service that was found |
| Dependencies.SettleDep | legacy/masson/lib/config/normalize.js:352-410 | refused exactly when required and missing, else disabled or enabled as specified |
| Dependencies.Settle | legacy/masson/lib/config/normalize.js:341-412 | succeeds exactly when all required dependencies exist, and settles every dependency of every service |
| Dependencies.EnabledExactly | legacy/masson/lib/config/normalize.js:352-410 | without a preset, enabled exactly when the target exists; the only dangling enabled ones are those preset to false |
| Dependencies.SettledExactly | legacy/masson/lib/config/normalize.js:352-410 | only `disabled` is decided: set in a cluster that does not exist, kept where preset, else set exactly when the target does not exist |
| Dependencies.SoundExactly | legacy/masson/lib/config/normalize.js:341-412 | all enabled dependencies have a target exactly when no dangling one was kept on |
| TopologicalSort.SortedIsAcyclic | legacy/masson/lib/config/normalize.js:494 | a sorted list shows that there is no cycle |
| TopologicalSort.Graph.Sort | legacy/masson/lib/config/normalize.js:494 | sorts every edge forward, each node once; fails exactly on a cycle |
| Ordering.AddService | legacy/masson/lib/config/normalize.js:476-491 | adds the service and an edge from each enabled dependency of another name, and nothing else |
| Ordering.Order | legacy/masson/lib/config/normalize.js:470-495 | each service once and after all it needs; rejected exactly when needs form a loop |
| Ordering.GraphIsServices | legacy/masson/lib/config/normalize.js:469-495 | with sound dependencies the graph holds the services and nothing else |
| Placement.SeveralAffinities | legacy/masson/lib/config/normalize.js:503-511 | several affinities are resolved as their union, and one as itself |
| Placement.PushInstances | legacy/masson/lib/config/normalize.js:502-531 | one instance for each wanted node in node order; both refusals exactly |
| Placement.EnrichNode | legacy/masson/lib/config/normalize.js:539-572 | one entry for the service is completed or appended, the others are untouched |
| Placement.EnrichKeys | legacy/masson/lib/config/normalize.js:539-572 | the list of a node keeps its services and gains the new one only if it is missing |
| Placement.PushAffinities | legacy/masson/lib/config/normalize.js:573-595 | every enabled automatic dependency also wants the nodes of the service, nothing else changes; fails exactly when a target is missing |
| AffinityPass.PlaceNext | legacy/masson/lib/config/normalize.js:498-596 | one step of the pass extends the recurrence by one service |
| AffinityPass.PlaceAll | legacy/masson/lib/config/normalize.js:496-596 | the pass over any list of services succeeds exactly when each is placeable, and meets the recurrence |
| AffinityPass.Place | legacy/masson/lib/config/normalize.js:496-596 | the same in reverse graph order, with the exact entries of every node's list |
| PlacementLaws.PassIsBelow | legacy/masson/lib/config/normalize.js:496-596 | in any order, the pass adds nothing beyond any solution |
| PlacementLaws.PassIsLeast | legacy/masson/lib/config/normalize.js:496-596 | in an order where activating services come first, the pass computes the least solution of the placement equations |
| PlacementLaws.CoLocationClosure | legacy/masson/lib/config/normalize.js:573-596 | a node hosting a service hosts its automatic dependencies, transitively |
| PlacementLaws.LateEdgeBreaks | legacy/masson/lib/config/normalize.js:496-596 | one activation out of order, and a declaration exists for which the pass misses a node |
| PlacementLaws.OrderExactly | legacy/masson/lib/config/normalize.js:496-596 | the pass yields the least solution for all declarations exactly when every activation points forward |
| OrderLaws.EveryOrderExactly | legacy/masson/lib/config/normalize.js:478-496 | every order that the sort may return has activating services first in the pass, exactly when each service needs, transitively, the others that it activates |
| OrderLaws.LeastExactly | legacy/masson/lib/config/normalize.js:469-596 | for every order that the sort may return and all declarations the pass yields the least solution, exactly under that condition on the services |
| OrderLaws.NamesSuffice | legacy/masson/lib/config/normalize.js:478-491 | the condition holds when no automatic dependency has the dependent's name in another cluster |
| NodeIndex.Reorder | legacy/masson/lib/config/normalize.js:597-607 | every node's list is the stable sort by graph position of what it was |
| NodeIndex.SortPermutes | legacy/masson/lib/config/normalize.js:599-607 | the sort is a permutation ordered by position |
| NodeIndex.SortIsStable | legacy/masson/lib/config/normalize.js:599-607 | entries of equal position keep their order |
| NodeIndex.SortFiltersGraph | legacy/masson/lib/config/normalize.js:597-607 | a list without repeats, sorted, is the graph restricted to its services |
| NodeIndex.FollowsUnique | legacy/masson/lib/config/normalize.js:597-607 | only one list of the same services follows the graph |
| NodeIndex.ListedExactly | legacy/masson/lib/config/normalize.js:539-572 | a node lists what it declared and what runs on it, each once |
| NodeIndex.TwoViewsAgree | legacy/masson/lib/config/normalize.js:512-607 | the sorted list is the graph restricted to the services that run on the node or were declared there |
| NodeIndex.OneInstancePerNode | legacy/masson/lib/config/normalize.js:521-530 | a service has at most one instance on a node |
| Configure.CheckLocal | legacy/masson/lib/config/normalize.js:610-652 | passes exactly when every required local dependency is on all nodes of its dependent |
| Configure.Inject | legacy/masson/lib/config/normalize.js:694-714 | all instances, the only one, or the one of this node; refused exactly when single and not one |
| Configure.MergeInstances | legacy/masson/lib/config/normalize.js:658-679 | merged options for every instance; refused exactly when a node lists the service twice |
| Configure.ConfigureInstances | legacy/masson/lib/config/normalize.js:682-745 | one call for each instance with its injected dependencies |
| Configure.ConfigureService | legacy/masson/lib/config/normalize.js:655-745 | the whole effect on one service and the trace, and exactly when it succeeds |
| Configure.ConfigureAll | legacy/masson/lib/config/normalize.js:654-746 | all services in graph order: options, trace, and exactly when it succeeds |
| ConfigureLaws.EventsInOrder | legacy/masson/lib/config/normalize.js:654-746 | at any two positions of the trace, the later event is of the same service or of one later in the graph |
| ConfigureLaws.CallsAreOwn | legacy/masson/lib/config/normalize.js:655-745 | every call is of a service with a callback on a node that hosts it, with what is injected there, and comes after every merge of that service |
| ConfigureLaws.ConfiguredAfterNeeds | legacy/masson/lib/config/normalize.js:654-746 | before every call stand the merge of every instance, and the call if there is one, of each service not later in the graph, and none of them comes after |
| ConfigureLaws.InjectedEntries | legacy/masson/lib/config/normalize.js:686-715 | exactly the enabled dependencies are injected, each under its name |
| ConfigureLaws.LocalInjection | legacy/masson/lib/config/normalize.js:706-714 | where the dependencies can be injected, a local one is the instance on the same node or null, and never null when required and checked |
| ConfigureLaws.SingleInjection | legacy/masson/lib/config/normalize.js:696-714 | a single dependency is injected only when exactly one instance exists; it is that one, or null when local and elsewhere |
| Compiler.NormalizeServices | legacy/masson/lib/config/normalize.js:263-338 | succeeds exactly when all affinities are well formed; normal affinities and no instances afterwards |
| Compiler.CheckNodes | legacy/masson/lib/config/normalize.js:450-467 | passes exactly when the nodes declare existing services only |
| Compiler.AutoIsLocal | legacy/masson/lib/config/normalize.js:573-652 | the local check never rejects a dependency that is also automatic |
| Compiler.AllListedOnce | legacy/masson/lib/config/normalize.js:660-669 | declared lists without repeats never lead to the "should never happen" rejection |
| Compiler.Prepare | legacy/masson/lib/config/normalize.js:132-495 | the stages before placement leave settled, ordered services that come from the declared ones by discovery, normal affinities and settling; each failure has its cause in what the stage before it left: the refused affinity, the required dependency, the node and its entry, the loop of needs |
| Compiler.PlaceAndSort | legacy/masson/lib/config/normalize.js:496-607 | placement and sorting; fails only for a blocked affinity of some service or an enabled dependency on the named service, which does not exist |
| Compiler.Finish | legacy/masson/lib/config/normalize.js:496-754 | the stages from placement on, and the cause of each failure on the placed services: the local dependency and the node that lacks it, which no automatic one is; a single dependency without exactly one instance; a node that declares a service twice |
| Compiler.Compile | legacy/masson/lib/config/normalize.js:132-754 | success leaves the guarantees of all stages, from the declared services to the configured ones; every failure has its cause in the declared configuration or in what the stages before it left of it; "No Affinity Found" has none |
| FailureLaws.EarlyIsDeserved | legacy/masson/lib/config/normalize.js:132-495 | whatever rejects a configuration before placement is there: the module, the declared affinity, the required dependency of that service and name, the entry of that node, the loop of enabled dependencies |
| FailureLaws.LateIsDeserved | legacy/masson/lib/config/normalize.js:496-754 | whatever rejects it later is there: the affinity, the enabled dependency, the required local one and the node, the single one, the node that lists a service twice |
| CompilerLaws.RunsExactly | legacy/masson/lib/config/normalize.js:263-596 | in a finished configuration a service runs on exactly the nodes that its declared affinities select and those of the other services that activate it |
| CompilerLaws.HostsWhatIsActivated | legacy/masson/lib/config/normalize.js:573-652 | in a finished configuration a node hosts, transitively, what its services activate |
| CompilerLaws.NeedsAreConfiguredFirst | legacy/masson/lib/config/normalize.js:469-746 | in a finished configuration, whenever a service is configured all instances of what it needs are merged and configured, and no event of theirs comes later |
| CompilerLaws.InjectedAfterCompile | legacy/masson/lib/config/normalize.js:617-746 | in every call of a finished configuration exactly the enabled dependencies are injected: local is the same node or null, never null when required; single has one instance and is it; others are all instances |
| CompilerLaws.ListFollows | legacy/masson/lib/config/normalize.js:512-607 | the list of a node follows the graph and holds what runs or is declared there |
| CompilerLaws.LookupsAfterCompile | legacy/masson/lib/commands/clusters.js:76-101 | neither search error can occur on any entry of a node exactly when its declared services run there |
| CompilerLaws.NeedsRunFirst | legacy/masson/lib/commands/clusters.js:88-117 | on every node and under every filter all modules of what is needed run before any module of what needs it |
| FinishedLaws.OptionsOfInstance | legacy/masson/lib/config/normalize.js:658-679 | every option of every instance is what the service says for the node, else what the entry of the node says, else what the service says, and there is no other |
| FinishedLaws.EntriesOfNode | legacy/masson/lib/config/normalize.js:539-572 | a node lists its declared entries with their options, those without module having learnt it, and the other services placed there, with their module and without options |
| FinishedLaws.AffinitiesResolve | legacy/masson/lib/config/normalize.js:263-531 | in a finished configuration every declared affinity is well formed and can be resolved on the nodes |
| FinishedLaws.HappensExactly | legacy/masson/lib/config/normalize.js:655-745 | exactly the instances have their options merged, and exactly those of a service with a callback are configured |
| FinishedLaws.HappensOnce | legacy/masson/lib/config/normalize.js:655-745 | each of it happens once |
| FinishedLaws.EnabledComesFirst | legacy/masson/lib/config/normalize.js:476-495 | an enabled dependency on a service of another name exists, comes earlier in the graph, and everything of it happens before any call of its dependent |
| FinishedLaws.SpecsKept | legacy/masson/lib/config/normalize.js:263-754 | from discovery to the configured services nothing of a service changes but whether its dependencies are enabled |
| Dispatch.ArrayGet | legacy/masson/lib/utils/array_get.js:2-24 | the only matching element; the two errors exactly when none or several match |
| Dispatch.FindInstance | legacy/masson/lib/commands/clusters.js:76-101 | the instance of the service on the node, found exactly when there is one |
| Dispatch.SelectEntries | legacy/masson/lib/commands/clusters.js:44-46 | the services that have the command, in order |
| Dispatch.CallPlugins | legacy/masson/lib/commands/clusters.js:71-87 | the plugins of all services of the node, filtered or not, in order |
| Dispatch.CallCommands | legacy/masson/lib/commands/clusters.js:88-117 | the modules of the selected services in order, with the options of the instance |
| Dispatch.RunNode | legacy/masson/lib/commands/clusters.js:41-118 | nothing when nothing is selected, else all plugins and then the modules; succeeds exactly when every lookup does |
| Dispatch.LookupExact | legacy/masson/lib/utils/array_get.js:10-23 | with one instance a node, the lookup succeeds exactly when the service runs there |
| Dispatch.CallsInOrder | legacy/masson/lib/commands/clusters.js:91-116 | over entries in graph order, any later call is for the same service or one later in the graph |
| Dispatch.ModulesFollowGraph | legacy/masson/lib/commands/clusters.js:41-118 | the same under any module and cluster filter and any command |
| Dispatch.LookupsSucceed | legacy/masson/lib/commands/clusters.js:76-101 | no search error occurs when all entries are hosted |
| DispatchLaws.PluginsExactly | legacy/masson/lib/commands/clusters.js:71-87 | one call for each entry whose service has a plugin, in order: that plugin, with the options of the instance of the node |
| DispatchLaws.CommandsExactly | legacy/masson/lib/commands/clusters.js:88-117 | of entries without repeats, each service has exactly the calls of its command: its modules in order, with the options of the instance of the node |
| DispatchLaws.SelectedExactly | legacy/masson/lib/commands/clusters.js:41-46 | the command reaches exactly the entries that the filters keep and whose service has the command, in their order |
| UploadLock.ReportsAreTrue | legacy/ryba/lib/hdfs_upload.coffee.md:81-149 | in every run, a process that reports success or a skip leaves the target in place |
| UploadLock.MutualExclusion | legacy/ryba/lib/hdfs_upload.coffee.md:81-138 | in every run that finds no expired lock, one process at most is in the upload section, with the lock, the "Lock released" path is not taken, and a lock gone after the wait means that the target is there |
| UploadLock.NeverAgedIsExclusive | legacy/ryba/lib/hdfs_upload.coffee.md:81-138 | the same as long as no lock ages past the timeout |
| UploadLock.NeverAgedIsTimely | legacy/ryba/lib/hdfs_upload.coffee.md:86-88 | as long as no lock ages past the timeout, none is found expired |
| UploadLaws.WaiterEnds | legacy/ryba/lib/hdfs_upload.coffee.md:94-102 | in a run that finds no expired lock, with any moves of others in between, a process whose sleep is over skips when the lock is gone, the target being there, and fails when there is a lock |
| UploadLaws.HolderEnds | legacy/ryba/lib/hdfs_upload.coffee.md:127-138 | in such a run a holder that copies rightly and is not stopped is done, with the target there and the lock released, unless the target was there before |
| UploadLaws.AloneExactly | legacy/ryba/lib/hdfs_upload.coffee.md:81-138 | the whole run of a process that nobody disturbs, from any state: skipped with the target there; done without lock, or with one older than 240 seconds; else failed, after 245 seconds more than the age of the lock |
| UploadLaws.ReleasedAlone | legacy/ryba/lib/hdfs_upload.coffee.md:99-138 | without lock and target after the wait, the file is uploaded and the script fails for the lock it has not |
| UploadLaws.VanishedLockFails | legacy/ryba/lib/hdfs_upload.coffee.md:87-138 | a lock gone when it is read, taken over or released fails the script |
| UploadLaws.WrongCopyFails | legacy/ryba/lib/hdfs_upload.coffee.md:130-136 | a copy that lands under another name fails the script, and the lock stays |
| UploadLaws.StoppedLeaves | legacy/ryba/lib/hdfs_upload.coffee.md:81-138 | a process that stops leaves the file, the lock and the others as they are |
| UploadLock.SleepOutlastsExactly | legacy/ryba/lib/hdfs_upload.coffee.md:88-94 | the sleep outlasts the lock exactly when the lock is not much younger than the clock reading |
| UploadLock.SlowHolderIsJoined | legacy/ryba/lib/hdfs_upload.coffee.md:104-107 | a run in which a slow holder is joined after a takeover |
| UploadLock.TakeoverRace | legacy/ryba/lib/hdfs_upload.coffee.md:104-107 | a run without delays in which two takeovers of a dead lock upload together |
| UploadLock.ShortSleep | legacy/ryba/lib/hdfs_upload.coffee.md:86-98 | a run in which the sleep ends while the lock is still valid |
| HdfsMkdir.BlockedExactly | legacy/ryba/lib/hdfs_mkdir.coffee.md:65 | nothing can be created exactly when the path or an ancestor is a file |
| HdfsMkdir.MissingExactly | legacy/ryba/lib/hdfs_mkdir.coffee.md:79-91 | the directories to create are exactly the ancestors-or-self that do not exist, from the top down |
| HdfsMkdir.BuiltExactly | legacy/ryba/lib/hdfs_mkdir.coffee.md:79-90 | exactly the missing directories are added with the given attributes, nothing else changes |
| HdfsMkdir.Hdfs.MkdirP | legacy/ryba/lib/hdfs_mkdir.coffee.md:65 | creates the missing directories; fails, changing nothing, exactly when blocked |
| HdfsMkdir.Hdfs.CreateDir | legacy/ryba/lib/hdfs_mkdir.coffee.md:58-78 | one directory with those attributes that are not empty |
| HdfsMkdir.Hdfs.CreateParentDir | legacy/ryba/lib/hdfs_mkdir.coffee.md:79-90 | the recursion creates the missing ancestors from the top; fails, changing nothing, exactly when blocked |
| HdfsMkdir.Hdfs.Create | legacy/ryba/lib/hdfs_mkdir.coffee.md:85-96 | each `mkdir` of a run creates exactly one directory |
| HdfsMkdir.Hdfs.Mkdir | legacy/ryba/lib/hdfs_mkdir.coffee.md:53-97 | skipped exactly when the target is a directory, abandoned without a change exactly when blocked, else the final tree and the order of creation |
| HdfsMkdir.AfterExactly | legacy/ryba/lib/hdfs_mkdir.coffee.md:53-97 | all ancestors exist, new ones have the parent attributes and the target its own, existing entries are unchanged |
| HdfsMkdir.AttributesExactly | legacy/ryba/lib/hdfs_mkdir.coffee.md:34-97 | every new directory has, property by property, its option where given and not empty: the target its own, the others those of the parents, for lack of them those of the target |
| HdfsMkdir.SecondRunIsSkipped | legacy/ryba/lib/hdfs_mkdir.coffee.md:54-57 | a second run with any attributes changes nothing |
| Indent.Indent | legacy/ryba/retired/nagios/resources/plugins/nagios_alerts.php:463-512 | the loop computes the indented text |
| Indent.QuotesAgree | legacy/ryba/retired/nagios/resources/plugins/nagios_alerts.php:473-509 | quotes and depth of the output, recomputed from scratch, are the loop's at every copied character |
| Indent.StripInverts | legacy/ryba/retired/nagios/resources/plugins/nagios_alerts.php:463-512 | deleting whitespace outside of quotes from the output gives what it gives from the input |
| Indent.RoundTripExactly | legacy/ryba/retired/nagios/resources/plugins/nagios_alerts.php:463-512 | it gives the input back exactly when that has no whitespace outside of quotes |
| IndentLaws.CounterIsNesting | legacy/ryba/retired/nagios/resources/plugins/nagios_alerts.php:484-506 | on balanced input the counter is the number of open brackets, never negative, zero at the end |
| IndentLaws.InsertedBreaks | legacy/ryba/retired/nagios/resources/plugins/nagios_alerts.php:484-506 | for any input, every inserted break is followed by at least two spaces a level, and by exactly as many unless the input goes on with a space |
| IndentLaws.IndentationExactly | legacy/ryba/retired/nagios/resources/plugins/nagios_alerts.php:484-506 | for any input, every line break outside of quotes is followed by exactly two spaces a level, a closing bracket being one level up, exactly when the input has no space after a comma or opening bracket there and two spaces a level after breaks of its own |
| IndentLaws.CompactIsNeat | legacy/ryba/retired/nagios/resources/plugins/nagios_alerts.php:484-506 | input without whitespace outside of quotes meets that condition |
| IndentLaws.FlagExactly | legacy/ryba/retired/nagios/resources/plugins/nagios_alerts.php:479-480 | the quote flag follows the strings of section 7 of RFC 8259 exactly when no quote comes after a nonempty even run of backslashes |
| IndentLaws.EscapedBackslashMisleads | legacy/ryba/retired/nagios/resources/plugins/nagios_alerts.php:479-480 | an input on which it does not |
| SecretCodec.HexRoundTrip | legacy/masson/lib/secrets.js:180-195 | bytes written in hexadecimal are read back |
| SecretCodec.CipherRoundTrip | legacy/masson/lib/secrets.js:175-203 | what was encrypted with a vector of sixteen bytes decrypts to the same secrets |
| SecretCodec.StoredExactly | legacy/masson/lib/secrets.js:175-183 | what is stored is two hexadecimal digits for each byte of the printed secrets combined with the keystream |
| SecretCodec.LookupPut | legacy/masson/lib/secrets.js:92-94 | a value set by path is found there, and every path apart from it leads where it did |
| SecretCodec.LookupRemove | legacy/masson/lib/secrets.js:38-43 | a value unset by path is gone, and every path apart from it leads where it did |
| SecretStore.Store.Read | legacy/masson/lib/secrets.js:116-157 | loads vector and text once, and fails without a file |
| SecretStore.Store.GetAll | legacy/masson/lib/secrets.js:45-76 | the effect on file and cache, and the secrets |
| SecretStore.Store.GetValue | legacy/masson/lib/secrets.js:45-76 | the same for one path |
| SecretStore.Store.SetAll | legacy/masson/lib/secrets.js:78-87 | writes vector and encrypted secrets, and keeps them |
| SecretStore.Store.SetValue | legacy/masson/lib/secrets.js:89-94 | the same for one path |
| SecretStore.Store.UnsetValue | legacy/masson/lib/secrets.js:38-43 | removes one path |
| SecretStore.Store.Create | legacy/masson/lib/secrets.js:100-107 | a new file with a vector only, refused when there is a file |
| SecretLaws.DoShows | legacy/masson/lib/secrets.js:38-107 | one operation of any object acts and answers like a variable with one copy an object |
| SecretLaws.StoreIsVariable | legacy/masson/lib/secrets.js:38-203 | so does every sequence of operations of any number of objects |
| SecretLaws.ReadsLastWritten | legacy/masson/lib/secrets.js:45-98 | an object that is the only writer reads exactly the last secrets, the empty object just after `init` |
| SecretLaws.FreshReadsLastWritten | legacy/masson/lib/secrets.js:45-98 | a fresh object reads exactly the last secrets written by anybody |
| SecretLaws.CopyIsKept | legacy/masson/lib/secrets.js:116-140 | an object that has read and does not write reads the same for ever |
| SecretLaws.SetKeyIsRead | legacy/masson/lib/secrets.js:45-98 | after `set` with a path the object finds the value there, and what it found on every path apart from it |
| SecretLaws.UnsetIsGone | legacy/masson/lib/secrets.js:38-76 | after `unset` it finds nothing there, and what it found on every path apart from it |
| SecretLaws.FileExactly | legacy/masson/lib/secrets.js:78-87 | the file is the vector of sixteen bytes that the object read, then two hexadecimal digits for each byte of the printed secrets combined with the keystream |
| SecretSharing.ReadsLatestExactly | legacy/masson/lib/secrets.js:45-140 | of new objects on one file, one reads the last secrets, whatever is written in a pattern of reads and writes, exactly when no other has written since it loaded them or last wrote |
| SecretLaws.StaleWriteLosesSecret | legacy/masson/lib/secrets.js:89-94 | a run of the store in which a write on a stale copy loses another one |
| SecretLaws.CacheIsFile | legacy/masson/lib/secrets.js:78-140 | the cached vector and text of the only writer, once loaded, are the split of the file, whatever the file |

## Left out

- The `services` affinity type: it has no resolver in the source.
- Node identity: key, `id` and `fqdn` of a node are one nonempty name, as by default; nodes declared without them differ from the source's handlers.
- The copies `instance.node`: instances keep the name of their node, `config.nodes` is the list modelled.
- The object form of a node's services: its conversion to a list, which drops nothing, is not modelled.
- JavaScript's order of integer-like keys: clusters, services and dependencies are in order of declaration.
- Names with colons: services are pairs instead of labels, which `Labels.LabelRoundTrip` justifies exactly for names without colons.
- Services without a name listed by a node: the source skips their check.
- The deep merge of mixme: definitions override dependencies field by field, options and commands key by key; other fields are simplified.
- The write of a resolved dependency happens after the recursion it starts instead of before; nothing reads it in between.
- Normalisation of affinities in place: raw and normal affinities are values, so aliasing between them is not captured; an affinity of unknown `match` word is not expressible.
- `configure` callbacks: each call is an event in a trace with the dependencies injected into it; its other arguments, and what it does to the options, are not modelled.
- The options that an instance has between placement and the merge, which replaces them.
- tsort and Array.prototype.sort: a depth-first sort and a stable insertion sort stand for them.
- multimatch and minimatch: filters are arbitrary predicates.
- The type checks of the raw configuration, and the normalisation of commands to lists.
- Module loading, file reading, command line, logging, SSH and the modules that commands run.
- UploadLock: creation of parent directories, `clean` (which only prints), permissions, failures of commands other than those named, and clocks that differ between hosts.
- HdfsMkdir: permissions, several runs at once, Kerberos; paths are lists of names.
- Discovery.Discover: each dependency is decided at some moment between two registrations; which one, and how often a service is visited, follows from the order of declaration, which its contract does not speak about.
- SecretSharing.ReadsLatestExactly: a pattern says who reads and who writes, not which kind of write; removing what is not there writes the same secrets again.
- SecretStore: the strength of the cipher and reuse of the vector; printing and parsing of JSON and the keystream are parameters with the one law they are used for; overlapping asynchronous operations; different passwords; arrays inside secrets.
- `config/enrich.js`, `store.js`, `flatten.js`, `unique.js`, `chain.js`, Nagios thresholds: they would only add easy members.
