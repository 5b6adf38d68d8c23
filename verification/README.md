# Kaiju's execution kernel

A run of Kaiju is a dependency graph. A model-written plan is parsed, cleaned, and grafted onto the graph as nodes; the
scheduler fires whatever is ready; operations rewire or skip nodes while the run goes on; budgets limit it; and results
flow along `${node.<id>.<path>}` references. This project models that part of the repository (`agent/`) and proves what
it keeps. `dafny verify dfyconfig.toml` checks all of it.

Code that changes things in place is modelled as it is written: `Graphs.Graph` and `Graphs.Node`, `Budgets.Budget`,
`FairShare.Allocate`, `Cycles.BreakCycles`, `TaskDeps.Resolve`, `Names.FixDuplicates`, `PlanNodes.PlanStepsToNodes`,
`LateGraft.GraftArchitectRunNodes` and the rest are classes and loops, each proved equal to a function of its input or of
the old state. The graph's own value is `Nets.Net`: nodes by id, the order they were added, the round. The properties are
lemmas about those functions, so they hold of what the loops leave behind.

How the files are grouped:

- `Digraph`, `Decimal`, `Values`: walks, cycles and ranks; numerals; parameter trees whose strings are sequences of
  literal text and references.
- `Net`, `Graph`, `Scheduling`, `Rewiring`, `Outcomes`, `Rounds`, `Messages`: the graph and its operations, deadlock
  freedom, what each rewiring does to acyclicity and to each node, arcs and the messages built from them.
- `Cycles`, `Names`, `PlanCleanup`, `PlanLaws`, `DedupLaws`: the plan front end, pass by pass.
- `PlanGraft`, `PlanNodes`, `PlanShape`, `Templates`, `TemplateLaws`: from plan steps to nodes, substitution when a node
  fires, and what is substituted.
- `PlanFilter`: dropping the steps that cannot run, between the clean-up and the graft.
- `PlanCycles`, `PlanExamples`, `PlanRuns`: clean-up, filter and graft together: when the graph stays acyclic, plans for
  which it does not, the graft as a run of the graph's operations, and what a step reads over the rest of the run.
- `TaskDeps`, `ArchitectGraft`, `ArchitectLaws`, `ArchitectWork`, `LateGraft`, `LateGraftLaws`, `LateGraftWork`,
  `GraphRuns`: the architect's ordering edges, the graft of its setup commands and coders, the late graft of what runs and
  checks their output, exactly which nodes each makes, and whole runs.
- `Budget`, `BudgetRuns`, `FairShare`: the concurrent budget and the fair-share allocator.
- `Salvage`, `Truncate`, `TruncateEnds`, `Shell`: recovery of cut plans, the shrink loop for JSON results and when it
  ends, shell quoting.

## What turned out not to hold

Each of these is kept as the code has it, with an example and, beside it, the condition under which the expected property
does hold.

- A plan that was cleaned does not keep the graph acyclic, although the clean-up leaves it in order. Between clean-up and
  graft `validatePlanSteps` drops the steps that cannot run, and whatever a step of the rest reads through a reference is
  made a dependency again by `planStepsToNodes`. The graph ends up acyclic exactly when none of the waits that were not
  listed dependencies of the cleaned plan leads back (`PlanCycles.StrayReadsIff`, over the plan that is really grafted).
  They have four sources: dependencies dropped by `breakCycles` that are still read (`BrokenCycleComesBackIff`; two steps
  reading each other: `PlanExamples.CycleComesBackHappens`), references left behind by the removal of duplicates
  (`PlanExamples.StaleReferenceHappens`), references that come with a merged focus, and positions that name another step
  once an earlier one has been filtered out (`PlanExamples.FilteredCycleHappens`, a plan without a single reference).
  Nodes on such a cycle are never fired (`Scheduling.CycleStarves`). A plan that arrives as a tool call is not cleaned at
  all: its repeated names are told apart, it is filtered and grafted, and `PlanShape.GraftAcyclicIff` says when that is
  acyclic.
- Dropping steps that cannot run renumbers nothing. A position, listed or in a reference, still names its step exactly when
  that step and every earlier one stayed, a reference by name exactly when its step did (`PlanFilter.PositionFollowsIff`,
  `ReferenceFollowsIff`); the plan is still in order exactly when no position fell off the end or onto its own step and no
  moved one leads back (`FilteredOrderedIff`).
- Removing duplicate steps does not carry references along. A positional reference to a dropped step is left as written
  and from then on names another step, itself, or none, although the comment at agent/executive.go:2674-2676 says it is
  remapped. A reference keeps its step exactly when that step stayed (`PlanLaws.ReferenceFollowsIff`,
  `PlanExamples.StaleReferenceExample`).
- The shrink loop of `truncateToolResult` does not always end. A cut through a multi-byte character is written back as
  U+FFFD, which is longer than what it replaces, so a turn can leave the field as long as it was. Runs from an object can be
  as long as you like exactly when one of them comes back to an object it has been at; otherwise they are bounded by the
  number of objects they could be at (`TruncateEnds.EndlessIff`). The string total falls in a turn exactly when what is cut
  out outweighs the marker and the replacements (`TurnLowersIff`). The loop ends, whatever the characters, when the cap
  leaves room for the object with its strings cut down to near the marker (`RoomEnds`), and whatever the cap while the
  strings are ASCII (`AsciiEnds`). A field whose cut takes out exactly what marker and replacements put in stalls, and from
  the next turn on it never changes again exactly when neither cut orphans three bytes (`StallSettlesIff`); over such a field
  the loop has no end (`StallNeverEnds`), and every marker has one (`RelapsingStalls`, `StalledExample`).
- `salvageTruncatedPlan` takes the first `"steps"` in the text for the key. Salvage is exact, at every cut of every plan,
  exactly when the scan finds an array in what precedes the steps and comes to the end of that as it would begin there
  (`Salvage.ExactIff`). Whenever an earlier `"steps"` is followed by an array that closes, all of the real ones are lost
  (`EarlierNameHidesSteps`).
- The per-skill batch counter is documented to overshoot "by 1-2". With k callers it overshoots by up to k - 1, and that
  is reached (`Budgets.BatchOvershootBounded`, `BudgetRuns.OvershootReached`).
- The comments of `graftArchitectRunNodes` and `graftTopLevelServices` say services are outside the node budget; the code
  charges them like everything else, and the model follows the code.
- Gating the graph on a node that itself waits for a pending node makes a cycle (`Rewiring.GateAcyclicIff`).
- A node added after the late graft that depends on a coder does not wait for the run nodes
  (`GraphRuns.LatecomerIsReady`), and a node reference that the planner wrote out itself adds no dependency
  (`PlanShape.WaitsExactly`).

## Model

| member | source | states |
|---|---|---|
| FairShare.Allocate | agent/contextgate.go:274-363 | The multi-pass allocator, loops and all: it ends at a level (remaining characters per unit of open weight) at which a source is kept whole exactly when its length fits its share of that level; of every other source there is its floored share, nothing when that is under 500, and otherwise its beginning and the marker, or, cut from the front, the marker and its end; the trimmed names are exactly those of changed sources |
| FairShare.LevelUnique | agent/contextgate.go:288-361 | There is only one such level, so which sources are kept whole does not depend on the order in which they settle or on the share changing inside a pass |
| FairShare.OutcomeUnique | agent/contextgate.go:288-363 | Two runs hand out the same characters to every source |
| FairShare.UncutIff | agent/contextgate.go:302-363 | Nothing is cut exactly when all contents together fit the budget or there is no content |
| FairShare.KeptIffUnchanged | agent/contextgate.go:312-361 | A source comes back unchanged exactly when it was kept whole: a cut never happens to reproduce the content |
| FairShare.LevelAtLeastEven | agent/contextgate.go:302-341 | Settling small sources only raises the level for the others |
| FairShare.EvenShareGuaranteed | agent/contextgate.go:302-361 | Every source gets at least its even share of the whole budget or all of itself, unless it was dropped; one whose even share reaches 500 is never dropped |
| FairShare.WithinBudget | agent/contextgate.go:302-361 | What is handed out never exceeds the budget |
| FairShare.NothingWasted | agent/contextgate.go:341-361 | Once something is cut, what stays unused of a nonnegative budget is at least the shares of the dropped sources and fewer characters more than sources were cut |
| Budgets.Budget.TrySpawnNode | agent/dag.go:2131-2185 | Without interference: granted exactly when every limit it counts against has room; each counter it counts against is then one higher, per tool as well, and no other changes; refused, none does |
| Budgets.Budget.TryObserverCall | agent/dag.go:2090-2100 | Granted exactly while observer calls are left, and counts itself |
| Budgets.Budget.ResetBatchCounters | agent/dag.go:2191-2197 | Only the batch counters are forgotten |
| Budgets.NeverOverspent | agent/dag.go:2131-2185 | In every interleaving of k callers at the level of single atomic accesses, resets included, node, LLM and observer counters stay between 0 and their maxima, and no more spawns are granted than the maxima allow |
| Budgets.RefusedCallsCostNothing | agent/dag.go:2137-2180 | Whenever all callers are between calls, both counters equal the number of grants: a refusal and its rollback have no net effect |
| Budgets.BatchOvershootBounded | agent/dag.go:2167-2183 | The optimistic batch counter never exceeds its limit by more than k - 1, whatever is reset in between |
| BudgetRuns.SpawnAlone | agent/dag.go:2131-2185 | The atomic steps refine the call: taken by one caller alone they answer and charge exactly what TrySpawnNode does as a whole, counters created on demand included |
| BudgetRuns.OvershootReached | agent/dag.go:2124-2185 | The bound on the overshoot is attained for every k, by a run that grants every call it makes |
| Graphs.Graph.AddNode | agent/dag.go:782-797 | The node gets the next id, the current round and the pending state, and goes last in the order |
| Graphs.Graph.BeginRound | agent/dag.go:806-810 | Only the round advances |
| Graphs.Graph.SetState | agent/dag.go:972-980 | One node's state, any state, or nothing for an unknown id |
| Graphs.Graph.AddChild | agent/dag.go:1390-1396 | One more child, last, or nothing for an unknown parent |
| Graphs.Graph.ReadyNodes | agent/dag.go:881-904 | Exactly the pending nodes all of whose dependencies exist and are terminal, in the order they were added |
| Graphs.Graph.IsAllDone | agent/dag.go:1438-1447 | True exactly when every node is terminal |
| Graphs.Graph.PruneBranch | agent/dag.go:936-963 | Terminates, whatever order the map is walked in, having skipped exactly the pending nodes from which pending nodes lead to the given one, each once; nothing else changes |
| Outcomes.PrunedNode | agent/dag.go:936-963 | Pruning changes the state of those nodes and nothing else of any node |
| Nets.DoomedClosed | agent/dag.go:936-963 | That set holds every pending node that waits for the given node or for a member |
| Nets.DoomedLeast | agent/dag.go:936-963 | And it is the least such set |
| Rewiring.PruneKeepsShape | agent/dag.go:936-963 | Pruning changes no dependency, and leaves no pending node waiting for the root or for a skipped node |
| Graphs.Graph.GatePending | agent/dag.go:1950-1972 | Every pending node but the gate that lacked the gate now waits for it; the count is the number of nodes changed |
| Outcomes.GatedNode | agent/dag.go:1950-1972 | A gated node waits for the gate last of all and is otherwise as it was; so is every other node |
| Rewiring.GateAcyclicIff | agent/dag.go:1950-1972 | Gating keeps the graph acyclic exactly when the gate does not wait, however indirectly, for a pending node |
| Rewiring.GateHolds | agent/dag.go:1950-1972 | Until the gate is terminal nothing else becomes ready |
| Rewiring.FreeGateAcyclic | agent/dag.go:1950-1972 | A gate that waits for nothing is always safe |
| Graphs.Graph.AlsoWaitFor | agent/dag.go:1347-1388 | Every pending node that waited on one of the given ids, and is not new, waits for each new node too, once each, in order; the ids returned are exactly the nodes changed |
| Outcomes.AlsoWaitedNode | agent/dag.go:1347-1388 | A waiter gets behind what it waited for each new id it lacked, once and in order, and nothing else; every other node is as it was |
| Rewiring.AlsoWaitAcyclicIff | agent/dag.go:1347-1388 | That keeps the graph acyclic exactly when no new node waits for a waiter |
| Graphs.Graph.WaitAlsoOn | agent/dag.go:1309-1334 | Exactly the pending dependents of the parent that read its late field wait for the child too |
| Outcomes.ReadsIff | agent/dag.go:1309-1334 | Reading the late field is having a node reference to the parent whose path is that field or goes on from it with a dot |
| Outcomes.WaitedLateNode | agent/dag.go:1309-1334 | Such a pending dependent waits for the child last of all, unless it did before; every other node is as it was |
| Rewiring.WaitLateAcyclicIff | agent/dag.go:1309-1334 | Acyclic exactly when the child waits for none of those readers; a reader is then ready only once the child is terminal |
| Graphs.Graph.RewriteDependents | agent/utils.go:1937-1963 | In every pending node but the replacements, the first mention of the replaced id gives way to all of them |
| Outcomes.RedirectedNode | agent/utils.go:1937-1963 | The replacements stand exactly where the first mention stood; nothing else of any node changes |
| Rewiring.RedirectAcyclicIff | agent/utils.go:1937-1963 | Which keeps the graph acyclic exactly when no replacement leads to a dependent along the edges that stay |
| Rewiring.AddKeepsShape | agent/dag.go:782-797 | Adding a node over existing nodes keeps the graph closed and acyclic |
| Graphs.Graph.SkipAllPending | agent/dag.go:2010-2022 | Exactly the pending nodes become skipped, and the count is theirs |
| Outcomes.AllSkippedNode | agent/dag.go:2010-2022 | Nothing else of any node changes |
| Graphs.Graph.SupersedeFailures | agent/dag.go:1825-1887 | Marks exactly the open failures addressed by a debugger whose fix landed and counts them; every debugger it returns marked a failure that none returned before it addresses, and each marked failure has one |
| Outcomes.SupersededNode | agent/dag.go:1825-1887 | A failed node is marked exactly when it was, or a debugger sent for it has finished children of which none but a re-grafted check may have failed and one is no check; nothing else of any node changes |
| Nets.AnnouncedOnce | agent/dag.go:1875-1886 | So no debugger is announced twice |
| Graphs.Graph.Landed | agent/dag.go:1840-1873 | A fix has landed exactly when the debugger's children are all terminal, one is not a validator, and no such one failed |
| Nets.SupersedeIdempotent | agent/dag.go:1825-1887 | A second call right after the first marks nothing |
| Nets.SupersedeConserves | agent/dag.go:1801-1887 | One call shortens the list of open failures by exactly the number it returns |
| Graphs.Graph.FinishedStep | agent/dag.go:1591-1621 | The newest resolved step of that name, else the newest of that name, else nothing, with its round |
| Scheduling.NoDeadlock | agent/dag.go:881-904 | In every graph whose dependencies exist and are acyclic, if something is pending and nothing running then something is ready |
| Scheduling.NeverReady | agent/dag.go:881-904 | A step towards CycleStarves: a wait for oneself or for an id the graph does not hold is never met |
| Scheduling.DriverFinishes | agent/dag.go:881-1447 | A driver that fires only ready nodes makes at most two moves a node on every run, and is out of moves exactly when every node is terminal |
| Scheduling.CycleStarves | agent/dag.go:881-904 | Pending nodes on a cycle are never fired in any run, and no such run ever has everything done |
| Rounds.ReadStepResults | agent/dag.go:1623-1670 | The finished tool and compute steps of a round, or of all, in order, unnamed ones under their id |
| Rounds.ResultsTell | agent/dag.go:1623-1670 | The k-th result tells of the k-th node, in the order nodes were added, that is a tool or compute node, resolved or failed, and of the round asked for: its tool, its name or else its id, what it was called with, what came back, its error |
| Rounds.ReadArcs | agent/dag.go:1526-1537 | The nonempty rounds' results, round by round |
| Rounds.ArcsByRound | agent/dag.go:1526-1537 | The arcs are the results of exactly the rounds that have any, in order |
| Rounds.ArcsComplete | agent/dag.go:1526-1537 | Over every run of additions, rounds and changes, concatenating the arcs gives back all step results: none lost, repeated or reordered |
| Rounds.FinishedIsLast | agent/dag.go:1591-1621 | Over every run, a name resolves to the step added last among the resolved ones of that name, and only when none resolved to the last of that name |
| Rounds.FinishedFinds | agent/dag.go:1591-1621 | Stated on the nodes alone: of those so called, the one added last among the resolved, or among all of them when none is; nothing when there is none |
| Messages.BuildMessages | agent/agent.go:136-170 | The system message, the history, one assistant turn per nonempty arc with its tool messages, and the query |
| Messages.TurnsSpeak | agent/agent.go:136-170 | For each nonempty arc, in order: a turn whose k-th call names the k-th step's id, tool and parameters, and then, in the same order, the answer to each |
| Messages.BuiltIsHeard | agent/agent.go:136-170 | Over any well-paired history the messages are well paired, each turn answered at once, call by call, and a reader recovers exactly the nonempty arcs |
| Messages.CallIdsUnique | agent/agent.go:136-175 | Over every run, all call ids declared for its arcs are different |
| TaskDeps.Search | agent/architect_graft.go:394-413 | The explicit-stack search terminates and answers reachability exactly |
| TaskDeps.Resolve | agent/architect_graft.go:389-438 | Edges and refusals are those of taking the requests in order, each judged against the edges kept so far |
| TaskDeps.KeptAcyclic | agent/architect_graft.go:415-437 | The kept edges are acyclic |
| TaskDeps.KeptMaximal | agent/architect_graft.go:415-437 | A well-formed request is kept exactly when adding it to the kept edges closes no cycle: no refused edge could be put back |
| TaskDeps.KeptAllIff | agent/architect_graft.go:415-437 | Every well-formed request is kept exactly when they are acyclic together |
| TaskDeps.RequestAt | agent/architect_graft.go:415-419 | What is asked is every listed dependency of every live task, task by task and in the order of its list, nothing else |
| TaskDeps.EveryRequestAnswered | agent/architect_graft.go:415-437 | Kept and refused together number the live tasks' requests |
| TaskDeps.RefusalsAreTrue | agent/architect_graft.go:422-431 | Each refusal states a fact about its request |
| Cycles.BreakCycles | agent/executive.go:2545-2584 | The plan is left acyclic; only out-of-range positions and dependencies on a cycle go; none of those could be put back, for the rest leads back along kept dependencies; a cycle is reported exactly when there was one |
| Names.FixDuplicates | agent/executive.go:1129-1164 | Terminates; a spellable name that an earlier step holds becomes the first numbered form held by nobody, everything else stays |
| Names.TriesBounded | agent/executive.go:1150-1160 | The suffix search ends by pigeonhole on the names held |
| Names.SpellableNamesDistinct | agent/executive.go:1129-1164 | Afterwards no two steps share a spellable name |
| Names.FirstOccurrenceKept | agent/executive.go:1129-1164 | A name is kept exactly when it is a first occurrence or cannot be spelled in a reference |
| Names.ReferencesUnmoved | agent/executive.go:2927-2937 | Every name the plan held still finds the step it found |
| Names.FoundIff | agent/executive.go:2927-2937 | A number finds that position, any other name the first step that has it |
| PlanCleanup.CleanPlan | agent/executive.go:2459-2535 | The clean-up of a decoded plan: refused at the first step without a tool, otherwise linked, its cycles broken, duplicates merged |
| PlanCleanup.LinkStep | agent/executive.go:2475-2521 | A step's dependencies become the valid listed ones in order, then one for each other step a reference names, where first missed |
| PlanCycles.LinkedIff | agent/executive.go:2475-2521 | Linking changes dependencies alone, and leaves a step waiting for exactly the other steps of the plan that it lists or that a reference of its finds |
| PlanCleanup.Deduplicate | agent/executive.go:2595-2712 | The seen-table, the merge into the first holder, the rebuild and the remap come to one function of the plan: a step is dropped exactly when an earlier one has its tool, step and field |
| DedupLaws.DroppedIff | agent/executive.go:2605-2650 | A step is dropped exactly when an earlier one calls the same tool and reads the same path of the same step first of all |
| DedupLaws.MergedIs | agent/executive.go:2634-2645 | While the duplicates go by, the step that stays keeps every parameter but its focus, and to that each different focus is joined with a comma, in order |
| DedupLaws.SurvivorIs | agent/executive.go:2632-2665 | So it ends up with the foci of all its duplicates, its tool, name and dependencies untouched |
| DedupLaws.StepIs | agent/executive.go:2677-2701 | After renumbering, a step reference by position to a step that stays gives that step's new position and the same path; every other reference is as written |
| PlanLaws.StaysAt | agent/executive.go:2632-2665 | A step that stays is at the position counting those that stay before it, so order is kept |
| PlanLaws.DependencyFollows | agent/executive.go:2667-2680 | A dependency of a step that stays survives exactly when the step it names stays, and then names that same step |
| PlanLaws.DedupWellOrdered | agent/executive.go:2652-2680 | Deduplication keeps a plan in range, free of self-dependencies and acyclic |
| PlanLaws.CleanPlanOrdered | agent/executive.go:2472-2535 | The passes compose: the plan that comes out is in range, self-free and acyclic |
| PlanLaws.ReferenceFollowsIff | agent/executive.go:2677-2701 | Once anything is dropped, a reference finds the step it found before exactly when that step stayed |
| PlanFilter.ValidatePlanSteps | agent/executive.go:2336-2385 | Both loops, in place: a conversational answer when no tool is known, a refusal when nothing else is left, otherwise the known steps whose compute or edit_file reads something, in order |
| PlanFilter.StaysIff | agent/executive.go:2343-2381 | A step stays exactly when its tool is known and it is not a compute or edit_file step that lists a dependency and reads nothing, an edit_file with files of its own excepted |
| PlanFilter.PositionFollowsIff | agent/executive.go:2343-2381 | A position still names its step exactly when that step and every earlier one stayed |
| PlanFilter.ReferenceFollowsIff | agent/executive.go:2927-2937 | So does a reference by position; one by name exactly when its step stayed |
| PlanFilter.FilteredOrderedIff | agent/executive.go:2343-2381 | A plan in order stays so exactly when no position falls off the end or onto its own step, and none that now names another step leads back |
| PlanFilter.FollowedOrdered | agent/executive.go:2343-2381 | In particular when no step that stays lists a dropped step or one behind it |
| PlanLaws.InOrderUnchanged | agent/executive.go:2472-2535 | A plan in order whose reads are listed comes through linking and cycle breaking unchanged |
| PlanCycles.StrayReadsIff | agent/executive.go:2336-2810 | For every plan in order, filtered in any way and grafted, so every plan the clean-up leaves, with duplicates merged, steps dropped and steps without a node: the graph is acyclic exactly when it was and no wait that was not a listed dependency leads back |
| PlanCycles.StrayIsRemovedOrMoved | agent/executive.go:2336-2810 | Without duplicates, such a wait is a dependency dropped to break a cycle, or an earlier step than its target was filtered out |
| PlanCycles.BrokenCycleComesBackIff | agent/executive.go:2525-2810 | The case in which nothing was deduplicated or filtered out: those waits are the dropped dependencies that their step still reads, and they all lead back when every step has a node |
| PlanExamples.CycleComesBackExample | agent/executive.go:2525-2810 | Two steps that read each other leave the graph cyclic, whichever dependency was dropped |
| PlanExamples.CycleComesBackHappens | agent/executive.go:2525-2810 | And it happens: what the clean-up leaves of them, grafted onto an empty graph with both steps paid for |
| PlanExamples.StaleReferenceExample | agent/executive.go:2652-2701 | A plan in order before and after the removal of a duplicate, in which a reference to the dropped step comes to name the reader of its own reader |
| PlanExamples.StaleReferenceCycles | agent/executive.go:2652-2810 | Grafted whole, it leaves the graph cyclic |
| PlanExamples.StaleReferenceHappens | agent/executive.go:2472-2810 | And it happens: the clean-up leaves exactly that plan, grafted onto an empty graph with every step paid for |
| PlanExamples.FilteredCycleHappens | agent/executive.go:2336-2810 | A plan in order, without references, that the clean-up leaves as it is; dropping its first step makes a ring of the other three |
| PlanNodes.PlanStepsToNodes | agent/executive.go:2721-2822 | Both passes: a node for every known tool the budget pays for, all of it charged; the steps before the first hole wired; ids, graph and budget are functions of the old graph and plan |
| PlanShape.HasNodeIff | agent/executive.go:2723-2742 | A step has a node exactly when the budget paid for it and its tool is the engine's own, unnamed or registered |
| PlanShape.PaidIsMost | agent/executive.go:2723-2735 | The budget pays for the steps, in order, for which it has room, and for no more |
| PlanShape.NodeDoesStep | agent/executive.go:2744-2766 | Wired or not, the node is pending, of the kind the tool asks for, with the step's tool and name and the tool's own origin, and has produced nothing |
| PlanNodes.FindTarget | agent/executive.go:2839-2852 | The node a step reference stands for: the plan's own step first, an earlier round's only when the plan has none of that name, never the step itself |
| PlanNodes.RewriteWalk | agent/executive.go:2948-3006 | The in-place walk rewrites every reference that has a target, keeps the others, and reports the targets in walking order |
| PlanNodes.ReachesBack | agent/executive.go:2839-2852 | A name no step of the plan has is found among the nodes the run already had, never among the plan's own |
| PlanNodes.IdsDistinct | agent/executive.go:2723-2766 | Different steps have different nodes |
| PlanGraft.MeaningPreserved | agent/executive.go:2948-3006 | For every parameter tree and every later state of the graph, substituting the rewritten parameters equals evaluating the plan's own references directly: the same values, or the same refusal, with the node, path and reason of the first failed lookup |
| PlanShape.GraftPreservesMeaning | agent/executive.go:2773-2810 | The same of what planStepsToNodes leaves in the graph |
| PlanShape.WaitsExactly | agent/executive.go:2777-2808 | A wired step waits for exactly the other steps it names that have a node, and the earlier rounds' steps it reads by name |
| PlanShape.ReadyReadsDone | agent/executive.go:2800-2810 | So once it is ready, every step it refers to by name is terminal |
| PlanRuns.ReadyReadsDoneLater | agent/executive.go:2800-2810 | Over every later run of all the graph operations as well, unless it is a compute node whose dependents were redirected |
| PlanRuns.ReadyReadsDoneUnlessSetBack | agent/executive.go:2800-2810 | And since that happens once it has finished, unless it was redirected and then set back |
| PlanRuns.GraftIsRun | agent/executive.go:2721-2822 | Grafting a plan is itself a run of additions and wirings |
| PlanShape.BehindAHole | agent/executive.go:2774-2776 | A step behind the first hole keeps its node, waits for nothing, and if it refers to a step is refused whenever it fires |
| PlanShape.OldUntouched | agent/executive.go:2721-2822 | The graft touches no node that was there, and adds only the plan's |
| PlanShape.GraftAcyclicIff | agent/executive.go:2773-2810 | Grafting keeps the graph closed, and acyclic exactly when it was and the plan's own relation (listed or read, both steps made) is |
| Templates.Substitute | agent/dispatcher.go:466-660 | The cached walk, keeping the first error it meets, equals one simultaneous map over the original string leaves: an injected value is not substituted again, and a refusal carries the first failed lookup with its reason, a blocked dependency included |
| Templates.Walk | agent/dispatcher.go:740-763 | Every string of the tree is looked at once, as it was before the walk; the failure kept is that of the first reference in walking order that has one |
| Templates.SucceedsIff | agent/dispatcher.go:466-576 | Substitution succeeds exactly when every reference names a node that has the value asked for and no injected value carries a reference; what it yields holds none |
| TemplateLaws.SubstitutionGives | agent/dispatcher.go:466-536 | Every parameter of a successful substitution is, leaf by leaf, what the nodes have for the references in it: stated on their state and outcome alone, without the lookup |
| TemplateLaws.SubstitutionRefuses | agent/dispatcher.go:466-576 | A refusal is for a step reference still there; else for the first reference whose node denies it, with its reason; else for a reference an injected value brought along |
| TemplateLaws.LookedUp | agent/dispatcher.go:620-685 | A node with a result offers the body field at the path; at the empty path its whole body, parsed when that is a string, or else its parsed result; at a path it lacks the raw text, unless that is JSON. It denies the rest: no such node, blocked when it failed or was skipped without a result, empty, absent |
| TemplateLaws.BareIsValue | agent/dispatcher.go:487-511 | A string that is one reference becomes the value itself, widened |
| TemplateLaws.EmbeddedIsText | agent/dispatcher.go:512-530 | In running text a string goes in as it is and anything else rendered, what stood around it untouched |
| TemplateLaws.DeniedIsRefused | agent/dispatcher.go:466-576 | What a node denies, the substitution is refused for |
| TemplateLaws.OfferedOrDenied | agent/dispatcher.go:620-685 | A node offers one thing at a path or denies it for one reason, never both |
| ArchitectGraft.GraftPlan | agent/scheduler.go:2134-2224 | The follow-up of an architect with all its branches: the setup chain up to the first refusal, a coder for every task whatever the budget says, the edges that can be honoured, the dependents moved |
| ArchitectWork.FollowUpMakes | agent/scheduler.go:2134-2224 | Exactly what is grafted, in order: each setup command as a bash node behind the one before, the first behind the architect, up to the first the budget refuses; then a compute node for each task with its tool, parameters, given or numbered name, behind the last setup node or the architect first of all; and what all of it costs |
| ArchitectLaws.FollowUpAcyclic | agent/scheduler.go:2134-2224 | It keeps the graph closed and acyclic with no further condition |
| ArchitectLaws.DependentsMoved | agent/scheduler.go:2216-2223 | Afterwards a pending node that waited for the architect is ready only once everything grafted is terminal |
| ArchitectLaws.CodersWait | agent/scheduler.go:2187-2199 | Every task has its coder, and one waits for another exactly when that was asked for and could be honoured |
| LateGraft.GraftArchitectRunNodes | agent/architect_graft.go:88-157 | The graft with all its branches, budget refusals and duplicate checks comes to one function of the old graph and budget |
| LateGraftWork.DueCallMakes | agent/architect_graft.go:88-157 | Exactly what a due call makes, in order, and what it costs: for each coder its command, unless its service runs the same, and then its service, each when there is room; the architect's services under names no coder's service took, up to the first refused; the checks as commands that sleep first, up to the first refused |
| LateGraftWork.WithRoomAllMade | agent/architect_graft.go:88-157 | With room for all of them, every one is made and nothing else |
| LateGraftWork.DueCallWaits | agent/architect_graft.go:133-141 | What runs waits for nothing, each check for all of that and nothing else |
| LateGraftWork.CodersAre | agent/architect_graft.go:63-78 | The coders are the architect's compute children that it spawned |
| LateGraft.GraftTopServices | agent/architect_graft.go:254-300 | The architect's own services: no command or a name already grafted for a coder is passed over, the first refusal stops |
| LateGraft.GraftValidation | agent/architect_graft.go:308-350 | The checks: each waits for every run node, the first refusal stops |
| LateGraftLaws.OnlyWhenResolved | agent/architect_graft.go:88-157 | Run nodes are created only when the flag is down and every coder has resolved; any other call adds no node, rewires none and charges nothing |
| LateGraftLaws.FlagRaised | agent/architect_graft.go:106-106 | A call that was due leaves the flag up |
| LateGraftLaws.FlagRaisedIff | agent/architect_graft.go:88-131 | A call raises the flag exactly when the architect has coders and all of them have finished, well or badly |
| LateGraftLaws.FlagStops | agent/architect_graft.go:88-91 | A step towards RunNodesOnce: with it up, the call returns at once |
| LateGraftLaws.ChecksLast | agent/architect_graft.go:137-141 | Every grafted node is a run node or waits for every run node |
| LateGraftLaws.WaitersHeld | agent/architect_graft.go:146-154 | Whoever waited for a coder waits for every new node as well; nobody loses a dependency or changes state; the new nodes are fresh pending tool nodes |
| LateGraftLaws.GraftRunAcyclic | agent/architect_graft.go:88-157 | The late graft keeps the graph closed and acyclic with no further condition: the new nodes lean only on each other |
| GraphRuns.RunNodesOnce | agent/architect_graft.go:88-106 | Over every run of all the operations, retries included, an architect's run and check nodes are created at most once |
| GraphRuns.NewNodesMeanResolved | agent/architect_graft.go:98-131 | And only at a moment when every one of its coders has resolved |
| GraphRuns.HeldUntilDone | agent/architect_graft.go:146-154 | From then on no pending node that was waiting for a coder becomes ready before every run and check node is terminal, whatever happens in between |
| GraphRuns.LatecomerIsReady | agent/dag.go:1347-1388 | The limit of that promise, one step: a node added later behind a resolved coder is ready at once |
| GraphRuns.RunStaysSound | agent/dag.go:782-2022 | Every run whose additions, wirings, gates and redirections respect the graph they meet stays closed and acyclic, and is never stuck; pruning, skipping, state changes and the late graft need no condition |
| Salvage.SalvageTruncatedPlan | agent/executive.go:1558-1598 | The scanner's loop computes Salvaged |
| Salvage.SalvageExact | agent/executive.go:1558-1598 | Over a header from which the scan comes ready to the array, for any plan of JSON objects, strings with escaped quotes and braces included, cut at any point inside its array: the same plan with exactly the steps that had closed, nothing when none had |
| Salvage.ExactIff | agent/executive.go:1558-1598 | Salvage is exact for every plan and cut over a header exactly when the header is such a one |
| Salvage.HeadOkReady | agent/executive.go:1558-1570 | Headers in which the lookup finds the array itself are |
| Salvage.SomeCount | agent/executive.go:1558-1598 | Every cut inside the array falls under one such case |
| Salvage.NothingToSalvage | agent/executive.go:1580-1592 | An array that had closed yields nothing, whatever follows |
| Salvage.SalvageOnce | agent/executive.go:1558-1598 | Salvaging its own output yields nothing |
| Salvage.CutInHeader | agent/executive.go:1558-1570 | A cut in such a header, before the array, yields nothing |
| Salvage.PlainHeadOk | agent/executive.go:1558-1570 | Plans written in the usual way have one in which the lookup finds the array |
| Salvage.ClosedHeaderLosesAll | agent/executive.go:1580-1592 | Once the scan has met the end of an array in the header, nothing is salvaged whatever follows |
| Salvage.EarlierNameHidesSteps | agent/executive.go:1558-1570 | After an earlier `"steps"` and any JSON array, every step of the plan is lost |
| Truncate.TruncateToolResult | agent/dispatcher_validation.go:466-509 | The whole function, its loop followed for any number of turns: the text as it is, its head and tail, or the text of an object within the cap that so many turns led to; never longer than the cap and one marker |
| Truncate.Shrink | agent/dispatcher_validation.go:474-509 | The loop: it stops with an object within the cap, or gives up for one of the two stated reasons, or is still over the cap |
| Truncate.CutText | agent/textutil.go:149-158 | The exact text of a field after a turn: the whole characters of head and tail, a replacement for every byte of those cut in two, the marker between |
| Truncate.TurnIs | agent/dispatcher_validation.go:481-506 | One turn gives up on a field under 256 bytes or whose cut would not pay for the marker; otherwise exactly that field changes, to its first half, the marker and its last quarter |
| Truncate.RunKeeps | agent/dispatcher_validation.go:474-509 | At every turn: the same keys, every field that is not a string as it was, strings well formed |
| Truncate.CutLength | agent/textutil.go:149-158 | Its exact length: two bytes more for every byte of a character cut in two |
| Truncate.ShrinksIff | agent/dispatcher_validation.go:497-505 | The loop's own test compares before the rewriting; the field really is shorter exactly when the cut also pays for the replacements |
| Truncate.LongFieldsShrink | agent/dispatcher_validation.go:497-505 | A field long enough to outweigh twelve bytes always shrinks, wherever the cuts fall |
| TruncateEnds.TurnLowersIff | agent/dispatcher_validation.go:474-506 | The sum of string lengths falls in a turn exactly when the field that was cut gets shorter |
| TruncateEnds.EndlessIff | agent/dispatcher_validation.go:474-506 | Runs from an object can be as long as you like exactly when one of them comes back to an object it has been at; otherwise no run has more turns than a number fixed by object and marker |
| TruncateEnds.RoomEnds | agent/dispatcher_validation.go:474-506 | Whatever the characters, every run ends within as many turns as there are string bytes when every object of that shape whose strings are near the marker's length fits the cap |
| TruncateEnds.StallSettlesIff | agent/dispatcher_validation.go:496-506 | A field whose cut takes out exactly what marker and replacements put in keeps its length, and is a fixed point from the next turn on exactly when neither cut orphans three bytes |
| TruncateEnds.StuckIff | agent/dispatcher_validation.go:474-506 | Over the cap an object is its own only successor exactly when every largest field is rewritten as it is |
| TruncateEnds.NeverEnds | agent/dispatcher_validation.go:474-506 | Over such an object every run stays where it is, and there are runs of every length |
| TruncateEnds.StallNeverEnds | agent/dispatcher_validation.go:474-506 | Over a stalled field that is the longest by itself the loop has no choice and no end: from the second turn on nothing changes |
| TruncateEnds.StalledExample | agent/dispatcher_validation.go:474-506 | For every marker of 60 bytes or more there are results on which that happens |
| Shell.QuotingRoundTrip | agent/compute.go:1184-1186 | Any list of strings, each quoted, reads back as exactly those words (POSIX.1-2017 XCU sections 2.2.1 and 2.2.2) |
| Shell.QuotedIsOneWord | agent/compute.go:1184-1186 | Any string comes back as one word |

## Left out

- agent/handles.go (schema walks that list handles) and `commonDir` in agent/compute.go: they would add only easy members.
- Model calls, prompts, the scheduler's event loop, lanes, throttling and clocks, events, logs and debug records.
- Node targets, timings, retry marks and the other display or transport fields of a node; the graph's list of validators
  kept for a replay.
- Pointer sharing: a node is reachable only through its graph, a node's parameter tree is a value and not a map shared with
  the plan step it came from, and slices that share a backing array are separate sequences.
- Locks: each graph operation is one step. Only the budget is interleaved at the level of its atomic accesses.
- Integer width in the allocator's product `remaining * weight` and in node counters: unbounded here. Numerals in
  references are read as 64-bit, as `strconv.Atoi` does.
- The order in which Go walks a map: proofs hold for every order where the code ranges over the graph; a parameter object
  lists its fields in the order one walk visits them, so which reference counts as "first" is that order's.
- Graphs.Graph.AlsoWaitFor: returns the ids of the changed nodes as a set, where the code sorts them into a list.
- Graphs.Graph.WaitAlsoOn: the same.
- LateGraft.GraftValidation: the list of validators that the code also keeps on the graph, for a replay, is not modelled.
- Regular expressions and JSON text in parameters: a string is a sequence of literal text and references, so a reference
  that only comes to exist across the border of two pieces is not seen. Which characters beyond ASCII count as letters or
  numbers in a step name is a parameter, and so are how a result parses, renders and is widened, the tool registry, the
  schema warnings that only log, and how a check's name is made a tag.
- PlanNodes.PlanStepsToNodes: dependency positions are required to be nonnegative, because the code indexes with them unchecked
  after testing only the upper bound.
- Salvage.SalvageExact: the steps are JSON objects. What stands before the array is any text (ExactIff says for which of
  them it holds).
- Truncate.Shrink and TruncateToolResult: the loop is followed for a given number of turns, because it need not end; the
  marker is any nonempty ASCII text (the program's is 105 bytes), and reading an object, the length of a string's JSON text
  and the text of an object are parameters.
- TruncateEnds.AsciiEnds: with ASCII strings the loop ends whatever the cap; a case of LoweringRunEnds, as RoomEnds is.
- PlanCycles.BrokenCycleComesBackIff: the case of a plan that is neither deduplicated nor filtered; StrayReadsIff covers
  the others without naming where a stray wait comes from.
- The planner's correction loop before a plan that came as a tool call is accepted (the checks of its names, references,
  parameters and dependencies), and the target and intent that `validatePlanSteps` also infers.
- ArchitectGraft.GraftPlan: begins with the architect's reply already read; the project root it stores is not modelled.
- Shell.QuotingRoundTrip: reads quoting only. Expansions are not modelled; none starts inside single quotes.
