# LiveData / EventBus usage navigator: a Dafny model

This project models the core logic of an IntelliJ plugin that finds event-bus senders and receivers and shows their usages in a popup. It covers four pieces:

- **The bounded usage collector** (`Collector`). It takes the usages the host search finds into a list of usages and an insertion-ordered set of visible nodes. It stops at `maxUsages` and then appends a "more usages" separator.
- **The completion handler** (`Collector`). It picks one of five outcomes from the final counts.
- **The result list** (`UsageList`, `UsageNodes`):
  - flattening the usage view's group tree;
  - counting filtered usages;
  - assembling and sorting the rows with the node comparator;
  - the column count and the HTML caption;
  - the table model's row insertion and removal.
- **The refresh scheduler `PingEDT`** (`Scheduler`). It coalesces pings into at most one pending UI update and runs the ping action in a loop bounded by a time budget.

It also covers the stateless classifiers and usage filters (`PsiUtils`, `SenderFilter`, `ReceiverFilter`). These decide what counts as an event-bus receiver, an event-bus post or a LiveData post, and which usages a popup keeps.

## How the host is modelled

- **The program-structure tree** is a datatype, `Psi.Node`:
  - A node's interface types are a *set* of tags, so a Kotlin `is` test is a membership test. One node may pass two tests, as the double test `is PsiJavaCodeReferenceElement` / `is PsiTypeElement` needs.
  - Name getters give a string, null, or an exception (`Psi.Name`).
- **Exceptions** are values: `Outcomes.Outcome` is a result or `Raised(NullPointer | ClassCast | HostFailure)`.
  - `HostFailure` stands for any exception a host getter may throw other than a `NullPointerException`.
  - A Kotlin `for` loop that returns early is `Outcomes.Search`.
- **Host services are inputs.** These are the filter's verdict, `isSelfUsage`, `doAppendUsage`, `isVisible`, editor and line lookup, the localised message texts, the tab title and the progress title.
  - For one delivered usage, `Collector.Delivery` holds the filter's verdict, `isSelfUsage` and whether the view appended the usage's node.
  - The others are function parameters.
- **`PingEDT`** is a class over its three flags:
  - The UI event queue is the counter `queued` of update runnables handed to `invokeLater` and not yet started.
  - What the ping action and the clock do during one update is a sequence of `Scheduler.Step(repings, elapsedMs)` values.
  - `RunUpdate` requires that some step ends the loop. That is the fuel bound on the time budget.
- **The comparator** orders two real usages in one file by an integer `offset`. That integer stands for the host's own `compareTo` or location order.
- **The usage view's group tree** is `UsageList.GroupNode`, and the visible-node set is a sequence without duplicates.

## Model

| member | source | states |
|---|---|---|
| Outcomes.Search | src/com/chomper/livedata/PsiUtils.kt:20-26 | the early-return `for` loop: `return true` at the first element that answers true, an exception escapes from the first element that throws, and `return false` after the loop; its behaviour is stated by `SearchFalse`, `SearchTrue`, `SearchRaised` and `SearchTotal` |
| Outcomes.SearchFalse | src/com/chomper/livedata/PsiUtils.kt:20-24 | an early-return loop answers false iff every element answers false |
| Outcomes.SearchTrue | src/com/chomper/livedata/SenderFilter.kt:25-30 | an early-return loop answers true iff some element answers true and every element before it answers false |
| Outcomes.SearchTotal | src/com/chomper/livedata/PsiUtils.kt:67-79 | when no step throws, the loop never throws and answers true iff some element answers true |
| Outcomes.FirstTrue | src/com/chomper/livedata/PsiUtils.kt:20-24 | the loop stops at the first element that answers true: every earlier element answered false, and the search answers true |
| Outcomes.SearchRaised | src/com/chomper/livedata/SenderFilter.kt:25-30 | an element that throws, reached before any true answer, makes the whole loop throw that exception |
| Psi.NameEquals | src/com/chomper/livedata/SenderFilter.kt:26 | Kotlin `==` on two name getters: throws iff a getter throws, and is true iff both give the same string or both give null |
| Psi.NameIs | src/com/chomper/livedata/PsiUtils.kt:54 | `name == "literal"` throws iff the getter throws, and is true iff the name is that literal |
| PsiUtils.GetClass | src/com/chomper/livedata/PsiUtils.kt:11-15 | a class type gives its resolved class (possibly null); any other type gives null |
| PsiUtils.IsEventBusReceiver | src/com/chomper/livedata/PsiUtils.kt:17-27 | `isEventBusReceiver`: a method test, then the annotation loop; stated by `IsEventBusReceiverIff` |
| PsiUtils.IsEventBusReceiverIff | src/com/chomper/livedata/PsiUtils.kt:17-27 | true iff the element is a method and one of its annotations has exactly the qualified name `org.greenrobot.eventbus.Subscribe` |
| PsiUtils.IsEventBusClass | src/com/chomper/livedata/PsiUtils.kt:52-60 | `isEventBusClass`: the class is named `LiveBusProvider`; a throwing name getter is caught and answers false; its use is stated by `IsEventBusPostIff` |
| PsiUtils.IsSuperClassEventBus | src/com/chomper/livedata/PsiUtils.kt:62-81 | `isSuperClassEventBus`: the loop over the direct supers, each name read inside a catch; stated by `IsSuperClassEventBusIff` and `SuperOfSuperIgnored` |
| PsiUtils.IsSuperClassEventBusIff | src/com/chomper/livedata/PsiUtils.kt:62-81 | true iff some direct super is named `EventBus`; false with no supers; a super whose name getter throws is skipped |
| PsiUtils.SuperOfSuperIgnored | src/com/chomper/livedata/PsiUtils.kt:67-79 | an `EventBus` two levels up is not found: only direct supers are looked at |
| PsiUtils.IsEventBusPost | src/com/chomper/livedata/PsiUtils.kt:29-43 | `isEventBusPost`: a call expression whose resolved method is `postEvent` in an event-bus class; stated by `IsEventBusPostIff` and `IsEventBusPostRaisesIff` |
| PsiUtils.IsEventBusPostIff | src/com/chomper/livedata/PsiUtils.kt:29-43 | true iff the call resolves to a method named `postEvent` whose parent is a class that is named `LiveBusProvider` or has a direct super named `EventBus` |
| PsiUtils.IsEventBusPostRaisesIff | src/com/chomper/livedata/PsiUtils.kt:33 | an exception leaves `isEventBusPost` iff the resolved method's name getter throws; exceptions from the class names are swallowed (lines 52-58, 68-74) |
| PsiUtils.IsLiveDataPost | src/com/chomper/livedata/PsiUtils.kt:45-50 | true for every Kotlin class node, whatever its name, and false for every other node |
| SenderFilter.ShouldShow | src/com/chomper/livedata/SenderFilter.kt:19-61 | the sender filter: the cast, the call-reference test, the direct-argument loop and the block pattern; stated by `ShouldShowOnlyCallReferences`, `ShouldShowDirectArgumentOnly`, `ShouldShowAcceptsEventArgument`, `UnresolvedArgumentThrows` and `ShouldShowComparesNames` |
| SenderFilter.AdapterElement | src/com/chomper/livedata/SenderFilter.kt:20 | the cast to `UsageInfo2UsageAdapter` throws iff the usage is not an adapter |
| SenderFilter.ShouldShowOnlyCallReferences | src/com/chomper/livedata/SenderFilter.kt:19-22 | a non-adapter usage throws `ClassCastException`; anything but a reference expression whose parent is a method call is rejected |
| SenderFilter.ShouldShowComparesNames | src/com/chomper/livedata/SenderFilter.kt:26 | two event classes with equal names give the same answer: classes are compared by name, not identity |
| SenderFilter.UnresolvedArgumentThrows | src/com/chomper/livedata/SenderFilter.kt:25-26 | an argument whose type is not a resolvable class, met before any match, makes `!!` throw out of the filter |
| SenderFilter.ShouldShowAcceptsEventArgument | src/com/chomper/livedata/SenderFilter.kt:24-29 | an argument whose class has the event class's name, after only non-matching arguments, is accepted |
| SenderFilter.ShouldShowDirectArgumentOnly | src/com/chomper/livedata/SenderFilter.kt:22-31 | when a method call is never an expression statement, the filter accepts iff some argument's class matches by name and every argument before it resolves to a differently named class |
| SenderFilter.BlockPatternIgnoresCallArguments | src/com/chomper/livedata/SenderFilter.kt:31-55 | were the block pattern reached, any matching local variable declared in the block is accepted, whether or not the call passes it |
| ReceiverFilter.ShouldShow | src/com/chomper/livedata/ReceiverFilter.kt:11-28 | the receiver filter: the cast, the two kind tests, the three parent tests and the receiver test; stated by `ShouldShowIff`, `ShouldShowNeedsBothKinds` and `ShouldShowDependsOnlyOnAncestry` |
| ReceiverFilter.ParameterMethod | src/com/chomper/livedata/ReceiverFilter.kt:13-18 | the method found above a parameter's type element is a method |
| ReceiverFilter.ShouldShowIff | src/com/chomper/livedata/ReceiverFilter.kt:11-28 | a non-adapter throws `ClassCastException`; true iff the element is both a code reference and a type element, under a parameter, under a parameter list, under a method annotated `@Subscribe` |
| ReceiverFilter.ShouldShowDependsOnlyOnAncestry | src/com/chomper/livedata/ReceiverFilter.kt:10-20 | two adapters whose elements have the same kinds and parent chain get the same answer |
| ReceiverFilter.ShouldShowNeedsBothKinds | src/com/chomper/livedata/ReceiverFilter.kt:13-14 | an element lacking either interface is rejected |
| Scheduler.Runs | src/com/chomper/livedata/PingEDT.kt:47-55 | when some step ends the loop, the work loop runs the action between 1 and the number of supplied steps times |
| Scheduler.RunsStopsAtFirstEnd | src/com/chomper/livedata/PingEDT.kt:47-55 | the loop runs at least once, stops at the first step that ends it (no re-ping, or the budget exceeded), and not before |
| Scheduler.UnboundedLoopUntilQuiet | src/com/chomper/livedata/PingEDT.kt:29 | with threshold -1 the loop ends exactly when the action stops re-pinging |
| Scheduler.CutByBudget | src/com/chomper/livedata/PingEDT.kt:54 | an update whose last run re-pinged was cut by the time budget, and a follow-up update is pending |
| Scheduler.RepingExtendsAndSchedules | src/com/chomper/livedata/PingEDT.kt:39-68 | a ping made during the action within the budget both runs the action again and leaves a follow-up update pending |
| Scheduler.FollowUpWithoutFinalPing | src/com/chomper/livedata/PingEDT.kt:56-62 | a follow-up can be pending although the action did not re-ping at its last run |
| Scheduler.PingEDT.constructor | src/com/chomper/livedata/PingEDT.kt:27-37 | starts with no flag set and nothing queued |
| Scheduler.PingEDT.ScheduleUpdate | src/com/chomper/livedata/PingEDT.kt:77-83 | queues an update iff not stopped and none is pending; the flag and the queue change together, so at most one update is pending |
| Scheduler.PingEDT.Ping | src/com/chomper/livedata/PingEDT.kt:71-74 | always sets `pinged`; returns true exactly when it newly queued an update |
| Scheduler.PingEDT.Stop | src/com/chomper/livedata/PingEDT.kt:85-87 | sets `stopped` and changes nothing else |
| Scheduler.PingEDT.ProcessNext | src/com/chomper/livedata/PingEDT.kt:64-68 | clears `pinged` before the action and returns whether the action pinged again |
| Scheduler.PingEDT.RunUpdate | src/com/chomper/livedata/PingEDT.kt:38-59 | the update consumes its queue entry and clears the flag. When stopped or shut up, it stops and runs nothing. Otherwise it runs the action `Runs` times, leaves `pinged` as the last run left it, counts the re-pinging runs, and leaves a follow-up pending iff some run re-pinged |
| UsageNodes.Compare | src/com/chomper/livedata/ShowUsagesAction.kt:827-849 | USAGE_NODE_COMPARATOR as a sign: string nodes last, then the separator, then real usages by file name (null first) and position; stated by `CompareAntisymmetric`, `CompareTransitive` and `CompareRespectsBand` |
| UsageNodes.CompareStrings | src/com/chomper/livedata/ShowUsagesAction.kt:838 | the string comparison is zero iff the strings are equal |
| UsageNodes.CompareStringsAntisymmetric | src/com/chomper/livedata/ShowUsagesAction.kt:838 | swapping the strings negates the comparison |
| UsageNodes.CompareStringsTransitive | src/com/chomper/livedata/ShowUsagesAction.kt:838 | "not after" on strings is transitive |
| UsageNodes.CompareAntisymmetric | src/com/chomper/livedata/ShowUsagesAction.kt:827-849 | the comparator answers "after" both ways for two string nodes and for two separators, and is antisymmetric on every other pair |
| UsageNodes.CompareTransitive | src/com/chomper/livedata/ShowUsagesAction.kt:827-849 | "not after" is transitive on any three nodes, so with antisymmetry the comparator is a total preorder on a list with no clashing pair |
| UsageNodes.Band | src/com/chomper/livedata/ShowUsagesAction.kt:828-833 | a node's place in the sort: real usages, then the separator, then string nodes |
| UsageNodes.CompareRespectsBand | src/com/chomper/livedata/ShowUsagesAction.kt:828-833 | a node never sorts before one of a lower band |
| UsageNodes.Insert | src/com/chomper/livedata/ShowUsagesAction.kt:1027 | insertion adds exactly the one node |
| UsageNodes.SortNodes | src/com/chomper/livedata/ShowUsagesAction.kt:1027 | the sort gives a permutation of its input |
| UsageNodes.InsertSorted | src/com/chomper/livedata/ShowUsagesAction.kt:1027 | inserting a node that clashes with none keeps the list sorted |
| UsageNodes.SortNodesSorted | src/com/chomper/livedata/ShowUsagesAction.kt:1027 | on a list with no clashing pair the sort's result is ordered by the comparator |
| UsageNodes.SortedPairs | src/com/chomper/livedata/ShowUsagesAction.kt:1027 | in a sorted list every element is not after every later element |
| UsageNodes.SortedBands | src/com/chomper/livedata/ShowUsagesAction.kt:827-849 | in a sorted list the bands never go down |
| UsageList.VisibleOwn | src/com/chomper/livedata/ShowUsagesAction.kt:704-710 | the first loop of `addUsageNodes`: a group's own nodes whose usage is visible, in order; stated by `VisibleOwnMembers` |
| UsageList.Flatten | src/com/chomper/livedata/ShowUsagesAction.kt:703-715 | the whole output of `addUsageNodes` for one group: own visible nodes, then each subgroup's; stated by `FlattenMembers` and `OwnNodesFirst`, and `AddUsageNodes` is proved against it |
| UsageList.FlattenFrom | src/com/chomper/livedata/ShowUsagesAction.kt:711-714 | the second loop of `addUsageNodes`, from subgroup `i` on; stated by `FlattenFromMembers` |
| UsageList.VisibleOwnMembers | src/com/chomper/livedata/ShowUsagesAction.kt:704-710 | a group's own output holds exactly its visible nodes |
| UsageList.FlattenMembers | src/com/chomper/livedata/ShowUsagesAction.kt:703-715 | the flattened tree holds exactly the visible nodes that are somewhere in the tree |
| UsageList.FlattenFromMembers | src/com/chomper/livedata/ShowUsagesAction.kt:711-714 | the subgroups' output holds exactly the visible nodes of those subgroups |
| UsageList.OwnNodesFirst | src/com/chomper/livedata/ShowUsagesAction.kt:703-715 | a group's own visible nodes come before any subgroup's |
| UsageList.NodeList.Add | src/com/chomper/livedata/ShowUsagesAction.kt:708 | appends one node |
| UsageList.AddUsageNodes | src/com/chomper/livedata/ShowUsagesAction.kt:703-715 | appends to the output list exactly the tree's visible nodes in pre-order, and leaves what was there before |
| UsageList.HiddenCount | src/com/chomper/livedata/ShowUsagesAction.kt:956-962 | the number of hidden usages is at most the number of usages |
| UsageList.HiddenCountZero | src/com/chomper/livedata/ShowUsagesAction.kt:956-962 | no usage is hidden iff every usage is visible |
| UsageList.Filtered | src/com/chomper/livedata/ShowUsagesAction.kt:956-962 | the counting loop returns the number of usages the view does not show |
| UsageList.UnsortedData | src/com/chomper/livedata/ShowUsagesAction.kt:1011-1026 | the rows before sorting: the "filtered out" message when some usage is hidden, the nodes, or the progress text when both are absent; stated by `UnsortedDataCoherent` and the contract of `CollectData` |
| UsageList.UnsortedDataCoherent | src/com/chomper/livedata/ShowUsagesAction.kt:1017-1026 | the rows before sorting hold no clashing pair |
| UsageList.CollectData | src/com/chomper/livedata/ShowUsagesAction.kt:1011-1029 | never empty; holds the visible nodes, one "filtered out" row iff some usage is hidden, and the progress row iff there is nothing else; ordered by the comparator, with real usages before the separator and the separator before message rows |
| UsageList.FirstRowIsMessage | src/com/chomper/livedata/ShowUsagesAction.kt:1007-1009 | in rows sorted by band, the first row is a message iff no usage node is among them |
| UsageList.CalcColumnCount | src/com/chomper/livedata/ShowUsagesAction.kt:1007-1009 | the column count is 1 or 3 |
| UsageList.CollectedColumns | src/com/chomper/livedata/ShowUsagesAction.kt:1007-1029 | the collected rows get three columns iff some usage node is visible |
| UsageList.Digits | src/com/chomper/livedata/ShowUsagesAction.kt:920 | a number prints as at least one digit |
| UsageList.DigitsRoundTrip | src/com/chomper/livedata/ShowUsagesAction.kt:920 | parsing a number's printed digits gives the number back |
| UsageList.GetFullTitle | src/com/chomper/livedata/ShowUsagesAction.kt:911-927 | the HTML caption; stated by `FullTitleWrapped`, `FullTitleSome`, `FullTitleSoFar` and `FullTitleReports` |
| UsageList.FullTitleWrapped | src/com/chomper/livedata/ShowUsagesAction.kt:911-927 | the caption starts with `<html><nobr>` and ends with `</nobr></html>` |
| UsageList.FullTitleSome | src/com/chomper/livedata/ShowUsagesAction.kt:919-921 | a truncated list's caption opens with `<html><nobr><b>Some</b> ` |
| UsageList.FullTitleSoFar | src/com/chomper/livedata/ShowUsagesAction.kt:919-926 | a caption given while the search runs ends with ` so far)</b></nobr></html>` when truncated and ` so far)</nobr></html>` otherwise |
| UsageList.FullTitleReports | src/com/chomper/livedata/ShowUsagesAction.kt:911-927 | with the separator the caption depends on the given count and not on the usages; without it, on the number of usages and not on the count |
| UsageList.AppendMoreUsages | src/com/chomper/livedata/ShowUsagesAction.kt:694-701 | the search is run again with a larger cap that keeps the page residue; the exact one-page step is stated by `AppendMoreUsagesPages` |
| UsageList.MaxUsagesAfter | src/com/chomper/livedata/ShowUsagesAction.kt:123-129 | the limit after a number of "more usages" clicks, starting from one page; stated by `AppendMoreUsagesPages` |
| UsageList.AppendMoreUsagesPages | src/com/chomper/livedata/ShowUsagesAction.kt:694-701 | a click turns `k` whole pages into `k + 1`, so after `n` clicks the limit is `(n + 1) * 100` |
| UsageList.InsertedAt | src/com/chomper/livedata/ShowUsagesAction.kt:344-352 | the rows after `insertRow(idx)` or, past the end, `addRow`; stated by `InsertThenRemove` and the contract of `MyModel.AddToModel` |
| UsageList.RemovedRange | src/com/chomper/livedata/ShowUsagesAction.kt:354-358 | the rows without `start..end`; stated by `RemovedRangeKeeps` and the contract of `MyModel.RemoveRangeFromModel` |
| UsageList.InsertThenRemove | src/com/chomper/livedata/ShowUsagesAction.kt:344-358 | the new row is at `idx`, or last when `idx` is past the end; removing that one row restores the rows |
| UsageList.RemovedRangeKeeps | src/com/chomper/livedata/ShowUsagesAction.kt:354-358 | removing `start..end` drops exactly those rows and keeps the others in order |
| UsageList.MyModel.constructor | src/com/chomper/livedata/ShowUsagesAction.kt:323-332 | the model holds the given rows and column count |
| UsageList.MyModel.AddToModel | src/com/chomper/livedata/ShowUsagesAction.kt:344-352 | inserts the node, or a string node for any other element, at `idx` when it is a row, else appends it |
| UsageList.MyModel.RemoveRangeFromModel | src/com/chomper/livedata/ShowUsagesAction.kt:354-358 | removing rows from `end` down to `start` leaves the rows without `start..end`; nothing when `start > end` |
| Collector.SetAdd | src/com/chomper/livedata/ShowUsagesAction.kt:238 | the insertion-ordered set gains the element, and grows only when it was absent |
| Collector.EmptySessionInv | src/com/chomper/livedata/ShowUsagesAction.kt:168-169 | the empty lists satisfy the collector's invariant |
| Collector.AddUsageKeepsInv | src/com/chomper/livedata/ShowUsagesAction.kt:236 | appending an accepted usage before the list is cut keeps the invariant |
| Collector.AddNodeKeepsInv | src/com/chomper/livedata/ShowUsagesAction.kt:238-244 | adding a collected usage's node keeps the invariant, and so does appending the separator to both lists when that fills the list |
| Collector.Process | src/com/chomper/livedata/ShowUsagesAction.kt:223-252 | one `process` call on the two lists: the filter's exception, the three ignoring returns, the append, the node, the cut with the separator, and the ping; stated by `ProcessKeepsInv`, `ProcessIgnores` and `ProcessAccepts` |
| Collector.ProcessKeepsInv | src/com/chomper/livedata/ShowUsagesAction.kt:225-251 | `process` keeps the invariant: no duplicate nodes; every node shows a collected usage; the separator is in one list iff in the other, and then last in both with `maxUsages + 1` nodes; otherwise fewer than `maxUsages` nodes. So the nodes never exceed `maxUsages + 1` |
| Collector.ProcessIgnores | src/com/chomper/livedata/ShowUsagesAction.kt:227-231 | a rejected usage, a self-usage and any usage once the list is full leave both lists unchanged and ping nothing; the search goes on except when the list is full |
| Collector.ProcessAccepts | src/com/chomper/livedata/ShowUsagesAction.kt:233-249 | an accepted usage is appended. Its node joins the set and pings exactly once when the view made one. The search stops iff that brings the count to `maxUsages`, and then the separator is appended last to both lists |
| Collector.Collect | src/com/chomper/livedata/ShowUsagesAction.kt:223-252 | the host search calling `process` on each found usage until it returns false or throws; stated by `CollectKeepsInv` |
| Collector.CollectKeepsInv | src/com/chomper/livedata/ShowUsagesAction.kt:223-252 | after any run of `process`, the invariant holds, at most `maxUsages + 1` nodes are visible, and every collected usage is the separator or was delivered, shown by the filter and not a self-usage |
| Collector.NodesWithSeparator | src/com/chomper/livedata/ShowUsagesAction.kt:606-609 | the separator node is appended after the tree's nodes iff the usages hold the separator |
| Collector.AreAllUsagesInOneLine | src/com/chomper/livedata/ShowUsagesAction.kt:964-984 | true iff the visible usage has an editor and an offset, and every usage is in that same editor at a known offset on the same line |
| Collector.Completion | src/com/chomper/livedata/ShowUsagesAction.kt:260-312 | the completion handler's choice among five outcomes; stated by `CompletionByCounts`, `OneVisibleNode` and `TruncatedCaption` |
| Collector.CompletionByCounts | src/com/chomper/livedata/ShowUsagesAction.kt:267-312 | the outcome depends on the counts: none/none gives a hint, none/some gives nothing, 1/1 navigates, 1/more hints iff all usages are on one line, and 2 or more visible nodes set the caption |
| Collector.OneVisibleNode | src/com/chomper/livedata/ShowUsagesAction.kt:279-290 | with one visible node, that node is a real usage and the usages are not empty, so the assertion at line 288 holds |
| Collector.TruncatedCaption | src/com/chomper/livedata/ShowUsagesAction.kt:301-311 | a truncated list gets the caption "Only maxUsages usages shown" |
| Collector.RebuildPopup | src/com/chomper/livedata/ShowUsagesAction.kt:594-623 | the refresh: the tree's nodes plus the separator when cut, collected and sorted, with caption and column count; stated by `RebuildPopupCounts` |
| Collector.RebuildPopupCounts | src/com/chomper/livedata/ShowUsagesAction.kt:594-623 | the refreshed caption counts the tree's visible nodes; the rows hold them, and the separator iff the list was cut; three columns iff there is a node |
| Collector.UsageCollector.constructor | src/com/chomper/livedata/ShowUsagesAction.kt:168-179 | `hadMoreSeparator` is always false, since the separator is removed from a set that was just created |
| Collector.UsageCollector.ProcessUsage | src/com/chomper/livedata/ShowUsagesAction.kt:225-251 | updates the two lists as `Process` does and keeps the invariant; pings the scheduler iff the view appended a node, and that ping queues an update iff none is pending and the scheduler is not stopped; without a ping the scheduler is untouched; returns whether the search goes on, or the filter's exception |
| Collector.UsageCollector.OnSearchFinished | src/com/chomper/livedata/ShowUsagesAction.kt:260-312 | pings to repaint the title, which queues an update iff none is pending and the scheduler is not stopped, then returns the outcome `Completion` chooses |

## Left out

- Popup, hint, toolbar, shortcut and dialog construction; navigation; the usage-view settings save and restore; the table's speed search; and the cell renderer (`ShowUsagesTableCellRenderer.kt`). These are Swing UI.
- `LineMarkerKt.kt` is not part of this model. It registers gutter icons and calls the classifiers.
- Window sizing (`setSizeAndDimensions`, `calcMaxWidth`, screen fitting). This is floating-point Swing layout.
- `updateModel` and the host's `ModelDiff` (lines 1064-1080). They compute the diff commands, apply them through `MyModel.addToModel` and `removeRangeFromModel`, which are modelled, and translate the selected row through each command (`cmd.translateSelection`); the diff and the selection translation are host code and are not modelled. `setTableModel` swaps the table's model and renderer and is not modelled either.
- `synchronized`, `invokeLater`, the 300 ms `Alarm`, `@Volatile` and `AtomicBoolean`. The model is one sequential interleaving. The clock is the `elapsedMs` field of each `Scheduler.Step`.
- The refresh runnable's early return on a hidden popup (lines 203-211) and the popup-showing side of `showPopupIfNeedTo`. These are UI state.
- `Collector.UsageCollector.ProcessUsage`:
  - Requires `Deliverable`, because the host search never delivers the separator sentinel `NullUsage.INSTANCE` as a found usage.
  - Does not model `transform`, which returns its argument, so its null branch is dead.
  - Treats the node `doAppendUsage` returns as the usage's own node.
- `UsageList.MyModel.AddToModel`: `idx` is a `nat`. A negative index from the host, which would make `insertRow` throw, is not modelled.
- `UsageList.MyModel.RemoveRangeFromModel` requires `start..end` to lie within the rows when it is not empty. An out-of-range index, for which `removeRow` throws `IndexOutOfBoundsException` (line 356), is not modelled.
- `UsageList.AddUsageNodes` does not model `node.setParent(root)` and `groupNode.setParent(root)` (lines 707, 712). The group tree is a value, so re-parenting its nodes in place is not captured; only the output list is.
- `UsageList.GetFullTitle`: the "usages.n" message is an input function. The function has no contract of its own: the lemmas `FullTitleWrapped`, `FullTitleSome`, `FullTitleSoFar` and `FullTitleReports` state what the caption says.
- `UsageList.CollectData` requires the nodes to be usage nodes with at most one separator. The callers pass the view's nodes plus at most one separator (lines 185, 606-622). On two string nodes or two separators the comparator breaks its contract, which `UsageNodes.CompareAntisymmetric` states.
- `UsageNodes.Compare` orders two real usages in one file by an abstract integer `offset`, in place of the host's `compareTo` or location comparison.
- `UsageNodes.CompareStrings` compares Dafny `char`s, which are Unicode scalar values, where Kotlin's `String.compareTo` compares UTF-16 code units. File names that differ at a supplementary-plane character against a character in U+E000-U+FFFF are ordered differently.
- `UsageNodes.SortNodes` is a stable insertion sort. On a coherent list the comparator is a total preorder (`CompareAntisymmetric`, `CompareTransitive`), which is what a stable sort needs, and the result is ordered pairwise (`SortNodesSorted`, `SortedPairs`). That the host's merge sort gives the very same list is not proved. The sort's exceptions on an incoherent list are not modelled.
- `Scheduler.PingEDT.RunUpdate`: the loop is bounded by the supplied steps. It requires that some step ends the loop, so a ping action that re-pings forever with no time limit is not modelled.
- `SenderFilter` and `PsiUtils`: the `println` calls in the catch blocks (SenderFilter.kt line 49, PsiUtils.kt lines 56 and 73) are output only and are left out.
- `PsiUtils.IsEventBusPost`: an exception from the resolved method's name getter is the one exception not caught. It is returned as `Raised(HostFailure)`.

## Notes on the source

- `SenderFilter.ShouldShow` tests `element.parent is PsiExpressionStatement` after establishing that the same parent is a `PsiMethodCallExpression` (SenderFilter.kt:22, 31). In the host no method call is an expression statement, so the "declared earlier in the block" pattern is never reached. `SenderFilter.ShouldShowDirectArgumentOnly` states the resulting behaviour. A variable declared and then posted, `Event e = new Event(); post(e);`, is still accepted, through the direct-argument pattern (`SenderFilter.ShouldShowAcceptsEventArgument`).
- `ReceiverFilter.ShouldShow` requires the element to be both a `PsiJavaCodeReferenceElement` and a `PsiTypeElement` (ReceiverFilter.kt:13-14). The model keeps that double test literally, and `ReceiverFilter.ShouldShowNeedsBothKinds` states what it rejects.
