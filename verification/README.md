# osbase, verified

A Dafny model of the logic at the heart of osbase, with proofs. It covers

* the **hierarchical state machine** of osStateMachine: states in a tree, transitions that exit up to a least common
  ancestor and enter down from it, implicit transitions, start, end and history states, the records of the delegate,
  the explicit-stack iterator, and the viewer's parser of full state names;
* the **paged transport** and the **Uri** converters of osData, and the **task queue** of osApplication, sequentially
  and as a machine over its critical sections;
* the two **key streams** of osCoreImpl, JSON and XML, behind their common interface, and the log viewer's field access;
* the **import traversal** of the code generator, the **connection and calling states** of the WAMP messaging, and the
  **log buffer** that survives disconnections.

`dafny verify dfyconfig.toml` checks everything.

## How it is organised

Objects whose methods change fields are classes (`StateMachine`, `Hierarchy`, `Viewer`, `PrefixIterator`, `Receiver`,
`TaskQueue`, `RapidJsonStream`, `RapidXmlStream`, `CppBase`, `WampccMessaging`, `LogOutputDataExchange`). Every method
states its whole new state as a function of the old one; what the program promises is then proved about those
functions, for all inputs and over whole runs.

| modules | subject |
|---|---|
| StateTree, LeastCommonAncestor, ClientArea, Reconfiguration | the tree, the two forms of the least common ancestor, what a transition leaves and enters |
| Lookup, Engine, EventEffects, Settling, StateMachine, History, Balance, Runs, Quiescence, RecordChain | one event, implicit transitions, whole runs, records |
| StateWalk, WalkOnce | the pre-order iterator |
| Hierarchy, StateNames, NameParser, NameRoundTrip, NameStability | building hierarchies, and full names as text |
| Paging, Reassembly | the two sides of the paged transport |
| Uri, UriRoundTrip | the Uri grammar, parser and printer |
| TaskQueue, SchedulerRuns, SchedulerSteps | the queue, its sequential runs, its interleavings |
| KeyTree, KeyScript, JsonPointer, JsonStream, JsonTree, JsonKeys, JsonCursor, XmlStream, XmlTree, TwoStreams, FieldValue | the key streams |
| Imports, ImportClosure | the code generator's import graph |
| Messaging, LogBuffer | the two small protocols |
| Options, Sequences, PathText, Decimal | shared helpers |

## What the proofs brought to light

Each of these is proved for all inputs, with the exact condition under which the code does meet the expectation; where a
witness is instructive it is a lemma of its own.

* A state that an event bubbled past stays entered, and so do the states a machine is in when it is stopped: a run, with
  restarts, ends with exactly the chain of its current state entered if and only if histories have resumed every state as
  often as the run left it behind (`Runs.ExactIffAllResumed`). Without histories that means that every transition was fired
  by a state with the same chain as the current one, and every restart happened on the chain of the root
  (`Runs.ExactIffOwnedByCurrent`). A restart keeps the current chain entered if and only if the root is entered
  (`Runs.RestartKeepsSoundIff`).
* A transition between two hierarchies reconfigures correctly if and only if both ends are States: for a pseudo-state
  without a common ancestor the null cast equals the null ancestor, and nothing is left or entered
  (`Reconfiguration.ReconfiguresIff`). The run theorems are about every table all of whose transitions do, single
  hierarchies among them (`Reconfiguration.OneTreeIsCoherent`).
* Nothing bounds the mutual recursion of `doTransition` and `doImplicitTransition`. Within a hierarchy, whatever the
  histories hold, it ends if and only if it meets no state twice (`Settling.SettlesIffNoRevisit`); with transitions between
  hierarchies, if and only if it meets no state twice with the same saved histories (`Settling.SettlesIffNoPlaceTwice`).
  A state reached by handing over, from an end state or a history, is quiescent if and only if it has neither an implicit
  edge nor a saved history of its own (`Quiescence.RestIsQuiescentIff`).
* A buffer arrives at an idle receiver if and only if its page count modulo 65536 is neither 0, for which nothing is sent,
  nor 65535, for which the sender never returns. A receiver that expects another count loses it, and every buffer after it
  until one has that count (`Reassembly.StaysStuck`); one that expects its count appends the rest of it to what it holds,
  which is wrong unless that is exactly the beginning of this buffer (`Reassembly.OneBuffer`, and `Reassembly.RoundTrip` for lists of buffers).
* With the delegate everywhere, the records of an event form a chain unless it comes to rest by resuming a history, in an
  internal implicit transition, or in a history state whose saved state has another name, and only then not
  (`RecordChain.EventRecordsLinkIff`).
* A file Uri on localhost is accepted, but not in its own printed form (`UriRoundTrip.RoundTrip`).
* Every pop of the task queue finds a due task, in all interleavings, if and only if there is at most one consumer, and
  no clearing while there is one (`SchedulerSteps.AlwaysPopsDueIff`).
* An imported module does not collect what was visited before it (`ImportClosure.SiblingIsSkipped`): it collects all the
  names it reaches if and only if each is defined by a file it reaches around the visited ones
  (`ImportClosure.ModuleCollectsIff`).
* A JSON key with a slash or a tilde is read as part of a pointer. What it addresses, be it another member's value or, for
  a malformed pointer, the document, is opened instead of a new member and can be overwritten; where it addresses nothing a
  member is added that never takes a value (`JsonKeys.CreateAnyKey`, `JsonKeys.SetAnyKey`). A text stored under any key is
  found again exactly under the condition of `JsonKeys.KeyKeepsTextIff`.
* The pointer of the JSON cursor finds something other than the walk along its keys exactly where a key reads as the number
  of an element, or a row number as the name of a member (`JsonCursor.PointerIsWalkIff`).
* `isKeyExist` and `openKey` agree on every named key, in both streams, but not on the empty one: in JSON it exists wherever
  there is a value (`JsonKeys.EmptyKeyExists`), in XML only as a child without a name (`XmlTree.ExistsIffOpens`), while
  `openKey` takes the first member or child. `createArray` without a key at a JSON object makes no array
  (`JsonKeys.UnnamedArrayAtObject`).
* The size of an XML array reads 0 once a row is open (`TwoStreams.SizeBeforeFirstRow`), and an XML key that ends with the
  array suffix holds a text, but below it closing a key climbs too far (`XmlTree.CloseReturnsIff`,
  `XmlTree.ObjectKeyReturnsIff`).
* A call of the WAMP messaging that begins while disconnected makes the state connected without a notification
  (`Messaging.BeginKeepsIff`); one that throws, or returns after a loss, leaves a calling state behind (`Messaging.StateIs`).
* Messages survive disconnections, in order, if and only if no push fails while the log buffer is flushed
  (`LogBuffer.ConservesIff`).
* src/lib/osCore/include/osCore/Serialization/KeyStream.h:93 documents `openArray` as creating an array; in both streams
  it only opens one, and that is what is modelled.

## Model

| member | source | states |
|---|---|---|
| LeastCommonAncestor.LcaIsDeepest | src/lib/osStateMachine/src/AbstractState.cpp:172-198 | the recursive search ends (the sum of the two depths falls) and finds the deepest common ancestor-or-self of two states, a State; it finds none exactly when the states are in different hierarchies |
| ClientArea.GetClientAreas | src/exe/osStateMachineViewer/src/AbstractStateWidget.cpp:58-108 | the areas collected around a widget are the chain of States that contain it, innermost first |
| ClientArea.PopUnequalFronts | src/exe/osStateMachineViewer/src/AbstractStateWidget.cpp:58-108 | what the loops leave begins at the innermost place, counted from the root, where the two deques agree |
| ClientArea.GetLcaStateClientArea | src/exe/osStateMachineViewer/src/AbstractStateWidget.cpp:58-108 | the deque form returns the area of the very state the recursive getLCAState finds |
| Reconfiguration.ExitsReverseEntries | src/lib/osStateMachine/src/AbstractState.cpp:200-230 | exits towards an ancestor run over the same states as entries from it, in opposite order |
| Reconfiguration.EntriesExtendAncestor | src/lib/osStateMachine/src/AbstractState.cpp:200-214 | entering from an ancestor State enters exactly the part of the chain below it, outermost first |
| Reconfiguration.ReconfiguresIff | src/lib/osStateMachine/src/AbstractState.cpp:105-114 | removing the exited states from the chain of the owner and adding the entered ones gives the chain of the target, in the required orders, if and only if both are in one hierarchy or both are States |
| Reconfiguration.OneTreeIsCoherent | src/lib/osStateMachine/src/AbstractState.cpp:172-198 | in a single hierarchy every transition reconfigures |
| Reconfiguration.ExitsAndEntriesAre | src/lib/osStateMachine/src/AbstractState.cpp:105-114 | a transition leaves exactly what the chain of its source has beyond the longest common beginning of the two chains, innermost first, and enters exactly what the chain of its target has beyond it, outermost first; a self transition leaves and enters the state itself |
| Settling.RankedEdgesSettle | src/lib/osStateMachine/src/AbstractState.cpp:117-122 | implicit transitions along which a rank falls come to rest within that rank, whatever the histories hold |
| Settling.SettlesIffNoRevisit | src/lib/osStateMachine/src/State.cpp:54-86 | from any state of any hierarchy, with any saved histories, settling ends if and only if the recursion meets no state twice, and then in fewer hops than there are states |
| Settling.SettlesIffNoPlaceTwice | src/lib/osStateMachine/src/State.cpp:54-86 | in any table, with transitions between hierarchies too, it ends if and only if the recursion never meets a state twice with the same saved histories |
| StateMachine.StateMachine.DoEntry | src/lib/osStateMachine/src/State.cpp:131-147 | one entry effect, and the history of the parent saves the entered state |
| StateMachine.StateMachine.DoExit | src/lib/osStateMachine/src/State.cpp:149-165 | one exit effect, and the history of the parent forgets |
| StateMachine.StateMachine.DoExitUntilLcaState | src/lib/osStateMachine/src/AbstractState.cpp:216-230 | the recursion has the effects of the exits listed innermost first |
| StateMachine.StateMachine.DoEntryFromLcaState | src/lib/osStateMachine/src/AbstractState.cpp:200-214 | the recursion has the effects of the entries listed outermost first |
| StateMachine.StateMachine.OnBeginTransition | src/lib/osStateMachine/src/StateMachine.cpp:35-67 | a state with the delegate adds one record with the event and the source, any other none |
| StateMachine.StateMachine.OnEndTransition | src/lib/osStateMachine/src/StateMachine.cpp:69-74 | the last record gets its target, unless there is no target or no record |
| StateMachine.StateMachine.FireTransition | src/lib/osStateMachine/src/AbstractState.cpp:83-115 | a chosen transition has the effects of exits, then action, then entries inside one record; an internal one only its action |
| StateMachine.StateMachine.DoTransition | src/lib/osStateMachine/src/AbstractState.cpp:73-138 | a named event bubbles to the first ancestor with an enabled transition, which fires and settles; the result and all effects are those of the specification |
| StateMachine.StateMachine.DoEmptyEvent | src/lib/osStateMachine/src/AbstractState.cpp:153-155 | the empty event does not bubble, and settles on |
| StateMachine.StateMachine.DoImplicitTransition | src/lib/osStateMachine/src/State.cpp:54-86 | the virtual function of all four classes: history before start state before implicit transition, an end state handing over to its parent |
| StateMachine.StateMachine.HandleEvent | src/lib/osStateMachine/src/StateMachine.cpp:236-263 | one raised event moves the current state to the result, if any, and hands out and clears the records |
| StateMachine.StateMachine.RaiseEvent | src/lib/osStateMachine/src/StateMachine.cpp:202-218 | a raised event joins the task loop if the machine is started, and is an error otherwise |
| StateMachine.StateMachine.Start | src/lib/osStateMachine/src/StateMachine.cpp:178-189 | starting needs a root and a running task loop, makes the root current and raises the empty event |
| StateMachine.StateMachine.Stop | src/lib/osStateMachine/src/StateMachine.cpp:191-196 | stopping needs a started machine and leaves no current state |
| EventEffects.OwnerIff | src/lib/osStateMachine/src/AbstractState.cpp:78-130 | the state that handles an event is the ancestor-or-self that has an enabled transition for it while none below it has |
| EventEffects.OwnerIsNearest | src/lib/osStateMachine/src/AbstractState.cpp:78-130 | and nobody handles it if and only if no ancestor-or-self has one |
| EventEffects.FireEffects | src/lib/osStateMachine/src/AbstractState.cpp:83-115 | the journal of an external transition: what was there, all exits in order, its action, all entries in order; and exactly one record from its state to its target if the delegate is there |
| EventEffects.InternalEffects | src/lib/osStateMachine/src/AbstractState.cpp:83-104 | the journal of an internal transition gets its action and nothing else, histories stay, and its record has no target |
| EventEffects.HistoryComesFirst | src/lib/osStateMachine/src/State.cpp:54-67 | a state whose first history state holds a saved state hands over to it, with no effect but one record from the history |
| EventEffects.StartComesSecond | src/lib/osStateMachine/src/State.cpp:69-81 | with nothing saved a state goes on to its first start state, with no effect but one record |
| EventEffects.ImplicitComesLast | src/lib/osStateMachine/src/State.cpp:54-86 | with neither it fires its first enabled implicit transition: to its target, or its action alone when internal |
| EventEffects.PseudoHandsOver | src/lib/osStateMachine/src/EndState.cpp:20-26 | an end state hands over to its parent with one record, a history state to what it saved with none |
| EventEffects.EventFires | src/lib/osStateMachine/src/AbstractState.cpp:73-138 | a named event fires the first enabled transition of its nearest owner: exits, action and entries in the journal first, and whatever else follows is settling |
| EventEffects.EventIgnored | src/lib/osStateMachine/src/AbstractState.cpp:125-138 | an event nobody handles leaves current state, journal and histories as they are and adds one record, without states, of the topmost state |
| History.FireRemembers | src/lib/osStateMachine/src/AbstractState.cpp:105-114 | a fired transition keeps every history state at the last child entered and not left |
| History.SettleRemembers | src/lib/osStateMachine/src/State.cpp:54-86 | so does settling, with any histories and end states, resumed histories included |
| History.ReactRemembers | src/lib/osStateMachine/src/AbstractState.cpp:73-138 | so does any named event |
| Balance.FireKeepsBalance | src/lib/osStateMachine/src/AbstractState.cpp:105-114 | a fired transition that reconfigures exchanges the chain of its source for the chain of its target among the entered states |
| Balance.SettleKeepsBalance | src/lib/osStateMachine/src/State.cpp:54-86 | settling keeps the chain of the state it lands on entered and changes the surplus by exactly the state a history resumes, if one does |
| Balance.ReactKeepsBalance | src/lib/osStateMachine/src/AbstractState.cpp:125-130 | a named event keeps the chain of the new state entered and changes the surplus by exactly what lay below the state that handled it and the state a history resumed |
| Balance.RestsSoon | src/lib/osStateMachine/src/StateMachine.cpp:236-263 | inside one hierarchy an event comes to rest if and only if it does so in fewer hops than there are states |
| Balance.HandleWithin | src/lib/osStateMachine/src/StateMachine.cpp:236-263 | the state the run theorems are about is the outcome of doTransition, which depends on no bound |
| Balance.HandleSurplus | src/lib/osStateMachine/src/StateMachine.cpp:236-263 | with any histories one event adds to the surplus exactly the states below its owner and takes away exactly the resumed one |
| Balance.HandleKeepsSound | src/lib/osStateMachine/src/StateMachine.cpp:236-263 | one event keeps the machine sound: histories truthful, current chain entered |
| Runs.RestartKeepsSoundIff | src/lib/osStateMachine/src/StateMachine.cpp:178-196 | stopping and starting again, histories kept, leaves the current chain entered if and only if the root is entered |
| Runs.BelowRootEntered | src/lib/osStateMachine/src/StateMachine.cpp:178-196 | which it is whenever the machine is below its root |
| Runs.TopIsAbove | src/lib/osStateMachine/src/StateMachine.cpp:178-196 | and in a single hierarchy started in its topmost state it always is |
| Runs.StepSurplus | src/lib/osStateMachine/src/StateMachine.cpp:178-263 | an event or a restart changes the surplus by exactly what it leaves behind and resumes |
| Runs.Run | src/lib/osStateMachine/src/StateMachine.cpp:178-263 | over every run of events and restarts, each event coming to rest where it is raised and each restart finding the root entered, in any table whose transitions reconfigure, with any guards, histories and end states: the current state and its ancestors are entered and not exited and every history holds the last child entered and not left |
| Runs.RankedRunProceeds | src/lib/osStateMachine/src/AbstractState.cpp:117-122 | where implicit edges have ranks for the values of the events, every event of every run comes to rest; restarts succeed in a single hierarchy started in its topmost state |
| Runs.SurplusOfRun | src/lib/osStateMachine/src/StateMachine.cpp:178-263 | over any run, entered but not exited is the chain of the current state plus, per event, what lay strictly below its owner and, per restart, what lay below the root, less what histories resumed |
| Runs.ExactIffAllResumed | src/lib/osStateMachine/src/AbstractState.cpp:105-130 | a run ends with exactly the current chain entered if and only if histories resumed every state as often as it was left behind |
| Runs.ExactIffOwnedByCurrent | src/lib/osStateMachine/src/AbstractState.cpp:105-130 | a run without histories, restarted below its root, does if and only if every transition was fired by a state with the chain of the current state and every restart happened on the chain of the root |
| Quiescence.SettleLandsAtRest | src/lib/osStateMachine/src/State.cpp:54-86 | settling lands where the recursion ends, or on the parent of the end state or the saved state handed over to there, and returns null exactly when there is nothing to do |
| Quiescence.QuiescentIff | src/lib/osStateMachine/src/State.cpp:54-86 | a state is quiescent exactly when it has nowhere to go, is no end state and resumes nothing |
| Quiescence.RestIsQuiescentIff | src/lib/osStateMachine/src/EndState.cpp:20-26 | in a machine with truthful histories the state settled on is quiescent unless it was handed over to and has an implicit edge or a saved history of its own |
| Quiescence.RankedSettlesQuiescent | src/lib/osStateMachine/src/AbstractState.cpp:117-122 | without end and history states, and with a rank that falls along implicit edges, settling terminates in a quiescent state |
| RecordChain.SettleLinksIff | src/lib/osStateMachine/src/State.cpp:54-86 | with the delegate everywhere, the records settling adds lead, end to end, from the state it starts in to the state it lands on if and only if the recursion does not end by resuming a history, in an internal implicit transition, or in a history state whose saved state has another name |
| RecordChain.EventRecordsLinkIff | src/lib/osStateMachine/src/StateMachine.cpp:35-74 | the records of an externally handled event name the event, start in its owner, and link up to the new current state if and only if the same holds |
| RecordChain.AlwaysCloses | src/lib/osStateMachine/src/State.cpp:54-86 | which it does in hierarchies without history states and internal implicit transitions |
| StateWalk.PrefixIterator.Current | src/lib/osStateMachine/src/State.cpp:295-304 | dereferencing gives the first state still to be visited |
| StateWalk.PrefixIterator.Increment | src/lib/osStateMachine/src/State.cpp:310-360 | one increment moves past exactly the current state, and no exhausted iterator is left on the stack |
| StateWalk.PrefixIterator.PopExhausted | src/lib/osStateMachine/src/State.cpp:345-357 | the pop loop leaves what remains below the popped iterators |
| StateWalk.Walk | src/lib/osStateMachine/src/StateWalker.cpp:23-32 | begin to end visits the recursive pre-order and takes as many increments as there are states |
| WalkOnce.VisitsEachOnce | src/lib/osStateMachine/src/State.cpp:292-379 | the pre-order holds exactly the states attached below the root, each once |
| WalkOnce.VisitsInOrder | src/lib/osStateMachine/src/State.cpp:292-379 | of two visited states the earlier is an ancestor of the later, or lies below an earlier child of a state above both |
| Hierarchy.ReplacedChildIsFound | src/lib/osStateMachine/src/State.cpp:172-194 | a new start or history state is the one its parent finds, the only one of its class, and other children stay |
| Hierarchy.ReplaceChildGrows | src/lib/osStateMachine/src/State.cpp:172-194 | setting a start or history state changes nothing but the child list of the parent: the new child comes last, with the delegate only if a State, and children of other classes keep their order |
| Hierarchy.KeepsNames | src/lib/osStateMachine/src/AbstractState.cpp:20-28 | a state keeps its full name and path while the hierarchy grows |
| Hierarchy.Hierarchy.CreateRoot | src/lib/osStateMachine/src/State.cpp:33-35 | a root joins the states, all others unchanged |
| Hierarchy.Hierarchy.Create | src/lib/osStateMachine/src/State.cpp:19-31 | a child State is appended and takes over the delegate of its parent |
| Hierarchy.Hierarchy.AddEndState | src/lib/osStateMachine/src/State.cpp:196-200 | an end state is appended, without the delegate |
| Hierarchy.Hierarchy.Replace | src/lib/osStateMachine/src/State.cpp:172-194 | a start or history state takes the place of the one that was there |
| NameParser.Viewer.SplitName | src/exe/osStateMachineViewer/src/StateMachineWindow.cpp:371-430 | the loop over the name collects its parts |
| NameParser.Viewer.DoStep | src/exe/osStateMachineViewer/src/StateMachineWindow.cpp:371-430 | one part of the name: finding or growing one child, and whether the function returns at once |
| NameParser.Viewer.DescendFrom | src/exe/osStateMachineViewer/src/StateMachineWindow.cpp:371-430 | the loop with its moving current pointer does what the descent by recursion does |
| NameParser.Viewer.ExtractStateHierarchy | src/exe/osStateMachineViewer/src/StateMachineWindow.cpp:371-430 | the whole function: the first call makes the root, later calls need its name |
| StateNames.SplitIs | src/exe/osStateMachineViewer/src/StateMachineWindow.cpp:371-430 | the parts of a name hold no separator and, each followed by one, give back the name, completed by the separator it may lack at its end |
| StateNames.TerminatedIsUnique | src/exe/osStateMachineViewer/src/StateMachineWindow.cpp:371-430 | no other list of parts without separators does |
| NameParser.StepFindsChild | src/exe/osStateMachineViewer/src/StateMachineWindow.cpp:371-430 | a part finds the first child that has its name without marker, whatever its class, and nothing grows |
| NameParser.DescentOf | src/exe/osStateMachineViewer/src/StateMachineWindow.cpp:371-430 | a part that makes a history, start or end state ends the descent with it, the rest unread; a State that is made is gone on from; below a pseudo-state the rest is refused |
| NameParser.BeforeFirstSlash | src/exe/osStateMachineViewer/src/StateMachineWindow.cpp:371-430 | what precedes the first separator does not matter |
| NameParser.Refused | src/exe/osStateMachineViewer/src/StateMachineWindow.cpp:371-430 | a name without separator, with nothing after its only one, or of another root is refused and changes nothing |
| NameRoundTrip.ReadsIffConsistent | src/exe/osStateMachineViewer/src/StateMachineWindow.cpp:371-430 | reading an address ends in a state of exactly that full name if and only if the hierarchy uses no part of it for a state of another class |
| NameRoundTrip.FreshParse | src/exe/osStateMachineViewer/src/StateMachineWindow.cpp:371-430 | parsing a printed name from scratch always yields a state whose full name it is |
| NameRoundTrip.ParseIffConsistent | src/exe/osStateMachineViewer/src/StateMachineWindow.cpp:371-430 | parsing into an existing hierarchy does so if and only if the root has the first part for its name and the rest is consistent |
| NameStability.DescendAgain | src/exe/osStateMachineViewer/src/StateMachineWindow.cpp:371-430 | a second reading returns the same state and leaves the hierarchy unchanged |
| NameStability.ParseAgain | src/exe/osStateMachineViewer/src/StateMachineWindow.cpp:371-430 | the same for whole printed names |
| NameStability.FindsEveryState | src/lib/osStateMachine/src/AbstractState.cpp:20-28 | with distinct sibling names every state is found under its own full name, without any change |
| Paging.HeaderOfPage | src/lib/osData/src/PagedDataExchange.cpp:32-33 | the receiver reads from a page the number, count and payload it was made of |
| Paging.ChunkAt | src/lib/osData/src/PagedDataExchange.cpp:89-93 | where the payload of each page lies in the buffer |
| Paging.ChunksJoin | src/lib/osData/src/PagedDataExchange.cpp:84-96 | the payloads of the pages joined are the buffer, for any page count that is not too large |
| Paging.ChunksFitIff | src/lib/osData/src/PagedDataExchange.cpp:82-93 | every page fits the page size if and only if the page count was not truncated |
| Paging.LoopEndsIff | src/lib/osData/src/PagedDataExchange.cpp:84 | the loop with its 16-bit counter ends for every page count but 65535 |
| Paging.PageAfterRounds | src/lib/osData/src/PagedDataExchange.cpp:84 | the page counter after any number of rounds, wrapped around to 16 bits |
| Paging.Push | src/lib/osData/src/PagedDataExchange.cpp:72-97 | the loop puts the pages of the buffer on the wire, in order, with the truncated count; a page size not above the header is an error |
| Reassembly.Receiver.OnDataReceived | src/lib/osData/src/PagedDataExchange.cpp:27-60 | one page: the new state, and whether it throws, is accepted, or completes a buffer |
| Reassembly.ReceiveExplains | src/lib/osData/src/PagedDataExchange.cpp:27-60 | one page keeps the accepted pages explained as complete messages and one in progress |
| Reassembly.DeliveredIsReassembled | src/lib/osData/src/PagedDataExchange.cpp:35-59 | over any stream each delivered buffer joins accepted pages numbered 1..n that all carry the count n, no accepted page is used twice, and between steps either nothing is in progress or the current page is below the count |
| Reassembly.FeedJoin | src/lib/osData/src/PagedDataExchange.cpp:27-60 | receiving two streams one after the other is receiving their concatenation |
| Reassembly.ShortPageIsSkipped | src/lib/osData/src/PagedDataExchange.cpp:29-30 | a page shorter than the header makes no difference anywhere in a stream, to what is accepted, delivered or expected |
| Reassembly.FeedMessage | src/lib/osData/src/PagedDataExchange.cpp:27-60 | a whole message, received in any state between two steps: thrown page by page if another count is expected, otherwise completing what was begun, whoever began it |
| Reassembly.OneBuffer | src/lib/osData/src/PagedDataExchange.cpp:27-97 | for a buffer of any length and a receiver in any state between two steps: push returns if and only if the page count modulo 65536 is not 65535; the buffer arrives if and only if it is neither that nor 0 and the receiver is idle or holds exactly its first pages; what is delivered otherwise; the pages of a buffer that arrives fit exactly when the count needs no truncation |
| Reassembly.StreamOfBuffers | src/lib/osData/src/PagedDataExchange.cpp:27-97 | of any list of buffers whose pushes return, sent to an idle receiver, those with a page are delivered unchanged and in order |
| Reassembly.StaysStuck | src/lib/osData/src/PagedDataExchange.cpp:38-48 | a receiver that expects a count which no buffer of a list has delivers nothing and stays as it is |
| Reassembly.RoundTrip | src/lib/osData/src/PagedDataExchange.cpp:27-97 | for a receiver in any state between two steps: every push of a list returns and exactly the list is delivered, in order, if and only if no page count is 0 or 65535 modulo 65536 and the receiver is idle or holds exactly the first pages of the first buffer |
| Reassembly.PagesFit | src/lib/osData/src/PagedDataExchange.cpp:81-96 | a non-empty buffer of at most 65534 pages takes ceil(length / payload) pages, none larger than the page size |
| Uri.Read | src/lib/osData/src/Uri.cpp:195-240 | the converter that fills a Uri field by field computes the parse |
| Uri.Write | src/lib/osData/src/Uri.cpp:166-193 | the converter that streams the fields one by one computes the printed form, empty for the null Uri |
| UriRoundTrip.MatchIsWord | src/lib/osData/src/Uri.cpp:8-13 | what the expression matches consists of well-formed parts that recompose to the string |
| UriRoundTrip.WordMatches | src/lib/osData/src/Uri.cpp:8-13 | every combination of well-formed parts matches, with these parts |
| UriRoundTrip.MatchIff | src/lib/osData/src/Uri.cpp:8-13 | the grammar is unambiguous: a string matches with given parts if and only if they are well-formed and recompose to it |
| UriRoundTrip.ParseIs | src/lib/osData/src/Uri.cpp:195-240 | a word of the grammar is a port error exactly if its port is empty or exceeds unsigned long, else a Uri error exactly if its host is not accepted for its scheme, and else gives a Uri whose scheme, user info, host, path, query and fragment are those of the word and whose port is its number modulo 65536 |
| UriRoundTrip.NoWordIsBad | src/lib/osData/src/Uri.cpp:195-204 | anything that is no word is a Uri error |
| UriRoundTrip.ClassesAre | src/lib/osData/src/Uri.cpp:8-13 | the character classes are those of appendix A of RFC 3986 |
| UriRoundTrip.PiecesAreRun | src/lib/osData/src/Uri.cpp:8-13 | any concatenation of class characters and percent-encoded bytes is scanned to its end |
| UriRoundTrip.RunIsPieces | src/lib/osData/src/Uri.cpp:8-13 | and what is scanned to its end is such a concatenation |
| UriRoundTrip.BracketsIff | src/lib/osData/src/Uri.cpp:8-13 | the bracketed hosts are at least two hexadecimal digits, colons and dots between brackets |
| UriRoundTrip.RoundTrip | src/lib/osData/src/Uri.cpp:166-240 | parsing the printed form of an accepted string gives the same Uri without fragment and with localhost mapped, except exactly for a file Uri on localhost, which is rejected |
| UriRoundTrip.PrintedParses | src/lib/osData/src/Uri.cpp:166-240 | the same for every Uri with well-formed parts, parsed or built |
| UriRoundTrip.PrintParseIdempotent | src/lib/osData/src/Uri.cpp:166-240 | printing after parsing is idempotent |
| UriRoundTrip.NullUriIff | src/lib/osData/src/Uri.cpp:166-169 | the null Uri and no other prints as the empty text, which does not parse |
| UriRoundTrip.EqualIffSameNormal | src/lib/osData/src/Uri.cpp:84-94 | equality by printed form is agreement in everything but the fragment, localhost counting as 127.0.0.1 |
| TaskQueue.StableSortIsStable | src/lib/osApplication/src/TaskQueue.cpp:86-87 | the sort is sorted and keeps the order of equal times |
| TaskQueue.PushKeepsOrder | src/lib/osApplication/src/TaskQueue.cpp:67-90 | a push keeps due time and then push order, adds exactly the pushed task, and puts an immediate one in front of everything pending |
| TaskQueue.DueTimeIs | src/lib/osApplication/src/TaskQueue.cpp:74-85 | a delayed task is due that delay after its reference time; an immediate one at its reference time if nothing is pending, else one millisecond before the earlier of that and the front |
| TaskQueue.ImmediateIsNext | src/lib/osApplication/src/TaskQueue.cpp:67-90 | after an immediate push to any ordered queue, a pull at its reference time or later returns that very task |
| TaskQueue.DelayedIsPulledWhenDue | src/lib/osApplication/src/TaskQueue.cpp:35-106 | a task waiting alone is pulled from its due time on and not before, and then waits again exactly if it is enabled and repeated |
| TaskQueue.PullIff | src/lib/osApplication/src/TaskQueue.cpp:35-51 | a pull returns a task if and only if a pending one is due, and then the first in the order of due time and of push |
| TaskQueue.PopTakesLeast | src/lib/osApplication/src/TaskQueue.cpp:92-106 | the front is the least pending task, and a pop removes just it and adds its repetition, if any |
| TaskQueue.TaskQueue.PushScheduledTask | src/lib/osApplication/src/TaskQueue.cpp:67-90 | a null task changes nothing, any other is pushed |
| TaskQueue.TaskQueue.PopTask | src/lib/osApplication/src/TaskQueue.cpp:92-106 | the front task is returned, and repeated from the given time when it is enabled and repeats |
| TaskQueue.TaskQueue.PullTask | src/lib/osApplication/src/TaskQueue.cpp:35-51 | nothing happens while nothing is due, otherwise the front is popped at its own due time |
| SchedulerRuns.RunsConserve | src/lib/osApplication/src/TaskQueue.cpp:35-106 | over any run no task is lost or duplicated: pushed is pulled and pending together, and the list stays ordered |
| SchedulerRuns.RhythmContinues | src/lib/osApplication/src/TaskQueue.cpp:92-106 | a repeated task stays in rhythm over any continuation |
| SchedulerRuns.RepeatsKeepTime | src/lib/osApplication/src/TaskQueue.cpp:35-106 | the k-th pull of an enabled repeated task has the first due time plus k delays, however late it was pulled |
| SchedulerSteps.StepIsSafe | src/lib/osApplication/src/TaskQueue.cpp:16-51 | with one consumer every step but a clear keeps the queue non-empty and due at the pop |
| SchedulerSteps.WaitTakesTask | src/lib/osApplication/src/TaskQueue.cpp:16-33 | with one consumer and any producers, a wait whose front was due before its limit when it last looked times out no earlier than then and goes on to a pop, which takes a task due no later off the queue; any other wait ends at its limit or later without one |
| SchedulerSteps.RepetitionIs | src/lib/osApplication/src/TaskQueue.cpp:92-106 | what repeats is pushed again, whatever happened in between: the same task and delay, due that delay after the time the consumer had looked at |
| SchedulerSteps.PullRefines | src/lib/osApplication/src/TaskQueue.cpp:35-51 | the sections of a pull with nothing in between do what pullTask does sequentially |
| SchedulerSteps.WaitRefines | src/lib/osApplication/src/TaskQueue.cpp:16-33 | those of a wait from its timeout on do what popTask does for the time it waited for |
| SchedulerSteps.PopsDueTask | src/lib/osApplication/src/TaskQueue.cpp:16-51 | over every interleaving the popped task exists, is due no later than the checked time, and strictly before the wait limit |
| SchedulerSteps.AlwaysPopsDueIff | src/lib/osApplication/src/TaskQueue.cpp:16-61 | in all interleavings of n consumers every pop finds a due task if and only if n is at most 1 and the queue is not cleared, or n is 0 |
| SchedulerSteps.TwoConsumersMeet | src/lib/osApplication/src/TaskQueue.cpp:42-48 | for any two or more consumers an interleaving in which the second pop finds an empty list |
| SchedulerSteps.ClearedBeforePop | src/lib/osApplication/src/TaskQueue.cpp:58-61 | for any number of consumers an interleaving with a clear between check and pop |
| JsonPointer.TokensOfJoinedIff | src/lib/osCoreImpl/src/RapidJsonStream.cpp:347-360 | tokens rendered without escapes are read back as these tokens exactly when none holds a slash or a tilde (sections 3 and 4 of RFC 6901) |
| JsonPointer.UnescapeEscape | src/lib/osCoreImpl/src/RapidJsonStream.cpp:347-360 | reading a token escaped as section 3 of RFC 6901 requires gives the token |
| JsonPointer.MalformedIff | src/lib/osCoreImpl/src/RapidJsonStream.cpp:347-360 | a token is malformed if and only if a tilde in it, not part of another escape, is followed by neither 0 nor 1 |
| JsonPointer.ArrayIndexIff | src/lib/osCoreImpl/src/RapidJsonStream.cpp:347-360 | a token is the index n if and only if it is the decimal text of n |
| JsonPointer.GetPut | src/lib/osCoreImpl/src/RapidJsonStream.cpp:60-85 | what is stored at a place is found there |
| JsonPointer.PutPut | src/lib/osCoreImpl/src/RapidJsonStream.cpp:60-85 | the later of two values stored at a place remains |
| JsonStream.RapidJsonStream.Render | src/lib/osCoreImpl/src/RapidJsonStream.cpp:351-357 | the loop renders the steps of the key list, the last row number only on request |
| JsonStream.RapidJsonStream.Find | src/lib/osCoreImpl/src/RapidJsonStream.cpp:343-360 | the place of the current value, or nothing when there is none; a malformed pointer stands for the document |
| JsonStream.RapidJsonStream.DoCreateKey | src/lib/osCoreImpl/src/RapidJsonStream.cpp:106-124 | an existing key is opened; otherwise a member is added to an object, or to a null that becomes one; anything else fails and changes nothing |
| JsonStream.RapidJsonStream.DoOpenKey | src/lib/osCoreImpl/src/RapidJsonStream.cpp:126-145 | the cursor moves only to what exists, the empty key meaning the first member |
| JsonStream.RapidJsonStream.KeyExists | src/lib/osCoreImpl/src/RapidJsonStream.cpp:154-159 | whether opening the key would find a value, without moving the cursor |
| JsonStream.RapidJsonStream.DoCloseKey | src/lib/osCoreImpl/src/RapidJsonStream.cpp:219-225 | the last key is dropped, if there is one |
| JsonStream.RapidJsonStream.DoCreateArray | src/lib/osCoreImpl/src/RapidJsonStream.cpp:242-275 | an array is created or opened; a failure on an existing other value leaves its key open |
| JsonStream.RapidJsonStream.DoOpenArray | src/lib/osCoreImpl/src/RapidJsonStream.cpp:277-300 | an existing array is opened at row 0, and nothing else is left open |
| JsonStream.RapidJsonStream.DoCreateRow | src/lib/osCoreImpl/src/RapidJsonStream.cpp:302-310 | a null row is appended and selected |
| JsonStream.RapidJsonStream.DoOpenRow | src/lib/osCoreImpl/src/RapidJsonStream.cpp:312-322 | a row is selected, or the former one stays selected when there is no such row |
| JsonStream.RapidJsonStream.RowCount | src/lib/osCoreImpl/src/RapidJsonStream.cpp:334-341 | the number of rows, 0 when the cursor is in no array |
| JsonStream.RapidJsonStream.SetTextValue | src/lib/osCoreImpl/src/RapidJsonStream.cpp:78-85 | a string replaces a string or a null only |
| JsonStream.RapidJsonStream.SetIntValue | src/lib/osCoreImpl/src/RapidJsonStream.cpp:60-67 | an int replaces an int or a null only |
| JsonStream.RapidJsonStream.GetTextValue | src/lib/osCoreImpl/src/RapidJsonStream.cpp:45-49 | the string at the cursor or the default |
| JsonStream.RapidJsonStream.GetIntValue | src/lib/osCoreImpl/src/RapidJsonStream.cpp:34-37 | the int at the cursor or the default |
| JsonStream.RapidJsonStream.GetRealValue | src/lib/osCoreImpl/src/RapidJsonStream.cpp:39-43 | the double at the cursor, or the int there as a double, or the default |
| JsonStream.RapidJsonStream.GetBoolValue | src/lib/osCoreImpl/src/RapidJsonStream.cpp:29-32 | the bool at the cursor or the default |
| JsonTree.PointerFollowsKeysIff | src/lib/osCoreImpl/src/RapidJsonStream.cpp:347-360 | the rendered pointer stands for the key list exactly when no key holds a slash or a tilde |
| JsonTree.WriteMakes | src/lib/osCoreImpl/src/RapidJsonStream.cpp:106-124 | writing a tree at a null value stores its encoding there, changes nothing else, and restores the cursor |
| JsonTree.ReadBack | src/lib/osCoreImpl/src/RapidJsonStream.cpp:126-145 | reading at a stored encoding returns the tree and leaves the stream unchanged |
| JsonTree.RoundTrip | src/lib/osCoreImpl/src/RapidJsonStream.cpp:242-322 | a tree written to a fresh stream is read back |
| JsonKeys.CreateAnyKey | src/lib/osCoreImpl/src/RapidJsonStream.cpp:106-145 | createKey with any non-empty key at a null or an object of any stream: what the key addresses as part of a pointer is opened and nothing added; otherwise the member is added, and reached only if the key holds no slash and no tilde |
| JsonKeys.SetAnyKey | src/lib/osCoreImpl/src/RapidJsonStream.cpp:78-124 | whether a text can then be stored, and what it overwrites, the document itself for a malformed pointer |
| JsonKeys.KeyKeepsTextIff | src/lib/osCoreImpl/src/RapidJsonStream.cpp:78-145 | the text is stored, and found again after closing and reopening, if and only if the key addresses a text or a null, or addresses nothing and holds no slash and no tilde |
| JsonKeys.MemberRoundTripsIff | src/lib/osCoreImpl/src/RapidJsonStream.cpp:78-145 | the exact condition for a string member written by a client to come back |
| JsonKeys.KeyOverwrites | src/lib/osCoreImpl/src/RapidJsonStream.cpp:106-145 | a key with a slash that overwrites another member's value |
| JsonKeys.MalformedAtObject | src/lib/osCoreImpl/src/RapidJsonStream.cpp:106-145 | a malformed key opens an object document and stores no text |
| JsonKeys.WriteUnaddressable | src/lib/osCoreImpl/src/RapidJsonStream.cpp:106-124 | what an object with one such key leaves on a fresh stream |
| JsonKeys.KeyRoundTripsIff | src/lib/osCoreImpl/src/RapidJsonStream.cpp:106-124 | on a fresh stream an object with one string member comes back if and only if its key holds no slash and no tilde, or makes the pointer malformed |
| JsonKeys.SetIsGet | src/lib/osCoreImpl/src/RapidJsonStream.cpp:34-85 | a text or an int is stored exactly on a null or a value of its type, is then what is read, and otherwise nothing changes |
| JsonKeys.ExistsIffOpens | src/lib/osCoreImpl/src/RapidJsonStream.cpp:126-159 | a named key exists if and only if it opens; opening moves the cursor only then, and closing undoes it |
| JsonKeys.EmptyKeyExists | src/lib/osCoreImpl/src/RapidJsonStream.cpp:154-159 | the empty key exists wherever there is a value |
| JsonKeys.EmptyKeyOpensFirst | src/lib/osCoreImpl/src/RapidJsonStream.cpp:126-145 | but opens only the first member of an object that has one |
| JsonKeys.OpenAnyArray | src/lib/osCoreImpl/src/RapidJsonStream.cpp:277-300 | a key opens as an array if and only if it addresses one, at row 0, and leaves nothing open otherwise |
| JsonKeys.CreateAnyArray | src/lib/osCoreImpl/src/RapidJsonStream.cpp:242-275 | createArray with any key: an addressed array is opened, a null becomes one, any other value stays with its key left open although the call fails, and a member is added where nothing is addressed |
| JsonKeys.UnnamedArrayAtObject | src/lib/osCoreImpl/src/RapidJsonStream.cpp:242-275 | createArray without a key at an object makes no array: it opens the first member, or selects a row of the object to which none can be added |
| JsonKeys.RowsOpen | src/lib/osCoreImpl/src/RapidJsonStream.cpp:312-341 | in an array the rows below its size open, each on its value, and no other row up to the largest int does |
| JsonCursor.PointerFindsWalk | src/lib/osCoreImpl/src/RapidJsonStream.cpp:347-360 | where following the key list step by step ends at a node, the rendered pointer resolves to that node |
| JsonCursor.PushedKeyStraysIff | src/lib/osCoreImpl/src/RapidJsonStream.cpp:351-359 | opening a key at a value parts pointer and walk if and only if the value is an array and the key reads as the number of an element |
| JsonCursor.SelectedRowStraysIff | src/lib/osCoreImpl/src/RapidJsonStream.cpp:351-359 | selecting a row of a value parts them if and only if the value is an object with a member named by that number |
| JsonCursor.PointerIsWalkIff | src/lib/osCoreImpl/src/RapidJsonStream.cpp:343-360 | for any list of plain keys pointer and walk agree if and only if the pointer finds nothing or no step of the list is of these two kinds |
| JsonCursor.NumberedKeyEntersArray | src/lib/osCoreImpl/src/RapidJsonStream.cpp:353-356 | a key "0" on an array: no member, but the pointer finds the element |
| JsonCursor.NumberedRowEntersObject | src/lib/osCoreImpl/src/RapidJsonStream.cpp:353-356 | a row 3 of an object: no element, but the pointer finds the member "3" |
| XmlStream.RapidXmlStream.DoOpenOrCreate | src/lib/osCoreImpl/src/RapidXmlStream.cpp:251-267 | the first child of that name is opened, or a new one when asked to |
| XmlStream.RapidXmlStream.DoCloseKey | src/lib/osCoreImpl/src/RapidXmlStream.cpp:145-157 | the parent becomes current, and its parent when the former is an array |
| XmlStream.RapidXmlStream.DoCreateRow | src/lib/osCoreImpl/src/RapidXmlStream.cpp:178-191 | a row named after the array is appended to the array here or just above, and opened |
| XmlStream.RapidXmlStream.DoOpenRow | src/lib/osCoreImpl/src/RapidXmlStream.cpp:193-213 | the sibling loop ends at the row of that number, or puts the cursor back |
| XmlStream.RapidXmlStream.RowCount | src/lib/osCoreImpl/src/RapidXmlStream.cpp:224-232 | the sibling loop counts the rows of an array node, 0 elsewhere |
| XmlStream.RapidXmlStream.FindArray | src/lib/osCoreImpl/src/RapidXmlStream.cpp:269-278 | the array node the cursor is on or directly in |
| XmlStream.RapidXmlStream.KeyExists | src/lib/osCoreImpl/src/RapidXmlStream.cpp:121-126 | whether a child of exactly that name exists |
| XmlStream.RapidXmlStream.SetTextValue | src/lib/osCoreImpl/src/RapidXmlStream.cpp:241-249 | the text of the current node, and of no other, is replaced |
| XmlStream.RapidXmlStream.SetIntValue | src/lib/osCoreImpl/src/RapidXmlStream.cpp:61-65 | an int is stored as its decimal text |
| XmlTree.ArrayNameIff | src/lib/osCoreImpl/src/RapidXmlStream.cpp:280-291 | the search with rfind recognises exactly the names that end with the suffix, and cutting there gives back the key |
| XmlTree.ExistsIffOpens | src/lib/osCoreImpl/src/RapidXmlStream.cpp:106-126 | a key exists if and only if a child has exactly that name; a named key opens exactly then, at the first such child, the empty key wherever there is a child; failing moves nothing |
| XmlTree.CreateOpensOrAdds | src/lib/osCoreImpl/src/RapidXmlStream.cpp:251-267 | createKey opens what openKey would open and otherwise appends an empty child of that name and opens it |
| XmlTree.SetIsGet | src/lib/osCoreImpl/src/RapidXmlStream.cpp:53-91 | a stored text or number is what is read back, nothing else of the node changes, and no other node does |
| XmlTree.RowsOpen | src/lib/osCoreImpl/src/RapidXmlStream.cpp:178-213 | on an array or a row of it, a row opens exactly if there is one of that number, else nothing moves; a new row is the last, empty, and named like the array without the suffix |
| XmlTree.ClosesToNearest | src/lib/osCoreImpl/src/RapidXmlStream.cpp:145-157 | closing leads to the nearest node above that is no array by name, or to the document, where it fails |
| XmlTree.LeaveArray | src/lib/osCoreImpl/src/RapidXmlStream.cpp:145-157 | one closeKey leaves an array from the array node and from any row alike |
| XmlTree.WriteMakes | src/lib/osCoreImpl/src/RapidXmlStream.cpp:106-191 | writing a tree at an empty node stores its encoding there, changes nothing else, and restores the cursor |
| XmlTree.ReadBack | src/lib/osCoreImpl/src/RapidXmlStream.cpp:110-232 | reading at a stored encoding returns the tree and leaves the stream unchanged |
| XmlTree.RoundTrip | src/lib/osCoreImpl/src/RapidXmlStream.cpp:106-232 | a tree written to a fresh stream is read back |
| XmlTree.CloseReturnsIff | src/lib/osCoreImpl/src/RapidXmlStream.cpp:145-157 | creating or opening a key and closing it leads back if and only if the node around it is the document or no array by name |
| XmlTree.AnyKeyHoldsText | src/lib/osCoreImpl/src/RapidXmlStream.cpp:106-157 | a text under a new key of any name, array suffix or not, is stored and read back with the cursor restored |
| XmlTree.ObjectKeyReturnsIff | src/lib/osCoreImpl/src/RapidXmlStream.cpp:145-157 | an object with one text under a new key restores the cursor if and only if the key does not end with the suffix |
| Decimal.ReadIntText | src/lib/osCoreImpl/src/RapidXmlStream.cpp:53-65 | strtol reads back every printed 32-bit number |
| Decimal.ReadIntIs | src/lib/osCoreImpl/src/RapidXmlStream.cpp:53-59 | strtol on any text: blanks, a sign, digits up to the first other character, limited to 32 bits |
| TwoStreams.StreamsAgree | src/lib/osCore/include/osCore/Serialization/KeyStream.h:75-101 | one client, two streams: the same calls store any finite tree and give the same tree back on the JSON and on the XML stream, cursors restored |
| KeyTree.ConformsToSchema | src/lib/osCore/include/osCore/Serialization/KeyStream.h:75-101 | every tree can be read by a reader of its own schema |
| TwoStreams.EveryTreeAgrees | src/lib/osCore/include/osCore/Serialization/KeyStream.h:75-101 | any tree whose keys both formats can address is given back by both streams to a reader of its own schema |
| TwoStreams.SizeBeforeFirstRow | src/lib/osCoreImpl/src/RapidXmlStream.cpp:224-232 | the two sizes agree before the first row is opened and differ afterwards |
| FieldValue.GetFieldValue | src/exe/osLogViewer/src/logviewer.cpp:245-285 | the cursor is where it was on every path, and the result is that of opening the parts one after the other |
| FieldValue.FieldIffWalk | src/exe/osLogViewer/src/logviewer.cpp:245-285 | a value is returned exactly when the tokens of the pointer lead to something in the document, and it is the text of that |
| FieldValue.FieldOfKey | src/exe/osLogViewer/src/logviewer.cpp:245-285 | the same for every field key without a tilde |
| FieldValue.FieldAgainstWalk | src/exe/osLogViewer/src/logviewer.cpp:245-285 | against the walk that follows the keys step by step: its end is what is read, and where it breaks off something is read exactly if a step strays and the pointer leads on |
| FieldValue.TextIs | src/exe/osLogViewer/src/logviewer.cpp:265-282 | the text of each kind of value: a bool as 1 or 0, an unknown type as the default text, a value of another type as the default of the asked type |
| Imports.CppBase.LoadImportedDomainObjects | src/lib/osApplication/script/cppbase.py:259-291 | the recursion over the shared list visits and collects what the specification says, fails with it, and gives a module with import entries its own copy of the list back, one without the tag keeping the shared one |
| ImportClosure.RootVisitsReachable | src/lib/osApplication/script/cppbase.py:259-291 | for any finite graph, cycles included, loading ends; it fails exactly when a reachable file is missing, and otherwise visits the reachable files, all of them, each once |
| ImportClosure.RootCollectsNames | src/lib/osApplication/script/cppbase.py:259-291 | the imported names of the root are exactly those defined by the reachable files other than the root |
| ImportClosure.LastDefinitionWins | src/lib/osApplication/script/cppbase.py:282-288 | a name defined by several files has the fields of the one visited last |
| ImportClosure.LoadAddsReachable | src/lib/osApplication/script/cppbase.py:259-291 | whatever was visited before, a load fails exactly when a missing file is reachable from its entries around the visited files, and otherwise adds exactly the files so reachable |
| ImportClosure.ModuleCollectsIff | src/lib/osApplication/script/cppbase.py:276-288 | any module collects exactly the names of the files it reaches around the visited ones, so all names it reaches if and only if each is defined by such a file |
| ImportClosure.MissingIsReachable | src/lib/osApplication/script/cppbase.py:272-274 | the exception is raised only over a file that does not exist and is reachable around the visited ones |
| ImportClosure.SiblingIsSkipped | src/lib/osApplication/script/cppbase.py:276-279 | a module whose import was loaded by a sibling collects nothing from it |
| Messaging.WampccMessaging.SetStateConnected | src/lib/osDataImpl/src/WampccMessaging.cpp:363-378 | the connected step, with its notification |
| Messaging.WampccMessaging.SetStateDisconnected | src/lib/osDataImpl/src/WampccMessaging.cpp:384-404 | the disconnected step, with its notification |
| Messaging.WampccMessaging.EndCall | src/lib/osDataImpl/src/WampccMessaging.cpp:149-154 | the return of a call yields or drops its result |
| Messaging.StateTells | src/lib/osDataImpl/src/WampccMessaging.cpp:348-404 | over all legal interleavings isStateConnected is the last notification, and during a call the state tells whether the connection was lost since it began |
| Messaging.StateIs | src/lib/osDataImpl/src/WampccMessaging.cpp:348-404 | the exact state after any legal run, told from its steps: a call that throws, or returns after a loss, leaves a calling state behind that the next call takes over |
| Messaging.NotifiesAndAnswersEach | src/lib/osDataImpl/src/WampccMessaging.cpp:140-164 | every connection change is notified once, in order, and every call that is over has one reply |
| Messaging.NoStaleReply | src/lib/osDataImpl/src/WampccMessaging.cpp:140-164 | a returning call is answered exactly when the connection was not lost since it began, reconnected or not |
| Messaging.BeginKeepsIff | src/lib/osDataImpl/src/WampccMessaging.cpp:148 | beginning a call keeps isStateConnected equal to the last notification if and only if it was connected |
| Messaging.ThrowIsForgotten | src/lib/osDataImpl/src/WampccMessaging.cpp:155-158 | after a call that threw and any connection changes, the next call is answered exactly when the connection is not lost while it runs |
| LogBuffer.LogOutputDataExchange.Log | src/lib/osDataImpl/src/LogOutputDataExchange.cpp:62-74 | a message is pushed, or buffered when there is no connection or the push fails, which ends the connection |
| LogBuffer.LogOutputDataExchange.DoOnConnected | src/lib/osDataImpl/src/LogOutputDataExchange.cpp:82-91 | the flush loop over the buffer, which is then cleared |
| LogBuffer.FlushHandsOver | src/lib/osDataImpl/src/LogOutputDataExchange.cpp:85-89 | a flush hands over the messages before the first failing push, in order, and stays connected only if none fails |
| LogBuffer.ConservesIff | src/lib/osDataImpl/src/LogOutputDataExchange.cpp:62-91 | over any run accepted messages and buffer are the logged messages in order if and only if no push failed inside a flush; a connected output has an empty buffer between steps |
| LogBuffer.HoldsBack | src/lib/osDataImpl/src/LogOutputDataExchange.cpp:62-91 | after any run the output is connected exactly if its last flush was accepted throughout and neither a failed push nor a disconnection followed, and its buffer is exactly what was logged from then on |

## Left out

* Objects and lifetime: states are numbers in a table in creation order, so aliasing, `weak_ptr` expiry, `removeChild`,
  the destructor and `removeTransition` are not modelled; states outlive their machine.
* The transition multimap is a sequence in a fixed order; among several enabled transitions the first is taken.
* Guards depend on the value only and actions do not change the tree; an exception inside a transition is not modelled
  (the source itself leaves the rollback open at src/lib/osStateMachine/src/StateMachine.cpp:255).
* Whether a state carries the delegate is given with the state; the recursive propagation of `setTransitionDelegate` is not.
* Of a transition record only event, source and target; not time stamps, names of guards and actions, or log output.
* Giving a stopped machine another root; a restart starts the same root again.
* The task loop that carries events to the machine is the list of the raised ones; when it takes the next is not modelled.
* Time stamps are unbounded integers and the clock a parameter; the overflow of `now + delay` is not modelled.
* `waitForTask` as a call of its own, and the retry loop of a wait after a task that was popped (it has left the mutex).
* Leaves of type double and bool are in the JSON documents the log viewer reads, with the printing of a double as a
  parameter, but not in the trees that are stored; wide strings; documents as text: rapidjson, rapidxml and their printers.
* rapidjson and rapidxml are not part of this model: a lookup by name is taken to find the first member or child that has it.
* `firstKey`, `nextKey`, `resetArray` and `rewind` of the streams; row numbers are narrowed to 32 bits as in the source.
* The uri regular expression is a deterministic scanner for the same grammar; the replacement of backslashes by the
  constructor is not modelled.
* The import loader works on canonical names: the lookup relative to the last visited file, and `__loadDomainObjects`, are not modelled.
* The assertion of rapidjson that a pointer is valid: it is taken to be switched off, so that a malformed pointer, which has
  no tokens, stands for the document; with assertions on the program stops there.
* `m_lastTimeStamp`, which the consumers of a task queue share, is kept by each consumer: with one consumer that is the
  same, and the interleavings of several use only the local time of `pullTask`.
* Subscriptions, registrations and the retry thread of the WAMP messaging; one call at a time.
* Painting, widgets, processes, shared memory, files and all other operating system services.
- Paging.Push: needs a truncated page count other than 65535, for which the loop never ends; `Paging.LoopEndsIff` says exactly that.
- LogBuffer.LogOutputDataExchange.DoOnConnected: a push that fails inside the flush appends to the vector being iterated, which C++ leaves undefined when the vector grows; the model takes the iteration to go over the messages that were there at the start.
- JsonStream.RapidJsonStream.DoCreateRow: and DoOpenRow need at least one open key, since the source indexes the last one.
- XmlStream.RapidXmlStream.GetIntValue: reads a long of 32 bits, as on Windows.
