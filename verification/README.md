# A verified model of the `bac` back end

`bac` is a sea-of-nodes compiler back end; `odinc` is the front end that drives it. This project models the parts
whose correctness is not visible in any single procedure, and proves what they are for:

- **Global code motion**: the dominator tree computed from least common ancestors with a depth cache that is
  invalidated by raising a floor, early and late placement of floating nodes, and memory antidependences
  (`ControlGraph`, `Dominators`, `CodeMotion`, `LatePlacement`, `LateWorklist`).
- **The graph store**: the mutable def-use graph with hash-consing, cascading deletion, recursive replacement of
  nodes, the table that is searched sixteen bytes at a time, and compaction (`GraphNodes`, `GraphEdits`, `Interning`,
  `Subsumption`, `Congruence`, `GraphStore`, `SelfDeletion`, `MergeCycle`, `ChunkSearch`, `ChunkedTable`,
  `Compaction`).
- **The inline order**: strongly connected components of the call graph and the order that visits callees first
  (`CallGraph`, `Components`, `InlineOrder`).
- **Structured control flow**: making the intervals of jumps nest properly (`BlockNesting`).
- **Conditional constant propagation**: the lattice and its worklist fixpoint (`Lattices`, `Propagation`).
- **Lowering**: narrow arithmetic, guarded shifts, remainders and 64-bit constants for 64-bit Arm, and 64-bit
  addresses in 32-bit halves (`MachineInts`, `Expressions`, `ArmLowering`, `ArmConstants`, `SplitAddress`).
- **Debug lines**: LEB128 and the DWARF line program (`Leb128`, `LineProgram`).

Procedures that update state are classes and methods whose contracts tie the new state to the old one; pure procedures
are functions with lemmas; `Basics` holds what several parts share. Node ids are natural numbers with 0 for nil, a
dead node is one that is absent from the node map. Integers are unbounded except where a width matters, and there the
wrap-around is written out.

## What is proved

- Following immediate dominators from a node visits exactly the nodes on every path from the entry to it, for every
  graph whose forward edges are acyclic and whose back edges return to a dominator (`IdomChainIsExact`); the depth
  labelling that steers the search (a Region is one more than its deepest input, so it is not tree depth but the
  length of a longest walk, `DepthIsLongestWalk`) still ends at the nearest common dominator
  (`LcaIsNearestCommonDominator`), and every cached depth equals the floor plus the pure depth through any
  interleaving of queries and invalidations (`DominatorCache`).
- If some legal placement exists, the computed one is legal: early block dominates final block, final block dominates
  every use (`FullScheduleIsLegal`, `ScheduleRespectsDominance`), and no load is moved across a store, call or Phi
  edge that consumes its memory version (`Scheduler.Valid`, kept by every placement). The worklist takes up only nodes
  that are not placed, runs empty, and leaves nothing unplaced, if no nodes wait for each other in a circle and
  everything is called for from the end of the procedure; `LateWorklist.Schedule` runs both early passes and the
  worklist from nothing. Every node that is free to move ends up in the best block it could have: of all blocks between
  its early block and its uses, and for a load above the consumers of its memory that were met, one in the shallowest
  loop, and of those the lowest (`LatePlacement.AllSettled`).
- Every edit of the graph keeps each node's output records exactly its uses plus pins, whatever state the table of
  interned nodes is in (`Graph.Sound`; only replacing asks for an exact table); a deletion removes the least set of
  nodes closed under losing the last use.
- Replacing a node, on any graph, terminates; unless merges come round (below), it keeps all of that, keeps one table
  entry per content, and preserves the meaning of every surviving node under any assignment of values that respects
  the interned operations. Besides the target only interned nodes that had become equal to another one are merged
  (`Merged`). Nothing goes but merged nodes and what loses its last use by that, and no pinned node unless it is
  merged (`OnlyLost`). Seen from outside: a pinned node stays if no other node shares its value, and what goes lies in
  every set that holds the nodes sharing values and is closed under losing the last use (`Bounded`); so nodes other
  than the two that are not interned stay if they are pinned or not used at all (`Congruence.UninternedOutlives`).
- The chunked table refines a plain scan; compaction is an isomorphism and leaves no gaps; the lattice pass ends in
  the greatest fixpoint.
- Block nesting is laminar, and no interval opens earlier than it has to: any other choice of openings, none behind
  the given ones, under which the kept intervals nest, opens none of them later (`BlockNesting.LatestChoice`).
- Lowering preserves meaning, ends, and stops exactly when nothing is left that the instruction set lacks
  (`ArmLowering.FinishedIsLowered`); an address is split exactly if it is of a form that can be
  (`SplitAddress.SplitAccepts`), and the halves make up its value.
- The line program, once the linker has filled in the addresses where the recorded relocations say, reads back to the
  rows it was written for, each procedure's at its own address (`LineProgram.ProgramReadsBack`).

Three claims one might expect turned out false of the code. The model keeps the code; each claim has an input at which
it fails, and a condition that can be checked beforehand. For the first and the third the condition is exact; for the
second it is sufficient.

- `set_input` keeps the table of interned nodes exact. It does not when it deletes its own node through a dying cycle:
  the node is then looked up under its *new* content. `Graph.SetInput` states that no entry outlives its node if and
  only if not both of these hold of the graph before the call: the node is among those that go when it lets go of its
  old value (`DiesInChange`: the old value loses its last use, and every set closed under losing the last use that
  holds the old value holds the node), and it is interned with an old content that hashes differently from the new one
  (`StaysStale`). `SelfDeletion.LeavesStaleEntry` calls it on a graph of four nodes where both hold. The equivalence
  supposes that the two contents hash differently, or that neither the node nor any node that already has the new
  content goes in the change (`ApartOrLasting`). Without that, a search for a node that goes can meet the entry of the
  other; whether it does depends on which of the two stands first in the table, and `SelfDeletion.LeavesHiddenEntry`
  walks through a change where it does and an entry is left behind.
- `subsume` can be called for any two nodes of equal meaning. It cannot: merges can come round, along a cycle of
  interned nodes, to a node that an unfinished outer call has pinned. `MergeCycle.MergesComeRound` walks through four
  nested calls on a graph of nine nodes with exact outputs and an exact table; the last call deletes the node that the
  second call has pinned and is about to unpin. `Graph.Replace` models the call on all graphs. It fails only where a
  call finds that its replacement was merged into another node by a call nested in it (`Graph.Release`, exactly then),
  and it does not fail if `with` does not depend on the target and no critical node depends on itself, where all
  dependence is along nodes that may be merged, and a node is critical if merging it with one partner leaves it
  another (`MayReplace`). Which nodes may become equal is given by the least congruence that identifies the two. What
  a caller can check: interned nodes form no cycle and none leads from `with` down to the target
  (`Congruence.AcyclicSuffices`); or no interned node has two partners under some consistent meaning
  (`Congruence.PairsSuffice`, the case of two loop Phis that turn out equal, where cycles do no harm); or the
  condition itself under any consistent meaning (`Congruence.AnyMeaningSuffices`). On the failing graph it is false
  under all of them (`MergeCycle.GraphIsNotSeparable`). It is not proved to be necessary: whether the merges go all
  the way round also depends on the order of output records and of table entries.
- A remainder lowered to multiply-subtract is right if and only if the divisor is not zero or the dividend is zero
  (`ArmLowering.RemPreserves`): a division by zero gives 0 at both levels, a remainder by zero does not.

## Model

| member | source | states |
|---|---|---|
| `Dominators.IdomChainIsExact` | bac/gcm.odin:41-70 | the immediate-dominator chain of n holds d exactly when every walk from the entry to n passes d |
| `Dominators.ChainDominates` | bac/gcm.odin:41-70 | each walk from the entry to n visits the whole chain |
| `Dominators.AvoidingWalk` | bac/gcm.odin:41-70 | for a node outside the chain there is a walk that avoids it |
| `Dominators.LcaIsMeet` | bac/gcm.odin:28-38 | the chain of the least common ancestor is the intersection of the two chains |
| `Dominators.LcaIsNearestCommonDominator` | bac/gcm.odin:28-38 | it dominates both nodes and is dominated by every node that does |
| `Dominators.IdomShallower` | bac/gcm.odin:73-111 | the depth labelling strictly decreases along immediate dominators, also at Regions |
| `Dominators.DepthIsLongestWalk` | bac/gcm.odin:73-111 | and is the number of nodes on a longest walk from the entry that takes no back edge |
| `Dominators.DominatorCache.ComputeLca` | bac/gcm.odin:28-38 | the loop over two moving nodes terminates at the least common ancestor, reading depths through the cache |
| `Dominators.DominatorCache.GetIdom` | bac/gcm.odin:41-70 | returns the immediate dominator, nil for the entry |
| `Dominators.DominatorCache.LcaOfInputs` | bac/gcm.odin:58-66 | folds the common ancestor over the inputs of a Region |
| `Dominators.DominatorCache.GetIdepth` | bac/gcm.odin:73-111 | returns the floor plus the pure depth and keeps every trusted cache entry correct |
| `Dominators.DominatorCache.MaxInputIdepth` | bac/gcm.odin:99-104 | the greatest depth among the inputs of a Region |
| `Dominators.DominatorCache.InvalidateIdepth` | bac/graph.odin:552-554 | raising the floor to the greatest depth makes every cached depth stale, so the graph may change arbitrarily |
| `CodeMotion.EarlyAbovePlacement` | bac/gcm.odin:366-416 | in any legal placement each node sits below its early block |
| `CodeMotion.EarlyAboveUserEarly` | bac/gcm.odin:393-416 | the early block of an input lies above the early block of its user |
| `CodeMotion.EarlyAboveUse` | bac/gcm.odin:477-499 | the early block of a node lies above every block that uses it, taking the edge block for a Phi |
| `CodeMotion.EarlyIsHighest` | bac/gcm.odin:393-416 | and is the highest block at which all that the node reads is available |
| `CodeMotion.EdgeBlockIsLeft` | bac/gcm.odin:492-496 | control that enters the block of a Phi along the edge of one of its inputs has just left the block in which the Phi reads it |
| `CodeMotion.PlacingKeepsLateOk` | bac/gcm.odin:430-525 | placing a node below its early block and above all its placed uses keeps the partial schedule legal |
| `CodeMotion.FullScheduleIsLegal` | bac/gcm.odin:365-525 | once every node is placed the schedule is legal, provided some legal one exists |
| `CodeMotion.ScheduleRespectsDominance` | bac/gcm.odin:365-525 | in terms of paths: early block dominates final block, final block dominates every use |
| `LatePlacement.OnPathIsMet` | bac/gcm.odin:615-633 | every block on a back-edge-free path from the early block down to the candidate is met by the backward walk |
| `LatePlacement.PulledUpIsClear` | bac/gcm.odin:635-660 | above all consumers the walk met, no earlier block of any such path holds a consumer |
| `LatePlacement.FinalBlockIsClear` | bac/gcm.odin:501-520 | hoisting further after the pull-up stays clear of consumers, and a store in the final block is recorded |
| `LatePlacement.LoadsStayClear` | bac/gcm.odin:601-678 | placing one more node keeps all loads clear |
| `LatePlacement.Scheduler.AttachEarly` | bac/gcm.odin:365-374 | nodes with a control input get it as early block |
| `LatePlacement.Scheduler.SchedEarly` | bac/gcm.odin:393-416 | fills in the early block: the deepest early block of the inputs |
| `LatePlacement.Scheduler.DeepestInput` | bac/gcm.odin:401-411 | the loop that picks the deepest one |
| `LatePlacement.Scheduler.IsReady` | bac/gcm.odin:452-475 | decides exactly whether all users, and for a load all non-load users of its memory, are placed |
| `LatePlacement.Scheduler.LcaOfUses` | bac/gcm.odin:477-499 | the common ancestor of all uses is the lowest node above them and lies below the early block |
| `LatePlacement.Scheduler.MarkBackward` | bac/gcm.odin:615-633 | marks exactly the control nodes that reach the candidate backwards without passing the early block |
| `LatePlacement.Scheduler.PullAboveRivals` | bac/gcm.odin:635-660 | ends in the lowest node above every marked consumer, and not above the early block |
| `LatePlacement.Scheduler.RecordAntideps` | bac/gcm.odin:662-675 | records the load at each store of its memory version in the block, once for each time the store takes it, and nowhere else |
| `LatePlacement.Scheduler.AddMemAntideps` | bac/gcm.odin:601-678 | marking, pulling up and recording together; marks overwrite control slots only |
| `LatePlacement.Scheduler.ClimbToBlock` | bac/gcm.odin:503-506 | climbs to the start of the basic block |
| `LatePlacement.Scheduler.Hoist` | bac/gcm.odin:508-521 | picks a block of least loop depth between candidate and early block |
| `LatePlacement.Scheduler.Better` | bac/gcm.odin:580-599 | prefers the next block exactly when it starts a block and lies in a shallower loop; the comparison of depths never decides |
| `LatePlacement.Scheduler.ChooseBlock` | bac/gcm.odin:477-521 | of all blocks between the early block and the uses, for a load above the consumers met, one in the shallowest loop, and of those the lowest |
| `LatePlacement.HoistedIsBest` | bac/gcm.odin:501-521 | the block found on the way up is the best of all candidates, wherever they lie |
| `LatePlacement.SettledStays` | bac/gcm.odin:430-525 | which block is the best for a placed node, and which stores are recorded with it, does not change when others are placed |
| `LatePlacement.Scheduler.Place` | bac/gcm.odin:430-525 | placing a ready node keeps the schedule legal, all loads clear and every placed node in its best block, and moves no other node |
| `LatePlacement.Scheduler.ScheduleLate` | bac/gcm.odin:418-525 | whatever order nodes are offered in, loads stay clear, and if all get placed the result is legal |
| `LatePlacement.ReadyMeetsAssertion` | bac/gcm.odin:664-669 | the assertion made while dependences are recorded holds for every ready load |
| `LatePlacement.LoadStoreFailsAssertion` | bac/gcm.odin:664-669 | and fails for a node that both loads and stores, on its own account |
| `LateWorklist.Schedule` | bac/gcm.odin:365-578 | early and late scheduling from nothing: every node placed, schedule legal, loads clear of the consumers of their memory, every free node in its best block |
| `LateWorklist.ScheduleEarly` | bac/gcm.odin:365-391 | both passes fill in what is read next to a control node or by it, and whatever that reads |
| `LateWorklist.EarlyIsKnown` | bac/gcm.odin:376-391 | if everything is called for, that is every data node |
| `LatePlacement.Scheduler.FillEarly` | bac/gcm.odin:376-391 | the data inputs of every control node and of whatever reads one are filled in, and those they read before them |
| `LateWorklist.ScheduleAll` | bac/gcm.odin:418-578 | the worklist runs empty, what it takes up is never placed yet, and in the end every node is placed and the schedule is legal |
| `LateWorklist.PlaceNext` | bac/gcm.odin:430-578 | placing a node forgets none of those it makes ready or calls for, queues exactly what follows it, and finds no dependence recorded at it yet |
| `LateWorklist.SkipNext` | bac/gcm.odin:463-475 | putting a node off in favour of its users, and of them only, brings the run closer to its end |
| `LateWorklist.Follow` | bac/gcm.odin:526-578 | queues the unplaced inputs, users of a loop, and loads of a memory version made or taken, and nothing else |
| `LateWorklist.CalledFollows` | bac/gcm.odin:526-578 | among them everything that the node calls for |
| `LateWorklist.NoneForgottenOnPlacing` | bac/gcm.odin:526-578 | what has become ready was waiting for the placed node, which calls for it |
| `LateWorklist.EventuallyPlaced` | bac/gcm.odin:428-578 | with the queue empty nothing is left unplaced |
| `LateWorklist.WaitingCircleStays` | bac/gcm.odin:454-473 | nodes that wait for each other in a circle, as users or as consumers of memory, are never placed, however nodes are offered |
| `Components.CloseComponent` | odinc/gen.odin:652-661 | closing a component at its root keeps the whole invariant of the search |
| `Components.ComponentMutual` | odinc/gen.odin:652-661 | everything above the mark is mutually reachable with the root |
| `Components.ComponentCannotReach` | odinc/gen.odin:652-661 | nothing in the closed component reaches below the mark |
| `Components.LeaveOnStack` | odinc/gen.odin:637-662 | a procedure that reaches below itself stays on the stack and still reaches an unfinished one |
| `Components.Search.StrongConnect` | odinc/gen.odin:629-662 | explores one procedure, keeping the invariant and terminating although it recurses through cycles |
| `Components.Search.LookAtCall` | odinc/gen.odin:637-650 | one call: the lowlink stays a bound on how far down the stack the procedure reaches |
| `Components.Search.CloseFrom` | odinc/gen.odin:652-661 | assigns the component id to the whole top of the stack |
| `Components.Search.FindComponents` | odinc/gen.odin:621-627 | same component exactly when mutually reachable, components numbered callees first |
| `InlineOrder.Transpose` | odinc/gen.odin:588-608 | lists for each callee its callers, one per call |
| `InlineOrder.CountReferences` | odinc/gen.odin:664-672 | counts, per component, the references from other components |
| `InlineOrder.DropReference` | odinc/gen.odin:684-691 | intra-component edges are dropped too, yet no component is listed twice or too early |
| `InlineOrder.AllOrdered` | odinc/gen.odin:674-692 | every component is reached by the count-down |
| `InlineOrder.OrderComponents` | odinc/gen.odin:664-692 | each component once, callees before callers |
| `InlineOrder.ComputeInlineOrder` | odinc/gen.odin:588-692 | component ids and order together: equal id iff mutually reachable, order complete, duplicate-free and callee-first |
| `GraphNodes.CascadeIsLeast` | bac/graph.odin:2015-2062 | a deletion removes nothing outside any set closed under losing the last use |
| `GraphNodes.CascadeIsClosed` | bac/graph.odin:2015-2062 | and what it removes is closed itself |
| `GraphNodes.CascadeIsDoomed` | bac/graph.odin:2015-2062 | so a node goes exactly if every such set that holds the first node holds it |
| `GraphNodes.PruningKeepsDefUse` | bac/graph.odin:2015-2062 | removing such a set keeps outputs exact and inputs live |
| `GraphNodes.LetGoStep` | bac/graph.odin:2029-2034 | letting go of one input of a dying node, including the deletions that causes |
| `GraphEdits.NewNodeKeepsDefUse` | bac/graph.odin:2222-2237 | registering a new node with its inputs keeps outputs exact |
| `GraphEdits.ConnectKeepsDefUse` | bac/graph.odin:2292-2327 | appending an input keeps outputs exact |
| `GraphEdits.SwitchKeepsDefUse` | bac/graph.odin:1894-1926 | switching an input and dropping the old record keeps outputs exact |
| `GraphEdits.SwapKeepsDefUse` | bac/graph.odin:2266-2289 | rewriting both records one after the other keeps outputs exact, even if both inputs read the same node |
| `Interning.UninternDrops` | bac/graph.odin:1750-1767 | after removal the node has no entry and all other entries stay right |
| `Interning.InternKeeps` | bac/graph.odin:1690-1710 | interning returns a node of equal content; the table stays free of equal entries |
| `Interning.HitIsOwn` | bac/graph.odin:1661-1687 | a search for a listed node finds its own entry |
| `Interning.TableSurvives` | bac/graph.odin:1690-1767 | the table does not depend on outputs, on unlisted nodes or on nodes going away |
| `Interning.UninternPurges` | bac/graph.odin:1750-1767 | exactly which entries a deletion removes when an entry may be out of date |
| `GraphStore.Graph.AddRaw` | bac/graph.odin:2173-2246 | returns the existing equal node and changes nothing, or adds a node whose content is then unique |
| `GraphStore.Graph.Claim` | bac/graph.odin:2187-2233 | the slot is given back if an equal node exists |
| `GraphStore.Graph.Connect` | bac/graph.odin:2292-2327 | the whole new graph after appending an input; connecting nil pins |
| `GraphStore.Graph.SwapInputs` | bac/graph.odin:2266-2289 | the whole new graph after exchanging two inputs, invariant kept |
| `GraphStore.Graph.SetInput` | bac/graph.odin:1894-1926 | the new graph, outputs exact whatever the table; the node itself dies exactly if the graph before says so; from an exact table, an entry is left behind exactly if it dies and its contents hash apart |
| `GraphStore.Graph.SetInputMerging` | bac/graph.odin:1894-1926 | with `subsume_on_intern`: the equal node that interning finds takes the place of the changed one, meaning and invariant kept, unless merges come round; exactly when an entry is left behind; whether it is safe is asked of the graph before the call |
| `GraphStore.Graph.ChangeInput` | bac/graph.odin:1908-1911 | adding the new record, writing the input, and dropping the old record with whatever that deletes |
| `GraphStore.Graph.PutBack` | bac/graph.odin:1913-1922 | if the node is still alive: out of the table under its old content, back in under the new one |
| `GraphStore.SettledDies` | bac/graph.odin:1908-1913 | which nodes are left, and with which contents, is given by the graph before the call; the changed node is gone exactly if the old value loses its last use and dooms it |
| `GraphStore.LeavingIsClosed` | bac/graph.odin:1908-1911 | what goes in the change is closed under losing the last use |
| `GraphStore.ReinternOk` | bac/graph.odin:1914-1916 | afterwards the table is exact, up to the node itself if an equal one was found |
| `SelfDeletion.LoopIsGood` | bac/graph.odin:1894-1926 | a graph of four nodes with exact outputs and an exact table |
| `SelfDeletion.LoopDies` | bac/graph.odin:1908-1911 | on which changing one input kills the changed node |
| `SelfDeletion.LeavesStaleEntry` | bac/graph.odin:1908-1925 | the call leaves an entry of a dead node behind |
| `SelfDeletion.ChainIsGood` | bac/graph.odin:1894-1926 | another graph and table, all contents hashing alike |
| `SelfDeletion.ChainDies` | bac/graph.odin:1908-1911 | on which changing one input kills a node whose content the changed node then has |
| `SelfDeletion.CollisionLeavesEntry` | bac/graph.odin:1750-1767 | so that taking the dying node out of the table does nothing |
| `SelfDeletion.CutLoose` | bac/graph.odin:1908-1911 | the change up to there: one node after the other loses its last use |
| `SelfDeletion.LeavesHiddenEntry` | bac/graph.odin:1908-1922 | and to its end: the node is gone and its entry is left behind |
| `GraphStore.Graph.Reintern` | bac/graph.odin:1912-1923 | taking the node out under its old content and putting it back under the new one makes the table exact |
| `GraphStore.Graph.RemoveOutput` | bac/graph.odin:1953-1972 | drops one record and deletes the node if that was its last |
| `GraphStore.Graph.DeleteNode` | bac/graph.odin:2015-2062 | the least cascade, outputs exact, entries of the dead gone, also in the middle of other deletions |
| `GraphStore.Graph.ReleaseInput` | bac/graph.odin:2029-2034 | one round of the deletion loop |
| `GraphStore.Graph.Pin` | bac/graph.odin:627-630 | adds a pin and nothing else |
| `GraphStore.Graph.Unpin` | bac/graph.odin:632-635 | removes a pin and whatever lived by it |
| `GraphStore.Graph.Delete` | bac/graph.odin:2015-2062 | an outermost deletion keeps the full invariant |
| `GraphStore.Graph.Replace` | bac/graph.odin:1776-1874 | on any graph: either merges come round, or the target dies, its surviving uses read the replacement, only merged nodes and what loses its last use by that go, every consistent meaning that agrees on the two is kept, outputs and table stay exact; under `MayReplace` it does not fail |
| `GraphStore.Graph.ReplacePending` | bac/graph.odin:1776-1874 | the same while nodes are missing from the table |
| `GraphStore.Graph.MergeAway` | bac/graph.odin:1916-1918 | replaces a node that interning found an equal of |
| `GraphStore.Graph.Subsume` | bac/graph.odin:1809-1874 | the recursive procedure on any graph: each call kills a node, so it ends; it gives up only if a replacement under way was merged away, and where there are ranks it does not |
| `GraphStore.Graph.Release` | bac/graph.odin:1873 | letting go of the replacement fails exactly if a nested call has merged it into another node |
| `GraphStore.Graph.RedirectUses` | bac/graph.odin:1835-1846 | the users are taken out of the table and made to read the replacement |
| `GraphStore.Graph.RemoveTarget` | bac/graph.odin:1835-1850 | redirecting, pinning and deleting the target |
| `GraphStore.Graph.StillRecorded` | bac/graph.odin:1852-1865 | keeps exactly the records the replacement still holds |
| `GraphStore.Graph.MergeUsers` | bac/graph.odin:1867-1871 | afterwards every surviving interned user is in the table again or merged |
| `GraphStore.Graph.MergeInto` | bac/graph.odin:1867-1871 | one nested replacement |
| `Subsumption.RedirectKeepsDefUse` | bac/graph.odin:1835-1846 | moving all records to the replacement keeps outputs exact |
| `Subsumption.RedirectKeepsMeaning` | bac/graph.odin:1835-1846 | values stay consistent |
| `Subsumption.RedirectKeepsRanks` | bac/graph.odin:1835-1846 | and no cycle of critical nodes appears |
| `Subsumption.EqualsAreReplaceable` | bac/graph.odin:1867-1871 | two equal interned nodes meet the demands of a nested replacement |
| `Subsumption.WentNested` | bac/graph.odin:1867-1871 | a nested replacement composes with the outer one: graph, table, meaning, what is merged and what is lost |
| `Subsumption.ClimbedNested` | bac/graph.odin:1867-1871 | and so do ranks, and the nodes out of reach of merging |
| `Subsumption.WithFollows` | bac/graph.odin:1867-1873 | a replacement that a nested call took away was merged by it |
| `Subsumption.WithSurvives` | bac/graph.odin:1848-1873 | the pinned replacement outlives every nested merge, so it can be unpinned |
| `Subsumption.SeparableIsReplaceable` | bac/graph.odin:1776-1874 | if no critical node depends on itself and the replacement does not depend on the target, suitable ranks exist |
| `Subsumption.WithStaysSafe` | bac/graph.odin:1848-1873 | as long as an outer call runs, no nested merge can touch its replacement |
| `Subsumption.TargetLost` | bac/graph.odin:1835-1850 | removing the target takes only what loses its last use by that, and no pinned node |
| `Subsumption.ReplacementLost` | bac/graph.odin:1873 | so does letting go of the replacement |
| `Subsumption.OnlyLostTrans` | bac/graph.odin:1867-1871 | and so do nested replacements one after the other |
| `Subsumption.LostLater` | bac/graph.odin:1867-1871 | a node that outlives one of them and loses its last use afterwards lies in every set that is closed from the start |
| `Subsumption.MergedTrans` | bac/graph.odin:1867-1871 | what is merged, by whichever call, had become equal to what takes its place |
| `Subsumption.OnlyLostIsBounded` | bac/graph.odin:1776-1874 | which nodes stay, without regard to which were merged |
| `Congruence.UninternedIsAlone` | bac/graph.odin:1867-1871 | nodes that are not interned are never merged, but for the two |
| `Congruence.UninternedOutlives` | bac/graph.odin:1776-1874 | so they outlive a replacement if they are pinned or not used at all |
| `Congruence.GoneLiesWithin` | bac/graph.odin:1776-1874 | and what goes lies in every set that holds the two and the interned nodes and is closed under losing the last use |
| `Congruence.MayReplaceByContents` | bac/graph.odin:1776-1874 | whether a node may be replaced is a matter of contents only |
| `Congruence.ClassesAreConsistent` | bac/graph.odin:1867-1871 | the classes of the least congruence that identifies two nodes are a meaning under which the two agree |
| `Congruence.CongruentMeanTheSame` | bac/graph.odin:1867-1871 | and every such meaning agrees on congruent nodes, so merging can identify congruent nodes only |
| `Congruence.AnyMeaningSuffices` | bac/graph.odin:1776-1874 | the demand on replacing holds as soon as it holds under some such meaning |
| `Congruence.AcyclicSuffices` | bac/graph.odin:1776-1874 | without cycles of interned nodes it is enough that the replacement does not lead down to the target |
| `Congruence.PairsSuffice` | bac/graph.odin:1776-1874 | if no interned node has two partners, cycles do no harm |
| `Subsumption.FormerUseReadsReplacement` | bac/graph.odin:1776-1874 | every surviving former use of the target reads the replacement |
| `MergeCycle.GraphIsGood` | bac/graph.odin:1776-1874 | a graph of nine nodes with exact outputs and an exact table |
| `MergeCycle.FirstTakes` | bac/graph.odin:1809-1874 | replacing the target makes one loop value equal to a second one |
| `MergeCycle.SecondTakes` | bac/graph.odin:1809-1874 | merging these makes one sum equal to another |
| `MergeCycle.ThirdTakes` | bac/graph.odin:1809-1874 | merging those makes the second loop value equal to a third one |
| `MergeCycle.OnlyTargetDies` | bac/graph.odin:1835-1850 | each of these steps deletes nothing but its target |
| `MergeCycle.PicksEqual` | bac/graph.odin:1690-1710 | interning a node missing from the table finds the one listed equal |
| `MergeCycle.MergeOnce` | bac/graph.odin:1835-1871 | one step: redirecting, pinning, deleting, and the search for the former user |
| `MergeCycle.MergesComeRound` | bac/graph.odin:1809-1874 | the fourth nested call deletes a node that the second one has pinned and will unpin |
| `MergeCycle.GraphIsNotSeparable` | bac/graph.odin:1776-1874 | on that graph the demanded condition fails under every consistent meaning |
| `MergeCycle.GraphMayNotReplace` | bac/graph.odin:1776-1874 | and so does the weakest form of it |
| `ChunkSearch.ClearLowest` | bac/graph.odin:1645-1647 | `mask & (mask - 1)` clears the lowest set bit and no other |
| `ChunkSearch.ClearHighest` | bac/graph.odin:1616-1623 | masking with the shifted ones clears the highest set bit and no other |
| `ChunkSearch.ChunkIter.Next` | bac/graph.odin:1640-1659 | returns the first match not returned yet, or says there is none |
| `ChunkSearch.ChunkIter.NextRev` | bac/graph.odin:1613-1638 | returns the last match not returned yet, or says there is none |
| `ChunkSearch.AllMatches` | bac/graph.odin:1640-1659 | a full run yields every match once, in increasing order |
| `ChunkSearch.AllMatchesRev` | bac/graph.odin:1613-1638 | backwards, in decreasing order |
| `ChunkedTable.NodeHash` | bac/graph.odin:1975-2007 | a byte that is never zero |
| `ChunkedTable.ScrambleLosesNothing` | bac/graph.odin:1990-2002 | the scrambling before the cut to a byte can be undone |
| `ChunkedTable.OneInputTells` | bac/graph.odin:1982-1988 | the scrambled sum differs for contents that differ in one input |
| `ChunkedTable.OneWordTells` | bac/graph.odin:1982-1988 | and for contents that differ in one word of payload |
| `ChunkedTable.HashIsByte` | bac/graph.odin:1975-2007 | so the tables that use it never store a zero |
| `ChunkedTable.SearchTable.FindEntry` | bac/graph.odin:1661-1687 | finds what a plain scan of the entries finds, although it searches the empty tail too |
| `ChunkedTable.SearchTable.Grow` | bac/graph.odin:1717-1748 | keeps the entries, zeroes the tail, keeps the capacity a multiple of sixteen |
| `ChunkedTable.SearchTable.InternNode` | bac/graph.odin:1690-1710 | does to the entries what interning does to the abstract table |
| `ChunkedTable.SearchTable.Unintern` | bac/graph.odin:1750-1767 | does to the entries what uninterning does, and empties the freed slot |
| `Compaction.Procedure.CollectNodes` | bac/graph.odin:1303-1355 | lists nil and every reachable node once, breadth first, and numbers them by position |
| `Compaction.Procedure.CloneNodes` | bac/graph.odin:827-846 | copies to fresh increasing places, one right behind the other |
| `Compaction.Procedure.RelinkNode` | bac/graph.odin:859-882 | projects inputs and outputs of one copy and lists it if interned |
| `Compaction.Procedure.Compact` | bac/graph.odin:802-911 | the result is isomorphic to the reachable part, pinned nodes and table included, placed and numbered breadth first without gaps, with the invariant |
| `Compaction.CopyIsExact` | bac/graph.odin:827-874 | each copy has kind, payload, inputs and records of the original, position by position |
| `Compaction.BreadthStep` | bac/graph.odin:1303-1355 | what is found is listed in the order of the nodes that lead to it |
| `Compaction.PackedIsGapless` | bac/graph.odin:827-846 | each copy but the last is followed by another |
| `Compaction.IsomorphicKeepsDefUse` | bac/graph.odin:859-874 | the isomorphic graph has exact outputs |
| `Compaction.IsomorphicKeepsTable` | bac/graph.odin:875-884 | listing each interned copy once gives a table without equal entries |
| `BlockNesting.PopKeepsGood` | bac/codegen.odin:1296-1301 | finishing the top interval, moved left, nests it with all others |
| `BlockNesting.CloseKeepsTight` | bac/codegen.odin:1296-1301 | once the top opens earlier, so do all open intervals, in any nested choice of openings |
| `BlockNesting.PopKeepsTight` | bac/codegen.odin:1296-1301 | an interval finished here opens no earlier than in any nested choice |
| `BlockNesting.GroupPrepends` | bac/codegen.odin:1313-1319 | a wider interval becomes the head of the chain |
| `BlockNesting.GroupInserts` | bac/codegen.odin:1319-1325 | a narrower one goes behind the head, and the chain visits all members |
| `BlockNesting.Nesting.CloseOpen` | bac/codegen.odin:1296-1301 | finishes exactly the open intervals on top that open here or later; no choice opens the others here |
| `BlockNesting.Nesting.GatherGroup` | bac/codegen.odin:1303-1326 | one chain of exactly the forward intervals that close here, the widest first, and the loop if any |
| `BlockNesting.Nesting.PlaceGroup` | bac/codegen.odin:1327-1351 | opens the wider one first and directs all members' jumps |
| `BlockNesting.Nesting.Direct` | bac/codegen.odin:1340-1349 | the walk along the chain ends and directs every member to the head |
| `BlockNesting.Nesting.Nest` | bac/codegen.odin:1290-1373 | stack empty, ends kept, starts moved left and no further than nesting demands, kept intervals nested or disjoint, chains complete, every jump directed to the head of its chain or of that of a jump with the same origin |
| `BlockNesting.KeptAreLaminar` | bac/codegen.odin:1354-1371 | the source's own final assertion, and opening positions in reverse order |
| `BlockNesting.FinalIsLatest` | bac/codegen.odin:1290-1373 | the openings are the latest of all choices, at or left of the given ones, under which the kept intervals nest |
| `BlockNesting.UncrossedStays` | bac/codegen.odin:1296-1301 | so an interval that none crosses opens where it was given to |
| `BlockNesting.JumpLeavesEnclosing` | bac/codegen.odin:1340-1349 | each jump leaves a kept interval that closes at its target and encloses it; of jumps with one origin this holds for one |
| `BlockNesting.MarksGrow` | bac/codegen.odin:1340-1349 | directing a chain to its head takes over the origins it shares with earlier chains, and no block that no jump starts from is directed |
| `Lattices.MeetLaws` | bac/sccp.odin:40-71 | meet is commutative and idempotent on normal values |
| `Lattices.MeetAssociates` | bac/sccp.odin:40-71 | meet is associative |
| `Lattices.JoinIsCommon` | bac/sccp.odin:103-140 | what the detour over duals computes |
| `Lattices.JoinLaws` | bac/sccp.odin:103-140 | join is commutative and idempotent |
| `Lattices.JoinAssociates` | bac/sccp.odin:103-140 | join is associative, although contradictions collapse to Top |
| `Lattices.Absorption` | bac/sccp.odin:40-140 | meet and join absorb each other |
| `Lattices.IsaIsPartialOrder` | bac/sccp.odin:127-131 | `isa` is a partial order and meet its greatest lower bound |
| `Lattices.IsaIgnoresWidening` | bac/sccp.odin:127-131 | whatever the widening counters of the two values |
| `Lattices.JoinIsLeastAbove` | bac/sccp.odin:127-140 | join is the least upper bound |
| `Lattices.MeetCoversUnion` | bac/sccp.odin:40-71 | meet describes at least what either value does; `isa` implies inclusion |
| `Lattices.JoinIsIntersection` | bac/sccp.odin:133-140 | join describes exactly the common outcomes |
| `Lattices.JoinIsTopWhenDisjoint` | bac/sccp.odin:133-140 | and is Top exactly when there are none |
| `Lattices.MeetForgetsWidening` | bac/sccp.odin:40-71 | off the normal values idempotence fails |
| `Lattices.FallingLowersHeight` | bac/sccp.odin:40-71 | a strictly more general value is strictly lower, so falling ends |
| `Propagation.UpdateFalls` | bac/sccp.odin:179-197 | recomputing a node keeps all values falling |
| `Propagation.Solver.Enqueue` | bac/graph.odin:587-608 | queues a node once |
| `Propagation.Solver.Step` | bac/sccp.odin:179-197 | takes the next node; the total height or the queue gets smaller |
| `Propagation.Solver.Solve` | bac/sccp.odin:171-197 | terminates in the greatest fixpoint below the start |
| `Propagation.ComputeLattices` | bac/sccp.odin:147-215 | from all-Top with dead nil: the greatest of all fixpoints |
| `ArmLowering.WidenBinPreserves` | bac/arm/arm.odin:166-196 | narrow operations and comparisons in 32 bits mean the same |
| `ArmLowering.WidenUnPreserves` | bac/arm/arm.odin:166-196 | negation and complement too |
| `ArmLowering.ShiftPreserves` | bac/arm/arm.odin:198-261 | shifts by any count, constant or not, although the native shift masks its count |
| `ArmLowering.RemPreserves` | bac/arm/arm.odin:340-350 | multiply-subtract equals the remainder iff the divisor is nonzero or the dividend zero, wrapping quotient included |
| `ArmLowering.RemByZeroDiffers` | bac/arm/arm.odin:340-350 | a concrete remainder by zero that changes value |
| `ArmLowering.PeepPreserves` | bac/arm/arm.odin:157-353 | each rewrite keeps type, value and definedness |
| `ArmLowering.StepPreserves` | bac/arm/arm.odin:157-353 | so does a rewrite anywhere inside an expression |
| `ArmLowering.LoweringPreserves` | bac/arm/arm.odin:157-353 | and any run of rewrites in any order |
| `ArmLowering.DoneIsLowered` | bac/arm/arm.odin:157-353 | no rewrite applies exactly when no narrow arithmetic or comparison, no shift by any count and no remainder is left, and machine operations are wide |
| `ArmLowering.StepKeeps` | bac/arm/arm.odin:157-353 | a rewrite keeps the type and wide machine operations and makes the expression lighter |
| `ArmLowering.RunsEnd` | bac/arm/arm.odin:157-353 | so every run ends |
| `ArmLowering.LoweringReaches` | bac/arm/arm.odin:157-353 | and some run reaches the lowered form |
| `ArmLowering.FinishedIsLowered` | bac/arm/arm.odin:157-353 | a run that can go no further has lowered everything and kept the meaning |
| `ArmConstants.DecodeEncode` | bac/arm/arm.odin:1269-1284 | the fields of the instruction word can be read back |
| `ArmConstants.BeyondIsFiller` | bac/arm/arm.odin:1271-1276 | beyond the counted halfwords the value has only copies of its sign |
| `ArmConstants.PiecesMakeValue` | bac/arm/arm.odin:1257-1284 | the four halfwords make up the value modulo 2^64 |
| `ArmConstants.EmitConstant` | bac/arm/arm.odin:1252-1288 | executing the emitted words leaves exactly the value and touches no other register; behind the first there is one for each halfword that is not a copy of the sign |
| `SplitAddress.AddMakes` | bac/intel_xelp/lower.odin:62-74 | addition with the carry taken from a comparison |
| `SplitAddress.SignMakes` | bac/intel_xelp/lower.odin:47-61 | sign extension by shifting the source |
| `SplitAddress.ShiftMakes` | bac/intel_xelp/lower.odin:75-102 | scaling moves the top of the low half into the high half |
| `SplitAddress.OneBit` | bac/intel_xelp/lower.odin:79-84 | a stride with one bit set is the power of two of its trailing zeros |
| `SplitAddress.SplitMakesValue` | bac/intel_xelp/lower.odin:25-108 | lo + 2^32 * hi is the 64-bit value of every accepted expression |
| `SplitAddress.SplitAccepts` | bac/intel_xelp/lower.odin:4-108 | split is everything of 32 bits and its extensions, constants, pairs of uniform lanes, sums, and multiples and shifts by powers of two below 2^32, and nothing else |
| `SplitAddress.PowerHasOneBit` | bac/intel_xelp/lower.odin:79-86 | every power of two is accepted as a stride, and its trailing zeros are its exponent |
| `Leb128.UnsignedRoundTrip` | bac/codegen.odin:1000-1009 | reading back gives the value and the untouched rest of the stream |
| `Leb128.SignedRoundTrip` | bac/codegen.odin:1011-1022 | likewise for signed values |
| `Leb128.UnsignedIsShortest` | bac/codegen.odin:1000-1009 | nothing shorter reads back to the value |
| `Leb128.SignedIsShortest` | bac/codegen.odin:1011-1022 | likewise for signed values |
| `Leb128.ByteBuffer.PutUnsigned` | bac/codegen.odin:1000-1009 | the loop appends the unsigned encoding |
| `Leb128.ByteBuffer.PutSigned` | bac/codegen.odin:1011-1022 | the loop appends the signed encoding |
| `Leb128.PutFixed` | odinc/elf.odin:1390-1400 | fills the buffer with the padded encoding |
| `Leb128.FixedRoundTrip` | odinc/elf.odin:1390-1400 | the padded form reads back to the value modulo what fits, hence like the plain form if it fits |
| `Leb128.FixedIsUnsigned` | odinc/elf.odin:1390-1400 | same bytes exactly when the width is the one the value needs |
| `LineProgram.ParseIsInverse` | odinc/elf.odin:381-431 | the operations written are the operations read |
| `LineProgram.GapIsRange` | odinc/elf.odin:402-424 | the 32-bit offset difference is the range of the row before, however far the offset wrapped |
| `LineProgram.RowsAre` | odinc/elf.odin:406-424 | row k has the file and line of location k at the start address plus the sum of the ranges before it |
| `LineProgram.ExecBody` | odinc/elf.odin:402-431 | one row per location, then the end row |
| `LineProgram.LinkedProc` | odinc/elf.odin:385-398 | relocating a sequence fills in its address and changes nothing else |
| `LineProgram.LinkedProgram` | odinc/elf.odin:381-432 | linking with the recorded relocations gives the program with all addresses filled in |
| `LineProgram.ProgramReadsBack` | odinc/elf.odin:381-432 | linked, the bytes are read by the state machine of section 6.2 of DWARF Version 4 to the rows of all procedures, each at the address of its procedure |
| `LineProgram.WriteSloc` | odinc/elf.odin:406-423 | writes the operations of one location |
| `LineProgram.WriteProc` | odinc/elf.odin:381-431 | writes one sequence and records where its address goes |
| `LineProgram.WritePrograms` | odinc/elf.odin:381-432 | the bytes appended and the relocations recorded are those the reader is proved on |

## Left out

- Depth counters, graph numbers and offsets of the graph store are unbounded here; the source keeps them in 32 or fewer bits.
- LateWorklist.ScheduleAll: that no nodes wait for each other in a circle, that everything is called for from the end node, and that whatever takes a memory version is a store, memory Phi, call or return taking it where the code looks, are assumptions; loop depths come from a loop tree that is a parameter.
- LatePlacement.Scheduler.ScheduleLate: takes any sequence of offers and promises nothing about which nodes get placed; `LateWorklist.ScheduleAll` does.
- LatePlacement.Scheduler.AddMemAntideps: loads do not store; a node flagged as both fails the assertion at bac/gcm.odin:664-669 before it is placed (`LatePlacement.LoadStoreFailsAssertion`); the AMD64 rewriting that makes such nodes says that it comes after scheduling (bac/amd64/amd64.odin:945).
- Memory antidependences are stated for paths without back edges, and the loop-header push-down of `schedule_block` (bac/gcm.odin:815-847), which looks at data users only, is not modelled.
- Control graphs are assumed to have acyclic forward edges and back edges only at input 1 of a Loop; `insert_alwasy` and the construction of the loop tree are not modelled.
- GraphStore.Graph.SetInput: without `ApartOrLasting` nothing is said about the table; the outcome then depends on the positions of the two entries.
- GraphStore.Graph.SetInputMerging: demands an exact table and `ApartOrLasting`.
- GraphStore.Graph.Connect: an interned user must not become equal to another node, because the source asserts it.
- GraphStore.Graph.SwapInputs: likewise, because the source asserts that interning returns the same node.
- GraphStore.Graph.Subsume: a nil replacement is not modelled, and neither are `dont_delete`, `dont_intern`, triggers and the peephole worklist.
- GraphStore.Graph.Replace: demands an exact table; that `MayReplace` is also necessary for not failing is not proved, since whether merges come round depends on the order of output records and table entries too; after a failure, where the source panics, nothing is said.
- Arena bytes: node sizes, input and output capacities, and the move of the compacted arena over the old one are abstracted to places in a map; aliasing of output lists while they are copied is not captured.
- Propagation.Solver.Solve: the transfer function is a parameter that reads its inputs only and is monotone; triggers and the widening counter of Phis, which reads the node's own value, are not modelled.
- BlockNesting.JumpLeavesEnclosing: of several jumps with one origin the source records only the one directed last, and the lemma speaks of one of them.
- BlockNesting.Nesting.Nest: starts from intervals sorted by end, as the library sort leaves them; turning ifs into structured ifs, block rotation and the emission of labels are not modelled.
- ArmLowering.PeepPreserves: vectors, floats, count-trailing-zeros and constants loaded from memory are not modelled.
- SplitAddress.SplitMakesValue: a 64-bit load is taken to be the two lanes of the uniform register at its offset.
- LineProgram.WritePrograms: the header with its patched lengths is whatever stands before the program; the registers that the rows do not use are not modelled.
- Bindings, printing, statistics, generated tables, register allocation, frame layout, instruction encodings other than wide moves, ELF and Wasm containers, and the front end's type checking and code generation would only add easy members or depend on tables.
