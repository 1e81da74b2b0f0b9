# What the generator's program analysis guarantees

The program generator of this repository builds random C programs statement by statement. While it does so it runs an
abstract interpreter over them: points-to facts, read and write effects, no-write directives, and checks that reject a
choice whenever it could lead to undefined behaviour. This project is a Dafny model of that analysis and of the mutable
algorithms around it, with proofs of what it is there for.

* **The language and its meaning.** `Language` is a small pointer language (scalars, pointers of any depth, arrays,
  `&x`, `*...*p`, assignments plain and compound, comma, operators, `&&`/`||`, calls, scoped blocks, `if`, counting
  loops with `break`/`continue`, `return`). `Semantics` runs it on a concrete store, with an evaluation order of free
  choice for operators, calls and the two sides of an assignment. Undefined behaviour, writing a constant included, is
  the result `Stuck`; a run that
  has not ended when its fuel is used up is a `Timeout`, with the accesses made so far.
  `Footprint` and `Locality` say what a run changes and depends on; `Control` relates the syntactic queries about jumps
  to runs.
* **The analysis.** `Facts`, `Effects` and `Analysis` state it as functions on sets; `Gamma` and `Soundness` relate it
  to runs in any evaluation order, whether they end or not. `Changes` says where visiting changes facts, `Operands` what
  the checks of operands against each other amount to, and `StandIns` how code behaves in stores that its facts do not
  describe yet. `Alikeness`, `AnyOrder`, `LeftSides`, `OrderIndependence` and `VolatileOrder` are about evaluation
  order, and `Stores` about the assignments inside the right side of another; `Directives` is about what code can get at,
  `Addresses` about the indices of addresses. `Exactness`, `Precision` and `Monotone` are the other direction: what is
  rejected would go wrong in some store that the facts describe, the facts hold nothing from nowhere, and the search for
  a loop's facts finds the least there are. `Guarantees` collects the main results. `FactLists`, `FactVectors`, `Contexts` and `FixedPoints` are the loops over vectors that edit facts
  and effects in place, each proved to compute what the functions say.
* **Around it.** `Deletion` and `Repair` remove statements after a failed analysis; `Replay` (with `Lexicographic`) and
  `Odometer` are the two exhaustive enumerations; `Unions` and `Overlap` treat members of unions and structs; `Crc` is
  the checksum in the run-time header.

## Readings

* The shortcut for a statement that has been visited before is the stability test alone: it is taken when the inputs are
  the same facts as those stored for the statement. A loop's search stops when a pass adds nothing.
* `match` and `loose_match` on variables of the pointer language are equality; an array is one variable.
* `get_container_union` is the innermost union around a variable, the variable included.
* An assignment visits its right side, then its left side, then updates the facts.
* Induction variables are not volatile (src/StatementFor.cpp:150-161), so the index of an address is not either. Other
  indices may be.
* A directive's no-write set and the induction variables of enclosing loops are one set: both are looked up in
  `is_nonwritable`, and both go into the no-writes of a function that is created for a call.

## What was found

* The two sides of a simple assignment may both access volatiles: the effect of the right side is added to the context
  of the left side for compound assignments only (src/StatementAssign.cpp:325-331). Value, store, reads, writes and the
  volatile accesses themselves do not depend on the order, but their sequence may. `VolatileOrder.AssignTraces` says
  exactly when it does, `VolatileOrder.BothVolatile` gives `*vp = v` as an example, and the verdict's `mixed` flag
  bounds it for whole programs.
* The index of `&a[i]` is never visited (src/ExpressionVariable.cpp:260-266). So its read is in no read set
  (`Addresses.IndexUnseen`), and `f(&a[i], i = 1)` is accepted although its value depends on the order of the arguments
  (`Addresses.ArgumentsClash`). The verdict's `unseen` set collects such indices, and `clash` says that an operand may
  write one that an unsequenced operand uses: without a `clash`, orders differ in the sequence of volatile accesses at
  most. The indices that are generated are variables of enclosing loops (src/VariableSelector.cpp:1448-1498), which
  nothing may write; for these `Guarantees.GuardedProgram` proves that there is no `clash`.
* A dereference through a member of an array of pointers is always rejected: facts are kept for the array, and
  `is_valid_ptr` is given the member (src/FactPointTo.cpp:430-438); `Exactness.MemberRejected`. All other reads and left
  sides are rejected only for a reason: `Exactness.ReadExact`, `Exactness.LhsExact`.
* On a visit to a `for` statement, the test's read of the loop variable is covered only by the write recorded for it;
  hence reads are proved to be in the read set or in the write set.
* `Type::SizeInBytes` ends without a value for pointers and falls through to zero (src/Type.cpp:1580-1585). Merging
  union facts is safe for exactly the unions without a `Clash`; with that zero no generated union has one, with pointers
  of eight bytes some have.
* The overlap tests miss accesses in types with unions inside unions or structs; such types are not generated.
  `WriteTestExactIff` and `ReadTestExactIff` give the exact classes of types.
* The replay driver never ends for a client that makes no choice. A run cut off by the depth limit is skipped like a
  pruned one.
* The loop's search is not bounded by the constant asserted at src/Block.cpp:599 but by what the facts can still gain.
* The repair loop does not always delete all statements after the one that the analysis failed at, as its comment says
  (src/Block.cpp:752-759): the index stays the same when a `goto` before it goes along with its target, so statements at
  the end are left. `Repair.RoundExact` says exactly when, `Repair.LaterSurvives` gives a block.
* What `remove_stmt` returns can leave out statements of its own block that were removed through another block; it never
  counts more than the block has lost.

## Model

| member | source | states |
|---|---|---|
| Guarantees.ProgramSafe | src/CGContext.cpp:234-345 | no run of an accepted program is stuck or writes a constant, in any evaluation order and however far it gets; without a `clash` it ends in every order or in none, and if it ends, then with the same value, store, reads, writes and volatile accesses, in the same sequence unless the verdict is `mixed` |
| Guarantees.GuardedProgram | src/VariableSelector.cpp:1448-1498 | a program whose indices of addresses are all variables of enclosing loops has no `clash` |
| Guarantees.ProtectedIndices | src/CGContext.cpp:170-190 | if every index of an address is in the no-write set where the address is taken, no operand may write one that another uses |
| Guarantees.EffectSound | src/CGContext.cpp:216-363 | every cell that an accepted expression reads or writes, in any order and before it ends or never does, belongs to a variable in the recorded sets, or is the index of an address; what is recorded does not collide with the effect context or the directives, and nothing written is a constant |
| Guarantees.BlockSafe | src/CGContext.cpp:368-392 | an accepted block, with everything it calls and however far it gets, writes no constant and nothing that the directives protect |
| Guarantees.InductionVariableSafe | src/CGContext.cpp:119-190 | an accepted loop body with everything it calls, at any depth, however far it gets and whether called functions are visited again or created on the spot, writes neither its own loop's variable nor any variable the context protects |
| Guarantees.FilterProtects | src/CGContext.cpp:663-708 | a created function's body gets the same verdict under the directives about globals and reachable frame variables as under all of the caller's |
| Guarantees.CreatedOrVisited | src/Function.cpp:663-684 | which functions are created at their calls, at any depth, makes no difference to any verdict when directives are about existing variables |
| Guarantees.CallFrameRule | src/FunctionInvocationUser.cpp:322-374 | a call, in any order and however far it gets, writes only globals and variables that some fact handed over mentions; if it returns, every other cell, and every pointer without such a fact, has kept its value, and the renewed facts hold |
| Guarantees.HandOverLeast | src/FactMgr.cpp:320-362 | the facts handed over are those of the least set of variables that contains globals and parameters and is closed under "pointed to by a kept fact" |
| Guarantees.LoopCounts | src/StatementFor.cpp:396-441 | an accepted loop without a break ends with its variable where its header alone would have left it |
| Guarantees.LoopEnds | src/CGContext.cpp:182-188 | an accepted loop ends, in every evaluation order, if its header alone would and its body always does |
| Guarantees.TransferMonotone | src/FactPointTo.cpp:272-298 | larger facts before an accepted assignment give larger facts after it, also where a strong update becomes a weak one |
| Monotone.ExprMonotone | src/FunctionInvocation.cpp:526-575 | an expression accepted with some facts, effects and directives is accepted with fewer, and then leaves fewer facts, a smaller effect and fewer targets |
| Monotone.BlockMonotone | src/Block.cpp:537-552 | so is a block, with all that it calls at any depth |
| Monotone.CallLess | src/FunctionInvocationUser.cpp:322-374 | so is a call: a larger hand-over gives larger results, and where less is handed over, the facts from before the call are below what comes back |
| Monotone.HandOverLess | src/FactMgr.cpp:320-362 | larger facts and arguments hand more over, and nothing less about any pointer |
| Monotone.LeastFixedPoint | src/Block.cpp:587-643 | the search for a loop's facts is accepted if and only if there are facts, no fewer than those before the loop, with which the body is accepted and adds nothing; and it finds the least of them |
| Monotone.TransferLess | src/FactPointTo.cpp:272-298 | larger facts, with more pointers in them, give larger facts after an assignment; no pointer known to the larger alone is updated strongly |
| Monotone.RhsLess | src/FactPointTo.cpp:172-269 | larger facts give larger sets of right-side pointees |
| Exactness.ReadExact | src/ExpressionVariable.cpp:246-270 | an rvalue is accepted if and only if, in every store that the facts describe, its read ends and collides neither with the effect context nor with the directives |
| Exactness.LhsExact | src/Lhs.cpp:353-402 | a left side is accepted if and only if, in every store that the facts describe, its cell is found through valid pointers that the right side does not write, and may be written |
| Exactness.ReadEffectExact | src/CGContext.cpp:260-297 | the read set of an accepted rvalue holds just the variables that it reads in some store that the facts describe |
| Exactness.LhsEffectExact | src/CGContext.cpp:299-345 | the read set of an accepted left side holds just what finding its cell reads in some such store, and the write set just what the cell may belong to |
| Exactness.VolatileExact | src/CGContext.cpp:234-258 | an access counts as volatile exactly if something in its sets is |
| Exactness.PointeesExact | src/FactPointTo.cpp:172-269 | the pointees of an rvalue are just the values that it has in the stores that the facts describe |
| Exactness.CellsExact | src/FactPointTo.cpp:702-734 | the variables that a reference may denote are just those that it does denote in such a store |
| Exactness.MemberRejected | src/FactPointTo.cpp:430-438 | nothing is read or written through a member of an array of pointers |
| Precision.AssignPrecise | src/FactPointTo.cpp:272-298 | after an accepted assignment a single non-array pointer has just the pointees of the right side, one of several those and its own, and every other pointer what it had |
| Precision.PlainAssign | src/FactPointTo.cpp:272-298 | `p = e` changes the fact of `p` alone, to the pointees of `e` |
| Precision.ShortPrecise | src/FunctionInvocationBinary.cpp:464-485 | the facts after `&&` and `\|\|` are the union of those with and without the second operand |
| Precision.IfPrecise | src/StatementIf.cpp:230-244 | the facts after an accepted `if` are the least that cover the branches that need not return, or those before it if both must |
| Precision.ForPrecise | src/StatementFor.cpp:396-441 | the facts after an accepted loop are the least that cover its head, or those before it if the body must return, and every break |
| Precision.CallPrecise | src/FunctionInvocationUser.cpp:340-373 | after an accepted call a pointer that was handed over has just what the end of the body or a return has left of it, and another one what it had |
| Precision.ParamPrecise | src/FactMgr.cpp:320-334 | each parameter starts with the pointees of its own argument |
| Precision.EffectLive | src/CGContext.cpp:460-472 | the effect of an accepted expression is about variables that exist where it stands |
| Stores.StoredOnce | src/StatementAssign.cpp:325-338 | in any order and however far the right side of an accepted assignment gets, no assignment in it, outside calls, has stored to the cell that the left side denotes |
| Stores.StoredRecorded | src/Lhs.cpp:394-400 | whatever the assignments in an accepted expression, outside calls, store to is recorded as written by an assignment |
| Stores.CallForgets | src/FunctionInvocation.cpp:551 | after a call, nothing in it counts as just stored to |
| Soundness.ExprSound | src/FunctionInvocation.cpp:526-575 | an accepted expression runs without undefined behaviour, in every evaluation order, from every store its facts describe; it stays within its effect, ended or not, and if it ends, the resulting facts describe the store and its value stays where the transfer looks for it |
| Soundness.OpsSound | src/FunctionInvocation.cpp:526-556 | the same for a list of operands in any permutation: no operand disturbs a value that another has read |
| Soundness.OneSound | src/CGContext.cpp:234-258 | an operand accepted after others runs as well when any of them, earlier or later in the list, have run before it or not |
| Soundness.ShortSound | src/FunctionInvocationBinary.cpp:464-485 | merging the facts with and without the second operand of `&&` and `\|\|` covers both cases |
| Soundness.AssignSound | src/StatementAssign.cpp:312-346 | an accepted assignment is sound, whichever side goes first: right side, left side, store and fact update together |
| Soundness.InvokeSound | src/FunctionInvocationUser.cpp:322-374 | hand-over, visit of the body, early returns, end of parameters and renewal describe every store a call can return with |
| Soundness.ReturnSound | src/FunctionInvocationUser.cpp:340-373 | whichever return statement was taken, the merged facts and return targets cover the store and the value |
| Soundness.RenewHolds | src/Fact.cpp:183-228 | laying a callee's facts over the caller's is right when the callee wrote no pointer it had no fact about |
| Soundness.BlockSound | src/Block.cpp:537-552 | a visited block ends in a store its facts describe, however it is left, with no mention of its locals |
| Soundness.IfSound | src/StatementIf.cpp:207-290 | the joined facts of two branches hold after either |
| Soundness.ForSound | src/StatementFor.cpp:396-441 | the facts after a loop hold after any number of iterations, however the loop is left |
| Soundness.LoopSound | src/Block.cpp:587-643 | facts at a fixed point hold before every iteration |
| Soundness.FixedPoint | src/Block.cpp:587-643 | an accepted loop's entry facts are implied by those before the loop and by those of every back edge |
| Soundness.SimpleSound | src/StatementReturn.cpp:77-97 | the facts sent along a return, break or continue hold when control leaves there |
| OrderIndependence.ExprOrder | src/FunctionInvocation.cpp:526-575 | an accepted expression without a `clash` ends in every evaluation order or in none, and does the same in each, up to the sequence of volatile accesses where `mixed` |
| OrderIndependence.OpsOrder | src/CGContext.cpp:234-258 | so do accepted operands under any permutation |
| OrderIndependence.AssignOrder | src/StatementAssign.cpp:312-346 | so does an accepted assignment, whichever side goes first |
| OrderIndependence.CallOrder | src/FunctionInvocation.cpp:557-573 | so does the body of a called function |
| OrderIndependence.LoopOrder | src/StatementFor.cpp:396-441 | so does a loop at its fixed point |
| Operands.TrailPairwise | src/CGContext.cpp:234-392 | operands checked one after the other do not get in each other's way: none writes what another reads or writes, and one at most accesses volatiles |
| Operands.OwnFacts | src/FunctionInvocation.cpp:526-556 | the facts an operand was checked with are, about all that it touches, those of any moment before it runs |
| Changes.ExprChanges | src/FactMgr.cpp:380-402 | visiting an expression changes no fact about a variable that it does not write, and leaves no pointer without a pointee |
| Changes.CallChanges | src/FunctionInvocationUser.cpp:322-374 | nor does visiting a call |
| Changes.BlockChanges | src/Block.cpp:537-552 | nor does visiting a block, however it is left |
| Changes.LoopChanges | src/Block.cpp:587-643 | nor does the search for a fixed point |
| StandIns.AfterVisit | src/FactMgr.cpp:380-402 | for every store before an accepted expression there is one that the facts after it describe, different only in pointers that it may write |
| Addresses.IndexUnseen | src/ExpressionVariable.cpp:260-266 | the address of an array member is accepted with empty read and write sets, and reads its index |
| Addresses.ArgumentsClash | src/ExpressionVariable.cpp:260-266 | `f(&a[i], i = 1)` is accepted, and its two orders give different values |
| Addresses.ExprGuards | src/VariableSelector.cpp:1448-1498 | indices that are variables of enclosing loops are in the no-write set wherever they are used, at every call depth |
| AnyOrder.AnyTwoRuns | src/Effect.cpp:494-504 | runs that pairwise share no written cell, of which one at most accesses volatiles, all end in one permutation if and only if they do in another, and then alike |
| LeftSides.LhsEarly | src/Lhs.cpp:353-402 | the cell that an accepted left side denotes can be found before the right side has run, whether or not that ever ends |
| OrderIndependence.LhsFirst | src/Lhs.cpp:353-402 | an accepted left side denotes the same cell before its right side as after it, and for a compound assignment the cell holds the same value |
| LeftSides.ChainUnmodified | src/Lhs.cpp:292-315 | if no dereferenced pointer is found modified, every pointer on the concrete chain after the first is outside the right side's write set |
| VolatileOrder.AssignTraces | src/StatementAssign.cpp:325-338 | an accepted assignment's volatile accesses come in the same sequence for both orders if and only if the left side makes none before the store or the right side only repeats those of the left |
| VolatileOrder.BothVolatile | src/StatementAssign.cpp:325-338 | `*vp = v` with both volatile is accepted, and its two orders give the two sequences |
| Directives.ExprWithin | src/CGContext.cpp:234-392 | expressions touch, of what exists outside, only what is visible or mentioned by facts, and contexts that agree on that give equal verdicts |
| Directives.CallWithin | src/FunctionInvocationUser.cpp:189-255 | so do calls, with the directives filtered or not |
| Directives.BlockWithin | src/Block.cpp:537-552 | so do blocks |
| Directives.LoopWithin | src/Block.cpp:587-643 | so do loops, through every pass of the search |
| Gamma.LoadSound | src/ExpressionVariable.cpp:246-270 | an accepted rvalue can be read: the chain exists, meets no null, dangling or indeterminate pointer, and is in the read set |
| Gamma.ChaseRead | src/CGContext.cpp:260-297 | when the checks accept a chain of reads, the concrete chain exists and every cell on it is accounted for |
| Gamma.ChaseWrite | src/CGContext.cpp:299-345 | likewise for a chain that ends in a write |
| Gamma.ChaseCovers | src/FactPointTo.cpp:702-734 | a chain of pointers that can be followed ends in the computed set of pointees |
| Gamma.StoreSound | src/FactMgr.cpp:380-402 | after an accepted store the updated facts hold |
| Gamma.AssignedHolds | src/FactPointTo.cpp:272-298 | the new facts hold after one cell has been written, whether the old fact was replaced or added to |
| Gamma.RecallCovers | src/FactPointTo.cpp:172-269 | pointees of a right side, looked up in the facts after the visit, include the value's |
| Gamma.KillSound | src/FactMgr.cpp:141-174 | when variables die, the facts without them, and with `garbage` for them, hold of the store without them |
| Gamma.EnterSound | src/FactMgr.cpp:115-131 | the facts of initialisers hold on entry to a scope |
| Control.MustReturnLeaves | src/Block.cpp:368-389 | a block that must return never falls through; one that is a loop body never breaks or continues either |
| Control.MustJumpNoFall | src/Block.cpp:390-398 | a statement that must jump never falls through |
| Control.NoBackEdge | src/Block.cpp:421-433 | control does not run off the end of a non-empty body without a tail-to-head edge |
| Control.QueriesExact | src/Block.cpp:368-433 | for blocks without dead code, a block must return, must jump or leads from its tail to its head if and only if the paths through its text say so |
| Control.FallsTrue | src/Block.cpp:421-433 | a run gets to the end of a block only where some path through its text does |
| Control.BlockNoJump | src/Block.cpp:399-416 | a block without a break (or continue) of its own is never left by one |
| Facts.GrowingShrinksMissing | src/Block.cpp:587-643 | facts that grow have fewer (pointer, pointee) pairs left to gain |
| Facts.MergeJumpsWF | src/FactMgr.cpp:594-618 | facts merged over jumps allow everything each jump brings |
| Effects.VisitLhsOk | src/CGContext.cpp:368-392 | an accepted left side does not collide with the effect context |
| Effects.VisitReadOk | src/CGContext.cpp:234-258 | an accepted rvalue does not collide with the effect context and writes nothing |
| Effects.VisitLhsSeen | src/Lhs.cpp:353-402 | an accepted left side records as written just what it may denote |
| Analysis.ReachLeast | src/FactMgr.cpp:335-361 | closing under "pointed to by" gives the least closed set |
| Analysis.HandOverReady | src/FactMgr.cpp:320-362 | the facts handed over are fit for visiting the callee |
| Analysis.TakeBackWF | src/FunctionInvocationUser.cpp:340-373 | what a call returns mentions no dead variable and keeps the caller's pointers |
| FactLists.Implies | src/FactPointTo.cpp:624-635 | decides inclusion of points-to sets |
| FactLists.SameList | src/FactPointTo.cpp:560-568 | decides equality of points-to sets |
| FactLists.Join | src/FactPointTo.cpp:573-591 | yields the union, without duplicates |
| FactLists.MarkDeadVar | src/FactPointTo.cpp:110-130 | the set loses the dead variable and gains `garbage` exactly when it pointed to it; otherwise it is returned unchanged |
| FactLists.MarkFuncEnd | src/FactPointTo.cpp:136-164 | one pass gives (old minus dead) plus `garbage` exactly when something was lost |
| FactLists.FadeStep | src/FactMgr.cpp:141-174 | forgetting variables one by one is forgetting them at once, so the order does not matter and the one pass agrees with the fold |
| FactVectors.MergePointeesOfPointer | src/FactPointTo.cpp:702-712 | computes the pointees of any number of dereferences |
| FactVectors.MergePointees | src/FactPointTo.cpp:714-735 | computes the union of the facts about all pointers in the list |
| FactVectors.SameFacts | src/Fact.cpp:261-274 | decides equality of two fact vectors as environments |
| FactVectors.SubsetFacts | src/Fact.cpp:276-291 | decides whether the second vector implies the first |
| FactVectors.Find | src/Fact.cpp:130-139 | finds the fact about a variable, or that there is none |
| FactVectors.FactVec.MergeFact | src/Fact.cpp:155-181 | merges one fact in place and reports exactly whether anything changed |
| FactVectors.FactVec.RenewFact | src/Fact.cpp:183-201 | replaces the fact about the same pointer, or adds it, and reports exactly whether anything changed |
| FactVectors.FactVec.MergeFacts | src/Fact.cpp:203-215 | merges a whole vector, and reports a change exactly if there is one |
| FactVectors.FactVec.RenewFacts | src/Fact.cpp:217-228 | renews by a whole vector |
| FactVectors.FactVec.UpdateForAssign | src/FactMgr.cpp:380-402 | strong update for a single lvalue that is no array, weak update otherwise, as the transfer says |
| FactVectors.FactVec.OutOfScopeVars | src/FactMgr.cpp:141-174 | no fact about or pointing to a dead variable is left, whatever the order of the variables |
| FactVectors.FactVec.RemoveFunctionLocals | src/FactMgr.cpp:180-209 | the same facts as forgetting the locals one after the other |
| FactVectors.FactVec.HandOverFacts | src/FactMgr.cpp:320-362 | the in-place hand-over leaves just the facts of the least closed set |
| FactVectors.FactVec.KeepReachable | src/FactMgr.cpp:335-361 | the work-list loop ends and keeps the closure of the roots |
| Contexts.CGContext.IsNonReadable | src/CGContext.cpp:152-165 | decides membership in the no-read set |
| Contexts.CGContext.IsNonWritable | src/CGContext.cpp:170-190 | decides whether a directive or an enclosing loop forbids a write |
| Contexts.CGContext.CheckReadVar | src/CGContext.cpp:234-258 | accepts exactly what may be read and records it only then |
| Contexts.CGContext.CheckWriteVar | src/CGContext.cpp:368-392 | accepts exactly what may be written and records it only then |
| Contexts.CGContext.ReadPointed | src/CGContext.cpp:260-297 | follows and records a chain of reads, and records nothing when it fails |
| Contexts.CGContext.WritePointed | src/CGContext.cpp:299-345 | follows and records a chain that ends in a write, and records nothing when it fails |
| Contexts.CGContext.VisitVariable | src/ExpressionVariable.cpp:246-270 | accepts exactly the rvalues the analysis accepts, with the same effect |
| Contexts.CGContext.VisitLhs | src/Lhs.cpp:353-402 | accepts exactly the left sides the analysis accepts, with the same effect |
| Contexts.CGContext.PtrModifiedInRhs | src/Lhs.cpp:292-315 | decides whether a pointer that is gone through, the first excepted, may have been written by the right side |
| Contexts.CGContext.VisitIndices | src/Lhs.cpp:317-335 | accepts an index exactly if it may be read after the right side's effect |
| FixedPoints.FindFixedPoint | src/Block.cpp:587-643 | the pass loop ends with the analysis' fixed point, or its failure, within one pass more than there are (pointer, pointee) pairs left to gain |
| FixedPoints.OnePass | src/Block.cpp:587-643 | a pass is the last one, or leaves fewer pairs to gain and the same result to find |
| FixedPoints.MergeEdges | src/Block.cpp:597-615 | merges the facts of all back edges |
| Deletion.Function.RemoveStmt | src/Block.cpp:662-750 | ends, and takes out exactly the least set containing the statement and every outside `goto` whose target goes; exactly the edges into or out of that are cut; the rest stay live; statements plus deleted ones are conserved in each block; the listed breaks and blocks inside are gone; the number returned is positive and at most what its own block has lost |
| Deletion.Function.CutJumps | src/Block.cpp:677-706 | exactly the edges from jumps inside the statement go, and the loop around it lists none of them as a break |
| Deletion.Function.Detach | src/Block.cpp:739-747 | the statement moves from its block's list to the deleted ones, and nothing else does |
| Deletion.JumpsExact | src/Statement.cpp:672-687 | the walk finds a live jump if and only if it is at or inside the statement |
| Deletion.RemovedAll | src/Block.cpp:708-747 | when the loop over the edges is done, taking the statement out completes the least closed set and leaves every edge with both ends live |
| Deletion.GotoGone | src/Block.cpp:714-727 | removing a `goto` in the middle of the loop keeps what the loop has established |
| Deletion.ContainsTrans | src/Statement.cpp:731-753 | being inside is transitive |
| Repair.PostCreationAnalysis | src/Block.cpp:760-814 | ends for every analysis; each pass but the last failed, and the next is for a list that has lost the failing statement and is no longer than its index, nothing having gone but statements from there on and `goto`s that lost their targets; edges are those not severed, and one from tail to head, once, exactly if control can run off the list and it is new as a loop body or after a deletion; the last pass succeeds, visited in full if anything was deleted |
| Repair.EdgesAtPass | src/Block.cpp:776-802 | at each pass the edges are those from the start that nothing removed has severed, and the one from tail to head exactly if control could run off the new loop body or what a round of deletions left |
| Repair.RoundExact | src/Block.cpp:786-792 | a round deletes just the statements from the failing one on if and only if none before it goes along |
| Repair.LaterSurvives | src/Block.cpp:786-792 | a block in which a statement after the failing one is left |
| Repair.GoneAreOrphaned | src/Block.cpp:708-727 | what goes with a statement are `goto`s that have lost their targets |
| Repair.DeleteAt | src/Block.cpp:786-792 | each deletion takes the statement, and `goto`s whose targets go, out of their lists, severs just their edges, and leaves the block in place |
| Repair.BlockStays | src/Block.cpp:786-792 | a block survives the removal of one of its own statements |
| Replay.Enumerate | src/DFSProgramGenerator.cpp:79-106 | the driver generates just the leaves on the way to which no number is filtered or invalid and no limit or stated need exceeds the depth left, each once, in lexicographic order |
| Replay.GoGenerator | src/DFSProgramGenerator.cpp:79-106 | the driver ends and its programs are the leaves in order |
| Replay.StepFinds | src/DFSRndNumGenerator.cpp:273-384 | one run gives the next leaf, if any before it stops, and leaves the state from which the remaining ones follow |
| Replay.StepShrinks | src/DFSRndNumGenerator.cpp:273-384 | each run leaves less to be done |
| Replay.LeavesExact | src/DFSRndNumGenerator.cpp:210-237 | the leaves in question are those reached without being rejected, pruned or too deep |
| Replay.ReachesIff | src/DFSRndNumGenerator.cpp:210-384 | a leaf is reached if and only if on the way to it no number is filtered or invalid, there are fewer choices than the depth limit, and, from the second choice on, no need stated exceeds the depth left |
| Replay.LeavesSorted | src/DFSRndNumGenerator.cpp:239-261 | they come in strictly increasing lexicographic order |
| Replay.DFSRndNumGenerator.RandomChoice | src/DFSRndNumGenerator.cpp:273-384 | replays a decision, advances the last one past what is filtered, or goes back; the search ends when the first decision has no value left |
| Replay.DFSRndNumGenerator.Switch | src/DFSRndNumGenerator.cpp:239-261 | moves the last decision to its next value that is not filtered out |
| Replay.DFSRndNumGenerator.EagerBacktracking | src/DFSRndNumGenerator.cpp:210-237 | prunes exactly when the depth left is short, forgetting the decisions below |
| Replay.NoChoiceNoProgress | src/DFSProgramGenerator.cpp:79-106 | a client without a choice leaves the generator as it was |
| Odometer.EnumerateAll | src/Enumerator.h:323-348 | from the start, for the positive bounds that elements are made with (src/Enumerator.h:67), every vector within them is visited once, in lexicographic order, and the enumeration stops after their product |
| Odometer.Enumerator.Advance | src/Enumerator.h:323-348 | a step goes to the vector of the next rank, or says that there is none, and marks as changed just what was advanced |
| Odometer.Enumerator.RollBackCurrentPos | src/Enumerator.h:266-295 | advances the last value before the end that can grow and clears all after it, or changes nothing if all are at their bounds |
| Odometer.RankOrder | src/Enumerator.h:323-348 | ranks order vectors lexicographically and tell them apart |
| Odometer.CarryIsNext | src/Enumerator.h:250-295 | carrying over raises the rank by one |
| Unions.MergeSafeIff | src/FactUnion.cpp:255-287 | a member readable after merging two paths is readable after each, for exactly the unions without a clash of sizes |
| Unions.ReadableIff | src/FactUnion.cpp:255-287 | a member is readable if and only if it was written last, or, where types matter, every byte it has was written, through no bit-field - or both are pointers and it is a `char*` |
| Unions.BytesOnEveryPath | src/FactUnion.cpp:183-287 | a plain member readable after paths have merged has had all its bytes written on each, through no other member that is a bit-field |
| Unions.JoinKeeps | src/FactUnion.cpp:211-226 | merging keeps readable what was written last on one path and readable on the other |
| Unions.ReadableOnEveryPath | src/FactUnion.cpp:183-249 | a member readable after any number of paths have merged is readable after each |
| Unions.ImplyTransitive | src/FactUnion.cpp:255-287 | implication is transitive where there is no clash |
| Unions.JoinVarFacts | src/FactUnion.cpp:231-249 | the loop over several variables' facts is their join |
| Unions.NoClashInPractice | src/Type.cpp:1527-1585 | no clash with the pointer size that is computed, or with an unknown one |
| Unions.EightByteClash | src/FactUnion.cpp:255-287 | with pointers of eight bytes a union of `int*`, a 64-bit integer and `char*` clashes |
| Overlap.WriteTestExactIff | src/Effect.cpp:500-504 | the write test finds just the overlapping records, for all records and variables of a type, if and only if no union in it lies inside another with a type of two or more members on the way |
| Overlap.ReadTestExactIff | src/Effect.cpp:494-498 | the read test does so if and only if the type is a union without a union inside, or has no union with members |
| Overlap.GeneratedExact | src/Type.cpp:1160-1185 | both tests are exact for every type that is generated |
| Overlap.WrittenPartiallyExact | src/Effect.cpp:449-504 | the write test answers yes exactly if some record is of the variable, around it, inside it, or of a member of the same union |
| Overlap.ReadPartiallyExact | src/Effect.cpp:431-498 | so does the read test on its class of types |
| Overlap.WrittenMeans | src/Effect.cpp:369-385 | a variable counts as written exactly if it or something around it is recorded |
| Overlap.ReadMeans | src/Effect.cpp:304-323 | a variable counts as read exactly if it is recorded, or something around it with nothing but structs in between |
| Overlap.Effect.ReadVar | src/Effect.cpp:128-136 | recording a read adds just its overlaps |
| Overlap.Effect.WriteVar | src/Effect.cpp:153-164 | recording a write adds just its overlaps |
| Overlap.Effect.ConsolidateWrites | src/Effect.cpp:509-531 | dropping writes that others cover changes no overlap and leaves none that is covered |
| Overlap.Effect.ConsolidateReads | src/Effect.cpp:509-531 | dropping reads that others cover changes no overlap, and no answer of the read test where that is exact |
| Crc.Crc32.constructor | runtime/csmith.h:48-66 | the table holds the eight-fold shifts of all bytes, and the context starts with all ones |
| Crc.Crc32.Byte | runtime/csmith.h:68-73 | the table step is eight bit-at-a-time steps of the CRC-32 in section 8 of RFC 1952 |
| Crc.Crc32.EightBytes | runtime/csmith.h:94-105 | the eight bytes of the word are taken in from the least significant on, as the bit-at-a-time form takes them |
| Crc.BytesMakeWord | runtime/csmith.h:94-105 | the bytes taken in make up the word, each with its significance |
| Crc.TableStep | runtime/csmith.h:68-73 | high part and table entry together make up the byte step, for every context and byte |
| Crc.TakeBitsIsShifts | runtime/csmith.h:48-73 | taking in bits one by one is shifting the mixed word |
| Crc.ByteBijective | runtime/csmith.h:68-73 | each byte permutes the contexts, with the inverse given |
| Crc.SuffixKeepsApart | runtime/csmith.h:68-73 | different contexts stay different whatever follows |
| Crc.WindowInjective | runtime/csmith.h:68-73 | up to four bytes are determined by the context they lead to |
| Crc.WindowDetected | runtime/csmith.h:68-105 | streams of one length that differ only within four bytes have different checksums |

## Left out

* Facts for `goto` (`update_facts_for_dest` and its use in `merge_jump_facts`); gotos are there for the deletion of
  statements only.
* Structs and unions in points-to sets, and the overlap checks on them in `Lhs::visit_facts`, which only reject more; so
  do `is_pointing_to_locals` and the options against dead pointers in returns.
* Built-in functions, `tbd_ptr`, `join_visits` and the `_final` maps, non-zero probabilities of null or dead
  dereferences, and the option for strict volatile rules.
* `visit_unordered_params`, which a constant switches off (src/FunctionInvocation.cpp:529).
* Random generation, options, statistics and output; programs are arbitrary inputs to the checks.
* The stored maps of facts by statement: verdicts carry the facts that leave over jumps as lists, and return facts are
  kept beside the environment rather than as facts about return variables. A visit never reuses a stored result.
* The walk over statements and expressions is a function that passes facts and effects on; the code updates `inputs`
  and the context in place, so aliasing between these is not captured. The loops over vectors below it are methods.
* A function's parameters are forgotten when it has been created for a call, as they are when it is visited again.
* Operands are evaluated whole, one after the other; interleaving the parts of two operands is not modelled.
* Bounds of arrays: the model takes an index modulo the size, while the output has the plain index
  (src/ArrayVariable.cpp:577-581). So an index out of bounds is not `Stuck`, and that induction variables stay below the
  sizes they are used with (src/VariableSelector.cpp:1461) is not proved.
* Functions that may fall off their end, for which `need_return_stmt` is false: every function must return.
* Interpretation of arithmetic operators: any function of the operand values, so that overflow is not modelled here.
* In the repair loop, the analysis is any function of the lists and edges; it is not tied to the one of the pointer
  language, whose blocks are values and not mutable lists. The return statement appended at the end is not modelled.
* That effects hold nothing they need not is proved for single reads and left sides; of whole expressions, only that they
  concern existing variables. That facts are realised by some store is proved for single references, not jointly for
  several, which points-to sets do not relate.
* In `Replay`, the debug sequence and filters that draw numbers themselves; in `Odometer`, the boolean reading of an
  element and the names.
* Volatility below a dereference is that of the variable pointed to, not of a qualifier on the pointer's type.
- Control.QueriesExact: for blocks with dead code, only the direction that the soundness proofs use is proved, because the
  queries look at the end of a block alone.
- Deletion.Function.RemoveStmt: the number returned is bounded from both sides, not given exactly, because removals of
  the block's own statements through another block are not counted.
- Repair.PostCreationAnalysis: holds for any analysis whatever, and is not tied to the one of the pointer language; the
  appended return statement is left out.
- Contexts.CGContext.CheckReadVar: has no unions, so the test for their fields is not there; indices are visited by its
  callers.
- Contexts.CGContext.CheckWriteVar: leaves out the option against writing dangling pointers; indices are visited by its
  callers.
