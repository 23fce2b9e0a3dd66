# PMacc and PIConGPU cores, verified

A Dafny model of the parts of PMacc's run-time layer and of PIConGPU's kernels whose correctness is
not visible from any one function.

* **Event system** (`EventSystem.dfy`, `EventManager.dfy`): the re-entrant scheduler
  `Manager::execute`. Activations at any depth share three task maps and two function-static map
  cursors, and tasks are deleted while the maps are walked. `EventSystem` is a step relation with an
  explicit stack of activations; `EventManager.Manager` is the manager as an object. Every method of
  the object extends a log of events, and its validity says that the log is a run of the step
  relation ending in the object's state, so that what is proved about all runs holds for the object.
* **Device reduction** (`Reduction.dfy`): the kernel of one launch and the host code that launches it
  until one value is left, for any associative and commutative functor.
* **Communicator** (`Communicator.dfy`): all ranks of a Cartesian grid with a sliding window, their
  offsets, logical coordinates and neighbour tables. Rank and coordinate inquiry follow section 7.5.5
  of MPI-3.1.
* **Warp-aggregated increment** (`WarpAtomic.dfy`): refines one atomic increment per thread in every
  interleaving.
* **Particle move** (`MoveParticle.dfy`), **grid distribution** (`GridDistribution.dfy`,
  `GridDistributionText.dfy`), **field interpolation** (`Interpolation.dfy`), **memory test 6**
  (`MovInv32.dfy`), **emittance sums** (`Emittance.dfy`), **CI job generator** (`CiJobs.dfy`) and
  **bit reversal** (`ReverseBits.dfy`). `Arithmetic.dfy`, `Bits.dfy` and `ExchangeTypes.dfy` hold
  what several of them share.

`dafny verify dfyconfig.toml` checks the project.

Conventions: 32-bit wrap-around, casts and C++'s truncating division are written out. Floating point
is modelled by exact reals. Where the order of blocks, threads, observers or interleavings is open in
the program, it is open in the model.

Where code and documentation disagree, the model follows the code:

* `moveParticle` is documented to return whether the cell was left
  (`include/picongpu/particles/MoveParticle.hpp:44`); it returns whether the supercell was left.
* `extend_job_with_test_requirement` is documented to copy its job
  (`share/ci/pypicongpu_generator.py:227-239`); the copy shares the dictionary.
* `setStateAfterSlides` does not always return what the last of n slides returns; `SameReturnIff` says
  exactly when it does, and `WholeRoundDiffers` gives an example.

Properties that do not hold for all inputs are given with the exact condition: the reduction
with shared memory for one element only (`Reduce`, with an example in `OneThreadPerBlockFails`), its
index near 2^32 (`ClassesReadIff`, `LongSourceWraps`), waiting for what depends on a
notification that the waiting code itself holds up (`WaitForFinished` and `WaitForAllTasks` never end
such a wait, by `StaysDependent` and `WaitInVain`; they end all others, by `StaysIndependent`, if tasks
follow the rules below; an example is in `PendingNotificationOrphans`), and a grid distribution whose
first entry is empty (`AnswersRightIff`, with an example in `EmptyFirstEntryFails`). The wrap-around of
the product at `include/pmacc/device/Reduce.hpp:91` turns out to be harmless (`FirstLaunchFits`).

Rules for task code (`TameTask`): what runs in the destructor of an active task, observers included,
only registers and combines tasks, and polls may do anything; or no code waits at all. Tasks that are
created have to follow the same rules. Outside of all tasks, `Execute` and both waits then return.

## Model

| member | source | states |
|---|---|---|
| EventSystem.First | include/pmacc/eventSystem/Manager.cpp:57-59 | `begin()` of a task map: the smallest id, or the end exactly if the map is empty |
| EventSystem.Next | include/pmacc/eventSystem/Manager.cpp:65-65 | a cursor after `++`: the smallest larger id that is in the map, or the end if there is none |
| EventSystem.StepKeepsInvariant | include/pmacc/eventSystem/Manager.cpp:42-121 | every stretch of manager code in every activation, every single notification of an observer, and everything task code may do in between, keeps the whole invariant (cursors, registry, passive operands, leaves) |
| EventSystem.RunKeepsInvariant | include/pmacc/eventSystem/Manager.cpp:42-121 | the invariant holds after every sequence of events, at any nesting depth |
| EventSystem.CursorsNeverDangle | include/pmacc/eventSystem/Manager.cpp:57-114 | in every reachable state both static cursors are past the end or name a registered entry, before and after every step; no erase hits an entry a cursor names; an activation that returns leaves both cursors past the end |
| EventSystem.DeletedAtMostOnce | include/pmacc/eventSystem/Manager.cpp:93-100 | in every reachable state each id was deleted at most once, and each id ever registered is in exactly one of the three maps or deleted |
| EventSystem.FinishedStaysFinished | include/pmacc/eventSystem/Manager.cpp:128-153 | an id that was registered and is no longer in the active (or passive) map does not come back to it in any step |
| EventSystem.FinishedForGood | include/pmacc/eventSystem/Manager.cpp:128-153 | the same over any continuation of a sequence of events |
| EventSystem.WaitingHasOpenLeaf | include/pmacc/eventSystem/tasks/TaskLogicalAnd.hpp:60-110 | a waiting logical-and task that depends on no pending notification has, among the ordinary tasks it was combined from, one that is still active |
| EventSystem.CombinedFinishesWithItsLeaves | include/pmacc/eventSystem/events/EventTask.cpp:65-92 | in every reachable state a combined handle waits if and only if one of the tasks it was combined from is unfinished or a notification it depends on is pending |
| EventSystem.PendingNotificationOrphans | include/pmacc/eventSystem/events/EventNotify.cpp:27-46 | that condition is needed: a reachable state in which task code runs, a passive task depends on a pending notification and no active task is left; the passive task is still there after everything that code, and what it calls, can go on to do |
| EventSystem.StaysIndependent | include/pmacc/eventSystem/Manager.cpp:163-166 | a passive task that depends on no pending notification does not come to depend on it, whatever happens while it is waited for |
| EventSystem.StaysDependent | include/pmacc/eventSystem/Manager.cpp:162-166 | the other half: a passive task that depends on a notification pending in some activations does so, and so stays in its map, after every continuation in which only task code, and what it calls at any depth, runs on top of these activations |
| EventSystem.NoOrphanedPassiveTask | include/pmacc/eventSystem/Manager.cpp:183-190 | a passive task that depends on no pending notification exists only as long as active ones do, so waiting for it cannot hang |
| EventSystem.CoopNotSkipped | include/pmacc/eventSystem/Manager.cpp:57-75 | over any stretch of any run: a cooperative task that the shared cursor has not passed is polled, by whichever activation, or leaves the map, before the cursor passes it |
| EventSystem.ActiveNotSkipped | include/pmacc/eventSystem/Manager.cpp:77-121 | the same for active tasks, unless an activation jumps out, which sets the cursor past the end |
| EventManager.Manager.constructor | include/pmacc/eventSystem/Manager.cpp:57-77 | an empty manager with both cursors past the end, at the start of the step relation |
| EventManager.Manager.AddTask | include/pmacc/eventSystem/Manager.cpp:192-196 | adds one entry to the active map and nothing else, also while a notification is pending; one step of the relation |
| EventManager.Manager.AddCooperativeTask | include/pmacc/eventSystem/Manager.cpp:198-202 | the same for the cooperative map |
| EventManager.Manager.AddPassiveTask | include/pmacc/eventSystem/Manager.cpp:204-210 | registers a logical-and task that waits for its two operands |
| EventManager.Manager.Combine | include/pmacc/eventSystem/events/EventTask.cpp:65-92 | the returned handle stands for exactly the unfinished tasks of both operands, and is unfinished if one of them is |
| EventManager.Manager.Register | include/pmacc/eventSystem/tasks/Factory.tpp:160-183 | what task code registers or combines, and what the log and the maps show of it, also while a notification is pending: passive tasks wait only for what they waited for, new ones only for what is unfinished |
| EventManager.Manager.NotifyOne | include/pmacc/eventSystem/tasks/TaskLogicalAnd.hpp:68-111 | one observer drops the finished operand; it leaves the passive map exactly if that was its last one |
| EventManager.Manager.NotifyObservers | include/pmacc/eventSystem/events/EventNotify.cpp:27-46 | the cascade of notifications and self-deletions terminates, for every order of the observers, with nobody waiting for the destroyed task any more |
| EventManager.Manager.NotifyErased | include/pmacc/eventSystem/events/EventNotify.cpp:27-46 | all observers of an erased task are notified, in any order, with any task code of other observers before, between and after; nobody waits for it then, and no work was added; from a safe state, observers that follow the rules do not hang |
| EventManager.Manager.FetchCooperative | include/pmacc/eventSystem/Manager.cpp:60-66 | the task at the cursor is polled and the cursor moves on to the next one before that; either work is used up, or the task does nothing, which may go on forever, and one task fewer is ahead of the cursor |
| EventManager.Manager.ReturnCooperative | include/pmacc/eventSystem/Manager.cpp:66-74 | erases a task that reported completion if and only if it is still registered |
| EventManager.Manager.FetchActiveTask | include/pmacc/eventSystem/Manager.cpp:83-93 | the task at the cursor is polled and the cursor moves on to the next one before that; one poll of work is used up |
| EventManager.Manager.EraseActive | include/pmacc/eventSystem/Manager.cpp:96-99 | removes exactly one entry; less work remains |
| EventManager.Manager.FinishActive | include/pmacc/eventSystem/Manager.cpp:105-112 | the activation jumps out, with both cursors past the end, if and only if it waited for this id |
| EventManager.Manager.EndActivePoll | include/pmacc/eventSystem/Manager.cpp:93-113 | a task completed by a poll is deleted, unless a nested activation has done so; the three outcomes and what each leaves, with all code of the destructor performed between erase and end; from a safe state the destructor does not hang |
| EventManager.Manager.Execute | include/pmacc/eventSystem/Manager.cpp:42-121 | ends at any nesting depth, for cooperative tasks that may never complete, and leaves the activations below it alone; it leaves the stack as it was and both cursors past the end and uses up work if there was an active task. In between, every cooperative task from the cursor on (all of them if the cursor was past the end) was polled or has left its map, and so was every active one unless an activation jumped out. It returns true if and only if this activation polled the awaited id and that completed. It does not hang from a safe state: all registered tasks follow the rules for task code, and nothing that may wait runs above a notification something waits for |
| EventManager.Manager.NotifyAnd | include/pmacc/eventSystem/tasks/TaskLogicalAnd.hpp:68-111 | one observer and everything it finishes are notified; one observer fewer is left |
| EventManager.Manager.CooperativeLoop | include/pmacc/eventSystem/Manager.cpp:57-75 | ends with the cooperative cursor past the end, whether the cooperative tasks ever complete or not, unless a task hangs; none does from a safe state |
| EventManager.Manager.RunActiveLoop | include/pmacc/eventSystem/Manager.cpp:77-121 | ends with both cursors past the end, uses up work if it polled, returns true if and only if it polled the awaited id to completion, and else has polled every task ahead of the cursor that is still there, unless another activation jumped out; no task hangs from a safe state |
| EventManager.Manager.PollCooperative | include/pmacc/eventSystem/Manager.cpp:60-75 | the log shows that the task at the cursor was fetched, all actions of its next poll were performed in order, and the poll returned what it reports |
| EventManager.Manager.PollActive | include/pmacc/eventSystem/Manager.cpp:83-113 | the same for an active task |
| EventManager.Manager.Destroy | include/pmacc/eventSystem/Manager.cpp:96-103 | after the erase all actions of the destructor and of other observers were performed in order, between the notifications of the logical-and tasks, and all of these are done |
| EventManager.Manager.RunActions | include/pmacc/eventSystem/Manager.cpp:42-121 | the log shows that every action was performed, in order: what is registered and combined, calls of the manager, waits until what is awaited is finished. The manager stays consistent, the activations below are left alone and the work does not grow beyond what is registered; code that starts to wait in vain goes no further; code that follows the rules never does so from a safe state |
| EventManager.Manager.WaitForFinished | include/pmacc/eventSystem/Manager.cpp:155-181 | for every id and in every state in which task code runs: returns only when the id and everything a combined handle stands for is finished; this wait itself is in vain if and only if the id depends on a notification that the waiting code holds up; from every safe state, and so outside of all tasks if these follow the rules, it returns in all other cases, whether cooperative tasks complete or not |
| EventManager.Manager.WaitForAllTasks | include/pmacc/eventSystem/Manager.cpp:183-190 | returns only with the active and the passive map empty; if all tasks follow the rules, it returns if and only if nothing waits for a notification that the waiting code holds up, which outside of all tasks is always so |
| EventManager.Manager.WaitInVain | include/pmacc/eventSystem/Manager.cpp:155-190 | after any number of rounds of the loops of both waits, everything that depended on a notification the waiting code holds up is still in the passive map, so that neither loop is ever left |
| EventManager.Manager.QuietIsIndependent | include/pmacc/eventSystem/Manager.cpp:155-190 | if nothing waits for a pending notification, or none is pending, as outside of all tasks, no wait is in vain, and the state is safe if all tasks follow the rules |
| Folding.FoldByClasses | include/pmacc/device/reduce/Kernel.hpp:152-170 | for an associative and commutative functor, folding grid-stride classes separately and then their values is the left fold of all elements |
| Folding.FoldByChunks | include/pmacc/device/reduce/Kernel.hpp:92-103 | folding consecutive blocks of values separately and then the blocks is the fold of all values |
| Reduction.ThreadFold | include/pmacc/device/reduce/Kernel.hpp:158-166 | one thread's strided loop folds exactly its class, for every thread whose 32-bit index does not wrap around |
| Reduction.TreeFold | include/pmacc/device/reduce/Kernel.hpp:174-198 | the tree over shared memory, halving with rounding up, leaves the fold of all slots in the first one |
| Reduction.FillShared | include/pmacc/device/reduce/Kernel.hpp:152-170 | slot k of shared memory holds the fold of thread k's class |
| Reduction.RunBlock | include/pmacc/device/reduce/Kernel.hpp:133-199 | a block's value is the fold of the classes of its threads |
| Reduction.Launch | include/pmacc/device/reduce/Kernel.hpp:79-103 | for every order of the blocks, and in place: each destination slot is written once, from unmodified source elements, and the rest of the buffer is left alone |
| Reduction.LaunchKeepsFold | include/pmacc/device/reduce/Kernel.hpp:79-199 | the values of all blocks of a launch fold to what its source folds to |
| Reduction.AccumulateKeepsFold | include/pmacc/device/Reduce.hpp:124-141 | combining the blocks' values into the head of the buffer keeps the fold of the whole |
| Reduction.ThreadsPerBlock | include/pmacc/device/Reduce.hpp:173-200 | a divisor of 2^31 between 1 and 512, at most the request if that is positive, and at least half of it unless capped |
| Reduction.FirstLaunchFits | include/pmacc/device/Reduce.hpp:86-105 | although the 32-bit product at line 91 may wrap: 1 to buffer-many blocks, every block full, fewer blocks than elements; and when the later launches can all run |
| Reduction.PassFits | include/pmacc/device/Reduce.hpp:124-129 | in a multi-block pass the written range ends before the read range starts, all blocks are full, the problem shrinks; no block is left exactly with one thread per block |
| Reduction.SharedMemoryFits | include/pmacc/device/Reduce.hpp:268-272 | shared memory per block stays within its limit |
| Reduction.LimitsMean | include/pmacc/device/Reduce.hpp:86-89 | buffer and shared memory hold exactly as many elements as fit; a block has the largest power of two of threads up to 512, the number of elements and the shared memory |
| Reduction.MostBlocks | include/pmacc/device/Reduce.hpp:91-105 | every launch has the most blocks that two elements per thread allow, and at least one; the first one within the 32-bit size of the buffer |
| Reduction.FirstPass | include/pmacc/device/Reduce.hpp:86-115 | the first launch leaves values that fold to the fold of the source, inside the buffer |
| Reduction.AccumulatePass | include/pmacc/device/Reduce.hpp:124-141 | a multi-block pass in place keeps the fold of the remaining values |
| Reduction.LastPass | include/pmacc/device/Reduce.hpp:142-153 | the single-block pass leaves the fold in the first slot |
| Reduction.NextPass | include/pmacc/device/Reduce.hpp:122-160 | one turn of the loop keeps the fold and strictly shrinks n; the launch has exactly the offset and number of blocks that follow from n; it is empty exactly for one thread per block and four or more values |
| Reduction.Reduce | include/pmacc/device/Reduce.hpp:78-165 | reports as its value the left fold of all n elements; reports a value if and only if every thread of the first launch reads its class and no launch is empty (two slots of shared memory, or fewer than eight elements to cover), and else which of the two fails; the launches are the first one and then the one for what the one before has left, until one value is left; every launch fits its buffers; n strictly decreases |
| Reduction.ReadsIff | include/pmacc/device/reduce/Kernel.hpp:158-166 | a thread reads exactly the elements of its class, each once and then stops, if and only if its 32-bit index never wraps around |
| Reduction.ClassesReadIff | include/pmacc/device/reduce/Kernel.hpp:152-170 | all threads of a launch do so if and only if n plus the number of threads is at most 2^32 |
| Reduction.IndexFitsIff | include/pmacc/device/Reduce.hpp:86-114 | the same for the first launch of a reduction, in terms of its sizes |
| Reduction.LongSourceWraps | include/pmacc/device/Reduce.hpp:86-114 | a concrete setup and length for which some thread does not |
| Reduction.OneThreadPerBlockFails | include/pmacc/device/Reduce.hpp:126-128 | a concrete setup, with shared memory for one element only, in which a launch is empty |
| Reduction.UsesEachElementOnce | include/pmacc/device/Reduce.hpp:78-165 | reducing the singletons of all indices gives every index exactly once |
| Cartesian.RankOfCoords | include/pmacc/communication/CommunicatorMPI.cpp:208-209 | section 7.5.5 of MPI-3.1: the rank of a rank's coordinates is the rank |
| Cartesian.CoordsOfRank | include/pmacc/communication/CommunicatorMPI.cpp:268-268 | the coordinates of a rank looked up are the coordinates looked up |
| Cartesian.FirstRank | include/pmacc/communication/CommunicatorMPI.cpp:251-266 | the process at the origin has rank 0 |
| Cartesian.RankStep | include/pmacc/communication/CommunicatorMPI.cpp:251-266 | a step along a dimension passes as many ranks as the later dimensions have, as in row-major order |
| Communicator.DirectionDigits | include/pmacc/memory/dataTypes/Mask.hpp:130-148 | a direction contains an elementary one exactly if its ternary digit for that axis says so |
| Communicator.ExchangeNamesNeighbour | include/picongpu/particles/MoveParticle.hpp:143-157 | the exchange id of a direction leads along each axis where the direction does |
| Communicator.ExchangeIds | include/pmacc/communication/CommunicatorMPI.cpp:230-230 | there are 9 ids in two dimensions and 27 in three; every direction has one below that, zero only for no direction, and no two directions share one |
| Communicator.EntriesByDirection | include/pmacc/communication/CommunicatorMPI.cpp:230-274 | in the world after any number of slides, for every direction other than none, the table entry under its id is the rank one such step away in the window, or -1 beyond a border |
| Communicator.MirrorIsOpposite | include/pmacc/memory/dataTypes/Mask.hpp:194-215 | the mirrored direction is an exchange again, mirrors back, and goes the opposite way on each axis |
| Communicator.LogicalOfRankAt | include/pmacc/communication/CommunicatorMPI.cpp:208-223 | looking up a rank by logical coordinates and asking it for them gives them back, wrapped |
| Communicator.RankAtOfLogical | include/pmacc/communication/CommunicatorMPI.cpp:265-268 | looking up a rank's own logical coordinates finds the rank |
| Communicator.NeighboursAreMutual | include/pmacc/communication/CommunicatorMPI.cpp:230-277 | for any grid, periodicity and offset: if q is r's neighbour in a direction then r is q's in the opposite one |
| Communicator.MissingOnlyAtBorders | include/pmacc/communication/CommunicatorMPI.cpp:257-274 | in the world after any number of slides a rank's entry is -1 if and only if, by the coordinates the rank holds, the direction leaves the grid along a dimension that is not periodic |
| Communicator.OffsetClosedForm | include/pmacc/communication/CommunicatorMPI.cpp:159-161 | the offset after k slides in closed form |
| Communicator.OffsetPeriod | include/pmacc/communication/CommunicatorMPI.cpp:181-183 | slides modulo the number of processes along y lead to the same offset |
| Communicator.OnePlanePerSlide | include/pmacc/communication/CommunicatorMPI.cpp:152-166 | a slide returns true on exactly one y-plane of ranks, the one that was first |
| Communicator.OncePerRound | include/pmacc/communication/CommunicatorMPI.cpp:152-166 | over any round of slides each rank is told exactly once |
| Communicator.SameReturnIff | include/pmacc/communication/CommunicatorMPI.cpp:169-186 | setStateAfterSlides(n) and n slides return the same if and only if n is zero or no multiple of the processes along y, or the rank is not at the front |
| Communicator.WholeRoundDiffers | include/pmacc/communication/CommunicatorMPI.cpp:181-185 | a concrete grid and number of slides for which the two return values differ |
| Communicator.WorldInStep | include/pmacc/communication/CommunicatorMPI.cpp:152-166 | all ranks that slide in step have the same offset, and the coordinates and table that belong to it |
| Communicator.SlideAll | include/pmacc/communication/CommunicatorMPI.cpp:152-166 | sliding the communicator objects of all ranks takes them from the world after k slides to the world after k + 1: offsets, coordinates, tables and masks, and who is told to be in front |
| Communicator.Run | include/pmacc/communication/CommunicatorMPI.cpp:66-107 | the objects after initialization and any number of slides are the world after as many |
| Communicator.WorldIsSymmetric | include/pmacc/communication/CommunicatorMPI.cpp:230-277 | after any number of slides in step the tables of all ranks agree |
| Communicator.CommunicatorMPI.constructor | include/pmacc/communication/CommunicatorMPI.cpp:66-107 | offset zero and a coherent table |
| Communicator.CommunicatorMPI.UpdateCoordinates | include/pmacc/communication/CommunicatorMPI.cpp:202-278 | coordinates, table and mask belong to the current offset, whatever they were |
| Communicator.CommunicatorMPI.UpdateNeighbours | include/pmacc/communication/CommunicatorMPI.cpp:225-277 | the table has, for every direction, the rank one step away or -1 beyond a border; the mask has exactly the directions with a neighbour |
| Communicator.CommunicatorMPI.Slide | include/pmacc/communication/CommunicatorMPI.cpp:152-166 | the offset moves by one, wraps to zero and stays in (-dims[1], 0]; true exactly at the front |
| Communicator.CommunicatorMPI.SetStateAfterSlides | include/pmacc/communication/CommunicatorMPI.cpp:169-186 | the state of that many single slides, and exactly what is returned |
| Communicator.FindNeighbour | include/pmacc/communication/CommunicatorMPI.cpp:232-274 | finds the neighbour, or -1 without a lookup |
| Communicator.InsideBorders | include/pmacc/communication/CommunicatorMPI.cpp:257-261 | accepts exactly the coordinates that are legal to look up |
| Communicator.LookupIsLegal | include/pmacc/communication/CommunicatorMPI.cpp:263-268 | although % truncates and may be negative, no lookup is out of range in a dimension that is not periodic, and it finds the intended rank |
| LaneMasks.OffsetIsPosition | include/pmacc/kernel/atomic.hpp:104-107 | an active lane's prefix popcount is its position among the active lanes, below popcount(mask) |
| LaneMasks.PositionIsOffset | include/pmacc/kernel/atomic.hpp:104-107 | every position below popcount(mask) is the prefix popcount of exactly that active lane |
| LaneMasks.LeaderIsFirst | include/pmacc/kernel/atomic.hpp:92-92 | the leader is the first active lane |
| WarpAtomic.AddIsPlain | include/pmacc/kernel/atomic.hpp:41-48 | one addition of n is n plain increments, and both count modulo the number of values |
| WarpAtomic.StepKeepsInvariant | include/pmacc/kernel/atomic.hpp:82-109 | every leader's addition and every lane's return, interleaved at will, keep the link to an order of plain increments |
| WarpAtomic.RunKeepsInvariant | include/pmacc/kernel/atomic.hpp:82-109 | so does every interleaving of any calls with any non-empty masks |
| WarpAtomic.AggregatedRefinesPlain | include/pmacc/kernel/atomic.hpp:82-109 | in every interleaving there is an order of all participating lanes, each once, whose plain increments give the counter and every returned value |
| WarpAtomic.NobodyBlocked | include/pmacc/kernel/atomic.hpp:82-109 | in every reachable state each active lane has its value, can return it, or its leader can still add |
| WarpAtomic.ResultsFillTheRange | include/pmacc/kernel/atomic.hpp:82-109 | when all have returned, the lane at place i has the value after i increments, so the values fill the range the counter moved over |
| WarpAtomic.ResultsAreDistinct | include/pmacc/kernel/atomic.hpp:82-109 | no two lanes get the same value, as long as the type has enough values |
| CellIndex.Linearize | include/pmacc/math/vector/Vector.hpp:595-635 | the linear index; it is 0 for the first cell, and one step along dimension d adds the product of the earlier extents |
| CellIndex.MapToND | include/pmacc/math/vector/Vector.hpp:650-679 | the cell inside the extents that has the linear index |
| CellIndex.LinearBounds | include/pmacc/math/vector/Vector.hpp:595-635 | a cell inside the extents has an index below their product |
| CellIndex.LinearInjective | include/pmacc/math/vector/Vector.hpp:595-635 | different cells have different indices |
| CellIndex.LinearOfCell | include/pmacc/math/vector/Vector.hpp:650-679 | linearizing undoes mapping, for every index |
| CellIndex.LinearOfFirst | include/pmacc/math/vector/Vector.hpp:601-606 | the first cell has index 0 |
| CellIndex.LinearStep | include/pmacc/math/vector/Vector.hpp:601-606 | a step along a dimension passes as many cells as the earlier dimensions have |
| MoveParticle.AxisMoves | include/picongpu/particles/MoveParticle.hpp:82-139 | on one axis: position back in [0,1), cell back in its range, absolute coordinate conserved |
| ExchangeTypes.DecodeEncode | include/picongpu/particles/MoveParticle.hpp:144-157 | a direction is read back from its exchange id; the id is zero only for no direction |
| ExchangeTypes.EncodeDecode | include/picongpu/particles/MoveParticle.hpp:143-157 | every number with as many ternary digits as axes is the id of a direction |
| ExchangeTypes.IdOfSteps | include/pmacc/type/Exchange.hpp:45-53 | a step right, left, down, up, back and to the front adds 1, 2, 3, 6, 9 and 18 to the id |
| MoveParticle.RunConservesPosition | include/picongpu/particles/MoveParticle.hpp:47-164 | over every sequence of moves of at most one cell, the absolute position is the start plus all displacements, and the particle stays inside its cell and supercell |
| MoveParticle.SplitPosition | include/picongpu/particles/MoveParticle.hpp:78-96 | positions back in the cell, and the directions left in |
| MoveParticle.SplitCell | include/picongpu/particles/MoveParticle.hpp:112-139 | with the comparison of 32-bit unsigned numbers: cells back in the supercell, and the directions it is left in |
| MoveParticle.DirectionMask | include/picongpu/particles/MoveParticle.hpp:143-157 | one more than the ternary code of the direction |
| MoveParticle.Move | include/picongpu/particles/MoveParticle.hpp:47-164 | position, linear cell index and multi mask after a move; the supercell displacement can be read off the mask, which is one more than the exchange id; returns true exactly if the supercell is left, and else leaves the mask alone |
| GridDistribution.ParserGridDistribution.GetLocalSize | include/picongpu/initialization/ParserGridDistribution.cpp:67-81 | the device's element of the expanded list; with an empty first entry, always that entry's extent |
| GridDistribution.ParserGridDistribution.GetOffset | include/picongpu/initialization/ParserGridDistribution.cpp:37-65 | fails exactly if the total, modulo 2^32, is not the expected one; else the prefix sum of the expanded list modulo 2^32, or, with an empty first entry, a multiple of its extent |
| GridDistribution.ParserGridDistribution.Seek | include/picongpu/initialization/ParserGridDistribution.cpp:69-78 | the iterator stays in range and stops at the device's entry |
| GridDistribution.ParserGridDistribution.SeekCells | include/picongpu/initialization/ParserGridDistribution.cpp:39-52 | the same, with the cells of all entries passed |
| GridDistribution.ParserGridDistribution.VerifyDevices | include/picongpu/initialization/ParserGridDistribution.cpp:83-90 | accepts exactly the number of devices of the expanded list, modulo 2^32 |
| GridDistribution.OffsetsAreExact | include/picongpu/initialization/ParserGridDistribution.cpp:37-65 | as long as the total fits 32 bits, offsets and total are the exact ones |
| GridDistribution.InsideEntry | include/picongpu/initialization/ParserGridDistribution.cpp:54-55 | a device n places into an entry has the entry's extent, and its offset is the cells before plus n extents |
| GridDistribution.EmptyFirstEntryFails | include/picongpu/initialization/ParserGridDistribution.cpp:70-73 | from its text on: a list with an empty first entry and one device of seven cells, for which the size is answered as five |
| GridDistribution.AnswersRightIff | include/picongpu/initialization/ParserGridDistribution.cpp:37-81 | all devices get the extent and offset of the expanded list if and only if the first entry is not empty or every subdomain has its extent |
| GridDistribution.ParserGridDistribution.FromText | include/picongpu/initialization/ParserGridDistribution.cpp:32-35 | a parser holds exactly the list that its text parses to; there is none exactly if parsing fails |
| GridDistribution.FromWritten | include/picongpu/simulation/control/Simulation.hpp:239-249 | end to end: a parser built from any such text, with a first entry that is not empty and totals that fit 32 bits, accepts the number of devices and answers every device with the extent and offset that the numbers say |
| GridDistribution.FromPrinted | include/picongpu/simulation/control/Simulation.hpp:239-249 | the same for the text of a list |
| GridDistribution.SubdomainsTile | include/picongpu/initialization/ParserGridDistribution.cpp:37-81 | every cell of the grid belongs to exactly one device's interval, and no cell outside to any |
| GridDistributionText.Parse | include/picongpu/initialization/ParserGridDistribution.cpp:92-123 | the list of all matches, in order, or failure |
| GridDistributionText.ValueOfDecimal | include/picongpu/initialization/ParserGridDistribution.cpp:117-118 | reading a printed number gives it back |
| GridDistributionText.ValueOfNext | include/picongpu/initialization/ParserGridDistribution.cpp:117-118 | a digit counts for its distance from 0, and the digits before it ten times as much |
| GridDistributionText.TokensOfText | include/picongpu/initialization/ParserGridDistribution.cpp:94-97 | the matches of a text are exactly the numbers, with the numbers in braces after them, that it was put together from, whatever without digits is in between |
| GridDistributionText.ParseItem | include/picongpu/initialization/ParserGridDistribution.cpp:104-119 | the first number of a match is the extent, the last one in braces the count, or one without braces; numbers from 2^64 on are errors, the others are cast to 32 bits |
| GridDistributionText.ParsePlain | include/picongpu/initialization/ParserGridDistribution.cpp:111-119 | "e" has extent e and count one |
| GridDistributionText.ParseBraced | include/picongpu/initialization/ParserGridDistribution.cpp:104-119 | "e{c}" has extent e and count c |
| GridDistributionText.ParseText | include/picongpu/initialization/ParserGridDistribution.cpp:92-123 | a text of any matches, with anything without digits before, between and after them, parses to what they mean, in order, and fails exactly if one of the numbers is too large |
| GridDistributionText.ParseTwo | include/picongpu/initialization/ParserGridDistribution.cpp:92-123 | "e{c},f" is the entry of e and c, and then that of f |
| GridDistributionText.ParseUndoesPrint | include/picongpu/initialization/ParserGridDistribution.cpp:92-123 | parsing undoes printing for every list, whichever way single subdomains are written |
| Interpolation.ShiftCoordinateSystem | include/picongpu/algorithms/ShiftCoordinateSystem.hpp:54-79 | on each axis the grid moves by a whole number of cells and the position on it by as much, so that their sum stays position minus field position |
| Interpolation.ShiftLandsOnSupport | include/picongpu/algorithms/ShiftCoordinateSystem.hpp:44-52 | the shifted position lands in [0,1) for even and [-0.5,0.5) for odd support if and only if the distance is in a range of two cells, which covers all positions in [0,1) and field positions in [0,0.5] |
| Interpolation.StencilWithinMargins | include/picongpu/algorithms/FieldToParticleInterpolation.hpp:47-63 | for every support and distance, every cell of the shifted stencil is within the margins |
| Interpolation.MarginsAreExact | include/picongpu/algorithms/FieldToParticleInterpolation.hpp:47-63 | a cell is needed by some particle if and only if it is within the margins, so both margins are attained |
| Interpolation.InterpolateRow | include/picongpu/algorithms/AssignedTrilinearInterpolation.hpp:74-79 | the sum along x |
| Interpolation.Interpolate2 | include/picongpu/algorithms/AssignedTrilinearInterpolation.hpp:90-114 | the nested accumulation in two dimensions |
| Interpolation.Interpolate3 | include/picongpu/algorithms/AssignedTrilinearInterpolation.hpp:53-86 | the nested accumulation in three dimensions |
| Interpolation.NestedIsFlat2 | include/picongpu/algorithms/AssignedTrilinearInterpolation.hpp:90-114 | the nested sums are the plain sum over all cells of the field times the product of the weights |
| Interpolation.NestedIsFlat3 | include/picongpu/algorithms/AssignedTrilinearInterpolation.hpp:53-86 | the same in three dimensions |
| Interpolation.Bounded2 | include/picongpu/algorithms/AssignedTrilinearInterpolation.hpp:90-114 | with weights that are not negative and add up to one, the result is between the bounds of the stencil's values, and a constant is reproduced |
| Interpolation.Bounded3 | include/picongpu/algorithms/AssignedTrilinearInterpolation.hpp:53-86 | the same in three dimensions |
| Interpolation.ShapeWidens | include/picongpu/algorithms/FieldToParticleInterpolation.hpp:47-63 | the weights after the shift are those of the unshifted distances, and the margin's other cells have weight zero |
| Interpolation.FieldToParticle3 | include/picongpu/algorithms/FieldToParticleInterpolation.hpp:94-119 | each component is the sum over all cells of the margin of the field times the assignment function of the distances: neither shift nor stencil can be seen in the result |
| Interpolation.FieldToParticle2 | include/picongpu/algorithms/FieldToParticleInterpolation.hpp:94-119 | the same in two dimensions |
| Interpolation.NgpWeights | include/picongpu/particles/shapes/NGP.hpp:54-61 | the one value of the nearest-grid-point shape is its spline's, and is one |
| Interpolation.CicWeights | include/picongpu/particles/shapes/CIC.hpp:54-66 | the two values of the cloud-in-cell shape are its spline's, not negative, and add up to one |
| Interpolation.TscWeights | include/picongpu/particles/shapes/TSC.hpp:47-86 | the three values of the triangular-shaped cloud are its spline's, although the third is taken as the rest to one; not negative, and add up to one |
| Interpolation.PqsWeights | include/picongpu/particles/shapes/PQS.hpp:46-87 | the four values of the piecewise quadratic cloud are its third-order spline's, although the third is taken as the rest to one; not negative, and add up to one |
| Interpolation.PcsWeights | include/picongpu/particles/shapes/PCS.hpp:46-100 | the five values of the piecewise cubic cloud are its fourth-order spline's, although the fourth is taken as the rest to one; not negative, and add up to one |
| Interpolation.CicIsSpline | include/picongpu/particles/shapes/CIC.hpp:87-106 | the assignment function of CIC follows from that of NGP by the recursion for splines, at every distance |
| Interpolation.TscIsSpline | include/picongpu/particles/shapes/TSC.hpp:108-129 | the same from CIC to TSC |
| Interpolation.PqsIsSpline | include/picongpu/particles/shapes/PQS.hpp:109-130 | the same from TSC to PQS |
| Interpolation.PcsIsSpline | include/picongpu/particles/shapes/PCS.hpp:122-144 | the same from PQS to PCS |
| Interpolation.ShapesCentred | include/picongpu/particles/shapes/PQS.hpp:74-87 | on the support, the weights of every shape but NGP have their mean at the particle |
| Interpolation.ShapesFit | include/picongpu/particles/shapes/NGP.hpp:80-95 | the splines of NGP, CIC, TSC, PQS and PCS are zero outside of half their support and, on it, not negative with sum one: all that the theorems on interpolation ask |
| Interpolation.AtParticleBounded3 | include/picongpu/algorithms/FieldToParticleInterpolation.hpp:94-119 | for any assignment function with these properties a component is between the bounds of the field on the margin, and a constant field is reproduced |
| Interpolation.AtParticleBounded2 | include/picongpu/algorithms/FieldToParticleInterpolation.hpp:94-119 | the same in two dimensions |
| Interpolation.ParticleSees3 | include/picongpu/algorithms/FieldToParticleInterpolation.hpp:94-119 | the same for all five shapes |
| Interpolation.ParticleSees2 | include/picongpu/algorithms/FieldToParticleInterpolation.hpp:94-119 | the same in two dimensions |
| Interpolation.ParticleSeesLinear3 | include/picongpu/algorithms/FieldToParticleInterpolation.hpp:94-119 | with every shape but NGP, what a particle sees of a field that is linear in the coordinates is the value at the particle |
| Interpolation.ParticleSeesLinear2 | include/picongpu/algorithms/FieldToParticleInterpolation.hpp:94-119 | the same in two dimensions |
| MovInv32.WalkingPattern | thirdParty/cuda_memtest/tests.cpp:943-968 | for the test's arguments the pattern of word n has its one set (or clear) bit at (offset + n) mod 32, although it is computed by shifts and restarts |
| MovInv32.WalkingWord | thirdParty/cuda_memtest/tests.cpp:1079-1095 | the same by the word's position in the whole memory, over all blocks |
| MovInv32.OneHotBits | thirdParty/cuda_memtest/tests.cpp:1079-1095 | such a word has exactly one bit set, or exactly one clear |
| MovInv32.EveryPattern | thirdParty/cuda_memtest/tests.cpp:1079-1095 | for every word and every bit some start bit puts the one at the other |
| MovInv32.KernelWrite | thirdParty/cuda_memtest/tests.cpp:943-968 | writes the pattern to the block's words and no other, and leaves in each what that word keeps of it; a block beyond the memory does nothing |
| MovInv32.KernelReadWrite | thirdParty/cuda_memtest/tests.cpp:972-1003 | counts exactly the words that differ from the pattern, for any memory contents, and leaves what each word keeps of the inverse |
| MovInv32.KernelRead | thirdParty/cuda_memtest/tests.cpp:1008-1037 | counts exactly the words that differ from the inverse |
| MovInv32.RunBlocks | thirdParty/cuda_memtest/tests.cpp:1050-1055 | a launch, for every order of its blocks |
| MovInv32.RunPhase | thirdParty/cuda_memtest/tests.cpp:1050-1071 | visits every memory block exactly once, and reports exactly the words that are wrong |
| MovInv32.LaunchesEndIff | thirdParty/cuda_memtest/tests.cpp:1050-1050 | the loop over the launches, with its 32-bit counter, ends if and only if there are at most 2^32 - 128 blocks |
| MovInv32.MovInv32 | thirdParty/cuda_memtest/tests.cpp:1042-1075 | for memory with any faults, whatever it held before: the errors reported are exactly the words that do not keep their pattern and those that do not keep its inverse |
| MovInv32.Test6 | thirdParty/cuda_memtest/tests.cpp:1079-1095 | for memory with any faults: no error is reported if and only if every word keeps every pattern with one bit set and every one with one bit clear; every word is written with all of them |
| MovInv32.StuckBitIsFault | thirdParty/cuda_memtest/tests.cpp:1074-1091 | a bit that is stuck, of any word, is such a fault |
| Moments.RadicandNotNegative | include/picongpu/plugins/Emittance.x.cpp:651-658 | for every set of samples with weights that are not negative, in every range of bins, the radicand is not negative (weighted Cauchy-Schwarz) |
| Moments.FormNotNegative | include/picongpu/plugins/Emittance.x.cpp:141-161 | the quadratic form of the moments is not negative |
| Emittance.Bins.Add | include/picongpu/plugins/Emittance.x.cpp:141-161 | one bin gains the four sums, all others are unchanged |
| Emittance.Measure | include/picongpu/plugins/Emittance.x.cpp:126-139 | a particle's normed weight, momentum per particle, position and bin, from its linear cell index |
| Emittance.ParticleContributes | include/picongpu/plugins/Emittance.x.cpp:122-161 | in physical units, a macro particle that stands for w particles of momentum u in a given cell contributes its normed weight and the weighted squares and product of their momentum over electron mass and absolute position, to the bin of its cell |
| Emittance.AddParticles | include/picongpu/plugins/Emittance.x.cpp:120-163 | for every order in which the threads add, each shared bin gains the moments of the selected particles in it |
| Moments.TotalOfOrder | include/picongpu/plugins/Emittance.x.cpp:120-163 | the moments of samples do not depend on their order |
| Emittance.MergeBins | include/picongpu/plugins/Emittance.x.cpp:168-195 | the shared bins are added to the global ones at their offset |
| Emittance.KernelCalcEmittance | include/picongpu/plugins/Emittance.x.cpp:77-196 | every global bin gains the moments of the supercell's selected particles in it |
| Emittance.RangeOfSamples | include/picongpu/plugins/Emittance.x.cpp:642-650 | the sum of the bins over any range has the moments of the particles in the range |
| Emittance.ScaledRadicand | include/picongpu/plugins/Emittance.x.cpp:637-691 | unit conversion multiplies the radicand by the square of one factor |
| Emittance.WindowSums | include/picongpu/plugins/Emittance.x.cpp:637-650 | the window's sums, converted bin by bin |
| Emittance.SliceSums | include/picongpu/plugins/Emittance.x.cpp:670-691 | a slice's sums, converted in part bin by bin and in part as a whole, have the same factors |
| Emittance.AllSlices | include/picongpu/plugins/Emittance.x.cpp:670-691 | slice k covers ten bins from start + 10 k, cut at the end of the window |
| Emittance.SlicesPartition | include/picongpu/plugins/Emittance.x.cpp:670-678 | every bin of the window, and no other, is in exactly one slice; the slices' moments add up to the window's |
| Emittance.CalculateSums | include/picongpu/plugins/Emittance.x.cpp:120-691 | from particles to radicands, for every order of supercells and particles: the window's and every slice's sums are those of the particles in them, in the same units, with radicands that are not negative |
| CiJobs.ExtendJobWithTestRequirement | share/ci/pypicongpu_generator.py:226-245 | the new job has the old one's dictionary, and the dictionary has one entry changed |
| CiJobs.OldValuesDoNotMatter | share/ci/pypicongpu_generator.py:249-286 | what the dictionary held for the packages still to come makes no difference to the jobs |
| CiJobs.ConstructJob | share/ci/pypicongpu_generator.py:249-286 | although all calls share one dictionary: the jobs, variables included, and the exception if any, are those of a generator that copies it |
| CiJobs.PrintsTheProduct | share/ci/pypicongpu_generator.py:249-286 | the jobs printed are exactly those of the product of all versions, one for each choice and in order |
| CiJobs.ChoicesComplete | share/ci/pypicongpu_generator.py:274-286 | the product has every choice of versions, and nothing else |
| CiJobs.ChoicesOrdered | share/ci/pypicongpu_generator.py:274-286 | the product is in strict lexicographic order, and no choice occurs twice |
| CiJobs.VariablesMatchName | share/ci/pypicongpu_generator.py:241-243 | a job's name shows the versions its variables have, for distinct packages; other variables are unchanged |
| CiJobs.NameShows | share/ci/pypicongpu_generator.py:241-243 | a job's name is the initial one followed by an underscore, name and version of every package, in order and with nothing in between |
| CiJobs.FailsIff | share/ci/pypicongpu_generator.py:274-286 | exactly when an exception ends the generation: no packages, or a package without an entry that is reached |
| CiJobs.UnknownPrintsNothing | share/ci/pypicongpu_generator.py:274-286 | with a package that has no entry nothing is printed, exception or not |
| ReverseBits.ReverseBits | include/pmacc/algorithms/reverseBits.hpp:43-61 | for every width, bit k of the result is bit width - 1 - k of the value, although the loop starts from the whole value and may stop early |
| ReverseBits.ReverseIsUnique | include/pmacc/algorithms/reverseBits.hpp:43-61 | only one word has these bits |
| ReverseBits.ReverseTwice | include/pmacc/algorithms/reverseBits.hpp:43-61 | reversing twice is the identity |

## Left out

- Floating-point rounding everywhere, among it the purpose of the 0.5 shift and the HIP workaround in
  `moveParticle`; the `float` variant of the atomic increment.
- The use of a task object after a nested activation has deleted it, and cooperative tasks at
  shutdown: the code does not settle them. Task ids are taken to be fresh, as the id counter makes
  them until it wraps around; an action that would reuse one is skipped.
- What tasks do besides calling the manager; compute-device events, streams and transactions.
- EventManager.Manager.RunActions: an active task is a finite list of polls, so that termination is
  proved for active tasks that each need finitely many polls. A cooperative task acts in finitely many
  polls and may then stay without completing, as the signal task does while it waits for other ranks.
- EventManager.Manager.Execute: the rules for task code are sufficient. Whether tasks that break them
  hang depends on which observers and tasks run first; no condition on their code is given for it.
- EventManager.Manager.WaitForFinished: where a wait never ends the method ends and says so; the
  rounds that the source goes on with are followed by `WaitInVain`, for any number of them.
- Reduction.FillShared: asks, like `RunBlock`, `Launch` and `FirstPass`, that n plus the number of
  threads is at most 2^32, which `ClassesReadIff` shows to be exactly when every thread reads its
  class. What a kernel goes on to do with an index that has wrapped around is not modelled; `Reduce`
  reports it. Functors that are not associative and commutative, and the copy of the result to the
  host, are not modelled.
- Communicator: one dimension, process start-up, host ranks, send and receive. A mask is a set of
  directions, its bit representation is not modelled.
- GridDistribution.ParserGridDistribution.GetOffset: asks, like `GetLocalSize`, that the device is in
  the list and that the devices can be counted in 32 bits, as the source looks at neither.
- MovInv32.RunPhase: asks for at most 2^32 - 128 blocks of one megabyte, which is exactly when its loop
  ends (`LaunchesEndIff`). The record of the last ten errors, `error_checking`, the OpenCL copies and
  the other memory tests are not modelled.
- Interpolation: the assignment functions are evaluated at the cells' distances, not through their
  cache; the variants of the shapes for particles out of range belong to current deposition.
- Emittance: MPI reduction and gathering, the square root and the division by the number of
  particles, and file output. Weights are positive, as the source divides by them.
- CiJobs: YAML text, the queries for versions and the loop over Python versions, each of which starts
  from a dictionary of its own.
- Field classes, halo exchange, solvers, particle pushers, other plugins, data connector, grid layout,
  documentation and packaging scripts.
