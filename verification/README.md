# Verified core of the gadget search

A Dafny model of the hard parts of the motion-planning gadget search, with proofs. It covers the automaton library
(minimization of DFAs and NFAs, subset construction, strong components, canonical labelling, regular expressions, the
accepting shuffle), the lock-free parallel reduction, the search driver with its task scheduler, the interval sets with
the completion store built on them, and the packed form of gadgets.

Code that works in place is modelled by classes, arrays and loops; each such method is proved against a specification
on values, and the promises of the library are theorems about that specification. `dafny verify dfyconfig.toml` checks
everything.

The main results:

- Hopcroft's algorithm on partial DFAs and Paige and Tarjan's on NFAs, both on arrays and worklists, end with the
  coarsest stable partition (`Hopcroft`, `PaigeTarjan`); from end to end they keep the language, with the exact
  conditions under which they do not (`Minimization`, `ExplodedMinimizer`, `LeftMergeTheory`, `BlockCounts`).
- The parallel reduction computes one fixed tree under every interleaving (`TransformReduce`, `ReductionRuns`), and
  what that tree computes is characterised (`TreeFold`).
- Canonical labelling decides sameness up to renaming, with the exact condition for acceptance (`CanonicalForm`).
- The search driver and the scheduler are sound, complete and finite over all runs (`SearchDriver`, `SearchHistory`,
  `Scheduler`).
- What regular expressions compile to is characterised exactly, through all simplifications; it is their language, with
  the exact conditions for folded repetitions and for intersections (`RegexCompile`, `RegexFolding`).
- Interval lists are exact finite sets in a unique normal form, and the completion store is one set (`Intervals`,
  `IntervalAggregation`, `CompletionStore`).
- Gadgets survive packing and unpacking, exactly as far as 32-bit arithmetic reaches (`GadgetEdges`, `GadgetCodec`,
  `EdgeCoder`).

| files | component |
|---|---|
| `SeqFacts`, `Sorting`, `Options`, `Arithmetic`, `Automata`, `Languages` | shared definitions |
| `RefinablePartition`, `InverseIndex`, `InitialPartition`, `PartitionRefinement` | what both minimizers share |
| `HopcroftTheory`, `Hopcroft` | DFA minimization |
| `NodeList`, `SplitterLists`, `PaigeTarjanTheory`, `PaigeTarjan` | NFA optimization |
| `Survivors`, `Quotient`, `QuotientBlocks`, `Minimization`, `BlockCounts`, `LeftMergeTheory`, `LeftMerge` | renumbering and the whole operations |
| `TransformReduce`, `ReductionRuns`, `TreeFold` | parallel reduction |
| `StrongComponents` | strong components |
| `SubsetTheory`, `SubsetConstruction`, `Determinization`, `MinimalSize`, `ExplodedMinimizer` | determinization, minimizing an automaton |
| `EdgeEnumeration`, `Renumbering`, `CanonicalLabelling`, `CanonicalForm` | canonical labelling |
| `RegexFolding`, `RegexAutomata`, `Complement`, `Product`, `RegexCompile` | regular expressions |
| `ShuffleTheory`, `ShuffleConstruction` | accepting shuffle |
| `SearchState`, `SearchDriver`, `SearchHistory`, `Scheduler` | search |
| `Intervals`, `IntervalAccumulation`, `IntervalAggregation`, `CompletionStore` | interval sets, completion store |
| `EdgeCoder`, `Pack`, `GadgetCodec`, `GadgetNumbering`, `ComponentCount`, `GadgetEdges` | packed gadgets |

## Model

| member | source | states |
|---|---|---|
| RefinablePartitions.RefinablePartition.constructor | src/hopcroft.cpp:191-199 | from a permutation of the states cut into runs, the three arrays describe exactly the partition whose blocks are those runs |
| RefinablePartitions.RefinablePartition.InitializeStateToPartition | src/nfa-optimize.cpp:509-515 | every state's entry names the block it lies in and its own place in the listing |
| RefinablePartitions.RefinablePartition.Mark | src/hopcroft.cpp:90-98 | records one more state for splitting: the marked set grows by it, and its block becomes a suspect exactly when it was not one |
| RefinablePartitions.RefinablePartition.Split | src/hopcroft.cpp:126-147 | swapping the marked states to the front and cutting there gives exactly the partition in which the marked members of the block form a new block; the arrays stay inverse to each other |
| InverseIndexes.BuildInverse | src/hopcroft.cpp:205-222 | the run of every (target, symbol) pair lists exactly the predecessors, each once |
| InitialPartitions.Build | src/nfa-optimize.cpp:407-515 | the initial blocks are non-empty and two states share one exactly when they agree on acceptance and on every symbol they crash on |
| InitialPartitions.CutByCrash | src/nfa-optimize.cpp:468-482 | one more symbol: after partitioning every run the blocks are sorted by acceptance and the crash pattern on one symbol more |
| PartitionRefinement.SplitKeepsStable | src/hopcroft.cpp:126-147 | splitting by a set that no stable refinement separates keeps every stable refinement of the start a refinement of the result |
| Hopcroft.HopcroftCore.InitializeWaitingSet | src/hopcroft.cpp:69-83 | although the largest block is never queued, every pair of blocks that can separate two states of one block has one of its pairs waiting |
| Hopcroft.HopcroftCore.Collect | src/hopcroft.cpp:85-101 | marks exactly the states with a transition on the symbol into the block |
| Hopcroft.HopcroftCore.Refine | src/hopcroft.cpp:103-124 | splits all suspects, only ever refining and never past a stable partition, and restores the waiting invariant |
| Hopcroft.HopcroftCore.AddBetter | src/hopcroft.cpp:167-171 | queues the smaller of the two parts, the first if they are equal |
| Hopcroft.HopcroftCore.CoreLoop | src/hopcroft.cpp:37-51 | from any partition uniform in acceptance and crashing, the loop ends, whether the queue empties or all blocks are single states, with the coarsest stable refinement |
| HopcroftTheory.AllButOnePending | src/hopcroft.cpp:69-83 | leaving one block out of the queue loses nothing: two targets in different blocks cannot both be in it |
| HopcroftTheory.SplitKeepsPending | src/hopcroft.cpp:103-124 | requeueing both parts of a waiting block or either part of another keeps every clash between two states of a block waiting |
| HopcroftTheory.IdleMeansStable | src/hopcroft.cpp:37-51 | with an empty queue the partition is stable |
| HopcroftTheory.BlocksAreLanguages | src/hopcroft.cpp:37-147 | states of one block accept the same words; all same-language states share blocks if and only if same-language states crash on the same symbols |
| HopcroftTheory.LiveMeansCrashesAgree | src/automaton.tcc:447-450 | if every state can reach acceptance, same-language states crash on the same symbols |
| HopcroftTheory.DeadStateStaysApart | src/automaton.tcc:447-450 | why dead states have to go first: two states without any word that differ in crashing |
| Minimization.Minimize | src/hopcroft.cpp:260-340 | the language is kept if and only if the automaton is not universal; otherwise the result is deterministic, has one state for each block and cannot be shrunk further, and is reduced exactly if same-language states crash alike, in particular if all states are live |
| Minimization.FullIffTotal | src/hopcroft.cpp:296-304 | a DFA has states times symbols edges exactly if no state crashes |
| Minimization.UniversalLost | src/hopcroft.cpp:15-22 | the two-state automaton written for a universal one rejects the empty word |
| Minimization.UniversalLostWhenExploded | src/hopcroft.cpp:432-442 | for exploded automata all edges of a universal automaton are dropped: it accepts every word over its alphabet, what is left of it the empty word alone |
| NodeLists.NodeList.Create | src/nfa-optimize.cpp:66-95 | a new one-element list at a node that was on no list; all other lists are untouched |
| NodeLists.NodeList.InsertAfter | src/nfa-optimize.cpp:34-45 | inserts one element into one list and leaves every other list as it was |
| NodeLists.NodeList.EraseAfter | src/nfa-optimize.cpp:46-57 | takes the next element off a list and puts its node on the free list |
| PaigeTarjan.NFAOptimizer.InitializeCounts | src/nfa-optimize.cpp:447-452 | counts every state's successors in the one initial splitter, and stores no zero |
| PaigeTarjan.NFAOptimizer.InitializeSplitters | src/nfa-optimize.cpp:517-530 | one list with all blocks, waiting exactly if there are at least two |
| PaigeTarjan.NFAOptimizer.Select | src/nfa-optimize.cpp:195-212 | takes one block off the first compound splitter into a splitter of its own, at most half of the old one, and keeps lists, waiting queue and block-to-splitter table consistent |
| PaigeTarjan.NFAOptimizer.Collect | src/nfa-optimize.cpp:214-237 | marks exactly the predecessors of the refiner and adds their exact successor counts |
| PaigeTarjan.NFAOptimizer.CollectRemainder | src/nfa-optimize.cpp:239-269 | marks exactly the states whose successors in the old splitter all lie in the refiner, and leaves exact counts for the remainder |
| PaigeTarjan.NFAOptimizer.Refine | src/nfa-optimize.cpp:271-282 | afterwards no block is cut by the marked set, nothing was split needlessly, and new blocks are on the list of the block they come from |
| PaigeTarjan.NFAOptimizer.CoreLoop | src/nfa-optimize.cpp:177-187 | ends with the coarsest stable refinement of the initial blocks, with exact counts, and every state was in a chosen refiner at most log2 n times |
| PaigeTarjan.NFAOptimizer.Run | src/nfa-optimize.cpp:128-135 | from empty counts and lists to the coarsest stable refinement |
| PaigeTarjanTheory.ThreeWaySplit | src/nfa-optimize.cpp:177-187 | refining by the refiner and by the states that reach only the refiner makes the partition stable for both halves of a splitter it was stable for |
| PaigeTarjanTheory.CountsStayExact | src/nfa-optimize.cpp:214-269 | adding for the refiner and subtracting from the remainder keeps all counts exact |
| PaigeTarjanTheory.SingleSplittersMeanStable | src/nfa-optimize.cpp:177-187 | when no splitter has two blocks, stability for the splitters is stability |
| PaigeTarjanTheory.ChosenAtMostLog | src/nfa-optimize.cpp:195-212 | a state chosen k times lies in a splitter of at most n / 2^k states, so 2^k is at most n |
| Survivors.Finish | src/nfa-optimize.cpp:316-382 | runs past the end of the source table exactly if there are more blocks than places; otherwise the renumbering is constant on blocks, injective, onto the first numbers, fixes 0, and each number comes from itself, or from any member of a block that has no small one |
| Survivors.LeftoversMatch | src/nfa-optimize.cpp:368-381 | after all blocks have been looked at, as many small numbers as blocks are left over |
| Quotients.RenumberRow | src/automaton.tcc:493-507 | renumbers a transition list in place, from the back, folding entries that meet: same edges up to renumbering, each target once |
| Quotients.CompressRenumber | src/automaton.tcc:485-514 | moving survivors down in place gives each number the renumbered row and the acceptance of the state it comes from |
| Quotients.CompressedHoldsQuotient | src/automaton.tcc:485-514 | the tables then hold the quotient automaton |
| Quotients.QuotientKeepsLanguage | src/hopcroft.cpp:342-408 | every state's language survives |
| Quotients.QuotientIsReduced | src/hopcroft.cpp:342-408 | a DFA stays one, and different states have different languages if and only if same-language states crashed alike |
| Minimization.Optimize | src/nfa-optimize.cpp:128-135 | trivial languages are recognised exactly; the run leaves its buffer exactly if some state goes but more blocks than transitions remain, or there is no transition, all states accept and there are not two of them; in all other cases the language of every state is kept, nothing is left unchanged that has fewer blocks than states, and what is shrunk has one state for each block, before and after |
| QuotientBlocks.QuotientApart | src/nfa-optimize.cpp:316-382 | the automaton of the blocks has as many blocks as states: shrinking once is enough |
| BlockCounts.SameCount | src/nfa-optimize.cpp:316-335 | the number of blocks depends on the automaton only |
| BlockCounts.CountsDecide | src/nfa-optimize.cpp:316-335 | every NFA with n states and m transitions stays inside the buffer if and only if n is at most m + 1 |
| BlockCounts.TooManyStates | src/nfa-optimize.cpp:316-335 | for all larger n an NFA that leaves it |
| Minimization.EnteredMeansInside | src/nfa-optimize.cpp:316-335 | an automaton with a transition whose states, but the first, are all entered stays inside |
| LeftMerge.MergeRenumber | src/automaton.tcc:516-537 | pooling rows in place and shrinking leaves tables that hold the merged automaton |
| LeftMerge.OptimizeLeft | src/automaton.tcc:562-580 | on a run over the reversed automaton: words are never gained; the outcome is one of the admissible renumberings, with one state for each block and nothing left to merge, and if the automaton is safe to merge the language is kept |
| LeftMerge.MergedApart | src/automaton.tcc:516-537 | turned round, the merged automaton is the automaton of the blocks, so that merging once is enough |
| LeftMerge.OptimizeForked | src/automaton.tcc:516-537 | the run on a three-state automaton that loses its only word |
| LeftMergeTheory.MergedAccepts | src/automaton.tcc:516-537 | what is accepted afterwards: the words that lead to a state whose survivor accepts |
| LeftMergeTheory.MergedKeepsLanguageIff | src/automaton.tcc:516-537 | of one given renumbering: the language is kept if and only if no word is lost at a dropped state |
| LeftMergeTheory.MergedKeepsLanguageIffNoneDropped | src/automaton.tcc:516-537 | of one given renumbering, where no word leads to two blocks: if and only if no reachable accepting state has a rejecting survivor |
| LeftMergeTheory.MergingKeepsIffSafe | src/automaton.tcc:516-537 | every renumbering that can come out keeps the language if and only if every accepted word leads to a state all of whose possible survivors accept; for an automaton, before anything is numbered |
| LeftMergeTheory.AllKeepIffSafe | src/nfa-optimize.cpp:336-366 | the same for one naming of the blocks: rejecting survivors can be chosen in all blocks at once |
| LeftMergeTheory.DelegatesCanStand | src/nfa-optimize.cpp:336-381 | any choice of possible survivors, 0 for its own block, is made by some renumbering |
| LeftMergeTheory.SafeIffStatesSafe | src/automaton.tcc:516-537 | where no word leads to two blocks, that is if and only if every reachable accepting state has only accepting possible survivors |
| LeftMergeTheory.MergedKeepsLanguage | src/automaton.tcc:516-537 | in particular if acceptance is uniform on blocks |
| LeftMergeTheory.MergingCanLoseWords | src/automaton.tcc:516-537 | a three-state automaton whose only word is lost by every renumbering that can come out |
| TransformReduce.StepKeepsInv | src/transform_reduce.hpp:34-59 | every step of every thread keeps the invariant: each node is waiting, held, published or used, and says where its value is |
| ReductionRuns.EveryRunReduces | src/transform_reduce.hpp:27-63 | for two or more tasks, any positive number of threads and every interleaving: nobody is stuck or reads a moved-from result, there are at most 12n - 5 steps, and in the end every task was transformed once, every node combined once, and the root holds the tree value |
| ReductionRuns.NoRaces | src/transform_reduce.hpp:34-59 | no two threads are ever about to touch the same result |
| ReductionRuns.StepDecreases | src/transform_reduce.hpp:37-58 | every step comes nearer to the end |
| TreeFold.TreeIsRotatedFold | src/transform_reduce.hpp:40-57 | for an associative combination the tree value is the fold of the tasks, the first few moved to the back |
| TreeFold.TreeIsSequentialFold | src/transform_reduce.hpp:40-57 | if it is commutative too, the sequential fold |
| TreeFold.OrderKeptIffPowerOfTwo | src/transform_reduce.hpp:40-57 | all associative combinations of n tasks give the sequential fold if and only if n is a power of two |
| TreeFold.OrderOfThree | src/transform_reduce.hpp:40-57 | three tasks come out as second, third, first |
| TreeFold.ResultIsFold | src/transform_reduce.hpp:11-63 | for one task, and for any power of two or a commutative combination if the combination is associative, the result is the sequential fold of the transformed tasks |
| TreeFold.ResultIsRotatedFold | src/transform_reduce.hpp:11-63 | for any number of tasks but none: the fold of the tasks, the first few moved to the back |
| TreeFold.EveryRunReturns | src/transform_reduce.hpp:11-63 | every finished run returns that result |
| StrongComponents.Tarjan.StrongConnect | src/automaton.cpp:706-727 | one visit with its fields and recursion is the visit on values, from any index, with numbers that wrap around |
| StrongComponents.ConnectRight | src/automaton.cpp:706-727 | as long as the numbers suffice a visit reaches everything reachable, returns a low link that is a state on the stack it reaches, and appends exactly the finished components |
| StrongComponents.Tarjan.Compute | src/automaton.cpp:728-739 | is the computation on values from any start index; if it cannot reach the sentinel the lists are the states, each once, and two of them lie between the same marks exactly when each reaches the other |
| StrongComponents.FoundIffEnoughNumbers | src/automaton.cpp:701-740 | the components of all graphs of n states are found if and only if n numbers from the start index on stay below the sentinel |
| StrongComponents.TooFewNumbers | src/automaton.cpp:701-740 | otherwise a graph whose one step is a loop gets a state listed twice |
| SubsetConstruction.DeterminizeSets | src/automaton.cpp:361-404 | up to 64 states the bit sets emit exactly the reference sequence of states and transitions |
| SubsetConstruction.DeterminizeVectors | src/automaton.cpp:560-642 | the sorted vectors emit the same sequence, or give up exactly if it has more than one state and more than allowed |
| SubsetConstruction.Determinize | src/automaton.cpp:560-565 | both paths agree; only the second obeys the limit |
| SubsetTheory.Terminates | src/automaton.cpp:380-403 | the work list is empty after at most 2^n expansions |
| SubsetTheory.EmittedInOrder | src/automaton.cpp:380-403 | no transition is emitted twice or before its states, and the newest subset waiting is expanded next |
| SubsetTheory.StatesAreReachableSubsets | src/automaton.cpp:380-403 | the states are exactly the reachable non-empty subsets, each once |
| SubsetTheory.DeterminizeKeepsLanguage | src/automaton.cpp:380-403 | the result is deterministic and accepts the language of the NFA |
| EdgeEnumeration.SameEdges | src/automaton.hpp:68-89 | enumerating two automata that differ by names, with orders that correspond, gives the same edges and corresponding numbers at every call |
| EdgeEnumeration.EnumerationEnds | src/automaton.hpp:68-111 | the enumeration is over after at most one call per state and symbol and one more |
| EdgeEnumeration.RenumberingIsPermutation | src/automaton.hpp:90-107 | on a connected automaton the numbers are a permutation that fixes 0 |
| EdgeEnumeration.OutsAreTransitions | src/automaton.hpp:68-89 | the edges returned are exactly the transitions of the relabelled automaton |
| CanonicalLabelling.CallEnumerator | src/automaton.hpp:68-89 | the resumable loop computes one step of the reference enumeration |
| CanonicalLabelling.LessIsLexicographic | src/automaton.hpp:295-307 | edges are compared like numbers whose digits are source, target and symbol |
| CanonicalLabelling.PlayRound | src/automaton.hpp:295-307 | erasing while iterating backwards leaves exactly the enumerators with the least edge of the round, in order |
| CanonicalLabelling.TournamentDecides | src/automaton.hpp:295-308 | whoever is left has the least enumeration, and everybody with the least enumeration is left |
| CanonicalLabelling.Tournament | src/automaton.hpp:295-308 | ends, with exactly the permutations of least enumeration |
| CanonicalLabelling.RunToCompletion | src/automaton.hpp:90-107 | finishing without returning edges makes the numbers that the calls would have made |
| CanonicalLabelling.CanonicalizeRenumber | src/automaton.hpp:279-314 | the automaton relabelled by a least permutation and its numbering |
| Renumbering.ApplyReversePermutation | src/algoutils.hpp:41-54 | moves every entry to its place, in place, using the permutation up |
| Renumbering.Renumber | src/automaton.hpp:623-648 | transitions, acceptance and symbols are those of the automaton under the new names |
| CanonicalForm.LeastEnumerationsAgree | src/automaton.hpp:295-308 | automata that differ by a state relabelling fixing 0 and a member of a group of symbol permutations have the same least enumeration |
| CanonicalForm.SameCanonicalTransitions | src/automaton.hpp:279-314 | so they get the same canonical transitions |
| CanonicalForm.OneFormIffSymmetriesKeep | src/automaton.hpp:308-309 | all canonical forms of an automaton and of its relabellings are equal if and only if every symmetry of its transitions, with symbols permuted by the group, keeps acceptance |
| CanonicalForm.BrokenSymmetryShows | src/automaton.hpp:308-309 | if a symmetry moves acceptance, whatever permutation wins also wins for a relabelling, with a different result |
| CanonicalForm.SameCanonicalForm | src/toggles/runner/gadget-encoding.cpp:184-199 | where accepting and rejecting states alternate, as in gadgets, the canonical forms are equal |
| CanonicalForm.ForkHasTwoForms | src/automaton.hpp:308-309 | a four-state automaton with two canonical forms |
| SearchStates.SearchState.Add | src/toggles/driver/toggles-driver.cpp:117-160 | adds the ids that are neither closed nor in the subgeneration yet |
| SearchStates.SearchState.EraseFromSubgeneration | src/toggles/driver/toggles-driver.cpp:161-171 | moves ids from the subgeneration to the closed set |
| SearchStates.SearchState.FlipGeneration | src/toggles/driver/toggles-driver.cpp:172-181 | returns the generation in normal form and starts an empty one |
| SearchStates.SearchState.FlipSubgeneration | src/toggles/driver/toggles-driver.cpp:182-192 | closes the subgeneration and joins it to the generation |
| SearchDriver.StepKeepsInv | src/toggles/driver/toggles-driver.cpp:347-640 | every phase keeps the invariant |
| SearchDriver.EveryRunIsSound | src/toggles/driver/toggles-driver.cpp:347-640 | in every run closed and subgeneration are disjoint, generations are pairwise disjoint, and no needs are left when a filter starts |
| SearchDriver.EveryIdIsDerivable | src/toggles/driver/toggles-driver.cpp:375-621 | every id ever met follows from the initial ids by finitely many edges, whatever the edges are |
| SearchDriver.StoppedIsComplete | src/toggles/driver/toggles-driver.cpp:385-391 | a run that stops has closed all connect targets of its generations and all combine targets of what passed the filter |
| SearchHistory.InitialIsKnown | src/toggles/driver/toggles-driver.cpp:375-383 | from the first phase on the initial ids are known |
| SearchHistory.StoppedHasFollowed | src/toggles/driver/toggles-driver.cpp:516-597 | a run that stops has closed the initial ids, the close targets of every subgeneration (with one player) and the mirror targets of every one but the first (if they are wanted); the closed ids are exactly those of the generations and those erased for their close edges, never both; and every subgeneration is what close and mirror edges made of its new ids |
| SearchHistory.ComputedBeforeFollowed | src/toggles/driver/toggles-driver.cpp:490-621 | connect edges, and close and mirror edges if they are computed, are followed only after the operation was given all of the ids that were not done and ran to its end |
| SearchDriver.FiniteRunsEnd | src/toggles/driver/toggles-driver.cpp:347-366 | in a universe of u ids a run whose operations succeed has at most 32u + 15 steps |
| Scheduler.Operation.Next | src/toggles/driver/toggles-driver.cpp:728-754 | hands out a second half exactly when one is due, else the next task, else nothing |
| Scheduler.Operation.Process | src/toggles/driver/toggles-driver.cpp:780-815 | books an answer; the estimate divides by a positive number |
| Scheduler.EtaRounds | src/toggles/driver/toggles-driver.cpp:784-785 | the estimate is the whole time units per task, rounded down, for each task left; it is zero exactly if no task is left or less than one unit was spent per task |
| Scheduler.EveryOrderIsSound | src/toggles/driver/worker-manager.cpp:46-60 | whatever order at least one worker answers in: every task is handed out once, nobody is idle while there is one, one second half at most is running, every file goes to exactly one second half; if none is running and files are pending, tasks are out and there are too few files or bytes; a second half started while tasks were out had enough of both; nothing is pending when all are idle, and there are at most two answers per task |
| Intervals.Coalesce | src/intervals.hpp:70-85 | any list sorted by start becomes the normal form of its points |
| Intervals.Contains | src/intervals.hpp:196-212 | binary search finds exactly the points of the list |
| Intervals.FindOverlap | src/intervals.hpp:237-256 | tells overlapping, adjacent and separate lists apart exactly |
| Intervals.Intersection | src/intervals.hpp:262-289 | the common points; normal lists give a normal list |
| Intervals.Union | src/intervals.hpp:295-334 | the points of both; normal lists give a normal list |
| Intervals.Difference | src/intervals.hpp:340-391 | the points of the first alone; a normal list gives a normal list, although the position can move back |
| Intervals.NormalIsUnique | src/intervals.hpp:70-85 | two normal lists with the same points are equal |
| IntervalAccumulation.MaximalIntervals | src/intervals.hpp:18-41 | increasing numbers become the normal form of their set |
| IntervalAccumulation.Accumulate | src/intervals.hpp:87-135 | numbers in any order, with repeats and any positive buffer size, become the normal form of their set |
| IntervalAccumulation.AccumulationIsCanonical | src/intervals.hpp:87-135 | two accumulations are equal exactly if the numbers are the same set |
| IntervalAggregation.Aggregate | src/intervals.hpp:393-452 | every covered point lies in exactly one group, the one keyed by the sorted keys that cover it; keys of groups differ; groups come in the order of their first points; normal input gives normal groups |
| CompletionStore.MergeRanges | src/toggles/completions.cpp:135-151 | the normal form of the union of all pages |
| CompletionStore.Completions.CompactFull | src/toggles/completions.cpp:153-184 | one main list with the same set |
| CompletionStore.Completions.Compact | src/toggles/completions.cpp:187-232 | empties a level upwards as counting carries, each full level into one page of the next, and keeps the set; it falls back to one list exactly if the levels up to the last are full |
| CompletionStore.Completions.Record | src/toggles/completions.cpp:236-328 | without overlap allowed: refuses exactly if an id is there already, changing nothing; otherwise extends the first page with room, one that touches preferred, or adds a page, or makes room by compacting; an extended page never exceeds the page size |
| CompletionStore.Completions.Subtract | src/toggles/completions.cpp:332-357 | set difference in normal form |
| CompletionStore.Completions.Intersect | src/toggles/completions.cpp:359-386 | set intersection in normal form |
| CompletionStore.Completions.CompactCompletion | src/toggles/completions.cpp:388-398 | compacts exactly if there are more levels than tolerated, and keeps the set |
| CompletionStore.FullLevelsOverflow | src/toggles/completions.cpp:187-192 | ten full levels are a valid shape, and they overflow |
| CompletionStore.RecordInFullStore | src/toggles/completions.cpp:236-328 | recording new ids in such a store has no result |
| CompletionStore.UnionSize | src/intervals.hpp:295-334 | a union has at most as many intervals as its parts together, and fewer if they touch |
| GadgetEdges.Deflate | src/toggles/runner/gadget-encoding.cpp:176-205 | the edges are exactly the two-step passages between accepting states, and the states on them are numbered as the passages mention them first |
| GadgetNumbering.NumberIsCount | src/toggles/runner/gadget-encoding.cpp:180-200 | the number of a state is the number of states mentioned before its first mention, passages being taken by start, symbol in and symbol out |
| GadgetNumbering.OneNumbering | src/toggles/runner/gadget-encoding.cpp:180-200 | there is only one such numbering |
| GadgetNumbering.InitialIsFirst | src/toggles/runner/gadget-encoding.cpp:180-200 | if a passage starts at the initial state, that is state 0 of the gadget |
| GadgetNumbering.MentionedIffOnPassage | src/toggles/runner/gadget-encoding.cpp:180-200 | the states numbered are the starts and ends of passages |
| GadgetEdges.DeflatedFits | src/toggles/runner/gadget-encoding.cpp:176-205 | if the symbols in use are the first ones, every edge can be coded |
| GadgetEdges.EncodeGadget | src/toggles/runner/gadget-encoding.cpp:372-396 | packing the edges of an automaton succeeds for every small gadget, and unpacking returns the counts and the sorted lists to the last byte; the number of components is right as long as the search for them has enough numbers |
| ComponentCounts.CountAcceptComponents | src/toggles/runner/gadget-encoding.cpp:162-172 | the number of strong components that have an accepting state, if the search for components has enough numbers |
| GadgetCodec.SplitEdges | src/toggles/runner/gadget-encoding.cpp:207-224 | directed edges are those without their reverse, undirected ones one of each pair, and with the idle ones nothing is lost |
| EdgeCoder.CodeIsOrderIsomorphism | src/toggles/runner/gadget-encoding.cpp:227-274 | if all codes fit into 32 bits the code is a bijection onto them that keeps the order |
| EdgeCoder.DecodeEncode | src/toggles/runner/gadget-encoding.cpp:230-265 | if the codes of one origin fit, decoding undoes coding |
| EdgeCoder.RoundTripsIffOriginFits | src/toggles/runner/gadget-encoding.cpp:230-265 | decoding undoes coding for all edges if and only if the codes of one origin fit into 32 bits |
| EdgeCoder.LargeCoderLosesEdges | src/toggles/runner/gadget-encoding.cpp:230-265 | a coder for which it does not |
| Pack.VarintRoundTrip | src/pack-detail.hpp:53-71 | what was written is read back, with the position behind it |
| Pack.VarintSizeIsExact | src/pack-detail.hpp:75-86 | the announced size is the number of bytes |
| Pack.PackReader.ReadVar | src/pack-detail.hpp:147-165 | advances by the number of bytes read and remembers overflow |
| Pack.PackWriter.WriteVarint | src/pack-detail.hpp:53-71 | writes the bytes at the position, or remembers overflow and writes nothing |
| GadgetCodec.HeaderRoundTrip | src/toggles/gadget-encoding-stats.cpp:8-26 | every header that can be built is read back, wherever the rest begins |
| GadgetCodec.CompressedSize | src/toggles/runner/gadget-encoding.cpp:276-284 | exactly the number of bytes the edges take |
| GadgetCodec.WriteCompressed | src/toggles/runner/gadget-encoding.cpp:286-294 | appends exactly the differences of the codes |
| GadgetCodec.ReadCompressed | src/toggles/runner/gadget-encoding.cpp:296-307 | adds the differences up again |
| GadgetCodec.EdgesRoundTrip | src/toggles/runner/gadget-encoding.cpp:286-307 | the edges come back, and all their bytes are used |
| GadgetCodec.Encode | src/toggles/runner/gadget-encoding.cpp:372-396 | header and both lists, sized exactly |
| GadgetCodec.DecodeToSlls | src/toggles/runner/gadget-encoding.cpp:419-432 | reads what the format says |
| GadgetCodec.GadgetRoundTrip | src/toggles/runner/gadget-encoding.cpp:372-432 | whatever was packed unpacks to the sorted lists, using every byte, if the codes of one origin fit |
| GadgetCodec.SmallGadgetsPack | src/toggles/runner/gadget-encoding.cpp:372-396 | if all codes fit, packing succeeds |
| RegexFolding.Cat | src/expr.cpp:48-63 | flattening keeps the concatenation |
| RegexFolding.Alt | src/expr.cpp:64-79 | flattening keeps the union |
| RegexFolding.ConjDenotes | src/expr.cpp:80-97 | the intersection |
| RegexFolding.CompDenotes | src/expr.cpp:129-137 | the complement, also of a complement |
| RegexFolding.RepeatDenotes | src/expr.cpp:98-128 | has a result unless a fold multiplies bounds beyond an int; the language and well-formedness are kept unless it multiplies an unlimited bound |
| RegexFolding.FoldRightIff | src/expr.cpp:122-125 | folding n times a repetition of anything is right if and only if the inner bound is not unlimited or one word more than the wrapped bound allows is no more than it allows |
| RegexFolding.LetterFoldIff | src/expr.cpp:122-125 | of a letter: if and only if the inner bound is not unlimited |
| RegexFolding.UnlimitedFoldLosesWords | src/expr.cpp:122-125 | all long words are lost when the bound is unlimited |
| RegexFolding.RepeatOverflows | src/expr.cpp:122-125 | an input whose bounds overflow |
| RegexFolding.FoldDenotes | src/expr.cpp:48-137 | simplification on the way up keeps the language and well-formedness of every expression without such folds |
| RegexFolding.FoldSimplifies | src/expr.cpp:48-137 | whatever is written, what is put together has no idle part, no list in a list of its kind, no single or repeated repetition and no double complement |
| Languages.PowerOfRange | src/expr.cpp:122-125 | n times between a and b words is between na and nb words |
| Languages.BoundIsNoLossIff | src/expr.cpp:122-125 | an upper bound on a repetition loses nothing if and only if one repetition more stays inside it |
| RegexAutomata.CatOnce | src/automaton-regexesque.hpp:85-100 | words of the first automaton followed by words of the second |
| RegexAutomata.Cat | src/automaton-regexesque.hpp:109-118 | the concatenation of a list, the empty word for none |
| RegexAutomata.Alt | src/automaton-regexesque.hpp:142-153 | the union of a list, nothing for none |
| RegexAutomata.StarOf | src/automaton-regexesque.hpp:334-346 | the closure |
| RegexAutomata.NCopies | src/automaton-regexesque.hpp:356-360 | the n-th power |
| RegexAutomata.NOrMore | src/automaton-regexesque.hpp:361-365 | at least n words |
| RegexAutomata.Range | src/automaton-regexesque.hpp:366-382 | between min and max words, although only the last copy is wired on |
| Products.Conj | src/automaton-regexesque.hpp:271-306 | the reachable product accepts exactly the intersection, with at most as many states as there are pairs |
| Determinization.DeterminizeInto | src/automaton.cpp:644-661 | the emitted states and transitions put together: a deterministic automaton of the same language, each state being where some word leads |
| Complements.Totalize | src/automaton.tcc:373-387 | exactly the missing steps are added, to one new state, which is needed exactly if something is missing |
| Complements.Comp | src/automaton-regexesque.hpp:384-392 | the complement over the alphabet |
| ExplodedMinimizer.RemoveDeadStates | src/automaton.cpp:246-293 | what cannot reach acceptance is removed: a deterministic automaton of the same language whose states are all live and all reached, state 0 being state 0 |
| ExplodedMinimizer.NumberLive | src/automaton.cpp:246-284 | numbers exactly the states that can reach acceptance |
| ExplodedMinimizer.UniversalIffAll | src/hopcroft.cpp:436-442 | after that the test for universal automata finds exactly the language of all words |
| ExplodedMinimizer.AllAcceptIffPrefixClosed | src/hopcroft.cpp:473-501 | all states accept, so that the block of rejecting ones is empty and kept, if and only if prefixes of accepted words are accepted |
| ExplodedMinimizer.ImplodedAccepts | src/automaton.cpp:334-357 | the automaton put together from numbered blocks accepts from each number what the states of its block accept |
| ExplodedMinimizer.ImplodedMinimal | src/hopcroft.cpp:507-520 | and is minimal if and only if every number is used |
| ExplodedMinimizer.MinimizeAutomaton | src/automaton.tcc:408-466 | the language of all words becomes that of the empty word and every other is kept; the result is deterministic and, trivial languages apart, minimal if and only if some accepted word has a rejected prefix; then no deterministic automaton of the language is smaller, and otherwise by one state at most |
| MinimalSize.NeedsAsMany | src/automaton.tcc:408-466 | states that words lead to and whose languages differ need as many states in every deterministic automaton of the language |
| ExplodedMinimizer.OptionalLetterIsPrefixClosed | src/hopcroft.cpp:473-501 | a language where it is not |
| RegexCompile.BothRightIffHarmless | src/regex.hpp:44-54 | with parts compiled right, an intersection is compiled right if and only if no part, but one known to be minimal, stands for all words or the others have at most the empty word in common |
| RegexCompile.HarmlessIsRight | src/regex.hpp:15-70 | if that holds at every intersection, the expression is compiled right |
| RegexCompile.UniversalPartLosesWords | src/regex.hpp:44-54 | the complement of nothing and a letter compile to nothing; all words and the letter do not |
| RegexCompile.Interpret | src/regex.hpp:15-70 | the automaton of every well-formed expression accepts exactly the words the expression compiles to, where parts of intersections that stand for all words are taken for the empty word; these are the words it denotes if every intersection is harmless |
| RegexCompile.Compile | src/regex.hpp:15-70 | from the expression as written, through the simplifications, to an automaton of what it compiles to, which is its language if every intersection is harmless |
| ShuffleTheory.FollowsKeepsInactive | src/automatonbase.cpp:292-333 | a step keeps the inactive automaton in an accepting state |
| ShuffleTheory.ConstructionIsShuffle | src/automatonbase.hpp:408-413 | if both initial states accept, the constructed runs are exactly the words split between the automata with switches only where both accept |
| ShuffleTheory.ExactIffBothAccept | src/automatonbase.cpp:283-291 | going by whether the initial states accept: the construction is exact for all deterministic automata of that kind if and only if both do |
| ShuffleTheory.BothRejectExactIff | src/automatonbase.cpp:283-291 | if both initial states reject: exact if and only if one of the two languages is empty |
| ShuffleTheory.OneRejectsExactIff | src/automatonbase.cpp:283-291 | if one does: exact if and only if the words of the construction that begin with the accepting one also begin with the other |
| ShuffleConstruction.ShuffleAccept | src/automatonbase.cpp:267-337 | the states are distinct pairs closed under the construction's steps; if both initial states accept, the inactive automaton accepts in every one of them and the result accepts exactly the shuffle |

## Findings

Properties one would expect that fail, each with an input and the exact condition.

- Minimizing a universal DFA (all states accept, none crashes) changes its language: `make_all` (src/hopcroft.cpp:15-22)
  writes an automaton for single symbols, and the minimizer of exploded automata (src/hopcroft.cpp:432-442) drops all
  transitions. Input: any such automaton. `Minimize` keeps the language if and only if the automaton is not universal
  (`Minimization.Minimize`, `UniversalLost`); `Automaton::minimize` turns the language of all words into that of the
  empty word and keeps every other (`ExplodedMinimizer.MinimizeAutomaton`, `Minimization.UniversalLostWhenExploded`).
- So intersections of regular expressions can lose words, because their inputs are minimized (src/regex.hpp:46-52).
  Input: the complement of nothing, and a letter (`RegexCompile.UniversalPartLosesWords`). With parts compiled right, an
  intersection is right if and only if no part denotes all words over the alphabet, except those made as minimal
  automata, or the other parts have at most the empty word in common (`RegexCompile.BothRightIffHarmless`).
- A minimized automaton whose states all accept need not be minimal: the empty block of rejecting states is kept
  (src/hopcroft.cpp:473-501), as a state or as one too many in the comparison with the number of states. Input: at most
  one letter (`ExplodedMinimizer.OptionalLetterIsPrefixClosed`). For languages other than none, the empty word and all
  words it happens exactly if prefixes of words of the language are in it, unless the count of blocks stops the
  refinement of an automaton that was minimal (`ExplodedMinimizer.MinimizeAutomaton`).
- The table of sources of the NFA optimizer reuses a buffer with one place per transition (src/nfa-optimize.cpp:326)
  and is overrun exactly if some state goes but more blocks than transitions are left, or, for want of a symbol to cut
  by, an empty block is kept (`Minimization.Optimize`).
  Input: four states, two transitions on one symbol from 0 to 1 and 2, state 1 accepting. The counts alone
  exclude it if and only if there are at most m + 1 states for m transitions (`BlockCounts.CountsDecide`).
- Optimizing from the left can lose words, because `mergeRenumber` (src/automaton.tcc:516-537) keeps the acceptance of
  the survivor only. Input: 0 goes on one symbol to 1 and 2, and 2 accepts (`LeftMerge.OptimizeForked`). Over the blocks
  of the reversed automaton, every outcome that can come out keeps the language if and only if every accepted word leads
  to a state all of whose possible survivors accept: the members below the number of blocks, or all members if there are
  none (`LeftMergeTheory.MergingKeepsIffSafe`).
- A DFA with dead states need not come out reduced. Input: 0 accepts, 1 loops, 2 has no transition. The result is
  reduced if and only if same-language states crash on the same symbols (`HopcroftTheory.BlocksAreLanguages`); the
  library removes dead states first, which is enough (`LiveMeansCrashesAgree`).
- Canonical forms of relabelled automata can differ in acceptance. Input: `CanonicalForm.Fork`. They agree if and only
  if no symmetry of the transitions moves acceptance (`CanonicalForm.OneFormIffSymmetriesKeep`); alternation, which
  gadgets have, is enough (`SameCanonicalForm`).
- The parallel reduction does not keep the order of its tasks: three come out as second, third, first. For all
  associative combinations the order is kept if and only if the number of tasks is a power of two
  (`TreeFold.OrderKeptIffPowerOfTwo`); commutativity is enough (`TreeIsSequentialFold`).
- Folding a fixed repetition of an unlimited one multiplies the marker -1 (src/expr.cpp:122-125). Input: n times at
  least m copies of a letter (`RegexFolding.UnlimitedFoldLosesWords`). The fold is right if and only if the bound is not
  unlimited, or one word more than the bound it is taken for allows is no more than it allows
  (`RegexFolding.FoldRightIff`; of a letter only if it is not unlimited, `LetterFoldIff`). The same fold overflows an
  `int` exactly if the product of two bounds exceeds it (`RepeatDenotes`; input `RepeatOverflows`).
- The accepting shuffle accepts words that cannot be split if an initial state rejects. Inputs, one for each case:
  `ShuffleTheory.LeftHandsOver`, `RightHandsOver`, and two single letters. Going by the initial states alone it is exact
  if and only if both accept (`ExactIffBothAccept`); if both reject, if and only if one language is empty
  (`BothRejectExactIff`); if one does, if and only if beginning with the accepting one gains nothing
  (`OneRejectsExactIff`).
- Decoding a gadget edge undoes coding if and only if locations times states squared is below 2^32
  (`EdgeCoder.RoundTripsIffOriginFits`). Input beyond that: two locations and 65535 states (`LargeCoderLosesEdges`).
- The completion store falls back to one list exactly if the levels up to the last are all full; the caller then
  indexes levels that are gone, which the model returns as a missing result (`CompletionStore.Completions.Record`).
  Input: ten levels of eight full pages and two new intervals (`CompletionStore.RecordInFullStore`).
- `Tarjan::index` (src/automaton.cpp:701) has no initial value. The components of all graphs of n states are found if and
  only if n numbers from the start value on stay below the sentinel (`StrongComponents.FoundIffEnoughNumbers`). Input for
  any other start value: a loop at the state that would be given the sentinel as its number, which is then listed twice
  (`TooFewNumbers`).

## Left out

- LMDB cursors, transactions, keys and pointers into the database: the completion store is the main list and the levels
  of pages of one kind of id.
- Sockets, RPC, message packing, files, printing, clocks, command lines; a worker that fails. The scheduler is modelled
  without errors, and `task_starts` with the measured times is not modelled.
- C++ memory orders: the reduction is modelled by sequentially consistent steps. `transform_reduce` with an unlimited
  number of threads is covered by any number of workers.
- Hash tables, deques, bit sets and allocators are maps, sequences and sets; the flat tables of predecessors are indexed
  by pairs. Blocks are not sorted for locality before refinement.
- Splitting by crash pattern is always done; for a total automaton it does nothing, as the source skips it.
- MinimizeAutomaton: the limits on determinization (5000 states or three times as many, 64 MB), after which the source
  optimizes and determinizes again, are not modelled, nor is the order in which dead edges are swapped out. Where the
  empty block is kept, refinement and the loop's stop are taken from the blocks that are not empty, `stopped` standing
  for a stop before the last split, and the table of queued blocks, indexed by block, is not bounded.
- Minimize: dead states are not removed before it, and where `Reduced` is concluded it is assumed that there are none.
- RenumberRow: states renumbered to the largest number, which the source erases, are not modelled.
- CompressRenumber: the same.
- MergeRenumber: the same; the source passes over them.
- DeterminizeVectors: the limit on bytes is not modelled, the limit on states is.
- Determinize: the same.
- Process: the times at which tasks start and answers that report errors are not modelled.
- CanonicalizeRenumber: minimization before labelling is not part of it; it asks that every state is
  reachable. Symbol masks are tables of single symbols.
- Interpret: of the flags of an automaton only "minimal" is modelled, by the expression; an empty intersection is flagged
  in the source too, which changes nothing. Dead states are not removed from products; the language is the same. State
  numbers are not bounded by 32 bits. The variadic `alt` is not modelled.
- Compile: asks that no fold overflows or multiplies an unlimited bound; those folds have their own conditions
  (`RegexFolding.RepeatDenotes`, `FoldRightIff`).
- RepeatDenotes: says nothing about a fold over an unlimited repetition; `FoldRightIff` does.
- OneRejectsExactIff: the condition speaks about the two beginnings of the construction.
- MergedKeepsLanguage: only sufficient; the exact conditions are the lemmas before it.
- MergedKeepsLanguageIff: speaks about one renumbering; `MergingKeepsIffSafe` speaks about the automaton.
- MergedKeepsLanguageIffNoneDropped: the same; `SafeIffStatesSafe` is its counterpart for the blocks.
- EncodeGadget: symbols in use must be the first ones, as `compress_alphabet` makes them.
- EveryRunIsSound: edges are fixed functions and the database's answers are choices; suspending and
  checkpoints are not modelled.
- Gadget generators, puzzle front ends, permutation tables, reports, benchmarks: data or easy.
