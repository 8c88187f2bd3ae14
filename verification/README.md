# Verified model of a SAT engine and of the circuit learner built on it

The repository bundles two SAT engines (minisat and glucose, the latter with a preprocessor and clause sharing between
threads) and a program that learns a circuit from an input/output oracle. This project models the algorithms in Dafny
and proves what they promise. To verify it, run `dafny verify dfyconfig.toml` in this directory.

## The parts

**Conflict-driven search** (`Sat`, `SolverState`, `Propagation`, `Meaning`, `WatchClean`, `Backtracking`, `Analysis`,
`FinalAnalysis`, `ImplicationPoint`, `Redundancy`, `Learning`, `Removal`, `Reduction`, `Relocation`, `Progress`,
`SearchState`, `ClauseInput`, `Solver`, `BinaryResolution`, `BinaryLearning`). `CdclSolver.Solver` is minisat's `Solver`
with its fields and in-place loops. Each method is proved against predicates on a snapshot of the fields: the trail,
levels and reasons agree; watch lists are sound, complete and free of repeats; a false watched literal that has been
propagated has a blocker or another watched literal that is true at no higher level, so that complete propagation leaves
no clause falsified or unit; the clauses and level-0 facts mean the same as the clauses ever added; every unassigned
decision variable is in the order heap. `Analyze` learns exactly the minimised clause of the first unique implication
point, and `AnalyzeFinal` names exactly the decisions a failed literal depends on. `Search` terminates although learnt
clauses are deleted, because the vector of assigned literals per level grows lexicographically, and its verdicts are
right. The clause collector renames every reference to a faithful copy. `Solve` is minisat's capped loop over searches,
`SolveRestarting` glucose's; `LearnShortened` is the conflict step with glucose's binary-resolution minimisation.

**Preprocessing** (`Resolution`, `Reconstruction`, `SimpState`, `Elimination`, `Settling`, `SimpSolver`, `Reattach`,
`Pipeline`). `Preprocessor.SimpSolver` is glucose's `SimpSolver`: occurrence lists with lazy deletion, backward
subsumption and self-subsuming resolution with the 32-bit filter, variable elimination with its limits, and the flat
buffer of stored clauses. The invariant `Reconstructs` says that the clauses given entail what is left, and that
applying the stored records, newest first, to any assignment satisfying what is left satisfies the clauses given.
Without an interrupt subsumption leaves nothing among the queued clauses to act on, and elimination passes no variable
over. `Pipeline.Solve` joins preprocessing, search and model extension into one correct decision procedure: unless a
budget is set it answers, and the answer is right.

**Clause exchange** (`ExchangeState`, `ExchangeSteps`, `ClausesBuffer`): the ring of clause records shared by n threads.
Each method is one atomic step; a ghost history of accepted clauses and of what each thread has read is part of the
invariant, so the theorems speak of every interleaving.

**The learner's own algorithms**: the two-level cover (`Cover`), minimal cores over the verified engine (`Minimize`) and
subset enumeration (`Subsets`). **Supporting structures**: `Sorting`, `Heap`, `Dimacs`.

## What the code does differently from its own words

- minisat's `solve_` stops after its twelfth search and returns l_True whatever was found, even l_False; the trail is
  then left as it is. `Solver.Solve` tells (`capped`) and says what is left: `ReportedExact` and `CappedTruth` state
  when the report is right, `ReportedWrong` gives a run where it is not. `MinimizeByDeletion` and `MinimizeBySplitting`
  are stated for both loops: minimal cores without the cap, and contradicting, perhaps larger ones when undecided
  searches were capped.
- The comment on `subsumes` says that the literal it returns can be deleted from the other clause. The code returns a
  literal of its own clause, and it is the complement that the caller deletes (glucose/simp/SimpSolver.cc:467-471);
  `Resolution.ResolveOnHolds` is the soundness of that.
- `strengthenClause` attaches the shortened clause to its first two literals even when one of them is already false, so
  that the watch invariant of the search breaks (`Reattachment.ReattachBreaks`; `ReattachExact` says when). The
  preprocessor's theorems therefore rest on no property of watch lists: its propagation may take any unit steps in any
  order, and may miss some.
- `solve_a` and method 1 of `minimize` replace the solver's assumptions; method 1 ignores those set before. Method 2 is
  for non-empty patterns: an empty one would call for itself again (`CoreMinimization.CallShrinks`).
- The header of a DIMACS file is written before the assumptions are numbered, so with assumptions on variables that
  occur in no written clause its variable count is too small (`Dimacs.AssumptionUncounted`, `Dimacs.WriteAndRead`).

## Model

| member | source | states |
|---|---|---|
| `Sat.LitCoding` | minisat/core/SolverTypes.h:58-67 | the integer code of a literal is a bijection, and the complement is the neighbouring code |
| `WatchClean.KeepMembers` | minisat/core/SolverTypes.h:299-309 | a cleaned list holds exactly the watchers of undeleted clauses |
| `WatchClean.CleanedStruct` | minisat/core/SolverTypes.h:288-296 | after cleaning no list names a deleted clause, and trail, reasons and watch lists are as consistent as before |
| `CdclSolver.Solver.Clean` | minisat/core/SolverTypes.h:299-309 | one list is replaced by its watchers of undeleted clauses, in order, and is no longer dirty |
| `CdclSolver.Solver.CleanAll` | minisat/core/SolverTypes.h:288-296 | every list that held a deleted watcher is cleaned; nothing stays dirty |
| `CdclSolver.Solver.Smudge` | minisat/core/SolverTypes.h:273-278 | a list becomes dirty and is recorded exactly once |
| `CdclSolver.Solver.UncheckedEnqueue` | minisat/core/Solver.cpp:429-435 | the new state is the old one with the literal true, on the trail, with its reason and the current level |
| `Propagation.EnqueueStruct` | minisat/core/Solver.cpp:429-435 | enqueuing an unassigned literal with no reason or a clause whose other literals are false keeps trail, levels, reasons and watch lists consistent |
| `Propagation.EnqueueWatchInv` | minisat/core/Solver.cpp:429-435 | enqueuing leaves the watch invariant of the propagated part of the trail alone |
| `CdclSolver.Solver.FindNewWatch` | minisat/core/Solver.cpp:482-487 | the first literal from position 2 on that is not false, or the length: all before it are false |
| `Propagation.Normalise` | minisat/core/Solver.cpp:470-474 | swapping the false literal to position 1 keeps the invariant of a half-visited watch list and the clause's literals |
| `Propagation.Advance` | minisat/core/Solver.cpp:461-480 | keeping a watcher with a true blocker advances the invariant of the half-visited list |
| `Propagation.MoveWatch` | minisat/core/Solver.cpp:482-487 | moving a watch to a literal that is not false keeps the invariant of the half-visited list, with the watcher gone from it |
| `Propagation.ImplyFirst` | minisat/core/Solver.cpp:489-498 | when all other literals are false, implying the first one keeps the invariant and the watcher |
| `Propagation.RoundEnd` | minisat/core/Solver.cpp:449-508 | a completely visited list extends the watch invariant by one trail position |
| `Propagation.RoundCut` | minisat/core/Solver.cpp:491-496 | a round cut short by a conflict leaves the watch invariant of the lower levels intact |
| `CdclSolver.Solver.Visit` | minisat/core/Solver.cpp:460-502 | one step of the two-pointer pass: blocker test, clause visit, compaction; the half-visited list keeps its invariant, and a conflict is a clause all of whose literals are false |
| `CdclSolver.Solver.StopAt` | minisat/core/Solver.cpp:491-496 | on a conflict the queue is emptied and the remaining watchers are copied down, none lost |
| `CdclSolver.Solver.CopyRest` | minisat/core/Solver.cpp:494-496 | the unvisited watchers move down behind the kept ones: the list as a whole is unchanged |
| `CdclSolver.Solver.PropagateLit` | minisat/core/Solver.cpp:449-508 | after one literal, either the watch invariant covers it too, or a clause is falsified and the invariant of the lower part holds; clauses keep their literals, the trail only grows, and the database still means the formula |
| `CdclSolver.Solver.Propagate` | minisat/core/Solver.cpp:449-508 | without a conflict every fact is propagated, every false watch has a blocker or another watch that is true at no higher level, and no clause is falsified or has all but one literal false with that one not true; with a conflict, the returned clause is false and the invariant of the lower levels holds |
| `Propagation.PropagatedUnitFree` | minisat/core/Solver.cpp:449-508 | the watch invariant of a fully propagated trail leaves no clause falsified, and none unit and unsatisfied |
| `Propagation.ExcusedTrue` | minisat/core/Solver.cpp:461-480 | the true blocker or other watch that excuses a false watch is a literal of the clause, of no higher level |
| `WatchClean.CleanedWatchInv` | minisat/core/SolverTypes.h:288-309 | dropping watchers of deleted clauses keeps the watch invariant, blockers included |
| `Meaning.ImplyMeans` | minisat/core/Solver.cpp:489-498 | a literal implied by a clause, at level 0 or above, keeps the database equivalent to the formula |
| `Meaning.RootConflict` | minisat/core/Solver.cpp:623-627 | a clause falsified at level 0 makes the formula unsatisfiable |
| `Propagation.TrailBound` | minisat/core/Solver.cpp:429-435 | no variable is on the trail twice, so the trail is no longer than the number of variables |
| `CdclSolver.Solver.InsertVarOrder` | minisat/core/Solver.h:294-295 | a decision variable goes back into the order heap |
| `CdclSolver.Solver.CancelUntil` | minisat/core/Solver.cpp:207-218 | the trail is cut at the level, exactly the variables above lose their value, the queue starts at the end, and every unassigned decision variable is in the order heap |
| `Backtracking.CancelAssigns` | minisat/core/Solver.cpp:207-218 | exactly the variables assigned above the level lose their value |
| `Backtracking.CancelStruct` | minisat/core/Solver.cpp:207-218 | undoing levels keeps trail, levels, reasons and watch lists consistent |
| `Backtracking.CancelWatchInv` | minisat/core/Solver.cpp:207-218 | undoing levels keeps the watch invariant, blockers included, without touching a watch list, and everything left is propagated |
| `Backtracking.CancelMeans` | minisat/core/Solver.cpp:207-218 | undoing levels keeps the database equivalent to the formula |
| `CdclSolver.Solver.AddLiterals` | minisat/core/Solver.cpp:280-292 | marking a clause's literals: those of the current level stay open and are counted, lower ones join the learnt clause, together exactly the variables above level 0; the pending resolution stays entailed |
| `CdclSolver.Solver.NextSeen` | minisat/core/Solver.cpp:294-296 | the walk down the trail always finds an open literal before leaving the current level |
| `Analysis.LastOpenReason` | minisat/core/Solver.cpp:274 | while another literal is open, the selected one has a reason clause that implied it |
| `Analysis.PendingResolve` | minisat/core/Solver.cpp:272-299 | resolving with the reason of the selected literal preserves the derived consequence |
| `Analysis.DerivedEntailed` | minisat/core/Solver.cpp:264-302 | when one open literal is left, its complement and the learnt literals are an entailed clause |
| `CdclSolver.Solver.Derive` | minisat/core/Solver.cpp:264-302 | resolution back to exactly the first unique implication point: the clause is entailed, the returned literal is the only one of the current level, at every later literal resolved on another one was left, and the lower literals are exactly those met on the way |
| `ImplicationPoint.UnravelStep` | minisat/core/Solver.cpp:272-299 | resolving on a literal while another of the current level is left keeps the account of what has been met, what is left, and that no implication point was passed |
| `ImplicationPoint.UnravelEnd` | minisat/core/Solver.cpp:299-302 | when one literal of the current level is left, it is the first unique implication point, and the lower literals are those that chains of reasons from the conflict reach |
| `CdclSolver.Solver.Resolve` | minisat/core/Solver.cpp:272-292 | one resolution step: the reason's literals are absorbed, exactly they are added to what is left |
| `CdclSolver.Solver.ScanReason` | minisat/core/Solver.cpp:366-383 | the antecedents of one literal are marked and stacked, or one is found because of which the literal asked about must stay |
| `CdclSolver.Solver.LitRedundant` | minisat/core/Solver.cpp:361-387 | true exactly when every unmarked variable that the literal depends on is implied and of a level in the abstraction; then the marks made on the way are kept and are all on such variables; failure restores marks and list |
| `Redundancy.SearchDone` | minisat/core/Solver.cpp:361-387 | when nothing is left to explore, the literal and every variable marked on the way are removable |
| `Redundancy.SameVerdict` | minisat/core/Solver.cpp:361-387 | marks retained from earlier successful searches change no later verdict |
| `Analysis.MarkedHold` | minisat/core/Solver.cpp:361-387 | a model that falsifies the kept literals agrees with the trail on every marked variable |
| `Analysis.MinimisedEntailed` | minisat/core/Solver.cpp:304-340 | dropping literals whose marks are covered by the others leaves an entailed clause, also with marks retained from earlier searches |
| `CdclSolver.Solver.MinimiseDeep` | minisat/core/Solver.cpp:307-317 | mode 2: exactly the literals are dropped that are removable with respect to the marks before minimisation, and every marked variable is kept or covered |
| `CdclSolver.Solver.Minimise` | minisat/core/Solver.cpp:304-333 | in each mode exactly the literals that the mode drops are dropped, and every marked variable is kept or covered |
| `CdclSolver.Solver.MinimiseBasic` | minisat/core/Solver.cpp:318-330 | mode 1: exactly the literals whose reason has an unmarked literal above level 0, or that have no reason, are kept, in order |
| `Redundancy.BasicExact` | minisat/core/Solver.cpp:318-330 | the literals mode 1 drops are those whose reason needs marked variables only |
| `CdclSolver.Solver.ReasonMarked` | minisat/core/Solver.cpp:321-328 | true exactly when the literal has a reason all of whose other literals are marked or at level 0 |
| `CdclSolver.Solver.SecondWatch` | minisat/core/Solver.cpp:338-352 | a literal of the highest remaining level is brought to position 1, the first literal stays, and that level is the backtrack level |
| `CdclSolver.Solver.ClearSeen` | minisat/core/Solver.cpp:355 | all marks are gone |
| `CdclSolver.Solver.Analyze` | minisat/core/Solver.cpp:264-356 | the learnt clause is entailed, all false, with exactly one literal of the current level, at position 0, and one of the backtrack level at position 1; it is the complement of the first unique implication point with exactly the lower literals of the clause derived there that minimisation keeps; no mark is left |
| `Learning.AssertingUnit` | minisat/core/Solver.cpp:629-641 | after jumping back, the asserting clause's first literal is unassigned and all others are false |
| `Learning.LearntWatchInv` | minisat/core/Solver.cpp:635-641 | attaching the learnt clause and asserting its first literal keeps the watch invariant although its second watch is false |
| `Learning.LearntMeans` | minisat/core/Solver.cpp:629-641 | an entailed learnt clause and its asserted literal keep the database equivalent to the formula |
| `Backtracking.AttachStruct` | minisat/core/Solver.cpp:162-168 | watching the first two literals of a new clause keeps all structural invariants |
| `CdclSolver.Solver.AllocAttach` | minisat/core/Solver.cpp:162-168 | the region grows by the clause, and the lists of its first two literals by a watcher each |
| `CdclSolver.Solver.InstallLearnt` | minisat/core/Solver.cpp:636-640 | the clause is allocated, attached and becomes the reason of its first literal |
| `CdclSolver.Solver.Backjump` | minisat/core/Solver.cpp:629-641 | after learning, the trail is the one of the backtrack level plus the asserted literal, and every invariant holds |
| `FinalAnalysis.FinalResolve` | minisat/core/Solver.cpp:415-420 | replacing an implied literal by its antecedents preserves the consequence the final conflict states |
| `FinalAnalysis.FinalDecision` | minisat/core/Solver.cpp:412-414 | a marked decision joins the final conflict negated |
| `FinalAnalysis.FinalEnd` | minisat/core/Solver.cpp:399-426 | when the walk ends, the final conflict is entailed by the formula |
| `FinalAnalysis.TraceResolve` | minisat/core/Solver.cpp:415-420 | replacing an implied literal by its antecedents keeps the account of what the literal depends on |
| `FinalAnalysis.TraceEnd` | minisat/core/Solver.cpp:399-426 | when the walk reaches the first decision, every decision the literal depends on has been named, and no other |
| `CdclSolver.Solver.AnalyzeFinal` | minisat/core/Solver.cpp:399-426 | the final conflict is entailed and holds the given literal and the complements of exactly the decisions that it depends on through reasons; no mark is left |
| `SearchState.ConflictAssumptions` | minisat/core/Solver.cpp:681-683 | since all decisions below are assumptions, the final conflict consists of negated assumptions |
| `CdclSolver.Solver.RemoveClause` | minisat/core/Solver.cpp:188-195 | the clause is marked deleted, its two lists become dirty, and a reason pointing to it is cleared |
| `Removal.RemoveReasons` | minisat/core/Solver.cpp:188-195 | no reason dangles: a deleted clause is nobody's reason |
| `Removal.RemoveMeans` | minisat/core/Solver.cpp:188-195 | deleting a learnt clause, or one true at level 0, keeps the database equivalent to the formula |
| `Removal.RemoveWatchInv` | minisat/core/Solver.cpp:188-195 | deleting a clause keeps the watch invariant |
| `CdclSolver.Solver.Satisfied` | minisat/core/Solver.cpp:198-202 | true exactly when some literal of the clause is true |
| `CdclSolver.Solver.RemoveSatisfied` | minisat/core/Solver.cpp:545-556 | exactly the clauses of the list without a true literal are kept, and the others are deleted |
| `CdclSolver.Solver.SortLearnts` | minisat/core/Solver.cpp:530 | the learnt list is rearranged into the reduction order |
| `Reduction.ReduceOrderWeak` | minisat/core/Solver.cpp:519-524 | the reduction order is a strict weak order on clauses of two or more literals |
| `Reduction.ReduceOrderLaw` | minisat/core/Solver.cpp:519-524 | in a list sorted that way longer clauses come before binary ones, and among them less active before more active |
| `Reduction.GlucoseOrderWeak` | glucose/core/Solver.h:562-587 | glucose's reduction order (size two, then LBD, then activity) is a strict weak order on clauses of two or more literals, as sorting requires |
| `Reduction.GlucoseSorted` | glucose/core/Solver.h:562-587 | a list sorted by that comparison has longer clauses before binary ones, then higher LBD before lower, then less activity before more |
| `Reduction.GlucoseUnitKeys` | glucose/core/Solver.h:562-587 | with a clause of one literal among them, the comparison runs in a circle |
| `Reduction.SortByGlucoseOrder` | glucose/core/Solver.cc:1154 | the learnt clauses are rearranged so that longer clauses come before binary ones, then those of higher LBD, then those of less activity |
| `CdclSolver.Solver.ReduceDB` | minisat/core/Solver.cpp:525-542 | the list is put in order of activity, longer clauses first; exactly the clauses that are binary, a reason, or both in the second half and of at least the activity limit stay, unchanged, and the others are deleted; no clause is deleted that is more active than one of more than two literals that stays without being a reason; no reason changes and no problem clause is touched |
| `Reduction.LeastActiveDeleted` | minisat/core/Solver.cpp:525-542 | a deleted clause is at most as active as any long clause that stays without being a reason |
| `CdclSolver.Solver.ClaBumpActivity` | minisat/core/Solver.h:311-316 | the clause gains the increment; if its activity then exceeds the bound, all activities and the increment are scaled down alike |
| `Relocation.MovedFaithful` | minisat/core/SolverTypes.h:234-248 | a moved clause has the same literals, learnt flag and mark; equal references stay equal and distinct ones stay distinct |
| `CdclSolver.Solver.RelocWatches` | minisat/core/Solver.cpp:884-896 | every watcher is renamed to its clause's new place, lists otherwise unchanged |
| `CdclSolver.Solver.RelocReasons` | minisat/core/Solver.cpp:897-906 | every reason on the trail that is a live or locked clause is renamed; no reason dangles |
| `CdclSolver.Solver.GarbageCollect` | minisat/core/Solver.cpp:884-931 | after collection every reference from watches, reasons, learnts and clauses names a faithful copy, activities included, and all invariants hold |
| `CdclSolver.Solver.RebuildOrderHeap` | minisat/core/Solver.cpp:559-567 | the order heap holds exactly the unassigned decision variables |
| `CdclSolver.Solver.PickBranchLit` | minisat/core/Solver.cpp:225-244 | an unassigned decision variable, taken out of the heap; or none, and then every decision variable is assigned |
| `CdclSolver.Solver.Simplify` | minisat/core/Solver.cpp:577-598 | false means the formula is unsatisfiable; otherwise everything is propagated, all invariants hold, and unless the call is throttled no learnt clause is left with a true literal, nor a problem clause if those are to be removed |
| `Relocation.MovedUnsatisfied` | minisat/core/Solver.cpp:592-593 | collecting garbage afterwards leaves no satisfied clause either |
| `CdclSolver.Solver.RemoveSatisfiedClauses` | minisat/core/Solver.cpp:577-598 | exactly the learnt clauses without a true literal remain; of the problem clauses exactly those without a true literal if removal is on, and all of them otherwise; none that remains has a true literal |
| `CdclSolver.Solver.TakeAssumptions` | minisat/core/Solver.cpp:674-688 | levels are opened for assumptions that hold; the result is the first undecided assumption, or a failure with an entailed, non-empty conflict of negated assumptions |
| `CdclSolver.Solver.FailAssumption` | minisat/core/Solver.cpp:681-683 | a false assumption yields an entailed conflict that consists of negated assumptions |
| `CdclSolver.Solver.Decide` | minisat/core/Solver.cpp:700-702 | a level is opened with the literal as its decision; every invariant holds |
| `SearchState.FullModel` | minisat/core/Solver.cpp:694-697 | with every variable assigned and propagated, the trail satisfies every clause ever added, including those deleted or shortened at level 0, and every assumption |
| `Progress.DigitsBackjump` | minisat/core/Solver.cpp:614-705 | dropping the levels above l and adding a literal to level l makes the vector of assigned counts per level lexicographically larger |
| `Progress.DigitsPush` | minisat/core/Solver.cpp:614-705 | opening a level makes the vector lexicographically larger |
| `Progress.DigitsBound` | minisat/core/Solver.cpp:614-705 | the vector, read as a number, is bounded by variables and assumptions |
| `SearchState.RemainingBackjump` | minisat/core/Solver.cpp:629-641 | learning and backjumping is progress, whatever clauses have been deleted |
| `SearchState.RemainingDecide` | minisat/core/Solver.cpp:700-702 | a decision is progress |
| `SearchState.RemainingDummy` | minisat/core/Solver.cpp:678-680 | a level for an assumption that already holds is progress |
| `CdclSolver.Solver.Search` | minisat/core/Solver.cpp:614-705 | the loop terminates; True comes with a model, False with an entailed conflict of negated assumptions (unsatisfiable when empty), Undef only with a limit, and without a budget only after at least that many conflicts; a model or a failed assumption is reported only while the limit is not reached; all invariants hold afterwards |
| `CdclSolver.Solver.CountConflict` | minisat/core/Solver.cpp:622-626 | a conflict, and nothing else, raises the count of conflicts, by one |
| `CdclSolver.Solver.Solve` | minisat/core/Solver.cpp:751-807 | the verdict is right, with a model or a final conflict, unless the twelfth search ends within the budget (`capped`): then the result is True without a model, and of the verdicts that search may have reached the result agrees exactly with True; if it reached none the solver is usable as before |
| `CdclSolver.ReportedExact` | minisat/core/Solver.cpp:778-785 | what is reported is what the last search said exactly when fewer than twelve were needed, the budget ended there, or it said True |
| `CdclSolver.ReportedWrong` | minisat/core/Solver.cpp:778-785 | eleven searches cut off and a twelfth that refutes the formula are reported as True |
| `CdclSolver.Solver.CappedTruth` | minisat/core/Solver.cpp:785 | if the last search said False, no model satisfies formula and assumptions, so the report is wrong; if it said True, with all variables decidable, some model does, so it is right |
| `CdclSolver.Solver.SolveRestarting` | glucose/core/Solver.cc:1494-1521 | repeating the search until there is a verdict: whatever the restarts, the answer is right and comes with a model or a final conflict, and without a budget there is one |
| `CdclSolver.Solver.Assume` | minisat/core/Solver.h:378 | the assumptions are replaced; nothing else changes |
| `CdclSolver.Solver.constructor` | minisat/core/Solver.cpp:49-106 | an empty solver with all invariants |
| `CdclSolver.Solver.NewVar` | minisat/core/Solver.cpp:114-129 | one more unassigned variable, decidable as asked; all invariants hold, also in a solver already contradictory |
| `ClauseInput.SortLits` | minisat/core/Solver.cpp:138 | the literals in code order, none lost or added |
| `ClauseInput.KeptBelow` | minisat/core/Solver.cpp:139-145 | in code order a repeated or complementary literal is next to the literal kept last |
| `ClauseInput.NormaliseLits` | minisat/core/Solver.cpp:137-145 | either the clause holds anyway, or what is kept are its undefined literals, without repeats or complementary pairs |
| `ClauseInput.AddEmpty` | minisat/core/Solver.cpp:147-148 | a clause all of whose literals are false at level 0 makes the formula unsatisfiable |
| `ClauseInput.AddUnit` | minisat/core/Solver.cpp:149-151 | a clause that shrinks to a unit is represented by a level-0 fact |
| `ClauseInput.AddKeeps` | minisat/core/Solver.cpp:152-156 | attaching a shortened clause represents the clause given and keeps every invariant |
| `CdclSolver.Solver.AddClause` | minisat/core/Solver.cpp:132-159 | the formula grows by exactly the clause; false is returned exactly when the formula is known to be unsatisfiable; after true everything is propagated and no clause is falsified or has all but one literal false with that one not true |
| `BinaryResolution.Minimiser.Minimise` | glucose/core/Solver.cc:556-595 | with small enough LBD, exactly the literals whose complement is the blocker of a binary clause of the first literal are removed, in place; the result is entailed and keeps its first literal |
| `BinaryResolution.Minimiser.Unstamp` | glucose/core/Solver.cc:569-577 | the variables unstamped are exactly those of the clause on which a binary clause has a true literal, each counted once |
| `BinaryResolution.Minimiser.Partition` | glucose/core/Solver.cc:579-592 | the swaps rearrange the clause so that exactly the unstamped literals are at the end, the first literal staying put |
| `BinaryResolution.ShortenedEntailed` | glucose/core/Solver.cc:556-595 | dropping literals whose complements follow from the negated first literal is sound |
| `BinaryLearning.ShortenedAsserting` | glucose/core/Solver.cc:779-803 | the shortened clause is still asserting, up to the choice of its second watch |
| `BinaryLearning.AnalyzeShortened` | glucose/core/Solver.cc:659-829 | analysis followed by binary minimisation and the choice of the second watch gives an entailed asserting clause, with no mark left |
| `BinaryLearning.LearnShortened` | glucose/core/Solver.cc:1319-1350 | learning the shortened clause keeps every invariant of the search and is progress towards its end |
| `Resolution.ResolventMembers` | glucose/simp/SimpSolver.cc:309-336 | the resolvent holds exactly the other literals of the two clauses, no variable twice |
| `Resolution.ResolventHolds` | glucose/simp/SimpSolver.cc:309-336 | whatever satisfies both clauses satisfies the resolvent |
| `Resolution.Merge` | glucose/simp/SimpSolver.cc:309-336 | false exactly when the clauses clash on another variable; otherwise the resolvent |
| `Resolution.MergeSize` | glucose/simp/SimpSolver.cc:340-366 | the same verdict without building the clause, and exactly its size |
| `Resolution.AbstractionMonotone` | glucose/core/SolverTypes.h:206-211 | fewer variables give a smaller 32-bit abstraction, so the filter never rejects a subsumed clause |
| `Resolution.FilterSound` | glucose/core/SolverTypes.h:471-472 | the size and abstraction tests reject only unrelated clauses |
| `Resolution.RelatesUnique` | glucose/core/SolverTypes.h:465-494 | exactly one of subsumed, resolvable on a literal, unrelated is right |
| `Resolution.Subsumes` | glucose/core/SolverTypes.h:465-494 | the answer is the right one; on ResolveOn(p) it is the complement of p that can go |
| `Resolution.ResolveOnHolds` | glucose/core/SolverTypes.h:496-500 | whatever satisfies both clauses satisfies the shortened one |
| `Preprocessor.SimpSolver.Propagate` | glucose/core/Solver.cc:931-1057 | any number of unit steps: the models stay the same, and a conflict means there are none |
| `Preprocessor.SimpSolver.RemoveClause` | glucose/simp/SimpSolver.cc:254-266 | the clause is marked deleted; the lists of its variables become dirty and stay complete, and those of its variables that may be eliminated are on the elimination heap |
| `Preprocessor.SimpSolver.UpdateElimHeap` | glucose/simp/SimpSolver.h:210-214 | exactly a variable that is neither frozen nor eliminated nor assigned joins the elimination heap |
| `Preprocessor.SimpSolver.CleanOccurs` | glucose/core/SolverTypes.h:398-407 | one list keeps exactly its undeleted clauses; the lists stay sound and complete |
| `Preprocessor.SimpSolver.Lookup` | glucose/core/SolverTypes.h:358 | the list of the variable holds exactly its undeleted clauses |
| `Preprocessor.SimpSolver.StrengthenClause` | glucose/simp/SimpSolver.cc:269-305 | a superfluous literal is taken out: the models stay the same, the result is false only if there are none, a long clause loses exactly that literal and its list entry, a binary one is replaced by a fact |
| `SimpState.StrengthenKeeps` | glucose/simp/SimpSolver.cc:290-302 | shortening in place keeps clause shape, abstraction and occurrence lists right |
| `Reattachment.ReattachExact` | glucose/simp/SimpSolver.cc:294-296 | detaching, shortening and attaching a clause keeps the watch invariant exactly when each of the two literals then in front is not a propagated false one, or the other is true at no higher level |
| `Reattachment.ReattachBreaks` | glucose/simp/SimpSolver.cc:294-296 | a fully propagated state and a clause whose strengthening breaks the watch invariant |
| `SimpState.StrengthenModels` | glucose/simp/SimpSolver.cc:290-302 | removing a literal that the rest shows superfluous changes no model |
| `SimpState.UnitReplaces` | glucose/simp/SimpSolver.cc:286-288 | a clause may give way to the one literal of it that holds anyway |
| `Preprocessor.SimpSolver.GatherTouchedClauses` | glucose/simp/SimpSolver.cc:369-394 | every clause of a touched variable is queued, the marks are as before, no variable is touched any more |
| `Preprocessor.SimpSolver.BestVar` | glucose/simp/SimpSolver.cc:451-455 | a variable of the clause with the shortest list |
| `Preprocessor.SimpSolver.CheckCandidate` | glucose/simp/SimpSolver.cc:462-471 | the candidate is deleted, shortened or left, and then no longer stands in relation to the clause; the models stay the same |
| `Preprocessor.SimpSolver.ScanCandidates` | glucose/simp/SimpSolver.cc:457-477 | after the scan every clause in the list is gone, too long, or unrelated to the scanned clause; re-examination after a removal terminates |
| `SimpState.SettledAll` | glucose/simp/SimpSolver.cc:451-477 | settling the list of one variable settles all clauses: one without the variable is unrelated |
| `SimpState.SubsumedModels` | glucose/simp/SimpSolver.cc:465-466 | deleting a subsumed clause changes no model |
| `SimpState.ResolvedAway` | glucose/simp/SimpSolver.cc:467-471 | a literal resolved away by another clause or a level-0 fact is superfluous |
| `Preprocessor.SimpSolver.CheckNext` | glucose/simp/SimpSolver.cc:441-477 | after a queued clause has been processed it neither subsumes nor shortens any other clause within the size limit |
| `Preprocessor.SimpSolver.BackwardSubsumptionCheck` | glucose/simp/SimpSolver.cc:418-482 | the whole run terminates and keeps the models of clauses plus level-0 facts; false is returned only if there are none; without an interrupt no clause queued at first or shortened meanwhile subsumes or shortens another one whose size was within the limit, and no such clause mentions the variable of a new fact |
| `Settling.UnrelatedShorter` | glucose/simp/SimpSolver.cc:457-477 | shortening a clause creates no new relation to it |
| `Settling.TrackNext` | glucose/simp/SimpSolver.cc:428-477 | one turn of the loop: every clause queued at first or shortened since is settled against all others or still queued, and the facts dealt with occur nowhere |
| `Settling.TrackEnd` | glucose/simp/SimpSolver.cc:418-482 | with the queue used up, nothing is left to subsume or to shorten |
| `Preprocessor.SimpSolver.SubsumeNext` | glucose/simp/SimpSolver.cc:431-477 | one turn of the loop keeps models and the account of what is settled, and makes progress |
| `Preprocessor.SimpSolver.AddClauseLits` | glucose/simp/SimpSolver.cc:208-250 | the models become those that also satisfy the clause; false means there are none; a clause that is stored is queued and its variables are touched |
| `Preprocessor.SimpSolver.AddClause` | glucose/simp/SimpSolver.cc:208-250 | a clause over remaining variables joins the given formula, reconstruction still works for the longer formula, and if the clause is stored it is queued and its variables are touched |
| `Preprocessor.SimpSolver.SplitOccurrences` | glucose/simp/SimpSolver.cc:570-573 | the remaining clauses on the variable, split by its sign |
| `Preprocessor.SimpSolver.WithinLimits` | glucose/simp/SimpSolver.cc:578-585 | true exactly when the resolvents are within the growth limit and none exceeds the size limit |
| `Preprocessor.SimpSolver.MkElimClause` | glucose/simp/SimpSolver.cc:536-558 | the clause is appended to the buffer with its literal on the variable first and its length last |
| `Preprocessor.SimpSolver.StoreGroup` | glucose/simp/SimpSolver.cc:592-600 | the smaller side is stored, followed by the default value that satisfies the other side |
| `Reconstruction.EncodeInjective` | glucose/simp/SimpSolver.cc:529-558 | read backwards, a buffer splits into records in only one way |
| `Reconstruction.RebuildGroup` | glucose/simp/SimpSolver.cc:592-600 | the rebuilt value is the default unless a stored clause has no other true literal |
| `Reconstruction.EliminationUndone` | glucose/simp/SimpSolver.cc:592-608 | if all resolvents hold, the rebuilt assignment satisfies both sides of the eliminated variable |
| `Elimination.EliminationStep` | glucose/simp/SimpSolver.cc:562-621 | replacing the clauses on a variable by their resolvents is undone by the new records: models of what is left still rebuild to models of what was given |
| `Elimination.RecordedStep` | glucose/simp/SimpSolver.cc:592-600 | with the new records every eliminated variable still gets a value, also where older records mention it |
| `Preprocessor.SimpSolver.ProduceOne` | glucose/simp/SimpSolver.cc:605-608 | the resolvent of a pair is added unless it is a tautology; it then follows from what does not mention the variable |
| `Preprocessor.SimpSolver.Produce` | glucose/simp/SimpSolver.cc:604-608 | all resolvents are added, at most as many clauses as there are non-tautological pairs; the models stay the same |
| `Preprocessor.SimpSolver.Replace` | glucose/simp/SimpSolver.cc:588-614 | the variable is eliminated: clauses replaced, all new ones queued, records stored, reconstruction kept |
| `Preprocessor.SimpSolver.EliminateVar` | glucose/simp/SimpSolver.cc:562-621 | the variable is eliminated exactly when the limits allow it; reconstruction is kept, and false means unsatisfiable; then, without an interrupt, no new or queued clause subsumes or shortens another one within the size limit |
| `Settling.RenewedAbsorbed` | glucose/simp/SimpSolver.cc:562-621 | subsuming with the queued resolvents settles them against all clauses |
| `Preprocessor.SimpSolver.EliminateVars` | glucose/simp/SimpSolver.cc:712-733 | without an interrupt the heap is used up and no variable on it is passed over: each is frozen, eliminated, assigned or has been tried; if nothing was eliminated the clauses are as before and every variable tried would break a limit |
| `Elimination.ConsideredLater` | glucose/simp/SimpSolver.cc:712-733 | once dealt with, a variable stays dealt with, since eliminated and assigned variables stay so |
| `Preprocessor.SimpSolver.SubsumeTouched` | glucose/simp/SimpSolver.cc:697-701 | without an interrupt every clause that was queued or has a touched variable is settled against all others within the size limit |
| `Preprocessor.SimpSolver.EliminationLoop` | glucose/simp/SimpSolver.cc:695-739 | the loop terminates; without an interrupt nothing is left to do and no variable on the heap has been passed over; only unfrozen variables are eliminated |
| `Preprocessor.SimpSolver.CleanAll` | glucose/simp/SimpSolver.cc:774-783 | no list holds a deleted clause |
| `Preprocessor.SimpSolver.Eliminate` | glucose/simp/SimpSolver.cc:677-770 | reconstruction holds after any sequence of eliminations, subsumptions and strengthenings; false means the given formula is unsatisfiable; frozen variables stay; unless there are too many clauses or the user interrupts, every variable on the heap is frozen, eliminated, assigned or has been tried |
| `Elimination.Equisatisfiable` | glucose/simp/SimpSolver.cc:677-770 | what is left is satisfiable exactly when what was given is |
| `Reconstruction.ExtendAgrees` | glucose/simp/SimpSolver.cc:658-674 | reading the buffer backwards, every variable a record mentions already has a value, so the partial and the total reconstruction agree |
| `Elimination.ExtendedModel` | glucose/simp/SimpSolver.cc:658-674 | a model of what is left, extended by the records, assigns every variable and satisfies every clause given |
| `Preprocessor.SimpSolver.ExtendModel` | glucose/simp/SimpSolver.cc:658-674 | decoding the flat buffer backwards applies exactly the stored records, newest first |
| `Preprocessor.SimpSolver.NewVar` | glucose/simp/SimpSolver.cc:152-163 | one more variable, not frozen and not eliminated, on the elimination heap while simplification is on; reconstruction is kept |
| `Preprocessor.SimpSolver.SetFrozen` | glucose/simp/SimpSolver.h:222 | the flag is set; a variable unfrozen that way is on the elimination heap again if it may be eliminated |
| `Pipeline.Solve` | glucose/simp/SimpSolver.cc:166-204 | solving with preprocessing, search and model extension gives the right answer for the clauses originally given and for the assumptions, which are frozen meanwhile and unfrozen afterwards; only a budget leaves the answer open |
| `Pipeline.SearchAndExtend` | glucose/simp/SimpSolver.cc:188-195 | an answer for what is left is carried over to what was given; only a budget leaves it open |
| `Exchange.ClausesBuffer.constructor` | glucose/parallel/ClausesBuffer.cc:84-92 | an empty ring for n threads, all invariants established |
| `ExchangeState.OthersNotOwn` | glucose/parallel/ClausesBuffer.cc:184-231 | a thread is never handed its own clause |
| `Exchange.ClausesBuffer.NextIndex` | glucose/parallel/ClausesBuffer.cc:110-114 | the next position, wrapping at the capacity |
| `ExchangeState.WrapRing` | glucose/parallel/ClausesBuffer.cc:117-121 | the wrapped sum is the index reached by that many single steps round the ring, and stays inside it |
| `Exchange.ClausesBuffer.NoCheckPush` | glucose/parallel/ClausesBuffer.cc:151-154 | one word is written at first, which moves on by one |
| `Exchange.ClausesBuffer.PushClause` | glucose/parallel/ClausesBuffer.cc:166-182 | accepted exactly when there is room; then the history grows by the clause with its sender, and nothing else changes |
| `ExchangeSteps.PushKeeps` | glucose/parallel/ClausesBuffer.cc:166-182 | a pushed record is stored intact behind the others, which stay intact, and keeps the ring consistent |
| `Exchange.ClausesBuffer.MoveCursors` | glucose/parallel/ClausesBuffer.cc:130-133 | exactly the cursors standing at the oldest record are moved to the end of it |
| `ExchangeSteps.DropCountdown` | glucose/parallel/ClausesBuffer.cc:124-147 | dragging cursors along changes no countdown, because only the owner's can be behind |
| `ExchangeSteps.DropKeeps` | glucose/parallel/ClausesBuffer.cc:124-147 | removing a fully read record keeps the ring consistent and takes nothing from any thread |
| `Exchange.ClausesBuffer.DropOldest` | glucose/parallel/ClausesBuffer.cc:124-140 | the oldest record leaves the ring; every thread keeps what it has still to read |
| `Exchange.ClausesBuffer.RemoveLastClause` | glucose/parallel/ClausesBuffer.cc:124-147 | the oldest record leaves, and so do those behind it that nobody waits for; then the oldest record, if any, is wanted |
| `ExchangeSteps.ReadKeeps` | glucose/parallel/ClausesBuffer.cc:213-224 | reading a record takes one off its countdown and off no other, and gives the reader exactly that clause |
| `ExchangeSteps.NotOvertaken` | glucose/parallel/ClausesBuffer.cc:192-197 | the case of a cursor overtaken by the removal does not arise |
| `ExchangeSteps.SkipOwn` | glucose/parallel/ClausesBuffer.cc:200-207 | skipping its own clauses changes no countdown and nothing the thread is to receive |
| `Exchange.ClausesBuffer.SkipOwnClauses` | glucose/parallel/ClausesBuffer.cc:200-212 | the cursor passes over own clauses only, to the next clause of another thread or to the end |
| `Exchange.ClausesBuffer.GetClause` | glucose/parallel/ClausesBuffer.cc:184-231 | in every interleaving a thread has received exactly the clauses of the others up to its cursor, intact, in order, once each; it finds none only when it has received all |
| `TwoLevelCover.MovedUnique` | src/satopt.cpp:32-52 | moving a string back is determined by the order, so Order_back undoes Reorder |
| `TwoLevelCover.MovedCovers` | src/satopt.cpp:32-52 | a cube covers a pattern exactly when the cube moved back covers the pattern moved back |
| `TwoLevelCover.RearrangedIndices` | src/satopt.cpp:80 | sorting keeps the pairs and keeps the indices a permutation |
| `TwoLevelCover.SignedTwice` | src/satopt.cpp:76-99 | signing scores by the pattern, sorting, and signing back keeps the (index, score) pairs |
| `TwoLevelCover.Reorder` | src/satopt.cpp:55-103 | the scores are signed by the pattern, and the pattern is read with its indices in ascending order of the signed scores; the (index, score) pairs are kept, so later calls start from a permutation again |
| `TwoLevelCover.OrderBack` | src/satopt.cpp:32-52 | position i goes to the i-th index of the order |
| `TwoLevelCover.Int2Binary` | src/satopt.cpp:21-28 | the shortest bit string of the number, empty for zero |
| `TwoLevelCover.PaddedBinary` | src/satopt.cpp:273-276 | the bit string of given length of the number |
| `TwoLevelCover.ValueInjective` | src/satopt.cpp:273-276 | a bit string of given length is determined by its number |
| `TwoLevelCover.ScanDashes` | src/satopt.cpp:253-259 | the positions of the don't-cares in increasing order |
| `TwoLevelCover.Query` | src/satopt.cpp:278-288 | the don't-cares are replaced by the bits from left to right and nothing else changes |
| `TwoLevelCover.FillChoice` | src/satopt.cpp:278-288 | every pattern covered by the cube arises from some bit string |
| `TwoLevelCover.TestedAll` | src/satopt.cpp:262-276 | the bit strings with the other value at the newest don't-care are all the completions with that value |
| `TwoLevelCover.TestFlips` | src/satopt.cpp:262-303 | fail is reported exactly when some completion with the other value lies in the off-set |
| `TwoLevelCover.ExpandDrop` | src/satopt.cpp:249-312 | testing only the half with the other value suffices: the completions with the old value were covered before |
| `TwoLevelCover.ExpandedPrime` | src/satopt.cpp:244-322 | the expanded cube, moved back, covers its pattern, avoids the off-set, and is prime |
| `TwoLevelCover.Expand` | src/satopt.cpp:244-322 | each position ends as a don't-care or cannot be one |
| `TwoLevelCover.AlreadyCovered` | src/satopt.cpp:219-235 | true exactly when an emitted cube covers the pattern |
| `TwoLevelCover.NewCovered` | src/satopt.cpp:219-235 | a cube expanded from a pattern not yet covered covers something new |
| `TwoLevelCover.Optimise` | src/satopt.cpp:212-324 | the cubes cover every on-set pattern and no known off-set pattern, each is prime, and each covers some on-set pattern that none before it covers |
| `CoreMinimization.Antitone` | src/minimize.cpp:58-71 | more literals contradict no less |
| `CoreMinimization.SolveUnder` | minisat/core/Solver.h:370 | the probe runs under exactly the given assumptions; a negative answer is right unless the engine is lost, a positive one unless the search was cut off, and without the cap both always are |
| `CoreMinimization.MinimizeByDeletion` | src/minimize.cpp:58-71 | method 1: a part of the pattern that contradicts the formula, also when undecided searches were capped; without the cap it always stops contradicting when any one literal is dropped |
| `CoreMinimization.SolveAlso` | src/minimize.cpp:306-313 | the probe runs under the current assumptions and the literals of the pattern; what its answer is worth is as for any probe |
| `CoreMinimization.Split` | src/minimize.cpp:139-147 | the upper part keeps the extra literal; the parts in order make up the pattern |
| `CoreMinimization.CallShrinks` | src/minimize.cpp:139-186 | the recursion of method 2 is on a shorter, non-empty pattern exactly for patterns of two or more literals; an empty one calls for itself |
| `CoreMinimization.CoresJoin` | src/minimize.cpp:176-185 | a minimal upper part under the lower half and a minimal lower part under that join to a minimal core |
| `CoreMinimization.MinimizeBySplitting` | src/minimize.cpp:105-186 | method 2: a part of a non-empty pattern that contradicts the formula under the solver's assumptions, always minimal without the cap; the recursion terminates |
| `CoreMinimization.MinimizeHalves` | src/minimize.cpp:176-185 | each half is minimised under the intended assumptions, and the two parts together contradict and are minimal if both are |
| `SubsetEnumeration.RankNext` | src/fixnetwork.cpp:132-145 | moving the first movable member up and the lower ones to the bottom goes to the next subset in colexicographic order |
| `SubsetEnumeration.RankInjective` | src/fixnetwork.cpp:115-161 | the order tells subsets of one size apart |
| `SubsetEnumeration.HasDone` | src/fixnetwork.cpp:103-113 | true exactly when the last k positions are marked |
| `SubsetEnumeration.DoneIsLast` | src/fixnetwork.cpp:103-113 | then the subset is the last one |
| `SubsetEnumeration.Compress` | src/fixnetwork.cpp:137-145 | the lower members are moved to the bottom, everything above stays |
| `SubsetEnumeration.Step` | src/fixnetwork.cpp:130-157 | one step goes to the next rank and keeps the size |
| `SubsetEnumeration.Comb` | src/fixnetwork.cpp:115-165 | the visits are the subsets of ranks 0, 1, 2, ...; all of them unless the pattern limit is reached |
| `SubsetEnumeration.EachVisitedOnce` | src/fixnetwork.cpp:115-165 | if the limit is not reached, every subset of the size is visited exactly once |
| `SubsetEnumeration.NextPermutation` | src/fixnetwork.cpp:25-27 | the next arrangement in lexicographic order; at the last one, and only there, false and back to the first |
| `SubsetEnumeration.Combinator` | src/fixnetwork.cpp:19-30 | the count is the binomial coefficient |
| `Sorting.SelectionSort` | glucose/mtl/Sort.h:38-52 | the range is rearranged into order |
| `Sorting.Partition` | glucose/mtl/Sort.h:63-75 | the Hoare scans stay inside the range; both parts are non-empty and separated by the pivot |
| `Sorting.JoinSortedParts` | glucose/mtl/Sort.h:63-79 | splitting around a pivot, then sorting both parts, leaves the whole range a sorted rearrangement of what it was |
| `Sorting.Sort` | glucose/mtl/Sort.h:56-80 | for any strict weak order the range becomes a sorted permutation of itself, and nothing else changes |
| `IndexedHeap.StepUp` | glucose/mtl/Heap.h:45-58 | moving the parent into the hole keeps the heap in order but for the hole |
| `IndexedHeap.StepDown` | glucose/mtl/Heap.h:61-74 | moving the smaller child into the hole keeps the heap in order but for the hole |
| `IndexedHeap.RootFirst` | glucose/mtl/Heap.h:112-121 | in an ordered heap no element precedes the root |
| `IndexedHeap.KeyChanged` | glucose/mtl/Heap.h:91-98 | a changed key leaves at most its own element out of place |
| `IndexedHeap.Heap.PercolateUp` | glucose/mtl/Heap.h:45-58 | the element rises to where its parent does not follow it; the index table stays the exact inverse of the heap |
| `IndexedHeap.Heap.PercolateDown` | glucose/mtl/Heap.h:61-74 | the element sinks until no child precedes it; the index table stays the exact inverse of the heap |
| `IndexedHeap.Heap.Decrease` | glucose/mtl/Heap.h:85 | after a key became smaller the heap is in order again with the same elements |
| `IndexedHeap.Heap.Increase` | glucose/mtl/Heap.h:86 | after a key became larger the heap is in order again with the same elements |
| `IndexedHeap.Heap.Update` | glucose/mtl/Heap.h:91-98 | absent elements are inserted; after any change of one key the order is restored |
| `IndexedHeap.Heap.ChangeKey` | glucose/mtl/Heap.h:91-98 | any change of the order that concerns one element only is repaired by one update |
| `IndexedHeap.Heap.Insert` | glucose/mtl/Heap.h:101-109 | exactly the new element is added |
| `IndexedHeap.Heap.RemoveMin` | glucose/mtl/Heap.h:112-121 | an element that no other precedes is returned, and exactly it is removed |
| `IndexedHeap.Heap.Build` | glucose/mtl/Heap.h:125-135 | the heap holds exactly the given elements, in order |
| `IndexedHeap.Heap.Clear` | glucose/mtl/Heap.h:138-143 | the heap is empty and the index table says so |
| `Dimacs.SkipWhitespace` | glucose/utils/ParseUtils.h:69-72 | leading white space is dropped |
| `Dimacs.SkipLine` | glucose/utils/ParseUtils.h:75-80 | the rest of the line is dropped |
| `Dimacs.ParseInt` | glucose/utils/ParseUtils.h:111-122 | an optional sign and digits after white space, or a failure |
| `Dimacs.IntegerSpelled` | glucose/utils/ParseUtils.h:111-122 | white space, an optional sign and digits are read with their decimal value, up to the first character that is no digit |
| `Dimacs.IntegerOnly` | glucose/utils/ParseUtils.h:111-122 | exactly the inputs of that form are read; all others are errors |
| `Dimacs.EagerMatch` | glucose/utils/ParseUtils.h:140-145 | true exactly when the input continues with the text |
| `Dimacs.ReadClause` | glucose/core/Dimacs.h:34-45 | the literals up to the closing zero; variables are added as needed |
| `Dimacs.ParseDimacs` | glucose/core/Dimacs.h:47-77 | header numbers and clauses in order, or a failure; the variables added are those needed |
| `Dimacs.NumberDecimal` | glucose/utils/ParseUtils.h:119-121 | reading the decimal digits of a number gives the number |
| `Dimacs.ClauseRead` | glucose/core/Dimacs.h:34-45 | a printed clause is read back |
| `Dimacs.RoundTrip` | glucose/core/Dimacs.h:47-77 | reading a printed document gives back its header and its clauses, in order |
| `Dimacs.CommentedRead` | glucose/core/Dimacs.h:47-77 | comment lines before the header and between the clauses make no difference |
| `Dimacs.MapVar` | glucose/core/Solver.cc:1549-1555 | an injective numbering from 0 on that keeps earlier numbers |
| `Dimacs.WriteClause` | glucose/core/Solver.cc:1557-1564 | the literals that are not false, renamed, and the closing zero |
| `Dimacs.ToDimacs` | glucose/core/Solver.cc:1574-1614 | the header, then the assumptions as unit clauses and the unsatisfied clauses without their false literals, under one injective renaming; a model that agrees with the assigned variables satisfies clauses and assumptions exactly when it satisfies what is written, and no problem clause is written with an assigned variable; the header counts all clauses, and the variables of the written problem clauses; a contradictory solver writes a contradiction |
| `Dimacs.WriteAndRead` | glucose/core/Solver.cc:1574-1614 | what is written is read back exactly, so that it has the models of the clauses and assumptions that agree with the assigned variables, and no clause read from a problem clause is over an assigned variable; the header's clause count is right, and its variable count is the number of variables read exactly when every assumption is over a variable of a literal that is not false in an unsatisfied clause |
| `Dimacs.OutputMeans` | glucose/core/Solver.cc:1557-1611 | dropping clauses with a true literal and false literals of the others loses and adds no model that agrees with the assigned variables |
| `Dimacs.AssumptionUncounted` | glucose/core/Solver.cc:1597-1605 | with no clause and one assumption the header promises no variable, before a clause that uses one |
| `Dimacs.HeaderExact` | glucose/core/Solver.cc:1582-1605 | numbering the assumptions adds a variable exactly when one of them is on a variable that no written clause has |

## Left out

- Floating point and heuristics: variable activities and decay, rescaling, LBD averages, restart sequences, learnt-size adjustment, and which phase a decision takes (saved phases are kept but any phase may be picked). The order heap hands out any element, restart limits, reduction, garbage collection and budget triggers are arbitrary choices; clause activities are real numbers that are bumped only when a clause is learnt.
- Integer widths: variables, indices and counters are unbounded; an `int` overflow in `Int2Binary` needs more than 30 don't-cares.
- minisat's `reduceDB` and `simplify` also check for garbage; in the model their callers do. Level and variable bit masks are sets of bit positions.
- The list of a literal being propagated is a local copy that is written back at the end of the pass, since a pass never appends to that list.
- glucose's own search engine: incremental mode, the separate binary watch lists, purgatory and LBD. minisat's engine stands for the common part; `BinaryLearning` adds glucose's extra step on learnt clauses, with the limits and the LBD as parameters, and `CdclSolver.Solver.SolveRestarting` its loop over searches.
- In the preprocessor: asymmetric branching and `implied` (both off by default), `substitute` (never called), learnt clauses (it runs before the search), `n_occ` and the order of the elimination heap, the vector `clauses` (the pool's indices stand for it), relocation of its references, and the count of clauses behind the cut-off at 4,800,000 (`Eliminate` is told whether there are few enough).
- Preprocessor.SimpSolver.Propagate: does not promise completeness, because the code's watch lists do not guarantee it while clauses are being strengthened (`Reattachment.ReattachBreaks`).
- Preprocessor.SimpSolver.Eliminate: after a failure the lists are not tidied up; only unsatisfiability is promised then.
- Pipeline.Solve: the engine is a separate object that receives the remaining clauses and facts, with every variable decidable; the source keeps eliminated variables undecided in the same object.
- CdclSolver.Solver.Solve: a model is promised when every variable has a value, which decidability of all variables guarantees. After a capped call with a verdict behind it the source leaves the trail as it is; what later calls do from there is not modelled.
- CdclSolver.Solver.SolveRestarting: that glucose's dynamic restarts come to an end; the restarts are a finite list of conflict limits given from outside, and every such list is covered.
- Exchange.ClausesBuffer.PushClause: the option to drop older clauses when the ring is full, `fastclear` and counters of forced removals.
- TwoLevelCover.Optimise: reading the simulation file, the computation of the initial scores (any scores will do) and writing the result file.
- CoreMinimization.MinimizeByDeletion: methods 3 and 4 of `minimize`; method 3 reuses a stale result, method 4 is method 1 with a sort. With minisat's cap (`Capped`), nothing is promised after a call that was cut off with a verdict behind it (`Lost`).
- SubsetEnumeration.Comb: what a visit adds to the pattern list (the pattern, its complement and their mirror images, without repeats).
- Dimacs.ToDimacs: glucose's incremental mode; writing to a file.
- TwoLevelCover.Expand: reads `dc_pos` only while there are don't-cares left; the source reads one entry past the last.
- Reattachment.ReattachExact: the lists of binary clauses, which glucose keeps apart, are one with the others.
- The learner's process plumbing, Verilog and BLIF text, statistics, options and printing.
