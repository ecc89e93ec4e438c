# The branching-decision step of CaDiCaL, in Dafny

This project models `src/decide.cpp` of the CaDiCaL CDCL SAT solver. This is the step that runs whenever search is not yet finished. It picks the next variable to branch on and the polarity it gets, and it settles the pending assumption literals first.

- `values.dfy` (`Values`): the tri-state values `-1 / 0 / 1`, literals, and the trail. A *consistent trail* lists every assigned variable exactly once, as the literal that was made true. The module proves that on such a trail, "every variable is assigned" is the same as "the trail holds `max_var` literals", which is the count `satisfied ()` compares.
- `queue.dfy` (`DecisionQueue`): the move-to-front decision queue, seen through its `prev` links (0 is the null link). It defines what a walk from the cursor finds (`WalkResult`) and proves that the walk is unique, stays on real variables and is idempotent.
- `scores.dfy` (`ScoreHeap`): the score structure as the sequence of its entries in pop order. It defines the number of stale entries at the front and what remains once they are popped. It proves that no unassigned entry is lost and that the pick has maximal activity.
- `phase.dfy` (`Phase`): the pure phase selectors `select_lsids_based_phase`, `decide_cbt_phase`, `decide_phase` and `likely_phase`. Each works over the option flags, the five phase tables and the per-literal activity table, with reference definitions of their priority orders.
- `decide.dfy` (`Decide`): a class `Internal` holding the solver state that the step reads and updates, namely:
  - the values, the queue links and cursor, the score structure;
  - the trail, `propagated`, `level` and `control`;
  - the assumptions;
  - the `searched` and `decisions` counters.

  It holds the imperative operations: the queue walk, the score pick, their dispatch, `satisfied ()`, `decide ()`, and the collaborators `search_assume_decision`, `failing` and `update_queue_unassigned`, which get contracts only. The class invariant `Valid` is split by field. It covers:
  - the sizes of the tables;
  - the consistent trail, with `propagated` not beyond it;
  - closed queue links;
  - score entries that are variables;
  - phase tables that cover every variable;
  - assumptions that are literals.
- `scenarios.dfy` (`Scenarios`): concrete instances of the contract of `decide ()` on small states:
  - a first queue decision;
  - a satisfied assumption, which opens a pseudo level;
  - a falsified assumption, which returns 20;
  - an unassigned assumption, which is decided.

`Random (opts.seed).generate_bool ()` is the field `seededBool` of the phase context, applied to `opts.seed`. The generator is seeded afresh on every call of `decide_cbt_phase`, so mode 2 gives every variable the same polarity for a given seed. `DecideCbtPhase` states this. The model keeps this behaviour.

`satisfied ()` tests `propagated < trail.size ()`. Under the invariant `propagated <= |trail|`, this is the same as requiring equality.

## Model

| member | source | states |
|---|---|---|
| Decide.Internal.NextDecisionVariableOnQueue | src/decide.cpp:12-23 | Returns an unassigned real variable. It is reached from the old cursor by following `prev` links, and every variable skipped on the way is assigned. If no step was taken, the cursor and `searched` are unchanged. Otherwise the cursor becomes the result and `searched` grows by the step count. |
| Decide.Internal.UpdateQueueUnassigned | src/decide.cpp:19 | The cursor becomes the given variable, and the invariant is kept. |
| DecisionQueue.Follow | src/decide.cpp:15-16 | Following `prev` links any number of times from a table entry stays inside the table. |
| DecisionQueue.FollowAdd | src/decide.cpp:15-16 | Following `a + b` links is following `a` links and then `b` more. |
| DecisionQueue.FollowFromNull | src/decide.cpp:15-16 | From the null link, the walk stays on the null link. |
| DecisionQueue.WalkFindsVariable | src/decide.cpp:12-20 | When some unassigned real variable lies `k` links from the cursor, the walk stops at a real variable within `k` steps, never at the null link. |
| DecisionQueue.WalkResultUnique | src/decide.cpp:15-16 | The walk's result and step count are determined by the links, the values and the cursor. |
| DecisionQueue.WalkIdempotent | src/decide.cpp:5-7 | A walk that starts where a previous walk stopped finds the same variable after zero steps. |
| Decide.Internal.RepeatQueueProbe | src/decide.cpp:5-7 | Two queue walks with no assignment between them return the same variable. The cursor ends on that variable. `searched` grows only by the step count of the first walk, so the second walk adds nothing. |
| ScoreHeap.StaleCount | src/decide.cpp:29-33 | The number of entries popped before an unassigned front appears. Every entry before it is assigned, and the entry at it is unassigned. |
| ScoreHeap.PurgeKeepsUnassigned | src/decide.cpp:29-33 | Popping the stale front entries discards no unassigned entry. Each one is still present, in the same order. |
| ScoreHeap.BestScoreIsMaximal | src/decide.cpp:27-36 | In an activity-ordered structure, the pick has an activity at least that of every unassigned entry, and all of those entries remain in the structure. |
| ScoreHeap.SuffixEntries | src/decide.cpp:32 | Popping front entries leaves only variables in the structure. |
| ScoreHeap.SuffixHeapOrdered | src/decide.cpp:32 | Popping front entries keeps the rest ordered by activity. |
| Decide.Internal.NextDecisionVariableWithBestScore | src/decide.cpp:27-36 | The structure becomes the old one with its stale front entries popped. The result is its new front, an unassigned real variable. Activity order is kept. |
| Decide.Internal.NextDecisionVariable | src/decide.cpp:38-41 | In scoring mode, it is the score pick and leaves the queue and `searched` alone. Otherwise, it is the queue walk and leaves the score structure alone. Either way, the result is an unassigned real variable. |
| Phase.SelectLsidsBasedPhase | src/decide.cpp:49-59 | Returns `1` exactly when the positive literal is strictly more active than the negative one, and `-1` otherwise, so ties go negative. The chosen literal is at least as active as its complement. |
| Phase.DecideCbtPhase | src/decide.cpp:63-82 | Returns `±idx`, equal to the phase of the mode dispatch, or to the initial phase when that phase is 0. Mode 2 gives the same polarity for every variable under one seed. Mode 3 is always negative. A mode outside 1..7 gives the initial phase. |
| Phase.CbtPhaseIgnoresTarget | src/decide.cpp:63 | The `target` argument of the chronological variant has no effect. |
| Phase.DecidePhase | src/decide.cpp:89-99 | Returns `idx` or `-idx`. |
| Phase.FirstNonZeroAppend | src/decide.cpp:93-97 | The first non-zero proposal of two concatenated lists comes from the first list if it has one, and otherwise from the second. |
| Phase.DecidePhasePriority | src/decide.cpp:89-99 | With `cbt` on and a chronological mode set, the result is the chronological variant. Otherwise, it is the first non-zero of these proposals: saved (when `force_saved_phase`), initial (when `opts.forcephase`), target (when requested), saved, initial. |
| Phase.LikelyPhase | src/decide.cpp:104 | Returns `idx` or `-idx`. |
| Phase.LikelyPhaseIgnoresTarget | src/decide.cpp:104 | The likely phase is the decision phase without a target request. It does not depend on the target table unless the chronological variant runs in mode 4. |
| Values.TrailVarsCardinality | src/decide.cpp:109 | A trail with distinct variables has as many variables as literals. |
| Values.AllAssignedIffTrailFull | src/decide.cpp:109-112 | On a consistent trail, every variable is assigned exactly when the trail holds `max_var` literals. |
| Decide.Internal.SatisfiedIffAllAssigned | src/decide.cpp:108-113 | `satisfied ()`, modelled by `Decide.Internal.Satisfied`, holds exactly when nothing is left to propagate, every assumption has its level, and every variable has a value. |
| Values.AssignKeepsTrailConsistent | src/decide.cpp:144 | Making an unassigned literal true and pushing it on the trail keeps the trail consistent. |
| Decide.Internal.SearchAssumeDecision | src/decide.cpp:144 | Opens one level whose control entry records the literal and the old trail length, assigns the literal true and appends it to the trail. |
| Decide.Internal.Failing | src/decide.cpp:128 | Records the failure. |
| Decide.Internal.DecideInPhase | src/decide.cpp:142-144 | Decides the variable in the phase chosen by `decide_phase`, with a target request when `opts.stabilizephase` is set in stable mode. |
| Decide.Internal.DecideVariable | src/decide.cpp:139-145 | Counts one decision and picks an unassigned variable with the selector of the current mode. Decides it in the phase of `decide_phase`, opening one level, growing the trail and the control stack by one entry, and changing only that variable's value. In scoring mode, the structure loses its stale front and the queue cursor and `searched` are unchanged. In queue mode, the structure is unchanged, the cursor moves to the variable and `searched` grows by the walk's step count. |
| Decide.Internal.Decide | src/decide.cpp:118-148 | Returns 0 or 20. A falsified assumption returns 20, records the failure, and leaves level, control, trail and values unchanged. An assumption already true opens a pseudo level at the unchanged trail length. An unassigned assumption is decided. None of these counts a decision or runs a selector. With all assumptions processed, it makes exactly one counted genuine decision, as `DecideVariable` states, including what each selector does to the score structure, the queue cursor and `searched`. |
| Scenarios.FirstDecisionOnQueue | src/decide.cpp:139-145 | On three unassigned variables with the cursor on 3 and the initial phase forced positive, the decision is literal 3 at level 1. |
| Scenarios.SatisfiedAssumptionOpensPseudoLevel | src/decide.cpp:130-134 | An assumption already true opens level 1 with control entry `(0, 1)` and assigns nothing. |
| Scenarios.FalsifiedAssumptionFails | src/decide.cpp:126-129 | A falsified assumption gives 20 and keeps level 0. |
| Scenarios.UnassignedAssumptionIsDecided | src/decide.cpp:135-138 | An unassigned assumption becomes the decision of level 1 without counting a decision. |

## Left out

- The `LOG`, `START` and `STOP` macros and the `bumped`/`score` values read inside log calls. They are diagnostics and profiling only.
- The internals of the `Random` generator. Its first `generate_bool ()` after seeding is the uninterpreted field `seededBool`.
- Floating-point activities. Scores and `lstab` entries are `real`, so NaN and rounding are not modelled.
- The heap operations behind `front`/`pop_front`. The structure is the sequence of its entries in pop order, and activity order (`HeapOrdered`) is an optional hypothesis of the score-pick contract, not part of the invariant.
- `search_assume_decision`, `failing` and `update_queue_unassigned` are defined elsewhere. Each has a contract only:
  - `search_assume_decision` opens a level and assigns the literal; the rest of the search state is not modelled;
  - `failing` records a flag; the failure analysis is not modelled;
  - `update_queue_unassigned` sets the cursor; the `bumped` timestamps are not modelled.
- `use_scores ()`, `stable`, `cbt`, `force_saved_phase` and the options are read-only fields. The queue links are a read-only sequence, because this step never changes them.
- The assertion that an assumption is marked as assumed is replaced by the invariant that assumptions are literals over the variables.
- There is no invariant that ties the length of the control stack to `level`. The sentinel entry is pushed outside this step.
- Decide.Internal.NextDecisionVariableOnQueue: requires an unassigned variable reachable from the cursor through `prev` links. The source relies on the queue invariant maintained elsewhere together with `!satisfied ()` to ensure this.
- Decide.Internal.NextDecisionVariableWithBestScore: requires some unassigned entry in the structure, for the same reason.
- Decide.Internal.Decide: on the genuine-decision path it carries the termination precondition of the selector in use, since the queue and heap invariants that imply it are not part of this model.
- Decide.Internal.NextDecisionVariableOnQueue: `stats.searched` and `stats.decisions` are unbounded naturals, so 64-bit wrap-around is not modelled.
