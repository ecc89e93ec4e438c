/** The branching-decision step of the solver: the queue walk, the score
    pick, the dispatch between them, the termination guard and `decide`
    itself, over the solver state they read and update. */
module Decide {
  import opened Values
  import opened DecisionQueue
  import opened ScoreHeap
  import opened Phase

  /** An entry of the control stack: the decision literal of the level (0 for
      a pseudo level) and the trail length at which the level began. */
  datatype Level = Level(decision: int, trail: nat)

  /** The status `decide` returns when an assumption is falsified. */
  const UNSATISFIABLE := 20

  /** The phase tables have an entry for every variable. */
  ghost predicate CoversVariables(ctx: PhaseContext, maxVar: nat)
  {
    forall v :: 1 <= v <= maxVar ==> ctx.Covers(v)
  }

  /** Every assumption is a literal over the variables. */
  ghost predicate AssumptionsAreLits(assumptions: seq<int>, maxVar: nat)
  {
    forall i :: 0 <= i < |assumptions| ==> IsLit(assumptions[i], maxVar)
  }

  /** The part of the solver state the decision step touches. */
  class Internal {
    var maxVar: nat
    /** `val (v)` of each variable, indexed 0..maxVar; `vals[0]` stays 0. */
    var vals: seq<Sign>
    /** `link (v).prev` of the decision queue; 0 is the null link. */
    var prev: seq<int>
    /** `queue.unassigned`, the cached cursor of the queue walk. */
    var queueUnassigned: int
    /** The score structure in pop order, and the activity `score (v)`. */
    var scores: seq<int>
    var stab: seq<real>
    /** Options, flags and tables that phase selection reads. */
    var ctx: PhaseContext
    /** `use_scores ()` and `stable`, set by the stabilization logic. */
    var useScores: bool
    var stable: bool
    var assumptions: seq<int>
    var trail: seq<int>
    var propagated: nat
    var level: nat
    var control: seq<Level>
    /** `stats.searched` and `stats.decisions`. */
    var searched: nat
    var decisions: nat
    /** What the failure-analysis collaborator `failing ()` records. */
    var failed: bool

    /** The object invariant, in parts that each read only their own
        fields, so that an operation changing some fields keeps the other
        parts without re-proving them. */
    ghost predicate Valid()
      reads this`maxVar, this`vals, this`trail, this`propagated, this`prev,
            this`queueUnassigned, this`scores, this`stab, this`ctx, this`assumptions
    {
      AssignmentValid() && QueueValid() && ScoresValid() && InputsValid()
    }

    /** Values are indexed by variable, and the trail matches them. */
    ghost predicate AssignmentValid()
      reads this`maxVar, this`vals, this`trail, this`propagated
    {
      |vals| == maxVar + 1 && vals[0] == 0 &&
      TrailConsistent(trail, vals, maxVar) && propagated <= |trail|
    }

    /** The links stay in the table and the cursor is a variable or null. */
    ghost predicate QueueValid()
      reads this`maxVar, this`prev, this`queueUnassigned
    {
      |prev| == maxVar + 1 && LinksClosed(prev) && 0 <= queueUnassigned <= maxVar
    }

    /** Every entry of the score structure is a variable with a score. */
    ghost predicate ScoresValid()
      reads this`maxVar, this`scores, this`stab
    {
      |stab| == maxVar + 1 && Entries(scores, maxVar)
    }

    /** The phase tables cover the variables; assumptions are literals. */
    ghost predicate InputsValid()
      reads this`maxVar, this`ctx, this`assumptions
    {
      CoversVariables(ctx, maxVar) && AssumptionsAreLits(assumptions, maxVar)
    }

    /** `satisfied ()`: everything is propagated, every assumption has its
        level and the trail holds as many literals as there are variables.
        What this means is stated by `SatisfiedIffAllAssigned`. */
    function Satisfied(): bool
      reads this
    {
      var trailSize := |trail|;
      if propagated < trailSize then false
      else if level < |assumptions| then false
      else trailSize == maxVar
    }

    /** In a consistent state, `satisfied ()` holds exactly when nothing is
        left to propagate, all assumptions are processed and every variable
        has a value; so `!satisfied ()` with all assumptions processed and
        everything propagated leaves an unassigned variable to decide on. */
    lemma SatisfiedIffAllAssigned()
      requires Valid()
      ensures Satisfied() <==>
                propagated >= |trail| && level >= |assumptions| && AllAssigned(vals, maxVar)
    {
      AllAssignedIffTrailFull(trail, vals, maxVar);
    }

    /** Collaborator `update_queue_unassigned`: sets the cursor. */
    method UpdateQueueUnassigned(v: int)
      requires Valid() && 0 <= v <= maxVar
      modifies this`queueUnassigned
      ensures Valid() && queueUnassigned == v
    {
      queueUnassigned := v;
    }

    /** `next_decision_variable_on_queue`: walk back from the cursor to the
        first unassigned variable; count the steps into `stats.searched` and
        move the cursor only when at least one step was taken. */
    method NextDecisionVariableOnQueue() returns (res: int, ghost steps: nat)
      requires Valid() && ReachesUnassigned(prev, vals, queueUnassigned)
      modifies this`queueUnassigned, this`searched
      ensures Valid()
      ensures WalkResult(prev, vals, old(queueUnassigned), res, steps)
      ensures 1 <= res <= maxVar && vals[res] == 0
      ensures steps == 0 ==> queueUnassigned == old(queueUnassigned) && searched == old(searched)
      ensures steps > 0 ==> queueUnassigned == res && searched == old(searched) + steps
    {
      ghost var k: nat :| 1 <= Follow(prev, queueUnassigned, k) && vals[Follow(prev, queueUnassigned, k)] == 0;
      var count: nat := 0;
      res := queueUnassigned;
      while vals[res] != 0
        invariant count <= k
        invariant res == Follow(prev, queueUnassigned, count)
        invariant forall j :: 0 <= j < count ==> vals[Follow(prev, queueUnassigned, j)] != 0
        decreases k - count
      {
        res, count := prev[res], count + 1;
      }
      steps := count;
      WalkFindsVariable(prev, vals, queueUnassigned, res, steps, k);
      if count > 0 {
        searched := searched + count;
        UpdateQueueUnassigned(res);
      }
    }

    /** Two queue probes with no assignment in between: the second starts at
        the cursor the first left behind, takes no step, and returns the
        same variable without touching the cursor or `stats.searched`. */
    method RepeatQueueProbe() returns (first: int, second: int)
      requires Valid() && ReachesUnassigned(prev, vals, queueUnassigned)
      modifies this`queueUnassigned, this`searched
      ensures Valid() && first == second && queueUnassigned == first
      ensures exists steps: nat :: WalkResult(prev, vals, old(queueUnassigned), first, steps) &&
                                   searched == old(searched) + steps
    {
      ghost var steps1, steps2;
      first, steps1 := NextDecisionVariableOnQueue();
      assert queueUnassigned == first;
      assert 1 <= Follow(prev, queueUnassigned, 0) && vals[Follow(prev, queueUnassigned, 0)] == 0;
      ghost var cursor, counted := queueUnassigned, searched;
      second, steps2 := NextDecisionVariableOnQueue();
      WalkIdempotent(prev, vals, old(queueUnassigned), first, steps1, second, steps2);
      assert queueUnassigned == cursor && searched == counted;
    }

    /** `next_decision_variable_with_best_score`: pop stale entries off the
        front until the front is unassigned, and return it. */
    method NextDecisionVariableWithBestScore() returns (res: int)
      requires Valid() && HasUnassigned(scores, vals)
      modifies this`scores
      ensures Valid()
      ensures scores == PurgeAssigned(old(scores), vals) && res == scores[0]
      ensures 1 <= res <= maxVar && vals[res] == 0
      ensures HeapOrdered(old(scores), stab) ==> HeapOrdered(scores, stab)
    {
      res := 0;
      ghost var orig, popped: nat := scores, 0;
      ghost var d := StaleCount(orig, vals);
      while true
        invariant popped <= d && scores == orig[popped..]
        decreases |scores|
      {
        res := scores[0];
        assert res == orig[popped];
        if vals[res] == 0 {
          break;
        }
        scores := scores[1..];
        popped := popped + 1;
      }
      SuffixEntries(orig, maxVar, popped);
      if HeapOrdered(orig, stab) {
        SuffixHeapOrdered(orig, stab, popped);
      }
    }

    /** `next_decision_variable`: the score pick in scoring mode, the queue
        walk otherwise. */
    method NextDecisionVariable() returns (res: int)
      requires Valid()
      requires useScores ==> HasUnassigned(scores, vals)
      requires !useScores ==> ReachesUnassigned(prev, vals, queueUnassigned)
      modifies this`scores, this`queueUnassigned, this`searched
      ensures Valid() && 1 <= res <= maxVar && vals[res] == 0
      ensures useScores ==>
                scores == PurgeAssigned(old(scores), vals) && res == scores[0] &&
                queueUnassigned == old(queueUnassigned) && searched == old(searched)
      ensures !useScores ==>
                scores == old(scores) && queueUnassigned == res &&
                exists steps: nat :: WalkResult(prev, vals, old(queueUnassigned), res, steps) &&
                                     searched == old(searched) + steps
    {
      if useScores {
        res := NextDecisionVariableWithBestScore();
      } else {
        ghost var steps;
        res, steps := NextDecisionVariableOnQueue();
      }
    }

    /** Collaborator `failing ()`: records that an assumption failed. */
    method Failing()
      modifies this`failed
      ensures failed
    {
      failed := true;
    }

    /** Collaborator `search_assume_decision (lit)`: opens a new level whose
        control entry records `lit` and the current trail length, then
        assigns `lit` true and pushes it on the trail. */
    method SearchAssumeDecision(lit: int)
      requires Valid() && IsLit(lit, maxVar) && LitVal(vals, lit) == 0
      modifies this`level, this`control, this`trail, this`vals
      ensures Valid()
      ensures level == old(level) + 1 && control == old(control) + [Level(lit, |old(trail)|)]
      ensures trail == old(trail) + [lit] && vals == old(vals)[Var(lit) := SignOf(lit)]
    {
      AssignKeepsTrailConsistent(trail, vals, maxVar, lit);
      level := level + 1;
      control := control + [Level(lit, |trail|)];
      vals := vals[Var(lit) := SignOf(lit)];
      trail := trail + [lit];
    }

    /** The phase step of a genuine decision: choose the phase of the
        picked variable (target phase requested when `opts.stabilizephase`
        is set in stable mode) and decide that literal. */
    method DecideInPhase(idx: int)
      requires Valid() && 1 <= idx <= maxVar && vals[idx] == 0
      modifies this`level, this`control, this`trail, this`vals
      ensures Valid()
      ensures var lit := DecidePhase(ctx, idx, ctx.opts.stabilizephase && stable);
                level == old(level) + 1 && control == old(control) + [Level(lit, |old(trail)|)] &&
                trail == old(trail) + [lit] && vals == old(vals)[idx := SignOf(lit)]
    {
      var target := ctx.opts.stabilizephase && stable;
      var decision := DecidePhase(ctx, idx, target);
      assert Var(decision) == idx;
      SearchAssumeDecision(decision);
    }

    /** The genuine-decision branch of `decide ()`: count the decision,
        pick the variable, choose its phase and decide it. */
    method DecideVariable()
      requires Valid() && level >= |assumptions|
      requires useScores ==> HasUnassigned(scores, vals)
      requires !useScores ==> ReachesUnassigned(prev, vals, queueUnassigned)
      modifies this`level, this`control, this`trail, this`vals, this`decisions,
               this`searched, this`queueUnassigned, this`scores
      ensures Valid()
      ensures decisions == old(decisions) + 1 &&
                level == old(level) + 1 && |trail| == |old(trail)| + 1 &&
                trail[..|old(trail)|] == old(trail) &&
                control == old(control) + [Level(trail[|old(trail)|], |old(trail)|)]
      ensures var idx := Var(trail[|old(trail)|]);
                1 <= idx <= maxVar && old(vals)[idx] == 0 &&
                vals == old(vals)[idx := SignOf(trail[|old(trail)|])]
      ensures trail[|old(trail)|] ==
                  DecidePhase(ctx, Var(trail[|old(trail)|]), ctx.opts.stabilizephase && stable)
      ensures useScores ==>
                scores == PurgeAssigned(old(scores), old(vals)) &&
                Var(trail[|old(trail)|]) == scores[0] &&
                queueUnassigned == old(queueUnassigned) && searched == old(searched)
      ensures !useScores ==>
                scores == old(scores) && queueUnassigned == Var(trail[|old(trail)|]) &&
                exists steps: nat ::
                  WalkResult(prev, old(vals), old(queueUnassigned), Var(trail[|old(trail)|]), steps) &&
                  searched == old(searched) + steps
    {
      decisions := decisions + 1;
      var idx := NextDecisionVariable();
      DecideInPhase(idx);
    }

    /** `decide ()`: settle the assumption of the current level if one is
        left (fail on a falsified one, open a pseudo level for a satisfied
        one, decide an unassigned one); otherwise count a decision, pick a
        variable and its phase and decide it. Returns 0 or 20. */
    method Decide() returns (res: int)
      requires Valid() && !Satisfied()
      requires level >= |assumptions| && useScores ==> HasUnassigned(scores, vals)
      requires level >= |assumptions| && !useScores ==> ReachesUnassigned(prev, vals, queueUnassigned)
      modifies this`level, this`control, this`trail, this`vals, this`decisions,
               this`searched, this`queueUnassigned, this`scores, this`failed
      ensures Valid()
      ensures res == 0 || res == UNSATISFIABLE
      // Assumption path: no decision is counted and neither selector runs.
      ensures old(level) < |assumptions| ==>
                decisions == old(decisions) && scores == old(scores) &&
                queueUnassigned == old(queueUnassigned) && searched == old(searched)
      ensures old(level) < |assumptions| && old(LitVal(vals, assumptions[level])) < 0 ==>
                res == UNSATISFIABLE && failed &&
                level == old(level) && control == old(control) &&
                trail == old(trail) && vals == old(vals)
      ensures old(level) < |assumptions| && old(LitVal(vals, assumptions[level])) > 0 ==>
                res == 0 && failed == old(failed) &&
                level == old(level) + 1 && control == old(control) + [Level(0, |old(trail)|)] &&
                trail == old(trail) && vals == old(vals)
      ensures old(level) < |assumptions| && old(LitVal(vals, assumptions[level])) == 0 ==>
                var lit := assumptions[old(level)];
                res == 0 && failed == old(failed) &&
                level == old(level) + 1 && control == old(control) + [Level(lit, |old(trail)|)] &&
                trail == old(trail) + [lit] && vals == old(vals)[Var(lit) := SignOf(lit)]
      // Genuine decision: one decision counted, one literal decided.
      ensures old(level) >= |assumptions| ==>
                res == 0 && failed == old(failed) && decisions == old(decisions) + 1 &&
                level == old(level) + 1 && |trail| == |old(trail)| + 1 &&
                trail[..|old(trail)|] == old(trail) &&
                control == old(control) + [Level(trail[|old(trail)|], |old(trail)|)]
      ensures old(level) >= |assumptions| ==>
                var idx := Var(trail[|old(trail)|]);
                1 <= idx <= maxVar && old(vals)[idx] == 0 &&
                vals == old(vals)[idx := SignOf(trail[|old(trail)|])]
      ensures old(level) >= |assumptions| ==>
                trail[|old(trail)|] ==
                  DecidePhase(ctx, Var(trail[|old(trail)|]), ctx.opts.stabilizephase && stable)
      ensures old(level) >= |assumptions| && useScores ==>
                scores == PurgeAssigned(old(scores), old(vals)) &&
                Var(trail[|old(trail)|]) == scores[0] &&
                queueUnassigned == old(queueUnassigned) && searched == old(searched)
      ensures old(level) >= |assumptions| && !useScores ==>
                scores == old(scores) && queueUnassigned == Var(trail[|old(trail)|]) &&
                exists steps: nat ::
                  WalkResult(prev, old(vals), old(queueUnassigned), Var(trail[|old(trail)|]), steps) &&
                  searched == old(searched) + steps
    {
      res := 0;
      if level < |assumptions| {
        var lit := assumptions[level];
        var tmp := LitVal(vals, lit);
        if tmp < 0 {
          Failing();
          res := UNSATISFIABLE;
        } else if tmp > 0 {
          level := level + 1;
          control := control + [Level(0, |trail|)];
        } else {
          SearchAssumeDecision(lit);
        }
      } else {
        DecideVariable();
      }
    }
  }
}
