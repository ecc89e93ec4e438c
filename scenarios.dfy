/** Concrete instances of the contract of `decide ()` on small solver states,
    derived from the contracts of the decision step alone. */
module Scenarios {
  import opened Values
  import opened DecisionQueue
  import opened Phase
  import opened Decide

  /** Three unassigned variables, queue mode with the cursor on variable 3,
      initial phase forced positive: the first decision is literal 3 at a
      new level, and one decision is counted. */
  method FirstDecisionOnQueue(s: Internal) returns (res: int)
    requires s.Valid() && s.maxVar == 3 && s.vals == [0, 0, 0, 0]
    requires s.queueUnassigned == 3 && !s.useScores
    requires s.assumptions == [] && s.trail == [] && s.level == 0 && s.control == []
    requires !s.ctx.cbt && !s.ctx.forceSavedPhase && s.ctx.opts.forcephase && s.ctx.opts.phase
    modifies s
    ensures res == 0 && s.level == 1 && s.trail == [3] && s.vals == [0, 0, 0, 1]
    ensures s.control == [Level(3, 0)] && s.decisions == old(s.decisions) + 1
  {
    assert s.trail == [] && s.vals[3] == 0;
    assert 1 <= Follow(s.prev, s.queueUnassigned, 0) && s.vals[Follow(s.prev, s.queueUnassigned, 0)] == 0;
    res := s.Decide();
    assert Var(s.trail[0]) == 3 by {
      var idx := Var(s.trail[0]);
      var steps: nat :| WalkResult(s.prev, old(s.vals), 3, idx, steps);
      assert old(s.vals)[Follow(s.prev, 3, 0)] == 0;
    }
  }

  /** Assumptions 2 and -1 with variable 2 already true: `decide ()` opens a
      pseudo level at trail length 1 and assigns nothing. */
  method SatisfiedAssumptionOpensPseudoLevel(s: Internal) returns (res: int)
    requires s.Valid() && s.maxVar == 2 && s.vals == [0, 0, 1]
    requires s.assumptions == [2, -1] && s.trail == [2] && s.propagated == 1
    requires s.level == 0 && s.control == []
    modifies s
    ensures res == 0 && s.level == 1 && s.control == [Level(0, 1)]
    ensures s.trail == [2] && s.vals == [0, 0, 1] && s.decisions == old(s.decisions)
  {
    assert LitVal(s.vals, s.assumptions[s.level]) == 1;
    res := s.Decide();
  }

  /** The same assumptions with variable 2 already false: `decide ()`
      reports 20, records the failure and keeps the level. */
  method FalsifiedAssumptionFails(s: Internal) returns (res: int)
    requires s.Valid() && s.maxVar == 2 && s.vals == [0, 0, -1]
    requires s.assumptions == [2, -1] && s.trail == [-2] && s.propagated == 1
    requires s.level == 0 && s.control == []
    modifies s
    ensures res == 20 && s.failed && s.level == 0 && s.control == []
    ensures s.trail == [-2] && s.decisions == old(s.decisions)
  {
    assert LitVal(s.vals, s.assumptions[s.level]) == -1;
    res := s.Decide();
  }

  /** An unassigned assumption -1 is decided like a genuine decision literal
      but counts no decision. */
  method UnassignedAssumptionIsDecided(s: Internal) returns (res: int)
    requires s.Valid() && s.maxVar == 2 && s.vals == [0, 0, 0]
    requires s.assumptions == [-1] && s.trail == [] && s.level == 0 && s.control == []
    modifies s
    ensures res == 0 && s.level == 1 && s.control == [Level(-1, 0)]
    ensures s.trail == [-1] && s.vals == [0, -1, 0] && s.decisions == old(s.decisions)
  {
    assert LitVal(s.vals, s.assumptions[s.level]) == 0;
    res := s.Decide();
  }
}
