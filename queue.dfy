/** The move-to-front decision queue, seen through its `prev` links.

    `prev[v]` is `link (v).prev`, the variable queued just before `v`, and
    0 is the null link (the head of the queue). The walk of
    `next_decision_variable_on_queue` starts at the cached cursor and
    follows these links until it meets an unassigned variable; this module
    states what such a walk finds. */
module DecisionQueue {

  /** Every link stays inside the table, and the null entry links to itself. */
  ghost predicate LinksClosed(prev: seq<int>)
  {
    |prev| > 0 && prev[0] == 0 &&
    forall v :: 0 <= v < |prev| ==> 0 <= prev[v] < |prev|
  }

  /** The variable reached from `v` by following `n` prev links. */
  function Follow(prev: seq<int>, v: int, n: nat): (w: int)
    requires LinksClosed(prev) && 0 <= v < |prev|
    ensures 0 <= w < |prev|
    decreases n
  {
    if n == 0 then v else prev[Follow(prev, v, n - 1)]
  }

  lemma {:induction false} FollowAdd(prev: seq<int>, v: int, a: nat, b: nat)
    requires LinksClosed(prev) && 0 <= v < |prev|
    ensures Follow(prev, v, a + b) == Follow(prev, Follow(prev, v, a), b)
    decreases b
  {
    if b > 0 {
      FollowAdd(prev, v, a, b - 1);
    }
  }

  /** Once the walk falls off the head of the queue it stays on the null link. */
  lemma {:induction false} FollowFromNull(prev: seq<int>, n: nat)
    requires LinksClosed(prev)
    ensures Follow(prev, 0, n) == 0
  {
    if n > 0 {
      FollowFromNull(prev, n - 1);
    }
  }

  /** Some real variable reachable from `cursor` through prev links is
      unassigned: the guarantee that makes the queue walk terminate. */
  ghost predicate ReachesUnassigned(prev: seq<int>, vals: seq<int>, cursor: int)
    requires LinksClosed(prev) && |vals| == |prev| && 0 <= cursor < |prev|
  {
    exists k: nat :: 1 <= Follow(prev, cursor, k) && vals[Follow(prev, cursor, k)] == 0
  }

  /** `res` is the first unassigned variable on the prev chain from
      `cursor`, found after `steps` links, each skipped one assigned. */
  ghost predicate WalkResult(prev: seq<int>, vals: seq<int>, cursor: int, res: int, steps: nat)
    requires LinksClosed(prev) && |vals| == |prev| && 0 <= cursor < |prev|
  {
    res == Follow(prev, cursor, steps) && vals[res] == 0 &&
    forall j :: 0 <= j < steps ==> vals[Follow(prev, cursor, j)] != 0
  }

  /** The walk is a function of the links, the values and the cursor. */
  lemma WalkResultUnique(prev: seq<int>, vals: seq<int>, cursor: int,
                         r1: int, s1: nat, r2: int, s2: nat)
    requires LinksClosed(prev) && |vals| == |prev| && 0 <= cursor < |prev|
    requires WalkResult(prev, vals, cursor, r1, s1) && WalkResult(prev, vals, cursor, r2, s2)
    ensures r1 == r2 && s1 == s2
  {
  }

  /** When a real unassigned variable is reachable, the walk stops at a real
      variable (never at the null link) within that many steps. */
  lemma WalkFindsVariable(prev: seq<int>, vals: seq<int>, cursor: int,
                          res: int, steps: nat, k: nat)
    requires LinksClosed(prev) && |vals| == |prev| && 0 <= cursor < |prev|
    requires 1 <= Follow(prev, cursor, k) && vals[Follow(prev, cursor, k)] == 0
    requires WalkResult(prev, vals, cursor, res, steps)
    ensures 1 <= res && steps <= k
  {
    FollowAdd(prev, cursor, steps, k - steps);
    FollowFromNull(prev, k - steps);
  }

  /** Probing again from the cursor the walk leaves behind finds the same
      variable after zero steps, so repeated calls without an assignment in
      between return the same result and change nothing. */
  lemma {:induction false} WalkIdempotent(prev: seq<int>, vals: seq<int>, cursor: int,
                                          res: int, steps: nat, res': int, steps': nat)
    requires LinksClosed(prev) && |vals| == |prev| && 0 <= cursor < |prev|
    requires WalkResult(prev, vals, cursor, res, steps)
    requires WalkResult(prev, vals, res, res', steps')
    ensures res' == res && steps' == 0
  {
    assert WalkResult(prev, vals, res, res, 0);
    WalkResultUnique(prev, vals, res, res, 0, res', steps');
  }
}
