/** The score structure, seen as the sequence of its entries in the order
    `front ()` / `pop_front ()` yield them: highest activity first, ties in
    whatever order the structure keeps them. Entries are variables; an entry
    whose variable is already assigned is stale and is discarded lazily when
    it reaches the front. */
module ScoreHeap {

  /** Every entry is a variable 1..maxVar. */
  ghost predicate Entries(scores: seq<int>, maxVar: nat)
  {
    forall i :: 0 <= i < |scores| ==> 1 <= scores[i] <= maxVar
  }

  /** Front-to-back order never increases the activity `stab[v]`. */
  ghost predicate HeapOrdered(scores: seq<int>, stab: seq<real>)
    requires forall i :: 0 <= i < |scores| ==> 0 <= scores[i] < |stab|
  {
    forall i, j :: 0 <= i < j < |scores| ==> stab[scores[j]] <= stab[scores[i]]
  }

  /** Some entry is an unassigned variable: the guarantee that makes the
      score pick terminate. */
  ghost predicate HasUnassigned(scores: seq<int>, vals: seq<int>)
    requires forall i :: 0 <= i < |scores| ==> 0 <= scores[i] < |vals|
  {
    exists i :: 0 <= i < |scores| && vals[scores[i]] == 0
  }

  /** The number of stale entries at the front: the index of the first
      unassigned entry, every entry before it assigned. */
  function StaleCount(scores: seq<int>, vals: seq<int>): (d: nat)
    requires forall i :: 0 <= i < |scores| ==> 0 <= scores[i] < |vals|
    requires HasUnassigned(scores, vals)
    ensures d < |scores| && vals[scores[d]] == 0
    ensures forall j :: 0 <= j < d ==> vals[scores[j]] != 0
  {
    if vals[scores[0]] == 0 then 0
    else
      var i :| 0 <= i < |scores| && vals[scores[i]] == 0;
      assert scores[1..][i - 1] == scores[i];
      var d := StaleCount(scores[1..], vals);
      assert forall j :: 1 <= j < d + 1 ==> scores[j] == scores[1..][j - 1];
      d + 1
  }

  /** The structure left once every stale entry at the front is popped. */
  function PurgeAssigned(scores: seq<int>, vals: seq<int>): seq<int>
    requires forall i :: 0 <= i < |scores| ==> 0 <= scores[i] < |vals|
    requires HasUnassigned(scores, vals)
  {
    scores[StaleCount(scores, vals)..]
  }

  /** Purging discards only stale entries: an unassigned entry survives,
      at the same distance behind the new front as it had behind the
      discarded ones. */
  lemma PurgeKeepsUnassigned(scores: seq<int>, vals: seq<int>, i: int)
    requires forall k :: 0 <= k < |scores| ==> 0 <= scores[k] < |vals|
    requires 0 <= i < |scores| && vals[scores[i]] == 0
    ensures HasUnassigned(scores, vals)
    ensures StaleCount(scores, vals) <= i
    ensures PurgeAssigned(scores, vals)[i - StaleCount(scores, vals)] == scores[i]
  {
    var d := StaleCount(scores, vals);
    assert scores[d..][i - d] == scores[i];
  }

  /** The pick is the best unassigned entry: no unassigned entry of the
      structure has a higher activity, and none of them was discarded. */
  lemma BestScoreIsMaximal(scores: seq<int>, vals: seq<int>, stab: seq<real>)
    requires forall i :: 0 <= i < |scores| ==> 0 <= scores[i] < |vals| && scores[i] < |stab|
    requires HasUnassigned(scores, vals) && HeapOrdered(scores, stab)
    ensures forall i :: 0 <= i < |scores| && vals[scores[i]] == 0 ==>
              scores[i] in PurgeAssigned(scores, vals) &&
              stab[scores[i]] <= stab[PurgeAssigned(scores, vals)[0]]
  {
    var rest := PurgeAssigned(scores, vals);
    var d := StaleCount(scores, vals);
    forall i | 0 <= i < |scores| && vals[scores[i]] == 0
      ensures scores[i] in rest && stab[scores[i]] <= stab[rest[0]]
    {
      PurgeKeepsUnassigned(scores, vals, i);
      assert rest[i - d] == scores[i];
      assert rest[0] == scores[d];
    }
  }

  /** Popping from the front keeps every entry a variable. */
  lemma SuffixEntries(scores: seq<int>, maxVar: nat, d: nat)
    requires Entries(scores, maxVar) && d <= |scores|
    ensures Entries(scores[d..], maxVar)
  {
    forall i | 0 <= i < |scores| - d ensures 1 <= scores[d..][i] <= maxVar {
      assert scores[d..][i] == scores[d + i];
    }
  }

  /** Popping from the front keeps the order of what remains. */
  lemma SuffixHeapOrdered(scores: seq<int>, stab: seq<real>, d: nat)
    requires forall i :: 0 <= i < |scores| ==> 0 <= scores[i] < |stab|
    requires HeapOrdered(scores, stab) && d <= |scores|
    ensures HeapOrdered(scores[d..], stab)
  {
    forall i, j | 0 <= i < j < |scores| - d
      ensures stab[scores[d..][j]] <= stab[scores[d..][i]]
    {
      assert scores[d..][i] == scores[d + i] && scores[d..][j] == scores[d + j];
    }
  }
}
