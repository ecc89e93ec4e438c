/** Assignment values, literals and the trail, as the decision step reads them. */
module Values {

  /** A tri-state value: -1 (false), 0 (unassigned or unset), 1 (true).
      Used for the variable values and for every stored phase. */
  type Sign = x: int | -1 <= x <= 1

  /** The variable of a literal. */
  function Var(lit: int): nat
  {
    if lit < 0 then -lit else lit
  }

  /** A literal over the variables 1..maxVar. */
  predicate IsLit(lit: int, maxVar: nat)
  {
    lit != 0 && Var(lit) <= maxVar
  }

  /** The value `val (lit)` of a literal, where `vals` is indexed by variable. */
  function LitVal(vals: seq<Sign>, lit: int): Sign
    requires Var(lit) < |vals|
  {
    if lit < 0 then -vals[-lit] else vals[lit]
  }

  /** The value a literal gives its variable when it is assigned true. */
  function SignOf(lit: int): Sign
  {
    if lit < 0 then -1 else 1
  }

  /** Every variable 1..maxVar has a value. */
  ghost predicate AllAssigned(vals: seq<Sign>, maxVar: nat)
    requires |vals| == maxVar + 1
  {
    forall v :: 1 <= v <= maxVar ==> vals[v] != 0
  }

  /** The variables 1..n. */
  ghost function VarRange(n: nat): (r: set<nat>)
    ensures forall v :: v in r <==> 1 <= v <= n
    ensures |r| == n
  {
    if n == 0 then {} else VarRange(n - 1) + {n}
  }

  /** The variables of the literals on a trail. */
  ghost function TrailVars(trail: seq<int>): set<nat>
  {
    set i | 0 <= i < |trail| :: Var(trail[i])
  }

  ghost predicate DistinctVars(trail: seq<int>)
  {
    forall i, j :: 0 <= i < j < |trail| ==> Var(trail[i]) != Var(trail[j])
  }

  /** The trail lists each assigned variable exactly once, as the literal made true. */
  ghost predicate TrailConsistent(trail: seq<int>, vals: seq<Sign>, maxVar: nat)
    requires |vals| == maxVar + 1
  {
    (forall i :: 0 <= i < |trail| ==> IsLit(trail[i], maxVar) && LitVal(vals, trail[i]) == 1) &&
    DistinctVars(trail) &&
    (forall v :: 1 <= v <= maxVar && vals[v] != 0 ==> v in TrailVars(trail))
  }

  lemma {:induction false} TrailVarsCardinality(trail: seq<int>)
    requires DistinctVars(trail)
    ensures |TrailVars(trail)| == |trail|
  {
    if trail != [] {
      var init := trail[..|trail| - 1];
      var last := Var(trail[|trail| - 1]);
      assert DistinctVars(init) by {
        forall i, j | 0 <= i < j < |init| ensures Var(init[i]) != Var(init[j]) {
          assert init[i] == trail[i] && init[j] == trail[j];
        }
      }
      TrailVarsCardinality(init);
      assert TrailVars(trail) == TrailVars(init) + {last} by {
        forall v | v in TrailVars(trail) ensures v in TrailVars(init) + {last} {
          var i :| 0 <= i < |trail| && Var(trail[i]) == v;
          if i < |init| { assert init[i] == trail[i]; }
        }
        forall v | v in TrailVars(init) ensures v in TrailVars(trail) {
          var i :| 0 <= i < |init| && Var(init[i]) == v;
          assert init[i] == trail[i];
        }
      }
      assert last !in TrailVars(init) by {
        forall i | 0 <= i < |init| ensures Var(init[i]) != last {
          assert init[i] == trail[i];
        }
      }
    }
  }

  /** With a consistent trail, every variable is assigned exactly when the
      trail holds one literal per variable: the count `satisfied ()` compares. */
  lemma AllAssignedIffTrailFull(trail: seq<int>, vals: seq<Sign>, maxVar: nat)
    requires |vals| == maxVar + 1 && TrailConsistent(trail, vals, maxVar)
    ensures AllAssigned(vals, maxVar) <==> |trail| == maxVar
  {
    var tv, r := TrailVars(trail), VarRange(maxVar);
    TrailVarsCardinality(trail);
    TrailVarsInRange(trail, maxVar);
    if AllAssigned(vals, maxVar) {
      assert r <= tv;
      assert tv == r;
    }
    if |trail| == maxVar {
      SubsetOfSameSize(tv, r);
      forall v | 1 <= v <= maxVar ensures vals[v] != 0 {
        assert v in tv;
        var i :| 0 <= i < |trail| && Var(trail[i]) == v;
        assert LitVal(vals, trail[i]) == 1;
      }
    }
  }

  lemma TrailVarsInRange(trail: seq<int>, maxVar: nat)
    requires forall i :: 0 <= i < |trail| ==> IsLit(trail[i], maxVar)
    ensures TrailVars(trail) <= VarRange(maxVar)
  {
    forall v | v in TrailVars(trail) ensures v in VarRange(maxVar) {
      var i :| 0 <= i < |trail| && Var(trail[i]) == v;
      assert IsLit(trail[i], maxVar);
    }
  }

  lemma SubsetOfSameSize<T>(a: set<T>, b: set<T>)
    requires a <= b && |a| == |b|
    ensures a == b
  {
    assert b == a + (b - a);
    assert a * (b - a) == {};
    assert |b - a| == 0;
  }

  /** Assigning an unassigned literal true and pushing it on the trail keeps
      the trail consistent (the effect of the search-assign collaborator). */
  lemma AssignKeepsTrailConsistent(trail: seq<int>, vals: seq<Sign>, maxVar: nat, lit: int)
    requires |vals| == maxVar + 1 && TrailConsistent(trail, vals, maxVar)
    requires IsLit(lit, maxVar) && LitVal(vals, lit) == 0
    ensures TrailConsistent(trail + [lit], vals[Var(lit) := SignOf(lit)], maxVar)
  {
    var trail', vals' := trail + [lit], vals[Var(lit) := SignOf(lit)];
    forall i | 0 <= i < |trail| ensures Var(trail[i]) != Var(lit) {
      assert LitVal(vals, trail[i]) == 1;
    }
    forall i | 0 <= i < |trail'| ensures IsLit(trail'[i], maxVar) && LitVal(vals', trail'[i]) == 1 {
      if i < |trail| {
        assert trail'[i] == trail[i] && LitVal(vals, trail[i]) == 1;
      }
    }
    assert TrailVars(trail') == TrailVars(trail) + {Var(lit)} by {
      forall v | v in TrailVars(trail') ensures v in TrailVars(trail) + {Var(lit)} {
        var i :| 0 <= i < |trail'| && Var(trail'[i]) == v;
        if i < |trail| { assert trail'[i] == trail[i]; }
      }
      forall v | v in TrailVars(trail) ensures v in TrailVars(trail') {
        var i :| 0 <= i < |trail| && Var(trail[i]) == v;
        assert trail'[i] == trail[i];
      }
      assert trail'[|trail|] == lit;
    }
  }
}
