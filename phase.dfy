/** Phase selection: which polarity a chosen decision variable gets.

    Every selector here is a pure function of the variable, the option
    flags and the phase tables, and yields the decision literal `±idx`. */
module Phase {
  import opened Values

  /** The options this step consults: `opts.phase` (initial polarity is
      positive), `opts.forcephase`, `opts.chronophase` (0..7),
      `opts.seed` and `opts.stabilizephase`. */
  datatype Options = Options(phase: bool, forcephase: bool, chronophase: int,
                             seed: int, stabilizephase: bool)

  /** The five per-variable phase memories, indexed by variable; 0 means unset. */
  datatype Phases = Phases(saved: seq<Sign>, target: seq<Sign>, best: seq<Sign>,
                           prev: seq<Sign>, min: seq<Sign>)

  /** Everything phase selection reads. `lstab` is the per-literal activity
      table (positive literal of `idx` at `2*idx`, negative at `2*idx+1`);
      `seededBool(s)` is the first `generate_bool ()` of a random generator
      freshly seeded with `s`. */
  datatype PhaseContext = PhaseContext(opts: Options, cbt: bool, forceSavedPhase: bool,
                                       phases: Phases, lstab: seq<real>,
                                       seededBool: int -> bool)
  {
    /** The tables have an entry for variable `idx`. */
    predicate Covers(idx: int)
    {
      1 <= idx && idx < |phases.saved| && idx < |phases.target| && idx < |phases.best| &&
      idx < |phases.prev| && idx < |phases.min| && 2 * idx + 1 < |lstab|
    }
  }

  /** `opts.phase ? 1 : -1`. */
  function InitialPhase(opts: Options): Sign
  {
    if opts.phase then 1 else -1
  }

  /** The activity of a literal in the per-literal table. */
  function LitActivity(lstab: seq<real>, lit: int): real
    requires 2 * Var(lit) + 1 < |lstab|
  {
    lstab[2 * Var(lit) + (if lit < 0 then 1 else 0)]
  }

  /** LSIDS phase: the polarity whose literal is at least as active as the
      other; strictly more active for the positive one, so ties go negative. */
  function SelectLsidsBasedPhase(lstab: seq<real>, idx: int): (p: int)
    requires 1 <= idx && 2 * idx + 1 < |lstab|
    ensures p == 1 || p == -1
    ensures p == 1 <==> LitActivity(lstab, idx) > LitActivity(lstab, -idx)
    ensures LitActivity(lstab, -p * idx) <= LitActivity(lstab, p * idx)
    ensures LitActivity(lstab, idx) == LitActivity(lstab, -idx) ==> p == -1
  {
    var pos := 2 * idx;
    var neg := 2 * idx + 1;
    if lstab[pos] > lstab[neg] then 1 else -1
  }

  /** The mode list of the chronological-backtracking variant read as one
      dispatch on the mode number: the raw phase each mode proposes, 0 when
      the mode proposes none. */
  function CbtModePhase(ctx: PhaseContext, idx: int): int
    requires ctx.Covers(idx)
  {
    match ctx.opts.chronophase
    case 1 => SelectLsidsBasedPhase(ctx.lstab, idx)
    case 2 => if ctx.seededBool(ctx.opts.seed) then -1 else 1
    case 3 => -1
    case 4 => ctx.phases.target[idx]
    case 5 => ctx.phases.best[idx]
    case 6 => ctx.phases.prev[idx]
    case 7 => ctx.phases.min[idx]
    case _ => 0
  }

  /** A proposed phase, or the initial phase when nothing was proposed. */
  function OrInitial(phase: int, opts: Options): int
  {
    if phase != 0 then phase else InitialPhase(opts)
  }

  /** `decide_cbt_phase`: the independent mode tests in their source order,
      then the fallback to the initial phase. The `target` flag is unused. */
  function DecideCbtPhase(ctx: PhaseContext, idx: int, target: bool): (lit: int)
    requires ctx.Covers(idx)
    ensures lit == idx || lit == -idx
    ensures lit == OrInitial(CbtModePhase(ctx, idx), ctx.opts) * idx
    ensures ctx.opts.chronophase == 2 ==> lit == (if ctx.seededBool(ctx.opts.seed) then -idx else idx)
    ensures ctx.opts.chronophase == 3 ==> lit == -idx
    ensures !(1 <= ctx.opts.chronophase <= 7) ==> lit == InitialPhase(ctx.opts) * idx
  {
    var heuristic := ctx.opts.chronophase;
    var initialPhase := InitialPhase(ctx.opts);
    var phase := 0;
    var phase := if heuristic == 1 then SelectLsidsBasedPhase(ctx.lstab, idx) else phase;
    var phase := if heuristic == 2 then (if ctx.seededBool(ctx.opts.seed) then -1 else 1) else phase;
    var phase := if heuristic == 3 then -1 else phase;
    var phase := if heuristic == 4 then ctx.phases.target[idx] else phase;
    var phase := if heuristic == 5 then ctx.phases.best[idx] else phase;
    var phase := if heuristic == 6 then ctx.phases.prev[idx] else phase;
    var phase := if heuristic == 7 then ctx.phases.min[idx] else phase;
    var phase := if phase == 0 then initialPhase else phase;
    phase * idx
  }

  /** The `target` argument of the chronological variant has no effect. */
  lemma CbtPhaseIgnoresTarget(ctx: PhaseContext, idx: int)
    requires ctx.Covers(idx)
    ensures DecideCbtPhase(ctx, idx, true) == DecideCbtPhase(ctx, idx, false)
  {
  }

  /** `decide_phase`: the chronological variant when it is enabled, else the
      phase-saving chain in its source order. */
  function DecidePhase(ctx: PhaseContext, idx: int, target: bool): (lit: int)
    requires ctx.Covers(idx)
    ensures lit == idx || lit == -idx
  {
    var initialPhase := InitialPhase(ctx.opts);
    if ctx.cbt && ctx.opts.chronophase > 0 then DecideCbtPhase(ctx, idx, target)
    else
      var phase := 0;
      var phase := if ctx.forceSavedPhase then ctx.phases.saved[idx] else phase;
      var phase := if phase == 0 && ctx.opts.forcephase then initialPhase else phase;
      var phase := if phase == 0 && target then ctx.phases.target[idx] else phase;
      var phase := if phase == 0 then ctx.phases.saved[idx] else phase;
      var phase := if phase == 0 then initialPhase else phase;
      phase * idx
  }

  /** The first non-zero entry of a list of proposals, 0 if there is none. */
  function FirstNonZero(s: seq<int>): int
  {
    if s == [] then 0 else if s[0] != 0 then s[0] else FirstNonZero(s[1..])
  }

  lemma {:induction false} FirstNonZeroAppend(a: seq<int>, b: seq<int>)
    ensures FirstNonZero(a + b) == if FirstNonZero(a) != 0 then FirstNonZero(a) else FirstNonZero(b)
  {
    if a != [] {
      assert (a + b)[1..] == a[1..] + b;
      FirstNonZeroAppend(a[1..], b);
    } else {
      assert a + b == b;
    }
  }

  /** The proposals of phase saving in priority order: the saved phase when
      it is forced, the initial phase when it is forced, the target phase
      when requested, the saved phase, and finally the initial phase. */
  function SavingProposals(ctx: PhaseContext, idx: int, target: bool): seq<int>
    requires ctx.Covers(idx)
  {
    (if ctx.forceSavedPhase then [ctx.phases.saved[idx] as int] else []) +
    (if ctx.opts.forcephase then [InitialPhase(ctx.opts) as int] else []) +
    (if target then [ctx.phases.target[idx] as int] else []) +
    [ctx.phases.saved[idx] as int, InitialPhase(ctx.opts) as int]
  }

  /** `decide_phase` is the chronological variant when `cbt` is on and a
      chronological mode is set, and otherwise the first proposal of phase
      saving that is non-zero. */
  lemma DecidePhasePriority(ctx: PhaseContext, idx: int, target: bool)
    requires ctx.Covers(idx)
    ensures ctx.cbt && ctx.opts.chronophase > 0 ==>
              DecidePhase(ctx, idx, target) == DecideCbtPhase(ctx, idx, target)
    ensures !(ctx.cbt && ctx.opts.chronophase > 0) ==>
              DecidePhase(ctx, idx, target) == FirstNonZero(SavingProposals(ctx, idx, target)) * idx
  {
    var a: seq<int> := if ctx.forceSavedPhase then [ctx.phases.saved[idx] as int] else [];
    var b: seq<int> := if ctx.opts.forcephase then [InitialPhase(ctx.opts) as int] else [];
    var c: seq<int> := if target then [ctx.phases.target[idx] as int] else [];
    var d: seq<int> := [ctx.phases.saved[idx] as int, InitialPhase(ctx.opts) as int];
    FirstNonZeroAppend(a, b);
    FirstNonZeroAppend(a + b, c);
    FirstNonZeroAppend(a + b + c, d);
    assert SavingProposals(ctx, idx, target) == a + b + c + d;
    assert FirstNonZero(d) == OrInitial(ctx.phases.saved[idx], ctx.opts);
  }

  /** `likely_phase`: the decision phase without the target request. */
  function LikelyPhase(ctx: PhaseContext, idx: int): (lit: int)
    requires ctx.Covers(idx)
    ensures lit == idx || lit == -idx
  {
    DecidePhase(ctx, idx, false)
  }

  /** The likely phase is what a decision without target phase picks, and it
      never consults the target table unless the chronological variant runs
      in its target mode (4). */
  lemma LikelyPhaseIgnoresTarget(ctx: PhaseContext, idx: int, t: seq<Sign>)
    requires ctx.Covers(idx) && idx < |t|
    ensures LikelyPhase(ctx, idx) == DecidePhase(ctx, idx, false)
    ensures !(ctx.cbt && ctx.opts.chronophase == 4) ==>
              LikelyPhase(ctx, idx) == LikelyPhase(ctx.(phases := ctx.phases.(target := t)), idx)
  {
  }
}
