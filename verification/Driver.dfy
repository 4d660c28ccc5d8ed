/** The state machine of src/pmfuzz/core/pmfuzz.py: `run_pmfuzz`, `run_stage2` and the directories they create. */
module Driver {
  import opened Stages

  type Position = (nat, nat)

  /** The order the documentation gives: nothing, stage 1, then the iterations of stage 2. */
  function Next(p: Position): Position {
    if p.0 == 0 then (1, 1) else if p.0 == 1 then (2, 1) else (2, p.1 + 1)
  }

  /** The parameters of the global deduplication between two iterations (`run_dedup`, `_deduplicate_gbl`), and
      `local.minimize_tc`, with which the local deduplication of `collect_stage1` aborts. */
  datatype Flags = Flags(fdedup: bool, minTc: bool, fdedupKey: bool, localMinTc: bool)

  /** The call in `run_stage2` passes neither `fdedup` nor `min_tc`, and no configuration has the key. The base
      configuration sets `local.minimize_tc`; the run configurations unset it. */
  const BASE: Flags := Flags(true, true, false, true)
  const RUN: Flags := BASE.(localMinTc := false)

  /** With `fdedup`, an empty global list cannot be unpacked and a missing key aborts; `min_tc` always aborts. */
  predicate DedupAborts(f: Flags, gblEmpty: bool) {
    (f.fdedup && (gblEmpty || !f.fdedupKey)) || f.minTc
  }

  /** Flags with which the step from one iteration to the next can never succeed. */
  predicate AlwaysAborts(f: Flags) {
    f.minTc || (f.fdedup && !f.fdedupKey)
  }

  lemma AlwaysAbortsIff(f: Flags)
    ensures AlwaysAborts(f) <==> forall gblEmpty :: DedupAborts(f, gblEmpty)
    ensures AlwaysAborts(BASE) && AlwaysAborts(RUN)
  {
    assert DedupAborts(f, false) <==> AlwaysAborts(f);
  }

  /** What one turn of the loop finds: the stage 1 timer, `Stage2.completed`, whether the global store is
      empty, and whether some other step aborts. */
  datatype Env = Env(timerExpired: bool, completed: bool, gblEmpty: bool, fails: bool)

  /** The stage directories of a run at position `p`. */
  ghost predicate Shape(dirs: set<string>, p: Position) {
    && "" !in dirs
    && (p == (0, 0) || p == (1, 1) || (p.0 == 2 && p.1 >= 1))
    && (p.0 >= 1 ==> OutdirName(1, 1) in dirs)
    && (p.0 == 2 ==> OutdirName(2, p.1) in dirs)
    && forall d | d in dirs ::
         Special(d) || (p.0 >= 1 && d == OutdirName(1, 1)) || (p.0 == 2 && d == OutdirName(2, p.1))
  }

  lemma ShapeYoungest(dirs: set<string>, p: Position)
    requires Shape(dirs, p)
    ensures AllReadable(dirs) && IsYoungest(dirs, p.0, p.1)
  {
    OutdirMeans(1, 1);
    OutdirMeans(p.0, p.1);
    forall d | d in dirs
      ensures Readable(d)
      ensures forall s, i | Means(d, s, i) :: !LexLess(p.0, p.1, s, i)
    {
    }
  }

  lemma OutdirNonEmpty(stage: nat, iter: nat)
    ensures OutdirName(stage, iter) != ""
  {
    assert |OutdirName(stage, iter)| >= 6;
  }

  /** A run killed between `clear` and the next iteration's first directory restarts from stage 1,
      so the next iteration it observes is 2.1 again, whatever `k` was. */
  lemma InterruptedClear(dirs: set<string>, k: nat)
    requires Shape(dirs, (2, k))
    ensures Shape(dirs - {OutdirName(2, k)}, (1, 1)) && IsYoungest(dirs - {OutdirName(2, k)}, 1, 1)
    ensures Next((1, 1)) != Next((2, k))
  {
    OutdirMeans(1, 1);
    OutdirMeans(2, k);
    ShapeYoungest(dirs - {OutdirName(2, k)}, (1, 1));
  }

  class Fuzzer {
    const disableStage2: bool
    const flags: Flags
    var dirs: set<string>
    var aborted: bool
    ghost var pos: Position
    ghost var observed: seq<Position>

    ghost predicate Valid()
      reads this
    {
      && Shape(dirs, pos)
      && (forall j: nat | j < |observed| :: InOrder(observed, j))
      && (observed != [] ==> !aborted ==> pos == observed[|observed| - 1] || pos == Next(observed[|observed| - 1]))
      && (observed == [] ==> pos == (0, 0))
      && (AlwaysAborts(flags) ==> pos.1 <= 1 && forall j | 0 <= j < |observed| :: observed[j].1 <= 1)
      && (flags.localMinTc ==> pos.0 <= 1 && forall j | 0 <= j < |observed| :: observed[j].0 <= 1)
    }

    /** An output directory without stages; `@info` is made first. */
    constructor (disableStage2: bool, flags: Flags)
      ensures Valid() && !aborted && observed == [] && this.disableStage2 == disableStage2 && this.flags == flags
    {
      this.disableStage2 := disableStage2;
      this.flags := flags;
      dirs := {"@info"};
      aborted := false;
      pos := (0, 0);
      observed := [];
    }

    /** One turn of the `while True` loop. */
    method Turn(env: Env)
      requires Valid() && !aborted
      modifies this
      ensures Valid() && observed == old(observed) + [old(pos)]
      ensures old(pos) == (0, 0) ==> pos == if env.fails then (0, 0) else (1, 1)
      ensures old(pos) == (1, 1) ==>
                pos == if env.timerExpired && !disableStage2 && !env.fails && !flags.localMinTc then (2, 1) else (1, 1)
      ensures old(pos).0 == 2 ==>
                pos == if env.completed && !disableStage2 && !aborted then (2, old(pos).1 + 1) else old(pos)
      ensures aborted <==>
                || env.fails
                || (old(pos) != (0, 0) && flags.localMinTc)
                || (old(pos).0 == 2 && env.completed && !disableStage2
                    && (flags.minTc || (flags.fdedup && (env.gblEmpty || !flags.fdedupKey))))
    {
      var stage, iterId := NextObservation();
      if env.fails {
        aborted := true;
        return;
      }
      if stage != 0 {
        CollectStage1();
        if flags.localMinTc {
          aborted := true;
          return;
        }
      }
      if stage == 0 {
        RunStage1();
      } else if stage == 1 && !disableStage2 {
        if env.timerExpired {
          RunStage2(env);
        }
      } else if stage == 2 && !disableStage2 {
        RunStage2(env);
      }
    }

    /** The observation of a turn is recorded. */
    method NextObservation() returns (stage: nat, iterId: nat)
      requires Valid() && !aborted
      modifies `observed
      ensures Valid() && observed == old(observed) + [pos] && (stage, iterId) == pos
    {
      stage, iterId := Observe();
      ExtendOrder(observed, pos);
      observed := observed + [pos];
    }

    /** `state.sync()` */
    method Observe() returns (stage: nat, iterId: nat)
      requires Shape(dirs, pos)
      ensures (stage, iterId) == pos
    {
      var state := new State();
      ShapeYoungest(dirs, pos);
      var ok := state.Sync(dirs);
      YoungestUnique(dirs, state.stage, state.iter, pos.0, pos.1);
      stage, iterId := state.stage, state.iter;
    }

    /** `Stage1` and `Dedup` make their directories when constructed. */
    method CollectStage1()
      requires Shape(dirs, pos) && pos.0 >= 1
      modifies `dirs
      ensures Shape(dirs, pos)
    {
      dirs := dirs + {OutdirName(1, 1), "@dedup", "@temp"};
    }

    method RunStage1()
      requires Shape(dirs, pos) && pos == (0, 0)
      modifies `dirs, `pos
      ensures Shape(dirs, pos) && pos == (1, 1)
    {
      OutdirNonEmpty(1, 1);
      dirs := dirs + {OutdirName(1, 1)};
      pos := (1, 1);
    }

    /** `run_stage2` */
    method RunStage2(env: Env)
      requires Shape(dirs, pos) && pos.0 >= 1 && !aborted && !env.fails
      modifies `dirs, `pos, `aborted
      ensures Shape(dirs, pos)
      ensures aborted <==> old(pos).0 == 2 && env.completed && DedupAborts(flags, env.gblEmpty)
      ensures old(pos).0 == 1 ==> pos == (2, 1)
      ensures old(pos).0 == 2 ==> pos == if !aborted && env.completed then (2, old(pos).1 + 1) else old(pos)
    {
      var stage, iterId := Observe();
      if stage == 1 {
        NewIteration(1);
      } else if env.completed {
        if DedupAborts(flags, env.gblEmpty) {
          aborted := true;
          return;
        }
        InterruptedClear(dirs, iterId);
        dirs := dirs - {OutdirName(stage, iterId)};  // clear
        NewIteration(iterId + 1);
      }
    }

    /** Constructing `Stage2(2, iter)` makes its directories. */
    method NewIteration(iter: nat)
      requires Shape(dirs, (1, 1)) && iter >= 1
      modifies `dirs, `pos
      ensures Shape(dirs, pos) && pos == (2, iter)
    {
      OutdirNonEmpty(2, iter);
      dirs := dirs + {OutdirName(2, iter), "@dedup", "@temp"};
      pos := (2, iter);
    }

    /** An uninterrupted run: the positions it observes start at (0, 0) and follow the documented order,
        each repeated any number of times, none skipped. Stage 1 is left exactly when its timer has expired, an
        iteration of stage 2 exactly when it is completed. Where the step between two iterations always aborts a run
        never leaves 2.1, and with `local.minimize_tc` never stage 1. */
    method Run(envs: seq<Env>)
      requires Valid() && observed == [] && !aborted
      modifies this
      ensures Valid() && (!aborted ==> |observed| == |envs|)
      ensures |observed| <= |envs|
      ensures forall j: nat | j < |observed| :: InOrder(observed, j)
      ensures forall j: nat | j + 1 < |observed| :: Moves(disableStage2, observed[j], envs[j], observed[j + 1])
      ensures AlwaysAborts(flags) ==> forall j | 0 <= j < |observed| :: observed[j] in {(0, 0), (1, 1), (2, 1)}
      ensures flags.localMinTc ==> forall j | 0 <= j < |observed| :: observed[j] in {(0, 0), (1, 1)}
    {
      var j := 0;
      while j < |envs| && !aborted
        invariant 0 <= j <= |envs| && Valid() && |observed| == j
        invariant forall i: nat | i + 1 < j :: Moves(disableStage2, observed[i], envs[i], observed[i + 1])
        invariant 0 < j && !aborted ==> Moves(disableStage2, observed[j - 1], envs[j - 1], pos)
      {
        Turn(envs[j]);
        j := j + 1;
      }
      forall j | 0 <= j < |observed|
        ensures Known(observed[j])
      {
        KnownPositions(observed, j);
      }
    }
  }

  /** Entry `j` is the first position, or repeats or follows the entry before it. */
  predicate InOrder(observed: seq<Position>, j: nat)
    requires j < |observed|
  {
    if j == 0 then observed[0] == (0, 0)
    else observed[j] == observed[j - 1] || observed[j] == Next(observed[j - 1])
  }

  /** What a turn that aborts nothing does, position by position. */
  predicate Moves(disableStage2: bool, p: Position, env: Env, q: Position) {
    && (p == (0, 0) ==> q == (1, 1))
    && (p == (1, 1) ==> q == if env.timerExpired && !disableStage2 then (2, 1) else (1, 1))
    && (p.0 == 2 ==> q == if env.completed && !disableStage2 then (2, p.1 + 1) else p)
  }

  /** Stage 2 is first observed after a turn in stage 1 whose timer had expired, and starts with iteration 1. */
  lemma {:induction false} FirstIteration(disableStage2: bool, observed: seq<Position>, envs: seq<Env>, m: nat)
      returns (j: nat)
    requires m < |observed| <= |envs| && observed[m].0 == 2 && observed[0] == (0, 0)
    requires forall j: nat | j + 1 < |observed| :: Moves(disableStage2, observed[j], envs[j], observed[j + 1])
    ensures j < m && !disableStage2 && observed[j] == (1, 1) && envs[j].timerExpired && observed[j + 1] == (2, 1)
    ensures forall i | 0 <= i <= j :: observed[i].0 <= 1
  {
    j := m - 1;
    assert Moves(disableStage2, observed[j], envs[j], observed[m]);
    MovesKnown(disableStage2, observed, envs, j);
    if observed[j].0 == 2 {
      j := FirstIteration(disableStage2, observed, envs, j);
    } else {
      StaysBefore(disableStage2, observed, envs, j);
    }
  }

  lemma {:induction false} MovesKnown(disableStage2: bool, observed: seq<Position>, envs: seq<Env>, j: nat)
    requires j < |observed| <= |envs| && observed[0] == (0, 0)
    requires forall j: nat | j + 1 < |observed| :: Moves(disableStage2, observed[j], envs[j], observed[j + 1])
    ensures Known(observed[j])
  {
    if j > 0 {
      assert Moves(disableStage2, observed[j - 1], envs[j - 1], observed[j]);
      MovesKnown(disableStage2, observed, envs, j - 1);
    }
  }

  /** No earlier position is in stage 2. */
  lemma {:induction false} StaysBefore(disableStage2: bool, observed: seq<Position>, envs: seq<Env>, j: nat)
    requires j < |observed| <= |envs| && observed[j].0 <= 1 && observed[0] == (0, 0)
    requires forall j: nat | j + 1 < |observed| :: Moves(disableStage2, observed[j], envs[j], observed[j + 1])
    ensures forall i | 0 <= i <= j :: observed[i].0 <= 1
  {
    if j > 0 {
      assert Moves(disableStage2, observed[j - 1], envs[j - 1], observed[j]);
      MovesKnown(disableStage2, observed, envs, j - 1);
      StaysBefore(disableStage2, observed, envs, j - 1);
    }
  }

  predicate Known(p: Position) {
    p == (0, 0) || p == (1, 1) || (p.0 == 2 && p.1 >= 1)
  }

  lemma {:induction false} KnownPositions(observed: seq<Position>, j: nat)
    requires j < |observed| && forall j: nat | j < |observed| :: InOrder(observed, j)
    ensures Known(observed[j])
  {
    assert InOrder(observed, j);
    if j > 0 {
      KnownPositions(observed, j - 1);
    }
  }

  lemma ExtendOrder(observed: seq<Position>, p: Position)
    requires forall j: nat | j < |observed| :: InOrder(observed, j)
    requires if observed == [] then p == (0, 0)
             else p == observed[|observed| - 1] || p == Next(observed[|observed| - 1])
    ensures forall j: nat | j < |observed| + 1 :: InOrder(observed + [p], j)
  {
    forall j: nat | j < |observed| + 1
      ensures InOrder(observed + [p], j)
    {
      assert j < |observed| ==> InOrder(observed, j);
    }
  }
}
