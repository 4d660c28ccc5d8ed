/** The corpus store (src/pmfuzz/stages/dedup.py, and the collection of results in src/pmfuzz/stages/stage1.py and
    stage2.py): the global store, the local store and results of the current iteration, and the results of stage 1. */
module Corpus {
  import opened Cmin
  import opened Files
  import opened Grouping
  import opened Minimisation
  import opened Names
  import opened StoreEffects
  import opened StoreLoops
  import opened StoreRuns
  import opened StoreStates
  import opened Text
  import DedupEngine

  class Store {
    const hash: Digest
    var gbl: Dir
    var loc: Dir
    var tcs: Dir
    var imgs: Dir
    var firstTcs: Dir
    var firstImgs: Dir
    var iter: nat

    ghost function V(): State
      reads this
    {
      State(gbl, loc, tcs, imgs, firstTcs, firstImgs, iter)
    }

    ghost predicate Valid()
      reads this
    {
      StoreOk(V())
    }

    constructor (hash: Digest)
      ensures Valid() && this.hash == hash && iter == 0 && gbl == map[] && loc == map[]
      ensures tcs == map[] && imgs == map[] && firstTcs == map[] && firstImgs == map[]
    {
      this.hash := hash;
      gbl, loc, tcs, imgs, firstTcs, firstImgs := map[], map[], map[], map[], map[], map[];
      iter := 0;
    }

    /** `Stage1.collect_tc`, unless the testcase was collected before; without a map it aborts. */
    method CollectFirst(digits: string, q: Found) returns (ok: bool)
      requires Valid() && IsDigits(digits)
      modifies `firstTcs, `firstImgs
      ensures ok <==> HasTc(old(firstTcs), FirstName(digits)) || q.map_.Some?
      ensures ok ==> Valid()
      ensures HasTc(old(firstTcs), FirstName(digits)) ==> firstTcs == old(firstTcs) && firstImgs == old(firstImgs)
      ensures ok && !HasTc(old(firstTcs), FirstName(digits)) ==>
                && firstTcs == AddFound(old(firstTcs), FirstName(digits), q)
                && Stored(old(firstTcs), FirstName(digits), q, firstTcs)
                && firstImgs == old(firstImgs)[File(FirstName(digits), PoolCmpr) := q.pool]
    {
      var n := FirstName(digits);
      if File(n, Testcase) in firstTcs {
        return true;
      }
      CollectedFirstOk(V(), n, q);
      AddFoundIs(firstTcs, n, q);
      firstTcs := firstTcs[File(n, Testcase) := q.testcase];
      if q.map_ == None {
        return false;
      }
      firstTcs := firstTcs[File(n, Map) := q.map_.value];
      if q.pmMap.Some? {
        firstTcs := firstTcs[File(n, PmMap) := q.pmMap.value];
      }
      firstImgs := firstImgs[File(n, PoolCmpr) := q.pool];
      ok := true;
    }

    /** A crash site of a stage 1 testcase. */
    method CollectFirstCrash(tcDigits: string, idDigits: string, archive: Bytes)
      requires Valid() && IsDigits(tcDigits) && IsDigits(idDigits)
      modifies `firstImgs
      ensures Valid()
      ensures firstImgs == old(firstImgs)[File(FirstCrash(tcDigits, idDigits), CrashCmpr) := archive]
    {
      CrashOk(gbl, firstTcs, firstImgs, 0, FirstCrash(tcDigits, idDigits), archive);
      firstImgs := firstImgs[File(FirstCrash(tcDigits, idDigits), CrashCmpr) := archive];
      assert StoreOk(V());
    }

    /** `update_global` for stage 1. No image is ever missing. */
    method UpdateGlobalFirst() returns (ok: bool)
      requires Valid()
      modifies `gbl
      ensures Valid() && ok && Keeps(old(gbl), gbl)
      ensures gbl == GlobalAfter(old(gbl), firstTcs, firstImgs) && Globalised(old(gbl), firstTcs, firstImgs, gbl)
    {
      HasImages(V());
      var h;
      ok, h := StoreLoops.UpdateGlobal(gbl, firstTcs, firstImgs);
      UpdatedFirstOk(V(), h);
      gbl := h;
      assert StoreOk(V());
    }

    /** `update_global` for the current iteration. No image is ever missing. */
    method UpdateGlobal() returns (ok: bool)
      requires Valid()
      modifies `gbl
      ensures Valid() && ok && Keeps(old(gbl), gbl)
      ensures gbl == GlobalAfter(old(gbl), tcs, imgs) && Globalised(old(gbl), tcs, imgs, gbl)
    {
      HasImages(V());
      var h;
      ok, h := StoreLoops.UpdateGlobal(gbl, tcs, imgs);
      UpdatedOk(V(), h);
      gbl := h;
      assert StoreOk(V());
    }

    /** `update_local`: the only way to fail is a testcase of this generation without a map. */
    method UpdateLocal() returns (ok: bool)
      requires Valid() && iter >= 1
      modifies `loc
      ensures ok <==> AllMapped(gbl, old(loc), iter)
      ensures ok <==> forall n: CleanName | Joins(gbl, old(loc), iter, n) :: File(n, Map) in gbl
      ensures ok ==> Valid() && loc == LocalAfter(gbl, old(loc), iter) && Localised(gbl, old(loc), iter, loc)
      ensures !ok ==> loc == old(loc)
    {
      OnlyMapsMissing(gbl, loc, iter);
      JoinsIff(gbl, loc, iter);
      var l;
      ok, l := StoreLoops.UpdateLocal(gbl, loc, iter);
      if ok {
        LocalUpdatedOk(V(), l);
        loc := l;
      }
      assert StoreOk(V());
    }

    /** `_terminate_testcase`, `_terminate_cs` and `collect_tc` for one queue entry of the run of `p`. The sanity check
        on the image never fails; a testcase run gives generation `iter + 1`, a crash site at most that. */
    method Collect(p: CleanName, digits: string, q: Found) returns (ok: bool)
      requires Valid() && Runs(loc, p) && IsDigits(digits)
      modifies `tcs, `imgs
      ensures Valid() && ok
      ensures tcs == AddFound(old(tcs), ChildOf(p, digits), q) && Stored(old(tcs), ChildOf(p, digits), q, tcs)
      ensures imgs == old(imgs)[File(ChildOf(p, digits), PoolCmpr) := q.pool]
      ensures HasTc(loc, p) ==> Generation(ChildOf(p, digits)) == iter + 1
      ensures Generation(ChildOf(p, digits)) <= iter + 1
    {
      RunImage(V(), p);
      ChildCollectedOk(V(), p, digits, q);
      ok := if File(p, Testcase) in loc then File(p, PoolCmpr) in gbl else GetParentImg(gbl, p).Some?;
      if !ok {
        return;
      }
      CollectTc(ChildOf(p, digits), q);
    }

    /** `collect_tc`: a map that was not found is passed over. */
    method CollectTc(n: CleanName, q: Found)
      modifies `tcs, `imgs
      ensures tcs == AddFound(old(tcs), n, q) && imgs == old(imgs)[File(n, PoolCmpr) := q.pool]
      ensures Stored(old(tcs), n, q, tcs)
    {
      AddFoundIs(tcs, n, q);
      tcs := tcs[File(n, Testcase) := q.testcase];
      if q.map_.Some? {
        tcs := tcs[File(n, Map) := q.map_.value];
      }
      if q.pmMap.Some? {
        tcs := tcs[File(n, PmMap) := q.pmMap.value];
      }
      imgs := imgs[File(n, PoolCmpr) := q.pool];
    }

    /** `tc_gen_crash_sites` for one crash image: the parent's image is found, and it is the only one. */
    method CollectCrash(p: CleanName, tcDigits: string, idDigits: string, archive: Bytes) returns (ok: bool)
      requires Valid() && Runs(loc, p) && iter >= 1 && IsDigits(tcDigits) && IsDigits(idDigits)
      modifies `imgs
      ensures Valid() && ok
      ensures imgs == old(imgs)[File(CrashBy(p, tcDigits, idDigits), CrashCmpr) := archive]
    {
      RunImage(V(), p);
      ok := GetParentImg(gbl, p).Some?;
      if ok {
        CrashOk(gbl, tcs, imgs, iter, CrashBy(p, tcDigits, idDigits), archive);
        imgs := imgs[File(CrashBy(p, tcDigits, idDigits), CrashCmpr) := archive];
      }
    }

    /** The deduplication of execution maps when a crash site run ends. */
    method DedupMaps(stamp: Bytes) returns (ghost order: seq<File>)
      requires Valid()
      modifies `tcs
      ensures Valid() && DedupEngine.Outcome(old(tcs), Map, hash, stamp, order, tcs)
      ensures Deduplicated(old(tcs), DedupEngine.LosersBy(old(tcs), Map, order, hash), stamp, tcs)
    {
      var t := DedupEngine.Run(tcs, Map, hash, stamp);
      order :| DedupEngine.Outcome(tcs, Map, hash, stamp, order, t);
      ghost var was := tcs;
      DedupedIs(tcs, Map, order, hash, stamp);
      DedupedMapsOk(State(gbl, loc, tcs, imgs, firstTcs, firstImgs, iter), order, hash, stamp, t);
      tcs := t;
      assert DedupEngine.Outcome(was, Map, hash, stamp, order, tcs);
      assert StoreOk(State(gbl, loc, tcs, imgs, firstTcs, firstImgs, iter));
    }

    /** `deduplicate_crash_sites_lcl` */
    method DedupCrashes(db: map<CleanName, string>) returns (ok: bool, ghost kept: set<CleanName>)
      requires Valid()
      modifies `imgs
      ensures Valid() && (ok <==> NamesOf(old(imgs), CrashCmpr) <= db.Keys)
      ensures ok ==> OnePerHash(old(imgs), db, kept)
      ensures ok ==> imgs == Without(old(imgs), NamesOf(old(imgs), CrashCmpr) - kept, [CrashCmpr])
      ensures !ok ==> imgs == old(imgs)
    {
      var r;
      ok, r, kept := StoreLoops.DedupCrashSites(imgs, db);
      if ok {
        FewerCrashesOk(gbl, tcs, imgs, iter, NamesOf(imgs, CrashCmpr) - kept);
        imgs := r;
      }
      assert StoreOk(V());
    }

    /** `minimize_corpus_gbl`: fails exactly when a testcase has no map, and then changes nothing. */
    method MinimizeGlobal(stamp: Bytes) returns (ok: bool, ghost kept: set<CleanName>)
      requires Valid()
      modifies `gbl
      ensures ok <==> forall n: CleanName :: HasTc(old(gbl), n) ==> File(n, Map) in old(gbl)
      ensures Valid() && Keeps(old(gbl), gbl)
      ensures ok ==> OnePerDigest(NamesOf(old(gbl), Testcase), GlobalMaps(old(gbl)), hash, kept)
      ensures ok ==> gbl == GlobalMinimised(old(gbl), kept, stamp) && Minimised(old(gbl), kept, stamp, gbl)
      ensures !ok ==> gbl == old(gbl)
    {
      var h;
      ok, h, kept := StoreLoops.MinimizeGlobal(gbl, hash, stamp);
      if ok {
        MinimisedGlobalOk(V(), kept, stamp, h);
        GlobalMinimisedIs(gbl, kept, stamp);
      }
      gbl := h;
      assert StoreOk(V());
    }

    /** `minimize_corpus_lcl` */
    method MinimizeLocal(stamp: Bytes) returns (ghost kept: set<CleanName>)
      requires Valid()
      modifies `gbl, `tcs
      ensures Valid() && Keeps(old(gbl), gbl)
      ensures LocalOutcome(old(gbl), loc, old(tcs), hash, stamp, kept, gbl, tcs)
      ensures Pruned(old(gbl), loc, old(tcs), kept, stamp, gbl, tcs)
    {
      var h, t := StoreLoops.MinimizeLocal(gbl, loc, tcs, hash, stamp);
      kept :| LocalOutcome(gbl, loc, tcs, hash, stamp, kept, h, t);
      MinimisedLocalOk(V(), Candidates(loc, tcs) - kept, stamp, h, t);
      PrunedIs(gbl, loc, tcs, kept, stamp);
      tcs, gbl := t, h;
      assert StoreOk(V());
    }

    /** `clear`, and the directories of the next iteration. */
    method NextIteration()
      requires Valid()
      modifies `loc, `tcs, `imgs, `iter
      ensures Valid() && iter == old(iter) + 1 && loc == map[] && tcs == map[] && imgs == map[]
    {
      AdvancedOk(V());
      loc, tcs, imgs := map[], map[], map[];
      iter := iter + 1;
      assert StoreOk(V());
    }

    /** One step of a run; steps that cannot happen in the present state are passed over. */
    method Perform(step: Step) returns (ok: bool)
      requires Valid()
      modifies this
      ensures ok <==> !Aborts(old(V()), step)
      ensures ok ==> Valid() && Transition(hash, old(V()), step, V())
      ensures GlobalOk(gbl, iter) && Keeps(old(gbl), gbl)
    {
      match step {
        case CollectedFirst(_, _) => ok := PerformFirst(step);
        case CrashedFirst(_, _, _) => ok := PerformFirst(step);
        case Collected(_, _, _) => ok := PerformCollect(step);
        case Crashed(_, _, _, _) => ok := PerformCollect(step);
        case UpdatedGlobalFirst => ok := PerformUpdate(step);
        case UpdatedGlobal => ok := PerformUpdate(step);
        case UpdatedLocal => ok := PerformLocal(step);
        case Advanced => ok := PerformLocal(step);
        case DedupedMaps(_) => ok := PerformDedup(step);
        case DedupedCrashes(_) => ok := PerformDedup(step);
        case MinimizedGlobal(stamp) => ok := PerformGlobal(stamp);
        case MinimizedLocal(stamp) =>
          PerformLocalMin(stamp);
          ok := true;
      }
    }

    method PerformFirst(step: Step) returns (ok: bool)
      requires Valid() && (step.CollectedFirst? || step.CrashedFirst?)
      modifies `firstTcs, `firstImgs
      ensures ok <==> !Aborts(old(V()), step)
      ensures ok ==> Valid() && Transition(hash, old(V()), step, V())
    {
      ok := true;
      match step {
        case CollectedFirst(digits, q) =>
          if IsDigits(digits) {
            ok := CollectFirst(digits, q);
          }
        case CrashedFirst(tcDigits, idDigits, archive) =>
          if IsDigits(tcDigits) && IsDigits(idDigits) {
            CollectFirstCrash(tcDigits, idDigits, archive);
          }
      }
    }

    method PerformCollect(step: Step) returns (ok: bool)
      requires Valid() && (step.Collected? || step.Crashed?)
      modifies `tcs, `imgs
      ensures ok && Valid() && Transition(hash, old(V()), step, V())
    {
      ok := true;
      match step {
        case Collected(p, digits, q) =>
          if Runs(loc, p) && IsDigits(digits) {
            ok := Collect(p, digits, q);
          }
        case Crashed(p, tcDigits, idDigits, archive) =>
          if Runs(loc, p) && iter >= 1 && IsDigits(tcDigits) && IsDigits(idDigits) {
            ok := CollectCrash(p, tcDigits, idDigits, archive);
          }
      }
    }

    method PerformUpdate(step: Step) returns (ok: bool)
      requires Valid() && (step.UpdatedGlobalFirst? || step.UpdatedGlobal?)
      modifies `gbl
      ensures ok && Valid() && Transition(hash, old(V()), step, V()) && Keeps(old(gbl), gbl)
    {
      match step {
        case UpdatedGlobalFirst => ok := UpdateGlobalFirst();
        case UpdatedGlobal => ok := UpdateGlobal();
      }
    }

    method PerformLocal(step: Step) returns (ok: bool)
      requires Valid() && (step.UpdatedLocal? || step.Advanced?)
      modifies `loc, `tcs, `imgs, `iter
      ensures ok <==> !Aborts(old(V()), step)
      ensures Valid() && (ok ==> Transition(hash, old(V()), step, V()))
    {
      ok := true;
      match step {
        case UpdatedLocal =>
          if iter >= 1 {
            ok := UpdateLocal();
          }
        case Advanced => NextIteration();
      }
    }

    method PerformDedup(step: Step) returns (ok: bool)
      requires Valid() && (step.DedupedMaps? || step.DedupedCrashes?)
      modifies `tcs, `imgs
      ensures ok <==> !Aborts(old(V()), step)
      ensures Valid() && (ok ==> Transition(hash, old(V()), step, V()))
    {
      ghost var s := V();
      match step {
        case DedupedMaps(stamp) =>
          ghost var order := DedupMaps(stamp);
          ok := true;
          DedupResult(hash, stamp, s, order, V());
        case DedupedCrashes(db) =>
          ghost var kept;
          ok, kept := DedupCrashes(db);
          CrashResult(hash, db, s, kept, V());
      }
    }

    method PerformGlobal(stamp: Bytes) returns (ok: bool)
      requires Valid()
      modifies `gbl
      ensures ok <==> !Aborts(old(V()), MinimizedGlobal(stamp))
      ensures Valid() && (ok ==> Transition(hash, old(V()), MinimizedGlobal(stamp), V())) && Keeps(old(gbl), gbl)
    {
      ghost var s := V();
      ghost var kept;
      ok, kept := MinimizeGlobal(stamp);
      GlobalResult(hash, stamp, s, kept, V());
    }

    method PerformLocalMin(stamp: Bytes)
      requires Valid()
      modifies `gbl, `tcs
      ensures Valid() && Transition(hash, old(V()), MinimizedLocal(stamp), V()) && Keeps(old(gbl), gbl)
    {
      ghost var s := V();
      ghost var kept := MinimizeLocal(stamp);
      LocalResult(hash, stamp, s, kept, V());
    }

    /** Any run of the store, in any order of its operations: as long as nothing has aborted the invariant holds, and
        the states passed through are a trace, which ends where the first operation that aborts began; the global store
        loses no archive, and a name once deleted has no testcase, map or pm_map ever again. */
    method Run(steps: seq<Step>) returns (ok: bool, ghost trace: seq<State>)
      requires Valid()
      modifies this
      ensures Trace(hash, steps, trace) && trace[0] == old(V())
      ensures ok ==> Valid() && |trace| == |steps| + 1 && trace[|steps|] == V()
      ensures !ok ==> Stopped(steps, trace)
      ensures GlobalOk(gbl, iter) && Keeps(old(gbl), gbl)
      ensures forall f | f in old(gbl) && f.kind.Deleted? :: f in gbl && Dead(gbl, f.name)
    {
      ok := true;
      trace := [V()];
      var i := 0;
      while i < |steps| && ok
        invariant 0 <= i <= |steps| && Trace(hash, steps, trace) && trace[0] == old(V())
        invariant ok ==> Valid() && |trace| == i + 1 && trace[i] == V()
        invariant !ok ==> Stopped(steps, trace)
        invariant GlobalOk(gbl, iter) && Keeps(old(gbl), gbl)
      {
        ok, trace := PerformNext(steps, i, trace);
        i := i + 1;
      }
      DeadForever(old(gbl), gbl, iter);
    }

    /** One step, and the state after it. */
    method PerformNext(steps: seq<Step>, i: nat, ghost trace: seq<State>) returns (ok: bool, ghost longer: seq<State>)
      requires Valid() && Trace(hash, steps, trace) && i < |steps| && |trace| == i + 1 && trace[i] == V()
      modifies this
      ensures Trace(hash, steps, longer) && longer[0] == trace[0]
      ensures ok ==> Valid() && |longer| == |trace| + 1 && longer[|trace|] == V()
      ensures !ok ==> Stopped(steps, longer)
      ensures GlobalOk(gbl, iter) && Keeps(old(gbl), gbl)
    {
      ghost var s := V();
      ok := Perform(steps[i]);
      longer := trace;
      if ok {
        TraceStep(hash, steps, trace, s, V());
        longer := trace + [V()];
      }
    }
  }
}
