/** Runs of the corpus store: what each operation makes of a state, and when coverage can shrink along a run. */
module StoreRuns {
  import opened Cmin
  import opened Files
  import opened Grouping
  import opened Minimisation
  import opened Names
  import opened StoreLoops
  import opened StoreStates
  import opened Text
  import DedupEngine

  // ----- Transitions -----

  ghost predicate MapsDeduped(hash: Digest, stamp: Bytes, s: State, t: State) {
    t == s.(tcs := t.tcs) && exists order :: DedupEngine.Outcome(s.tcs, Map, hash, stamp, order, t.tcs)
  }

  ghost predicate CrashesDeduped(db: map<CleanName, string>, s: State, t: State) {
    && t == s.(imgs := t.imgs)
    && exists kept :: OnePerHash(s.imgs, db, kept)
                      && t.imgs == Without(s.imgs, NamesOf(s.imgs, CrashCmpr) - kept, [CrashCmpr])
  }

  function CrashedOnce(s: State, n: CleanName, archive: Bytes): State {
    s.(firstImgs := s.firstImgs[File(n, CrashCmpr) := archive])
  }

  function CrashedAgain(s: State, n: CleanName, archive: Bytes): State {
    s.(imgs := s.imgs[File(n, CrashCmpr) := archive])
  }

  ghost predicate GlobalOutcome(hash: Digest, stamp: Bytes, g: Dir, h: Dir, kept: set<CleanName>) {
    OnePerDigest(NamesOf(g, Testcase), GlobalMaps(g), hash, kept) && h == GlobalMinimised(g, kept, stamp)
  }

  ghost predicate GlobalMinimisedFrom(hash: Digest, stamp: Bytes, s: State, t: State) {
    t == s.(gbl := t.gbl) && exists kept :: GlobalOutcome(hash, stamp, s.gbl, t.gbl, kept)
  }

  ghost predicate LocalMinimisedFrom(hash: Digest, stamp: Bytes, s: State, t: State) {
    && t == s.(gbl := t.gbl, tcs := t.tcs)
    && exists kept :: LocalOutcome(s.gbl, s.loc, s.tcs, hash, stamp, kept, t.gbl, t.tcs)
  }

  function FoundFirst(s: State, digits: string, q: Found): State
    requires IsDigits(digits)
  {
    var n := FirstName(digits);
    s.(firstTcs := AddFound(s.firstTcs, n, q), firstImgs := s.firstImgs[File(n, PoolCmpr) := q.pool])
  }

  function FoundChild(s: State, p: CleanName, digits: string, q: Found): State
    requires IsDigits(digits)
  {
    var n := ChildOf(p, digits);
    s.(tcs := AddFound(s.tcs, n, q), imgs := s.imgs[File(n, PoolCmpr) := q.pool])
  }

  /** When an operation aborts. */
  ghost predicate Aborts(s: State, step: Step) {
    match step
    case CollectedFirst(digits, q) => IsDigits(digits) && !HasTc(s.firstTcs, FirstName(digits)) && q.map_.None?
    case UpdatedLocal => s.iter >= 1 && !AllMapped(s.gbl, s.loc, s.iter)
    case DedupedCrashes(db) => !(NamesOf(s.imgs, CrashCmpr) <= db.Keys)
    case MinimizedGlobal(_) => exists n: CleanName :: HasTc(s.gbl, n) && File(n, Map) !in s.gbl
    case _ => false
  }

  /** What an operation that does not abort makes of a state; nothing when it cannot happen there. */
  ghost predicate Transition(hash: Digest, s: State, step: Step, t: State) {
    !Aborts(s, step) && Result(hash, s, step, t)
  }

  ghost predicate Result(hash: Digest, s: State, step: Step, t: State) {
    match step
    case CollectedFirst(digits, q) =>
      t == if IsDigits(digits) && !HasTc(s.firstTcs, FirstName(digits)) then FoundFirst(s, digits, q) else s
    case Collected(p, digits, q) => t == if IsDigits(digits) && Runs(s.loc, p) then FoundChild(s, p, digits, q) else s
    case CrashedFirst(tcDigits, idDigits, archive) =>
      t == if IsDigits(tcDigits) && IsDigits(idDigits)
           then CrashedOnce(s, FirstCrash(tcDigits, idDigits), archive) else s
    case Crashed(p, tcDigits, idDigits, archive) =>
      t == if IsDigits(tcDigits) && IsDigits(idDigits) && Runs(s.loc, p) && s.iter >= 1
           then CrashedAgain(s, CrashBy(p, tcDigits, idDigits), archive) else s
    case UpdatedGlobalFirst => t == s.(gbl := GlobalAfter(s.gbl, s.firstTcs, s.firstImgs))
    case UpdatedGlobal => t == s.(gbl := GlobalAfter(s.gbl, s.tcs, s.imgs))
    case UpdatedLocal => t == if s.iter >= 1 then s.(loc := LocalAfter(s.gbl, s.loc, s.iter)) else s
    case Advanced => t == Cleared(s)
    case DedupedMaps(stamp) => MapsDeduped(hash, stamp, s, t)
    case DedupedCrashes(db) => CrashesDeduped(db, s, t)
    case MinimizedGlobal(stamp) => GlobalMinimisedFrom(hash, stamp, s, t)
    case MinimizedLocal(stamp) => LocalMinimisedFrom(hash, stamp, s, t)
  }

  lemma DedupResult(hash: Digest, stamp: Bytes, s: State, order: seq<File>, t: State)
    requires DedupEngine.Outcome(s.tcs, Map, hash, stamp, order, t.tcs) && t == s.(tcs := t.tcs)
    ensures Transition(hash, s, DedupedMaps(stamp), t)
  {
  }

  lemma CrashResult(hash: Digest, db: map<CleanName, string>, s: State, kept: set<CleanName>, t: State)
    requires NamesOf(s.imgs, CrashCmpr) <= db.Keys ==>
               && OnePerHash(s.imgs, db, kept) && t == s.(imgs := t.imgs)
               && t.imgs == Without(s.imgs, NamesOf(s.imgs, CrashCmpr) - kept, [CrashCmpr])
    ensures !Aborts(s, DedupedCrashes(db)) ==> Transition(hash, s, DedupedCrashes(db), t)
  {
  }

  lemma GlobalResult(hash: Digest, stamp: Bytes, s: State, kept: set<CleanName>, t: State)
    requires (forall n: CleanName :: HasTc(s.gbl, n) ==> File(n, Map) in s.gbl) ==>
               GlobalOutcome(hash, stamp, s.gbl, t.gbl, kept) && t == s.(gbl := t.gbl)
    ensures !Aborts(s, MinimizedGlobal(stamp)) ==> Transition(hash, s, MinimizedGlobal(stamp), t)
    ensures Aborts(s, MinimizedGlobal(stamp)) <==> !forall n: CleanName :: HasTc(s.gbl, n) ==> File(n, Map) in s.gbl
  {
  }

  lemma LocalResult(hash: Digest, stamp: Bytes, s: State, kept: set<CleanName>, t: State)
    requires LocalOutcome(s.gbl, s.loc, s.tcs, hash, stamp, kept, t.gbl, t.tcs) && t == s.(gbl := t.gbl, tcs := t.tcs)
    ensures Transition(hash, s, MinimizedLocal(stamp), t)
  {
  }

  /** Step `i` of a run leads from state `i` to state `i + 1`. */
  ghost predicate StepsTo(hash: Digest, steps: seq<Step>, trace: seq<State>, i: nat)
    requires i < |steps| && i + 1 < |trace|
  {
    StoreOk(trace[i]) && Transition(hash, trace[i], steps[i], trace[i + 1])
  }

  /** The states of a run between its steps. */
  ghost predicate Trace(hash: Digest, steps: seq<Step>, trace: seq<State>) {
    1 <= |trace| <= |steps| + 1 && forall i: nat | i + 1 < |trace| :: StepsTo(hash, steps, trace, i)
  }

  /** The operation that comes next aborts. */
  ghost predicate Stopped(steps: seq<Step>, trace: seq<State>) {
    1 <= |trace| <= |steps| && Aborts(trace[|trace| - 1], steps[|trace| - 1])
  }

  /** Every operation keeps what holds of a store, its archives and its placeholders. */
  lemma TransitionOk(hash: Digest, s: State, step: Step, t: State)
    requires StoreOk(s) && Transition(hash, s, step, t)
    ensures StoreOk(t) && Keeps(s.gbl, t.gbl)
  {
    match step
    case CollectedFirst(_, _) => FirstStepOk(hash, s, step, t);
    case CrashedFirst(_, _, _) => FirstStepOk(hash, s, step, t);
    case Collected(_, _, _) => RunStepOk(hash, s, step, t);
    case Crashed(_, _, _, _) => RunStepOk(hash, s, step, t);
    case UpdatedGlobalFirst => UpdatedFirstOk(s, t.gbl);
    case UpdatedGlobal => UpdatedOk(s, t.gbl);
    case UpdatedLocal =>
      if s.iter >= 1 {
        LocalUpdatedOk(s, t.loc);
      }
    case Advanced => AdvancedOk(s);
    case _ => ReduceOk(hash, s, step, t);
  }

  lemma FirstStepOk(hash: Digest, s: State, step: Step, t: State)
    requires StoreOk(s) && Transition(hash, s, step, t) && (step.CollectedFirst? || step.CrashedFirst?)
    ensures StoreOk(t) && t.gbl == s.gbl
  {
    match step
    case CollectedFirst(digits, q) =>
      if IsDigits(digits) && !HasTc(s.firstTcs, FirstName(digits)) {
        CollectedFirstOk(s, FirstName(digits), q);
      }
    case CrashedFirst(tcDigits, idDigits, archive) =>
      if IsDigits(tcDigits) && IsDigits(idDigits) {
        CrashOk(s.gbl, s.firstTcs, s.firstImgs, 0, FirstCrash(tcDigits, idDigits), archive);
      }
  }

  lemma RunStepOk(hash: Digest, s: State, step: Step, t: State)
    requires StoreOk(s) && Transition(hash, s, step, t) && (step.Collected? || step.Crashed?)
    ensures StoreOk(t) && t.gbl == s.gbl
  {
    match step
    case Collected(p, digits, q) =>
      if IsDigits(digits) && Runs(s.loc, p) {
        ChildCollectedOk(s, p, digits, q);
      }
    case Crashed(p, tcDigits, idDigits, archive) =>
      if IsDigits(tcDigits) && IsDigits(idDigits) && Runs(s.loc, p) && s.iter >= 1 {
        RunImage(s, p);
        CrashOk(s.gbl, s.tcs, s.imgs, s.iter, CrashBy(p, tcDigits, idDigits), archive);
      }
  }

  lemma ReduceOk(hash: Digest, s: State, step: Step, t: State)
    requires StoreOk(s) && Transition(hash, s, step, t)
    requires step.DedupedMaps? || step.DedupedCrashes? || step.MinimizedGlobal? || step.MinimizedLocal?
    ensures StoreOk(t) && Keeps(s.gbl, t.gbl)
  {
    match step
    case DedupedMaps(stamp) =>
      var order :| DedupEngine.Outcome(s.tcs, Map, hash, stamp, order, t.tcs);
      DedupedMapsOk(s, order, hash, stamp, t.tcs);
    case DedupedCrashes(db) =>
      var kept :| OnePerHash(s.imgs, db, kept)
                  && t.imgs == Without(s.imgs, NamesOf(s.imgs, CrashCmpr) - kept, [CrashCmpr]);
      FewerCrashesOk(s.gbl, s.tcs, s.imgs, s.iter, NamesOf(s.imgs, CrashCmpr) - kept);
    case MinimizedGlobal(stamp) =>
      var kept :| GlobalOutcome(hash, stamp, s.gbl, t.gbl, kept);
      MinimisedGlobalOk(s, kept, stamp, t.gbl);
    case MinimizedLocal(stamp) =>
      var kept :| LocalOutcome(s.gbl, s.loc, s.tcs, hash, stamp, kept, t.gbl, t.tcs);
      MinimisedLocalOk(s, Candidates(s.loc, s.tcs) - kept, stamp, t.gbl, t.tcs);
  }

  lemma TraceStep(hash: Digest, steps: seq<Step>, trace: seq<State>, s: State, t: State)
    requires Trace(hash, steps, trace) && |trace| <= |steps| && trace[|trace| - 1] == s
    requires StoreOk(s) && Transition(hash, s, steps[|trace| - 1], t)
    ensures Trace(hash, steps, trace + [t])
  {
    forall i: nat | i + 1 < |trace + [t]|
      ensures StepsTo(hash, steps, trace + [t], i)
    {
      assert i + 1 < |trace| ==> StepsTo(hash, steps, trace, i);
    }
  }

  // ----- Coverage along a run -----

  /** The pm_map contents a store still has: in the global store, among the results, and of stage 1. */
  function PmContents(s: State): set<Bytes> {
    Contents(s.gbl, PmMap) + Contents(s.tcs, PmMap) + Contents(s.firstTcs, PmMap)
  }

  /** The contents a digest has to tell apart. */
  function Seen(s: State): set<Bytes> {
    PmContents(s) + Contents(s.loc, PmMap)
  }

  /** The only ways to lose the contents `c` of a pm_map: a local minimisation at which they are at risk, a
      deduplication of execution maps that can displace every holder, a name collected again with another pm_map, and
      the end of an iteration with results that are not in the global store. */
  ghost predicate Risk(hash: Digest, s: State, step: Step, c: Bytes) {
    c !in Contents(s.firstTcs, PmMap) &&
    match step
    case MinimizedLocal(_) =>
      (c in Contents(s.gbl, PmMap) || c in Contents(s.tcs, PmMap)) && AtRisk(s.gbl, s.loc, s.tcs, c)
    case DedupedMaps(_) => OnlyResult(s, c) && DedupEngine.MayLosePm(s.tcs, Map, hash, c)
    case Collected(p, digits, q) =>
      && OnlyResult(s, c) && IsDigits(digits)
      && DedupEngine.HoldsPm(s.tcs, ChildOf(p, digits), c) && q.pmMap.Some? && q.pmMap.value != c
    case Advanced => OnlyResult(s, c)
    case _ => false
  }

  /** The contents are among the results and not yet in the global store. */
  predicate OnlyResult(s: State, c: Bytes) {
    c in Contents(s.tcs, PmMap) && c !in Contents(s.gbl, PmMap)
  }

  /** A directory that still has every file of a kind, unchanged, keeps their contents. */
  lemma ContentsGrow(d: Dir, e: Dir, k: Kind)
    requires forall f | f in d && f.kind == k :: f in e && e[f] == d[f]
    ensures Contents(d, k) <= Contents(e, k)
  {
    forall c | c in Contents(d, k)
      ensures c in Contents(e, k)
    {
      var f :| f in d && f.kind == k && d[f] == c;
      assert e[f] == c;
    }
  }

  /** `update_global` never changes a pm_map of the global store. */
  lemma GlobalAfterPm(g: Dir, tcs: Dir, imgs: Dir)
    requires MapsOk(g)
    ensures Contents(g, PmMap) <= Contents(GlobalAfter(g, tcs, imgs), PmMap)
  {
    forall f | f in g && f.kind.PmMap?
      ensures f in GlobalAfter(g, tcs, imgs) && GlobalAfter(g, tcs, imgs)[f] == g[f]
    {
      CopiedAt(g, tcs, imgs, NewNames(g, tcs), f);
      WithCrashesHas(Copied(g, tcs, imgs, NewNames(g, tcs)), imgs, NewCrashes(g, imgs), f);
    }
    ContentsGrow(g, GlobalAfter(g, tcs, imgs), PmMap);
  }

  /** The results of new names reach the global store with `update_global`... */
  lemma NewResultsKept(g: Dir, tcs: Dir, imgs: Dir, n: CleanName)
    requires MapsOk(tcs) && File(n, PmMap) in tcs && !HasTc(g, n) && File(n, Deleted) !in g
    ensures tcs[File(n, PmMap)] in Contents(GlobalAfter(g, tcs, imgs), PmMap)
  {
    var f := File(n, PmMap);
    var h := GlobalAfter(g, tcs, imgs);
    CopiedAt(g, tcs, imgs, NewNames(g, tcs), f);
    WithCrashesHas(Copied(g, tcs, imgs, NewNames(g, tcs)), imgs, NewCrashes(g, imgs), f);
    assert n in NewNames(g, tcs);
    assert f in h && h[f] == tcs[f];
  }

  /** Some holder of `c` among the results is neither in the global store nor deleted from it. */
  ghost predicate NewHolder(g: Dir, tcs: Dir, c: Bytes) {
    exists n: CleanName :: DedupEngine.HoldsPm(tcs, n, c) && !HasTc(g, n) && File(n, Deleted) !in g
  }

  /** ...and those of other names do not. */
  lemma GlobalAfterPmIff(g: Dir, tcs: Dir, imgs: Dir, c: Bytes)
    requires MapsOk(g) && MapsOk(tcs)
    ensures c in Contents(GlobalAfter(g, tcs, imgs), PmMap) <==> c in Contents(g, PmMap) || NewHolder(g, tcs, c)
  {
    var h := GlobalAfter(g, tcs, imgs);
    GlobalAfterPm(g, tcs, imgs);
    if NewHolder(g, tcs, c) {
      var n: CleanName :| DedupEngine.HoldsPm(tcs, n, c) && !HasTc(g, n) && File(n, Deleted) !in g;
      NewResultsKept(g, tcs, imgs, n);
    }
    if c in Contents(h, PmMap) && c !in Contents(g, PmMap) {
      var f :| f in h && f.kind.PmMap? && h[f] == c;
      CopiedAt(g, tcs, imgs, NewNames(g, tcs), f);
      WithCrashesHas(Copied(g, tcs, imgs, NewNames(g, tcs)), imgs, NewCrashes(g, imgs), f);
      assert DedupEngine.HoldsPm(tcs, f.name, c);
    }
  }

  /** What the end of an iteration keeps: `update_global`, and then `clear`. */
  lemma EndKeepsIff(hash: Digest, s: State, t: State, u: State, c: Bytes)
    requires StoreOk(s) && Transition(hash, s, UpdatedGlobal, t) && Transition(hash, t, Advanced, u)
    ensures c in PmContents(u) <==>
      c in Contents(s.gbl, PmMap) || c in Contents(s.firstTcs, PmMap) || NewHolder(s.gbl, s.tcs, c)
  {
    EndKeeps(s, c);
  }

  lemma EndKeeps(s: State, c: Bytes)
    requires StoreOk(s)
    ensures c in PmContents(Cleared(s.(gbl := GlobalAfter(s.gbl, s.tcs, s.imgs)))) <==>
      c in Contents(s.gbl, PmMap) || c in Contents(s.firstTcs, PmMap) || NewHolder(s.gbl, s.tcs, c)
  {
    StoreMaps(s);
    GlobalAfterPmIff(s.gbl, s.tcs, s.imgs, c);
  }

  /** A testcase that is collected again can only overwrite its own pm_map. */
  lemma AddFoundPm(d: Dir, n: CleanName, q: Found, c: Bytes)
    requires c in Contents(d, PmMap)
    ensures c in Contents(AddFound(d, n, q), PmMap)
         || (DedupEngine.HoldsPm(d, n, c) && q.pmMap.Some? && q.pmMap.value != c)
  {
    var f :| f in d && f.kind.PmMap? && d[f] == c;
    var e := AddFound(d, n, q);
    assert f == File(f.name, PmMap);
    assert f.name != n || q.pmMap.None? ==> f in e && e[f] == c;
    assert q.pmMap.Some? ==> e[File(n, PmMap)] == q.pmMap.value;
  }

  lemma LocalRisk(hash: Digest, stamp: Bytes, g: Dir, loc: Dir, tcs: Dir, h: Dir, t: Dir, c: Bytes)
    requires exists kept :: LocalOutcome(g, loc, tcs, hash, stamp, kept, h, t)
    requires TellsApart(hash, Contents(loc, PmMap) + Contents(tcs, PmMap)) && !AtRisk(g, loc, tcs, c)
    ensures c in Contents(h, PmMap) || c in Contents(t, PmMap)
  {
    var kept :| LocalOutcome(g, loc, tcs, hash, stamp, kept, h, t);
    CandidateContents(loc, tcs);
    SafeSurvives(g, loc, tcs, hash, kept, stamp, c);
  }

  lemma CandidateContents(loc: Dir, tcs: Dir)
    ensures Contents(CandidateMaps(loc, tcs), PmMap) <= Contents(loc, PmMap) + Contents(tcs, PmMap)
  {
  }

  lemma DedupRisk(hash: Digest, stamp: Bytes, tcs: Dir, t: Dir, c: Bytes)
    requires exists order :: DedupEngine.Outcome(tcs, Map, hash, stamp, order, t)
    requires c !in Contents(t, PmMap)
    ensures DedupEngine.MayLosePm(tcs, Map, hash, c)
  {
    var order :| DedupEngine.Outcome(tcs, Map, hash, stamp, order, t);
    assert DedupEngine.LosesPm(tcs, order, hash, stamp, c);
    DedupEngine.LosesPmIff(tcs, hash, stamp, c);
  }

  lemma GlobalKept(hash: Digest, stamp: Bytes, g: Dir, h: Dir)
    requires MapsOk(g) && TellsApart(hash, Contents(g, PmMap))
    requires exists kept :: GlobalOutcome(hash, stamp, g, h, kept)
    ensures Contents(h, PmMap) == Contents(g, PmMap)
  {
    var kept :| GlobalOutcome(hash, stamp, g, h, kept);
    GlobalCoverage(g, hash, kept, stamp);
  }

  lemma StoreMaps(s: State)
    requires StoreOk(s)
    ensures MapsOk(s.gbl) && MapsOk(s.tcs) && MapsOk(s.firstTcs)
  {
  }

  /** One step loses pm_map contents only where they are at risk. */
  lemma StepCoverage(hash: Digest, s: State, step: Step, t: State, c: Bytes)
    requires StoreOk(s) && Transition(hash, s, step, t) && TellsApart(hash, Seen(s))
    requires c in PmContents(s)
    ensures c in PmContents(t) || Risk(hash, s, step, c)
  {
    StoreMaps(s);
    StepKeeps(hash, s, step, t, c);
  }

  lemma StepKeeps(hash: Digest, s: State, step: Step, t: State, c: Bytes)
    requires MapsOk(s.gbl) && MapsOk(s.firstTcs) && TellsApart(hash, Seen(s))
    requires Transition(hash, s, step, t) && c in PmContents(s)
    ensures c in PmContents(t) || Risk(hash, s, step, c)
  {
    if step.CollectedFirst? || step.Collected? {
      CollectKeeps(hash, s, step, t, c);
    } else if step.DedupedMaps? || step.MinimizedGlobal? || step.MinimizedLocal? {
      ReduceKeeps(hash, s, step, t, c);
    } else {
      OtherKeeps(hash, s, step, t, c);
    }
  }

  lemma OtherKeeps(hash: Digest, s: State, step: Step, t: State, c: Bytes)
    requires MapsOk(s.gbl) && Transition(hash, s, step, t) && c in PmContents(s)
    requires !step.CollectedFirst? && !step.Collected? && !step.DedupedMaps?
    requires !step.MinimizedGlobal? && !step.MinimizedLocal?
    ensures c in PmContents(t) || Risk(hash, s, step, c)
  {
    match step
    case UpdatedGlobalFirst => GlobalAfterPm(s.gbl, s.firstTcs, s.firstImgs);
    case UpdatedGlobal => GlobalAfterPm(s.gbl, s.tcs, s.imgs);
    case _ =>
  }

  lemma CollectKeeps(hash: Digest, s: State, step: Step, t: State, c: Bytes)
    requires MapsOk(s.gbl) && MapsOk(s.firstTcs) && TellsApart(hash, Seen(s))
    requires Transition(hash, s, step, t) && c in PmContents(s)
    requires step.CollectedFirst? || step.Collected?
    ensures c in PmContents(t) || Risk(hash, s, step, c)
  {
    match step
    case CollectedFirst(digits, q) =>
      if IsDigits(digits) && !HasTc(s.firstTcs, FirstName(digits)) {
        NewTcNoPm(s.firstTcs, FirstName(digits), q);
      }
    case Collected(p, digits, q) =>
      if IsDigits(digits) && c in Contents(s.tcs, PmMap) {
        AddFoundPm(s.tcs, ChildOf(p, digits), q, c);
      }
  }

  lemma ReduceKeeps(hash: Digest, s: State, step: Step, t: State, c: Bytes)
    requires MapsOk(s.gbl) && MapsOk(s.firstTcs) && TellsApart(hash, Seen(s))
    requires Transition(hash, s, step, t) && c in PmContents(s)
    requires step.DedupedMaps? || step.MinimizedGlobal? || step.MinimizedLocal?
    ensures c in PmContents(t) || Risk(hash, s, step, c)
  {
    match step
    case DedupedMaps(stamp) =>
      if c !in Contents(t.tcs, PmMap) {
        DedupRisk(hash, stamp, s.tcs, t.tcs, c);
      }
    case MinimizedGlobal(stamp) =>
      SeenApart(hash, s);
      GlobalKept(hash, stamp, s.gbl, t.gbl);
    case MinimizedLocal(stamp) =>
      SeenApart(hash, s);
      if !AtRisk(s.gbl, s.loc, s.tcs, c) {
        LocalRisk(hash, stamp, s.gbl, s.loc, s.tcs, t.gbl, t.tcs, c);
      }
  }

  lemma SeenApart(hash: Digest, s: State)
    requires TellsApart(hash, Seen(s))
    ensures TellsApart(hash, Contents(s.gbl, PmMap))
    ensures TellsApart(hash, Contents(s.loc, PmMap) + Contents(s.tcs, PmMap))
  {
  }

  /** A testcase that is new has no pm_map yet, so none is overwritten. */
  lemma NewTcNoPm(d: Dir, n: CleanName, q: Found)
    requires MapsOk(d) && !HasTc(d, n)
    ensures Contents(d, PmMap) <= Contents(AddFound(d, n, q), PmMap)
  {
    forall f | f in d && f.kind.PmMap?
      ensures f in AddFound(d, n, q) && AddFound(d, n, q)[f] == d[f]
    {
      assert f.name != n;
    }
    ContentsGrow(d, AddFound(d, n, q), PmMap);
  }

  // ----- Where contents come from -----

  /** A store without files. */
  const EMPTY: State := State(map[], map[], map[], map[], map[], map[], 0)

  /** The pm_map contents an operation brings into the store. */
  function Brings(step: Step): set<Bytes> {
    match step
    case CollectedFirst(_, q) => OptSet(q.pmMap)
    case Collected(_, _, q) => OptSet(q.pmMap)
    case _ => {}
  }

  function OptSet(c: Option<Bytes>): set<Bytes> {
    if c.Some? then {c.value} else {}
  }

  /** Only what is collected is new. */
  lemma StepSeen(hash: Digest, s: State, step: Step, t: State)
    requires Transition(hash, s, step, t)
    ensures Seen(t) <= Seen(s) + Brings(step)
  {
    if step.CollectedFirst? || step.Collected? {
      CollectSeen(hash, s, step, t);
    } else if step.DedupedMaps? || step.MinimizedGlobal? || step.MinimizedLocal? {
      ReduceSeen(hash, s, step, t);
    } else {
      OtherSeen(hash, s, step, t);
    }
  }

  lemma CollectSeen(hash: Digest, s: State, step: Step, t: State)
    requires Transition(hash, s, step, t) && (step.CollectedFirst? || step.Collected?)
    ensures Contents(t.firstTcs, PmMap) <= Contents(s.firstTcs, PmMap) + Brings(step)
    ensures Contents(t.tcs, PmMap) <= Contents(s.tcs, PmMap) + Brings(step)
    ensures t.loc == s.loc && t.gbl == s.gbl
  {
    match step
    case CollectedFirst(digits, q) =>
      if IsDigits(digits) {
        FoundSeen(s.firstTcs, FirstName(digits), q);
      }
    case Collected(p, digits, q) =>
      if IsDigits(digits) {
        FoundSeen(s.tcs, ChildOf(p, digits), q);
      }
  }

  lemma OtherSeen(hash: Digest, s: State, step: Step, t: State)
    requires Transition(hash, s, step, t) && !step.CollectedFirst? && !step.Collected?
    requires !step.DedupedMaps? && !step.MinimizedGlobal? && !step.MinimizedLocal?
    ensures Seen(t) <= Seen(s)
  {
    match step
    case UpdatedGlobalFirst => GlobalAfterSeen(s.gbl, s.firstTcs, s.firstImgs);
    case UpdatedGlobal => GlobalAfterSeen(s.gbl, s.tcs, s.imgs);
    case UpdatedLocal => LocalAfterSeen(s.gbl, s.loc, s.iter);
    case _ =>
  }

  lemma ReduceSeen(hash: Digest, s: State, step: Step, t: State)
    requires Transition(hash, s, step, t)
    requires step.DedupedMaps? || step.MinimizedGlobal? || step.MinimizedLocal?
    ensures Contents(t.gbl, PmMap) <= Contents(s.gbl, PmMap) && Contents(t.tcs, PmMap) <= Contents(s.tcs, PmMap)
    ensures t.loc == s.loc && t.firstTcs == s.firstTcs
  {
    match step
    case DedupedMaps(stamp) =>
      var order :| DedupEngine.Outcome(s.tcs, Map, hash, stamp, order, t.tcs);
      var losers := DedupEngine.LosersBy(s.tcs, Map, order, hash);
      BurySeen(s.tcs, losers, ALL_FILES, losers, stamp);
    case MinimizedGlobal(stamp) =>
      var kept :| GlobalOutcome(hash, stamp, s.gbl, t.gbl, kept);
      var dropped := NamesOf(s.gbl, Testcase) - kept;
      BurySeen(s.gbl, dropped, BARE_FILES, dropped, stamp);
    case MinimizedLocal(stamp) =>
      var kept :| LocalOutcome(s.gbl, s.loc, s.tcs, hash, stamp, kept, t.gbl, t.tcs);
      var dropped := Candidates(s.loc, s.tcs) - kept;
      BurySeen(s.gbl, dropped, TC_FILES, Hit(s.gbl, dropped, TC_FILES), stamp);
      WithoutSeen(s.tcs, dropped, ALL_FILES);
  }

  lemma FoundSeen(d: Dir, n: CleanName, q: Found)
    ensures Contents(AddFound(d, n, q), PmMap) <= Contents(d, PmMap) + OptSet(q.pmMap)
  {
  }

  lemma GlobalAfterSeen(g: Dir, tcs: Dir, imgs: Dir)
    ensures Contents(GlobalAfter(g, tcs, imgs), PmMap) <= Contents(g, PmMap) + Contents(tcs, PmMap)
  {
    forall f | f in GlobalAfter(g, tcs, imgs) && f.kind.PmMap?
      ensures GlobalAfter(g, tcs, imgs)[f] in Contents(g, PmMap) + Contents(tcs, PmMap)
    {
      CopiedAt(g, tcs, imgs, NewNames(g, tcs), f);
      WithCrashesHas(Copied(g, tcs, imgs, NewNames(g, tcs)), imgs, NewCrashes(g, imgs), f);
    }
  }

  lemma LocalAfterSeen(g: Dir, loc: Dir, iter: nat)
    ensures Contents(LocalAfter(g, loc, iter), PmMap) <= Contents(g, PmMap) + Contents(loc, PmMap)
  {
    forall f | f in LocalAfter(g, loc, iter) && f.kind.PmMap?
      ensures LocalAfter(g, loc, iter)[f] in Contents(g, PmMap) + Contents(loc, PmMap)
    {
      CopiedAt(loc, g, g, Eligible(g, loc, iter), f);
      WithCrashesHas(Copied(loc, g, g, Eligible(g, loc, iter)), g, NewCrashes(loc, g), f);
    }
  }

  lemma BurySeen(d: Dir, names: set<CleanName>, kinds: seq<Kind>, marked: set<CleanName>, stamp: Bytes)
    ensures Contents(Bury(d, names, kinds, marked, stamp), PmMap) <= Contents(d, PmMap)
  {
    forall f | f in Bury(d, names, kinds, marked, stamp) && f.kind.PmMap?
      ensures f in d && Bury(d, names, kinds, marked, stamp)[f] == d[f]
    {
      BuryHas(d, names, kinds, marked, stamp, f);
    }
    ContentsGrow(Bury(d, names, kinds, marked, stamp), d, PmMap);
  }

  lemma WithoutSeen(d: Dir, names: set<CleanName>, kinds: seq<Kind>)
    ensures Contents(Without(d, names, kinds), PmMap) <= Contents(d, PmMap)
  {
    ContentsGrow(Without(d, names, kinds), d, PmMap);
  }

  lemma FirstLoss(trace: seq<State>, c: Bytes) returns (i: nat)
    requires trace != [] && c in PmContents(trace[0]) && c !in PmContents(trace[|trace| - 1])
    ensures i + 1 < |trace| && c in PmContents(trace[i]) && c !in PmContents(trace[i + 1])
  {
    i := 0;
    while c in PmContents(trace[i + 1])
      invariant i + 1 < |trace| && c in PmContents(trace[i])
      decreases |trace| - i
    {
      i := i + 1;
    }
  }

  /** Along every run, pm_map contents that are gone at the end were at risk at some step that lost them. */
  lemma RunCoverage(hash: Digest, steps: seq<Step>, trace: seq<State>, c: Bytes) returns (i: nat)
    requires Trace(hash, steps, trace) && forall s | s in trace :: TellsApart(hash, Seen(s))
    requires c in PmContents(trace[0]) && c !in PmContents(trace[|trace| - 1])
    ensures i + 1 < |trace| && c in PmContents(trace[i]) && c !in PmContents(trace[i + 1])
    ensures Risk(hash, trace[i], steps[i], c)
  {
    i := FirstLoss(trace, c);
    assert StepsTo(hash, steps, trace, i) && trace[i] in trace;
    StepCoverage(hash, trace[i], steps[i], trace[i + 1], c);
  }
}
