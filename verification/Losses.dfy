/** Runs of the corpus store from an empty one at whose end pm_map contents are lost. */
module Losses {
  import opened Cmin
  import opened Files
  import opened Grouping
  import opened Listing
  import opened Minimisation
  import opened Names
  import opened StoreLoops
  import opened StoreRuns
  import opened StoreStates
  import opened Text
  import DedupEngine

  // ----- What matters of a directory -----

  /** The testcases of a directory, all with an execution map, and its pm_maps. */
  ghost predicate Shows(d: Dir, tcs: set<CleanName>, pms: map<CleanName, Bytes>) {
    && (forall n: CleanName :: HasTc(d, n) <==> n in tcs)
    && (forall n: CleanName | n in tcs :: File(n, Map) in d)
    && (forall n: CleanName :: File(n, PmMap) in d <==> n in pms)
    && (forall n: CleanName | n in pms :: d[File(n, PmMap)] == pms[n])
  }

  function With(m: map<CleanName, Bytes>, n: CleanName, c: Option<Bytes>): map<CleanName, Bytes> {
    if c.Some? then m[n := c.value] else m
  }

  lemma AddFoundAt(d: Dir, n: CleanName, q: Found, f: File)
    requires q.map_.Some?
    ensures var e := AddFound(d, n, q);
      && (f in e <==> f in d || f == File(n, Testcase) || f == File(n, Map) || (q.pmMap.Some? && f == File(n, PmMap)))
      && (f.kind.PmMap? && f in e ==> e[f] == if f.name == n && q.pmMap.Some? then q.pmMap.value else d[f])
  {
  }

  lemma FoundShows(d: Dir, tcs: set<CleanName>, pms: map<CleanName, Bytes>, n: CleanName, q: Found)
    requires Shows(d, tcs, pms) && q.map_.Some?
    ensures Shows(AddFound(d, n, q), tcs + {n}, With(pms, n, q.pmMap))
  {
    var e := AddFound(d, n, q);
    forall m: CleanName
      ensures HasTc(e, m) <==> HasTc(d, m) || m == n
      ensures File(m, Map) in e <==> File(m, Map) in d || m == n
      ensures File(m, PmMap) in e <==> m in With(pms, n, q.pmMap)
      ensures File(m, PmMap) in e ==> e[File(m, PmMap)] == With(pms, n, q.pmMap)[m]
    {
      AddFoundAt(d, n, q, File(m, Testcase));
      AddFoundAt(d, n, q, File(m, Map));
      AddFoundAt(d, n, q, File(m, PmMap));
    }
  }

  lemma GlobalAfterAt(g: Dir, tcs: Dir, imgs: Dir, f: File)
    requires f.kind.PmMap? || f.kind.Map? || f.kind.Testcase? || f.kind.Deleted?
    ensures var h := GlobalAfter(g, tcs, imgs);
      var new' := f.kind != Deleted && f.name in NewNames(g, tcs) && f in tcs;
      (f in h <==> f in g || new') && (f in h ==> h[f] == if new' then tcs[f] else g[f])
  {
    CopiedAt(g, tcs, imgs, NewNames(g, tcs), f);
    WithCrashesHas(Copied(g, tcs, imgs, NewNames(g, tcs)), imgs, NewCrashes(g, imgs), f);
  }

  /** Without placeholders. */
  ghost predicate Untouched(g: Dir) {
    forall n: CleanName :: File(n, Deleted) !in g
  }

  /** `update_global` with new names only. */
  lemma GlobalShows(g: Dir, tcs: Dir, imgs: Dir, gt: set<CleanName>, gp: map<CleanName, Bytes>, tt: set<CleanName>,
                    tp: map<CleanName, Bytes>)
    requires Shows(g, gt, gp) && Shows(tcs, tt, tp) && Untouched(g) && gt !! tt && tp.Keys <= tt
    ensures var h := GlobalAfter(g, tcs, imgs); Shows(h, gt + tt, gp + tp) && Untouched(h)
  {
    var h := GlobalAfter(g, tcs, imgs);
    forall n: CleanName
      ensures n in NewNames(g, tcs) <==> n in tt
      ensures HasTc(h, n) <==> n in gt + tt
      ensures n in gt + tt ==> File(n, Map) in h
      ensures File(n, PmMap) in h <==> n in gp + tp
      ensures n in gp + tp ==> h[File(n, PmMap)] == (gp + tp)[n]
      ensures File(n, Deleted) !in h
    {
      assert HasTc(tcs, n) <==> n in tt;
      GlobalAfterAt(g, tcs, imgs, File(n, Testcase));
      GlobalAfterAt(g, tcs, imgs, File(n, Map));
      GlobalAfterAt(g, tcs, imgs, File(n, PmMap));
      GlobalAfterAt(g, tcs, imgs, File(n, Deleted));
    }
  }

  lemma LocalAfterAt(g: Dir, iter: nat, f: File)
    requires f.kind.PmMap? || f.kind.Map? || f.kind.Testcase?
    ensures var l := LocalAfter(g, map[], iter);
      && (f in l <==> f in g && HasTc(g, f.name) && Generation(f.name) == iter)
      && (f in l ==> l[f] == g[f])
  {
    CopiedAt(map[], g, g, Eligible(g, map[], iter), f);
    WithCrashesHas(Copied(map[], g, g, Eligible(g, map[], iter)), g, NewCrashes(map[], g), f);
  }

  /** `update_local` on an empty local store: the part of generation `iter`. */
  lemma LocalShows(g: Dir, iter: nat, gt: set<CleanName>, gp: map<CleanName, Bytes>, lt: set<CleanName>,
                   lp: map<CleanName, Bytes>)
    requires Shows(g, gt, gp) && gp.Keys <= gt
    requires forall n: CleanName :: n in lt <==> n in gt && Generation(n) == iter
    requires forall n: CleanName :: n in lp <==> n in gp && Generation(n) == iter
    requires forall n | n in lp :: lp[n] == gp[n]
    ensures AllMapped(g, map[], iter) && Shows(LocalAfter(g, map[], iter), lt, lp)
  {
    var l := LocalAfter(g, map[], iter);
    forall n: CleanName
      ensures HasTc(l, n) <==> n in lt
      ensures n in lt ==> File(n, Map) in l
      ensures File(n, PmMap) in l <==> n in lp
      ensures n in lp ==> l[File(n, PmMap)] == lp[n]
    {
      LocalAfterAt(g, iter, File(n, Testcase));
      LocalAfterAt(g, iter, File(n, Map));
      LocalAfterAt(g, iter, File(n, PmMap));
    }
  }

  // ----- Runs from an empty store -----

  /** The steps of a run, and the states between them. */
  datatype Walk = Walk(steps: seq<Step>, states: seq<State>) {
    function End(): State
      requires states != []
    {
      states[|states| - 1]
    }
  }

  /** A run from an empty store in which nothing aborts. */
  ghost predicate Reaches(hash: Digest, w: Walk) {
    |w.states| == |w.steps| + 1 && w.states[0] == EMPTY && Trace(hash, w.steps, w.states)
  }

  lemma EndOk(hash: Digest, w: Walk)
    requires Reaches(hash, w)
    ensures StoreOk(w.End())
  {
    var i := |w.steps|;
    if i > 0 {
      assert StepsTo(hash, w.steps, w.states, i - 1);
      TransitionOk(hash, w.states[i - 1], w.steps[i - 1], w.states[i]);
    }
  }

  /** All pm_map contents of the run are among these. */
  ghost predicate Within(w: Walk, cs: set<Bytes>) {
    forall s | s in w.states :: Seen(s) <= cs
  }

  ghost predicate NoLocalMin(steps: seq<Step>) {
    forall step | step in steps :: !step.MinimizedLocal?
  }

  ghost predicate LastIs(w: Walk, step: Step) {
    w.steps != [] && w.steps[|w.steps| - 1] == step && |w.states| == |w.steps| + 1
  }

  /** The state in which the last step began. */
  ghost function LastBefore(w: Walk): State
    requires w.steps != [] && |w.states| == |w.steps| + 1
  {
    w.states[|w.steps| - 1]
  }

  /** The last step loses `c`. */
  ghost predicate Gone(w: Walk, c: Bytes) {
    && w.steps != [] && |w.states| == |w.steps| + 1
    && c in PmContents(LastBefore(w)) && c !in PmContents(w.End())
  }

  /** The last step of a run loses the contents `c`, although the digest tells all contents of the run apart. */
  ghost predicate Loses(hash: Digest, w: Walk, c: Bytes) {
    Reaches(hash, w) && (forall s | s in w.states :: TellsApart(hash, Seen(s))) && Gone(w, c)
  }

  lemma Start(hash: Digest, cs: set<Bytes>) returns (w: Walk)
    ensures Reaches(hash, w) && Within(w, cs) && w == Walk([], [EMPTY])
  {
    w := Walk([], [EMPTY]);
  }

  /** One more step. */
  lemma Take(hash: Digest, w: Walk, step: Step, t: State, cs: set<Bytes>) returns (v: Walk)
    requires Reaches(hash, w) && Transition(hash, w.End(), step, t) && Within(w, cs) && Brings(step) <= cs
    ensures v.steps == w.steps + [step] && LastIs(v, step) && LastBefore(v) == w.End() && v.End() == t
    ensures Reaches(hash, v) && Within(v, cs)
    ensures NoLocalMin(w.steps) && !step.MinimizedLocal? ==> NoLocalMin(v.steps)
  {
    v := Walk(w.steps + [step], w.states + [t]);
    EndOk(hash, w);
    LongerTrace(hash, w.steps, w.states, step, t);
    StepSeen(hash, w.End(), step, t);
    assert w.End() in w.states;
  }

  lemma LongerTrace(hash: Digest, steps: seq<Step>, trace: seq<State>, step: Step, t: State)
    requires Trace(hash, steps, trace) && |trace| == |steps| + 1
    requires StoreOk(trace[|steps|]) && Transition(hash, trace[|steps|], step, t)
    ensures Trace(hash, steps + [step], trace + [t])
  {
    forall i: nat | i + 1 < |trace + [t]|
      ensures StepsTo(hash, steps + [step], trace + [t], i)
    {
      assert i + 1 < |trace| ==> StepsTo(hash, steps, trace, i);
    }
  }

  lemma LosesAtEnd(hash: Digest, w: Walk, c: Bytes, cs: set<Bytes>)
    requires Reaches(hash, w) && Within(w, cs) && TellsApart(hash, cs) && Gone(w, c)
    ensures Loses(hash, w, c)
  {
  }

  lemma TwoApart(hash: Digest, c: Bytes, e: Bytes)
    requires hash(c) != hash(e)
    ensures TellsApart(hash, {c, e})
  {
  }

  // ----- The operations on a run -----

  lemma Collect(hash: Digest, w: Walk, cs: set<Bytes>, p: CleanName, digits: string, q: Found) returns (v: Walk)
    requires Reaches(hash, w) && Within(w, cs)
    requires IsDigits(digits) && Runs(w.End().loc, p) && (q.pmMap.Some? ==> q.pmMap.value in cs)
    ensures Reaches(hash, v) && Within(v, cs) && v.End() == FoundChild(w.End(), p, digits, q)
    ensures NoLocalMin(w.steps) ==> NoLocalMin(v.steps)
  {
    v := Take(hash, w, Collected(p, digits, q), FoundChild(w.End(), p, digits, q), cs);
  }

  /** `update_global`, and the next iteration begins. */
  lemma EndIteration(hash: Digest, w: Walk, cs: set<Bytes>) returns (v: Walk)
    requires Reaches(hash, w) && Within(w, cs)
    ensures Reaches(hash, v) && Within(v, cs)
    ensures var s := w.End(); v.End() == Cleared(s.(gbl := GlobalAfter(s.gbl, s.tcs, s.imgs)))
    ensures LastIs(v, Advanced) && LastBefore(v).tcs == w.End().tcs
    ensures NoLocalMin(w.steps) ==> NoLocalMin(v.steps)
  {
    var s := w.End();
    var t := s.(gbl := GlobalAfter(s.gbl, s.tcs, s.imgs));
    v := Take(hash, w, UpdatedGlobal, t, cs);
    v := Take(hash, v, Advanced, Cleared(t), cs);
  }

  /** The same for stage 1. */
  lemma EndFirst(hash: Digest, w: Walk, cs: set<Bytes>) returns (v: Walk)
    requires Reaches(hash, w) && Within(w, cs) && NoLocalMin(w.steps)
    ensures Reaches(hash, v) && Within(v, cs) && NoLocalMin(v.steps)
    ensures var s := w.End(); v.End() == Cleared(s.(gbl := GlobalAfter(s.gbl, s.firstTcs, s.firstImgs)))
  {
    var s := w.End();
    var t := s.(gbl := GlobalAfter(s.gbl, s.firstTcs, s.firstImgs));
    v := Take(hash, w, UpdatedGlobalFirst, t, cs);
    v := Take(hash, v, Advanced, Cleared(t), cs);
  }

  /** `update_local` on an empty local store. */
  lemma Refresh(hash: Digest, w: Walk, cs: set<Bytes>) returns (v: Walk)
    requires Reaches(hash, w) && Within(w, cs) && NoLocalMin(w.steps)
    requires var s := w.End(); s.iter >= 1 && s.loc == map[] && AllMapped(s.gbl, map[], s.iter)
    ensures Reaches(hash, v) && Within(v, cs) && NoLocalMin(v.steps)
    ensures var s := w.End(); v.End() == s.(loc := LocalAfter(s.gbl, map[], s.iter))
  {
    var s := w.End();
    v := Take(hash, w, UpdatedLocal, s.(loc := LocalAfter(s.gbl, map[], s.iter)), cs);
  }

  /** A local minimisation that drops `n` in favour of `m`. */
  lemma Drop(hash: Digest, w: Walk, cs: set<Bytes>, n: CleanName, m: CleanName, c: Bytes, stamp: Bytes)
    returns (v: Walk)
    requires Reaches(hash, w) && Within(w, cs) && Twins(w.End().loc, w.End().tcs, n, m, c)
    ensures Reaches(hash, v) && Within(v, cs) && Drops(w.End(), v.End(), n)
    ensures v.steps == w.steps + [MinimizedLocal(stamp)] && LastIs(v, MinimizedLocal(stamp))
    ensures LastBefore(v) == w.End()
  {
    var t := DropState(hash, w.End(), n, m, c, stamp);
    v := Take(hash, w, MinimizedLocal(stamp), t, cs);
  }

  lemma DropState(hash: Digest, s: State, n: CleanName, m: CleanName, c: Bytes, stamp: Bytes) returns (t: State)
    requires Twins(s.loc, s.tcs, n, m, c)
    ensures Transition(hash, s, MinimizedLocal(stamp), t) && Drops(s, t, n)
  {
    t := s.(gbl := GlobalPruned(s.gbl, {n}, stamp), tcs := Without(s.tcs, {n}, ALL_FILES));
    TwinsOutcome(hash, s, n, m, c, stamp);
    LocalResult(hash, stamp, s, {m}, t);
    forall x: CleanName
      ensures SamePm(s.gbl, t.gbl, n, x) && SamePm(s.tcs, t.tcs, n, x)
    {
      PrunedAt(s.gbl, n, stamp, x);
      WithoutAt(s.tcs, n, x);
    }
    if HasTc(s.gbl, n) {
      Buried(s.gbl, n, stamp);
    }
  }

  /** What dropping `n` does to pm_maps. */
  ghost predicate Drops(s: State, t: State, n: CleanName) {
    && t.loc == s.loc && t.firstTcs == s.firstTcs && t.imgs == s.imgs && t.iter == s.iter
    && (s.tcs == map[] ==> t.tcs == map[]) && (HasTc(s.gbl, n) ==> File(n, Deleted) in t.gbl)
    && forall x: CleanName :: SamePm(s.gbl, t.gbl, n, x) && SamePm(s.tcs, t.tcs, n, x)
  }

  /** Only the pm_map of `n` goes. */
  predicate SamePm(d: Dir, r: Dir, n: CleanName, x: CleanName) {
    var f := File(x, PmMap);
    (f in r <==> f in d && x != n) && (f in r ==> r[f] == d[f])
  }

  lemma WithoutAt(d: Dir, n: CleanName, x: CleanName)
    ensures SamePm(d, Without(d, {n}, ALL_FILES), n, x)
  {
    BareLists();
  }

  /** The only candidates, with equal pm_maps. */
  ghost predicate Twins(loc: Dir, tcs: Dir, n: CleanName, m: CleanName, c: Bytes) {
    && n != m && Candidates(loc, tcs) == {n, m}
    && MapIs(CandidateMaps(loc, tcs), n, c) && MapIs(CandidateMaps(loc, tcs), m, c)
  }

  lemma TwinsOutcome(hash: Digest, s: State, n: CleanName, m: CleanName, c: Bytes, stamp: Bytes)
    requires Twins(s.loc, s.tcs, n, m, c)
    ensures LocalOutcome(s.gbl, s.loc, s.tcs, hash, stamp, {m}, GlobalPruned(s.gbl, {n}, stamp),
                         Without(s.tcs, {n}, ALL_FILES))
  {
    var maps := CandidateMaps(s.loc, s.tcs);
    assert {n, m} - {m} == {n};
    assert SameMap(maps, hash, m, n);
    assert Represented(maps, hash, {m}, n);
  }

  predicate PmIs(d: Dir, n: CleanName, c: Bytes) {
    File(n, PmMap) in d && d[File(n, PmMap)] == c
  }

  /** The only pm_maps are those of `n` and `m`. */
  ghost predicate Two(d: Dir, n: CleanName, c: Bytes, m: CleanName, e: Bytes) {
    PmIs(d, n, c) && PmIs(d, m, e) && forall x: CleanName | File(x, PmMap) in d :: x == n || x == m
  }

  ghost predicate NoPm(d: Dir) {
    forall x: CleanName :: File(x, PmMap) !in d
  }

  lemma HeldBy(d: Dir, c: Bytes)
    ensures c in Contents(d, PmMap) <==> exists x :: PmIs(d, x, c)
  {
    forall f | f in d && f.kind.PmMap? && d[f] == c
      ensures PmIs(d, f.name, c)
    {
      assert f == File(f.name, PmMap);
    }
    forall x | PmIs(d, x, c)
      ensures c in Contents(d, PmMap)
    {
      assert d[File(x, PmMap)] == c;
    }
  }

  lemma NoContents(d: Dir)
    requires NoPm(d)
    ensures Contents(d, PmMap) == {}
  {
    forall c | c in Contents(d, PmMap)
      ensures false
    {
      HeldBy(d, c);
    }
  }

  lemma TwoContents(d: Dir, n: CleanName, c: Bytes, m: CleanName, e: Bytes)
    requires Two(d, n, c, m, e)
    ensures Contents(d, PmMap) == {c, e}
  {
    forall b: Bytes
      ensures b in Contents(d, PmMap) <==> b == c || b == e
    {
      HeldBy(d, b);
    }
  }

  /** Without `n` only `m` is left... */
  lemma LeftTwo(d: Dir, r: Dir, n: CleanName, c: Bytes, m: CleanName, e: Bytes)
    requires Two(d, n, c, m, e) && n != m && forall x: CleanName :: SamePm(d, r, n, x)
    ensures Two(r, m, e, m, e)
  {
    assert SamePm(d, r, n, m);
    forall x: CleanName | File(x, PmMap) in r
      ensures x == m
    {
      assert SamePm(d, r, n, x);
    }
  }

  /** ...and without `m` nothing. */
  lemma LeftNone(d: Dir, r: Dir, m: CleanName)
    requires (forall x: CleanName | File(x, PmMap) in d :: x == m) && forall x: CleanName :: SamePm(d, r, m, x)
    ensures NoPm(r)
  {
    forall x: CleanName
      ensures File(x, PmMap) !in r
    {
      assert SamePm(d, r, m, x);
    }
  }

  lemma PrunedAt(g: Dir, n: CleanName, stamp: Bytes, x: CleanName)
    ensures SamePm(g, GlobalPruned(g, {n}, stamp), n, x)
  {
    BareLists();
    BuryHas(g, {n}, TC_FILES, Hit(g, {n}, TC_FILES), stamp, File(x, PmMap));
  }

  // ----- The start of a run -----

  const A: CleanName := [Tag(',', "1")]

  /** A crash site of `A`. */
  const X: CleanName := [Tag(',', "1"), Tag('.', "3")]

  /** A found testcase with an execution map and perhaps a pm_map. */
  function Entry(pm: Option<Bytes>): Found {
    Found([], Some([]), pm, [])
  }

  lemma Literals()
    ensures FirstName("1") == A && FirstCrash("1", "3") == X && Generation(A) == 1 && Generation(X) == 1
    ensures IsDigits("1") && IsDigits("2") && IsDigits("3") && IsDigits("7")
  {
    assert IsDigits("1") && IsDigits("2") && IsDigits("3") && IsDigits("7");
    assert FirstCrash("1", "3") == FirstName("1") + [Tag('.', "3")];
  }

  /** Stage 1 has collected `A` and the crash site `X`. */
  ghost predicate Collected1(s: State) {
    && s.gbl == map[] && s.loc == map[] && s.tcs == map[] && s.iter == 0
    && s.firstTcs == AddFound(map[], A, Entry(None)) && File(X, CrashCmpr) in s.firstImgs
  }

  lemma FirstResults(hash: Digest, cs: set<Bytes>) returns (w: Walk)
    ensures Reaches(hash, w) && Within(w, cs) && NoLocalMin(w.steps) && Collected1(w.End())
  {
    Literals();
    w := Start(hash, cs);
    var s := FoundFirst(EMPTY, "1", Entry(None));
    w := Take(hash, w, CollectedFirst("1", Entry(None)), s, cs);
    w := Take(hash, w, CrashedFirst("1", "3", []), CrashedOnce(s, X, []), cs);
  }

  /** The global store has `A` and `X`, and so has the local one from the start of iteration 1 on. */
  ghost predicate Begun(s: State) {
    && s.iter == 1 && s.tcs == map[] && NoPm(s.firstTcs)
    && Shows(s.gbl, {A}, map[]) && Untouched(s.gbl) && File(X, CrashCmpr) in s.gbl
    && Shows(s.loc, {A}, map[]) && File(X, CrashCmpr) in s.loc
  }

  lemma FirstShows(s: State, g: Dir)
    requires Collected1(s) && g == GlobalAfter(map[], s.firstTcs, s.firstImgs)
    ensures Shows(g, {A}, map[]) && Untouched(g) && File(X, CrashCmpr) in g && NoPm(s.firstTcs)
  {
    FoundShows(map[], {}, map[], A, Entry(None));
    OnlyThese({A}, map[]);
    GlobalShows(map[], s.firstTcs, s.firstImgs, {}, map[], {A}, map[]);
    GlobalAfterHas(map[], s.firstTcs, s.firstImgs, File(X, CrashCmpr));
  }

  lemma OnlyThese(tt: set<CleanName>, tp: map<CleanName, Bytes>)
    ensures {} + tt == tt && map[] + tp == tp
  {
  }

  lemma LocalBegins(g: Dir)
    requires Shows(g, {A}, map[]) && File(X, CrashCmpr) in g
    ensures AllMapped(g, map[], 1)
    ensures Shows(LocalAfter(g, map[], 1), {A}, map[]) && File(X, CrashCmpr) in LocalAfter(g, map[], 1)
  {
    Literals();
    LocalShows(g, 1, {A}, map[], {A}, map[]);
    LocalAfterHas(g, map[], 1, File(X, CrashCmpr));
  }

  lemma Begin(hash: Digest, cs: set<Bytes>) returns (w: Walk)
    ensures Reaches(hash, w) && Within(w, cs) && NoLocalMin(w.steps) && Begun(w.End())
  {
    w := FirstResults(hash, cs);
    var s := w.End();
    w := EndFirst(hash, w, cs);
    var t := w.End();
    FirstShows(s, t.gbl);
    LocalBegins(t.gbl);
    w := Refresh(hash, w, cs);
  }

  // ----- Two testcases of generation 2 -----

  /** The names of two testcases collected in iteration 1: from the crash site and from `A`. */
  function FromX(): CleanName {
    ChildOf(X, "7")
  }

  function FromA(): CleanName {
    ChildOf(A, "1")
  }

  lemma SecondGeneration()
    ensures Generation(FromX()) == 2 && Generation(FromA()) == 2 && FromX() != FromA()
    ensures FromX() != A && FromA() != A
  {
    Literals();
    assert Up(FromX()) == X && Up(FromA()) == A && |X| == 2 && |A| == 1;
  }

  /** Iteration 2 begins: `n` has the pm_map `c`, `m` has `e`, in both stores, and `X` is run again. */
  ghost predicate Paired(s: State, n: CleanName, m: CleanName, c: Bytes, e: Bytes) {
    && n == FromX() && n != m && s.iter == 2 && s.tcs == map[] && NoPm(s.firstTcs)
    && Two(s.gbl, n, c, m, e) && HasTc(s.gbl, n) && Mirrored(s.loc, s.gbl) && Runs(s.loc, X)
    && Two(s.loc, n, c, m, e) && NamesOf(s.loc, Testcase) == {n, m}
  }

  /** The results of the two runs of iteration 1. */
  function PairResults(n: CleanName, m: CleanName, c: Bytes, e: Bytes): Dir {
    AddFound(AddFound(map[], n, Entry(Some(c))), m, Entry(Some(e)))
  }

  lemma PairShows(n: CleanName, m: CleanName, c: Bytes, e: Bytes)
    requires n != m
    ensures Shows(PairResults(n, m, c, e), {n, m}, map[n := c, m := e])
  {
    var qx, qa := Entry(Some(c)), Entry(Some(e));
    FoundShows(map[], {}, map[], n, qx);
    FoundShows(AddFound(map[], n, qx), {} + {n}, With(map[], n, qx.pmMap), m, qa);
    assert {} + {n} + {m} == {n, m};
    assert With(With(map[], n, qx.pmMap), m, qa.pmMap) == map[n := c, m := e];
  }

  /** `update_global` of new testcases in a store that has only `A`. */
  lemma MoreGlobal(was: Dir, tcs: Dir, imgs: Dir, tt: set<CleanName>, tp: map<CleanName, Bytes>, g: Dir)
    requires Shows(was, {A}, map[]) && Untouched(was) && File(X, CrashCmpr) in was
    requires Shows(tcs, tt, tp) && A !in tt && tp.Keys <= tt && g == GlobalAfter(was, tcs, imgs)
    ensures Shows(g, {A} + tt, tp) && Untouched(g) && File(X, CrashCmpr) in g
  {
    GlobalShows(was, tcs, imgs, {A}, map[], tt, tp);
    OnlyThese(tt, tp);
    GlobalAfterHas(was, tcs, imgs, File(X, CrashCmpr));
  }

  lemma PairLocal(g: Dir, n: CleanName, m: CleanName, c: Bytes, e: Bytes)
    requires Shows(g, {A} + {n, m}, map[n := c, m := e]) && File(X, CrashCmpr) in g
    requires Generation(n) == 2 && Generation(m) == 2
    ensures AllMapped(g, map[], 2) && Runs(LocalAfter(g, map[], 2), X) && Mirrored(LocalAfter(g, map[], 2), g)
    ensures Shows(LocalAfter(g, map[], 2), {n, m}, map[n := c, m := e])
  {
    Literals();
    LocalShows(g, 2, {A} + {n, m}, map[n := c, m := e], {n, m}, map[n := c, m := e]);
    LocalAfterHas(g, map[], 2, File(X, CrashCmpr));
    UpdateMirrors(g, 2);
  }

  /** Iteration 1 collects the two. */
  lemma CollectPair(hash: Digest, w: Walk, cs: set<Bytes>, c: Bytes, e: Bytes) returns (v: Walk)
    requires Reaches(hash, w) && Within(w, cs) && NoLocalMin(w.steps) && Begun(w.End()) && c in cs && e in cs
    ensures Reaches(hash, v) && Within(v, cs) && NoLocalMin(v.steps)
    ensures v.End() == w.End().(tcs := PairResults(FromX(), FromA(), c, e), imgs := v.End().imgs)
  {
    Literals();
    v := Collect(hash, w, cs, X, "7", Entry(Some(c)));
    v := Collect(hash, v, cs, A, "1", Entry(Some(e)));
  }

  /** Between the two iterations. */
  ghost predicate Between(t: State, tt: set<CleanName>, tp: map<CleanName, Bytes>) {
    && t.iter == 2 && t.tcs == map[] && t.loc == map[] && NoPm(t.firstTcs)
    && Shows(t.gbl, {A} + tt, tp) && Untouched(t.gbl) && File(X, CrashCmpr) in t.gbl
  }

  lemma PairEnds(r: State, s: State, t: State, tt: set<CleanName>, tp: map<CleanName, Bytes>)
    requires Begun(r) && s == r.(tcs := s.tcs, imgs := s.imgs) && Shows(s.tcs, tt, tp) && A !in tt && tp.Keys <= tt
    requires t == Cleared(s.(gbl := GlobalAfter(s.gbl, s.tcs, s.imgs)))
    ensures Between(t, tt, tp)
  {
    MoreGlobal(s.gbl, s.tcs, s.imgs, tt, tp, t.gbl);
  }

  lemma PairBegins(t: State, u: State, n: CleanName, m: CleanName, c: Bytes, e: Bytes)
    requires Between(t, {n, m}, map[n := c, m := e]) && u == t.(loc := LocalAfter(t.gbl, map[], 2))
    requires n == FromX() && n != m && Generation(n) == 2 && Generation(m) == 2
    ensures Paired(u, n, m, c, e)
  {
    PairLocal(t.gbl, n, m, c, e);
    ShowsTwo(u.gbl, {A} + {n, m}, n, m, c, e);
    ShowsTwo(u.loc, {n, m}, n, m, c, e);
  }

  lemma ShowsTwo(d: Dir, tt: set<CleanName>, n: CleanName, m: CleanName, c: Bytes, e: Bytes)
    requires Shows(d, tt, map[n := c, m := e]) && n != m
    ensures Two(d, n, c, m, e) && NamesOf(d, Testcase) == tt
  {
    assert n in map[n := c, m := e] && m in map[n := c, m := e];
  }

  lemma PairHalf(hash: Digest, cs: set<Bytes>, c: Bytes, e: Bytes, tt: set<CleanName>, tp: map<CleanName, Bytes>)
    returns (w: Walk)
    requires c in cs && e in cs && A !in tt && tp.Keys <= tt && Shows(PairResults(FromX(), FromA(), c, e), tt, tp)
    ensures Reaches(hash, w) && Within(w, cs) && NoLocalMin(w.steps) && Between(w.End(), tt, tp)
  {
    w := Begin(hash, cs);
    var r := w.End();
    w := CollectPair(hash, w, cs, c, e);
    var s := w.End();
    w := EndIteration(hash, w, cs);
    PairEnds(r, s, w.End(), tt, tp);
  }

  lemma Pair(hash: Digest, cs: set<Bytes>, c: Bytes, e: Bytes) returns (w: Walk, n: CleanName, m: CleanName)
    requires c in cs && e in cs
    ensures Reaches(hash, w) && Within(w, cs) && NoLocalMin(w.steps) && Paired(w.End(), n, m, c, e)
  {
    n, m := FromX(), FromA();
    SecondGeneration();
    PairShows(n, m, c, e);
    w := PairHalf(hash, cs, c, e, {n, m}, map[n := c, m := e]);
    var t := w.End();
    PairLocal(t.gbl, n, m, c, e);
    w := Refresh(hash, w, cs);
    PairBegins(t, w.End(), n, m, c, e);
  }

  // ----- Losses -----

  lemma PairTwins(loc: Dir, n: CleanName, m: CleanName, c: Bytes)
    requires Two(loc, n, c, m, c) && n != m && NamesOf(loc, Testcase) == {n, m}
    ensures Twins(loc, map[], n, m, c) && Twins(loc, map[], m, n, c)
  {
    var maps := CandidateMaps(loc, map[]);
    assert NamesOf(map[], Testcase) == {};
    assert File(n, PmMap) in MapFiles(loc) && File(m, PmMap) in MapFiles(loc);
    assert MapIs(maps, n, c) && MapIs(maps, m, c);
  }

  /** `n` is collected again, now with the pm_map of `m`. */
  lemma AgainTwins(loc: Dir, tcs: Dir, n: CleanName, m: CleanName, c: Bytes, e: Bytes)
    requires Two(loc, n, c, m, e) && n != m && NamesOf(loc, Testcase) == {n, m}
    requires tcs == AddFound(map[], n, Entry(Some(e)))
    ensures Twins(loc, tcs, n, m, e)
  {
    Again(tcs, n, e);
    assert Candidates(loc, tcs) == {n, m};
    assert File(m, PmMap) in MapFiles(loc) && File(m, PmMap) !in MapFiles(tcs) && File(n, PmMap) in MapFiles(tcs);
  }

  /** The results when only `n` was collected. */
  lemma Again(tcs: Dir, n: CleanName, e: Bytes)
    requires tcs == AddFound(map[], n, Entry(Some(e)))
    ensures NamesOf(tcs, Testcase) == {n} && PmIs(tcs, n, e)
    ensures forall x: CleanName | File(x, PmMap) in tcs :: x == n
    ensures Contents(tcs, PmMap) == {e}
  {
    forall f | f in tcs
      ensures f.name == n
    {
      AddFoundAt(map[], n, Entry(Some(e)), f);
    }
    AddFoundAt(map[], n, Entry(Some(e)), File(n, Testcase));
    assert PmIs(tcs, n, e);
    forall b: Bytes
      ensures b in Contents(tcs, PmMap) <==> b == e
    {
      HeldBy(tcs, b);
    }
  }

  /** The crash site is run again, and gives `n` again. */
  lemma RunAgain(hash: Digest, w: Walk, cs: set<Bytes>, n: CleanName, d: Bytes) returns (v: Walk)
    requires Reaches(hash, w) && Within(w, cs) && d in cs
    requires Runs(w.End().loc, X) && n == FromX() && w.End().tcs == map[]
    ensures Reaches(hash, v) && Within(v, cs) && (NoLocalMin(w.steps) ==> NoLocalMin(v.steps))
    ensures v.End() == w.End().(tcs := AddFound(map[], n, Entry(Some(d))), imgs := v.End().imgs)
  {
    Literals();
    v := Collect(hash, w, cs, X, "7", Entry(Some(d)));
  }

  /** `n` goes, and with it the contents `c`; those of `m` stay. */
  lemma FirstGone(s: State, t: State, n: CleanName, m: CleanName, c: Bytes, e: Bytes)
    requires Two(s.gbl, n, c, m, e) && n != m && c != e && NoPm(s.firstTcs) && Drops(s, t, n)
    requires forall x: CleanName | File(x, PmMap) in s.tcs :: x == n
    ensures c in PmContents(s) && c !in PmContents(t)
  {
    TwoContents(s.gbl, n, c, m, e);
    LeftTwo(s.gbl, t.gbl, n, c, m, e);
    TwoContents(t.gbl, m, e, m, e);
    LeftNone(s.tcs, t.tcs, n);
    NoContents(t.tcs);
    NoContents(t.firstTcs);
  }

  /** A run whose first local minimisation loses contents, although the local pm_maps mirror the global store before it:
      the crash site `X` is run again in iteration 2, and its child gets the pm_map of another testcase. */
  lemma FirstCanLose(hash: Digest, c: Bytes, e: Bytes, stamp: Bytes) returns (w: Walk)
    requires hash(c) != hash(e)
    ensures Loses(hash, w, c) && LastIs(w, MinimizedLocal(stamp)) && NoLocalMin(w.steps[..|w.steps| - 1])
    ensures Mirrored(LastBefore(w).loc, LastBefore(w).gbl)
  {
    TwoApart(hash, c, e);
    w := FirstWalk(hash, {c, e}, c, e, stamp);
    LosesAtEnd(hash, w, c, {c, e});
  }

  lemma FirstWalk(hash: Digest, cs: set<Bytes>, c: Bytes, e: Bytes, stamp: Bytes) returns (w: Walk)
    requires c in cs && e in cs && c != e
    ensures Reaches(hash, w) && Within(w, cs) && Gone(w, c) && LastIs(w, MinimizedLocal(stamp))
    ensures NoLocalMin(w.steps[..|w.steps| - 1]) && Mirrored(LastBefore(w).loc, LastBefore(w).gbl)
  {
    var v, n, m := FirstRuns(hash, cs, c, e);
    var s := v.End();
    AgainTwins(s.loc, s.tcs, n, m, c, e);
    Again(s.tcs, n, e);
    w := Drop(hash, v, cs, n, m, e, stamp);
    assert w.steps[..|w.steps| - 1] == v.steps;
    FirstGone(s, w.End(), n, m, c, e);
  }

  lemma FirstRuns(hash: Digest, cs: set<Bytes>, c: Bytes, e: Bytes) returns (v: Walk, n: CleanName, m: CleanName)
    requires c in cs && e in cs
    ensures Reaches(hash, v) && Within(v, cs) && NoLocalMin(v.steps) && Mirrored(v.End().loc, v.End().gbl)
    ensures n != m && Two(v.End().gbl, n, c, m, e) && NoPm(v.End().firstTcs)
    ensures Two(v.End().loc, n, c, m, e) && NamesOf(v.End().loc, Testcase) == {n, m}
    ensures v.End().tcs == AddFound(map[], n, Entry(Some(e)))
  {
    v, n, m := Pair(hash, cs, c, e);
    v := RunAgain(hash, v, cs, n, e);
  }

  /** A first local minimisation that drops `n` in favour of its twin `m`. */
  lemma DropFirst(hash: Digest, cs: set<Bytes>, c: Bytes, stamp: Bytes)
    returns (w: Walk, n: CleanName, m: CleanName, p: seq<Step>)
    requires c in cs
    ensures Reaches(hash, w) && Within(w, cs) && NoLocalMin(p) && w.steps == p + [MinimizedLocal(stamp)]
    ensures Dropped(w.End(), n, m, c)
  {
    w, n, m := Pair(hash, cs, c, c);
    p := w.steps;
    var r := w.End();
    PairTwins(r.loc, n, m, c);
    w := Drop(hash, w, cs, n, m, c, stamp);
    DroppedAfter(r, w.End(), n, m, c);
  }

  /** Only the local store still has `n`. */
  ghost predicate Dropped(s: State, n: CleanName, m: CleanName, c: Bytes) {
    && n == FromX() && n != m && s.tcs == map[] && NoPm(s.firstTcs) && Runs(s.loc, X)
    && Two(s.gbl, m, c, m, c) && File(n, Deleted) in s.gbl
    && Two(s.loc, n, c, m, c) && NamesOf(s.loc, Testcase) == {n, m}
  }

  lemma DroppedAfter(r: State, s: State, n: CleanName, m: CleanName, c: Bytes)
    requires Paired(r, n, m, c, c) && Drops(r, s, n)
    ensures Dropped(s, n, m, c)
  {
    LeftTwo(r.gbl, s.gbl, n, c, m, c);
  }

  lemma Buried(g: Dir, n: CleanName, stamp: Bytes)
    requires HasTc(g, n)
    ensures File(n, Deleted) in GlobalPruned(g, {n}, stamp)
  {
    BareLists();
    assert HasAny(g, n, TC_FILES);
    BuryHas(g, {n}, TC_FILES, Hit(g, {n}, TC_FILES), stamp, File(n, Deleted));
  }

  /** A run in which two local minimisations without `update_local` in between lose contents: `n` and `m` have the same
      pm_map, the first one keeps `m` and the second one `n`, which only the local store still has. */
  lemma SecondCanLose(hash: Digest, c: Bytes, stamp: Bytes) returns (w: Walk, p: seq<Step>)
    ensures Loses(hash, w, c) && w.steps == p + [MinimizedLocal(stamp), MinimizedLocal(stamp)] && NoLocalMin(p)
  {
    w, p := SecondWalk(hash, {c}, c, stamp);
    LosesAtEnd(hash, w, c, {c});
  }

  lemma SecondWalk(hash: Digest, cs: set<Bytes>, c: Bytes, stamp: Bytes) returns (w: Walk, p: seq<Step>)
    requires c in cs
    ensures Reaches(hash, w) && Within(w, cs) && Gone(w, c)
    ensures w.steps == p + [MinimizedLocal(stamp), MinimizedLocal(stamp)] && NoLocalMin(p)
  {
    var n, m;
    w, n, m, p := DropFirst(hash, cs, c, stamp);
    var s := w.End();
    PairTwins(s.loc, n, m, c);
    w := Drop(hash, w, cs, m, n, c, stamp);
    SecondGone(s, w.End(), n, m, c);
  }

  lemma SecondGone(s: State, t: State, n: CleanName, m: CleanName, c: Bytes)
    requires Dropped(s, n, m, c) && Drops(s, t, m)
    ensures c in PmContents(s) && c !in PmContents(t)
  {
    TwoContents(s.gbl, m, c, m, c);
    LeftNone(s.gbl, t.gbl, m);
    NoContents(t.gbl);
    NoContents(t.tcs);
    NoContents(t.firstTcs);
  }

  /** A run in which the end of an iteration loses contents: `n` was deleted and is collected again by the crash site,
      with new contents that `update_global` does not copy. */
  lemma EndCanLose(hash: Digest, c: Bytes, d: Bytes, stamp: Bytes) returns (w: Walk)
    requires hash(c) != hash(d)
    ensures Loses(hash, w, d) && LastIs(w, Advanced)
  {
    TwoApart(hash, c, d);
    w := EndWalk(hash, {c, d}, c, d, stamp);
    LosesAtEnd(hash, w, d, {c, d});
  }

  lemma EndWalk(hash: Digest, cs: set<Bytes>, c: Bytes, d: Bytes, stamp: Bytes) returns (w: Walk)
    requires c in cs && d in cs && c != d
    ensures Reaches(hash, w) && Within(w, cs) && Gone(w, d) && LastIs(w, Advanced)
  {
    var v, n, m := EndRuns(hash, cs, c, d, stamp);
    var s := v.End();
    EndMaps(hash, v);
    w := EndIteration(hash, v, cs);
    EndGone(s.gbl, s.tcs, s.imgs, n, m, c, d);
    NoContents(s.firstTcs);
  }

  lemma EndMaps(hash: Digest, w: Walk)
    requires Reaches(hash, w)
    ensures MapsOk(w.End().gbl) && MapsOk(w.End().tcs)
  {
    EndOk(hash, w);
    StoreMaps(w.End());
  }

  lemma EndRuns(hash: Digest, cs: set<Bytes>, c: Bytes, d: Bytes, stamp: Bytes)
    returns (v: Walk, n: CleanName, m: CleanName)
    requires c in cs && d in cs
    ensures Reaches(hash, v) && Within(v, cs) && NoPm(v.End().firstTcs)
    ensures Two(v.End().gbl, m, c, m, c) && File(n, Deleted) in v.End().gbl
    ensures v.End().tcs == AddFound(map[], n, Entry(Some(d)))
  {
    var p;
    v, n, m, p := DropFirst(hash, cs, c, stamp);
    v := RunAgain(hash, v, cs, n, d);
  }

  lemma EndGone(g: Dir, tcs: Dir, imgs: Dir, n: CleanName, m: CleanName, c: Bytes, d: Bytes)
    requires MapsOk(g) && MapsOk(tcs) && c != d && Two(g, m, c, m, c) && File(n, Deleted) in g
    requires tcs == AddFound(map[], n, Entry(Some(d)))
    ensures d in Contents(tcs, PmMap) && d !in Contents(GlobalAfter(g, tcs, imgs), PmMap)
  {
    Again(tcs, n, d);
    TwoContents(g, m, c, m, c);
    GlobalAfterPmIff(g, tcs, imgs, d);
  }

  /** A run in which the deduplication of execution maps loses contents: two children of the crash site have the same
      execution map `x` and different pm_maps. */
  lemma DedupCanLose(hash: Digest, x: Bytes, c: Bytes, e: Bytes, stamp: Bytes) returns (w: Walk)
    requires hash(c) != hash(e)
    ensures Loses(hash, w, c) && LastIs(w, DedupedMaps(stamp))
  {
    TwoApart(hash, c, e);
    w := DedupWalk(hash, {c, e}, x, c, e, stamp);
    LosesAtEnd(hash, w, c, {c, e});
  }

  lemma DedupWalk(hash: Digest, cs: set<Bytes>, x: Bytes, c: Bytes, e: Bytes, stamp: Bytes) returns (w: Walk)
    requires c in cs && e in cs && c != e
    ensures Reaches(hash, w) && Within(w, cs) && Gone(w, c) && LastIs(w, DedupedMaps(stamp))
  {
    var v := TwiceWalk(hash, cs, x, c, e);
    var s := v.End();
    var order, r := LosingResult(s.tcs, hash, x, c, e, stamp);
    var t := s.(tcs := r);
    DedupResult(hash, stamp, s, order, t);
    w := Take(hash, v, DedupedMaps(stamp), t, cs);
  }

  lemma LosingResult(d: Dir, hash: Digest, x: Bytes, c: Bytes, e: Bytes, stamp: Bytes)
    returns (order: seq<File>, r: Dir)
    requires c != e && d == Twice(x, c, e)
    ensures DedupEngine.Outcome(d, Map, hash, stamp, order, r) && c in Contents(d, PmMap) && c !in Contents(r, PmMap)
  {
    order := LosingOrder(d, hash, x, c, e, stamp);
    r := DedupEngine.DedupedBy(d, Map, order, hash, stamp);
  }

  lemma TwiceWalk(hash: Digest, cs: set<Bytes>, x: Bytes, c: Bytes, e: Bytes) returns (w: Walk)
    requires c in cs && e in cs
    ensures Reaches(hash, w) && Within(w, cs) && w.End().tcs == Twice(x, c, e)
    ensures Contents(w.End().gbl, PmMap) == {} && Contents(w.End().firstTcs, PmMap) == {}
  {
    Literals();
    w := Begin(hash, cs);
    var s := w.End();
    NoContents(s.firstTcs);
    NoContents(s.gbl);
    w := Collect(hash, w, cs, X, "1", Found([], Some(x), Some(c), []));
    w := Collect(hash, w, cs, X, "2", Found([], Some(x), Some(e), []));
  }

  function Twice(x: Bytes, c: Bytes, e: Bytes): Dir {
    TwiceFound(ChildOf(X, "1"), ChildOf(X, "2"), x, c, e)
  }

  function TwiceFound(n: CleanName, m: CleanName, x: Bytes, c: Bytes, e: Bytes): Dir {
    AddFound(AddFound(map[], n, Found([], Some(x), Some(c), [])), m, Found([], Some(x), Some(e), []))
  }

  lemma LosingOrder(d: Dir, hash: Digest, x: Bytes, c: Bytes, e: Bytes, stamp: Bytes) returns (order: seq<File>)
    requires c != e && d == Twice(x, c, e)
    ensures c in Contents(d, PmMap) && Lists(order, d.Keys) && DedupEngine.LosesPm(d, order, hash, stamp, c)
  {
    Literals();
    var n, m := ChildOf(X, "1"), ChildOf(X, "2");
    assert n[2] != m[2];
    MayLoseTwice(d, hash, n, m, x, c, e);
    DedupEngine.LosesPmIff(d, hash, stamp, c);
    order :| Lists(order, d.Keys) && DedupEngine.LosesPm(d, order, hash, stamp, c);
  }

  lemma MayLoseTwice(d: Dir, hash: Digest, n: CleanName, m: CleanName, x: Bytes, c: Bytes, e: Bytes)
    requires c != e && n != m && Generation(m) == Generation(n) && d == TwiceFound(n, m, x, c, e)
    ensures c in Contents(d, PmMap) && DedupEngine.MayLosePm(d, Map, hash, c)
  {
    assert d[File(n, PmMap)] == c;
    forall y: CleanName | DedupEngine.HoldsPm(d, y, c)
      ensures exists z :: DedupEngine.Displaces(d, Map, hash, c, y, z)
    {
      assert y == n;
      assert DedupEngine.Displaces(d, Map, hash, c, n, m);
    }
  }
}
