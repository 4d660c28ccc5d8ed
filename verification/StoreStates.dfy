/** The directories of the corpus store (src/pmfuzz/stages/dedup.py) as one state, what its operations do to the state,
    and what holds along every run. */
module StoreStates {
  import opened Files
  import opened Grouping
  import opened Lineage
  import opened Minimisation
  import opened Names
  import opened Text
  import DedupEngine

  /** `nh.get_parent_img(..., get='exists', isparent=True)`; None is an abort. */
  function GetParentImg(g: Dir, n: CleanName): Option<File> {
    var crash, pool := File(n, CrashCmpr), File(n, PoolCmpr);
    if crash in g && pool in g then None
    else if crash in g then Some(crash)
    else if pool in g then Some(pool)
    else None
  }

  /** It is found exactly if `n` has one of the two archives and not both. */
  lemma GetParentImgIff(g: Dir, n: CleanName)
    ensures GetParentImg(g, n).Some? <==> (File(n, CrashCmpr) in g <==> File(n, PoolCmpr) !in g)
    ensures forall f :: GetParentImg(g, n) == Some(f) ==> f in g && (f == File(n, CrashCmpr) || f == File(n, PoolCmpr))
  {
  }

  /** The files a run leaves in its queue for one testcase. */
  datatype Found = Found(testcase: Bytes, map_: Option<Bytes>, pmMap: Option<Bytes>, pool: Bytes)

  function AddOpt(d: Dir, f: File, c: Option<Bytes>): Dir {
    if c.Some? then d[f := c.value] else d
  }

  /** A testcase with the maps that were found. */
  function AddFound(d: Dir, n: CleanName, q: Found): Dir {
    AddOpt(AddOpt(d[File(n, Testcase) := q.testcase], File(n, Map), q.map_), File(n, PmMap), q.pmMap)
  }

  lemma AddFoundHas(d: Dir, n: CleanName, q: Found, f: File)
    ensures f in AddFound(d, n, q) ==> f in d || (f.name == n && f.kind in {Testcase, Map, PmMap})
    ensures f in d || f == File(n, Testcase) ==> f in AddFound(d, n, q)
  {
  }

  /** A newly collected testcase keeps what holds of a stage, given the image of its parent. */
  lemma CollectOk(g: Dir, tcs: Dir, imgs: Dir, iter: nat, n: CleanName, q: Found)
    requires StageOk(g, tcs, imgs, iter) && Born(g, n) && Generation(n) <= iter + 1
    ensures StageOk(g, AddFound(tcs, n, q), imgs[File(n, PoolCmpr) := q.pool], iter)
  {
    var t := AddFound(tcs, n, q);
    forall f | f in t
      ensures f in tcs || (f.name == n && f.kind in {Testcase, Map, PmMap})
      ensures HasTc(t, n) && (HasTc(tcs, f.name) ==> HasTc(t, f.name))
    {
      AddFoundHas(tcs, n, q, f);
      AddFoundHas(tcs, n, q, File(n, Testcase));
      AddFoundHas(tcs, n, q, File(f.name, Testcase));
    }
  }

  lemma CrashOk(g: Dir, tcs: Dir, imgs: Dir, iter: nat, n: CleanName, archive: Bytes)
    requires StageOk(g, tcs, imgs, iter) && CsShape(n) && Generation(n) <= ImageBound(iter)
    ensures StageOk(g, tcs, imgs[File(n, CrashCmpr) := archive], iter)
  {
  }

  lemma FewerCrashesOk(g: Dir, tcs: Dir, imgs: Dir, iter: nat, dropped: set<CleanName>)
    requires StageOk(g, tcs, imgs, iter)
    ensures StageOk(g, tcs, Without(imgs, dropped, [CrashCmpr]), iter)
  {
  }

  /** No testcase and crash site of an iteration have the same name: their timers and pid files never meet. */
  lemma NamesApart(gbl: Dir, loc: Dir, iter: nat, m: CleanName, n: CleanName)
    requires GlobalOk(gbl, iter) && LocalOk(gbl, loc, iter) && HasTc(loc, m) && File(n, CrashCmpr) in loc
    ensures Print(m) != Print(n)
  {
    ParsePrint(m);
    ParsePrint(n);
    OneImage(gbl, ImageBound(iter), m);
  }

  /** A name of stage 1. */
  function FirstName(digits: string): (n: CleanName)
    requires IsDigits(digits)
    ensures TcShape(n) && |n| == 1 && Generation(n) == 1
  {
    [Tag(',', digits)]
  }

  function FirstCrash(tcDigits: string, idDigits: string): (n: CleanName)
    requires IsDigits(tcDigits) && IsDigits(idDigits)
    ensures CsShape(n) && Generation(n) == 1
  {
    var n := FirstName(tcDigits) + [Tag('.', idDigits)];
    assert n[..1] == FirstName(tcDigits);
    n
  }

  /** A testcase collected from the run of `p`. */
  function ChildOf(p: CleanName, digits: string): (n: CleanName)
    requires IsDigits(digits)
    ensures TcShape(n) && |n| > 1 && Up(n) == p && Generation(n) == Generation(p) + 1
  {
    ChildFile(p, digits, "");
    Child(p, digits)
  }

  /** A crash image of a child of `p`. */
  function CrashBy(p: CleanName, tcDigits: string, idDigits: string): (n: CleanName)
    requires IsDigits(tcDigits) && IsDigits(idDigits)
    ensures CsShape(n) && Generation(n) == Generation(p)
  {
    CrashLineage(p, tcDigits, idDigits);
    CrashOf(p, tcDigits, idDigits)
  }

  /** The names as strings. */
  lemma CollectedNames(p: CleanName, digits: string, idDigits: string)
    requires IsDigits(digits) && IsDigits(idDigits)
    ensures FileName(ChildOf(p, digits), Testcase) == Print(p) + "," + ("id=" + digits + ".testcase")
    ensures FileName(CrashBy(p, digits, idDigits), Crash)
         == Print(p) + "." + ("id=" + digits) + ".id=" + idDigits + ".crash_site"
  {
    ChildFile(p, digits, "");
    CrashFile(p, digits, idDigits);
  }

  lemma FirstNames(digits: string, idDigits: string)
    requires IsDigits(digits) && IsDigits(idDigits)
    ensures Print(FirstName(digits)) == "id=" + digits
    ensures Print(FirstCrash(digits, idDigits)) == "id=" + digits + "." + ("id=" + idDigits)
  {
    AppendTag(FirstName(digits), Tag('.', idDigits));
  }

  lemma PrunedOk(g: Dir, dropped: set<CleanName>, stamp: Bytes, iter: nat)
    requires GlobalOk(g, iter)
    ensures GlobalOk(GlobalPruned(g, dropped, stamp), iter) && Keeps(g, GlobalPruned(g, dropped, stamp))
  {
    BareLists();
    BuryOk(g, dropped, TC_FILES, Hit(g, dropped, TC_FILES), stamp, iter);
  }

  lemma MinimisedOk(g: Dir, kept: set<CleanName>, stamp: Bytes, iter: nat)
    requires GlobalOk(g, iter)
    ensures GlobalOk(GlobalMinimised(g, kept, stamp), iter) && Keeps(g, GlobalMinimised(g, kept, stamp))
  {
    BareLists();
    var dropped := NamesOf(g, Testcase) - kept;
    BuryOk(g, dropped, BARE_FILES, dropped, stamp, iter);
  }

  // ----- States -----

  /** The global store; the local store and results of the current iteration; the results of stage 1.
      `iter` is 0 until the first iteration of stage 2. */
  datatype State = State(gbl: Dir, loc: Dir, tcs: Dir, imgs: Dir, firstTcs: Dir, firstImgs: Dir, iter: nat)

  /** What holds of a store in every reachable state. */
  ghost predicate StoreOk(s: State) {
    && GlobalOk(s.gbl, s.iter) && LocalOk(s.gbl, s.loc, s.iter)
    && StageOk(s.gbl, s.tcs, s.imgs, s.iter) && StageOk(s.gbl, s.firstTcs, s.firstImgs, 0)
  }

  /** All parts survive a change of the global store that keeps archives and placeholders. */
  lemma StillOk(s: State, h: Dir)
    requires StoreOk(s) && GlobalOk(h, s.iter) && Keeps(s.gbl, h)
    ensures StoreOk(s.(gbl := h))
  {
    KeepsLocal(s.gbl, h, s.loc, s.iter);
    KeepsStage(s.gbl, h, s.tcs, s.imgs, s.iter);
    KeepsStage(s.gbl, h, s.firstTcs, s.firstImgs, 0);
  }

  lemma UpdatedFirstOk(s: State, h: Dir)
    requires StoreOk(s) && h == GlobalAfter(s.gbl, s.firstTcs, s.firstImgs)
    ensures StoreOk(s.(gbl := h)) && Keeps(s.gbl, h)
  {
    GlobalAfterOk(s.gbl, s.firstTcs, s.firstImgs, 0, s.iter);
    GlobalAfterKeeps(s.gbl, s.firstTcs, s.firstImgs);
    StillOk(s, h);
  }

  lemma UpdatedOk(s: State, h: Dir)
    requires StoreOk(s) && h == GlobalAfter(s.gbl, s.tcs, s.imgs)
    ensures StoreOk(s.(gbl := h)) && Keeps(s.gbl, h)
  {
    GlobalAfterOk(s.gbl, s.tcs, s.imgs, s.iter, s.iter);
    GlobalAfterKeeps(s.gbl, s.tcs, s.imgs);
    StillOk(s, h);
  }

  /** Every testcase of the store has its image, so no copy of an image can fail. */
  lemma HasImages(s: State)
    requires StoreOk(s)
    ensures forall n: CleanName :: HasTc(s.gbl, n) ==> File(n, PoolCmpr) in s.gbl
    ensures forall n: CleanName :: HasTc(s.tcs, n) ==> File(n, PoolCmpr) in s.imgs
    ensures forall n: CleanName :: HasTc(s.firstTcs, n) ==> File(n, PoolCmpr) in s.firstImgs
  {
    forall n: CleanName
      ensures HasTc(s.gbl, n) ==> File(n, PoolCmpr) in s.gbl
      ensures HasTc(s.tcs, n) ==> File(n, PoolCmpr) in s.imgs
      ensures HasTc(s.firstTcs, n) ==> File(n, PoolCmpr) in s.firstImgs
    {
      assert HasTc(s.gbl, n) ==> File(n, Testcase) in s.gbl;
    }
  }

  lemma OnlyMapsMissing(gbl: Dir, loc: Dir, iter: nat)
    requires TestcasesOk(gbl)
    ensures AllComplete(gbl, loc, iter) <==> AllMapped(gbl, loc, iter)
  {
    forall n | n in Eligible(gbl, loc, iter)
      ensures File(n, PoolCmpr) in gbl
    {
      assert File(n, Testcase) in gbl;
    }
  }

  lemma LocalUpdatedOk(s: State, l: Dir)
    requires StoreOk(s) && s.iter >= 1 && l == LocalAfter(s.gbl, s.loc, s.iter)
    ensures StoreOk(s.(loc := l))
  {
    LocalAfterOk(s.gbl, s.loc, s.iter);
  }

  lemma MinimisedGlobalOk(s: State, kept: set<CleanName>, stamp: Bytes, h: Dir)
    requires StoreOk(s) && h == GlobalMinimised(s.gbl, kept, stamp)
    ensures StoreOk(s.(gbl := h)) && Keeps(s.gbl, h)
  {
    MinimisedOk(s.gbl, kept, stamp, s.iter);
    StillOk(s, h);
  }

  lemma MinimisedLocalOk(s: State, dropped: set<CleanName>, stamp: Bytes, h: Dir, t: Dir)
    requires StoreOk(s) && h == GlobalPruned(s.gbl, dropped, stamp) && t == Without(s.tcs, dropped, ALL_FILES)
    ensures StoreOk(s.(gbl := h, tcs := t)) && Keeps(s.gbl, h)
  {
    PrunedOk(s.gbl, dropped, stamp, s.iter);
    StillOk(s, h);
    FewerResultsOk(s.(gbl := h), dropped);
  }

  lemma FewerResultsOk(s: State, dropped: set<CleanName>)
    requires StoreOk(s)
    ensures StoreOk(s.(tcs := Without(s.tcs, dropped, ALL_FILES)))
  {
    WithoutStageOk(s.gbl, s.tcs, s.imgs, s.iter, dropped, map[]);
    NoneAdded(Without(s.tcs, dropped, ALL_FILES));
  }

  lemma NoneAdded(d: Dir)
    ensures d + map[] == d
  {
  }

  lemma DedupedMapsOk(s: State, order: seq<File>, hash: Digest, stamp: Bytes, t: Dir)
    requires StoreOk(s) && DedupEngine.Outcome(s.tcs, Map, hash, stamp, order, t)
    ensures StoreOk(s.(tcs := t))
  {
    var losers := DedupEngine.LosersBy(s.tcs, Map, order, hash);
    WithoutStageOk(s.gbl, s.tcs, s.imgs, s.iter, losers, Tombstones(losers, stamp));
  }

  lemma CollectedFirstOk(s: State, n: CleanName, q: Found)
    requires StoreOk(s) && Born(s.gbl, n) && Generation(n) == 1
    ensures StoreOk(s.(firstTcs := AddFound(s.firstTcs, n, q), firstImgs := s.firstImgs[File(n, PoolCmpr) := q.pool]))
  {
    CollectOk(s.gbl, s.firstTcs, s.firstImgs, 0, n, q);
  }

  /** The state after `clear`, with the directories of the next iteration. */
  function Cleared(s: State): State {
    s.(loc := map[], tcs := map[], imgs := map[], iter := s.iter + 1)
  }

  lemma AdvancedOk(s: State)
    requires StoreOk(s)
    ensures StoreOk(Cleared(s))
  {
  }

  /** What an iteration runs: the local testcases and crash sites. */
  predicate Runs(loc: Dir, p: CleanName) {
    HasTc(loc, p) || File(p, CrashCmpr) in loc
  }

  /** The image of a run is in the global store, and is the only one. */
  lemma RunImage(s: State, p: CleanName)
    requires StoreOk(s) && Runs(s.loc, p)
    ensures HasTc(s.loc, p) ==> File(p, PoolCmpr) in s.gbl && Generation(p) == s.iter
    ensures GetParentImg(s.gbl, p).Some? && HasImage(s.gbl, p) && Generation(p) <= s.iter
  {
    OneImage(s.gbl, ImageBound(s.iter), p);
    assert HasTc(s.loc, p) ==> File(p, Testcase) in s.loc;
  }

  lemma ChildCollectedOk(s: State, p: CleanName, digits: string, q: Found)
    requires StoreOk(s) && Runs(s.loc, p) && IsDigits(digits)
    ensures var n := ChildOf(p, digits);
      StoreOk(s.(tcs := AddFound(s.tcs, n, q), imgs := s.imgs[File(n, PoolCmpr) := q.pool]))
  {
    RunImage(s, p);
    CollectOk(s.gbl, s.tcs, s.imgs, s.iter, ChildOf(p, digits), q);
  }

  lemma DeadForever(g: Dir, h: Dir, iter: nat)
    requires Keeps(g, h) && GlobalOk(h, iter)
    ensures forall f | f in g && f.kind.Deleted? :: f in h && Dead(h, f.name)
  {
  }

  /** The operations of a store. */
  datatype Step =
    | CollectedFirst(digits: string, q: Found)
    | CrashedFirst(tcDigits: string, idDigits: string, archive: Bytes)
    | Collected(p: CleanName, digits: string, q: Found)
    | Crashed(p: CleanName, tcDigits: string, idDigits: string, archive: Bytes)
    | UpdatedGlobalFirst | UpdatedGlobal | UpdatedLocal | Advanced
    | DedupedMaps(stamp: Bytes) | DedupedCrashes(db: map<CleanName, string>)
    | MinimizedGlobal(stamp: Bytes) | MinimizedLocal(stamp: Bytes)

  /** No testcase is run in two iterations. */
  lemma RunOnce(g: Dir, loc: Dir, j: nat, g': Dir, loc': Dir, k: nat, n: CleanName)
    requires LocalOk(g, loc, j) && LocalOk(g', loc', k) && HasTc(loc, n) && HasTc(loc', n)
    ensures j == k
  {
  }
}
