/** What the operations of the corpus store (src/pmfuzz/stages/dedup.py) do to each single file. */
module StoreEffects {
  import opened Files
  import opened Grouping
  import opened Lineage
  import opened Listing
  import opened Minimisation
  import opened Names
  import opened StoreStates
  import DedupEngine

  /** File `f` is in `h` as it is in `d`, or in neither. */
  predicate AsIn(h: Dir, d: Dir, f: File) {
    (f in h <==> f in d) && (f in h ==> h[f] == d[f])
  }

  // ----- update_global -----

  /** A testcase of a stage that the global store neither has nor has deleted. */
  predicate Arrives(g: Dir, tcs: Dir, n: CleanName) {
    File(n, Testcase) in tcs && File(n, Testcase) !in g && File(n, Deleted) !in g
  }

  predicate GlobalisedFile(g: Dir, tcs: Dir, imgs: Dir, h: Dir, f: File) {
    var arrives := Arrives(g, tcs, f.name);
    if arrives && (f.kind.Testcase? || f.kind.Map? || f.kind.PmMap?) && f in tcs then AsIn(h, tcs, f)
    else if arrives && f.kind.PoolCmpr? && f in imgs then AsIn(h, imgs, f)
    else if f.kind.CrashCmpr? && f in imgs && f !in g then AsIn(h, imgs, f)
    else AsIn(h, g, f)
  }

  /** Testcases that arrive come with their maps and image, new crash sites too; nothing else changes. */
  ghost predicate Globalised(g: Dir, tcs: Dir, imgs: Dir, h: Dir) {
    forall f: File :: GlobalisedFile(g, tcs, imgs, h, f)
  }

  lemma GlobalAfterIs(g: Dir, tcs: Dir, imgs: Dir)
    ensures Globalised(g, tcs, imgs, GlobalAfter(g, tcs, imgs))
  {
    forall f: File
      ensures GlobalisedFile(g, tcs, imgs, GlobalAfter(g, tcs, imgs), f)
    {
      CopiedAt(g, tcs, imgs, NewNames(g, tcs), f);
      WithCrashesHas(Copied(g, tcs, imgs, NewNames(g, tcs)), imgs, NewCrashes(g, imgs), f);
    }
  }

  // ----- update_local -----

  /** A testcase of the global store of generation `iter` that is in the local store neither under its name nor
      minimised. */
  predicate Joins(g: Dir, loc: Dir, iter: nat, n: CleanName) {
    && File(n, Testcase) in g && |LineageOf(n)| == iter
    && File(n, Testcase) !in loc && File(n, MinTestcase) !in loc
  }

  predicate LocalisedFile(g: Dir, loc: Dir, iter: nat, h: Dir, f: File) {
    var joins := Joins(g, loc, iter, f.name);
    if joins && (f.kind.Testcase? || f.kind.Map? || f.kind.PmMap? || f.kind.PoolCmpr?) && f in g then AsIn(h, g, f)
    else if f.kind.CrashCmpr? && f in g && f !in loc then AsIn(h, g, f)
    else AsIn(h, loc, f)
  }

  /** Testcases that join come with image, map and pm_map as in the global store, and so do new crash sites; what was
      there is unchanged. */
  ghost predicate Localised(g: Dir, loc: Dir, iter: nat, h: Dir) {
    forall f: File :: LocalisedFile(g, loc, iter, h, f)
  }

  /** No testcase that joins lacks its image or its map. */
  ghost predicate CanJoin(g: Dir, loc: Dir, iter: nat) {
    forall n: CleanName | Joins(g, loc, iter, n) :: File(n, PoolCmpr) in g && File(n, Map) in g
  }

  lemma JoinsIff(g: Dir, loc: Dir, iter: nat)
    ensures forall n: CleanName :: n in Eligible(g, loc, iter) <==> Joins(g, loc, iter, n)
    ensures AllComplete(g, loc, iter) <==> CanJoin(g, loc, iter)
  {
  }

  lemma LocalAfterIs(g: Dir, loc: Dir, iter: nat)
    ensures Localised(g, loc, iter, LocalAfter(g, loc, iter))
  {
    JoinsIff(g, loc, iter);
    forall f: File
      ensures LocalisedFile(g, loc, iter, LocalAfter(g, loc, iter), f)
    {
      CopiedAt(loc, g, g, Eligible(g, loc, iter), f);
      WithCrashesHas(Copied(loc, g, g, Eligible(g, loc, iter)), g, NewCrashes(loc, g), f);
    }
  }

  /** After `update_local` a name has a testcase exactly if it had one, or the global store has one of generation `iter`
      and no minimised one was there. */
  lemma LocalTestcasesAfter(g: Dir, loc: Dir, iter: nat, h: Dir, n: CleanName)
    requires Localised(g, loc, iter, h)
    ensures HasTc(h, n) <==>
              HasTc(loc, n) || (HasTc(g, n) && |LineageOf(n)| == iter && File(n, MinTestcase) !in loc)
    ensures HasTc(h, n) && !HasTc(loc, n) ==>
              forall k | k in {Testcase, PoolCmpr, Map, PmMap} && File(n, k) in g ::
                File(n, k) in h && h[File(n, k)] == g[File(n, k)]
    ensures !HasTc(h, n) || HasTc(loc, n) ==> forall f | f in loc && f.name == n :: f in h && h[f] == loc[f]
  {
    forall k: Kind
      ensures LocalisedFile(g, loc, iter, h, File(n, k))
    {
    }
    forall f | f in loc && f.name == n && (!HasTc(h, n) || HasTc(loc, n))
      ensures f in h && h[f] == loc[f]
    {
      assert LocalisedFile(g, loc, iter, h, f);
    }
  }

  // ----- minimize_corpus_gbl and minimize_corpus_lcl -----

  /** A dropped testcase leaves its archives and a placeholder, and no other file. */
  predicate MinimisedFile(g: Dir, kept: set<CleanName>, stamp: Bytes, h: Dir, f: File) {
    if File(f.name, Testcase) in g && f.name !in kept && !f.kind.PoolCmpr? && !f.kind.CrashCmpr? then
      (f in h <==> f.kind.Deleted?) && (f in h ==> h[f] == stamp)
    else AsIn(h, g, f)
  }

  ghost predicate Minimised(g: Dir, kept: set<CleanName>, stamp: Bytes, h: Dir) {
    forall f: File :: MinimisedFile(g, kept, stamp, h, f)
  }

  lemma GlobalMinimisedIs(g: Dir, kept: set<CleanName>, stamp: Bytes)
    ensures Minimised(g, kept, stamp, GlobalMinimised(g, kept, stamp))
  {
    var dropped := NamesOf(g, Testcase) - kept;
    forall f: File
      ensures MinimisedFile(g, kept, stamp, GlobalMinimised(g, kept, stamp), f)
    {
      BareKinds(f.kind);
      BuryHas(g, dropped, BARE_FILES, dropped, stamp, f);
    }
  }

  lemma BareKinds(k: Kind)
    ensures k in BARE_FILES <==> !k.PoolCmpr? && !k.CrashCmpr? && !k.Deleted?
    ensures k in TC_FILES <==> k.Testcase? || k.MinTestcase? || k.PmMap? || k.Map?
    ensures k in ALL_FILES <==> !k.Deleted?
  {
    assert BARE_FILES[1] == MinTestcase && BARE_FILES[4] == Crash && BARE_FILES[5] == Pool;
    assert TC_FILES[1] == MinTestcase;
    BareLists();
  }

  /** A candidate of the local minimisation that is not kept. */
  predicate Dropped(loc: Dir, tcs: Dir, kept: set<CleanName>, n: CleanName) {
    (File(n, Testcase) in loc || File(n, Testcase) in tcs) && n !in kept
  }

  /** It loses its testcases and maps in the global store, where a placeholder is left if there was any of them. */
  predicate PrunedFile(g: Dir, loc: Dir, tcs: Dir, kept: set<CleanName>, stamp: Bytes, h: Dir, f: File) {
    var n := f.name;
    if !Dropped(loc, tcs, kept, n) then AsIn(h, g, f)
    else if f.kind.Testcase? || f.kind.MinTestcase? || f.kind.Map? || f.kind.PmMap? then f !in h
    else if f.kind.Deleted?
      && (File(n, Testcase) in g || File(n, MinTestcase) in g || File(n, Map) in g || File(n, PmMap) in g)
    then f in h && h[f] == stamp
    else AsIn(h, g, f)
  }

  /** It loses all its files among the results. */
  predicate ForgottenFile(loc: Dir, tcs: Dir, kept: set<CleanName>, t: Dir, f: File) {
    if Dropped(loc, tcs, kept, f.name) && !f.kind.Deleted? then f !in t else AsIn(t, tcs, f)
  }

  ghost predicate Pruned(g: Dir, loc: Dir, tcs: Dir, kept: set<CleanName>, stamp: Bytes, h: Dir, t: Dir) {
    && (forall f: File :: PrunedFile(g, loc, tcs, kept, stamp, h, f))
    && (forall f: File :: ForgottenFile(loc, tcs, kept, t, f))
  }

  lemma HitIff(g: Dir, names: set<CleanName>, n: CleanName)
    ensures n in Hit(g, names, TC_FILES) <==>
      n in names && (File(n, Testcase) in g || File(n, MinTestcase) in g || File(n, Map) in g || File(n, PmMap) in g)
  {
    forall k: Kind
      ensures k in TC_FILES <==> k.Testcase? || k.MinTestcase? || k.PmMap? || k.Map?
    {
      BareKinds(k);
    }
    assert forall k: Kind | k in TC_FILES && File(n, k) in g && n in names :: HasAny(g, n, TC_FILES);
  }

  lemma PrunedIs(g: Dir, loc: Dir, tcs: Dir, kept: set<CleanName>, stamp: Bytes)
    ensures var dropped := Candidates(loc, tcs) - kept;
      Pruned(g, loc, tcs, kept, stamp, GlobalPruned(g, dropped, stamp), Without(tcs, dropped, ALL_FILES))
  {
    var dropped := Candidates(loc, tcs) - kept;
    var h, t := GlobalPruned(g, dropped, stamp), Without(tcs, dropped, ALL_FILES);
    forall f: File
      ensures PrunedFile(g, loc, tcs, kept, stamp, h, f) && ForgottenFile(loc, tcs, kept, t, f)
    {
      BareKinds(f.kind);
      HitIff(g, dropped, f.name);
      BuryHas(g, dropped, TC_FILES, Hit(g, dropped, TC_FILES), stamp, f);
    }
  }

  /** The maps that the minimisations compare: those of the testcases of the global store; and all local ones, except
      that results take precedence. */
  lemma MapsCompared(g: Dir, loc: Dir, tcs: Dir, n: CleanName)
    ensures File(n, PmMap) in GlobalMaps(g) <==> File(n, Testcase) in g && File(n, PmMap) in g
    ensures File(n, PmMap) in GlobalMaps(g) ==> GlobalMaps(g)[File(n, PmMap)] == g[File(n, PmMap)]
    ensures AsIn(CandidateMaps(loc, tcs), if File(n, PmMap) in tcs then tcs else loc, File(n, PmMap))
    ensures n in Candidates(loc, tcs) <==> File(n, Testcase) in loc || File(n, Testcase) in tcs
  {
  }

  // ----- Deduplication -----

  predicate DeduplicatedFile(d: Dir, losers: set<CleanName>, stamp: Bytes, r: Dir, f: File) {
    if f.name in losers then (f in r <==> f.kind.Deleted?) && (f in r ==> r[f] == stamp) else AsIn(r, d, f)
  }

  /** A name that loses has a placeholder left and nothing else; other names are unchanged. */
  ghost predicate Deduplicated(d: Dir, losers: set<CleanName>, stamp: Bytes, r: Dir) {
    forall f: File :: DeduplicatedFile(d, losers, stamp, r, f)
  }

  lemma DedupedIs(d: Dir, k: Kind, order: seq<File>, hash: Digest, stamp: Bytes)
    requires Lists(order, d.Keys)
    ensures var losers := DedupEngine.LosersBy(d, k, order, hash);
      DedupEngine.Losers(d, k, hash, losers)
      && Deduplicated(d, losers, stamp, DedupEngine.DedupedBy(d, k, order, hash, stamp))
  {
    var losers := DedupEngine.LosersBy(d, k, order, hash);
    DedupEngine.OrderLosers(d, k, order, hash);
    forall f: File
      ensures DeduplicatedFile(d, losers, stamp, DedupEngine.DedupedBy(d, k, order, hash, stamp), f)
    {
      BareKinds(f.kind);
      BuryHas(d, losers, ALL_FILES, losers, stamp, f);
    }
  }

  // ----- Collecting -----

  /** The testcase and the maps that were found are stored under `n`; nothing else changes. */
  ghost predicate Stored(d: Dir, n: CleanName, q: Found, h: Dir) {
    && File(n, Testcase) in h && h[File(n, Testcase)] == q.testcase
    && (q.map_.Some? ==> File(n, Map) in h && h[File(n, Map)] == q.map_.value)
    && (q.map_.None? ==> AsIn(h, d, File(n, Map)))
    && (q.pmMap.Some? ==> File(n, PmMap) in h && h[File(n, PmMap)] == q.pmMap.value)
    && (q.pmMap.None? ==> AsIn(h, d, File(n, PmMap)))
    && (forall f: File | f.name != n || !(f.kind.Testcase? || f.kind.Map? || f.kind.PmMap?) :: AsIn(h, d, f))
  }

  lemma AddFoundIs(d: Dir, n: CleanName, q: Found)
    ensures Stored(d, n, q, AddFound(d, n, q))
  {
  }
}
