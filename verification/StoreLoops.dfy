/** The loops of the store operations (src/pmfuzz/stages/dedup.py), each proved against its function in `Files`. */
module StoreLoops {
  import opened Cmin
  import opened Files
  import opened Grouping
  import opened Listing
  import opened Minimisation
  import opened Names
  import opened StoreEffects

  // ----- update_global and update_local -----

  function Copy(dst: Dir, src: Dir, f: File): Dir {
    if f in src then dst[f := src[f]] else dst
  }

  /** `local_testcases_list`: aborts when a testcase has no image. */
  method LocalTestcases(tcs: Dir, imgs: Dir) returns (ok: bool, l: seq<CleanName>)
    ensures ok <==> forall n: CleanName :: HasTc(tcs, n) ==> File(n, PoolCmpr) in imgs
    ensures ok ==> Lists(l, NamesOf(tcs, Testcase))
  {
    l := ListDir(NamesOf(tcs, Testcase));
    var i := 0;
    while i < |l|
      invariant 0 <= i <= |l| && forall n | n in l[..i] :: File(n, PoolCmpr) in imgs
    {
      if File(l[i], PoolCmpr) !in imgs {
        assert HasTc(tcs, l[i]);
        return false, l;
      }
      i := i + 1;
    }
    assert l[..|l|] == l;
    ok := true;
  }

  function CopyFour(h: Dir, tcs: Dir, imgs: Dir, n: CleanName): Dir {
    Copy(Copy(Copy(Copy(h, tcs, File(n, Testcase)), tcs, File(n, Map)), tcs, File(n, PmMap)), imgs, File(n, PoolCmpr))
  }

  lemma CopyFourAt(h: Dir, tcs: Dir, imgs: Dir, n: CleanName, f: File)
    ensures var r := CopyFour(h, tcs, imgs, n);
      if f.name == n && f.kind in {Testcase, Map, PmMap} && f in tcs then f in r && r[f] == tcs[f]
      else if f.name == n && f.kind.PoolCmpr? && f in imgs then f in r && r[f] == imgs[f]
      else (f in r <==> f in h) && (f in r ==> r[f] == h[f])
  {
  }

  lemma CopyStep(g: Dir, tcs: Dir, imgs: Dir, names: set<CleanName>, n: CleanName)
    ensures CopyFour(Copied(g, tcs, imgs, names), tcs, imgs, n) == Copied(g, tcs, imgs, names + {n})
  {
    var h := Copied(g, tcs, imgs, names);
    var r := CopyFour(h, tcs, imgs, n);
    var r' := Copied(g, tcs, imgs, names + {n});
    forall f: File
      ensures f in r <==> f in r'
      ensures f in r ==> r[f] == r'[f]
    {
      CopyFourAt(h, tcs, imgs, n, f);
      CopiedAt(g, tcs, imgs, names, f);
      CopiedAt(g, tcs, imgs, names + {n}, f);
    }
    SameDir(r, r');
  }

  /** The first loop of `update_global`. */
  method CopyNew(g: Dir, tcs: Dir, imgs: Dir, l: seq<CleanName>) returns (h: Dir)
    requires Lists(l, NamesOf(tcs, Testcase))
    ensures h == Copied(g, tcs, imgs, NewNames(g, tcs))
  {
    h := g;
    var i := 0;
    AmongAll(l, NewNames(g, tcs));
    CopiedNone(g, tcs, imgs);
    while i < |l|
      invariant 0 <= i <= |l| && h == Copied(g, tcs, imgs, Among(l[..i], NewNames(g, tcs)))
    {
      var n := l[i];
      assert n in NamesOf(tcs, Testcase);
      AmongNext(l, i, NewNames(g, tcs));
      if File(n, Testcase) !in g && File(n, Deleted) !in g {
        CopyStep(g, tcs, imgs, Among(l[..i], NewNames(g, tcs)), n);
        h := Copy(h, tcs, File(n, Testcase));
        h := Copy(h, tcs, File(n, Map));
        h := Copy(h, tcs, File(n, PmMap));
        h := Copy(h, imgs, File(n, PoolCmpr));
      }
      i := i + 1;
    }
  }

  lemma CopiedNone(dst: Dir, tcs: Dir, imgs: Dir)
    ensures Copied(dst, tcs, imgs, {}) == dst && WithCrashes(dst, tcs, {}) == dst
  {
  }

  lemma CopyCrashStep(dst: Dir, src: Dir, names: set<CleanName>, n: CleanName)
    ensures Copy(WithCrashes(dst, src, names), src, File(n, CrashCmpr)) == WithCrashes(dst, src, names + {n})
  {
    var r, r' := Copy(WithCrashes(dst, src, names), src, File(n, CrashCmpr)), WithCrashes(dst, src, names + {n});
    forall f: File
      ensures f in r <==> f in r'
      ensures f in r ==> r[f] == r'[f]
    {
      WithCrashesHas(dst, src, names, f);
      WithCrashesHas(dst, src, names + {n}, f);
    }
    SameDir(r, r');
  }

  /** The second loop of `update_global` and of `update_local`: crash sites that are not there yet. */
  method CopyCrashes(dst: Dir, src: Dir) returns (h: Dir)
    ensures h == WithCrashes(dst, src, NewCrashes(dst, src))
  {
    var l := ListDir(NamesOf(src, CrashCmpr));
    h := dst;
    var i := 0;
    AmongAll(l, NewCrashes(dst, src));
    CopiedNone(dst, src, src);
    while i < |l|
      invariant 0 <= i <= |l| && h == WithCrashes(dst, src, Among(l[..i], NewCrashes(dst, src)))
    {
      var n := l[i];
      assert n in NamesOf(src, CrashCmpr) && n !in l[..i];
      AmongNext(l, i, NewCrashes(dst, src));
      WithCrashesHas(dst, src, Among(l[..i], NewCrashes(dst, src)), File(n, CrashCmpr));
      if File(n, CrashCmpr) !in h {
        CopyCrashStep(dst, src, Among(l[..i], NewCrashes(dst, src)), n);
        h := Copy(h, src, File(n, CrashCmpr));
      }
      i := i + 1;
    }
  }

  lemma CopyOrder(h: Dir, g: Dir, n: CleanName)
    ensures Copy(Copy(Copy(Copy(h, g, File(n, Testcase)), g, File(n, PoolCmpr)), g, File(n, Map)), g, File(n, PmMap))
         == CopyFour(h, g, g, n)
  {
  }

  /** The copies `update_local` makes for one testcase. */
  method CopyLocal(g: Dir, ghost loc: Dir, ghost names: set<CleanName>, n: CleanName, h0: Dir) returns (h: Dir)
    requires h0 == Copied(loc, g, g, names)
    ensures h == Copied(loc, g, g, names + {n})
  {
    CopyStep(loc, g, g, names, n);
    CopyOrder(h0, g, n);
    h := Copy(h0, g, File(n, Testcase));
    h := Copy(h, g, File(n, PoolCmpr));
    h := Copy(h, g, File(n, Map));
    h := Copy(h, g, File(n, PmMap));
  }

  /** The first loop of `update_local`: fails when a testcase to be copied has no image or no map. */
  method CopyEligible(g: Dir, loc: Dir, iter: nat) returns (ok: bool, h: Dir)
    ensures ok <==> AllComplete(g, loc, iter)
    ensures ok ==> h == Copied(loc, g, g, Eligible(g, loc, iter))
  {
    var l := ListDir(NamesOf(g, Testcase));
    CopiedStart(g, loc, iter, l);
    ok, h := true, loc;
    var i := 0;
    while i < |l| && ok
      invariant 0 <= i <= |l|
      invariant ok ==> CopiedUpTo(g, loc, iter, l, i, h)
      invariant !ok ==> exists n :: n in Eligible(g, loc, iter) && !Complete(g, n)
    {
      ok, h := CopyNext(g, loc, iter, l, i, h);
      i := i + 1;
    }
  }

  /** After `i` entries of the listing: the testcases wanted among them are copied, and were complete. */
  ghost predicate CopiedUpTo(g: Dir, loc: Dir, iter: nat, l: seq<CleanName>, i: nat, h: Dir)
    requires i <= |l|
  {
    var done := Among(l[..i], Eligible(g, loc, iter));
    h == Copied(loc, g, g, done) && forall n | n in done :: Complete(g, n)
  }

  lemma CopiedStart(g: Dir, loc: Dir, iter: nat, l: seq<CleanName>)
    requires Lists(l, NamesOf(g, Testcase))
    ensures CopiedUpTo(g, loc, iter, l, 0, loc)
    ensures Among(l[..|l|], Eligible(g, loc, iter)) == Eligible(g, loc, iter)
  {
    AmongAll(l, Eligible(g, loc, iter));
    CopiedNone(loc, g, g);
  }

  method CopyNext(g: Dir, loc: Dir, iter: nat, l: seq<CleanName>, i: nat, h0: Dir) returns (ok: bool, h: Dir)
    requires i < |l| && l[i] in NamesOf(g, Testcase) && l[i] !in l[..i] && CopiedUpTo(g, loc, iter, l, i, h0)
    ensures ok <==> l[i] in Eligible(g, loc, iter) ==> Complete(g, l[i])
    ensures ok ==> CopiedUpTo(g, loc, iter, l, i + 1, h)
  {
    var n := l[i];
    ghost var todo := Eligible(g, loc, iter);
    AmongNext(l, i, todo);
    ok, h := true, h0;
    if Wanted(loc, iter, n) {
      if Complete(g, n) {
        h := CopyLocal(g, loc, Among(l[..i], todo), n, h0);
      } else {
        ok := false;
      }
    }
  }

  // ----- minimize_corpus_gbl and minimize_corpus_lcl -----

  /** The temporary directories of `minimize_corpus_gbl`; fails when a testcase has no map. */
  method GlobalInputs(g: Dir) returns (ok: bool, inDir: set<CleanName>, maps: Dir)
    ensures ok <==> forall n: CleanName :: HasTc(g, n) ==> File(n, Map) in g
    ensures ok ==> inDir == NamesOf(g, Testcase) && maps == GlobalMaps(g)
  {
    var l := ListDir(NamesOf(g, Testcase));
    inDir, maps := {}, map[];
    var i := 0;
    while i < |l|
      invariant 0 <= i <= |l| && maps == Take(g, inDir, {Map, PmMap})
      invariant forall n: CleanName :: n in inDir <==> n in l[..i]
      invariant forall n | n in inDir :: File(n, Map) in g
    {
      var n := l[i];
      if File(n, Map) !in g {
        assert HasTc(g, n);
        return false, inDir, maps;
      }
      TakeMaps(g, inDir, n);
      inDir := inDir + {n};
      maps := Copy(Copy(maps, g, File(n, Map)), g, File(n, PmMap));
      i := i + 1;
    }
    assert l[..|l|] == l;
    assert inDir == NamesOf(g, Testcase);
    ok := true;
  }

  lemma TakeMaps(g: Dir, names: set<CleanName>, n: CleanName)
    ensures Copy(Copy(Take(g, names, {Map, PmMap}), g, File(n, Map)), g, File(n, PmMap))
         == Take(g, names + {n}, {Map, PmMap})
  {
  }

  ghost predicate MapsCopied(maps: Dir, maps0: Dir, d: Dir, done: seq<File>) {
    forall f: File ::
      if f in MapFiles(d) && f in done then f in maps && maps[f] == d[f]
      else (f in maps <==> f in maps0) && (f in maps ==> maps[f] == maps0[f])
  }

  /** `minimize_corpus_lcl`: testcases of a directory to one place, its maps to another. */
  method LocalInputs(d: Dir, inDir0: set<CleanName>, maps0: Dir) returns (inDir: set<CleanName>, maps: Dir)
    ensures inDir == inDir0 + NamesOf(d, Testcase) && maps == maps0 + MapFiles(d)
  {
    var l := ListDir(d.Keys);
    inDir, maps := inDir0, maps0;
    var i := 0;
    while i < |l|
      invariant 0 <= i <= |l|
      invariant forall n: CleanName :: n in inDir <==> n in inDir0 || File(n, Testcase) in l[..i]
      invariant MapsCopied(maps, maps0, d, l[..i])
    {
      if l[i].kind.Testcase? {
        inDir := inDir + {l[i].name};
      } else if l[i].kind.Map? || l[i].kind.PmMap? {
        maps := maps[l[i] := d[l[i]]];
      }
      i := i + 1;
    }
    assert l[..|l|] == l;
    SameDir(maps, maps0 + MapFiles(d));
    assert inDir == inDir0 + NamesOf(d, Testcase);
  }

  /** The testcases of the input directory that were not copied to the output. */
  method DroppedFiles(inDir: set<CleanName>, out: set<CleanName>) returns (l: seq<File>)
    ensures NamesIn(l) == inDir - out
  {
    var all := ListDir(inDir);
    l := [];
    var i := 0;
    while i < |all|
      invariant 0 <= i <= |all|
      invariant forall n :: n in NamesIn(l) <==> n in all[..i] && n !in out
    {
      if all[i] !in out {
        assert NamesIn(l + [File(all[i], Testcase)]) == NamesIn(l) + {all[i]};
        l := l + [File(all[i], Testcase)];
      }
      i := i + 1;
    }
    assert all[..|all|] == all;
  }

  /** The removal loop of `minimize_corpus_gbl`: the files, then always a placeholder. */
  method BuryAll(g: Dir, dropped: seq<File>, stamp: Bytes) returns (r: Dir)
    ensures r == Bury(g, NamesIn(dropped), BARE_FILES, NamesIn(dropped), stamp)
  {
    BareLists();
    r := g;
    var i := 0;
    BuryNone(g, BARE_FILES, stamp);
    while i < |dropped|
      invariant 0 <= i <= |dropped|
      invariant r == Bury(g, NamesIn(dropped[..i]), BARE_FILES, NamesIn(dropped[..i]), stamp)
    {
      var n := dropped[i].name;
      NamesInNext(dropped, i);
      BuryMore(g, NamesIn(dropped[..i]), {n}, BARE_FILES, NamesIn(dropped[..i]), {n}, stamp);
      BuryOne(r, n, BARE_FILES, stamp);
      var removed;
      r, removed := RemoveFiles(r, n, BARE_FILES);
      r := r[File(n, Deleted) := stamp];
      i := i + 1;
    }
    assert dropped[..|dropped|] == dropped;
  }

  lemma BuryNone(g: Dir, kinds: seq<Kind>, stamp: Bytes)
    ensures Bury(g, {}, kinds, {}, stamp) == g
  {
  }

  lemma BuryOne(g: Dir, n: CleanName, kinds: seq<Kind>, stamp: Bytes)
    ensures Without(g, {n}, kinds)[File(n, Deleted) := stamp] == Bury(g, {n}, kinds, {n}, stamp)
    ensures Without(g, {n}, kinds) == Bury(g, {n}, kinds, {}, stamp)
  {
  }

  /** The second removal loop of `minimize_corpus_lcl`. */
  method PruneAll(g: Dir, dropped: seq<File>, stamp: Bytes) returns (r: Dir)
    ensures r == GlobalPruned(g, NamesIn(dropped), stamp)
  {
    r := g;
    var i := 0;
    BuryNone(g, TC_FILES, stamp);
    assert Hit(g, {}, TC_FILES) == {};
    while i < |dropped|
      invariant 0 <= i <= |dropped| && r == GlobalPruned(g, NamesIn(dropped[..i]), stamp)
    {
      NamesInNext(dropped, i);
      r := PruneOne(g, NamesIn(dropped[..i]), r, dropped[i].name, stamp);
      i := i + 1;
    }
    assert dropped[..|dropped|] == dropped;
  }

  /** A placeholder is written only if some file was there to remove. */
  method PruneOne(ghost g: Dir, ghost names: set<CleanName>, r0: Dir, n: CleanName, stamp: Bytes) returns (r: Dir)
    requires r0 == GlobalPruned(g, names, stamp)
    ensures r == GlobalPruned(g, names + {n}, stamp)
  {
    var removed;
    r, removed := RemoveFiles(r0, n, TC_FILES);
    if removed {
      r := r[File(n, Deleted) := stamp];
    }
    PruneStep(g, r0, names, n, stamp);
  }

  lemma PruneStep(g: Dir, r0: Dir, names: set<CleanName>, n: CleanName, stamp: Bytes)
    requires r0 == GlobalPruned(g, names, stamp)
    ensures (if HasAny(r0, n, TC_FILES) then Without(r0, {n}, TC_FILES)[File(n, Deleted) := stamp]
             else Without(r0, {n}, TC_FILES)) == GlobalPruned(g, names + {n}, stamp)
  {
    BareLists();
    var marked := if HasAny(r0, n, TC_FILES) then {n} else {};
    BuryOne(r0, n, TC_FILES, stamp);
    BuryMore(g, names, {n}, TC_FILES, Hit(g, names, TC_FILES), marked, stamp);
    HitStep(g, names, n, r0, stamp);
    HitMore(g, names, n, marked);
  }

  lemma HitMore(g: Dir, names: set<CleanName>, n: CleanName, marked: set<CleanName>)
    requires marked == if n !in names && HasAny(g, n, TC_FILES) then {n} else {}
    ensures Hit(g, names, TC_FILES) + marked == Hit(g, names + {n}, TC_FILES)
  {
  }

  lemma HitStep(g: Dir, names: set<CleanName>, n: CleanName, r0: Dir, stamp: Bytes)
    requires r0 == GlobalPruned(g, names, stamp)
    ensures HasAny(r0, n, TC_FILES) <==> n !in names && HasAny(g, n, TC_FILES)
  {
    BareLists();
    forall k | k in TC_FILES
      ensures File(n, k) in r0 <==> n !in names && File(n, k) in g
    {
      BuryHas(g, names, TC_FILES, Hit(g, names, TC_FILES), stamp, File(n, k));
    }
  }

  // ----- The whole operations -----

  lemma CrashesUntouched(g: Dir, tcs: Dir, imgs: Dir)
    ensures NewCrashes(Copied(g, tcs, imgs, NewNames(g, tcs)), imgs) == NewCrashes(g, imgs)
  {
    forall n: CleanName
      ensures File(n, CrashCmpr) in Copied(g, tcs, imgs, NewNames(g, tcs)) <==> File(n, CrashCmpr) in g
    {
      CopiedAt(g, tcs, imgs, NewNames(g, tcs), File(n, CrashCmpr));
    }
  }

  lemma LocalCrashes(g: Dir, loc: Dir, iter: nat)
    ensures NewCrashes(Copied(loc, g, g, Eligible(g, loc, iter)), g) == NewCrashes(loc, g)
  {
    forall n: CleanName
      ensures File(n, CrashCmpr) in Copied(loc, g, g, Eligible(g, loc, iter)) <==> File(n, CrashCmpr) in loc
    {
      CopiedAt(loc, g, g, Eligible(g, loc, iter), File(n, CrashCmpr));
    }
  }

  lemma LocalInputsAre(loc: Dir, tcs: Dir, inDir: set<CleanName>, maps: Dir)
    requires inDir == {} + NamesOf(loc, Testcase) + NamesOf(tcs, Testcase)
    requires maps == map[] + MapFiles(loc) + MapFiles(tcs)
    ensures inDir == Candidates(loc, tcs) && maps == CandidateMaps(loc, tcs)
  {
    assert {} + NamesOf(loc, Testcase) == NamesOf(loc, Testcase);
    assert map[] + MapFiles(loc) == MapFiles(loc);
  }

  /** `update_global`; only a missing image makes it abort. */
  method UpdateGlobal(g: Dir, tcs: Dir, imgs: Dir) returns (ok: bool, h: Dir)
    ensures ok <==> forall n: CleanName :: HasTc(tcs, n) ==> File(n, PoolCmpr) in imgs
    ensures ok ==> h == GlobalAfter(g, tcs, imgs) && Globalised(g, tcs, imgs, h)
  {
    var names;
    ok, names := LocalTestcases(tcs, imgs);
    if !ok {
      return false, g;
    }
    h := CopyNew(g, tcs, imgs, names);
    CrashesUntouched(g, tcs, imgs);
    h := CopyCrashes(h, imgs);
    GlobalAfterIs(g, tcs, imgs);
  }

  /** `update_local`; fails when a testcase to be copied has no image or no map. */
  method UpdateLocal(g: Dir, loc: Dir, iter: nat) returns (ok: bool, h: Dir)
    ensures ok <==> AllComplete(g, loc, iter)
    ensures ok <==> CanJoin(g, loc, iter)
    ensures ok ==> h == LocalAfter(g, loc, iter) && Localised(g, loc, iter, h)
  {
    JoinsIff(g, loc, iter);
    ok, h := CopyEligible(g, loc, iter);
    if ok {
      LocalCrashes(g, loc, iter);
      h := CopyCrashes(h, g);
      LocalAfterIs(g, loc, iter);
    }
  }

  /** `minimize_corpus_gbl` */
  method MinimizeGlobal(g: Dir, hash: Digest, stamp: Bytes) returns (ok: bool, h: Dir, ghost kept: set<CleanName>)
    ensures ok <==> forall n: CleanName :: HasTc(g, n) ==> File(n, Map) in g
    ensures ok ==> OnePerDigest(NamesOf(g, Testcase), GlobalMaps(g), hash, kept) && h == GlobalMinimised(g, kept, stamp)
    ensures !ok ==> h == g
  {
    var inDir, maps;
    ok, inDir, maps := GlobalInputs(g);
    h, kept := g, {};
    if ok {
      var out := Cmin.Minimize(inDir, maps, hash);
      ghost var order :| Lists(order, maps.Keys) && out == KeptBy(inDir, maps, order, hash);
      MinimizeMeans(inDir, maps, hash, order);
      kept := out;
      var dropped := DroppedFiles(inDir, out);
      h := BuryAll(g, dropped, stamp);
    }
  }

  /** The stores after a local minimisation that keeps `kept` of the candidates. */
  ghost predicate LocalOutcome(g: Dir, loc: Dir, tcs: Dir, hash: Digest, stamp: Bytes, kept: set<CleanName>, h: Dir,
                               t: Dir)
  {
    && OnePerDigest(Candidates(loc, tcs), CandidateMaps(loc, tcs), hash, kept)
    && h == GlobalPruned(g, Candidates(loc, tcs) - kept, stamp)
    && t == Without(tcs, Candidates(loc, tcs) - kept, ALL_FILES)
  }

  /** `minimize_corpus_lcl` */
  method MinimizeLocal(g: Dir, loc: Dir, tcs: Dir, hash: Digest, stamp: Bytes) returns (h: Dir, t: Dir)
    requires MapsOk(loc) && MapsOk(tcs)
    ensures exists kept :: LocalOutcome(g, loc, tcs, hash, stamp, kept, h, t)
  {
    var inDir, maps := LocalInputs(loc, {}, map[]);
    inDir, maps := LocalInputs(tcs, inDir, maps);
    LocalInputsAre(loc, tcs, inDir, maps);
    var out := Cmin.Minimize(inDir, maps, hash);
    ghost var order :| Lists(order, maps.Keys) && out == KeptBy(inDir, maps, order, hash);
    CandidatesHaveMaps(loc, tcs);
    MinimizeMeans(inDir, maps, hash, order);
    var dropped := DroppedFiles(inDir, out);
    t := RemoveAll(tcs, dropped, ALL_FILES);
    h := PruneAll(g, dropped, stamp);
    assert LocalOutcome(g, loc, tcs, hash, stamp, out, h, t);
  }

  // ----- deduplicate_crash_sites_lcl -----

  /** Every crash site has one with its hash among the kept, and no two of these have the same. */
  ghost predicate OnePerHash(imgs: Dir, db: map<CleanName, string>, kept: set<CleanName>) {
    && kept <= NamesOf(imgs, CrashCmpr) <= db.Keys
    && (forall n | n in NamesOf(imgs, CrashCmpr) :: Hashed(db, kept, n))
    && (forall m, n | m in kept && n in kept && db[m] == db[n] :: m == n)
  }

  ghost predicate Hashed(db: map<CleanName, string>, kept: set<CleanName>, n: CleanName)
    requires kept <= db.Keys && n in db
  {
    exists m :: m in kept && db[m] == db[n]
  }

  /** Drops crash sites whose hash was seen before; aborts when a hash is missing from the database. */
  method DedupCrashSites(imgs: Dir, db: map<CleanName, string>) returns (ok: bool, r: Dir, ghost kept: set<CleanName>)
    ensures ok <==> NamesOf(imgs, CrashCmpr) <= db.Keys
    ensures ok ==> OnePerHash(imgs, db, kept) && r == Without(imgs, NamesOf(imgs, CrashCmpr) - kept, [CrashCmpr])
  {
    var l := ListDir(NamesOf(imgs, CrashCmpr));
    var seen: set<string> := {};
    var drop: seq<File> := [];
    kept := {};
    var i := 0;
    assert l[..0] == [] && NamesIn([]) == {};
    while i < |l|
      invariant 0 <= i <= |l| && Parted(db, l[..i], kept, seen, drop)
    {
      var n := l[i];
      if n !in db {
        assert n in NamesOf(imgs, CrashCmpr);
        return false, imgs, kept;
      }
      assert l[..i + 1] == l[..i] + [n] && n !in l[..i];
      if db[n] !in seen {
        PartedKeep(db, l[..i], kept, seen, drop, n);
        seen := seen + {db[n]};
        kept := kept + {n};
      } else {
        PartedDrop(db, l[..i], kept, seen, drop, n);
        drop := drop + [File(n, CrashCmpr)];
      }
      i := i + 1;
    }
    PartedAll(imgs, db, l, kept, seen, drop);
    r := RemoveAll(imgs, drop, [CrashCmpr]);
    ok := true;
  }

  /** The crash sites seen so far are kept or to be dropped; the kept ones have the hashes seen, each once. */
  ghost predicate Parted(db: map<CleanName, string>, done: seq<CleanName>, kept: set<CleanName>, seen: set<string>,
                         drop: seq<File>)
  {
    && kept <= db.Keys && kept !! NamesIn(drop)
    && (forall n :: n in done <==> n in kept || n in NamesIn(drop))
    && (forall n | n in done :: n in db && db[n] in seen)
    && (forall h | h in seen :: exists m :: m in kept && db[m] == h)
    && (forall m, n | m in kept && n in kept && db[m] == db[n] :: m == n)
  }

  lemma PartedKeep(db: map<CleanName, string>, done: seq<CleanName>, kept: set<CleanName>, seen: set<string>,
                   drop: seq<File>, n: CleanName)
    requires Parted(db, done, kept, seen, drop) && n !in done && n in db && db[n] !in seen
    ensures Parted(db, done + [n], kept + {n}, seen + {db[n]}, drop)
  {
    forall h | h in seen + {db[n]}
      ensures exists m :: m in kept + {n} && db[m] == h
    {
      if h == db[n] {
        assert n in kept + {n};
      } else {
        var m :| m in kept && db[m] == h;
        assert m in kept + {n};
      }
    }
    forall m | m in kept
      ensures db[m] != db[n]
    {
      assert m in done;
    }
  }

  lemma PartedDrop(db: map<CleanName, string>, done: seq<CleanName>, kept: set<CleanName>, seen: set<string>,
                   drop: seq<File>, n: CleanName)
    requires Parted(db, done, kept, seen, drop) && n !in done && n in db && db[n] in seen
    ensures Parted(db, done + [n], kept, seen, drop + [File(n, CrashCmpr)])
  {
    assert NamesIn(drop + [File(n, CrashCmpr)]) == NamesIn(drop) + {n};
  }

  lemma PartedAll(imgs: Dir, db: map<CleanName, string>, l: seq<CleanName>, kept: set<CleanName>, seen: set<string>,
                  drop: seq<File>)
    requires Lists(l, NamesOf(imgs, CrashCmpr)) && Parted(db, l[..|l|], kept, seen, drop)
    ensures OnePerHash(imgs, db, kept) && NamesIn(drop) == NamesOf(imgs, CrashCmpr) - kept
  {
    assert l[..|l|] == l;
    forall n | n in NamesOf(imgs, CrashCmpr)
      ensures n in db && Hashed(db, kept, n)
    {
      assert n in l && db[n] in seen;
    }
  }
}
