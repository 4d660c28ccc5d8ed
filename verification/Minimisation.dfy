/** What corpus minimisation does to PM coverage (src/pmfuzz/stages/dedup.py: `minimize_corpus_gbl`,
    `minimize_corpus_lcl`). */
module Minimisation {
  import opened Cmin
  import opened Files
  import opened Grouping
  import opened Listing
  import opened Names

  // ----- Global -----

  /** The map directory of the global minimisation: the maps of the testcases present. */
  function GlobalMaps(g: Dir): Dir {
    Take(g, NamesOf(g, Testcase), {Map, PmMap})
  }

  function GlobalMinimised(g: Dir, kept: set<CleanName>, stamp: Bytes): Dir {
    var dropped := NamesOf(g, Testcase) - kept;
    Bury(g, dropped, BARE_FILES, dropped, stamp)
  }

  /** Minimising the global store keeps the set of pm_map contents, leaves exactly one testcase for each of them,
      and drops no testcase that has no pm_map, whatever the order of the listings. */
  lemma GlobalCoverage(g: Dir, hash: Digest, kept: set<CleanName>, stamp: Bytes)
    requires MapsOk(g) && TellsApart(hash, Contents(g, PmMap))
    requires OnePerDigest(NamesOf(g, Testcase), GlobalMaps(g), hash, kept)
    ensures var h := GlobalMinimised(g, kept, stamp);
      && Contents(h, PmMap) == Contents(g, PmMap)
      && (forall e, f | e in h && f in h && e.kind.PmMap? && f.kind.PmMap? && h[e] == h[f] :: e == f)
      && (forall n: CleanName | HasTc(g, n) && File(n, PmMap) !in g :: HasTc(h, n))
      && (forall n: CleanName | HasTc(h, n) :: HasTc(g, n) && (File(n, PmMap) in h <==> File(n, PmMap) in g))
  {
    var h := GlobalMinimised(g, kept, stamp);
    forall f: File | f.kind.PmMap? || f.kind.Testcase?
      ensures f in h <==> f in g && f.name in kept
      ensures f in h && f.kind.PmMap? ==> h[f] == g[f] && f in GlobalMaps(g)
    {
      MinimisedHas(g, kept, stamp, f);
    }
    forall c | c in Contents(g, PmMap)
      ensures c in Contents(h, PmMap)
    {
      var f := Keeper(g, hash, kept, c);
      assert f in h && h[f] == c;
    }
    forall e, f | e in h && f in h && e.kind.PmMap? && f.kind.PmMap? && h[e] == h[f]
      ensures e == f
    {
      assert SameMap(GlobalMaps(g), hash, e.name, f.name);
    }
  }

  lemma MinimisedHas(g: Dir, kept: set<CleanName>, stamp: Bytes, f: File)
    requires MapsOk(g) && kept <= NamesOf(g, Testcase) && (f.kind.PmMap? || f.kind.Testcase?)
    ensures f in GlobalMinimised(g, kept, stamp) <==> f in g && f.name in kept
    ensures f in GlobalMinimised(g, kept, stamp) ==> GlobalMinimised(g, kept, stamp)[f] == g[f]
    ensures f in g && f.kind.PmMap? ==> f in GlobalMaps(g)
  {
    BareLists();
    var dropped := NamesOf(g, Testcase) - kept;
    BuryHas(g, dropped, BARE_FILES, dropped, stamp, f);
  }

  /** A kept pm_map with given contents. */
  lemma Keeper(g: Dir, hash: Digest, kept: set<CleanName>, c: Bytes) returns (f: File)
    requires MapsOk(g) && TellsApart(hash, Contents(g, PmMap)) && c in Contents(g, PmMap)
    requires OnePerDigest(NamesOf(g, Testcase), GlobalMaps(g), hash, kept)
    ensures f.kind.PmMap? && f in g && g[f] == c && f.name in kept
  {
    f :| f in g && f.kind.PmMap? && g[f] == c;
    if f.name !in kept {
      assert Represented(GlobalMaps(g), hash, kept, f.name);
      var m :| m in kept && SameMap(GlobalMaps(g), hash, m, f.name);
      f := File(m, PmMap);
      assert g[f] in Contents(g, PmMap);
    }
  }

  // ----- Local -----

  function MapFiles(d: Dir): Dir {
    map f | f in d && (f.kind.Map? || f.kind.PmMap?) :: d[f]
  }

  /** The input directory of the local minimisation: the testcases of the iteration and those it collected. */
  function Candidates(loc: Dir, tcs: Dir): set<CleanName> {
    NamesOf(loc, Testcase) + NamesOf(tcs, Testcase)
  }

  function CandidateMaps(loc: Dir, tcs: Dir): Dir {
    MapFiles(loc) + MapFiles(tcs)
  }

  /** Names with a placeholder: those of which something was removed. */
  function Hit(g: Dir, names: set<CleanName>, kinds: seq<Kind>): set<CleanName> {
    set n | n in names && HasAny(g, n, kinds)
  }

  function GlobalPruned(g: Dir, dropped: set<CleanName>, stamp: Bytes): Dir {
    Bury(g, dropped, TC_FILES, Hit(g, dropped, TC_FILES), stamp)
  }

  /** The pm_map of `n` in the global store or among the collected testcases has contents `c`. */
  predicate Holds(g: Dir, tcs: Dir, n: CleanName, c: Bytes) {
    var f := File(n, PmMap);
    (f in g && g[f] == c) || (f in tcs && tcs[f] == c)
  }

  /** A candidate with the same pm_map as `n` that does not itself hold `c`. */
  ghost predicate Replaceable(g: Dir, loc: Dir, tcs: Dir, c: Bytes, n: CleanName) {
    exists r: CleanName :: r in Candidates(loc, tcs) && !Holds(g, tcs, r, c) && Equal(CandidateMaps(loc, tcs), r, n)
  }

  predicate Equal(maps: Dir, m: CleanName, n: CleanName) {
    File(m, PmMap) in maps && File(n, PmMap) in maps && maps[File(m, PmMap)] == maps[File(n, PmMap)]
  }

  /** Each testcase that holds `c` can be dropped in favour of one that does not. */
  ghost predicate AtRisk(g: Dir, loc: Dir, tcs: Dir, c: Bytes) {
    forall n: CleanName | Holds(g, tcs, n, c) :: Replaceable(g, loc, tcs, c, n)
  }

  /** Contents `c` are still in the global store or among the collected testcases. */
  ghost predicate Survives(g: Dir, tcs: Dir, dropped: set<CleanName>, stamp: Bytes, c: Bytes) {
    c in Contents(GlobalPruned(g, dropped, stamp), PmMap) || c in Contents(Without(tcs, dropped, ALL_FILES), PmMap)
  }

  lemma SurvivesIff(g: Dir, tcs: Dir, dropped: set<CleanName>, stamp: Bytes, c: Bytes)
    ensures Survives(g, tcs, dropped, stamp, c) <==> exists n: CleanName :: Holds(g, tcs, n, c) && n !in dropped
  {
    BareLists();
    var h, t := GlobalPruned(g, dropped, stamp), Without(tcs, dropped, ALL_FILES);
    forall n: CleanName
      ensures Holds(h, t, n, c) <==> Holds(g, tcs, n, c) && n !in dropped
    {
      BuryHas(g, dropped, TC_FILES, Hit(g, dropped, TC_FILES), stamp, File(n, PmMap));
    }
    HeldIff(h, t, c);
  }

  lemma HeldIff(g: Dir, tcs: Dir, c: Bytes)
    ensures (c in Contents(g, PmMap) || c in Contents(tcs, PmMap)) <==> exists n: CleanName :: Holds(g, tcs, n, c)
  {
    if c in Contents(g, PmMap) {
      var f :| f in g && f.kind.PmMap? && g[f] == c;
      assert f == File(f.name, PmMap) && Holds(g, tcs, f.name, c);
    }
    if c in Contents(tcs, PmMap) {
      var f :| f in tcs && f.kind.PmMap? && tcs[f] == c;
      assert f == File(f.name, PmMap) && Holds(g, tcs, f.name, c);
    }
  }

  /** Contents that are not at risk survive every local minimisation, in whatever order files are listed... */
  lemma SafeSurvives(g: Dir, loc: Dir, tcs: Dir, hash: Digest, kept: set<CleanName>, stamp: Bytes, c: Bytes)
    requires TellsApart(hash, Contents(CandidateMaps(loc, tcs), PmMap)) && !AtRisk(g, loc, tcs, c)
    requires OnePerDigest(Candidates(loc, tcs), CandidateMaps(loc, tcs), hash, kept)
    ensures Survives(g, tcs, Candidates(loc, tcs) - kept, stamp, c)
  {
    var maps, dropped := CandidateMaps(loc, tcs), Candidates(loc, tcs) - kept;
    SurvivesIff(g, tcs, dropped, stamp, c);
    var n: CleanName :| Holds(g, tcs, n, c) && !Replaceable(g, loc, tcs, c, n);
    if n in dropped {
      assert Represented(maps, hash, kept, n);
      var m :| m in kept && SameMap(maps, hash, m, n);
      assert maps[File(m, PmMap)] in Contents(maps, PmMap) && maps[File(n, PmMap)] in Contents(maps, PmMap);
      assert Equal(maps, m, n);
      assert Holds(g, tcs, m, c) && m !in dropped;
    }
  }

  /** ...and contents at risk are lost for some order of the listing. */
  lemma RiskLoses(g: Dir, loc: Dir, tcs: Dir, hash: Digest, stamp: Bytes, c: Bytes) returns (order: seq<File>)
    requires MapsOk(loc) && MapsOk(tcs) && AtRisk(g, loc, tcs, c)
    ensures Lists(order, CandidateMaps(loc, tcs).Keys) && Loses(g, loc, tcs, hash, stamp, c, order)
  {
    var maps, cands := CandidateMaps(loc, tcs), Candidates(loc, tcs);
    order := ListsFirst(maps.Keys, NotHolding(maps, g, tcs, c));
    SurvivesIff(g, tcs, cands - KeptBy(cands, maps, order, hash), stamp, c);
    forall n: CleanName | Holds(g, tcs, n, c)
      ensures n in cands && Duplicate(maps, order, hash, File(n, PmMap))
    {
      RiskDropped(g, loc, tcs, hash, c, order, n);
    }
  }

  /** With this order of the listing the contents `c` are gone after the minimisation. */
  ghost predicate Loses(g: Dir, loc: Dir, tcs: Dir, hash: Digest, stamp: Bytes, c: Bytes, order: seq<File>) {
    var kept := KeptBy(Candidates(loc, tcs), CandidateMaps(loc, tcs), order, hash);
    !Survives(g, tcs, Candidates(loc, tcs) - kept, stamp, c)
  }

  /** A local minimisation can lose the contents `c` of a pm_map exactly when they are at risk before it. */
  lemma LosesIff(g: Dir, loc: Dir, tcs: Dir, hash: Digest, stamp: Bytes, c: Bytes)
    requires MapsOk(loc) && MapsOk(tcs) && TellsApart(hash, Contents(CandidateMaps(loc, tcs), PmMap))
    ensures AtRisk(g, loc, tcs, c) <==>
      exists order :: Lists(order, CandidateMaps(loc, tcs).Keys) && Loses(g, loc, tcs, hash, stamp, c, order)
  {
    var maps, cands := CandidateMaps(loc, tcs), Candidates(loc, tcs);
    if AtRisk(g, loc, tcs, c) {
      var order := RiskLoses(g, loc, tcs, hash, stamp, c);
    } else {
      forall order | Lists(order, maps.Keys)
        ensures !Loses(g, loc, tcs, hash, stamp, c, order)
      {
        CandidatesHaveMaps(loc, tcs);
        MinimizeMeans(cands, maps, hash, order);
        SafeSurvives(g, loc, tcs, hash, KeptBy(cands, maps, order, hash), stamp, c);
      }
    }
  }

  lemma CandidatesHaveMaps(loc: Dir, tcs: Dir)
    requires MapsOk(loc) && MapsOk(tcs)
    ensures forall f | f in CandidateMaps(loc, tcs) && f.kind.PmMap? :: f.name in Candidates(loc, tcs)
  {
  }

  function NotHolding(maps: Dir, g: Dir, tcs: Dir, c: Bytes): set<File> {
    set f | f in maps && !Holds(g, tcs, f.name, c)
  }

  lemma RiskDropped(g: Dir, loc: Dir, tcs: Dir, hash: Digest, c: Bytes, order: seq<File>, n: CleanName)
    requires MapsOk(loc) && MapsOk(tcs) && Lists(order, CandidateMaps(loc, tcs).Keys)
    requires Holds(g, tcs, n, c) && Replaceable(g, loc, tcs, c, n)
    requires var first := NotHolding(CandidateMaps(loc, tcs), g, tcs, c);
      forall i, j | 0 <= i < j < |order| && order[j] in first :: order[i] in first
    ensures n in Candidates(loc, tcs) && Duplicate(CandidateMaps(loc, tcs), order, hash, File(n, PmMap))
  {
    var maps := CandidateMaps(loc, tcs);
    var first := NotHolding(maps, g, tcs, c);
    var r: CleanName :| r in Candidates(loc, tcs) && !Holds(g, tcs, r, c) && Equal(maps, r, n);
    BehindFirst(maps, order, hash, first, File(r, PmMap), File(n, PmMap));
  }

  // ----- The first local minimisation of an iteration -----

  /** The pm_maps of `a` are also in `g`, unchanged. */
  ghost predicate Mirrored(a: Dir, g: Dir) {
    forall f | f in a && f.kind.PmMap? :: f in g && g[f] == a[f]
  }

  /** After `update_local` on an empty local store, the local pm_maps are those of the global store. */
  lemma UpdateMirrors(g: Dir, iter: nat)
    ensures Mirrored(LocalAfter(g, map[], iter), g)
  {
    forall f | f in LocalAfter(g, map[], iter) && f.kind.PmMap?
      ensures f in g && g[f] == LocalAfter(g, map[], iter)[f]
    {
      CopiedAt(map[], g, g, Eligible(g, map[], iter), f);
      WithCrashesHas(Copied(map[], g, g, Eligible(g, map[], iter)), g, NewCrashes(map[], g), f);
    }
  }

  /** `n` was collected again with a pm_map other than `c`, which a candidate that does not hold `c` has too. */
  ghost predicate Recollected(g: Dir, loc: Dir, tcs: Dir, c: Bytes, n: CleanName) {
    File(n, PmMap) in tcs && tcs[File(n, PmMap)] != c && HasOther(g, loc, tcs, c, tcs[File(n, PmMap)])
  }

  ghost predicate HasOther(g: Dir, loc: Dir, tcs: Dir, c: Bytes, e: Bytes) {
    exists r: CleanName :: r in Candidates(loc, tcs) && !Holds(g, tcs, r, c) && MapIs(CandidateMaps(loc, tcs), r, e)
  }

  predicate MapIs(maps: Dir, r: CleanName, e: Bytes) {
    File(r, PmMap) in maps && maps[File(r, PmMap)] == e
  }

  /** While the local pm_maps mirror the global store, contents are at risk exactly when every testcase that holds them
      in the global store was collected again with the pm_map of another candidate. */
  lemma FirstAtRiskIff(g: Dir, loc: Dir, tcs: Dir, c: Bytes)
    requires Mirrored(loc, g)
    ensures AtRisk(g, loc, tcs, c) <==> forall n: CleanName | Holds(g, tcs, n, c) :: Recollected(g, loc, tcs, c, n)
  {
    forall n: CleanName | Holds(g, tcs, n, c)
      ensures Replaceable(g, loc, tcs, c, n) <==> Recollected(g, loc, tcs, c, n)
    {
      ReplaceableIff(g, loc, tcs, c, n);
    }
  }

  lemma ReplaceableIff(g: Dir, loc: Dir, tcs: Dir, c: Bytes, n: CleanName)
    requires Mirrored(loc, g) && Holds(g, tcs, n, c)
    ensures Replaceable(g, loc, tcs, c, n) <==> Recollected(g, loc, tcs, c, n)
  {
    var maps := CandidateMaps(loc, tcs);
    forall r: CleanName | Equal(maps, r, n) && !Holds(g, tcs, r, c)
      ensures File(n, PmMap) in tcs && tcs[File(n, PmMap)] != c && MapIs(maps, r, tcs[File(n, PmMap)])
    {
      assert maps[File(r, PmMap)] != c;
    }
    if Recollected(g, loc, tcs, c, n) {
      var r: CleanName :| r in Candidates(loc, tcs) && !Holds(g, tcs, r, c) && MapIs(maps, r, tcs[File(n, PmMap)]);
      assert Equal(maps, r, n);
    }
  }

  /** Where both have a pm_map they agree: no name was collected again with another one. */
  ghost predicate Agree(a: Dir, g: Dir) {
    forall f | f in a && f in g && f.kind.PmMap? :: g[f] == a[f]
  }

  /** So nothing is at risk then unless some name was collected again with another pm_map. */
  lemma FirstIsSafe(g: Dir, loc: Dir, tcs: Dir, c: Bytes)
    requires Mirrored(loc, g) && Agree(tcs, g)
    requires c in Contents(g, PmMap) || c in Contents(tcs, PmMap)
    ensures !AtRisk(g, loc, tcs, c)
  {
    HeldIff(g, tcs, c);
    FirstAtRiskIff(g, loc, tcs, c);
    var n: CleanName :| Holds(g, tcs, n, c);
    assert !Recollected(g, loc, tcs, c, n);
  }
}
