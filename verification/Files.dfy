/** Testcase, map and image directories, and what the store operations of src/pmfuzz/stages/dedup.py make of them,
    as functions of the directories before. */
module Files {
  import opened Names
  import opened Lineage

  type Bytes = seq<bv8>
  type CleanName = n: Name | GoodName(n) witness [Tag(',', "0")]

  /** A file of a well-formed name; by `Names.FilesDistinct` different values are different names on disk. */
  datatype File = File(name: CleanName, kind: Kind)

  type Dir = map<File, Bytes>

  /** `.tar.gz` files, which corpus minimisation never removes. */
  predicate Archive(k: Kind) {
    k.PoolCmpr? || k.CrashCmpr?
  }

  predicate HasTc(d: Dir, n: CleanName) {
    File(n, Testcase) in d
  }

  /** The image a child of `n` is run on: the pool or the crash site archive. */
  predicate HasImage(d: Dir, n: CleanName) {
    File(n, PoolCmpr) in d || File(n, CrashCmpr) in d
  }

  /** `iter_cnt` (`Lineage.IterCntIsLineage`). */
  function Generation(n: CleanName): nat {
    |LineageOf(n)|
  }

  function Up(n: CleanName): CleanName
    requires |n| > 1
  {
    LineagePrefix(n);
    Parent(n)
  }

  /** The names of the files of one kind. */
  function NamesOf(d: Dir, k: Kind): (s: set<CleanName>)
    ensures forall n: CleanName :: n in s <==> File(n, k) in d
  {
    set f | f in d && f.kind == k :: f.name
  }

  /** The files of some kinds of some names. */
  function Take(d: Dir, names: set<CleanName>, kinds: set<Kind>): Dir {
    map f | f in d && f.name in names && f.kind in kinds :: d[f]
  }

  // ----- What holds of the directories -----

  /** The images and crash sites of iteration `iter` of stage 2, or of stage 1 for 0, have no later generation. */
  function ImageBound(iter: nat): nat {
    if iter == 0 then 1 else iter
  }

  /** A testcase comes from a run, and the image of its parent is in the global store. */
  predicate Born(g: Dir, n: CleanName) {
    TcShape(n) && (|n| > 1 ==> HasImage(g, Up(n)))
  }

  /** Lineage closure: a testcase of the global store has its image there, and so has its parent. */
  ghost predicate TestcasesOk(g: Dir) {
    forall f | f in g && f.kind.Testcase? :: File(f.name, PoolCmpr) in g && Born(g, f.name)
  }

  /** A deleted name has no testcase, map or pm_map. */
  predicate Dead(g: Dir, n: CleanName) {
    File(n, Testcase) !in g && File(n, Map) !in g && File(n, PmMap) !in g
  }

  ghost predicate TombstonesOk(g: Dir) {
    forall f | f in g && f.kind.Deleted? :: Dead(g, f.name)
  }

  /** Maps come with their testcase. */
  ghost predicate MapsOk(g: Dir) {
    forall f | f in g && (f.kind.Map? || f.kind.PmMap?) :: HasTc(g, f.name)
  }

  /** The shape of the name tells a pool from a crash site, so no name has both. */
  ghost predicate ArchivesOk(g: Dir, bound: nat) {
    && (forall f | f in g && f.kind.PoolCmpr? :: TcShape(f.name))
    && (forall f | f in g && f.kind.CrashCmpr? :: CsShape(f.name) && Generation(f.name) <= bound)
  }

  ghost predicate GlobalOk(g: Dir, iter: nat) {
    TestcasesOk(g) && TombstonesOk(g) && MapsOk(g) && ArchivesOk(g, ImageBound(iter))
  }

  /** The testcases collected by iteration `iter`: each has its image, and its parent's is in the global store. */
  ghost predicate CollectedOk(g: Dir, tcs: Dir, imgs: Dir, iter: nat) {
    forall f | f in tcs && f.kind.Testcase? ::
      File(f.name, PoolCmpr) in imgs && Born(g, f.name) && Generation(f.name) <= iter + 1
  }

  ghost predicate StageOk(g: Dir, tcs: Dir, imgs: Dir, iter: nat) {
    CollectedOk(g, tcs, imgs, iter) && MapsOk(tcs) && ArchivesOk(imgs, ImageBound(iter))
  }

  /** The testcases of iteration `iter` are of generation `iter`; all images are still in the global store. */
  ghost predicate LocalOk(g: Dir, loc: Dir, iter: nat) {
    && (forall f | f in loc && f.kind.Testcase? :: File(f.name, PoolCmpr) in g && Generation(f.name) == iter)
    && (forall f | f in loc && f.kind.CrashCmpr? :: f in g && Generation(f.name) <= iter)
    && MapsOk(loc)
  }

  /** No archive and no tombstone is lost, and no tombstoned name comes back. */
  ghost predicate Keeps(g: Dir, h: Dir) {
    forall f | f in g && (Archive(f.kind) || f.kind.Deleted?) :: f in h
  }

  lemma KeepsBorn(g: Dir, h: Dir, n: CleanName)
    requires Keeps(g, h) && Born(g, n)
    ensures Born(h, n)
  {
  }

  lemma KeepsLocal(g: Dir, h: Dir, loc: Dir, iter: nat)
    requires Keeps(g, h) && LocalOk(g, loc, iter)
    ensures LocalOk(h, loc, iter)
  {
  }

  lemma KeepsStage(g: Dir, h: Dir, tcs: Dir, imgs: Dir, iter: nat)
    requires Keeps(g, h) && StageOk(g, tcs, imgs, iter)
    ensures StageOk(h, tcs, imgs, iter)
  {
    forall f | f in tcs && f.kind.Testcase?
      ensures Born(h, f.name)
    {
      KeepsBorn(g, h, f.name);
    }
  }

  /** A testcase's image cannot be mistaken: `get_parent_img` never finds two. */
  lemma OneImage(g: Dir, bound: nat, n: CleanName)
    requires ArchivesOk(g, bound)
    ensures !(File(n, PoolCmpr) in g && File(n, CrashCmpr) in g)
  {
  }

  // ----- update_global -----

  /** A directory to which the testcases, maps and images of some names have been copied. */
  function Copied(dst: Dir, tcs: Dir, imgs: Dir, names: set<CleanName>): Dir {
    dst + Take(tcs, names, {Testcase, Map, PmMap}) + Take(imgs, names, {PoolCmpr})
  }

  function WithCrashes(dst: Dir, src: Dir, names: set<CleanName>): Dir {
    dst + Take(src, names, {CrashCmpr})
  }

  /** Testcases of a stage not yet in the global store, and not deleted from it. */
  function NewNames(g: Dir, tcs: Dir): set<CleanName> {
    set n | n in NamesOf(tcs, Testcase) && File(n, Testcase) !in g && File(n, Deleted) !in g
  }

  function NewCrashes(g: Dir, imgs: Dir): set<CleanName> {
    set n | n in NamesOf(imgs, CrashCmpr) && File(n, CrashCmpr) !in g
  }

  function GlobalAfter(g: Dir, tcs: Dir, imgs: Dir): Dir {
    WithCrashes(Copied(g, tcs, imgs, NewNames(g, tcs)), imgs, NewCrashes(g, imgs))
  }

  lemma CopiedAt(g: Dir, tcs: Dir, imgs: Dir, names: set<CleanName>, f: File)
    ensures var r := Copied(g, tcs, imgs, names);
      if f.name in names && f.kind in {Testcase, Map, PmMap} && f in tcs then f in r && r[f] == tcs[f]
      else if f.name in names && f.kind.PoolCmpr? && f in imgs then f in r && r[f] == imgs[f]
      else (f in r <==> f in g) && (f in r ==> r[f] == g[f])
  {
  }

  lemma WithCrashesHas(dst: Dir, src: Dir, names: set<CleanName>, f: File)
    ensures f in WithCrashes(dst, src, names) <==> f in dst || (f.kind.CrashCmpr? && f.name in names && f in src)
    ensures f in WithCrashes(dst, src, names) ==>
              WithCrashes(dst, src, names)[f]
              == if f.kind.CrashCmpr? && f.name in names && f in src then src[f] else dst[f]
  {
  }

  lemma GlobalAfterKeeps(g: Dir, tcs: Dir, imgs: Dir)
    ensures Keeps(g, GlobalAfter(g, tcs, imgs))
  {
  }

  /** Where a file of the updated store comes from. */
  lemma GlobalAfterHas(g: Dir, tcs: Dir, imgs: Dir, f: File)
    ensures f in GlobalAfter(g, tcs, imgs) <==>
      || f in g
      || (f.kind in {Testcase, Map, PmMap} && f.name in NewNames(g, tcs) && f in tcs)
      || (f.kind.PoolCmpr? && f.name in NewNames(g, tcs) && f in imgs)
      || (f.kind.CrashCmpr? && f in imgs)
  {
    CopiedAt(g, tcs, imgs, NewNames(g, tcs), f);
    WithCrashesHas(Copied(g, tcs, imgs, NewNames(g, tcs)), imgs, NewCrashes(g, imgs), f);
  }

  lemma GlobalAfterOk(g: Dir, tcs: Dir, imgs: Dir, made: nat, iter: nat)
    requires GlobalOk(g, iter) && StageOk(g, tcs, imgs, made) && made <= iter
    ensures GlobalOk(GlobalAfter(g, tcs, imgs), iter)
  {
    GlobalAfterTestcases(g, tcs, imgs, made);
    GlobalAfterTombstones(g, tcs, imgs);
    GlobalAfterMaps(g, tcs, imgs);
    GlobalAfterArchives(g, tcs, imgs, ImageBound(iter));
  }

  lemma GlobalAfterTestcases(g: Dir, tcs: Dir, imgs: Dir, made: nat)
    requires TestcasesOk(g) && CollectedOk(g, tcs, imgs, made)
    ensures TestcasesOk(GlobalAfter(g, tcs, imgs))
  {
    var h := GlobalAfter(g, tcs, imgs);
    GlobalAfterKeeps(g, tcs, imgs);
    forall f | f in h && f.kind.Testcase?
      ensures File(f.name, PoolCmpr) in h && Born(h, f.name)
    {
      GlobalAfterHas(g, tcs, imgs, f);
      KeepsBorn(g, h, f.name);
    }
  }

  lemma GlobalAfterTombstones(g: Dir, tcs: Dir, imgs: Dir)
    requires TombstonesOk(g)
    ensures TombstonesOk(GlobalAfter(g, tcs, imgs))
  {
    var h := GlobalAfter(g, tcs, imgs);
    forall f | f in h && f.kind.Deleted?
      ensures Dead(h, f.name)
    {
      GlobalAfterHas(g, tcs, imgs, f);
      assert Dead(g, f.name);
    }
  }

  lemma GlobalAfterMaps(g: Dir, tcs: Dir, imgs: Dir)
    requires MapsOk(g)
    ensures MapsOk(GlobalAfter(g, tcs, imgs))
  {
    var h := GlobalAfter(g, tcs, imgs);
    forall f | f in h && (f.kind.Map? || f.kind.PmMap?)
      ensures HasTc(h, f.name)
    {
      GlobalAfterHas(g, tcs, imgs, f);
      GlobalAfterHas(g, tcs, imgs, File(f.name, Testcase));
    }
  }

  lemma GlobalAfterArchives(g: Dir, tcs: Dir, imgs: Dir, bound: nat)
    requires ArchivesOk(g, bound) && ArchivesOk(imgs, bound)
    ensures ArchivesOk(GlobalAfter(g, tcs, imgs), bound)
  {
    var h := GlobalAfter(g, tcs, imgs);
    forall f | f in h && Archive(f.kind)
      ensures f in g || f in imgs
    {
      GlobalAfterHas(g, tcs, imgs, f);
    }
  }

  // ----- update_local -----

  /** `replace('.min', '')` on the listing: a minimised testcase counts as the testcase. */
  predicate Present(loc: Dir, n: CleanName) {
    File(n, Testcase) in loc || File(n, MinTestcase) in loc
  }

  /** Testcases of the iteration's own generation that are not there yet. */
  predicate Wanted(loc: Dir, iter: nat, n: CleanName) {
    Generation(n) == iter && !Present(loc, n)
  }

  function Eligible(g: Dir, loc: Dir, iter: nat): set<CleanName> {
    set n | n in NamesOf(g, Testcase) && Wanted(loc, iter, n)
  }

  /** What `update_local` cannot copy a testcase without. */
  predicate Complete(g: Dir, n: CleanName) {
    File(n, PoolCmpr) in g && File(n, Map) in g
  }

  ghost predicate AllComplete(g: Dir, loc: Dir, iter: nat) {
    forall n | n in Eligible(g, loc, iter) :: Complete(g, n)
  }

  /** All testcases to be copied have their map. */
  ghost predicate AllMapped(g: Dir, loc: Dir, iter: nat) {
    forall n | n in Eligible(g, loc, iter) :: File(n, Map) in g
  }

  function LocalAfter(g: Dir, loc: Dir, iter: nat): Dir {
    WithCrashes(Copied(loc, g, g, Eligible(g, loc, iter)), g, NewCrashes(loc, g))
  }

  lemma LocalAfterHas(g: Dir, loc: Dir, iter: nat, f: File)
    ensures f in LocalAfter(g, loc, iter) <==>
      || f in loc
      || (f in g && f.kind in {Testcase, PoolCmpr, Map, PmMap} && f.name in Eligible(g, loc, iter))
      || (f in g && f.kind.CrashCmpr?)
  {
    CopiedAt(loc, g, g, Eligible(g, loc, iter), f);
    WithCrashesHas(Copied(loc, g, g, Eligible(g, loc, iter)), g, NewCrashes(loc, g), f);
  }

  lemma LocalAfterOk(g: Dir, loc: Dir, iter: nat)
    requires TestcasesOk(g) && ArchivesOk(g, ImageBound(iter)) && LocalOk(g, loc, iter) && iter >= 1
    ensures LocalOk(g, LocalAfter(g, loc, iter), iter)
  {
    var l := LocalAfter(g, loc, iter);
    forall f | f in l
      ensures f.kind.Testcase? ==> File(f.name, PoolCmpr) in g && Generation(f.name) == iter
      ensures f.kind.CrashCmpr? ==> f in g && Generation(f.name) <= iter
      ensures f.kind.Map? || f.kind.PmMap? ==> HasTc(l, f.name)
    {
      LocalAfterHas(g, loc, iter, f);
      LocalAfterHas(g, loc, iter, File(f.name, Testcase));
    }
  }

  // ----- Corpus minimisation -----

  /** What `get_metadata_files` lists for a dropped testcase; `.tar.gz` files are left alone in the global store. */
  const ALL_FILES: seq<Kind> := [Testcase, MinTestcase, PmMap, Map, Crash, CrashCmpr, Pool, PoolCmpr]
  const BARE_FILES: seq<Kind> := [Testcase, MinTestcase, PmMap, Map, Crash, Pool]
  const TC_FILES: seq<Kind> := [Testcase, MinTestcase, PmMap, Map]

  function Without(d: Dir, names: set<CleanName>, kinds: seq<Kind>): Dir {
    map f | f in d && !(f.name in names && f.kind in kinds) :: d[f]
  }

  function Tombstones(names: set<CleanName>, stamp: Bytes): (d: Dir)
    ensures forall f :: f in d <==> f.kind.Deleted? && f.name in names
  {
    map n | n in names :: File(n, Deleted) := stamp
  }

  /** Removes files of some names and leaves placeholders for some of them. */
  function Bury(g: Dir, names: set<CleanName>, kinds: seq<Kind>, marked: set<CleanName>, stamp: Bytes): Dir {
    Without(g, names, kinds) + Tombstones(marked, stamp)
  }

  /** Lists of kinds that take a testcase with its maps, and neither archive nor placeholder. */
  predicate Bare(kinds: seq<Kind>) {
    && Testcase in kinds && Map in kinds && PmMap in kinds
    && PoolCmpr !in kinds && CrashCmpr !in kinds && Deleted !in kinds
  }

  lemma BareLists()
    ensures Bare(BARE_FILES) && Bare(TC_FILES) && Deleted !in ALL_FILES
    ensures forall k: Kind :: !k.Deleted? ==> k in ALL_FILES
  {
    assert TC_FILES[0] == Testcase && TC_FILES[2] == PmMap && TC_FILES[3] == Map;
    assert BARE_FILES[0] == Testcase && BARE_FILES[2] == PmMap && BARE_FILES[3] == Map;
    forall k: Kind | !k.Deleted?
      ensures k in ALL_FILES
    {
      var i := match k case Testcase => 0 case MinTestcase => 1 case PmMap => 2 case Map => 3
                       case Crash => 4 case CrashCmpr => 5 case Pool => 6 case PoolCmpr => 7;
      assert ALL_FILES[i] == k;
    }
  }

  lemma BuryHas(g: Dir, names: set<CleanName>, kinds: seq<Kind>, marked: set<CleanName>, stamp: Bytes, f: File)
    ensures f in Bury(g, names, kinds, marked, stamp) <==>
      (f in g && !(f.name in names && f.kind in kinds)) || (f.kind.Deleted? && f.name in marked)
    ensures f in Bury(g, names, kinds, marked, stamp) ==>
              Bury(g, names, kinds, marked, stamp)[f] == if f.kind.Deleted? && f.name in marked then stamp else g[f]
  {
  }

  lemma BuryOk(g: Dir, names: set<CleanName>, kinds: seq<Kind>, marked: set<CleanName>, stamp: Bytes, iter: nat)
    requires GlobalOk(g, iter) && marked <= names && Bare(kinds)
    ensures Keeps(g, Bury(g, names, kinds, marked, stamp))
    ensures GlobalOk(Bury(g, names, kinds, marked, stamp), iter)
  {
    BuryTestcases(g, names, kinds, marked, stamp);
    BuryTombstones(g, names, kinds, marked, stamp);
    BuryArchives(g, names, kinds, marked, stamp, ImageBound(iter));
  }

  lemma BuryTestcases(g: Dir, names: set<CleanName>, kinds: seq<Kind>, marked: set<CleanName>, stamp: Bytes)
    requires TestcasesOk(g) && Bare(kinds)
    ensures Keeps(g, Bury(g, names, kinds, marked, stamp)) && TestcasesOk(Bury(g, names, kinds, marked, stamp))
  {
    var h := Bury(g, names, kinds, marked, stamp);
    assert Keeps(g, h);
    forall f | f in h && f.kind.Testcase?
      ensures File(f.name, PoolCmpr) in h && Born(h, f.name)
    {
      BuryHas(g, names, kinds, marked, stamp, f);
      KeepsBorn(g, h, f.name);
    }
  }

  lemma BuryTombstones(g: Dir, names: set<CleanName>, kinds: seq<Kind>, marked: set<CleanName>, stamp: Bytes)
    requires TombstonesOk(g) && MapsOk(g) && marked <= names && Bare(kinds)
    ensures TombstonesOk(Bury(g, names, kinds, marked, stamp)) && MapsOk(Bury(g, names, kinds, marked, stamp))
  {
    var h := Bury(g, names, kinds, marked, stamp);
    forall f | f in h
      ensures f.kind.Deleted? ==> Dead(h, f.name)
      ensures f.kind.Map? || f.kind.PmMap? ==> HasTc(h, f.name)
    {
      BuryHas(g, names, kinds, marked, stamp, f);
      BuryHas(g, names, kinds, marked, stamp, File(f.name, Testcase));
      assert f in g && f.kind.Deleted? ==> Dead(g, f.name);
    }
  }

  lemma BuryArchives(g: Dir, names: set<CleanName>, kinds: seq<Kind>, marked: set<CleanName>, stamp: Bytes, bound: nat)
    requires ArchivesOk(g, bound)
    ensures ArchivesOk(Bury(g, names, kinds, marked, stamp), bound)
  {
    var h := Bury(g, names, kinds, marked, stamp);
    forall f | f in h && Archive(f.kind)
      ensures f in g
    {
      BuryHas(g, names, kinds, marked, stamp, f);
    }
  }

  lemma WithoutStageOk(g: Dir, tcs: Dir, imgs: Dir, iter: nat, names: set<CleanName>, marks: Dir)
    requires StageOk(g, tcs, imgs, iter) && forall f | f in marks :: f.kind.Deleted?
    ensures StageOk(g, Without(tcs, names, ALL_FILES) + marks, imgs, iter)
  {
    BareLists();
    var t := Without(tcs, names, ALL_FILES) + marks;
    assert forall f | f in t && !f.kind.Deleted? :: f in tcs && f.name !in names;
  }

  predicate HasAny(d: Dir, n: CleanName, kinds: seq<Kind>) {
    exists k :: k in kinds && File(n, k) in d
  }

  /** `os.remove` for the files of one name; those that are missing are passed over. */
  method RemoveFiles(d: Dir, n: CleanName, kinds: seq<Kind>) returns (r: Dir, removed: bool)
    ensures r == Without(d, {n}, kinds)
    ensures removed <==> HasAny(d, n, kinds)
  {
    r, removed := d, false;
    var i := 0;
    while i < |kinds|
      invariant 0 <= i <= |kinds| && r == Without(d, {n}, kinds[..i])
      invariant removed <==> exists k :: k in kinds[..i] && File(n, k) in d
    {
      var f := File(n, kinds[i]);
      assert kinds[..i + 1] == kinds[..i] + [kinds[i]];
      if f in r {
        r := r - {f};
        removed := true;
      }
      i := i + 1;
    }
    assert kinds[..|kinds|] == kinds;
  }

  lemma WithoutMore(d: Dir, a: set<CleanName>, b: set<CleanName>, kinds: seq<Kind>)
    ensures Without(Without(d, a, kinds), b, kinds) == Without(d, a + b, kinds)
  {
  }

  lemma BuryMore(g: Dir, a: set<CleanName>, b: set<CleanName>, kinds: seq<Kind>, am: set<CleanName>, bm: set<CleanName>,
                 stamp: Bytes)
    requires Deleted !in kinds
    ensures Bury(Bury(g, a, kinds, am, stamp), b, kinds, bm, stamp) == Bury(g, a + b, kinds, am + bm, stamp)
  {
    var h := Bury(g, a, kinds, am, stamp);
    var r, r' := Bury(h, b, kinds, bm, stamp), Bury(g, a + b, kinds, am + bm, stamp);
    forall f: File
      ensures f in r <==> f in r'
      ensures f in r ==> r[f] == r'[f]
    {
      BuryHas(g, a, kinds, am, stamp, f);
      BuryHas(h, b, kinds, bm, stamp, f);
      BuryHas(g, a + b, kinds, am + bm, stamp, f);
    }
    SameDir(r, r');
  }

  lemma SameDir(a: Dir, b: Dir)
    requires forall f :: f in a <==> f in b
    requires forall f | f in a :: a[f] == b[f]
    ensures a == b
  {
  }

  function NamesIn(fs: seq<File>): set<CleanName> {
    set f | f in fs :: f.name
  }

  lemma NamesInNext(fs: seq<File>, i: nat)
    requires i < |fs|
    ensures NamesIn(fs[..i + 1]) == NamesIn(fs[..i]) + {fs[i].name}
  {
    assert fs[..i + 1] == fs[..i] + [fs[i]];
  }

  /** The files of some kinds of all listed names are removed. */
  method RemoveAll(d: Dir, tcs: seq<File>, kinds: seq<Kind>) returns (r: Dir)
    ensures r == Without(d, NamesIn(tcs), kinds)
  {
    r := d;
    var i := 0;
    while i < |tcs|
      invariant 0 <= i <= |tcs| && r == Without(d, NamesIn(tcs[..i]), kinds)
    {
      NamesInNext(tcs, i);
      WithoutMore(d, NamesIn(tcs[..i]), {tcs[i].name}, kinds);
      var removed;
      r, removed := RemoveFiles(r, tcs[i].name, kinds);
      i := i + 1;
    }
    assert tcs[..|tcs|] == tcs;
  }

  /** A placeholder is written for all listed names. */
  method MarkAll(d: Dir, tcs: seq<File>, stamp: Bytes) returns (r: Dir)
    ensures r == Marked(d, NamesIn(tcs), stamp)
  {
    r := d;
    var i := 0;
    assert tcs[..0] == [];
    MarkNone(d, stamp);
    while i < |tcs|
      invariant 0 <= i <= |tcs| && r == Marked(d, NamesIn(tcs[..i]), stamp)
    {
      NamesInNext(tcs, i);
      r := MarkOne(d, NamesIn(tcs[..i]), r, tcs[i].name, stamp);
      i := i + 1;
    }
    assert tcs[..|tcs|] == tcs;
  }

  method MarkOne(ghost d: Dir, ghost names: set<CleanName>, r0: Dir, n: CleanName, stamp: Bytes) returns (r: Dir)
    requires r0 == Marked(d, names, stamp)
    ensures r == Marked(d, names + {n}, stamp)
  {
    MarkMore(d, names, n, stamp);
    r := r0[File(n, Deleted) := stamp];
  }

  function Marked(d: Dir, names: set<CleanName>, stamp: Bytes): Dir {
    d + Tombstones(names, stamp)
  }

  lemma MarkNone(d: Dir, stamp: Bytes)
    ensures Marked(d, NamesIn([]), stamp) == d
  {
  }

  lemma MarkMore(d: Dir, names: set<CleanName>, n: CleanName, stamp: Bytes)
    ensures Marked(d, names, stamp)[File(n, Deleted) := stamp] == Marked(d, names + {n}, stamp)
  {
  }
}
