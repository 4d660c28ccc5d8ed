/** Deduplication of a directory by map contents (src/pmfuzz/core/dedupengine.py). */
module DedupEngine {
  import opened Files
  import opened Grouping
  import opened Listing
  import opened Names
  import Lineage

  /** One less than `iter_cnt`. */
  function AncestorCnt(n: CleanName): int {
    Generation(n) - 1
  }

  /** It is what the program reads off the name of any file of `n`. */
  lemma AncestorsOfFile(n: CleanName, k: Kind)
    requires !k.Deleted?
    ensures Lineage.IterCnt(FileName(n, k)).Some? && Lineage.IterCnt(FileName(n, k)).value == AncestorCnt(n) + 1
  {
    Lineage.IterCntIsLineage(n, k);
  }

  /** `ancestor_cnts.index(min(ancestor_cnts))` */
  method MinIndex(group: seq<File>) returns (i: nat)
    requires group != []
    ensures i < |group|
    ensures forall j | 0 <= j < |group| :: AncestorCnt(group[i].name) <= AncestorCnt(group[j].name)
    ensures forall j | 0 <= j < i :: AncestorCnt(group[i].name) < AncestorCnt(group[j].name)
  {
    i := 0;
    var j := 1;
    while j < |group|
      invariant 1 <= j <= |group| && i < |group|
      invariant forall k | 0 <= k < j :: AncestorCnt(group[i].name) <= AncestorCnt(group[k].name)
      invariant forall k | 0 <= k < i :: AncestorCnt(group[i].name) < AncestorCnt(group[k].name)
    {
      if AncestorCnt(group[j].name) < AncestorCnt(group[i].name) {
        i := j;
      }
      j := j + 1;
    }
  }

  /** `_delete_tcs`: a placeholder for each testcase, then all their files are removed. */
  method DeleteTcs(d: Dir, tcs: seq<File>, stamp: Bytes) returns (r: Dir)
    ensures r == Bury(d, NamesIn(tcs), ALL_FILES, NamesIn(tcs), stamp)
  {
    r := MarkAll(d, tcs, stamp);
    r := RemoveAll(r, tcs, ALL_FILES);
    MarkThenRemove(d, NamesIn(tcs), stamp);
  }

  lemma MarkThenRemove(d: Dir, names: set<CleanName>, stamp: Bytes)
    ensures Without(Marked(d, names, stamp), names, ALL_FILES) == Bury(d, names, ALL_FILES, names, stamp)
  {
    BareLists();
  }

  predicate Same(d: Dir, k: Kind, hash: Digest, m: CleanName, n: CleanName) {
    File(m, k) in d && File(n, k) in d && hash(d[File(m, k)]) == hash(d[File(n, k)])
  }

  ghost predicate Beaten(d: Dir, k: Kind, hash: Digest, losers: set<CleanName>, n: CleanName) {
    exists m: CleanName :: m !in losers && Same(d, k, hash, m, n) && AncestorCnt(m) <= AncestorCnt(n)
  }

  /** Of the files of kind `k` with equal digests exactly one does not lose, and it has the fewest ancestors. */
  ghost predicate Losers(d: Dir, k: Kind, hash: Digest, losers: set<CleanName>) {
    && (forall n | n in losers :: Beaten(d, k, hash, losers, n))
    && (forall m: CleanName, n: CleanName | m !in losers && n !in losers && Same(d, k, hash, m, n) :: m == n)
  }

  /** `m` is taken rather than `n`: it has fewer ancestors, or as many and is listed first. */
  ghost predicate Beats(order: seq<File>, m: File, n: File) {
    || AncestorCnt(m.name) < AncestorCnt(n.name)
    || (AncestorCnt(m.name) == AncestorCnt(n.name) && Before(order, m, n))
  }

  /** The names of kind `k` that lose when a directory is listed in this order: another file with the same digest is
      taken rather than theirs. */
  ghost function LosersBy(d: Dir, k: Kind, order: seq<File>, hash: Digest): set<CleanName> {
    set n | n in NamesOf(d, k) && BeatenBy(d, k, order, hash, n)
  }

  ghost predicate BeatenBy(d: Dir, k: Kind, order: seq<File>, hash: Digest, n: CleanName) {
    exists m: CleanName :: Same(d, k, hash, m, n) && Beats(order, File(m, k), File(n, k))
  }

  /** The directory when all losers are gone. */
  ghost function DedupedBy(d: Dir, k: Kind, order: seq<File>, hash: Digest, stamp: Bytes): Dir {
    var losers := LosersBy(d, k, order, hash);
    Bury(d, losers, ALL_FILES, losers, stamp)
  }

  /** The directory after a run that was given its files in this order. */
  ghost predicate Outcome(d: Dir, k: Kind, hash: Digest, stamp: Bytes, order: seq<File>, r: Dir) {
    Lists(order, d.Keys) && r == DedupedBy(d, k, order, hash, stamp)
  }

  /** `hash_map[key]` without the first of its entries of fewest ancestors. */
  method Drop(group: seq<File>) returns (best: File, rest: seq<File>)
    requires group != [] && Distinct(group)
    ensures best in group && forall f | f in group && f != best :: Beats(group, best, f)
    ensures forall f :: f in rest <==> f in group && f != best
  {
    var i := MinIndex(group);
    best := group[i];
    rest := group[..i] + group[i + 1..];
    assert group == group[..i] + [best] + group[i + 1..];
    forall f | f in group && f != best
      ensures Beats(group, best, f)
    {
      var j :| 0 <= j < |group| && group[j] == f;
      assert i < j ==> Before(group, best, f);
    }
  }

  /** After the digests `done`: in each group all lose but the best. */
  ghost predicate Sorted(d: Dir, k: Kind, order: seq<File>, hash: Digest, done: set<string>, best: map<string, File>,
                         losers: set<CleanName>)
  {
    && best.Keys == done
    && (forall h | h in done ::
         Match(d, k, hash, best[h], h)
         && forall f | Match(d, k, hash, f, h) && f != best[h] :: Beats(order, best[h], f))
    && (forall n: CleanName :: n in losers <==>
         File(n, k) in d && hash(d[File(n, k)]) in done && best[hash(d[File(n, k)])] != File(n, k))
  }

  /** `run` with a checker for one kind of map, for some order of the listing it is given. */
  method Run(d: Dir, k: Kind, hash: Digest, stamp: Bytes) returns (r: Dir)
    ensures exists order :: Outcome(d, k, hash, stamp, order, r)
  {
    var testcases := ListDir(d.Keys);
    var groups := CollectGroups(d, k, testcases, hash);
    ghost var best, losers;
    r, best, losers := DropGroups(d, k, testcases, hash, groups, stamp);
    AllGrouped(d, k, testcases, hash, groups);
    SortedLosers(d, k, testcases, hash, groups.Keys, best, losers);
    assert Outcome(d, k, hash, stamp, testcases, r);
  }

  /** The second loop of `run`. */
  method DropGroups(d: Dir, k: Kind, ghost order: seq<File>, ghost hash: Digest, groups: map<string, seq<File>>,
                    stamp: Bytes)
    returns (r: Dir, ghost best: map<string, File>, ghost losers: set<CleanName>)
    requires Lists(order, d.Keys) && Grouped(d, k, order, hash, groups)
    ensures Dropped(d, k, order, hash, stamp, groups.Keys, best, losers, r)
  {
    r, best, losers := d, map[], {};
    var rest := groups.Keys;
    ghost var done: set<string> := {};
    Nothing(d, k, order, hash, stamp);
    while rest != {}
      invariant rest <= groups.Keys && done == groups.Keys - rest
      invariant Dropped(d, k, order, hash, stamp, done, best, losers, r)
      decreases rest
    {
      var h :| h in rest;
      r, best, losers := DropGroup(d, k, order, hash, h, groups[h], r, stamp, done, best, losers);
      OneMore(groups.Keys, rest, h);
      rest := rest - {h};
      done := done + {h};
    }
    assert done == groups.Keys;
  }

  /** The directory after the digests `done`. */
  ghost predicate Dropped(d: Dir, k: Kind, order: seq<File>, hash: Digest, stamp: Bytes, done: set<string>,
                          best: map<string, File>, losers: set<CleanName>, now: Dir)
  {
    Sorted(d, k, order, hash, done, best, losers) && now == Bury(d, losers, ALL_FILES, losers, stamp)
  }

  lemma Nothing(d: Dir, k: Kind, order: seq<File>, hash: Digest, stamp: Bytes)
    ensures Dropped(d, k, order, hash, stamp, {}, map[], {}, d)
  {
  }

  /** ...for one digest. */
  method DropGroup(d: Dir, k: Kind, ghost order: seq<File>, ghost hash: Digest, ghost h: string, group: seq<File>,
                   now: Dir, stamp: Bytes, ghost done: set<string>, ghost best: map<string, File>,
                   ghost losers: set<CleanName>)
    returns (r: Dir, ghost best': map<string, File>, ghost losers': set<CleanName>)
    requires Lists(order, d.Keys) && group == Group(d, k, order, hash, h) != [] && h !in done
    requires Dropped(d, k, order, hash, stamp, done, best, losers, now)
    ensures Dropped(d, k, order, hash, stamp, done + {h}, best', losers', r)
  {
    GroupDistinct(d, k, order, hash, h);
    var b, others := Drop(group);
    r := DeleteTcs(now, others, stamp);
    best', losers' := best[h := b], losers + NamesIn(others);
    forall f
      ensures f in group <==> Match(d, k, hash, f, h)
      ensures f in group && f != b ==> Beats(order, b, f)
    {
      InGroup(d, k, order, hash, h, f);
      if Before(group, b, f) {
        GroupBefore(d, k, order, hash, h, b, f);
      }
    }
    SortedStep(d, k, order, hash, done, best, losers, h, b, others);
    BareLists();
    BuryMore(d, losers, NamesIn(others), ALL_FILES, losers, NamesIn(others), stamp);
  }

  lemma SortedStep(d: Dir, k: Kind, order: seq<File>, hash: Digest, done: set<string>, best: map<string, File>,
                   losers: set<CleanName>, h: string, b: File, others: seq<File>)
    requires Sorted(d, k, order, hash, done, best, losers) && h !in done && Match(d, k, hash, b, h)
    requires forall f | Match(d, k, hash, f, h) && f != b :: Beats(order, b, f)
    requires forall f :: f in others <==> Match(d, k, hash, f, h) && f != b
    ensures Sorted(d, k, order, hash, done + {h}, best[h := b], losers + NamesIn(others))
  {
    forall n: CleanName
      ensures n in NamesIn(others) <==> Match(d, k, hash, File(n, k), h) && File(n, k) != b
    {
      NameListed(others, k, n);
    }
  }

  lemma NameListed(fs: seq<File>, k: Kind, n: CleanName)
    requires forall f | f in fs :: f.kind == k
    ensures n in NamesIn(fs) <==> File(n, k) in fs
  {
  }

  lemma AllGrouped(d: Dir, k: Kind, order: seq<File>, hash: Digest, groups: map<string, seq<File>>)
    requires Lists(order, d.Keys) && Grouped(d, k, order, hash, groups)
    ensures forall f | f in d && f.kind == k :: hash(d[f]) in groups
  {
    forall f | f in d && f.kind == k
      ensures hash(d[f]) in groups
    {
      InGroup(d, k, order, hash, hash(d[f]), f);
    }
  }

  lemma SortedLosers(d: Dir, k: Kind, order: seq<File>, hash: Digest, done: set<string>, best: map<string, File>,
                     losers: set<CleanName>)
    requires Distinct(order) && Sorted(d, k, order, hash, done, best, losers)
    requires forall f | f in d && f.kind == k :: hash(d[f]) in done
    ensures losers == LosersBy(d, k, order, hash)
  {
    forall n: CleanName | File(n, k) in d
      ensures n in losers <==> BeatenBy(d, k, order, hash, n)
    {
      BestUnbeaten(d, k, order, hash, done, best, losers, n);
    }
    assert forall n | n in losers :: n in NamesOf(d, k);
  }

  lemma BestUnbeaten(d: Dir, k: Kind, order: seq<File>, hash: Digest, done: set<string>, best: map<string, File>,
                     losers: set<CleanName>, n: CleanName)
    requires Distinct(order) && Sorted(d, k, order, hash, done, best, losers)
    requires File(n, k) in d && hash(d[File(n, k)]) in done
    ensures BeatenBy(d, k, order, hash, n) <==> best[hash(d[File(n, k)])] != File(n, k)
  {
    var h := hash(d[File(n, k)]);
    var b := best[h];
    assert Match(d, k, hash, File(n, k), h);
    assert b == File(b.name, k) && Same(d, k, hash, b.name, n);
    forall m: CleanName | Same(d, k, hash, m, n)
      ensures !Beats(order, File(m, k), b)
    {
      assert Match(d, k, hash, File(m, k), h);
      BeatsOnce(order, b, File(m, k));
    }
  }

  /** A file does not beat itself, nor the one that beats it. */
  lemma BeatsOnce(order: seq<File>, m: File, n: File)
    requires Distinct(order)
    ensures !Beats(order, m, m)
    ensures Beats(order, m, n) ==> !Beats(order, n, m)
  {
  }

  // ----- What the losers are -----

  /** Whatever the order of the listing, exactly one file stays for each digest, and it has the fewest ancestors. */
  lemma OrderLosers(d: Dir, k: Kind, order: seq<File>, hash: Digest)
    requires Lists(order, d.Keys)
    ensures Losers(d, k, hash, LosersBy(d, k, order, hash))
  {
    var losers := LosersBy(d, k, order, hash);
    forall n | n in losers
      ensures Beaten(d, k, hash, losers, n)
    {
      var j :| 0 <= j < |order| && order[j] == File(n, k);
      var m := Unbeaten(d, k, order, hash, n, j);
    }
    forall m: CleanName, n: CleanName | Same(d, k, hash, m, n) && m != n
      ensures m in losers || n in losers
    {
      BeatsOther(order, d, File(m, k), File(n, k));
      assert Same(d, k, hash, n, m);
    }
  }

  /** Of two files listed one beats the other. */
  lemma BeatsOther(order: seq<File>, d: Dir, m: File, n: File)
    requires Lists(order, d.Keys) && m in d && n in d && m != n
    ensures Beats(order, m, n) || Beats(order, n, m)
  {
    var i :| 0 <= i < |order| && order[i] == m;
    var j :| 0 <= j < |order| && order[j] == n;
    assert i < j ==> Before(order, m, n);
    assert j < i ==> Before(order, n, m);
  }

  lemma {:induction false} Unbeaten(d: Dir, k: Kind, order: seq<File>, hash: Digest, n: CleanName, j: nat)
    returns (m: CleanName)
    requires Lists(order, d.Keys) && j < |order| && order[j] == File(n, k)
    ensures m !in LosersBy(d, k, order, hash) && Same(d, k, hash, m, n) && AncestorCnt(m) <= AncestorCnt(n)
    decreases AncestorCnt(n), j
  {
    m := n;
    if BeatenBy(d, k, order, hash, n) {
      var b: CleanName :| Same(d, k, hash, b, n) && Beats(order, File(b, k), File(n, k));
      var i := Position(order, d, File(b, k), File(n, k), j);
      m := Unbeaten(d, k, order, hash, b, i);
    }
  }

  lemma Position(order: seq<File>, d: Dir, e: File, f: File, j: nat) returns (i: nat)
    requires Lists(order, d.Keys) && e in d && j < |order| && order[j] == f
    ensures i < |order| && order[i] == e && (Before(order, e, f) ==> i < j)
  {
    i :| 0 <= i < |order| && order[i] == e;
  }

  /** Conversely every such set of losers arises, when the files that stay are listed first. */
  lemma LosersArise(d: Dir, k: Kind, hash: Digest, losers: set<CleanName>) returns (order: seq<File>)
    requires Losers(d, k, hash, losers)
    ensures Lists(order, d.Keys) && LosersBy(d, k, order, hash) == losers
  {
    var first := set f | f in d && f.kind == k && f.name !in losers;
    order := ListsFirst(d.Keys, first);
    forall n: CleanName | File(n, k) in d
      ensures n in losers <==> BeatenBy(d, k, order, hash, n)
    {
      if n in losers {
        BeatenArises(d, k, hash, losers, order, first, n);
      } else {
        StayerUnbeaten(d, k, hash, losers, order, first, n);
      }
    }
    forall n | n in losers
      ensures n in NamesOf(d, k)
    {
      assert Beaten(d, k, hash, losers, n);
    }
  }

  lemma BeatenArises(d: Dir, k: Kind, hash: Digest, losers: set<CleanName>, order: seq<File>, first: set<File>,
                     n: CleanName)
    requires Lists(order, d.Keys) && Beaten(d, k, hash, losers, n) && n in losers
    requires first == set f | f in d && f.kind == k && f.name !in losers
    requires forall i, j | 0 <= i < j < |order| && order[j] in first :: order[i] in first
    ensures BeatenBy(d, k, order, hash, n)
  {
    var m: CleanName :| m !in losers && Same(d, k, hash, m, n) && AncestorCnt(m) <= AncestorCnt(n);
    var i :| 0 <= i < |order| && order[i] == File(m, k);
    var j :| 0 <= j < |order| && order[j] == File(n, k);
    assert order[i] in first && order[j] !in first;
    assert Before(order, File(m, k), File(n, k));
  }

  lemma StayerUnbeaten(d: Dir, k: Kind, hash: Digest, losers: set<CleanName>, order: seq<File>, first: set<File>,
                       n: CleanName)
    requires Lists(order, d.Keys) && Losers(d, k, hash, losers) && n !in losers && File(n, k) in d
    requires first == set f | f in d && f.kind == k && f.name !in losers
    requires forall i, j | 0 <= i < j < |order| && order[j] in first :: order[i] in first
    ensures !BeatenBy(d, k, order, hash, n)
  {
    forall m: CleanName | Same(d, k, hash, m, n)
      ensures !Beats(order, File(m, k), File(n, k))
    {
      assert Same(d, k, hash, n, m);
      FewestAncestors(d, k, hash, losers, n, m);
      assert m != n ==> File(m, k) !in first;
      assert File(n, k) in first;
    }
  }

  /** The file that stays for a digest has the fewest ancestors of all with that digest. */
  lemma FewestAncestors(d: Dir, k: Kind, hash: Digest, losers: set<CleanName>, m: CleanName, n: CleanName)
    requires Losers(d, k, hash, losers) && m !in losers && Same(d, k, hash, m, n)
    ensures AncestorCnt(m) <= AncestorCnt(n)
  {
    if n in losers {
      assert Beaten(d, k, hash, losers, n);
    }
  }

  /** Removing the losers loses no map contents, provided the digest tells those present apart, and takes no file
      of a name that stays. */
  lemma LosesNothing(d: Dir, k: Kind, hash: Digest, losers: set<CleanName>, stamp: Bytes)
    requires Losers(d, k, hash, losers) && !k.Deleted? && TellsApart(hash, Contents(d, k))
    ensures Contents(Bury(d, losers, ALL_FILES, losers, stamp), k) == Contents(d, k)
    ensures forall f | f in d && f.name !in losers :: f in Bury(d, losers, ALL_FILES, losers, stamp)
  {
    var r := Bury(d, losers, ALL_FILES, losers, stamp);
    forall c | c in Contents(d, k)
      ensures c in Contents(r, k)
    {
      var f :| f in d && f.kind == k && d[f] == c;
      if f.name in losers {
        assert Beaten(d, k, hash, losers, f.name);
        var m: CleanName :| m !in losers && Same(d, k, hash, m, f.name);
        assert d[File(m, k)] == c && File(m, k) in r && r[File(m, k)] == c;
      } else {
        assert f in r && r[f] == c;
      }
    }
  }

  // ----- PM coverage when execution maps are deduplicated -----

  predicate HoldsPm(d: Dir, n: CleanName, c: Bytes) {
    File(n, PmMap) in d && d[File(n, PmMap)] == c
  }

  /** No file with the digest of `m` has fewer ancestors. */
  ghost predicate Fewest(d: Dir, k: Kind, hash: Digest, m: CleanName) {
    forall n: CleanName | Same(d, k, hash, m, n) :: AncestorCnt(m) <= AncestorCnt(n)
  }

  /** A testcase without pm_map `c` that may stay instead of `n`. */
  ghost predicate Displaces(d: Dir, k: Kind, hash: Digest, c: Bytes, n: CleanName, m: CleanName) {
    Same(d, k, hash, m, n) && Fewest(d, k, hash, m) && !HoldsPm(d, m, c)
  }

  /** Every holder of the pm_map contents `c` can be displaced. */
  ghost predicate MayLosePm(d: Dir, k: Kind, hash: Digest, c: Bytes) {
    forall n: CleanName | HoldsPm(d, n, c) :: exists m :: Displaces(d, k, hash, c, n, m)
  }

  lemma {:induction false} SomeFewest(d: Dir, k: Kind, hash: Digest, n: CleanName) returns (m: CleanName)
    requires File(n, k) in d
    ensures Same(d, k, hash, m, n) && Fewest(d, k, hash, m)
    decreases AncestorCnt(n)
  {
    m := n;
    if !Fewest(d, k, hash, n) {
      var less: CleanName :| Same(d, k, hash, n, less) && AncestorCnt(less) < AncestorCnt(n);
      m := SomeFewest(d, k, hash, less);
    }
  }

  /** A name that may stay for the digest `h`. */
  ghost predicate MayStay(d: Dir, k: Kind, hash: Digest, h: string, m: CleanName) {
    Match(d, k, hash, File(m, k), h) && Fewest(d, k, hash, m)
  }

  lemma SomeStays(d: Dir, k: Kind, hash: Digest, n: CleanName)
    requires File(n, k) in d
    ensures exists m :: MayStay(d, k, hash, hash(d[File(n, k)]), m)
  {
    var m := SomeFewest(d, k, hash, n);
    assert MayStay(d, k, hash, hash(d[File(n, k)]), m);
  }

  /** Who stays for the digest of `n`: if possible one that does not hold `c`. */
  ghost function Stays(d: Dir, k: Kind, hash: Digest, c: Bytes, n: CleanName): CleanName
    requires File(n, k) in d
  {
    Choice(d, k, hash, c, hash(d[File(n, k)]), n)
  }

  ghost function Choice(d: Dir, k: Kind, hash: Digest, c: Bytes, h: string, default: CleanName): CleanName {
    if exists m: CleanName :: MayStay(d, k, hash, h, m) && !HoldsPm(d, m, c) then
      var m: CleanName :| MayStay(d, k, hash, h, m) && !HoldsPm(d, m, c);
      m
    else if exists m: CleanName :: MayStay(d, k, hash, h, m) then
      var m: CleanName :| MayStay(d, k, hash, h, m);
      m
    else default
  }

  /** With this order of the listing the contents `c` of a pm_map are gone. */
  ghost predicate LosesPm(d: Dir, order: seq<File>, hash: Digest, stamp: Bytes, c: Bytes) {
    c !in Contents(DedupedBy(d, Map, order, hash, stamp), PmMap)
  }

  /** Deduplicating by execution maps loses the contents `c` of a pm_map, for some order of the listing, exactly when
      every holder can be displaced. */
  lemma LosesPmIff(d: Dir, hash: Digest, stamp: Bytes, c: Bytes)
    ensures MayLosePm(d, Map, hash, c) <==> exists order :: Lists(order, d.Keys) && LosesPm(d, order, hash, stamp, c)
  {
    if MayLosePm(d, Map, hash, c) {
      DisplacedLose(d, Map, hash, c);
      var order := LosersArise(d, Map, hash, Displaced(d, Map, hash, c));
      PmLost(d, Displaced(d, Map, hash, c), stamp, c);
      assert LosesPm(d, order, hash, stamp, c);
    }
    forall order | Lists(order, d.Keys) && LosesPm(d, order, hash, stamp, c)
      ensures MayLosePm(d, Map, hash, c)
    {
      OrderLosers(d, Map, order, hash);
      PmLost(d, LosersBy(d, Map, order, hash), stamp, c);
      LostDisplaced(d, Map, hash, LosersBy(d, Map, order, hash), c);
    }
  }

  lemma LostDisplaced(d: Dir, k: Kind, hash: Digest, losers: set<CleanName>, c: Bytes)
    requires Losers(d, k, hash, losers) && forall n: CleanName | HoldsPm(d, n, c) :: n in losers
    ensures MayLosePm(d, k, hash, c)
  {
    forall n: CleanName | HoldsPm(d, n, c)
      ensures exists m :: Displaces(d, k, hash, c, n, m)
    {
      assert Beaten(d, k, hash, losers, n);
      var m: CleanName :| m !in losers && Same(d, k, hash, m, n) && AncestorCnt(m) <= AncestorCnt(n);
      forall x: CleanName | Same(d, k, hash, m, x)
        ensures AncestorCnt(m) <= AncestorCnt(x)
      {
        FewestAncestors(d, k, hash, losers, m, x);
      }
      assert Displaces(d, k, hash, c, n, m);
    }
  }

  /** All names of a kind but those that stay. */
  ghost function Displaced(d: Dir, k: Kind, hash: Digest, c: Bytes): set<CleanName> {
    set n | n in NamesOf(d, k) && Stays(d, k, hash, c, n) != n
  }

  lemma StaysFor(d: Dir, k: Kind, hash: Digest, c: Bytes, n: CleanName)
    requires File(n, k) in d
    ensures var m := Stays(d, k, hash, c, n);
      && Same(d, k, hash, m, n) && Fewest(d, k, hash, m) && Stays(d, k, hash, c, m) == m
      && ((exists x :: Displaces(d, k, hash, c, n, x)) ==> !HoldsPm(d, m, c))
  {
    var h := hash(d[File(n, k)]);
    SomeStays(d, k, hash, n);
    var m := Stays(d, k, hash, c, n);
    assert MayStay(d, k, hash, h, m);
    ChoiceSame(d, k, hash, c, h, n, m);
    if x :| Displaces(d, k, hash, c, n, x) {
      assert MayStay(d, k, hash, h, x);
    }
  }

  lemma ChoiceSame(d: Dir, k: Kind, hash: Digest, c: Bytes, h: string, m: CleanName, n: CleanName)
    requires exists x :: MayStay(d, k, hash, h, x)
    ensures Choice(d, k, hash, c, h, m) == Choice(d, k, hash, c, h, n)
  {
  }

  lemma DisplacedLose(d: Dir, k: Kind, hash: Digest, c: Bytes)
    requires MayLosePm(d, k, hash, c)
    ensures Losers(d, k, hash, Displaced(d, k, hash, c))
    ensures forall n: CleanName | HoldsPm(d, n, c) :: n in Displaced(d, k, hash, c)
  {
    var losers := Displaced(d, k, hash, c);
    forall n | n in losers
      ensures Beaten(d, k, hash, losers, n)
    {
      StaysFor(d, k, hash, c, n);
      assert Stays(d, k, hash, c, n) !in losers;
    }
    forall m: CleanName, n: CleanName | m !in losers && n !in losers && Same(d, k, hash, m, n)
      ensures m == n
    {
      SomeStays(d, k, hash, n);
      ChoiceSame(d, k, hash, c, hash(d[File(n, k)]), m, n);
    }
    forall n: CleanName | HoldsPm(d, n, c)
      ensures n in losers
    {
      var x :| Displaces(d, k, hash, c, n, x);
      StaysFor(d, k, hash, c, n);
    }
  }

  lemma PmLost(d: Dir, losers: set<CleanName>, stamp: Bytes, c: Bytes)
    ensures c !in Contents(Bury(d, losers, ALL_FILES, losers, stamp), PmMap)
       <==> forall n: CleanName | HoldsPm(d, n, c) :: n in losers
  {
    BareLists();
    var r := Bury(d, losers, ALL_FILES, losers, stamp);
    forall n: CleanName
      ensures HoldsPm(r, n, c) <==> HoldsPm(d, n, c) && n !in losers
    {
      BuryHas(d, losers, ALL_FILES, losers, stamp, File(n, PmMap));
    }
    if c in Contents(r, PmMap) {
      var f :| f in r && f.kind.PmMap? && r[f] == c;
      assert f == File(f.name, PmMap) && HoldsPm(r, f.name, c);
    }
    forall n: CleanName | HoldsPm(r, n, c)
      ensures c in Contents(r, PmMap)
    {
      assert r[File(n, PmMap)] == c;
    }
  }
}
