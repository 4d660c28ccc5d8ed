/** The corpus minimiser src/pmfuzz/tools/pmfuzz-cmin: of the testcases with equal pm_maps it copies only the first
    one listed. */
module Cmin {
  import opened Files
  import opened Grouping
  import opened Listing
  import opened Names

  predicate After(maps: Dir, order: seq<File>, hash: Digest, h: string, f: File, i: int, j: int) {
    0 <= i < j < |order| && order[j] == f && Match(maps, PmMap, hash, order[i], h)
  }

  /** Listed after a pm_map with digest `h`. */
  ghost predicate Late(maps: Dir, order: seq<File>, hash: Digest, h: string, f: File) {
    Match(maps, PmMap, hash, f, h) && exists i, j :: After(maps, order, hash, h, f, i, j)
  }

  /** A pm_map listed after another one with the same digest. */
  ghost predicate Duplicate(maps: Dir, order: seq<File>, hash: Digest, f: File) {
    f in maps && Late(maps, order, hash, hash(maps[f]), f)
  }

  lemma LateStep(maps: Dir, order: seq<File>, hash: Digest, h: string, f: File)
    requires order != []
    ensures var last := |order| - 1;
      Late(maps, order, hash, h, f) <==>
        || Late(maps, order[..last], hash, h, f)
        || (f == order[last] && Match(maps, PmMap, hash, f, h) && Group(maps, PmMap, order[..last], hash, h) != [])
  {
    var last := |order| - 1;
    var before := order[..last];
    var g := Group(maps, PmMap, before, hash, h);
    if Late(maps, order, hash, h, f) {
      var i, j :| After(maps, order, hash, h, f, i, j);
      InGroup(maps, PmMap, before, hash, h, order[i]);
      assert j < last ==> After(maps, before, hash, h, f, i, j);
    }
    if Late(maps, before, hash, h, f) {
      var i, j :| After(maps, before, hash, h, f, i, j);
      assert After(maps, order, hash, h, f, i, j);
    }
    if f == order[last] && g != [] {
      InGroup(maps, PmMap, before, hash, h, g[0]);
      var i :| 0 <= i < |before| && before[i] == g[0];
      assert After(maps, order, hash, h, f, i, last);
    }
  }

  /** The members of a group but its first are the duplicates of that digest. */
  lemma {:induction false} GroupTail(maps: Dir, order: seq<File>, hash: Digest, h: string, f: File)
    requires Group(maps, PmMap, order, hash, h) != []
    ensures f in Group(maps, PmMap, order, hash, h)[1..] <==> Late(maps, order, hash, h, f)
  {
    var last := |order| - 1;
    var g := Group(maps, PmMap, order[..last], hash, h);
    LateStep(maps, order, hash, h, f);
    if g == [] {
      NotLate(maps, order[..last], hash, h, f);
    } else {
      GroupTail(maps, order[..last], hash, h, f);
      assert g + [] == g && (g + [order[last]])[1..] == g[1..] + [order[last]];
      assert [order[last]][0] == order[last];
    }
  }

  lemma NotLate(maps: Dir, order: seq<File>, hash: Digest, h: string, f: File)
    requires Group(maps, PmMap, order, hash, h) == []
    ensures !Late(maps, order, hash, h, f)
  {
    if Late(maps, order, hash, h, f) {
      var i, j :| After(maps, order, hash, h, f, i, j);
      InGroup(maps, PmMap, order, hash, h, order[i]);
    }
  }

  /** The testcases of which no equal one is listed earlier. */
  ghost function KeptBy(tcs: set<CleanName>, maps: Dir, order: seq<File>, hash: Digest): set<CleanName> {
    set n | n in tcs && !Duplicate(maps, order, hash, File(n, PmMap))
  }

  // ----- The loops of `main` -----

  method Duplicates(groups: map<string, seq<File>>) returns (dups: seq<File>)
    requires forall h | h in groups :: groups[h] != []
    ensures forall f :: f in dups <==> exists h :: h in groups && f in groups[h][1..]
  {
    dups := [];
    var rest := groups.Keys;
    while rest != {}
      invariant rest <= groups.Keys
      invariant forall f :: f in dups <==> exists h :: h in groups.Keys - rest && f in groups[h][1..]
      decreases rest
    {
      var h :| h in rest;
      ghost var before := dups;
      if |groups[h]| > 1 {
        dups := dups + groups[h][1..];
      }
      assert forall f :: f in dups <==> f in before || f in groups[h][1..];
      rest := rest - {h};
    }
  }

  /** The files not to copy: each duplicate pm_map and its testcase. */
  method NotCopied(dups: seq<File>) returns (l: seq<File>)
    requires forall f | f in dups :: f.kind.PmMap?
    ensures forall n: CleanName :: File(n, Testcase) in l <==> File(n, PmMap) in dups
  {
    l := [];
    var k := 0;
    while k < |dups|
      invariant 0 <= k <= |dups|
      invariant forall n: CleanName :: File(n, Testcase) in l <==> File(n, PmMap) in dups[..k]
    {
      l := l + [dups[k], File(dups[k].name, Testcase)];
      k := k + 1;
    }
  }

  /** `main`: the testcases copied to the output directory, for some order of the map directory's listing. */
  method Minimize(inDir: set<CleanName>, maps: Dir, hash: Digest) returns (out: set<CleanName>)
    ensures exists order :: Lists(order, maps.Keys) && out == KeptBy(inDir, maps, order, hash)
  {
    var listing := ListDir(maps.Keys);
    var groups := CollectGroups(maps, PmMap, listing, hash);
    var dups := Duplicates(groups);
    DuplicatesAre(maps, listing, hash, groups, dups);
    var skipped := NotCopied(dups);
    out := set n | n in inDir && File(n, Testcase) !in skipped;
    assert out == KeptBy(inDir, maps, listing, hash);
  }

  lemma DuplicatesAre(maps: Dir, order: seq<File>, hash: Digest, groups: map<string, seq<File>>, dups: seq<File>)
    requires Grouped(maps, PmMap, order, hash, groups)
    requires forall f :: f in dups <==> exists h :: h in groups && f in groups[h][1..]
    ensures forall f :: f in dups <==> Duplicate(maps, order, hash, f)
    ensures forall f | f in dups :: f.kind.PmMap?
  {
    forall f
      ensures f in dups <==> Duplicate(maps, order, hash, f)
      ensures f in dups ==> f.kind.PmMap?
    {
      if f in dups {
        var h :| h in groups && f in groups[h][1..];
        GroupTail(maps, order, hash, h, f);
      }
      if Duplicate(maps, order, hash, f) {
        var h := hash(maps[f]);
        if Group(maps, PmMap, order, hash, h) == [] {
          NotLate(maps, order, hash, h, f);
        }
        GroupTail(maps, order, hash, h, f);
        assert h in groups;
      }
    }
  }

  // ----- What the selection means -----

  /** Two names whose pm_maps have the same digest. */
  predicate SameMap(maps: Dir, hash: Digest, m: CleanName, n: CleanName) {
    && File(m, PmMap) in maps && File(n, PmMap) in maps
    && hash(maps[File(m, PmMap)]) == hash(maps[File(n, PmMap)])
  }

  /** Exactly one testcase is kept for each digest, and every testcase without a pm_map. */
  ghost predicate OnePerDigest(tcs: set<CleanName>, maps: Dir, hash: Digest, kept: set<CleanName>) {
    && kept <= tcs
    && (forall n | n in tcs && n !in kept :: Represented(maps, hash, kept, n))
    && (forall m, n | m in kept && n in kept && SameMap(maps, hash, m, n) :: m == n)
  }

  /** Some kept testcase has a pm_map with the digest of the pm_map of `n`. */
  ghost predicate Represented(maps: Dir, hash: Digest, kept: set<CleanName>, n: CleanName) {
    exists m :: m in kept && SameMap(maps, hash, m, n)
  }

  /** Whatever the order of the listing, `Minimize` keeps one testcase for each digest. */
  lemma MinimizeMeans(tcs: set<CleanName>, maps: Dir, hash: Digest, order: seq<File>)
    requires Lists(order, maps.Keys) && forall f | f in maps && f.kind.PmMap? :: f.name in tcs
    ensures OnePerDigest(tcs, maps, hash, KeptBy(tcs, maps, order, hash))
  {
    var kept := KeptBy(tcs, maps, order, hash);
    forall n | n in tcs && n !in kept
      ensures Represented(maps, hash, kept, n)
    {
      var f := First(maps, order, hash, File(n, PmMap));
      assert SameMap(maps, hash, f.name, n) && f.name in kept;
    }
    forall m, n | m in kept && n in kept && SameMap(maps, hash, m, n)
      ensures m == n
    {
      Twice(maps, order, hash, File(m, PmMap), File(n, PmMap));
    }
  }

  lemma First(maps: Dir, order: seq<File>, hash: Digest, f: File) returns (r: File)
    requires Lists(order, maps.Keys) && Duplicate(maps, order, hash, f)
    ensures r.kind.PmMap? && r in maps && hash(maps[r]) == hash(maps[f]) && !Duplicate(maps, order, hash, r)
  {
    var h := hash(maps[f]);
    if Group(maps, PmMap, order, hash, h) == [] {
      NotLate(maps, order, hash, h, f);
    }
    r := FirstOf(maps, order, hash, h);
  }

  lemma {:induction false} FirstOf(maps: Dir, order: seq<File>, hash: Digest, h: string) returns (r: File)
    requires Distinct(order) && Group(maps, PmMap, order, hash, h) != []
    ensures r in order && Match(maps, PmMap, hash, r, h) && !Late(maps, order, hash, h, r)
  {
    var last := |order| - 1;
    if Group(maps, PmMap, order[..last], hash, h) == [] {
      r := order[last];
      InGroup(maps, PmMap, order, hash, h, Group(maps, PmMap, order, hash, h)[0]);
      NotLate(maps, order[..last], hash, h, r);
    } else {
      r := FirstOf(maps, order[..last], hash, h);
    }
    LateStep(maps, order, hash, h, r);
  }

  /** Of two different files in a listing, one comes after the other. */
  lemma Twice(maps: Dir, order: seq<File>, hash: Digest, f: File, g: File)
    requires Lists(order, maps.Keys) && f in maps && g in maps && f.kind.PmMap? && g.kind.PmMap?
    requires hash(maps[f]) == hash(maps[g])
    requires !Duplicate(maps, order, hash, f) && !Duplicate(maps, order, hash, g)
    ensures f == g
  {
    var h := hash(maps[f]);
    var i :| 0 <= i < |order| && order[i] == f;
    var j :| 0 <= j < |order| && order[j] == g;
    assert i < j ==> After(maps, order, hash, h, g, i, j);
    assert j < i ==> After(maps, order, hash, h, f, j, i);
  }

  /** Conversely every such selection is the outcome for some order of the listing. */
  lemma SelectionArises(tcs: set<CleanName>, maps: Dir, hash: Digest, kept: set<CleanName>) returns (order: seq<File>)
    requires forall f | f in maps && f.kind.PmMap? :: f.name in tcs
    requires OnePerDigest(tcs, maps, hash, kept)
    ensures Lists(order, maps.Keys) && kept == KeptBy(tcs, maps, order, hash)
  {
    var first := set f | f in maps && f.kind.PmMap? && f.name in kept;
    order := ListsFirst(maps.Keys, first);
    forall n | n in tcs
      ensures n in kept <==> !Duplicate(maps, order, hash, File(n, PmMap))
    {
      if n in kept {
        KeptFirst(maps, order, hash, kept, first, File(n, PmMap));
      } else {
        assert Represented(maps, hash, kept, n);
        var m :| m in kept && SameMap(maps, hash, m, n);
        BehindFirst(maps, order, hash, first, File(m, PmMap), File(n, PmMap));
      }
    }
  }

  /** A file outside `first` with the digest of one in it is a duplicate. */
  lemma BehindFirst(maps: Dir, order: seq<File>, hash: Digest, first: set<File>, r: File, f: File)
    requires Lists(order, maps.Keys) && r in maps && f in maps && r in first && f !in first
    requires forall i, j | 0 <= i < j < |order| && order[j] in first :: order[i] in first
    requires r.kind.PmMap? && f.kind.PmMap? && hash(maps[r]) == hash(maps[f])
    ensures Duplicate(maps, order, hash, f)
  {
    var i :| 0 <= i < |order| && order[i] == r;
    var j :| 0 <= j < |order| && order[j] == f;
    assert After(maps, order, hash, hash(maps[f]), f, i, j);
  }

  lemma KeptFirst(maps: Dir, order: seq<File>, hash: Digest, kept: set<CleanName>, first: set<File>, f: File)
    requires Lists(order, maps.Keys) && f.kind.PmMap? && (f in maps ==> f in first)
    requires forall i, j | 0 <= i < j < |order| && order[j] in first :: order[i] in first
    requires forall e | e in first :: e in maps && e.kind.PmMap? && e.name in kept
    requires forall m, n | m in kept && n in kept && SameMap(maps, hash, m, n) :: m == n
    ensures !Duplicate(maps, order, hash, f)
  {
    forall i, j | 0 <= i < j < |order| && order[j] == f && f in maps
      ensures !Match(maps, PmMap, hash, order[i], hash(maps[f]))
    {
      var e := order[i];
      assert e in first && e != f && e == File(e.name, PmMap) && f == File(f.name, PmMap);
      assert SameMap(maps, hash, e.name, f.name) ==> e.name == f.name;
    }
  }
}
