/** The reported coverage (src/pmfuzz/core/whatsup.py): the union of the map files of a directory, and its size. */
module Coverage {
  import opened Cmin
  import opened Files
  import opened Grouping
  import opened Listing
  import opened Minimisation
  import opened Names
  import opened Text

  /** All files of the kind have the size of the shared map. */
  ghost predicate Sized(d: Dir, k: Kind, size: nat) {
    forall f | f in d && f.kind == k :: |d[f]| == size
  }

  function Or(a: Bytes, b: Bytes): (r: Bytes)
    requires |a| == |b|
    ensures |r| == |a|
  {
    seq(|a|, i requires 0 <= i < |a| => a[i] | b[i])
  }

  /** Some bit of `m` is set in cell `i` of one of the maps. */
  ghost predicate Covers(s: set<Bytes>, i: int, m: bv8) {
    exists c :: c in s && 0 <= i < |c| && c[i] & m != 0
  }

  /** `r` has exactly the bits of the maps `s`. */
  ghost predicate UnionOf(r: Bytes, s: set<Bytes>) {
    forall i, m: bv8 | 0 <= i < |r| :: r[i] & m != 0 <==> Covers(s, i, m)
  }

  lemma OrBits(a: bv8, b: bv8, m: bv8)
    ensures (a | b) & m != 0 <==> a & m != 0 || b & m != 0
  {
  }

  lemma SameBits(a: bv8, b: bv8)
    requires a & !a == 0 && a & !b == 0 && b & !a == 0
    ensures a == b
  {
  }

  lemma NoBits(a: bv8)
    ensures a & !a == 0
  {
  }

  /** The union of a set of maps is determined by the set alone. */
  lemma UnionUnique(a: Bytes, b: Bytes, s: set<Bytes>)
    requires UnionOf(a, s) && UnionOf(b, s) && |a| == |b|
    ensures a == b
  {
    forall i | 0 <= i < |a|
      ensures a[i] == b[i]
    {
      NoBits(a[i]);
      NoBits(b[i]);
      assert a[i] & !b[i] != 0 <==> Covers(s, i, !b[i]);
      assert b[i] & !a[i] != 0 <==> Covers(s, i, !a[i]);
      SameBits(a[i], b[i]);
    }
  }

  lemma UnionOne(c: Bytes)
    ensures UnionOf(c, {c})
  {
  }

  lemma CoversMore(s: set<Bytes>, c: Bytes, i: int, m: bv8)
    requires 0 <= i < |c|
    ensures Covers(s + {c}, i, m) <==> Covers(s, i, m) || c[i] & m != 0
  {
    if Covers(s, i, m) {
      var x :| x in s && 0 <= i < |x| && x[i] & m != 0;
      assert x in s + {c};
    }
    if c[i] & m != 0 {
      assert c in s + {c};
    }
  }

  lemma UnionMore(a: Bytes, s: set<Bytes>, c: Bytes)
    requires UnionOf(a, s) && |a| == |c|
    ensures UnionOf(Or(a, c), s + {c})
  {
    forall i, m: bv8 | 0 <= i < |a|
      ensures Or(a, c)[i] & m != 0 <==> Covers(s + {c}, i, m)
    {
      UnionCell(a, s, c, i, m);
    }
  }

  lemma UnionCell(a: Bytes, s: set<Bytes>, c: Bytes, i: int, m: bv8)
    requires UnionOf(a, s) && |a| == |c| && 0 <= i < |a|
    ensures Or(a, c)[i] & m != 0 <==> Covers(s + {c}, i, m)
  {
    OrCell(a, c, i, m);
    CoversMore(s, c, i, m);
  }

  lemma OrCell(a: Bytes, c: Bytes, i: int, m: bv8)
    requires |a| == |c| && 0 <= i < |a|
    ensures Or(a, c)[i] & m != 0 <==> a[i] & m != 0 || c[i] & m != 0
  {
    OrBits(a[i], c[i], m);
  }

  /** `get_cumulative_map`: None when the directory has no such file. */
  method GetCumulativeMap(d: Dir, k: Kind, size: nat) returns (r: Option<Bytes>)
    requires Sized(d, k, size)
    ensures r.None? <==> Contents(d, k) == {}
    ensures r.Some? ==> |r.value| == size && UnionOf(r.value, Contents(d, k))
  {
    var files := ListDir(d.Keys);
    r := None;
    var i := 0;
    ContentsAll(d, k, files);
    while i < |files|
      invariant 0 <= i <= |files| && Cumulates(r, ContentsOf(d, k, files[..i]), size)
    {
      ContentsNext(d, k, files, i);
      if files[i].kind == k {
        r := AddMap(r, d[files[i]], ContentsOf(d, k, files[..i]));
      }
      i := i + 1;
    }
  }

  /** None as long as there is no map, then the union. */
  ghost predicate Cumulates(r: Option<Bytes>, s: set<Bytes>, size: nat) {
    if r.None? then s == {} else s != {} && |r.value| == size && UnionOf(r.value, s)
  }

  function ContentsOf(d: Dir, k: Kind, files: seq<File>): set<Bytes> {
    set f | f in files && f in d && f.kind == k :: d[f]
  }

  lemma ContentsNext(d: Dir, k: Kind, files: seq<File>, i: nat)
    requires i < |files| && files[i] in d
    ensures files[i].kind == k ==> ContentsOf(d, k, files[..i + 1]) == ContentsOf(d, k, files[..i]) + {d[files[i]]}
    ensures files[i].kind != k ==> ContentsOf(d, k, files[..i + 1]) == ContentsOf(d, k, files[..i])
  {
    assert files[..i + 1] == files[..i] + [files[i]];
  }

  lemma ContentsAll(d: Dir, k: Kind, files: seq<File>)
    requires Lists(files, d.Keys)
    ensures ContentsOf(d, k, files[..|files|]) == Contents(d, k) && ContentsOf(d, k, files[..0]) == {}
  {
    assert files[..|files|] == files;
  }

  method AddMap(r: Option<Bytes>, cur: Bytes, ghost s: set<Bytes>) returns (r': Option<Bytes>)
    requires Cumulates(r, s, |cur|)
    ensures Cumulates(r', s + {cur}, |cur|)
  {
    assert cur in s + {cur};
    if r == None {
      UnionOne(cur);
      assert {} + {cur} == {cur};
      r' := Some(cur);
    } else {
      UnionMore(r.value, s, cur);
      r' := Some(Or(r.value, cur));
    }
  }

  /** `combine_maps`: None entries are skipped, except the first, which cannot be combined with a map. */
  method CombineMaps(maps: seq<Option<Bytes>>, size: nat) returns (ok: bool, r: Option<Bytes>)
    requires forall j | 0 <= j < |maps| && maps[j].Some? :: |maps[j].value| == size
    ensures ok <==> maps != [] && (maps[0].Some? || forall j | 0 <= j < |maps| :: maps[j].None?)
    ensures ok ==> (r.None? <==> maps[0].None?)
    ensures ok && r.Some? ==>
              |r.value| == size && UnionOf(r.value, set j | 0 <= j < |maps| && maps[j].Some? :: maps[j].value)
  {
    if maps == [] {
      return false, None;
    }
    r := maps[0];
    ghost var seen := if r.Some? then {r.value} else {};
    if r.Some? {
      UnionOne(r.value);
    }
    var i := 1;
    while i < |maps|
      invariant 1 <= i <= |maps| && (r.None? <==> maps[0].None?)
      invariant r.None? ==> forall j | 0 <= j < i :: maps[j].None?
      invariant r.Some? ==> |r.value| == size && UnionOf(r.value, seen)
      invariant r.Some? ==> seen == set j | 0 <= j < i && maps[j].Some? :: maps[j].value
    {
      if maps[i].Some? {
        if r == None {
          return false, None;
        }
        UnionMore(r.value, seen, maps[i].value);
        r := Some(Or(r.value, maps[i].value));
        seen := seen + {maps[i].value};
      }
      i := i + 1;
    }
    ok := true;
  }

  /** The cells some map has hit. */
  ghost function Hits(s: set<Bytes>, size: nat): set<int> {
    set i | 0 <= i < size && Covers(s, i, 0xFF)
  }

  function Nonzero(r: Bytes): set<int> {
    set i | 0 <= i < |r| && r[i] != 0
  }

  /** `count_tuples`: the number of cells that are not zero. */
  method CountTuples(r: Option<Bytes>) returns (count: nat)
    ensures count == if r.Some? then |Nonzero(r.value)| else 0
  {
    count := 0;
    if r.Some? {
      var i := 0;
      while i < |r.value|
        invariant 0 <= i <= |r.value| && count == |Nonzero(r.value[..i])|
      {
        assert Nonzero(r.value[..i + 1]) == Nonzero(r.value[..i]) + if r.value[i] != 0 then {i} else {};
        if r.value[i] != 0 {
          count := count + 1;
        }
        i := i + 1;
      }
      assert r.value[..|r.value|] == r.value;
    }
  }

  lemma AllBits(a: bv8)
    ensures a & 0xFF == a
  {
  }

  /** Counting the cells of the union counts the cells hit by any map. */
  lemma CountIsHits(r: Bytes, s: set<Bytes>)
    requires UnionOf(r, s)
    ensures Nonzero(r) == Hits(s, |r|)
  {
    forall i | 0 <= i < |r|
      ensures r[i] != 0 <==> Covers(s, i, 0xFF)
    {
      AllBits(r[i]);
      assert r[i] & 0xFF != 0 <==> Covers(s, i, 0xFF);
    }
  }

  /** The PM coverage of a directory: the union of its pm_maps and the number of cells hit. */
  method PmCoverage(d: Dir, size: nat) returns (r: Option<Bytes>, count: nat)
    requires Sized(d, PmMap, size)
    ensures r.None? <==> Contents(d, PmMap) == {}
    ensures r.Some? ==> |r.value| == size && UnionOf(r.value, Contents(d, PmMap))
    ensures count == |Hits(Contents(d, PmMap), size)|
  {
    r := GetCumulativeMap(d, PmMap, size);
    count := CountTuples(r);
    if r.Some? {
      CountIsHits(r.value, Contents(d, PmMap));
    } else {
      assert Hits(Contents(d, PmMap), size) == {};
    }
  }

  /** Minimising the global corpus changes neither the union of the pm_maps nor the number of cells hit. */
  lemma CoverageKept(g: Dir, hash: Digest, kept: set<CleanName>, stamp: Bytes, before: Bytes, after: Bytes)
    requires MapsOk(g) && TellsApart(hash, Contents(g, PmMap)) && Sized(g, PmMap, |before|)
    requires OnePerDigest(NamesOf(g, Testcase), GlobalMaps(g), hash, kept)
    requires UnionOf(before, Contents(g, PmMap))
    requires |after| == |before| && UnionOf(after, Contents(GlobalMinimised(g, kept, stamp), PmMap))
    ensures Sized(GlobalMinimised(g, kept, stamp), PmMap, |before|)
    ensures after == before && |Nonzero(after)| == |Hits(Contents(g, PmMap), |before|)|
  {
    var h := GlobalMinimised(g, kept, stamp);
    GlobalCoverage(g, hash, kept, stamp);
    SizedKept(g, h, |before|);
    UnionUnique(before, after, Contents(g, PmMap));
    CountIsHits(after, Contents(g, PmMap));
  }

  lemma SizedKept(g: Dir, h: Dir, size: nat)
    requires Sized(g, PmMap, size) && Contents(h, PmMap) == Contents(g, PmMap)
    ensures Sized(h, PmMap, size)
  {
    forall f | f in h && f.kind.PmMap?
      ensures |h[f]| == size
    {
      assert h[f] in Contents(h, PmMap);
    }
  }
}
