/** Grouping the files of one kind by the digest of their contents, as both src/pmfuzz/tools/pmfuzz-cmin and
    src/pmfuzz/core/dedupengine.py do. */
module Grouping {
  import opened Files
  import opened Listing
  import opened Names

  /** `md5sum` or `sha256sum` of a file's contents; nothing is assumed of it here. */
  type Digest = Bytes -> string

  /** The digest is injective on some contents. */
  ghost predicate TellsApart(hash: Digest, s: set<Bytes>) {
    forall a, b | a in s && b in s && hash(a) == hash(b) :: a == b
  }

  /** The different contents of the files of one kind. */
  function Contents(d: Dir, k: Kind): set<Bytes> {
    set f | f in d && f.kind == k :: d[f]
  }

  predicate Match(maps: Dir, k: Kind, hash: Digest, f: File, h: string) {
    f.kind == k && f in maps && hash(maps[f]) == h
  }

  /** The files of kind `k` of a listing with digest `h`, in order. */
  function Group(maps: Dir, k: Kind, order: seq<File>, hash: Digest, h: string): seq<File> {
    if order == [] then []
    else
      var last := |order| - 1;
      Group(maps, k, order[..last], hash, h) + if Match(maps, k, hash, order[last], h) then [order[last]] else []
  }

  lemma {:induction false} InGroup(maps: Dir, k: Kind, order: seq<File>, hash: Digest, h: string, f: File)
    ensures f in Group(maps, k, order, hash, h) <==> f in order && Match(maps, k, hash, f, h)
  {
    if order != [] {
      var last := |order| - 1;
      InGroup(maps, k, order[..last], hash, h, f);
      assert order == order[..last] + [order[last]];
    }
  }

  lemma {:induction false} GroupDistinct(maps: Dir, k: Kind, order: seq<File>, hash: Digest, h: string)
    requires Distinct(order)
    ensures Distinct(Group(maps, k, order, hash, h))
  {
    if order != [] {
      var last := |order| - 1;
      GroupDistinct(maps, k, order[..last], hash, h);
      InGroup(maps, k, order[..last], hash, h, order[last]);
    }
  }

  /** A group keeps the order of the listing. */
  lemma {:induction false} GroupBefore(maps: Dir, k: Kind, order: seq<File>, hash: Digest, h: string, e: File, f: File)
    requires Before(Group(maps, k, order, hash, h), e, f)
    ensures Before(order, e, f)
  {
    var last := |order| - 1;
    var g := Group(maps, k, order[..last], hash, h);
    var i, j :| 0 <= i < j < |Group(maps, k, order, hash, h)| && Group(maps, k, order, hash, h)[i] == e
                && Group(maps, k, order, hash, h)[j] == f;
    if j < |g| {
      assert g[i] == e && g[j] == f;
      GroupBefore(maps, k, order[..last], hash, h, e, f);
      var p, q :| 0 <= p < q < last && order[..last][p] == e && order[..last][q] == f;
      assert order[p] == e && order[q] == f;
    } else {
      assert g[i] == e;
      InGroup(maps, k, order[..last], hash, h, e);
      var p :| 0 <= p < last && order[..last][p] == e;
      assert order[p] == e && order[last] == f;
    }
  }

  /** `hash2filename` for a listing. */
  ghost predicate Grouped(maps: Dir, k: Kind, order: seq<File>, hash: Digest, groups: map<string, seq<File>>) {
    && (forall h | h in groups :: groups[h] != [] && groups[h] == Group(maps, k, order, hash, h))
    && (forall h | Group(maps, k, order, hash, h) != [] :: h in groups)
  }

  method CollectGroups(maps: Dir, k: Kind, order: seq<File>, hash: Digest) returns (groups: map<string, seq<File>>)
    requires forall f | f in order :: f in maps
    ensures Grouped(maps, k, order, hash, groups)
  {
    groups := map[];
    var i := 0;
    while i < |order|
      invariant 0 <= i <= |order| && Grouped(maps, k, order[..i], hash, groups)
    {
      assert order[..i + 1] == order[..i] + [order[i]];
      groups := AddToGroup(maps, k, order[..i], hash, groups, order[i]);
      i := i + 1;
    }
    assert order[..|order|] == order;
  }

  /** The body of the loop for one file. */
  method AddToGroup(maps: Dir, k: Kind, ghost order: seq<File>, hash: Digest, groups0: map<string, seq<File>>, f: File)
    returns (groups: map<string, seq<File>>)
    requires f in maps && Grouped(maps, k, order, hash, groups0)
    ensures Grouped(maps, k, order + [f], hash, groups)
  {
    assert (order + [f])[..|order|] == order;
    groups := groups0;
    if f.kind == k {
      var h := hash(maps[f]);
      if h !in groups {
        groups := groups[h := []];
      }
      groups := groups[h := groups[h] + [f]];
    }
  }
}
