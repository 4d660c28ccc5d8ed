/** The filter of `select_ids` (src/pmfuzz/stages/dedup.py: `should_use_tc`, `should_use_cs`,
    `local_dedup_list_st2`). */
module Selection {
  import opened Lineage
  import opened Names
  import opened Text

  /** The program keeps a name when no id of its lineage is missing from `ids`; the comment in the source says the
      reverse ("in ids and not in lineage"). An empty `ids` keeps everything. */
  predicate ShouldUse(n: Name, ids: set<nat>)
    requires GoodName(n)
  {
    ids == {} || (set v | v in LineageOf(n)) - ids == {}
  }

  /** Kept exactly when `ids` is empty or holds every id of the lineage. */
  lemma ShouldUseIff(n: Name, ids: set<nat>)
    requires GoodName(n)
    ensures ShouldUse(n, ids) <==> ids == {} || forall i | 0 <= i < |LineageOf(n)| :: LineageOf(n)[i] in ids
  {
    var missing := (set v | v in LineageOf(n)) - ids;
    forall i | 0 <= i < |LineageOf(n)|
      ensures LineageOf(n)[i] in ids || LineageOf(n)[i] in missing
    {
    }
    assert forall v :: v in missing <==> v in LineageOf(n) && v !in ids;
    assert ShouldUse(n, ids) <==> ids == {} || missing == {};
  }

  /** A name that is kept has all its ancestors kept: what is selected can be reached. */
  lemma {:induction false} AncestorsUsed(n: Name, ids: set<nat>, i: nat)
    requires GoodName(n) && 0 < i <= |n| && ShouldUse(n, ids)
    ensures GoodName(n[..i]) && ShouldUse(n[..i], ids)
    decreases |n|
  {
    if i < |n| {
      LineagePrefix(n);
      forall v | v in LineageOf(Parent(n))
        ensures v in LineageOf(n)
      {
        var j :| 0 <= j < |LineageOf(Parent(n))| && LineageOf(Parent(n))[j] == v;
        assert LineageOf(n)[j] == v;
      }
      assert ids != {} ==> forall v | v in LineageOf(n) :: v in (set w | w in LineageOf(n));
      AncestorsUsed(Parent(n), ids, i);
      assert Parent(n)[..i] == n[..i];
    } else {
      assert n[..i] == n;
    }
  }

  /** A crash site is kept exactly when the testcase it came from is. */
  lemma CrashUsed(n: Name, tcDigits: string, idDigits: string, ids: set<nat>)
    requires GoodName(n) && IsDigits(tcDigits) && IsDigits(idDigits)
    ensures GoodName(CrashOf(n, tcDigits, idDigits))
    ensures ShouldUse(CrashOf(n, tcDigits, idDigits), ids) <==> ShouldUse(n, ids)
  {
    CrashLineage(n, tcDigits, idDigits);
  }

  ghost predicate AllGood(list: seq<Name>) {
    forall i | 0 <= i < |list| :: GoodName(list[i])
  }

  /** The names to use, in order. */
  ghost function Used(list: seq<Name>, ids: set<nat>): seq<Name>
    requires AllGood(list)
  {
    if list == [] then []
    else (if ShouldUse(list[0], ids) then [list[0]] else []) + Used(list[1..], ids)
  }

  lemma {:induction false} AllUsed(list: seq<Name>, ids: set<nat>, k: nat)
    requires AllGood(list) && k <= |list| && forall i | 0 <= i < k :: ShouldUse(list[i], ids)
    ensures Used(list, ids) == list[..k] + Used(list[k..], ids)
  {
    if k > 0 {
      AllUsed(list[1..], ids, k - 1);
      assert list[1..][k - 1..] == list[k..];
      assert list[..k] == [list[0]] + list[1..][..k - 1];
    } else {
      assert list[k..] == list && list[..k] == [];
    }
  }

  /** The filter on the name of a file without extension, as the scheduler applies it (`Instances.Config`). */
  predicate SelectName(s: string, ids: set<nat>) {
    ParseName(s).Some? && GoodName(ParseName(s).value) && ShouldUse(ParseName(s).value, ids)
  }

  lemma {:induction false} UsedIff(list: seq<Name>, ids: set<nat>, n: Name)
    requires AllGood(list)
    ensures n in Used(list, ids) <==> n in list && GoodName(n) && ShouldUse(n, ids)
  {
    if list != [] {
      UsedIff(list[1..], ids, n);
    }
  }

  /** The names the list is reduced to are those the filter keeps: what `Scheduler.Stage2.Selected` works on. */
  lemma SelectedAreUsed(list: seq<Name>, names: set<string>, ids: set<nat>, select: string -> bool)
    requires AllGood(list) && names == set n | n in list && n != [] :: Print(n)
    requires forall s | s in names :: select(s) == SelectName(s, ids)
    ensures (set s | s in names && select(s)) == set n | n in Used(list, ids) && n != [] :: Print(n)
  {
    forall n | n in list
      ensures GoodName(n) && ParseName(Print(n)) == Some(n)
      ensures n in Used(list, ids) <==> select(Print(n))
    {
      ParsePrint(n);
      UsedIff(list, ids, n);
      assert Print(n) in names;
    }
    forall n | n in Used(list, ids)
      ensures n in list
    {
      UsedIff(list, ids, n);
    }
  }

  /** The first `k` indices are exactly those of the unused names among the first `n`, in order. */
  ghost predicate Unused(list: seq<Name>, ids: set<nat>, idx: seq<nat>, k: nat, n: nat)
    requires AllGood(list) && n <= |list| && k <= |idx|
  {
    && (forall j | 0 <= j < k :: idx[j] < n && !ShouldUse(list[idx[j]], ids))
    && (forall i, j | 0 <= i < j < k :: idx[i] < idx[j])
    && (forall i | 0 <= i < n && !ShouldUse(list[i], ids) :: exists j :: 0 <= j < k && idx[j] == i)
  }

  /** The list once the unused names from `cut` on are deleted. */
  ghost function Partly(list: seq<Name>, ids: set<nat>, cut: nat): seq<Name>
    requires AllGood(list) && cut <= |list|
  {
    list[..cut] + Used(list[cut..], ids)
  }

  /** `del result[i]` */
  function Without(result: seq<Name>, i: nat): seq<Name>
    requires i < |result|
  {
    result[..i] + result[i + 1..]
  }

  /** `local_dedup_list_st2`: collects the indices to delete, then deletes from the last to the first. */
  method LocalDedupListSt2(list: seq<Name>, ids: set<nat>) returns (result: seq<Name>)
    requires AllGood(list)
    ensures result == Used(list, ids)
  {
    var idx := UnusedIndices(list, ids);
    result := list;
    var j: nat := |idx|;
    ghost var cut: nat := |list|;
    NothingDeleted(list, ids);
    while j > 0
      invariant j <= |idx| && cut <= |list| && Unused(list, ids, idx, j, cut)
      invariant result == Partly(list, ids, cut)
    {
      j := j - 1;
      DeleteStep(list, ids, idx, j, cut);
      result := Without(result, idx[j]);
      cut := idx[j];
    }
    AllDeleted(list, ids, idx, cut);
  }

  lemma NothingDeleted(list: seq<Name>, ids: set<nat>)
    requires AllGood(list)
    ensures Partly(list, ids, |list|) == list
  {
  }

  lemma AllDeleted(list: seq<Name>, ids: set<nat>, idx: seq<nat>, cut: nat)
    requires AllGood(list) && cut <= |list| && Unused(list, ids, idx, 0, cut)
    ensures Partly(list, ids, cut) == Used(list, ids)
  {
    AllUsed(list, ids, cut);
  }

  method UnusedIndices(list: seq<Name>, ids: set<nat>) returns (idx: seq<nat>)
    requires AllGood(list)
    ensures Unused(list, ids, idx, |idx|, |list|)
  {
    idx := [];
    for iter := 0 to |list|
      invariant Unused(list, ids, idx, |idx|, iter)
    {
      NextUnused(list, ids, idx, iter);
      if !ShouldUse(list[iter], ids) {
        idx := idx + [iter];
      }
    }
  }

  lemma NextUnused(list: seq<Name>, ids: set<nat>, idx: seq<nat>, n: nat)
    requires AllGood(list) && n < |list| && Unused(list, ids, idx, |idx|, n)
    ensures if ShouldUse(list[n], ids) then Unused(list, ids, idx, |idx|, n + 1)
            else Unused(list, ids, idx + [n], |idx| + 1, n + 1)
  {
    var more := idx + [n];
    assert more[|idx|] == n;
    forall i | 0 <= i < n && !ShouldUse(list[i], ids)
      ensures exists j :: 0 <= j < |idx| && more[j] == i
    {
      var j :| 0 <= j < |idx| && idx[j] == i;
      assert more[j] == i;
    }
  }

  lemma DeleteStep(list: seq<Name>, ids: set<nat>, idx: seq<nat>, last: nat, cut: nat)
    requires AllGood(list) && last < |idx| && cut <= |list| && Unused(list, ids, idx, last + 1, cut)
    ensures var d := idx[last];
      var r := Partly(list, ids, cut);
      && Unused(list, ids, idx, last, d)
      && d < |r| && Without(r, d) == Partly(list, ids, d)
  {
    var d := idx[last];
    assert forall j | 0 <= j < last + 1 :: idx[j] <= d;
    assert forall i | d < i < cut :: ShouldUse(list[i], ids);
    DeleteOne(list, ids, d, cut);
  }

  lemma Removed<T>(list: seq<T>, d: nat, cut: nat, u: seq<T>)
    requires d < cut <= |list|
    ensures (list[..cut] + u)[..d] == list[..d] && (list[..cut] + u)[d + 1..] == list[d + 1..cut] + u
  {
  }

  /** Deleting an unused name when all after it up to `cut` are used. */
  lemma DeleteOne(list: seq<Name>, ids: set<nat>, d: nat, cut: nat)
    requires AllGood(list) && d < cut <= |list| && !ShouldUse(list[d], ids)
    requires forall i | d < i < cut :: ShouldUse(list[i], ids)
    ensures var r := Partly(list, ids, cut);
      d < |r| && Without(r, d) == Partly(list, ids, d)
  {
    var tail := list[d + 1..];
    AllUsed(tail, ids, cut - d - 1);
    assert tail[cut - d - 1..] == list[cut..] && tail[..cut - d - 1] == list[d + 1..cut];
    assert list[d..][1..] == tail;
    var u := Used(list[cut..], ids);
    assert Used(list[d..], ids) == list[d + 1..cut] + u;
    Removed(list, d, cut, u);
  }
}
