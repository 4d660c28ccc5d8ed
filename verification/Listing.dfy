/** `os.listdir`: the entries of a directory in some order. */
module Listing {

  predicate Distinct<T(==)>(l: seq<T>) {
    forall i, j | 0 <= i < j < |l| :: l[i] != l[j]
  }

  ghost predicate Lists<T>(l: seq<T>, s: set<T>) {
    Distinct(l) && (forall x | x in l :: x in s) && (forall x | x in s :: x in l)
  }

  method ListDir<T(==)>(s: set<T>) returns (l: seq<T>)
    ensures Lists(l, s)
  {
    l := [];
    var rest := s;
    while rest != {}
      invariant rest <= s && Lists(l, s - rest)
      decreases rest
    {
      var x :| x in rest;
      l := l + [x];
      rest := rest - {x};
    }
  }

  /** The members of `s` among the entries of a listing. */
  function Among<T(==)>(l: seq<T>, s: set<T>): set<T> {
    set x | x in l && x in s
  }

  lemma AmongNext<T>(l: seq<T>, i: nat, s: set<T>)
    requires i < |l|
    ensures l[i] in s ==> Among(l[..i + 1], s) == Among(l[..i], s) + {l[i]}
    ensures l[i] !in s ==> Among(l[..i + 1], s) == Among(l[..i], s)
  {
    assert l[..i + 1] == l[..i] + [l[i]];
  }

  lemma AmongAll<T>(l: seq<T>, s: set<T>)
    requires forall x | x in s :: x in l
    ensures Among(l[..|l|], s) == s && Among(l[..0], s) == {}
  {
    assert l[..|l|] == l;
  }

  /** What a loop over a set has done after one more element. */
  lemma OneMore<T>(all: set<T>, rest: set<T>, x: T)
    requires rest <= all && x in rest
    ensures all - (rest - {x}) == (all - rest) + {x}
  {
  }

  lemma {:induction false} SomeList<T>(s: set<T>) returns (l: seq<T>)
    ensures Lists(l, s)
    decreases |s|
  {
    if s == {} {
      l := [];
    } else {
      var x :| x in s;
      l := SomeList(s - {x});
      l := l + [x];
    }
  }

  /** A listing that starts with the entries of `first`. */
  lemma ListsFirst<T>(s: set<T>, first: set<T>) returns (l: seq<T>)
    requires first <= s
    ensures Lists(l, s) && forall i, j | 0 <= i < j < |l| && l[j] in first :: l[i] in first
  {
    var l1 := SomeList(first);
    var l2 := SomeList(s - first);
    l := l1 + l2;
    forall x | x in s
      ensures x in l
    {
      assert x in l1 || x in l2;
    }
    forall i, j | 0 <= i < |l1| && 0 <= j < |l2|
      ensures l1[i] != l2[j] && l2[j] !in first
    {
      assert l1[i] in l1 && l2[j] in l2;
    }
    assert forall i | 0 <= i < |l1| :: l1[i] in l1;
  }

  ghost predicate Before<T>(l: seq<T>, x: T, y: T) {
    exists i, j :: 0 <= i < j < |l| && l[i] == x && l[j] == y
  }
}
