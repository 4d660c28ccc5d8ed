/** Stage directories: their names (src/pmfuzz/handlers/name_handler.py) and `State.sync`
    (src/pmfuzz/stages/state.py). */
module Stages {
  import opened Listing
  import opened Text

  // ----- Directory names -----

  /** `get_outdir_name`; None is the abort. */
  function GetOutdirName(stage: int, iter: int): Option<string> {
    if iter < 1 || stage < 1 then None else Some(OutdirName(stage, iter))
  }

  function OutdirName(stage: nat, iter: nat): string {
    "stage=" + Dec(stage) + ",iter=" + Dec(iter)
  }

  datatype Scan = Aborted | Fields(stage: Option<nat>, iter: Option<nat>)

  /** `int(token.split('=')[1])` */
  function Field(token: string): Option<nat> {
    var parts := Split(token, {'='});
    if |parts| > 1 && IsDigits(parts[1]) then Some(Value(parts[1])) else None
  }

  function ScanToken(sc: Scan, token: string): Scan {
    if sc.Aborted? then Aborted
    else if Contains(token, "stage") then
      if Field(token).Some? then Fields(Field(token), sc.iter) else Aborted
    else if Contains(token, "iter") then
      if Field(token).Some? then Fields(sc.stage, Field(token)) else Aborted
    else Aborted
  }

  function ScanTokens(tokens: seq<string>): Scan {
    if tokens == [] then Fields(None, None) else ScanToken(ScanTokens(tokens[..|tokens| - 1]), tokens[|tokens| - 1])
  }

  /** A token that names the stage or the iteration and has a number. */
  predicate Scannable(token: string) {
    (Contains(token, "stage") || Contains(token, "iter")) && Field(token).Some?
  }

  /** The scan aborts exactly if there is any other token. */
  lemma {:induction false} ScanAborts(ts: seq<string>)
    ensures ScanTokens(ts).Aborted? <==> exists j :: 0 <= j < |ts| && !Scannable(ts[j])
  {
    if ts != [] {
      var last := |ts| - 1;
      ScanAborts(ts[..last]);
      forall j | 0 <= j < last
        ensures ts[j] == ts[..last][j]
      {
      }
    }
  }

  /** The stage is the number of the last token that names it. */
  lemma {:induction false} ScanStage(ts: seq<string>, j: nat)
    requires ScanTokens(ts).Fields? && j < |ts|
    requires Contains(ts[j], "stage") && forall k | j < k < |ts| :: !Contains(ts[k], "stage")
    ensures ScanTokens(ts).stage == Field(ts[j])
  {
    var last := |ts| - 1;
    if j < last {
      ScanStage(ts[..last], j);
    }
  }

  /** The iteration is that of the last token that does not name the stage. */
  lemma {:induction false} ScanIter(ts: seq<string>, j: nat)
    requires ScanTokens(ts).Fields? && j < |ts|
    requires !Contains(ts[j], "stage") && forall k | j < k < |ts| :: Contains(ts[k], "stage")
    ensures ScanTokens(ts).iter == Field(ts[j])
  {
    var last := |ts| - 1;
    if j < last {
      ScanIter(ts[..last], j);
    }
  }

  const COMMA: set<char> := {','}

  /** `get_stage_inf`; None is an abort. */
  function StageInf(dirname: string): Option<(nat, nat)> {
    if !Contains(dirname, "stage=") || !Contains(dirname, ",iter=") then None
    else
      match ScanTokens(Split(dirname, COMMA))
      case Fields(Some(stage), Some(iter)) => Some((stage, iter))
      case _ => None
  }

  method GetStageInf(dirname: string) returns (r: Option<(nat, nat)>)
    ensures r == StageInf(dirname)
  {
    if !Contains(dirname, "stage=") || !Contains(dirname, ",iter=") {
      return None;
    }
    var split := Split(dirname, COMMA);
    var sc := Fields(None, None);
    for i := 0 to |split|
      invariant sc == ScanTokens(split[..i])
    {
      assert split[..i + 1][..i] == split[..i];
      sc := ScanToken(sc, split[i]);
    }
    assert split[..|split|] == split;
    match sc
    case Fields(Some(stage), Some(iter)) => r := Some((stage, iter));
    case _ => r := None;
  }

  lemma FieldOf(key: string, n: nat)
    requires Free(key, {'='})
    ensures Field(key + "=" + Dec(n)) == Some(n)
  {
    var d := Dec(n);
    ValueDec(n);
    CutOne(key, {'='});
    CutSep(key, '=', d, {'='});
    assert key + "=" + d == key + ['='] + d;
  }

  lemma StageToken(n: nat)
    ensures var t := "stage=" + Dec(n); Contains(t, "stage") && Field(t) == Some(n) && Free(t, COMMA)
  {
    var d := Dec(n);
    assert "stage" + "=" + d == "stage=" + d;
    assert "stage=" + d == "" + "stage" + ("=" + d);
    ContainsAt("", "stage", "=" + d);
    FieldOf("stage", n);
  }

  lemma IterToken(n: nat)
    ensures var t := "iter=" + Dec(n);
      !Contains(t, "stage") && Contains(t, "iter") && Field(t) == Some(n) && Free(t, COMMA)
  {
    var d := Dec(n);
    assert "iter" + "=" + d == "iter=" + d;
    assert "iter=" + d == "" + "iter" + ("=" + d);
    ContainsAt("", "iter", "=" + d);
    FieldOf("iter", n);
    LacksChar("iter=" + d, "stage", 'a');
  }

  lemma CutOutdir(stage: nat, iter: nat)
    ensures Split(OutdirName(stage, iter), COMMA) == ["stage=" + Dec(stage), "iter=" + Dec(iter)]
  {
    StageToken(stage);
    IterToken(iter);
    var a, b := "stage=" + Dec(stage), "iter=" + Dec(iter);
    OutdirPieces(stage, iter);
    TwoPieces(a, b);
  }

  lemma TwoPieces(a: string, b: string)
    requires Free(a, COMMA) && Free(b, COMMA)
    ensures Split(a + [','] + b, COMMA) == [a, b]
  {
    CutOne(a, COMMA);
    CutSep(a, ',', b, COMMA);
  }

  lemma OutdirPieces(stage: nat, iter: nat)
    ensures OutdirName(stage, iter) == "stage=" + Dec(stage) + [','] + ("iter=" + Dec(iter))
  {
    assert ",iter=" == [','] + "iter=";
  }

  lemma OutdirContains(stage: nat, iter: nat)
    ensures Contains(OutdirName(stage, iter), "stage=") && Contains(OutdirName(stage, iter), ",iter=")
  {
    var s := OutdirName(stage, iter);
    ContainsAt("", "stage=", Dec(stage) + ",iter=" + Dec(iter));
    assert s == "" + "stage=" + (Dec(stage) + ",iter=" + Dec(iter));
    ContainsAt("stage=" + Dec(stage), ",iter=", Dec(iter));
  }

  /** `get_stage_inf` inverts `get_outdir_name`. */
  lemma OutdirRoundTrip(stage: nat, iter: nat)
    ensures StageInf(OutdirName(stage, iter)) == Some((stage, iter))
  {
    OutdirContains(stage, iter);
    CutOutdir(stage, iter);
    StageToken(stage);
    IterToken(iter);
    ScanTwo("stage=" + Dec(stage), "iter=" + Dec(iter));
  }

  /** `get_outdir_name` aborts exactly on numbers below 1, and otherwise gives a name that reads back as them. */
  lemma OutdirInverse(stage: int, iter: int)
    ensures match GetOutdirName(stage, iter)
      case Some(dirname) => stage >= 1 && iter >= 1 && StageInf(dirname) == Some((stage, iter))
      case None => stage < 1 || iter < 1
  {
    if stage >= 1 && iter >= 1 {
      OutdirRoundTrip(stage, iter);
    }
  }

  lemma ScanTwo(a: string, b: string)
    requires Contains(a, "stage") && Field(a).Some? && !Contains(b, "stage") && Contains(b, "iter") && Field(b).Some?
    ensures ScanTokens([a, b]) == Fields(Field(a), Field(b))
  {
    assert [a, b][..1] == [a];
    assert [a][..0] == [];
    assert ScanTokens([a]) == Fields(Field(a), None);
  }

  // ----- State.sync -----

  /** Entries that start with `@` are not stage directories. */
  predicate Special(dir: string) {
    dir != "" && dir[0] == '@'
  }

  /** The stage and iteration an entry stands for. */
  predicate Means(dir: string, stage: nat, iter: nat) {
    !Special(dir) && StageInf(dir) == Some((stage, iter))
  }

  predicate LexLess(s1: nat, i1: nat, s2: nat, i2: nat) {
    s1 < s2 || (s1 == s2 && i1 < i2)
  }

  /** (stage, iter) is the lexicographic maximum over the entries, and (0, 0) when there is none above it. */
  ghost predicate IsYoungest(dirs: set<string>, stage: nat, iter: nat) {
    && ((stage == 0 && iter == 0) || exists d | d in dirs :: Means(d, stage, iter))
    && forall d, s, i | d in dirs && Means(d, s, i) :: !LexLess(stage, iter, s, i)
  }

  /** An entry `sync` does not abort on. */
  predicate Readable(dir: string) {
    Special(dir) || StageInf(dir).Some?
  }

  ghost predicate AllReadable(dirs: set<string>) {
    forall d | d in dirs :: Readable(d)
  }

  lemma AddSpecial(seen: set<string>, dir: string, stage: nat, iter: nat)
    requires IsYoungest(seen, stage, iter) && AllReadable(seen) && Special(dir)
    ensures IsYoungest(seen + {dir}, stage, iter) && AllReadable(seen + {dir})
  {
    if !(stage == 0 && iter == 0) {
      var d :| d in seen && Means(d, stage, iter);
      assert d in seen + {dir};
    }
  }

  lemma AddStage(seen: set<string>, dir: string, s: nat, i: nat, stage: nat, iter: nat)
    requires IsYoungest(seen, stage, iter) && AllReadable(seen) && Means(dir, s, i)
    ensures AllReadable(seen + {dir})
    ensures LexLess(stage, iter, s, i) ==> IsYoungest(seen + {dir}, s, i)
    ensures !LexLess(stage, iter, s, i) ==> IsYoungest(seen + {dir}, stage, iter)
  {
    assert dir in seen + {dir};
    if !(stage == 0 && iter == 0) {
      var d :| d in seen && Means(d, stage, iter);
      assert d in seen + {dir};
    }
  }

  lemma NoneYounger(dirs: set<string>, stage: nat, iter: nat)
    requires IsYoungest(dirs, stage, iter) && "" !in dirs
    ensures forall d | d in dirs && d[0] != '@' && StageInf(d).Some? ::
              StageInf(d).value.0 < stage || (StageInf(d).value.0 == stage && StageInf(d).value.1 <= iter)
  {
    forall d | d in dirs && d[0] != '@' && StageInf(d).Some?
      ensures StageInf(d).value.0 < stage || (StageInf(d).value.0 == stage && StageInf(d).value.1 <= iter)
    {
      assert Means(d, StageInf(d).value.0, StageInf(d).value.1);
    }
  }

  lemma YoungestUnique(dirs: set<string>, s1: nat, i1: nat, s2: nat, i2: nat)
    requires IsYoungest(dirs, s1, i1) && IsYoungest(dirs, s2, i2)
    ensures s1 == s2 && i1 == i2
  {
    assert !LexLess(s1, i1, s2, i2) || (s2 == 0 && i2 == 0);
    assert !LexLess(s2, i2, s1, i1) || (s1 == 0 && i1 == 0);
  }

  lemma OutdirMeans(stage: nat, iter: nat)
    ensures Means(OutdirName(stage, iter), stage, iter)
  {
    assert OutdirName(stage, iter)[0] == 's';
    OutdirRoundTrip(stage, iter);
  }

  class State {
    var stage: nat
    var iter: nat
    var dedupExists: bool

    constructor ()
      ensures stage == 0 && iter == 0 && !dedupExists
    {
      stage, iter, dedupExists := 0, 0, false;
    }

    /** `sync` over the entries of the output directory, in whatever order they are listed;
        `ok` is false when an entry makes it abort. */
    method Sync(outdir: set<string>) returns (ok: bool)
      requires "" !in outdir
      modifies this
      ensures ok <==> AllReadable(outdir)
      ensures ok ==> IsYoungest(outdir, stage, iter) && dedupExists == (old(dedupExists) || "@dedup" in outdir)
      ensures ok ==> forall d | d in outdir && d[0] != '@' && StageInf(d).Some? ::
                StageInf(d).value.0 < stage || (StageInf(d).value.0 == stage && StageInf(d).value.1 <= iter)
      ensures !ok ==> stage == old(stage) && iter == old(iter)
    {
      var dirs := ListDir(outdir);
      var stageM, iterM := 0, 0;
      ghost var seen := {};
      for n := 0 to |dirs|
        invariant seen == set k | 0 <= k < n :: dirs[k]
        invariant IsYoungest(seen, stageM, iterM) && AllReadable(seen)
        invariant dedupExists == (old(dedupExists) || "@dedup" in seen)
        invariant stage == old(stage) && iter == old(iter)
      {
        var dir := dirs[n];
        assert dir in outdir;
        ok, stageM, iterM := Visit(dir, seen, stageM, iterM);
        if !ok {
          return;
        }
        seen := seen + {dir};
        if dir == "@dedup" {
          dedupExists := true;
        }
      }
      assert seen == outdir;
      NoneYounger(outdir, stageM, iterM);
      stage := stageM;
      iter := iterM;
      ok := true;
    }

    /** One entry of the listing, after the entries `seen`. */
    static method Visit(dir: string, ghost seen: set<string>, stageM: nat, iterM: nat)
      returns (ok: bool, stage: nat, iter: nat)
      requires dir != "" && IsYoungest(seen, stageM, iterM) && AllReadable(seen)
      ensures ok <==> Readable(dir)
      ensures ok ==> IsYoungest(seen + {dir}, stage, iter) && AllReadable(seen + {dir})
    {
      ok, stage, iter := true, stageM, iterM;
      if dir[0] == '@' {
        AddSpecial(seen, dir, stageM, iterM);
      } else {
        var inf := GetStageInf(dir);
        if inf.None? {
          return false, stageM, iterM;
        }
        var (s, i) := inf.value;
        AddStage(seen, dir, s, i, stageM, iterM);
        if s > stageM {
          stage := s;
          iter := i;
        } else if s == stageM && i > iterM {
          iter := i;
        }
      }
    }
  }
}
