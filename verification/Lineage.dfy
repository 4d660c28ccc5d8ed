/** Parents, lineages and iteration counts of names (src/pmfuzz/handlers/name_handler.py). */
module Lineage {
  import opened Text
  import opened Names

  const EXT_LIST: seq<string> := ["testcase", "hash", "crash_site.tar.gz", "crash_site", "pm_pool.tar.gz", "pm_pool"]

  // ----- get_extension -----

  /** The first extension of the list that occurs anywhere in the name. */
  function FirstExt(s: string, exts: seq<string>): string {
    if exts == [] then "" else if Contains(s, exts[0]) then "." + exts[0] else FirstExt(s, exts[1..])
  }

  /** Extension `i` is the first of the list that occurs in the name; or none does. */
  lemma {:induction false} WhichExt(s: string, exts: seq<string>) returns (i: nat)
    ensures i <= |exts| && forall j | 0 <= j < i :: !Contains(s, exts[j])
    ensures i == |exts| ==> FirstExt(s, exts) == ""
    ensures i < |exts| ==> Contains(s, exts[i]) && FirstExt(s, exts) == "." + exts[i]
  {
    i := 0;
    if exts != [] && !Contains(s, exts[0]) {
      var j := WhichExt(s, exts[1..]);
      i := j + 1;
    }
  }

  method GetExtension(basename: string) returns (r: string)
    ensures r == FirstExt(basename, EXT_LIST)
  {
    r := "";
    var i := 0;
    while i < |EXT_LIST|
      invariant 0 <= i <= |EXT_LIST|
      invariant FirstExt(basename, EXT_LIST) == FirstExt(basename, EXT_LIST[i..])
      invariant r == ""
    {
      if Contains(basename, EXT_LIST[i]) {
        return "." + EXT_LIST[i];
      }
      assert EXT_LIST[i..][1..] == EXT_LIST[i + 1..];
      i := i + 1;
    }
  }

  // ----- get_testcase_parent -----

  function RemoveExt(s: string): string {
    var ext := FirstExt(s, EXT_LIST);
    if ext == "" then s else Replace(s, ext, "")
  }

  /** The name without its last id; the empty string when there is only one. */
  function ParentOf(s: string): string {
    var p := Cut(RemoveExt(s), SEPS);
    var last := |p.ts| - 1;
    if last == 0 then "" else Join(p.ts[..last], p.ds[..last - 1]) + FirstExt(s, EXT_LIST)
  }

  method GetTestcaseParent(basename: string) returns (r: string)
    ensures r == ParentOf(basename)
  {
    r := "";
    var ext := GetExtension(basename);
    var cleanName := if ext == "" then basename else Replace(basename, ext, "");
    var ids := Split(cleanName, SEPS);
    var delims := CollectDelims(cleanName);
    var idCnt := |ids|;
    if idCnt > 1 {
      var parent := Rebuild(ids[..idCnt - 1], delims);
      r := parent + ext;
    }
  }

  /** The delimiters of a name, collected character by character. */
  method CollectDelims(cleanName: string) returns (delims: string)
    ensures delims == Delims(cleanName, SEPS)
  {
    delims := "";
    var i := 0;
    while i < |cleanName|
      invariant 0 <= i <= |cleanName|
      invariant delims == Delims(cleanName[..i], SEPS)
    {
      assert cleanName[..i + 1][..i] == cleanName[..i];
      if cleanName[i] in SEPS {
        delims := delims + [cleanName[i]];
      }
      i := i + 1;
    }
    assert cleanName[..|cleanName|] == cleanName;
  }

  /** The parent ids put together again with the delimiters between them. */
  method Rebuild(parentIds: seq<string>, delims: string) returns (r: string)
    requires |parentIds| >= 1 && |delims| >= |parentIds| - 1
    ensures r == Join(parentIds, delims[..|parentIds| - 1])
  {
    r := parentIds[0];
    var i := 0;
    while i < |parentIds| - 1
      invariant 0 <= i <= |parentIds| - 1
      invariant r == Join(parentIds[..i + 1], delims[..i])
    {
      assert parentIds[..i + 2][..i + 1] == parentIds[..i + 1];
      assert delims[..i + 1][..i] == delims[..i];
      r := r + [delims[i]] + parentIds[i + 1];
      i := i + 1;
    }
    assert parentIds[..|parentIds|] == parentIds;
  }

  // ----- get_lineage and iter_cnt -----

  /** The value of the first id of every comma-separated group. */
  function LineageOf(n: Name): (l: seq<nat>)
    requires GoodName(n)
    ensures |l| >= 1
  {
    var last := |n| - 1;
    var here := [Value(n[last].digits)];
    if last == 0 then here
    else if n[last].delim == ',' then LineageOf(n[..last]) + here
    else LineageOf(n[..last])
  }

  const COMMA: set<char> := {','}

  /** A comma-separated group `id=<digits>` that may go on with `.id=<digits>`. */
  ghost predicate GroupAs(g: string, v: nat, d: string, rest: string) {
    IsDigits(d) && Value(d) == v && (rest == "" || rest[0] == '.') && g == "id=" + d + rest
  }

  ghost predicate Group(g: string, v: nat) {
    exists d, rest :: GroupAs(g, v, d, rest)
  }

  ghost predicate Groups(gs: seq<string>, l: seq<nat>) {
    |gs| == |l| && forall i | 0 <= i < |gs| :: Group(gs[i], l[i])
  }

  lemma OneGroup(d: string)
    requires IsDigits(d)
    ensures Group("id=" + d, Value(d))
  {
    assert "id=" + d == "id=" + d + "";
    assert GroupAs("id=" + d, Value(d), d, "");
  }

  lemma GroupExtend(g: string, v: nat, more: string)
    requires Group(g, v) && more != "" && more[0] == '.'
    ensures Group(g + more, v)
  {
    var d, rest :| GroupAs(g, v, d, rest);
    assert g + more == "id=" + d + (rest + more);
    assert GroupAs(g + more, v, d, rest + more);
  }

  lemma GroupsExtend(gs: seq<string>, l: seq<nat>, more: string)
    requires Groups(gs, l) && gs != [] && more != "" && more[0] == '.'
    ensures Groups(AddLast(gs, more), l)
  {
    GroupExtend(gs[|gs| - 1], l[|l| - 1], more);
  }

  lemma TokenGroup(t: Tag)
    requires IsDigits(t.digits)
    ensures Group(Token(t), Value(t.digits)) && Free(Token(t), COMMA)
  {
    OneGroup(t.digits);
    TokenFree(t);
  }

  /** Splitting a name at commas gives its groups. */
  lemma {:induction false} CommaGroups(n: Name)
    requires GoodName(n)
    ensures Groups(Split(Print(n), COMMA), LineageOf(n))
  {
    var last := |n| - 1;
    TokenGroup(n[last]);
    if last == 0 {
      CutOne(Token(n[last]), COMMA);
    } else {
      CommaGroups(n[..last]);
      PrintLast(n);
      CommaStep(Print(n[..last]), LineageOf(n[..last]), n[last]);
    }
  }

  lemma CommaStep(a: string, l: seq<nat>, t: Tag)
    requires Groups(Split(a, COMMA), l) && t.delim in SEPS && IsDigits(t.digits)
    ensures Groups(Split(a + [t.delim] + Token(t), COMMA), if t.delim == ',' then l + [Value(t.digits)] else l)
  {
    TokenGroup(t);
    if t.delim == ',' {
      CutSep(a, ',', Token(t), COMMA);
    } else {
      var more := ['.'] + Token(t);
      assert a + ['.'] + Token(t) == a + more;
      CutExtend(a, more, COMMA);
      GroupsExtend(Split(a, COMMA), l, more);
    }
  }

  /** `int(clean_tkn.split('=')[1])` where `clean_tkn` ends before the first dot. */
  function TokenValue(g: string): Option<nat> {
    var parts := Split(Before(g, '.'), {'='});
    if |parts| > 1 && IsDigits(parts[1]) then Some(Value(parts[1])) else None
  }

  lemma GroupValue(g: string, v: nat)
    requires Group(g, v)
    ensures TokenValue(g) == Some(v)
  {
    var d, rest :| GroupAs(g, v, d, rest);
    BeforeFree("id=" + d, rest, '.');
    CutToken(d);
  }

  lemma CutToken(d: string)
    requires IsDigits(d)
    ensures Cut("id=" + d, {'='}) == Pieces(["id", d], "=")
  {
    assert "id=" + d == "id" + ['='] + d;
    CutOne("id", {'='});
    CutSep("id", '=', d, {'='});
  }

  /** The name behind an accepted string. */
  lemma NameBehind(s: string) returns (n: Name)
    requires GetMetadata(s).Some?
    ensures GoodName(n) && Print(n) == GetMetadata(s).value.clean && ParseName(Print(n)) == Some(n)
  {
    Canonical(s, Testcase);
    PrintParse(GetMetadata(s).value.clean);
    n := ParseName(GetMetadata(s).value.clean).value;
  }

  method GetLineage(tcName: string) returns (r: Option<seq<nat>>)
    ensures r.None? <==> GetMetadata(tcName).None?
    ensures forall n | GoodName(n) && GetMetadata(tcName).Some? && GetMetadata(tcName).value.clean == Print(n) ::
              r == Some(LineageOf(n))
  {
    var m := GetMetadata(tcName);
    if m == None {
      return None;
    }
    ghost var n := NameBehind(tcName);
    var lineage := LineageTokens(m.value.clean, n);
    r := Some(lineage);
    forall n' | GoodName(n') && m.value.clean == Print(n')
      ensures n' == n
    {
      ParsePrint(n');
    }
  }

  /** The loop of `get_lineage`. */
  method LineageTokens(clean: string, ghost n: Name) returns (lineage: seq<nat>)
    requires GoodName(n) && clean == Print(n)
    ensures lineage == LineageOf(n)
  {
    CommaGroups(n);
    var tokens := Split(clean, COMMA);
    lineage := [];
    var i := 0;
    while i < |tokens|
      invariant 0 <= i <= |tokens|
      invariant lineage == LineageOf(n)[..i]
    {
      GroupValue(tokens[i], LineageOf(n)[i]);
      lineage := lineage + [TokenValue(tokens[i]).value];
      i := i + 1;
    }
  }

  /** `iter_cnt`: one more than `ancestor_cnt`. */
  function IterCnt(s: string): Option<nat> {
    match GetMetadata(s)
    case None => None
    case Some(m) => Some(|Split(m.clean, COMMA)| - 1 + 1)
  }

  lemma IterCntIsLineage(n: Name, k: Kind)
    requires GoodName(n) && !k.Deleted?
    ensures IterCnt(FileName(n, k)) == Some(|LineageOf(n)|)
  {
    CanonicalFile(n, k);
    CommaGroups(n);
  }

  function Parent(n: Name): Name
    requires n != []
  {
    n[..|n| - 1]
  }

  /** A parent's lineage is a prefix of the child's: shorter by one for a collected testcase, equal for a crash site. */
  lemma LineagePrefix(n: Name)
    requires GoodName(n) && |n| > 1
    ensures GoodName(Parent(n)) && LineageOf(Parent(n)) <= LineageOf(n)
    ensures |LineageOf(n)| == |LineageOf(Parent(n))| + if n[|n| - 1].delim == ',' then 1 else 0
  {
  }

  // ----- The parent of a printed name -----

  ghost predicate NoPair(s: string, x: char, y: char) {
    forall k | 0 <= k < |s| - 1 :: !(s[k] == x && s[k + 1] == y)
  }

  lemma CrashPairs()
    ensures NoPair(".crash_site", 'e', 's') && NoPair(".crash_site", 'h', 'a')
    ensures NoPair(".crash_site.tar.gz", 'e', 's') && NoPair(".crash_site.tar.gz", 'h', 'a')
  {
  }

  lemma NoPairInFile(a: string, ext: string, p: string, j: nat)
    requires Body(a) && j + 1 < |p| && !BodyChar(p[j])
    requires NoPair(ext, p[j], p[j + 1])
    ensures !Contains(a + ext, p)
  {
    forall k | 0 <= k < |a + ext| - 1
      ensures !((a + ext)[k] == p[j] && (a + ext)[k + 1] == p[j + 1])
    {
      if k >= |a| {
        assert (a + ext)[k] == ext[k - |a|] && (a + ext)[k + 1] == ext[k - |a| + 1];
      }
    }
    LacksPair(a + ext, p, j);
  }

  lemma ContainsExt(pre: string, p: string)
    ensures Contains(pre + ("." + p), p)
  {
    ContainsAt(pre + ".", p, "");
    assert pre + "." + p + "" == pre + ("." + p);
  }

  /** The six tests of `get_extension`, as a list of booleans. */
  lemma FirstExtAt(s: string, i: nat)
    requires i < 6 && Contains(s, EXT_LIST[i]) && forall j | 0 <= j < i :: !Contains(s, EXT_LIST[j])
    ensures FirstExt(s, EXT_LIST) == "." + EXT_LIST[i]
  {
    FirstExtFrom(s, EXT_LIST, i);
  }

  lemma {:induction false} FirstExtFrom(s: string, exts: seq<string>, i: nat)
    requires i < |exts| && Contains(s, exts[i]) && forall j | 0 <= j < i :: !Contains(s, exts[j])
    ensures FirstExt(s, exts) == "." + exts[i]
  {
    if i > 0 {
      assert !Contains(s, exts[0]);
      FirstExtFrom(s, exts[1..], i - 1);
    }
  }

  lemma ExtOfTestcase(pre: string)
    ensures FirstExt(pre + ".testcase", EXT_LIST) == ".testcase"
  {
    ContainsExt(pre, "testcase");
    assert "." + "testcase" == ".testcase";
    FirstExtAt(pre + ".testcase", 0);
  }

  lemma Dotted()
    ensures "." + "crash_site" == ".crash_site"
    ensures "." + "crash_site.tar.gz" == ".crash_site.tar.gz" && "." + "pm_pool.tar.gz" == ".pm_pool.tar.gz"
    ensures "." + "pm_pool" == ".pm_pool"
  {
  }

  lemma EarlierExts(a: string, ext: string)
    requires Body(a) && 's' !in ext && 'h' !in ext
    ensures !Contains(a + ext, "testcase") && !Contains(a + ext, "hash")
    ensures !Contains(a + ext, "crash_site.tar.gz") && !Contains(a + ext, "crash_site")
  {
    LacksInFile(a, ext, "testcase", 's');
    LacksInFile(a, ext, "hash", 'h');
    LacksInFile(a, ext, "crash_site.tar.gz", 'h');
    LacksInFile(a, ext, "crash_site", 'h');
  }

  lemma ExtOfCrashCmpr(a: string)
    requires Body(a)
    ensures FirstExt(a + ".crash_site.tar.gz", EXT_LIST) == ".crash_site.tar.gz"
  {
    CrashPairs();
    NoPairInFile(a, ".crash_site.tar.gz", "testcase", 1);
    NoPairInFile(a, ".crash_site.tar.gz", "hash", 0);
    Dotted();
    ContainsExt(a, "crash_site.tar.gz");
    FirstExtAt(a + ".crash_site.tar.gz", 2);
  }

  lemma ExtOfCrash(a: string)
    requires Body(a)
    ensures FirstExt(a + ".crash_site", EXT_LIST) == ".crash_site"
  {
    CrashPairs();
    NoPairInFile(a, ".crash_site", "testcase", 1);
    NoPairInFile(a, ".crash_site", "hash", 0);
    LacksInFile(a, ".crash_site", "crash_site.tar.gz", 'z');
    Dotted();
    ContainsExt(a, "crash_site");
    FirstExtAt(a + ".crash_site", 3);
  }

  lemma FirstExtPoolCmpr(s: string)
    requires !Contains(s, "testcase") && !Contains(s, "hash")
    requires !Contains(s, "crash_site.tar.gz") && !Contains(s, "crash_site") && Contains(s, "pm_pool.tar.gz")
    ensures FirstExt(s, EXT_LIST) == "." + "pm_pool.tar.gz"
  {
    FirstExtAt(s, 4);
  }

  lemma ExtOfPoolCmpr(a: string)
    requires Body(a)
    ensures FirstExt(a + ".pm_pool.tar.gz", EXT_LIST) == ".pm_pool.tar.gz"
  {
    EarlierExts(a, ".pm_pool.tar.gz");
    Dotted();
    ContainsExt(a, "pm_pool.tar.gz");
    FirstExtPoolCmpr(a + ".pm_pool.tar.gz");
  }

  lemma ExtOfPool(a: string)
    requires Body(a)
    ensures FirstExt(a + ".pm_pool", EXT_LIST) == ".pm_pool"
  {
    EarlierExts(a, ".pm_pool");
    LacksInFile(a, ".pm_pool", "pm_pool.tar.gz", 'z');
    Dotted();
    ContainsExt(a, "pm_pool");
    FirstExtPool(a + ".pm_pool");
  }

  lemma FirstExtPool(s: string)
    requires !Contains(s, "testcase") && !Contains(s, "hash")
    requires !Contains(s, "crash_site.tar.gz") && !Contains(s, "crash_site")
    requires !Contains(s, "pm_pool.tar.gz") && Contains(s, "pm_pool")
    ensures FirstExt(s, EXT_LIST) == "." + "pm_pool"
  {
    FirstExtAt(s, 5);
  }

  /** Prefix and middle of a file name, as `get_testcase_parent` sees it once the extension is cut. */
  function Stem(clean: string, k: Kind): string {
    if k.MinTestcase? then clean + ".min" else Prefix(k) + clean
  }

  function LastExt(k: Kind): string {
    if k.MinTestcase? then ".testcase" else Ext(k)
  }

  lemma ExtOfFile(a: string, k: Kind)
    requires Body(a) && !k.Deleted?
    ensures FileOf(a, k) == Stem(a, k) + LastExt(k)
    ensures FirstExt(FileOf(a, k), EXT_LIST) == LastExt(k)
  {
    match k
    case MinTestcase => MinLiteral(); ExtOfTestcase(a + ".min");
      assert a + ".min" + ".testcase" == a + (".min" + ".testcase");
    case Map => ExtOfTestcase("map_" + a);
      assert "map_" + a + ".testcase" == "map_" + (a + ".testcase");
    case PmMap => ExtOfTestcase("pm_map_" + a);
      assert "pm_map_" + a + ".testcase" == "pm_map_" + (a + ".testcase");
    case Testcase => ExtOfTestcase(a); assert "" + a == a;
    case Pool => ExtOfPool(a); assert "" + a == a;
    case PoolCmpr => ExtOfPoolCmpr(a); assert "" + a == a;
    case Crash => ExtOfCrash(a); assert "" + a == a;
    case CrashCmpr => ExtOfCrashCmpr(a); assert "" + a == a;
  }

  /** No dot of the stem is followed by the letter that starts the extension. */
  lemma RemoveExtOfFile(a: string, k: Kind)
    requires Body(a) && !k.Deleted?
    ensures RemoveExt(FileOf(a, k)) == Stem(a, k)
  {
    var s, ext := Stem(a, k), LastExt(k);
    ExtOfFile(a, k);
    StemDots(a, k);
    forall i | 0 <= i < |s|
      ensures !(ext <= (s + ext)[i..])
    {
      assert (s + ext)[i..][0] == s[i];
      assert (s + ext)[i..][1] == if i + 1 < |s| then s[i + 1] else ext[0];
    }
    ReplaceSkip(s, ext, ext, "");
    ReplaceHead(ext, "", "");
    assert ext + "" == ext && s + "" == s;
  }

  lemma StemDots(a: string, k: Kind)
    requires Body(a) && !k.Deleted?
    ensures var s, ext := Stem(a, k), LastExt(k);
      && |ext| > 1 && ext[0] == '.' && ext[1] != '.'
      && forall i | 0 <= i < |s| - 1 :: s[i] == '.' ==> s[i + 1] != ext[1]
  {
    var s := Stem(a, k);
    var p := |Prefix(k)|;
    forall i | 0 <= i < |s| - 1
      ensures s[i] == '.' ==> BodyChar(s[i + 1]) || (k.MinTestcase? && s[i + 1] == 'm')
    {
      if k.MinTestcase? {
        assert i + 1 < |a| ==> s[i + 1] == a[i + 1];
        assert i >= |a| ==> s[i] == ".min"[i - |a|];
      } else {
        assert i >= p ==> s[i + 1] == a[i + 1 - p];
        assert i < p ==> s[i] == Prefix(k)[i];
      }
    }
  }

  function AddFirst(pre: string, ts: seq<string>): (us: seq<string>)
    requires ts != []
    ensures |us| == |ts|
  {
    [pre + ts[0]] + ts[1..]
  }

  lemma {:induction false} JoinPrefix(pre: string, ts: seq<string>, ds: string)
    requires |ts| == |ds| + 1
    ensures Join(AddFirst(pre, ts), ds) == pre + Join(ts, ds)
  {
    if ds != "" {
      var n := |ds|;
      JoinPrefix(pre, ts[..n], ds[..n - 1]);
      assert AddFirst(pre, ts)[..n] == AddFirst(pre, ts[..n]);
    }
  }

  lemma CutStem(n: Name, pre: string)
    requires GoodName(n) && Free(pre, SEPS)
    ensures Cut(pre + Print(n), SEPS) == Pieces(AddFirst(pre, Tokens(n)), DelimsOf(n))
  {
    TokensFree(n);
    JoinPrefix(pre, Tokens(n), DelimsOf(n));
    SplitJoin(AddFirst(pre, Tokens(n)), DelimsOf(n), SEPS);
  }

  lemma PrefixFree(k: Kind)
    ensures Free(Prefix(k), SEPS)
  {
  }

  /** `get_testcase_parent` drops exactly the last id and keeps delimiters, prefix and extension. */
  lemma ParentOfFile(n: Name, k: Kind)
    requires GoodName(n) && !k.Deleted? && !k.MinTestcase?
    ensures ParentOf(FileName(n, k)) == if |n| == 1 then "" else FileName(Parent(n), k)
  {
    PrintIsBody(n);
    RemoveExtOfFile(Print(n), k);
    ExtOfFile(Print(n), k);
    PrefixFree(k);
    ParentOfStem(n, FileName(n, k), Prefix(k), LastExt(k));
    if |n| > 1 {
      PrintIsBody(Parent(n));
      ExtOfFile(Print(Parent(n)), k);
    }
  }

  lemma ParentOfStem(n: Name, f: string, pre: string, ext: string)
    requires GoodName(n) && Free(pre, SEPS) && RemoveExt(f) == pre + Print(n) && FirstExt(f, EXT_LIST) == ext
    ensures ParentOf(f) == if |n| == 1 then "" else pre + Print(Parent(n)) + ext
  {
    CutStem(n, pre);
    if |n| > 1 {
      JoinParent(n, pre);
    }
  }

  lemma JoinParent(n: Name, pre: string)
    requires GoodName(n) && |n| > 1
    ensures var last := |n| - 1;
      Join(AddFirst(pre, Tokens(n))[..last], DelimsOf(n)[..last - 1]) == pre + Print(Parent(n))
  {
    var last := |n| - 1;
    var m := Parent(n);
    assert AddFirst(pre, Tokens(n))[..last] == AddFirst(pre, Tokens(m));
    assert DelimsOf(n)[..last - 1] == DelimsOf(m);
    JoinPrefix(pre, Tokens(m), DelimsOf(m));
  }

  /** For a minimised testcase the last "id" is the `min` token: its parent is the testcase itself. */
  lemma ParentOfMin(n: Name)
    requires GoodName(n)
    ensures ParentOf(FileName(n, MinTestcase)) == FileName(n, Testcase)
  {
    PrintIsBody(n);
    RemoveExtOfFile(Print(n), MinTestcase);
    ExtOfFile(Print(n), MinTestcase);
    CutMinStem(n);
    assert (Tokens(n) + ["min"])[..|n|] == Tokens(n);
    assert (DelimsOf(n) + ['.'])[..|n| - 1] == DelimsOf(n);
  }

  lemma CutMinStem(n: Name)
    requires GoodName(n)
    ensures Cut(Print(n) + ".min", SEPS) == Pieces(Tokens(n) + ["min"], DelimsOf(n) + ['.'])
  {
    CutPrint(n);
    assert Print(n) + ".min" == Print(n) + ['.'] + "min";
    CutSep(Print(n), '.', "min", SEPS);
  }

  lemma FileNotEmpty(n: Name, k: Kind)
    requires n != []
    ensures FileName(n, k) != ""
  {
    assert |FileName(n, k)| >= |Ext(k)| > 0;
  }

  /** A file of a name, or the empty string when no id is left. */
  function FileOrEmpty(n: Name, k: Kind): string {
    if n == [] then "" else FileName(n, k)
  }

  lemma AncestorStep(m: Name, k: Kind)
    requires GoodName(m) && !k.Deleted? && !k.MinTestcase?
    ensures FileOrEmpty(m, k) != "" && ParentOf(FileOrEmpty(m, k)) == FileOrEmpty(Parent(m), k)
  {
    FileNotEmpty(m, k);
    ParentOfFile(m, k);
  }

  /** The file and its ancestors, down to the empty string. */
  function Ancestors(n: Name, k: Kind): (chain: seq<string>)
    ensures |chain| == |n| + 1
    ensures chain[0] == FileOrEmpty(n, k) && chain[|n|] == ""
  {
    assert n[..|n| - 0] == n && n[..|n| - |n|] == [];
    seq(|n| + 1, i requires 0 <= i <= |n| => FileOrEmpty(n[..|n| - i], k))
  }

  predicate Linked(chain: seq<string>, i: nat)
    requires i + 1 < |chain|
  {
    chain[i] != "" && chain[i + 1] == ParentOf(chain[i])
  }

  lemma AncestorLink(n: Name, k: Kind, i: nat)
    requires GoodName(n) && !k.Deleted? && !k.MinTestcase? && i < |n|
    ensures Linked(Ancestors(n, k), i)
  {
    var m := n[..|n| - i];
    assert GoodName(m);
    assert Parent(m) == n[..|n| - (i + 1)];
    AncestorStep(m, k);
    assert Ancestors(n, k)[i] == FileOrEmpty(m, k) && Ancestors(n, k)[i + 1] == FileOrEmpty(Parent(m), k);
  }

  /** From a name of `|n|` ids, `get_testcase_parent` goes through the prefixes of the name
      and reaches the empty string in exactly `|n|` steps. */
  lemma AncestorChain(n: Name, k: Kind)
    requires GoodName(n) && !k.Deleted? && !k.MinTestcase?
    ensures Ancestors(n, k)[0] == FileName(n, k) && Ancestors(n, k)[|n|] == ""
    ensures forall i: nat | i < |n| :: Linked(Ancestors(n, k), i)
  {
    forall i: nat | i < |n|
      ensures Linked(Ancestors(n, k), i)
    {
      AncestorLink(n, k, i);
    }
  }

  // ----- New names -----

  /** `clean_tc_name`: from an AFL queue name `id:000012,...`; None is the IndexError. */
  function CleanTcName(s: string): Option<string> {
    var parts := Split(Split(s, COMMA)[0], {':'});
    if |parts| > 1 then Some("id=" + parts[1] + ".testcase") else None
  }

  lemma {:induction false} CutFirst(a: string, rest: string, seps: set<char>)
    requires Free(a, seps) && (rest == "" || rest[0] in seps)
    ensures Cut(a + rest, seps).ts[0] == a && (rest != "" ==> |Cut(a + rest, seps).ts| > 1)
  {
    if rest == "" {
      assert a + rest == a;
      CutOne(a, seps);
    } else {
      var r', c := rest[..|rest| - 1], rest[|rest| - 1];
      CutFirst(a, r', seps);
      CutChar(a + r', c, seps);
      LastApart(a, rest);
    }
  }

  function Child(n: Name, digits: string): Name {
    n + [Tag(',', digits)]
  }

  function CrashOf(n: Name, tcDigits: string, idDigits: string): Name {
    n + [Tag('.', tcDigits), Tag('.', idDigits)]
  }

  /** Names the testcase runs give: a first-stage name, or one collected from a run. */
  predicate TcShape(n: Name) {
    GoodName(n) && n[|n| - 1].delim == ','
  }

  /** Names failure injection gives. */
  predicate CsShape(n: Name) {
    GoodName(n) && n[|n| - 1].delim == '.'
  }

  lemma AppendTag(n: Name, t: Tag)
    requires n != []
    ensures Print(n + [t]) == Print(n) + [t.delim] + Token(t)
  {
    var m := n + [t];
    PrintLast(m);
    assert m[..|n|] == n;
  }

  /** A testcase collected from the run of `n`: `n` is its parent and its lineage is one longer. */
  lemma ChildFile(n: Name, digits: string, rest: string)
    requires GoodName(n) && IsDigits(digits) && (rest == "" || rest[0] == ',')
    ensures CleanTcName("id:" + digits + rest) == Some("id=" + digits + ".testcase")
    ensures Print(n) + "," + ("id=" + digits + ".testcase") == FileName(Child(n, digits), Testcase)
    ensures TcShape(Child(n, digits)) && Parent(Child(n, digits)) == n
    ensures LineageOf(Child(n, digits)) == LineageOf(n) + [Value(digits)]
  {
    AflName(digits, rest);
    AppendTag(n, Tag(',', digits));
    assert Child(n, digits)[..|n|] == n;
    assert Print(n) + [','] + ("id=" + digits) + ".testcase" == Print(n) + "," + ("id=" + digits + ".testcase");
  }

  lemma AflName(digits: string, rest: string)
    requires IsDigits(digits) && (rest == "" || rest[0] == ',')
    ensures CleanTcName("id:" + digits + rest) == Some("id=" + digits + ".testcase")
  {
    CutFirst("id:" + digits, rest, COMMA);
    CutColon("id:" + digits, "id", digits);
  }

  lemma CutColon(s: string, a: string, b: string)
    requires s == a + [':'] + b && Free(a, {':'}) && Free(b, {':'})
    ensures Split(s, {':'}) == [a, b]
  {
    CutOne(a, {':'});
    CutSep(a, ':', b, {':'});
  }

  /** A crash image of the run of child `tcDigits` on the image of `n`, as the injector names it:
      its lineage is that of `n`. */
  lemma CrashFile(n: Name, tcDigits: string, idDigits: string)
    requires GoodName(n) && IsDigits(tcDigits) && IsDigits(idDigits)
    ensures Print(n) + "." + ("id=" + tcDigits) + ".id=" + idDigits + ".crash_site"
         == FileName(CrashOf(n, tcDigits, idDigits), Crash)
    ensures CsShape(CrashOf(n, tcDigits, idDigits))
    ensures LineageOf(CrashOf(n, tcDigits, idDigits)) == LineageOf(n)
  {
    var m := n + [Tag('.', tcDigits)];
    var c := CrashOf(n, tcDigits, idDigits);
    AppendTag(n, Tag('.', tcDigits));
    AppendTag(m, Tag('.', idDigits));
    assert c == m + [Tag('.', idDigits)];
    assert Print(m) + ['.'] + ("id=" + idDigits) == Print(m) + ".id=" + idDigits;
    CrashLineage(n, tcDigits, idDigits);
  }

  /** `%06d` of a 32-bit id that is printed as signed. */
  function Printed(id: nat): string
    requires id < 0x1_0000_0000
  {
    if id < 0x8000_0000 then Padded(Dec(id), 6) else "-" + Padded(Dec(0x1_0000_0000 - id), 5)
  }

  function Padded(d: string, width: nat): (r: string)
    requires IsDigits(d)
    ensures IsDigits(r) && (|r| == width || r == d)
    decreases width - |d|
  {
    if |d| >= width then d else Padded("0" + d, width)
  }

  lemma {:induction false} LeadingZero(d: string)
    requires IsDigits(d)
    ensures IsDigits("0" + d) && Value("0" + d) == Value(d)
  {
    if |d| > 1 {
      LeadingZero(d[..|d| - 1]);
      assert ("0" + d)[..|d|] == "0" + d[..|d| - 1];
    } else {
      assert ("0" + d)[..1] == "0";
    }
  }

  lemma {:induction false} PaddedValue(d: string, width: nat)
    requires IsDigits(d)
    ensures Value(Padded(d, width)) == Value(d) && |Padded(d, width)| >= width
    decreases width - |d|
  {
    if |d| < width {
      LeadingZero(d);
      PaddedValue("0" + d, width);
    }
  }

  /** The name of a crash image shows at least six characters, which are the decimal digits of the signed id. */
  lemma PrintedValue(id: nat)
    requires id < 0x1_0000_0000
    ensures |Printed(id)| >= 6
    ensures id < 0x8000_0000 ==> IsDigits(Printed(id)) && Value(Printed(id)) == id
    ensures 0x8000_0000 <= id ==>
      Printed(id)[0] == '-' && IsDigits(Printed(id)[1..]) && Value(Printed(id)[1..]) == 0x1_0000_0000 - id
  {
    if id < 0x8000_0000 {
      ValueDec(id);
      PaddedValue(Dec(id), 6);
    } else {
      var m := 0x1_0000_0000 - id;
      ValueDec(m);
      PaddedValue(Dec(m), 5);
      assert Printed(id)[1..] == Padded(Dec(m), 5);
    }
  }

  /** So different ids never share a name. */
  lemma PrintedDistinct(i: nat, j: nat)
    requires i < 0x1_0000_0000 && j < 0x1_0000_0000 && Printed(i) == Printed(j)
    ensures i == j
  {
    PrintedValue(i);
    PrintedValue(j);
  }

  lemma CrashBody(s: string)
    requires IsCrashSite(s)
    ensures |s| >= |".crash_site"| && Body(s[..|s| - |".crash_site"|])
  {
    var n := RegexForm(s, "", ".crash_site");
    PrintIsBody(n);
    assert s == Print(n) + ".crash_site";
  }

  lemma SignNoCrash(a: string, d: string)
    requires d != "" && d[0] == '-'
    ensures !IsCrashSite(a + d + ".crash_site")
  {
    var s := a + d + ".crash_site";
    assert s[|a|] == '-' && |a| < |s| - |".crash_site"|;
    assert !Body(s[..|s| - |".crash_site"|]) by {
      assert s[..|s| - |".crash_site"|][|a|] == '-';
    }
    if IsCrashSite(s) {
      CrashBody(s);
    }
  }

  /** So the name given to a crash image is recognised exactly while the ids have no sign. */
  lemma CrashFileIff(n: Name, tcDigits: string, id: nat)
    requires GoodName(n) && IsDigits(tcDigits) && id < 0x1_0000_0000
    ensures IsCrashSite(Print(n) + "." + ("id=" + tcDigits) + ".id=" + Printed(id) + ".crash_site")
       <==> id < 0x8000_0000
  {
    if id < 0x8000_0000 {
      CrashFile(n, tcDigits, Printed(id));
      RecognisedCrash(CrashOf(n, tcDigits, Printed(id)), Crash);
    } else {
      SignNoCrash(Print(n) + "." + ("id=" + tcDigits) + ".id=", Printed(id));
    }
  }

  lemma CrashLineage(n: Name, tcDigits: string, idDigits: string)
    requires GoodName(n) && IsDigits(tcDigits) && IsDigits(idDigits)
    ensures CsShape(CrashOf(n, tcDigits, idDigits))
    ensures LineageOf(CrashOf(n, tcDigits, idDigits)) == LineageOf(n)
  {
    var m := n + [Tag('.', tcDigits)];
    var c := CrashOf(n, tcDigits, idDigits);
    assert c[..|m|] == m && m[..|n|] == n;
  }
}
