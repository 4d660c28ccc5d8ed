/** Testcase and image names (src/pmfuzz/handlers/name_handler.py), on actual strings. */
module Names {
  import opened Text

  /** One `id=<digits>` of a name, with the delimiter before it (`,` by convention for the first). */
  datatype Tag = Tag(delim: char, digits: string)
  type Name = seq<Tag>

  const SEPS: set<char> := {',', '.'}

  predicate GoodName(n: Name) {
    && n != [] && n[0].delim == ','
    && forall i | 0 <= i < |n| :: n[i].delim in SEPS && IsDigits(n[i].digits)
  }

  function Token(t: Tag): string {
    "id=" + t.digits
  }

  function Tokens(n: Name): (ts: seq<string>)
    ensures |ts| == |n|
  {
    seq(|n|, i requires 0 <= i < |n| => Token(n[i]))
  }

  function DelimsOf(n: Name): (ds: string)
    requires n != []
    ensures |ds| == |n| - 1
  {
    seq(|n| - 1, i requires 0 <= i < |n| - 1 => n[i + 1].delim)
  }

  /** The name without prefix and extension, called `clean` by the program. */
  function Print(n: Name): string
    requires n != []
  {
    Join(Tokens(n), DelimsOf(n))
  }

  predicate IsToken(t: string) {
    |t| > 3 && t[..3] == "id=" && IsDigits(t[3..])
  }

  /** The part `(id=\d+)(\.id=\d+)*(,id=\d+(\.id=\d+)*)*` shared by all the regular expressions. */
  function ParseName(s: string): Option<Name> {
    Assemble(Split(s, SEPS), Delims(s, SEPS))
  }

  predicate BodyChar(c: char) {
    c == 'i' || c == 'd' || c == '=' || c == '.' || c == ',' || '0' <= c <= '9'
  }

  predicate Body(s: string) {
    forall i | 0 <= i < |s| :: BodyChar(s[i])
  }

  lemma TokensFree(n: Name)
    requires GoodName(n)
    ensures forall i | 0 <= i < |Tokens(n)| :: Free(Tokens(n)[i], SEPS)
    ensures forall i | 0 <= i < |DelimsOf(n)| :: DelimsOf(n)[i] in SEPS
  {
    forall i | 0 <= i < |n|
      ensures Free(Tokens(n)[i], SEPS)
    {
      TokenFree(n[i]);
    }
  }

  lemma TokenFree(t: Tag)
    requires IsDigits(t.digits)
    ensures Free(Token(t), SEPS)
  {
    forall j | 0 <= j < |Token(t)|
      ensures Token(t)[j] !in SEPS
    {
      assert j >= 3 ==> Token(t)[j] == t.digits[j - 3];
    }
  }

  /** Parsing undoes printing... */
  lemma ParsePrint(n: Name)
    requires GoodName(n)
    ensures ParseName(Print(n)) == Some(n)
  {
    CutPrint(n);
    TokensParse(n);
  }

  lemma CutPrint(n: Name)
    requires GoodName(n)
    ensures Cut(Print(n), SEPS) == Pieces(Tokens(n), DelimsOf(n))
  {
    TokensFree(n);
    SplitJoin(Tokens(n), DelimsOf(n), SEPS);
  }

  /** `ParseName` once the string is cut into tokens and delimiters. */
  function Assemble(ts: seq<string>, ds: string): Option<Name>
    requires |ts| == |ds| + 1
  {
    if forall i | 0 <= i < |ts| :: IsToken(ts[i]) then
      Some(seq(|ts|, i requires 0 <= i < |ts| => Tag(if i == 0 then ',' else ds[i - 1], ts[i][3..])))
    else None
  }

  lemma TokensParse(n: Name)
    requires GoodName(n)
    ensures Assemble(Tokens(n), DelimsOf(n)) == Some(n)
  {
    forall i | 0 <= i < |n|
      ensures IsToken(Tokens(n)[i]) && Tokens(n)[i][3..] == n[i].digits
    {
      assert IsDigits(n[i].digits);
    }
    assert Assemble(Tokens(n), DelimsOf(n)).value == n;
  }

  lemma TokenParts(t: string)
    requires IsToken(t)
    ensures Token(Tag(',', t[3..])) == t
  {
  }

  /** ...and whatever parses is the print of a well-formed name. */
  lemma PrintParse(s: string)
    requires ParseName(s).Some?
    ensures GoodName(ParseName(s).value) && Print(ParseName(s).value) == s
  {
    var n := ParseName(s).value;
    SplitPieces(s, SEPS);
    JoinSplit(s, SEPS);
    ParsedGood(n, Split(s, SEPS), Delims(s, SEPS));
  }

  lemma ParsedGood(n: Name, ts: seq<string>, ds: string)
    requires |ts| == |ds| + 1 && Assemble(ts, ds) == Some(n)
    requires forall i | 0 <= i < |ds| :: ds[i] in SEPS
    ensures GoodName(n) && Tokens(n) == ts && DelimsOf(n) == ds
  {
    forall i | 0 <= i < |ts|
      ensures Tokens(n)[i] == ts[i]
    {
      TokenParts(ts[i]);
    }
  }

  lemma {:induction false} PrintIsBody(n: Name)
    requires GoodName(n)
    ensures Body(Print(n))
  {
    var last := |n| - 1;
    assert IsDigits(n[last].digits);
    if last > 0 {
      PrintLast(n);
      PrintIsBody(n[..last]);
    }
  }

  lemma PrintLast(n: Name)
    requires |n| > 1
    ensures var last := |n| - 1; Print(n) == Print(n[..last]) + [n[last].delim] + Token(n[last])
  {
    var last := |n| - 1;
    assert Tokens(n)[..last] == Tokens(n[..last]);
    assert DelimsOf(n)[..last - 1] == DelimsOf(n[..last]);
  }

  // ----- File names -----

  datatype Kind = Testcase | MinTestcase | Map | PmMap | Pool | PoolCmpr | Crash | CrashCmpr | Deleted

  function Prefix(k: Kind): string {
    match k
    case Map => "map_"
    case PmMap => "pm_map_"
    case _ => ""
  }

  function Ext(k: Kind): string {
    match k
    case Testcase => ".testcase"
    case MinTestcase => ".min.testcase"
    case Map => ".testcase"
    case PmMap => ".testcase"
    case Pool => ".pm_pool"
    case PoolCmpr => ".pm_pool.tar.gz"
    case Crash => ".crash_site"
    case CrashCmpr => ".crash_site.tar.gz"
    case Deleted => ".deleted"
  }

  function FileOf(clean: string, k: Kind): string {
    if k.Map? || k.PmMap? then Prefix(k) + (clean + Ext(k)) else clean + Ext(k)
  }

  function FileName(n: Name, k: Kind): string
    requires n != []
  {
    FileOf(Print(n), k)
  }

  /** A tail matches a regular expression tail in which `?` stands for an unescaped dot. */
  predicate TailMatches(tail: string, pattern: string) {
    && |tail| == |pattern|
    && forall i | 0 <= i < |tail| :: if pattern[i] == '?' then tail[i] != '\n' else tail[i] == pattern[i]
  }

  /** `is_regex` for the expression `^<prefix><name><pattern>$`. */
  predicate IsRegex(s: string, prefix: string, pattern: string) {
    && |s| >= |prefix| + |pattern|
    && prefix <= s
    && TailMatches(s[|s| - |pattern|..], pattern)
    && ParseName(s[|prefix|..|s| - |pattern|]).Some?
  }

  predicate IsTc(s: string) { IsRegex(s, "", ".testcase") }
  predicate IsMinTc(s: string) { IsRegex(s, "", ".min.testcase") }
  predicate IsMap(s: string) { IsRegex(s, "map_", ".testcase") }
  predicate IsPmMap(s: string) { IsRegex(s, "pm_map_", ".testcase") }
  predicate IsImg(s: string) { IsRegex(s, "", ".pm_pool") }
  predicate IsCmprImg(s: string) { IsRegex(s, "", ".pm_pool?tar?gz") }
  predicate IsCrashSite(s: string) { IsRegex(s, "", ".crash_site") }
  predicate IsCmprCrashSite(s: string) { IsRegex(s, "", ".crash_site?tar?gz") }

  datatype Metadata = Metadata(testcase: string, clean: string, minTestcase: string, pmMap: string, map_: string,
                               deleted: string, crashSite: string, crashCmprSite: string,
                               pmPool: string, pmCmprPool: string)

  /** The branches of `get_metadata_files` that bring a file name back to its testcase name. */
  function Strip(s: string): string {
    if Contains(s, "pm_map") then Replace(s, "pm_map_", "")
    else if Contains(s, "map") then Replace(s, "map_", "")
    else if Contains(s, ".pm_pool.tar.gz") then Replace(s, ".pm_pool.tar.gz", ".testcase")
    else if Contains(s, ".pm_pool") then Replace(s, ".pm_pool", ".testcase")
    else if Contains(s, ".crash_site.tar.gz") then Replace(s, ".crash_site.tar.gz", ".testcase")
    else if Contains(s, ".crash_site") then Replace(s, ".crash_site", ".testcase")
    else if Contains(s, ".min") then Replace(s, ".min", "")
    else s
  }

  /** `get_metadata_files` on a base name; None is the abort. */
  function GetMetadata(s: string): Option<Metadata> {
    MetadataFrom(Strip(s))
  }

  function MetadataFrom(b: string): Option<Metadata> {
    if !IsTc(b) then None
    else
      var bare := Replace(b, ".testcase", "");
      Some(Fields(b, bare))
  }

  function Fields(b: string, bare: string): Metadata {
    Metadata(b, bare, bare + ".min.testcase", "pm_map_" + b, "map_" + b, bare + ".deleted",
             bare + ".crash_site", bare + ".crash_site.tar.gz", bare + ".pm_pool", bare + ".pm_pool.tar.gz")
  }

  /** The dictionary of a testcase, stated by file kind. */
  ghost predicate Describes(m: Metadata, clean: string) {
    && m.testcase == FileOf(clean, Testcase) && m.clean == clean
    && m.minTestcase == FileOf(clean, MinTestcase)
    && m.pmMap == FileOf(clean, PmMap) && m.map_ == FileOf(clean, Map) && m.deleted == FileOf(clean, Deleted)
    && m.crashSite == FileOf(clean, Crash) && m.crashCmprSite == FileOf(clean, CrashCmpr)
    && m.pmPool == FileOf(clean, Pool) && m.pmCmprPool == FileOf(clean, PoolCmpr)
  }

  lemma SkipBody(a: string, b: string, p: string)
    requires Body(a) && |p| > 1
    requires BodyChar(p[0]) ==> !BodyChar(p[1]) && (b == "" || b[0] != p[1])
    ensures NoStart(a, b, p)
  {
    forall k | 0 <= k < |a|
      ensures !(p <= (a + b)[k..])
    {
      assert (a + b)[k] == a[k];
      if k + 1 < |a + b| {
        assert (a + b)[k..][1] == if k + 1 < |a| then a[k + 1] else b[0];
      }
    }
  }

  lemma ReplaceExt(a: string, ext: string, r: string)
    requires Body(a) && |ext| > 1 && ext[0] == '.' && !BodyChar(ext[1])
    ensures Replace(a + ext, ext, r) == a + r
  {
    SkipBody(a, ext, ext);
    ReplaceSkip(a, ext, ext, r);
    ReplaceHead(ext, "", r);
    assert ext + "" == ext && r + "" == r;
  }

  lemma LacksInFile(a: string, ext: string, p: string, c: char)
    requires Body(a) && !BodyChar(c) && c in p && c !in ext
    ensures !Contains(a + ext, p)
  {
    LacksChar(a + ext, p, c);
  }

  /** No archive or testcase extension contains the letters `ma` of `map`. */
  lemma NoMapInFile(a: string, ext: string)
    requires Body(a) && forall k | 0 <= k < |ext| - 1 :: !(ext[k] == 'm' && ext[k + 1] == 'a')
    ensures !Contains(a + ext, "pm_map") && !Contains(a + ext, "map")
  {
    forall k | 0 <= k < |a + ext| - 1
      ensures !((a + ext)[k] == 'm' && (a + ext)[k + 1] == 'a')
    {
      if k >= |a| {
        assert (a + ext)[k] == ext[k - |a|] && (a + ext)[k + 1] == ext[k - |a| + 1];
      }
    }
    LacksPair(a + ext, "pm_map", 3);
    LacksPair(a + ext, "map", 0);
  }

  /** `x in s` and `s.replace(x, '.testcase')` for a name that ends in the extension `x`. */
  lemma EndsIn(a: string, ext: string)
    requires Body(a) && |ext| > 1 && ext[0] == '.' && !BodyChar(ext[1])
    ensures Contains(a + ext, ext) && Replace(a + ext, ext, ".testcase") == a + ".testcase"
  {
    ContainsAt(a, ext, "");
    assert a + ext + "" == a + ext;
    ReplaceExt(a, ext, ".testcase");
  }

  lemma NoPoolInFile(a: string, ext: string)
    requires Body(a) && 'p' !in ext
    ensures !Contains(a + ext, ".pm_pool.tar.gz") && !Contains(a + ext, ".pm_pool")
  {
    LacksInFile(a, ext, ".pm_pool.tar.gz", 'p');
    LacksInFile(a, ext, ".pm_pool", 'p');
  }

  lemma NoCrashInFile(a: string, ext: string)
    requires Body(a) && 'h' !in ext
    ensures !Contains(a + ext, ".crash_site.tar.gz") && !Contains(a + ext, ".crash_site")
  {
    LacksInFile(a, ext, ".crash_site.tar.gz", 'h');
    LacksInFile(a, ext, ".crash_site", 'h');
  }

  /** `x in s` and `s.replace(y, '')` for a name `y + t` where `x` starts `y`. */
  lemma StartsWithMap(x: string, rest: string, a: string)
    requires x != "" && Body(a) && 'm' in x + rest
    ensures var y := x + rest;
      Contains(y + (a + ".testcase"), x) && Replace(y + (a + ".testcase"), y, "") == a + ".testcase"
  {
    var y, t := x + rest, a + ".testcase";
    assert y + t == "" + x + (rest + t);
    ContainsAt("", x, rest + t);
    ReplaceHead(y, t, "");
    LacksInFile(a, ".testcase", y, 'm');
    ReplaceNone(t, y, "");
    assert "" + t == t;
  }

  lemma StripPmMap(a: string)
    requires Body(a)
    ensures Strip("pm_map_" + (a + ".testcase")) == a + ".testcase"
  {
    StartsWithMap("pm_map", "_", a);
    assert "pm_map" + "_" == "pm_map_";
  }

  lemma StripMap(a: string)
    requires Body(a)
    ensures Strip("map_" + (a + ".testcase")) == a + ".testcase"
  {
    var s := "map_" + (a + ".testcase");
    StartsWithMap("map", "_", a);
    assert "map" + "_" == "map_";
    NoPmMap(a);
  }

  lemma NoPmMap(a: string)
    requires Body(a)
    ensures !Contains("map_" + (a + ".testcase"), "pm_map")
  {
    var t := a + ".testcase";
    var s := "map_" + (a + ".testcase");
    forall k | 0 <= k < |s| - 1
      ensures !(s[k] == 'p' && s[k + 1] == 'm')
    {
      assert k >= 4 ==> s[k] == t[k - 4];
    }
    LacksPair(s, "pm_map", 0);
  }

  lemma StripTestcase(a: string)
    requires Body(a)
    ensures Strip(a + ".testcase") == a + ".testcase"
  {
    NoMapInFile(a, ".testcase");
    NoPoolInFile(a, ".testcase");
    NoCrashInFile(a, ".testcase");
    LacksInFile(a, ".testcase", ".min", 'n');
  }

  lemma StripMinTestcase(a: string)
    requires Body(a)
    ensures Strip(a + ".min.testcase") == a + ".testcase"
  {
    MinLiteral();
    MinInFile(a, ".min", ".testcase");
    MinAlone(a);
  }

  lemma MinAlone(a: string)
    requires Body(a)
    ensures var s := a + ".min.testcase";
      && !Contains(s, "pm_map") && !Contains(s, "map") && !Contains(s, ".pm_pool.tar.gz") && !Contains(s, ".pm_pool")
      && !Contains(s, ".crash_site.tar.gz") && !Contains(s, ".crash_site")
  {
    NoMapInFile(a, ".min.testcase");
    NoPoolInFile(a, ".min.testcase");
    NoCrashInFile(a, ".min.testcase");
  }

  lemma MinLiteral()
    ensures ".min" + ".testcase" == ".min.testcase"
  {
  }

  lemma MinInFile(a: string, min: string, ext: string)
    requires Body(a) && min == ".min" && ext == ".testcase"
    ensures Contains(a + (min + ext), min) && Replace(a + (min + ext), min, "") == a + ext
  {
    assert a + (min + ext) == a + min + ext;
    ContainsAt(a, min, ext);
    SkipBody(a, min + ext, min);
    ReplaceSkip(a, min + ext, min, "");
    ReplaceHead(min, ext, "");
    LacksChar(ext, min, 'n');
    ReplaceNone(ext, min, "");
    assert "" + ext == ext;
  }

  lemma StripPool(a: string)
    requires Body(a)
    ensures Strip(a + ".pm_pool") == a + ".testcase"
  {
    NoMapInFile(a, ".pm_pool");
    LacksInFile(a, ".pm_pool", ".pm_pool.tar.gz", 'z');
    EndsIn(a, ".pm_pool");
  }

  lemma StripPoolCmpr(a: string)
    requires Body(a)
    ensures Strip(a + ".pm_pool.tar.gz") == a + ".testcase"
  {
    NoMapInFile(a, ".pm_pool.tar.gz");
    EndsIn(a, ".pm_pool.tar.gz");
  }

  lemma StripCrash(a: string)
    requires Body(a)
    ensures Strip(a + ".crash_site") == a + ".testcase"
  {
    NoMapInFile(a, ".crash_site");
    NoPoolInFile(a, ".crash_site");
    LacksInFile(a, ".crash_site", ".crash_site.tar.gz", 'z');
    EndsIn(a, ".crash_site");
  }

  lemma StripCrashCmpr(a: string)
    requires Body(a)
    ensures Strip(a + ".crash_site.tar.gz") == a + ".testcase"
  {
    NoMapInFile(a, ".crash_site.tar.gz");
    NoPoolInFile(a, ".crash_site.tar.gz");
    EndsIn(a, ".crash_site.tar.gz");
  }

  lemma StripFile(a: string, k: Kind)
    requires Body(a) && !k.Deleted?
    ensures Strip(FileOf(a, k)) == a + ".testcase"
  {
    match k
    case Map => StripMap(a);
    case PmMap => StripPmMap(a);
    case Testcase => StripTestcase(a);
    case MinTestcase => StripMinTestcase(a);
    case Pool => StripPool(a);
    case PoolCmpr => StripPoolCmpr(a);
    case Crash => StripCrash(a);
    case CrashCmpr => StripCrashCmpr(a);
  }

  lemma PrintedTc(n: Name, a: string)
    requires GoodName(n) && a == Print(n)
    ensures IsTc(a + ".testcase")
  {
    ParsePrint(n);
    assert (a + ".testcase")[..|a|] == a;
  }

  lemma MetadataOf(b: string, a: string)
    requires Body(a) && b == a + ".testcase" && IsTc(b)
    ensures MetadataFrom(b).Some? && Describes(MetadataFrom(b).value, a)
  {
    BareOf(a, b);
    FieldsDescribe(a, b);
  }

  lemma BareOf(a: string, b: string)
    requires Body(a) && b == a + ".testcase"
    ensures Replace(b, ".testcase", "") == a
  {
    ReplaceExt(a, ".testcase", "");
    assert a + "" == a;
  }

  lemma FieldsDescribe(a: string, b: string)
    requires b == a + ".testcase"
    ensures Describes(Fields(b, a), a)
  {
  }

  /** Every file of a well-formed name, other than its placeholder, leads back to the same dictionary. */
  lemma CanonicalFile(n: Name, k: Kind)
    requires GoodName(n) && !k.Deleted?
    ensures GetMetadata(FileName(n, k)).Some? && Describes(GetMetadata(FileName(n, k)).value, Print(n))
  {
    var a := Print(n);
    PrintIsBody(n);
    StripFile(a, k);
    PrintedTc(n, a);
    MetadataOf(Strip(FileName(n, k)), a);
  }

  lemma TcHasName(b: string) returns (n: Name)
    requires IsTc(b)
    ensures GoodName(n) && b == Print(n) + ".testcase"
  {
    var a := b[..|b| - 9];
    assert b == a + b[|b| - 9..];
    assert b[|b| - 9..] == ".testcase";
    assert b[0..|b| - 9] == a;
    PrintParse(a);
    n := ParseName(a).value;
  }

  /** Applying `get_metadata_files` to any file it names gives the same dictionary, for every string it accepts. */
  lemma Canonical(s: string, k: Kind)
    requires GetMetadata(s).Some? && !k.Deleted?
    ensures var m := GetMetadata(s).value;
      Describes(m, m.clean) && ParseName(m.clean).Some? && GetMetadata(FileOf(m.clean, k)) == Some(m)
  {
    var n := TcHasName(Strip(s));
    PrintIsBody(n);
    MetadataOf(Strip(s), Print(n));
    ParsePrint(n);
    CanonicalFile(n, k);
  }

  /** The placeholder of a deleted testcase is not recognised: the call aborts. */
  lemma PlaceholderAborts(n: Name)
    requires GoodName(n)
    ensures GetMetadata(FileName(n, Deleted)) == None
  {
    var a := Print(n);
    PrintIsBody(n);
    StripDeleted(a);
    assert FileName(n, Deleted) == a + ".deleted";
    var s := a + ".deleted";
    assert s[|s| - 1] != ".testcase"[8];
  }

  lemma StripDeleted(a: string)
    requires Body(a)
    ensures Strip(a + ".deleted") == a + ".deleted"
  {
    NoMapInFile(a, ".deleted");
    NoPoolInFile(a, ".deleted");
    NoCrashInFile(a, ".deleted");
    LacksInFile(a, ".deleted", ".min", 'n');
  }

  lemma CleanOf(n: Name, k: Kind, f: string)
    requires GoodName(n) && f == FileName(n, k)
    ensures k.Deleted? <==> GetMetadata(f).None?
    ensures !k.Deleted? ==> GetMetadata(f).value.clean == Print(n)
  {
    if k.Deleted? {
      PlaceholderAborts(n);
    } else {
      CanonicalFile(n, k);
    }
  }

  /** Different testcases share no file, and the nine files of one testcase are distinct. */
  lemma FilesDistinct(n1: Name, k1: Kind, n2: Name, k2: Kind)
    requires GoodName(n1) && GoodName(n2) && FileName(n1, k1) == FileName(n2, k2)
    ensures n1 == n2 && k1 == k2
  {
    CleanOf(n1, k1, FileName(n1, k1));
    CleanOf(n2, k2, FileName(n1, k1));
    if k1.Deleted? {
      DeletedClean(Print(n1), Print(n2));
    }
    ParsePrint(n1);
    ParsePrint(n2);
    PrintIsBody(n1);
    KindsDistinct(Print(n1), k1, k2);
  }

  lemma DeletedClean(a1: string, a2: string)
    requires FileOf(a1, Deleted) == FileOf(a2, Deleted)
    ensures a1 == a2
  {
    assert a1 == FileOf(a1, Deleted)[..|a1|] && a2 == FileOf(a2, Deleted)[..|a2|];
  }

  lemma KindsDistinct(a: string, k1: Kind, k2: Kind)
    requires FileOf(a, k1) == FileOf(a, k2) && Body(a) && (k1.Deleted? <==> k2.Deleted?)
    ensures k1 == k2
  {
    assert |Prefix(k1)| + |Ext(k1)| == |Prefix(k2)| + |Ext(k2)|;
    assert FileOf(a, Map)[0] == 'm';
    assert a == "" ==> FileOf(a, MinTestcase)[0] == '.';
    assert a != "" ==> FileOf(a, MinTestcase)[0] == a[0];
  }

  // ----- The recognisers on generated names -----

  lemma RegexForm(s: string, prefix: string, ext: string) returns (n: Name)
    requires IsRegex(s, prefix, ext) && '?' !in ext
    ensures GoodName(n) && s == prefix + (Print(n) + ext)
  {
    var mid := s[|prefix|..|s| - |ext|];
    PrintParse(mid);
    n := ParseName(mid).value;
    assert s[|s| - |ext|..] == ext;
    assert s == prefix + (mid + ext);
  }

  lemma RegexPrinted(n: Name, prefix: string, ext: string)
    requires GoodName(n) && '?' !in ext
    ensures IsRegex(prefix + (Print(n) + ext), prefix, ext)
  {
    var s := prefix + (Print(n) + ext);
    ParsePrint(n);
    assert s[|prefix|..|s| - |ext|] == Print(n);
    assert s[|s| - |ext|..] == ext;
  }

  /** On the files of well-formed names the recognisers tell the kind. */
  lemma Recognised(n: Name, k: Kind)
    requires GoodName(n)
    ensures IsTc(FileName(n, k)) <==> k.Testcase?
    ensures IsMinTc(FileName(n, k)) <==> k.MinTestcase?
    ensures IsMap(FileName(n, k)) <==> k.Map?
    ensures IsPmMap(FileName(n, k)) <==> k.PmMap?
    ensures IsImg(FileName(n, k)) <==> k.Pool?
    ensures IsCrashSite(FileName(n, k)) <==> k.Crash?
  {
    RecognisedTc(n, k);
    RecognisedMinTc(n, k);
    RecognisedMap(n, k);
    RecognisedPmMap(n, k);
    RecognisedImg(n, k);
    RecognisedCrash(n, k);
  }

  lemma RecognisedTc(n: Name, k: Kind)
    requires GoodName(n)
    ensures IsTc(FileName(n, k)) <==> k.Testcase?
  {
    RecognisedAs(n, k, Testcase, "", ".testcase");
  }

  lemma RecognisedMinTc(n: Name, k: Kind)
    requires GoodName(n)
    ensures IsMinTc(FileName(n, k)) <==> k.MinTestcase?
  {
    RecognisedAs(n, k, MinTestcase, "", ".min.testcase");
  }

  lemma RecognisedMap(n: Name, k: Kind)
    requires GoodName(n)
    ensures IsMap(FileName(n, k)) <==> k.Map?
  {
    RecognisedAs(n, k, Map, "map_", ".testcase");
  }

  lemma RecognisedPmMap(n: Name, k: Kind)
    requires GoodName(n)
    ensures IsPmMap(FileName(n, k)) <==> k.PmMap?
  {
    RecognisedAs(n, k, PmMap, "pm_map_", ".testcase");
  }

  lemma RecognisedImg(n: Name, k: Kind)
    requires GoodName(n)
    ensures IsImg(FileName(n, k)) <==> k.Pool?
  {
    RecognisedAs(n, k, Pool, "", ".pm_pool");
  }

  lemma RecognisedCrash(n: Name, k: Kind)
    requires GoodName(n)
    ensures IsCrashSite(FileName(n, k)) <==> k.Crash?
  {
    RecognisedAs(n, k, Crash, "", ".crash_site");
  }

  lemma RecognisedAs(n: Name, k: Kind, j: Kind, prefix: string, ext: string)
    requires GoodName(n) && prefix == Prefix(j) && ext == Ext(j) && '?' !in ext
    ensures IsRegex(FileName(n, k), prefix, ext) <==> k == j
  {
    var f := FileName(n, k);
    if IsRegex(f, prefix, ext) {
      var m := RegexForm(f, prefix, ext);
      WholeFile(m, j, prefix, ext);
      FilesDistinct(n, k, m, j);
    }
    RegexPrinted(n, prefix, ext);
    WholeFile(n, j, prefix, ext);
  }

  lemma WholeFile(n: Name, j: Kind, prefix: string, ext: string)
    requires GoodName(n) && prefix == Prefix(j) && ext == Ext(j)
    ensures FileName(n, j) == prefix + (Print(n) + ext)
  {
    assert "" + (Print(n) + ext) == Print(n) + ext;
  }

  /** The unescaped dots of the archive expressions make no difference on generated names. */
  lemma RecognisedArchive(n: Name, k: Kind)
    requires GoodName(n)
    ensures IsCmprCrashSite(FileName(n, k)) <==> k.CrashCmpr?
    ensures IsCmprImg(FileName(n, k)) <==> k.PoolCmpr?
  {
    RecognisedCrashSite(n, k);
    RecognisedPool(n, k);
  }

  lemma RecognisedCrashSite(n: Name, k: Kind)
    requires GoodName(n)
    ensures IsCmprCrashSite(FileName(n, k)) <==> k.CrashCmpr?
  {
    ArchiveMatches(n, k, CrashCmpr, ".crash_site?tar?gz");
    if IsCmprCrashSite(FileName(n, k)) {
      CrashTail(FileName(n, k), k, Print(n));
    }
  }

  lemma RecognisedPool(n: Name, k: Kind)
    requires GoodName(n)
    ensures IsCmprImg(FileName(n, k)) <==> k.PoolCmpr?
  {
    ArchiveMatches(n, k, PoolCmpr, ".pm_pool?tar?gz");
    if IsCmprImg(FileName(n, k)) {
      PoolTail(FileName(n, k), k, Print(n));
    }
  }

  lemma ArchiveMatches(n: Name, k: Kind, j: Kind, pattern: string)
    requires GoodName(n) && Prefix(j) == "" && TailMatches(Ext(j), pattern)
    ensures k == j ==> IsRegex(FileName(n, k), "", pattern)
  {
    if k == j {
      var f := FileName(n, k);
      ParsePrint(n);
      assert f == Print(n) + Ext(j);
      assert f[0..|f| - |pattern|] == Print(n) && f[|f| - |pattern|..] == Ext(j);
    }
  }

  lemma CrashTail(f: string, k: Kind, a: string)
    requires f == FileOf(a, k) && |f| >= 18 && TailMatches(f[|f| - 18..], ".crash_site?tar?gz")
    ensures k.CrashCmpr?
  {
    var tail := f[|f| - 18..];
    assert f[|f| - 1] == tail[17] == 'z' && f[|f| - 14] == tail[4] == 's';
    assert f[|f| - 1] == Ext(k)[|Ext(k)| - 1];
  }

  lemma PoolTail(f: string, k: Kind, a: string)
    requires f == FileOf(a, k) && |f| >= 15 && TailMatches(f[|f| - 15..], ".pm_pool?tar?gz")
    ensures k.PoolCmpr?
  {
    var tail := f[|f| - 15..];
    assert f[|f| - 1] == tail[14] == 'z' && f[|f| - 8] == tail[7] == 'l';
    assert f[|f| - 1] == Ext(k)[|Ext(k)| - 1];
  }
}
