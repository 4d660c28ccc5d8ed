/** The string operations by which src/pmfuzz/stages/dedup.py and src/pmfuzz/tools/pmfuzz-cmin go from one file of a
    testcase to another, and that they mean what `Files` takes them to mean. */
module StoreNames {
  import opened Names
  import opened Text

  /** `'map_' + name`, `'pm_map_' + name` and `name.replace('.testcase', '.pm_pool.tar.gz')`. */
  lemma FromTestcase(n: Name)
    requires GoodName(n)
    ensures "map_" + FileName(n, Testcase) == FileName(n, Map)
    ensures "pm_map_" + FileName(n, Testcase) == FileName(n, PmMap)
    ensures Replace(FileName(n, Testcase), ".testcase", ".pm_pool.tar.gz") == FileName(n, PoolCmpr)
    ensures Replace(FileName(n, MinTestcase), ".min", "") == FileName(n, Testcase)
  {
    PrintIsBody(n);
    ReplaceExt(Print(n), ".testcase", ".pm_pool.tar.gz");
    MinLiteral();
    MinInFile(Print(n), ".min", ".testcase");
  }

  /** `'pm_map' in name` holds of pm_maps only. */
  lemma HasPmMap(n: Name, k: Kind)
    requires GoodName(n)
    ensures Contains(FileName(n, k), "pm_map") <==> k.PmMap?
  {
    var a := Print(n);
    PrintIsBody(n);
    match k
    case PmMap => StartsWithMap("pm_map", "_", a); Underscore();
    case Map => NoPmMap(a);
    case Testcase => NoMapInFile(a, ".testcase");
    case MinTestcase => NoMapInFile(a, ".min.testcase");
    case Pool => NoMapInFile(a, ".pm_pool");
    case PoolCmpr => NoMapInFile(a, ".pm_pool.tar.gz");
    case Crash => NoMapInFile(a, ".crash_site");
    case CrashCmpr => NoMapInFile(a, ".crash_site.tar.gz");
    case Deleted => NoMapInFile(a, ".deleted");
  }

  lemma Underscore()
    ensures "pm_map" + "_" == "pm_map_"
  {
  }

  /** `name.replace('pm_map_', '').replace('map_', '')` leads from a pm_map to its testcase. */
  lemma BackToTestcase(n: Name)
    requires GoodName(n)
    ensures Replace(Replace(FileName(n, PmMap), "pm_map_", ""), "map_", "") == FileName(n, Testcase)
  {
    var a := Print(n);
    PrintIsBody(n);
    StartsWithMap("pm_map", "_", a);
    Underscore();
    LacksInFile(a, ".testcase", "map_", 'm');
    ReplaceNone(a + ".testcase", "map_", "");
  }
}
