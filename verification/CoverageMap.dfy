/** The PM access map of include/libpmfuzz.c: `update_loc` and the three access hints. */
module CoverageMap {
  import opened ShiftRegister
  import opened Words

  const COUNTER_CAP: bv8 := 255
  const ELEM_SIZE: nat := 32  // what `get_next_pow_2(COUNTER_CAP/8)` gives, in bytes
  const ELEM_BITS: nat := 256

  // ----- The simple form: a histogram of edges between consecutive locations -----

  function PrevLoc(trace: seq<nat>): nat {
    if trace == [] then 0 else trace[|trace| - 1] / 2
  }

  /** The cell that entry `i` of a trace lands on. */
  function Edge(trace: seq<nat>, i: nat): nat
    requires i < |trace|
  {
    Xor(trace[i], if i == 0 then 0 else trace[i - 1] / 2)
  }

  /** How many entries of the trace land on cell `c`. */
  function Hits(trace: seq<nat>, c: nat): nat
  {
    if trace == [] then 0
    else
      var last := |trace| - 1;
      Hits(trace[..last], c) + if Edge(trace, last) == c then 1 else 0
  }

  lemma {:induction false} HitsCount(trace: seq<nat>, c: nat)
    ensures Hits(trace, c) == |set i | 0 <= i < |trace| && Edge(trace, i) == c|
  {
    if trace != [] {
      var last := |trace| - 1;
      HitsCount(trace[..last], c);
      HitsSplit(trace, c);
    }
  }

  lemma HitsSplit(trace: seq<nat>, c: nat)
    requires trace != []
    ensures var last := |trace| - 1;
      (set i | 0 <= i < |trace| && Edge(trace, i) == c)
      == (set i | 0 <= i < last && Edge(trace[..last], i) == c) + if Edge(trace, last) == c then {last} else {}
  {
    var last := |trace| - 1;
    assert forall i | 0 <= i < last :: Edge(trace[..last], i) == Edge(trace, i);
  }

  function Capped(n: nat, cap: nat): nat {
    if n < cap then n else cap
  }

  /** Digit `j` of an edge tells whether digit `j` of a location differs from the next higher digit of the location
      before it: the two directions of an edge, and a location repeated, have cells of their own. */
  lemma EdgeDigits(trace: seq<nat>, i: nat, j: nat)
    requires 0 < i < |trace|
    ensures Edge(trace[..1], 0) == trace[0]
    ensures Digit(Edge(trace, i), j) == 1 <==> Digit(trace[i], j) != Digit(trace[i - 1], j + 1)
  {
    XorDigits(trace[i], trace[i - 1] / 2, j);
    XorZero(trace[0]);
  }

  lemma {:induction false} XorZero(a: nat)
    ensures Xor(a, 0) == a
  {
    if a > 0 {
      XorZero(a / 2);
    }
  }

  lemma HitsExtend(trace: seq<nat>, e: nat, c: nat)
    ensures Hits(trace + [e], c) == Hits(trace, c) + if Xor(e, PrevLoc(trace)) == c then 1 else 0
  {
    assert (trace + [e])[..|trace|] == trace;
  }

  datatype Access = ReadOnly(rand: Word) | WriteOnly(rand: Word) | ReadWrite(rand: Word)

  /** A write location before it is moved to the upper half. */
  function Slot(rand: Word, mapSize: nat): (loc: nat)
    requires mapSize / 2 > 97
    ensures loc < mapSize / 2 - 97
  {
    rand % (mapSize / 2 - 97)
  }

  /** The locations one access reports, in order. */
  function Locations(a: Access, mapSize: nat): seq<nat>
    requires mapSize / 2 > 97
  {
    match a
    case ReadOnly(rand) => [rand % (mapSize / 2)]
    case WriteOnly(rand) => [Slot(rand, mapSize) + mapSize / 2]
    case ReadWrite(rand) => [Slot(rand, mapSize), Slot(rand, mapSize) + mapSize / 2]
  }

  /** The element a location stands for in baseline mode. */
  function ElemId(loc: nat, mapSize: nat, elemSize: nat): (id: nat)
    requires 0 < elemSize && mapSize / elemSize > 97
    ensures id < mapSize / elemSize - 97
  {
    loc % (mapSize / elemSize - 97)
  }

  /** In baseline mode a location is reduced to an element number first. */
  function Reduced(loc: nat, mapSize: nat, pathMode: bool): nat
    requires mapSize / ELEM_SIZE > 97
  {
    if pathMode then loc else ElemId(loc, mapSize, ELEM_SIZE)
  }

  function ReducedAll(locs: seq<nat>, mapSize: nat, pathMode: bool): (r: seq<nat>)
    requires mapSize / ELEM_SIZE > 97
    ensures |r| == |locs|
  {
    seq(|locs|, i requires 0 <= i < |locs| => Reduced(locs[i], mapSize, pathMode))
  }

  /** The entries a whole run of accesses makes. */
  function Trace(run: seq<Access>, mapSize: nat, pathMode: bool): seq<nat>
    requires mapSize / ELEM_SIZE > 97
  {
    if run == [] then []
    else Trace(run[..|run| - 1], mapSize, pathMode) + ReducedAll(Locations(run[|run| - 1], mapSize), mapSize, pathMode)
  }

  // ----- What an access reports -----

  /** `r` is left of `n` when `d` is taken away as often as it goes. */
  predicate Leaves(n: nat, d: nat, r: nat)
    requires d > 0
  {
    if n < d then r == n else Leaves(n - d, d, r)
  }

  lemma {:induction false} LeavesOnce(n: nat, d: nat, a: nat, b: nat)
    requires d > 0 && Leaves(n, d, a) && Leaves(n, d, b)
    ensures a == b
  {
    if n >= d {
      LeavesOnce(n - d, d, a, b);
    }
  }

  lemma {:induction false} LeavesProduct(q: nat, d: nat, r: nat)
    requires r < d
    ensures q * d + r >= 0 && Leaves(q * d + r, d, r)
  {
    if q > 0 {
      LeavesProduct(q - 1, d, r);
      assert q * d == (q - 1) * d + d;
    }
  }

  /** That is the rest `n` has when divided by `d`, with quotient `n / d`. */
  lemma LeavesIff(n: nat, d: nat, r: nat)
    requires d > 0
    ensures Leaves(n, d, r) <==> r < d && n == (n / d) * d + r
    ensures Leaves(n, d, r) <==> r == n % d
  {
    assert n == (n / d) * d + n % d;
    LeavesProduct(n / d, d, n % d);
    if Leaves(n, d, r) {
      LeavesOnce(n, d, r, n % d);
    }
  }

  /** Reads report a location of the lower half, writes one of the upper half, and a read-write first a location of the
      lower half and then the one exactly half a map above it. */
  predicate Reports(a: Access, mapSize: nat, locs: seq<nat>)
    requires mapSize / 2 > 97
  {
    var half := mapSize / 2;
    match a
    case ReadOnly(rand) => |locs| == 1 && Leaves(rand, half, locs[0])
    case WriteOnly(rand) => |locs| == 1 && half <= locs[0] && Leaves(rand, half - 97, locs[0] - half)
    case ReadWrite(rand) => |locs| == 2 && Leaves(rand, half - 97, locs[0]) && locs[1] == locs[0] + half
  }

  /** The entries an access adds: the locations in path mode; in baseline mode what is left of each when it is divided
      by the number of elements less 97. */
  ghost predicate Adds(a: Access, mapSize: nat, pathMode: bool, entries: seq<nat>)
    requires mapSize / ELEM_SIZE > 97
  {
    if pathMode then Reports(a, mapSize, entries)
    else exists locs | Reports(a, mapSize, locs) :: ReducedTo(locs, mapSize / 32 - 97, entries)
  }

  predicate ReducedTo(locs: seq<nat>, d: nat, entries: seq<nat>)
    requires d > 0
  {
    |entries| == |locs| && forall i | 0 <= i < |locs| :: Leaves(locs[i], d, entries[i])
  }

  function Flat(parts: seq<seq<nat>>): seq<nat> {
    if parts == [] then [] else Flat(parts[..|parts| - 1]) + parts[|parts| - 1]
  }

  ghost predicate AddsEach(run: seq<Access>, mapSize: nat, pathMode: bool, parts: seq<seq<nat>>)
    requires mapSize / ELEM_SIZE > 97
  {
    |parts| == |run| && forall i | 0 <= i < |run| :: Adds(run[i], mapSize, pathMode, parts[i])
  }

  /** The entries of a run are those of its accesses, in order. */
  ghost predicate AddsAll(run: seq<Access>, mapSize: nat, pathMode: bool, entries: seq<nat>)
    requires mapSize / ELEM_SIZE > 97
  {
    exists parts :: AddsEach(run, mapSize, pathMode, parts) && Flat(parts) == entries
  }

  lemma LocationsReported(a: Access, mapSize: nat)
    requires mapSize / 2 > 97
    ensures Reports(a, mapSize, Locations(a, mapSize))
  {
    LeavesIff(a.rand, mapSize / 2, a.rand % (mapSize / 2));
    LeavesIff(a.rand, mapSize / 2 - 97, Slot(a.rand, mapSize));
  }

  lemma ReportsOnce(acc: Access, mapSize: nat, a: seq<nat>, b: seq<nat>)
    requires mapSize / 2 > 97 && Reports(acc, mapSize, a) && Reports(acc, mapSize, b)
    ensures a == b
  {
    var half := mapSize / 2;
    match acc
    case ReadOnly(rand) => LeavesOnce(rand, half, a[0], b[0]);
    case WriteOnly(rand) => LeavesOnce(rand, half - 97, a[0] - half, b[0] - half);
    case ReadWrite(rand) => LeavesOnce(rand, half - 97, a[0], b[0]);
  }

  lemma AllReduced(locs: seq<nat>, mapSize: nat)
    requires mapSize / ELEM_SIZE > 97
    ensures ReducedTo(locs, mapSize / 32 - 97, ReducedAll(locs, mapSize, false))
  {
    var r := ReducedAll(locs, mapSize, false);
    forall i | 0 <= i < |locs|
      ensures Leaves(locs[i], mapSize / 32 - 97, r[i])
    {
      LeavesIff(locs[i], mapSize / 32 - 97, r[i]);
    }
  }

  lemma ReducedOnce(locs: seq<nat>, d: nat, a: seq<nat>, b: seq<nat>)
    requires d > 0 && ReducedTo(locs, d, a) && ReducedTo(locs, d, b)
    ensures a == b
  {
    forall i | 0 <= i < |locs|
      ensures a[i] == b[i]
    {
      LeavesOnce(locs[i], d, a[i], b[i]);
    }
  }

  lemma EntriesAdded(a: Access, mapSize: nat, pathMode: bool)
    requires mapSize / ELEM_SIZE > 97
    ensures Adds(a, mapSize, pathMode, ReducedAll(Locations(a, mapSize), mapSize, pathMode))
  {
    var locs := Locations(a, mapSize);
    LocationsReported(a, mapSize);
    if pathMode {
      assert ReducedAll(locs, mapSize, true) == locs;
    } else {
      AllReduced(locs, mapSize);
    }
  }

  lemma {:induction false} TraceParts(run: seq<Access>, mapSize: nat, pathMode: bool) returns (parts: seq<seq<nat>>)
    requires mapSize / ELEM_SIZE > 97
    ensures AddsEach(run, mapSize, pathMode, parts) && Flat(parts) == Trace(run, mapSize, pathMode)
  {
    parts := [];
    if run != [] {
      var last := |run| - 1;
      var before := TraceParts(run[..last], mapSize, pathMode);
      var part := ReducedAll(Locations(run[last], mapSize), mapSize, pathMode);
      parts := before + [part];
      assert parts[..last] == before;
      EntriesAdded(run[last], mapSize, pathMode);
    }
  }

  /** A whole run adds to the trace what its accesses add. */
  lemma TraceAdded(run: seq<Access>, mapSize: nat, pathMode: bool)
    requires mapSize / ELEM_SIZE > 97
    ensures AddsAll(run, mapSize, pathMode, Trace(run, mapSize, pathMode))
  {
    var parts := TraceParts(run, mapSize, pathMode);
  }

  /** No other entries are added by a run. */
  lemma AddsUnique(run: seq<Access>, mapSize: nat, pathMode: bool, a: seq<nat>, b: seq<nat>)
    requires mapSize / ELEM_SIZE > 97
    requires AddsAll(run, mapSize, pathMode, a) && AddsAll(run, mapSize, pathMode, b)
    ensures a == b
  {
    var pa :| AddsEach(run, mapSize, pathMode, pa) && Flat(pa) == a;
    var pb :| AddsEach(run, mapSize, pathMode, pb) && Flat(pb) == b;
    forall i | 0 <= i < |run|
      ensures pa[i] == pb[i]
    {
      AddsOnce(run[i], mapSize, pathMode, pa[i], pb[i]);
    }
    assert pa == pb;
  }

  lemma AddsOnce(acc: Access, mapSize: nat, pathMode: bool, a: seq<nat>, b: seq<nat>)
    requires mapSize / ELEM_SIZE > 97
    requires Adds(acc, mapSize, pathMode, a) && Adds(acc, mapSize, pathMode, b)
    ensures a == b
  {
    if pathMode {
      ReportsOnce(acc, mapSize, a, b);
    } else {
      var la :| Reports(acc, mapSize, la) && ReducedTo(la, mapSize / 32 - 97, a);
      var lb :| Reports(acc, mapSize, lb) && ReducedTo(lb, mapSize / 32 - 97, b);
      ReportsOnce(acc, mapSize, la, lb);
      ReducedOnce(la, mapSize / 32 - 97, a, b);
    }
  }

  /** A map agrees with a trace when every cell holds the capped count of its edge:
      as a number in path mode, as a one-hot register in baseline mode. */
  predicate Records(area: seq<bv8>, trace: seq<nat>, pathMode: bool)
  {
    if pathMode then
      forall c | 0 <= c < |area| :: area[c] as int == Capped(Hits(trace, c), 255)
    else
      && |area| % ELEM_SIZE == 0
      && forall c: nat | c < |area| / ELEM_SIZE :: Element(area, c) == OneHot(ELEM_BITS, Hits(trace, c))
  }

  function Element(area: seq<bv8>, c: nat): seq<bool>
    requires c < |area| / ELEM_SIZE
  {
    Bits(area[ELEM_SIZE * c..ELEM_SIZE * c + ELEM_SIZE])
  }

  lemma ElementFrame(before: seq<bv8>, after: seq<bv8>, at: nat, c: nat)
    requires |before| == |after| && at < |before| / ELEM_SIZE && c < |before| / ELEM_SIZE && c != at
    requires Rest(after, ELEM_SIZE * at, ELEM_SIZE) == Rest(before, ELEM_SIZE * at, ELEM_SIZE)
    ensures Element(after, c) == Element(before, c)
  {
    var lo, hi := ELEM_SIZE * c, ELEM_SIZE * c + ELEM_SIZE;
    if c < at {
      SameLeft(before, after, ELEM_SIZE * at, lo, hi);
    } else {
      SameRight(before, after, ELEM_SIZE * at + ELEM_SIZE, lo, hi);
    }
  }

  lemma SameLeft(a: seq<bv8>, b: seq<bv8>, d: nat, lo: nat, hi: nat)
    requires |a| == |b| && lo <= hi <= d <= |a| && b[..d] == a[..d]
    ensures b[lo..hi] == a[lo..hi]
  {
    assert b[lo..hi] == b[..d][lo..hi];
  }

  lemma SameRight(a: seq<bv8>, b: seq<bv8>, d: nat, lo: nat, hi: nat)
    requires |a| == |b| && d <= lo <= hi <= |a| && b[d..] == a[d..]
    ensures b[lo..hi] == a[lo..hi]
  {
    assert b[lo..hi] == b[d..][lo - d..hi - d];
  }

  class Runtime {
    const mapSize: nat
    const pathMode: bool  // whether ENABLE_PM_PATH is set
    const area: array<bv8>
    var prevLoc: nat
    var elemSize: nat     // `__pmfuzz_sra_elem_size`, 0 until first used
    ghost const k: nat
    ghost var trace: seq<nat>

    ghost predicate Valid()
      reads this, area
    {
      && 12 <= k <= 31 && mapSize == Pow2(k) == area.Length
      && mapSize / 2 == Pow2(k - 1) && mapSize / ELEM_SIZE == Pow2(k - 5) && mapSize % ELEM_SIZE == 0
      && mapSize / ELEM_SIZE >= 128 && mapSize <= 0x8000_0000
      && (elemSize == 0 || elemSize == ELEM_SIZE)
      && prevLoc == PrevLoc(trace)
      && (forall i | 0 <= i < |trace| :: trace[i] < Limit())
      && Records(area[..], trace, pathMode)
    }

    /** One more than the largest trace entry. */
    ghost function Limit(): nat
    {
      if pathMode then mapSize else mapSize / ELEM_SIZE
    }

    /** AFL's map sizes are powers of two of at least 2^12. */
    constructor (exponent: nat, pathMode: bool)
      requires 12 <= exponent <= 31
      ensures Valid() && fresh(area) && mapSize == Pow2(exponent) && this.pathMode == pathMode && trace == []
    {
      mapSize := Pow2(exponent);
      this.pathMode := pathMode;
      area := new bv8[Pow2(exponent)](_ => 0);
      prevLoc := 0;
      elemSize := 0;
      k := exponent;
      trace := [];
      new;
      Sizes(exponent);
      EmptyRecords(area[..], pathMode);
    }

    /** `update_loc` */
    method UpdateLoc(loc: nat)
      requires Valid() && loc < mapSize
      modifies this, area
      ensures Valid() && trace == old(trace) + [Reduced(loc, mapSize, pathMode)]
      ensures pathMode && loc < mapSize / 2 ==> area[mapSize / 2..] == old(area[mapSize / 2..])
      ensures pathMode && mapSize / 2 <= loc ==> area[..mapSize / 2] == old(area[..mapSize / 2])
    {
      if pathMode {
        UpdatePath(loc);
      } else {
        UpdateBaseline(loc);
      }
    }

    /** The ENABLE_PM_PATH branch of `update_loc`. */
    method UpdatePath(loc: nat)
      requires Valid() && loc < mapSize && pathMode
      modifies this, area
      ensures Valid() && trace == old(trace) + [loc]
      ensures loc < mapSize / 2 ==> area[mapSize / 2..] == old(area[mapSize / 2..])
      ensures mapSize / 2 <= loc ==> area[..mapSize / 2] == old(area[..mapSize / 2])
    {
      ghost var before := area[..];
      var elemId := loc;
      var curLoc := Xor(elemId, prevLoc);
      PathBounds(loc, prevLoc, k);
      prevLoc := elemId / 2;
      if area[curLoc] < COUNTER_CAP {
        area[curLoc] := area[curLoc] + 1;
      }
      PathStep(before, area[..], trace, elemId);
      trace := trace + [elemId];
    }

    /** The element size is computed on the first baseline access. */
    method InitElemSize()
      requires elemSize == 0 || elemSize == ELEM_SIZE
      modifies `elemSize
      ensures elemSize == ELEM_SIZE
    {
      if elemSize == 0 {
        var e := GetNextPow2(255 / 8);
        elemSize := e as nat;
      }
    }

    /** The baseline branch of `update_loc`. */
    method UpdateBaseline(loc: nat)
      requires Valid() && loc < mapSize && !pathMode
      modifies this, area
      ensures Valid() && trace == old(trace) + [Reduced(loc, mapSize, pathMode)]
    {
      InitElemSize();
      var elemId := ElemId(loc, mapSize, elemSize);
      var curLoc := Xor(elemId, prevLoc);
      XorBelow(elemId, prevLoc, k - 5);
      prevLoc := elemId / 2;
      PushRecords(area, curLoc, trace, elemId);
      trace := trace + [elemId];
    }

    /** `pmfuzz_ro`: in path mode a read leaves the upper half of the map alone. */
    method ReadHint(rand: Word)
      requires Valid()
      modifies this, area
      ensures Valid() && trace == old(trace) + ReducedAll(Locations(ReadOnly(rand), mapSize), mapSize, pathMode)
      ensures old(trace) <= trace && Adds(ReadOnly(rand), mapSize, pathMode, trace[|old(trace)|..])
      ensures pathMode ==> area[mapSize / 2..] == old(area[mapSize / 2..])
    {
      var loc: Word := rand % (mapSize / 2);
      EntriesAdded(ReadOnly(rand), mapSize, pathMode);
      UpdateLoc(loc);
    }

    /** `pmfuzz_wo`: in path mode a write leaves the lower half of the map alone. */
    method WriteHint(rand: Word)
      requires Valid()
      modifies this, area
      ensures Valid() && trace == old(trace) + ReducedAll(Locations(WriteOnly(rand), mapSize), mapSize, pathMode)
      ensures old(trace) <= trace && Adds(WriteOnly(rand), mapSize, pathMode, trace[|old(trace)|..])
      ensures pathMode ==> area[..mapSize / 2] == old(area[..mapSize / 2])
    {
      var loc: Word := Slot(rand, mapSize);
      EntriesAdded(WriteOnly(rand), mapSize, pathMode);
      loc := loc + mapSize / 2;
      UpdateLoc(loc);
    }

    /** `pmfuzz_rw` */
    method ReadWriteHint(rand: Word)
      requires Valid()
      modifies this, area
      ensures Valid() && trace == old(trace) + ReducedAll(Locations(ReadWrite(rand), mapSize), mapSize, pathMode)
      ensures old(trace) <= trace && Adds(ReadWrite(rand), mapSize, pathMode, trace[|old(trace)|..])
    {
      var loc: Word := Slot(rand, mapSize);
      EntriesAdded(ReadWrite(rand), mapSize, pathMode);
      UpdateLoc(loc);
      loc := loc + mapSize / 2;
      UpdateLoc(loc);
    }

    /** The hint the program calls for an access. */
    method Hint(a: Access)
      requires Valid()
      modifies this, area
      ensures Valid() && trace == old(trace) + ReducedAll(Locations(a, mapSize), mapSize, pathMode)
    {
      match a {
        case ReadOnly(rand) => ReadHint(rand);
        case WriteOnly(rand) => WriteHint(rand);
        case ReadWrite(rand) => ReadWriteHint(rand);
      }
    }
  }

  /** The counter of the scan holds all bits of an element. */
  lemma ElementFits()
    ensures Int32(8 * ELEM_SIZE) == 8 * ELEM_SIZE
  {
  }

  /** The call `sra_push_back(__pmfuzz_area_ptr, __pmfuzz_map_size, __pmfuzz_sra_elem_size, cur_loc, 0)`. */
  method PushRecords(area: array<bv8>, curLoc: nat, ghost trace: seq<nat>, ghost e: nat)
    requires Records(area[..], trace, false)
    requires curLoc == Xor(e, PrevLoc(trace)) < area.Length / ELEM_SIZE
    modifies area
    ensures Records(area[..], trace + [e], false)
  {
    ghost var before := area[..];
    PushBack(area, ELEM_SIZE, curLoc, 0);
    InBounds(|before|, ELEM_SIZE, curLoc);
    ElementFits();
    RegisterPushed(before, ELEM_SIZE, curLoc, true);
    BaselineStep(before, area[..], trace, e);
  }

  lemma Sizes(k: nat)
    requires 12 <= k <= 31
    ensures Pow2(k) / 2 == Pow2(k - 1) && Pow2(k) / 32 == Pow2(k - 5) && Pow2(k) % 32 == 0
    ensures Pow2(k - 5) >= 128 && Pow2(k) <= 0x8000_0000
  {
    Pow2Grows(7, k - 5);
    Pow2Grows(k, 31);
    Pow2Literals();
    Pow2Times32(k - 5);
  }

  lemma Pow2Times32(j: nat)
    ensures Pow2(j + 5) == 32 * Pow2(j) && Pow2(j + 4) == 16 * Pow2(j)
  {
    assert Pow2(j + 1) == 2 * Pow2(j);
    assert Pow2(j + 2) == 2 * Pow2(j + 1);
    assert Pow2(j + 3) == 2 * Pow2(j + 2);
    assert Pow2(j + 4) == 2 * Pow2(j + 3);
    assert Pow2(j + 5) == 2 * Pow2(j + 4);
  }

  lemma Pow2Literals()
    ensures Pow2(7) == 128 && Pow2(31) == 0x8000_0000
  {
    assert Pow2(10) == 1024;
    assert Pow2(20) == 1024 * 1024;
  }

  lemma EmptyRecords(area: seq<bv8>, pathMode: bool)
    requires |area| % ELEM_SIZE == 0 && forall i | 0 <= i < |area| :: area[i] == 0
    ensures Records(area, [], pathMode)
  {
    forall c: nat | c < |area| / ELEM_SIZE
      ensures Element(area, c) == OneHot(ELEM_BITS, 0)
    {
      assert forall j: nat | j < 8 :: !Bit(0, j);
    }
  }

  /** An edge stays in the map, and in the half of the map its location is in. */
  lemma PathBounds(loc: nat, prev: nat, k: nat)
    requires k > 0 && loc < Pow2(k) && prev < Pow2(k - 1)
    ensures Xor(loc, prev) < Pow2(k)
    ensures Xor(loc, prev) < Pow2(k - 1) <==> loc < Pow2(k - 1)
  {
    if loc < Pow2(k - 1) {
      XorBelow(loc, prev, k - 1);
    } else {
      XorAbove(loc, prev, k - 1);
    }
  }

  lemma PathStep(before: seq<bv8>, after: seq<bv8>, trace: seq<nat>, e: nat)
    requires Records(before, trace, true) && |after| == |before|
    requires Xor(e, PrevLoc(trace)) < |before|
    requires var cur := Xor(e, PrevLoc(trace));
      after == before[cur := if before[cur] < 255 then before[cur] + 1 else before[cur]]
    ensures Records(after, trace + [e], true)
  {
    forall c | 0 <= c < |after|
      ensures after[c] as int == Capped(Hits(trace + [e], c), 255)
    {
      HitsExtend(trace, e, c);
      Increment(before[c]);
    }
  }

  lemma Increment(b: bv8)
    ensures b < 255 <==> b as int < 255
    ensures b < 255 ==> (b + 1) as int == b as int + 1
  {
  }

  lemma BaselineStep(before: seq<bv8>, after: seq<bv8>, trace: seq<nat>, e: nat)
    requires Records(before, trace, false) && |after| == |before|
    requires var cur := Xor(e, PrevLoc(trace));
      && cur < |before| / ELEM_SIZE
      && Element(after, cur) == Push(Element(before, cur), true)
      && Rest(after, ELEM_SIZE * cur, ELEM_SIZE) == Rest(before, ELEM_SIZE * cur, ELEM_SIZE)
    ensures Records(after, trace + [e], false)
  {
    var cur := Xor(e, PrevLoc(trace));
    forall c: nat | c < |after| / ELEM_SIZE
      ensures Element(after, c) == OneHot(ELEM_BITS, Hits(trace + [e], c))
    {
      HitsExtend(trace, e, c);
      if c == cur {
        PushCounts(ELEM_BITS, Hits(trace, c));
      } else {
        ElementFrame(before, after, cur, c);
      }
    }
  }

  /** A whole run from a zeroed map: the map is the capped histogram of the run's edges,
      every index stays in bounds and the assertion of `sra_push_back` never fails. */
  method RunProgram(run: seq<Access>, exponent: nat, pathMode: bool) returns (finalMap: seq<bv8>)
    requires 12 <= exponent <= 31
    ensures |finalMap| == Pow2(exponent) && Pow2(exponent) / ELEM_SIZE >= 128
    ensures Records(finalMap, Trace(run, Pow2(exponent), pathMode), pathMode)
    ensures AddsAll(run, Pow2(exponent), pathMode, Trace(run, Pow2(exponent), pathMode))
  {
    var rt := new Runtime(exponent, pathMode);
    var i := 0;
    while i < |run|
      invariant 0 <= i <= |run|
      invariant fresh(rt) && fresh(rt.area) && rt.Valid() && rt.mapSize == Pow2(exponent) && rt.pathMode == pathMode
      invariant rt.trace == Trace(run[..i], rt.mapSize, pathMode)
    {
      assert run[..i + 1][..i] == run[..i];
      rt.Hint(run[i]);
      i := i + 1;
    }
    assert run[..|run|] == run;
    TraceAdded(run, rt.mapSize, pathMode);
    finalMap := rt.area[..];
  }

  /** In baseline mode, byte by byte: an element is zero until it is hit, and then has one bit set, that of the number
      of hits. */
  lemma BaselineBytes(area: seq<bv8>, trace: seq<nat>, c: nat, j: nat)
    requires Records(area, trace, false) && c < |area| / 32 && j < 32
    ensures var at := Capped(Hits(trace, c), 256) - 1;
      area[32 * c + j] as int
      == if Hits(trace, c) > 0 && at / 8 == j then [1, 2, 4, 8, 16, 32, 64, 128][at % 8] else 0
  {
    assert Element(area, c) == OneHot(ELEM_BITS, Hits(trace, c));
    OneHotBytes(area[ELEM_SIZE * c..ELEM_SIZE * c + ELEM_SIZE], Hits(trace, c), j);
  }

  /** A trace determines the whole map. */
  lemma RecordsUnique(a: seq<bv8>, b: seq<bv8>, trace: seq<nat>, pathMode: bool)
    requires |a| == |b| && Records(a, trace, pathMode) && Records(b, trace, pathMode)
    ensures a == b
  {
    forall i | 0 <= i < |a|
      ensures a[i] == b[i]
    {
      if !pathMode {
        var c := i / ELEM_SIZE;
        assert Element(a, c) == Element(b, c);
        forall j: nat | j < 8
          ensures Bit(a[i], j) == Bit(b[i], j)
        {
          assert Bit(a[i], j) == Element(a, c)[8 * (i - ELEM_SIZE * c) + j];
        }
        SameBits(a[i], b[i]);
      }
    }
  }
}
