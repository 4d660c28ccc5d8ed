/** Crash-image generation in include/libpmfuzz.c: which failure hints of a run dump an image. */
module FailurePoints {
  import opened Words

  const WRAP: nat := 0x1_0000_0000
  const MAX_CRASH_DUMP_ID: nat := 10000

  datatype FIMode = None | ImgGen

  /** The environment of a run: FI_MODE, and whether GEN_ALL_CS and IMG_CREAT_FINJ are set. */
  datatype Settings = Settings(mode: FIMode, genAllCs: bool, imgCreatFinj: bool)

  /** One dumped image: the number of the hint (from 0), its failure id and the map at that point. */
  datatype Dump = Dump(hint: nat, id: Word, pmMap: seq<bv8>)

  /** `save_img` as the program computes it, from the draw `prob = rand()%MAX_CRASH_DUMP_ID`. */
  function SaveImg(s: Settings, id: Word, prob: nat): (save: bool)
    ensures save <==> Selected(s, id, prob)
  {
    var divideFactor := if id == 0 then 1 else id;
    Quotient(10000, divideFactor, prob);
    var save := prob < 10000 / divideFactor;
    var save := if id == 0 then false else save;
    assert id % 5 == 0 ==> id == 5 * (id / 5);
    var save := if s.genAllCs then id < 100 && id % 5 == 0 else save;
    if s.imgCreatFinj then true else save
  }

  /** Which ids are selected: all; or the multiples of 5 below 100; or id `i` for `10000/i` of the 10000 draws. */
  predicate Selected(s: Settings, id: Word, prob: nat) {
    if s.imgCreatFinj then true
    else if s.genAllCs then id in GenAllIds()
    else id != 0 && (prob + 1) * id <= 10000
  }

  function GenAllIds(): set<int> {
    set j | 0 <= j < 20 :: 5 * j
  }

  /** The ids some draw selects. */
  predicate Eligible(s: Settings, id: Word) {
    s.imgCreatFinj || if s.genAllCs then id < 100 && id % 5 == 0 else 1 <= id <= MAX_CRASH_DUMP_ID
  }

  lemma SelectedEligible(s: Settings, id: Word, prob: nat)
    requires Selected(s, id, prob)
    ensures Eligible(s, id)
  {
    assert prob * id >= 0;
  }

  lemma EligibleIds(s: Settings, id: Word)
    ensures Eligible(s, id) <==> exists prob: nat :: prob < MAX_CRASH_DUMP_ID && Selected(s, id, prob)
  {
    if Eligible(s, id) {
      if s.genAllCs && !s.imgCreatFinj {
        assert id == 5 * (id / 5);
      }
      assert Selected(s, id, 0);
    }
    forall prob: nat | prob < MAX_CRASH_DUMP_ID && Selected(s, id, prob)
      ensures Eligible(s, id)
    {
      SelectedEligible(s, id, prob);
    }
  }

  lemma Quotient(n: nat, d: nat, p: nat)
    requires d > 0
    ensures p < n / d <==> (p + 1) * d <= n
  {
    var q := n / d;
    assert n == q * d + n % d;
    if p < q {
      assert (q - (p + 1)) * d >= 0;
    } else {
      assert (p - q) * d >= 0;
    }
  }

  /** The draws for which `save_img` ends up 1. */
  function Draws(s: Settings, id: Word): set<nat> {
    set prob: nat | prob < MAX_CRASH_DUMP_ID && SaveImg(s, id, prob)
  }

  /** With neither override id `i` from 1 to 10000 is dumped for the `10000/i` lowest of the 10000 draws, and no other
      id for any. The two overrides do not depend on the draw. */
  lemma DrawsCount(s: Settings, id: Word)
    ensures !s.imgCreatFinj && !s.genAllCs && 1 <= id <= 10000 ==>
              |Draws(s, id)| == 10000 / id && forall p: nat :: p in Draws(s, id) <==> p < 10000 / id
    ensures !s.imgCreatFinj && !s.genAllCs && (id == 0 || id > 10000) ==> Draws(s, id) == {}
    ensures !s.imgCreatFinj && s.genAllCs ==>
              |Draws(s, id)| == if id < 100 && id % 5 == 0 then 10000 else 0
    ensures s.imgCreatFinj ==> |Draws(s, id)| == 10000
  {
    EligibleIds(s, id);
    if s.imgCreatFinj || (s.genAllCs && Eligible(s, id)) {
      FirstDraws(Draws(s, id), 10000);
    } else if s.genAllCs {
      assert Draws(s, id) == {};
    } else if 1 <= id {
      AtMost(id);
      forall prob: nat
        ensures prob in Draws(s, id) <==> prob < 10000 / id
      {
        Quotient(10000, id, prob);
      }
      FirstDraws(Draws(s, id), 10000 / id);
    }
  }

  lemma AtMost(id: nat)
    requires id > 0
    ensures 10000 / id <= 10000 && (id > 10000 ==> 10000 / id == 0)
  {
    Quotient(10000, id, 10000);
    Quotient(10000, id, 0);
  }

  lemma {:induction false} FirstDraws(draws: set<nat>, n: nat)
    requires forall p: nat :: p in draws <==> p < n
    ensures |draws| == n
  {
    if n == 0 {
      assert draws == {};
    } else {
      FirstDraws(draws - {n - 1}, n - 1);
    }
  }

  /** `__pmfuzz_failure_id++` on a 32-bit word. */
  function Increment(id: Word): Word {
    if id == WRAP - 1 then 0 else id + 1
  }

  /** The counter after `hints` hints; it starts at -1. */
  function CounterAfter(hints: nat): Word {
    if hints == 0 then 0xFFFF_FFFF else Increment(CounterAfter(hints - 1))
  }

  /** The failure id of the hint numbered `hint`. */
  function IdOf(hint: nat): Word {
    CounterAfter(hint + 1)
  }

  lemma {:induction false} IdWraps(hint: nat)
    ensures IdOf(hint) == hint % WRAP
  {
    if hint > 0 {
      IdWraps(hint - 1);
    }
  }

  predicate DumpOk(s: Settings, d: Dump, hints: nat) {
    d.hint < hints && d.id == IdOf(d.hint) && Eligible(s, d.id)
  }

  ghost predicate DumpsOk(s: Settings, firstMap: seq<bv8>, dumps: seq<Dump>, hints: nat)
  {
    && (forall i | 0 <= i < |dumps| :: DumpOk(s, dumps[i], hints))
    && (forall i, j | 0 <= i < j < |dumps| :: dumps[i].hint < dumps[j].hint)
    && (forall i | 0 <= i < |dumps| :: dumps[i].pmMap != LastMap(firstMap, dumps[..i]))
  }

  function LastMap(firstMap: seq<bv8>, dumps: seq<Dump>): seq<bv8> {
    if dumps == [] then firstMap else dumps[|dumps| - 1].pmMap
  }

  class Injector {
    const settings: Settings
    const area: array<bv8>      // the PM map, written by the access hints between failure hints
    const lastArea: array<bv8>  // the PM map at the previous dump
    var initComplete: bool
    var failureId: Word
    ghost var hints: nat
    ghost var dumps: seq<Dump>
    ghost const firstMap: seq<bv8>

    ghost predicate Valid()
      reads this, lastArea
    {
      && area != lastArea && area.Length == lastArea.Length
      && failureId == CounterAfter(hints)
      && lastArea[..] == LastMap(firstMap, dumps)
      && DumpsOk(settings, firstMap, dumps, hints)
    }

    constructor (settings: Settings, area: array<bv8>, lastArea: array<bv8>)
      requires area != lastArea && area.Length == lastArea.Length
      ensures Valid() && this.area == area && this.lastArea == lastArea && this.settings == settings
      ensures hints == 0 && dumps == [] && !initComplete && firstMap == lastArea[..]
    {
      this.settings := settings;
      this.area := area;
      this.lastArea := lastArea;
      initComplete := false;
      failureId := 0xFFFF_FFFF;  // -1
      hints := 0;
      dumps := [];
      firstMap := lastArea[..];
    }

    /** `pmfuzz_init`, without a failure list. */
    method Init()
      requires Valid()
      modifies `initComplete
      ensures Valid() && initComplete && hints == old(hints) && dumps == old(dumps)
    {
      if initComplete {
        return;
      }
      initComplete := true;
    }

    /** memcpy of the map over the saved one. */
    method CopyMap()
      requires area != lastArea && area.Length == lastArea.Length
      modifies lastArea
      ensures lastArea[..] == area[..]
    {
      forall i | 0 <= i < area.Length {
        lastArea[i] := area[i];
      }
    }

    /** `pmfuzz_inject_failure` without IMG_REP; `prob` is the draw `rand()%MAX_CRASH_DUMP_ID`. */
    method InjectFailure(prob: nat) returns (inject: bool)
      requires Valid() && prob < MAX_CRASH_DUMP_ID
      modifies this, lastArea
      ensures Valid() && hints == old(hints) + 1 && initComplete == old(initComplete)
      ensures failureId == IdOf(old(hints))
      ensures inject <==>
              && initComplete && settings.mode == ImgGen
              && prob in Draws(settings, failureId)
              && area[..] != old(lastArea[..])
      ensures inject ==> dumps == old(dumps) + [Dump(old(hints), failureId, area[..])] && lastArea[..] == area[..]
      ensures !inject ==> dumps == old(dumps) && lastArea[..] == old(lastArea[..])
    {
      ghost var hint := hints;
      CountHint();
      inject := false;
      if initComplete && settings.mode == ImgGen {
        inject := DecideDump(prob);
        if inject {
          Record(hint);
        }
      }
    }

    /** Every call counts, whether or not it can dump. */
    method CountHint()
      requires Valid()
      modifies `failureId, `hints
      ensures Valid() && hints == old(hints) + 1 && failureId == IdOf(old(hints))
      ensures DumpsOk(settings, firstMap, dumps, old(hints))
    {
      failureId := Increment(failureId);
      MoreHints(settings, firstMap, dumps, hints);
      hints := hints + 1;
    }

    /** Saves the map at a dump. */
    method Record(ghost hint: nat)
      requires hints == hint + 1 && failureId == IdOf(hint) && Valid() && DumpsOk(settings, firstMap, dumps, hint)
      requires Eligible(settings, failureId) && area[..] != lastArea[..]
      modifies `dumps, lastArea
      ensures Valid() && dumps == old(dumps) + [Dump(hint, failureId, area[..])] && lastArea[..] == area[..]
    {
      ghost var saved := area[..];
      CopyMap();
      AppendDump(settings, firstMap, dumps, hint, saved);
      dumps := dumps + [Dump(hint, failureId, saved)];
    }

    /** memcmp of the map with the saved one, and `save_img`. */
    method DecideDump(prob: nat) returns (d: bool)
      requires prob < MAX_CRASH_DUMP_ID
      ensures d <==> prob in Draws(settings, failureId) && area[..] != lastArea[..]
      ensures d ==> Eligible(settings, failureId)
    {
      var pmBitmapDiff := area[..] != lastArea[..];
      d := pmBitmapDiff && SaveImg(settings, failureId, prob);
      if d {
        SelectedEligible(settings, failureId, prob);
      }
    }
  }

  lemma MoreHints(s: Settings, firstMap: seq<bv8>, dumps: seq<Dump>, hints: nat)
    requires DumpsOk(s, firstMap, dumps, hints)
    ensures DumpsOk(s, firstMap, dumps, hints + 1)
  {
  }

  lemma AppendDump(s: Settings, firstMap: seq<bv8>, dumps: seq<Dump>, hint: nat, area: seq<bv8>)
    requires DumpsOk(s, firstMap, dumps, hint)
    requires area != LastMap(firstMap, dumps) && Eligible(s, IdOf(hint))
    ensures DumpsOk(s, firstMap, dumps + [Dump(hint, IdOf(hint), area)], hint + 1)
  {
    var d := dumps + [Dump(hint, IdOf(hint), area)];
    forall i | 0 <= i < |d|
      ensures d[..i] == dumps[..i]
    {
    }
  }

  lemma IdIsHint(s: Settings, d: Dump, hints: nat)
    requires DumpOk(s, d, hints) && hints <= WRAP
    ensures d.id == d.hint
  {
    IdWraps(d.hint);
  }

  /** Runs of at most 2^32 hints dump strictly increasing failure ids, each with a map that differs from
      the previous dump's. */
  lemma IdsIncrease(s: Settings, firstMap: seq<bv8>, dumps: seq<Dump>, hints: nat)
    requires DumpsOk(s, firstMap, dumps, hints) && hints <= WRAP
    ensures forall i, j | 0 <= i < j < |dumps| :: dumps[i].id < dumps[j].id
    ensures forall i | 1 <= i < |dumps| :: dumps[i].pmMap != dumps[i - 1].pmMap
  {
    forall i | 0 <= i < |dumps|
      ensures dumps[i].id == dumps[i].hint
    {
      IdIsHint(s, dumps[i], hints);
    }
    forall i | 1 <= i < |dumps|
      ensures dumps[i].pmMap != dumps[i - 1].pmMap
    {
      assert dumps[i].pmMap != LastMap(firstMap, dumps[..i]);
    }
  }

  /** In a longer run the bound is needed: the word wraps and ids repeat. */
  lemma IdsRepeat(hint: nat)
    ensures IdOf(hint + WRAP) == IdOf(hint)
  {
    IdWraps(hint);
    IdWraps(hint + WRAP);
  }

  /** The documentation says that the first failure injection always dumps an image. It has id 0, which is selected
      only under an override. */
  lemma FirstHint(s: Settings, prob: nat)
    ensures Selected(s, IdOf(0), prob) <==> s.genAllCs || s.imgCreatFinj
  {
    assert IdOf(0) == 0 == 5 * 0;
  }

  /** With neither override set every dumped id is between 1 and 10000. */
  lemma DefaultIds(s: Settings, firstMap: seq<bv8>, dumps: seq<Dump>, hints: nat, i: nat)
    requires DumpsOk(s, firstMap, dumps, hints) && !s.genAllCs && !s.imgCreatFinj
    requires i < |dumps|
    ensures 1 <= dumps[i].id <= MAX_CRASH_DUMP_ID
  {
    assert DumpOk(s, dumps[i], hints);
  }

  /** With GEN_ALL_CS alone there are at most 20 dumps, at multiples of 5 below 100. */
  lemma GenAllDumps(s: Settings, firstMap: seq<bv8>, dumps: seq<Dump>, hints: nat)
    requires DumpsOk(s, firstMap, dumps, hints) && hints <= WRAP && s.genAllCs && !s.imgCreatFinj
    ensures |dumps| <= 20
    ensures forall i | 0 <= i < |dumps| :: dumps[i].id < 100 && dumps[i].id % 5 == 0
  {
    IdsIncrease(s, firstMap, dumps, hints);
    forall i | 0 <= i < |dumps|
      ensures dumps[i].id < 100 && dumps[i].id % 5 == 0
    {
      assert DumpOk(s, dumps[i], hints);
    }
    if |dumps| > 0 {
      Spaced(dumps, |dumps| - 1);
    }
  }

  lemma Spaced(dumps: seq<Dump>, i: nat)
    requires i < |dumps|
    requires forall i, j | 0 <= i < j < |dumps| :: dumps[i].id < dumps[j].id
    requires forall i | 0 <= i < |dumps| :: dumps[i].id % 5 == 0
    ensures dumps[i].id >= 5 * i
  {
    if i > 0 {
      Spaced(dumps, i - 1);
    }
  }
}
