/** The state of the stage 2 scheduler (src/pmfuzz/stages/stage2.py) and what one step does to it. */
module Instances {
  import opened Listing
  import opened Text
  import opened Timers

  /** Testcase runs and crash-site runs. */
  datatype Kind = Tc | Cs

  function Other(k: Kind): Kind {
    if k.Tc? then Cs else Tc
  }

  /** Cores, failure injection, `tc_timeout`, and the filter of `select_ids` (`Selection.SelectName`). */
  datatype Config = Config(cores: nat, finj: bool, timeout: real, select: string -> bool)

  /** `cores_tc` and `cores_cs` */
  function Slots(c: Config, k: Kind): nat {
    var half := c.cores / 2;
    if c.finj then (if half == 0 then 1 else half) else if k.Tc? then c.cores else 0
  }

  /** Without failure injection testcases have all the cores. With it both kinds have the same number of slots, at
      least one, and together they leave at most one core over; only on fewer than two cores do they exceed them. */
  lemma SlotsFit(c: Config)
    ensures !c.finj ==> Slots(c, Tc) == c.cores && Slots(c, Cs) == 0
    ensures c.finj ==> Slots(c, Tc) == Slots(c, Cs) >= 1
    ensures c.finj && c.cores < 2 ==> Slots(c, Tc) == 1
    ensures c.finj && c.cores >= 2 ==> c.cores - 1 <= Slots(c, Tc) + Slots(c, Cs) <= c.cores
    ensures Slots(c, Tc) + Slots(c, Cs) <= c.cores <==> !c.finj || c.cores >= 2
  {
  }

  // ----- What the scheduler records -----

  /** A started or terminated instance, and what a `get_run_count` that took from `from` to `time` counted. */
  datatype Event =
    | Start(kind: Kind, name: string, time: real, length: real)
    | Stop(kind: Kind, name: string, time: real)
    | Counted(kind: Kind, ids: set<string>, from: real, time: real)
  {
    function Begin(): real {
      if Counted? then from else time
    }
  }

  /** The timer files, the pid files, the local stores, and the instances terminated so far. */
  datatype View = View(files: map<string, Timer>, pids: set<string>, stopped: set<string>,
                       tcs: set<string>, css: set<string>)
  {
    function Local(k: Kind): set<string> {
      if k.Tc? then tcs else css
    }

    /** Started and not terminated. */
    function Live(k: Kind): set<string> {
      set n | n in pids && n in Local(k)
    }

    /** Started, terminated or not. */
    function Begun(k: Kind): set<string> {
      set n | n in pids + stopped && n in Local(k)
    }

    /** Live with time left. */
    function Running(k: Kind, now: real): set<string> {
      set n | n in Live(k) && !ExpiredAt(files, n, now)
    }
  }

  /** A timer of an instance was started with `tc_timeout`, and not in the future. */
  predicate Timely(t: Timer, now: real, c: Config) {
    t.start <= now && t.length == c.timeout
  }

  ghost predicate Inv(v: View, now: real, c: Config) {
    && now > 0.0
    && v.tcs !! v.css
    && v.pids !! v.stopped
    && (forall n | n in v.pids + v.stopped :: Started(v.files, n) && n in v.tcs + v.css && c.select(n))
    && (forall n | n in v.pids + v.stopped :: Timely(Read(v.files, n), now, c))
    && (forall n | n in v.files && Started(v.files, n) :: n in v.pids + v.stopped)
    && (forall n | n in v.stopped :: ExpiredAt(v.files, n, now))
    && (forall k: Kind :: |v.Running(k, now)| <= Slots(c, k))
  }

  /** Time only takes instances out of the running set. */
  lemma Later(v: View, now: real, later: real, c: Config)
    requires Inv(v, now, c) && now <= later
    ensures Inv(v, later, c)
    ensures forall k: Kind :: v.Running(k, later) <= v.Running(k, now)
  {
    forall k: Kind
      ensures v.Running(k, later) <= v.Running(k, now) && |v.Running(k, later)| <= Slots(c, k)
    {
      SubsetSize(v.Running(k, later), v.Running(k, now));
    }
  }

  lemma SubsetSize<T>(a: set<T>, b: set<T>)
    requires a <= b
    ensures |a| <= |b|
  {
    if a != {} {
      var x :| x in a;
      SubsetSize(a - {x}, b - {x});
    }
  }

  /** Timer files that hold a timer never started make no difference. */
  lemma StillInv(v: View, w: View, now: real, c: Config)
    requires Inv(v, now, c) && SameInstances(v, w)
    ensures Inv(w, now, c)
  {
    forall k: Kind
      ensures w.Running(k, now) == v.Running(k, now)
    {
    }
    forall n | n in w.files && Started(w.files, n)
      ensures n in v.pids + v.stopped
    {
      assert Read(w.files, n) == Read(v.files, n);
    }
  }

  /** The view after `start_new` and `_run_testcase` or `_run_cs` of an instance. */
  function WithStart(v: View, n: string, now: real, length: real): View {
    v.(files := v.files[n := Timer(now, length)], pids := v.pids + {n})
  }

  lemma StartRunning(v: View, k: Kind, n: string, now: real, c: Config, j: Kind)
    requires Inv(v, now, c) && n in v.Local(k) && !Started(v.files, n)
    ensures var w, new' := WithStart(v, n, now, c.timeout), if j == k then {n} else {};
      w.Live(j) == v.Live(j) + new' && w.Running(j, now) <= v.Running(j, now) + new'
  {
    assert n !in v.pids + v.stopped;
  }

  lemma StartSlots(v: View, k: Kind, n: string, now: real, c: Config, others: set<string>, j: Kind)
    requires Inv(v, now, c) && n in v.Local(k) && !Started(v.files, n)
    requires v.Running(k, now) <= others && |others| < Slots(c, k)
    ensures |WithStart(v, n, now, c.timeout).Running(j, now)| <= Slots(c, j)
  {
    StartRunning(v, k, n, now, c, j);
    if j == k {
      SubsetSize(WithStart(v, n, now, c.timeout).Running(k, now), others + {n});
    } else {
      SubsetSize(WithStart(v, n, now, c.timeout).Running(j, now), v.Running(j, now));
    }
  }

  lemma StartOne(v: View, k: Kind, n: string, now: real, c: Config, others: set<string>)
    requires Inv(v, now, c) && n in v.Local(k) && c.select(n) && !Started(v.files, n)
    requires v.Running(k, now) <= others && |others| < Slots(c, k)
    ensures Inv(WithStart(v, n, now, c.timeout), now, c)
  {
    forall j: Kind
      ensures |WithStart(v, n, now, c.timeout).Running(j, now)| <= Slots(c, j)
    {
      StartSlots(v, k, n, now, c, others, j);
    }
  }

  lemma StopOne(v: View, n: string, now: real, c: Config)
    requires Inv(v, now, c) && n in v.pids && ExpiredAt(v.files, n, now)
    ensures var w := WithStop(v, n);
      Inv(w, now, c) && forall k: Kind :: w.Live(k) == v.Live(k) - {n} && w.Running(k, now) == v.Running(k, now)
  {
    var w := WithStop(v, n);
    forall k: Kind
      ensures w.Running(k, now) == v.Running(k, now)
    {
    }
  }

  // ----- The order of events -----

  function StartsIn(log: seq<Event>): set<string> {
    set e | e in log && e.Start? :: e.name
  }

  function StopsIn(log: seq<Event>): set<string> {
    set e | e in log && e.Stop? :: e.name
  }

  /** The instances of a kind that a log leaves live. */
  function LiveAfter(log: seq<Event>, k: Kind): set<string> {
    set e | e in log && e.Start? && e.kind == k && e.name !in StopsIn(log) :: e.name
  }

  /** Those of them that have time left. */
  function RunningAfter(log: seq<Event>, k: Kind, now: real): set<string> {
    set e | e in log && e.Start? && e.kind == k && e.name !in StopsIn(log) && now - e.time <= e.length :: e.name
  }

  /** All events are over by then. */
  ghost predicate Until(log: seq<Event>, now: real) {
    forall e | e in log :: e.time <= now
  }

  /** Each instance is started at most once, and terminated at most once, after its time has expired; a count finds all
      that run when it ends, and only what ran when it began; and no event begins before the earlier ones are over. */
  ghost predicate Orderly(log: seq<Event>) {
    forall i: nat | i < |log| :: OrderlyAt(log, i)
  }

  ghost predicate OrderlyAt(log: seq<Event>, i: nat)
    requires i < |log|
  {
    && Until(log[..i], log[i].Begin())
    && match log[i]
       case Start(_, n, _, _) => n !in StartsIn(log[..i]) && n !in StopsIn(log[..i])
       case Stop(_, n, t) => n !in StopsIn(log[..i]) && Overdue(log[..i], n, t)
       case Counted(k, ids, from, t) =>
         from <= t && RunningAfter(log[..i], k, t) <= ids <= RunningAfter(log[..i], k, from)
  }

  ghost predicate Overdue(log: seq<Event>, n: string, t: real) {
    exists e | e in log && e.Start? && e.name == n :: t - e.time > e.length
  }

  /** The log accounts for every instance, and a started instance still has the timer it was started with. */
  ghost predicate Logged(v: View, log: seq<Event>) {
    && Orderly(log) && StartsIn(log) == v.pids + v.stopped && StopsIn(log) == v.stopped
    && (forall e | e in log && e.Start? :: Read(v.files, e.name) == Timer(e.time, e.length))
    && forall e | e in log :: if e.Counted? then e.ids <= v.Local(e.kind) else e.name in v.Local(e.kind)
  }

  lemma LogStart(v: View, log: seq<Event>, k: Kind, n: string, now: real, length: real)
    requires Logged(v, log) && Until(log, now) && n !in v.pids + v.stopped && n in v.Local(k)
    ensures Logged(WithStart(v, n, now, length), log + [Start(k, n, now, length)])
  {
    var e := Start(k, n, now, length);
    assert (log + [e])[..|log|] == log;
    Append(log, e);
    forall f | f in log + [e] && f.Start?
      ensures Read(v.files[n := Timer(now, length)], f.name) == Timer(f.time, f.length)
    {
      assert f in log ==> f.name in StartsIn(log);
    }
  }

  /** The view after an instance is terminated. */
  function WithStop(v: View, n: string): View {
    v.(pids := v.pids - {n}, stopped := v.stopped + {n})
  }

  lemma LogStop(v: View, log: seq<Event>, k: Kind, n: string, now: real)
    requires Logged(v, log) && Until(log, now) && n in v.pids && n !in v.stopped && n in v.Local(k)
    requires ExpiredAt(v.files, n, now)
    ensures Logged(WithStop(v, n), log + [Stop(k, n, now)])
  {
    var s := Stop(k, n, now);
    assert (log + [s])[..|log|] == log;
    assert n in StartsIn(log);
    var e :| e in log && e.Start? && e.name == n;
    Append(log, s);
  }

  lemma LogCount(v: View, log: seq<Event>, k: Kind, ids: set<string>, from: real, now: real, c: Config)
    requires Inv(v, now, c) && Logged(v, log) && Until(log, from) && from <= now
    requires v.Running(k, now) <= ids <= v.Running(k, from)
    ensures Logged(v, log + [Counted(k, ids, from, now)])
  {
    LogTells(v, log, k, now, c);
    AppendCount(log, k, ids, from, now);
    CountLogged(v, log, Counted(k, ids, from, now));
  }

  lemma AppendCount(log: seq<Event>, k: Kind, ids: set<string>, from: real, now: real)
    requires Orderly(log) && Until(log, from) && from <= now
    requires RunningAfter(log, k, now) <= ids <= RunningAfter(log, k, from)
    ensures Orderly(log + [Counted(k, ids, from, now)])
  {
    var e := Counted(k, ids, from, now);
    assert (log + [e])[..|log|] == log;
    Append(log, e);
  }

  lemma CountLogged(v: View, log: seq<Event>, e: Event)
    requires Logged(v, log) && Orderly(log + [e]) && e.Counted? && e.ids <= v.Local(e.kind)
    ensures Logged(v, log + [e])
  {
    assert StartsIn(log + [e]) == StartsIn(log) && StopsIn(log + [e]) == StopsIn(log);
  }

  lemma LogSame(v: View, w: View, log: seq<Event>)
    requires Logged(v, log) && SameInstances(v, w)
    ensures Logged(w, log)
  {
  }

  lemma Append(log: seq<Event>, e: Event)
    requires Orderly(log) && OrderlyAt(log + [e], |log|)
    ensures Orderly(log + [e])
    ensures StartsIn(log + [e]) == StartsIn(log) + if e.Start? then {e.name} else {}
    ensures StopsIn(log + [e]) == StopsIn(log) + if e.Stop? then {e.name} else {}
  {
    forall i: nat | i < |log + [e]|
      ensures OrderlyAt(log + [e], i)
    {
      if i < |log| {
        assert (log + [e])[..i] == log[..i];
        assert OrderlyAt(log, i);
      }
    }
  }

  // ----- What was live when -----

  /** The log tells what is live, and what is running. */
  lemma LogTells(v: View, log: seq<Event>, k: Kind, now: real, c: Config)
    requires Inv(v, now, c) && Logged(v, log)
    ensures LiveAfter(log, k) == v.Live(k)
    ensures forall t :: RunningAfter(log, k, t) == v.Running(k, t)
  {
    forall n | n in v.Live(k)
      ensures exists e :: e in log && e.Start? && e.kind == k && e.name == n
    {
      assert n in StartsIn(log);
    }
    forall t
      ensures RunningAfter(log, k, t) == v.Running(k, t)
    {
      forall n | n in v.Running(k, t)
        ensures n in RunningAfter(log, k, t)
      {
        var e :| e in log && e.Start? && e.kind == k && e.name == n;
      }
    }
  }

  /** From one log to a longer one at most `bound` instances of kind `k` are ever live, the other kind is left alone,
      and nothing is counted. */
  ghost predicate Rise(log0: seq<Event>, log: seq<Event>, k: Kind, bound: int) {
    && log0 <= log && (forall i | |log0| <= i <= |log| :: RiseAt(log0, log[..i], k, bound))
    && forall i | |log0| <= i < |log| :: !log[i].Counted?
  }

  ghost predicate RiseAt(log0: seq<Event>, log: seq<Event>, k: Kind, bound: int) {
    |LiveAfter(log, k)| <= bound && LiveAfter(log, Other(k)) == LiveAfter(log0, Other(k))
  }

  /** The events after `log0` began at `t` or later. */
  ghost predicate Since(log0: seq<Event>, log: seq<Event>, t: real) {
    log0 <= log && forall i | |log0| <= i < |log| :: t <= log[i].Begin()
  }

  /** At most one event, a start or a termination. */
  ghost predicate OneStep(log0: seq<Event>, log: seq<Event>, t: real) {
    Since(log0, log, t) && |log| <= |log0| + 1 && forall i | |log0| <= i < |log| :: !log[i].Counted?
  }

  lemma OneEvent(log: seq<Event>, e: Event, t: real)
    requires !e.Counted? && t <= e.time
    ensures OneStep(log, log + [e], t) && OneStep(log, log, t)
  {
  }

  lemma NoRise(log: seq<Event>, k: Kind, bound: int)
    requires |LiveAfter(log, k)| <= bound
    ensures Rise(log, log, k, bound)
  {
    assert log[..|log|] == log;
  }

  lemma RiseStep(log0: seq<Event>, log1: seq<Event>, log2: seq<Event>, k: Kind, bound: int, t: real)
    requires Rise(log0, log1, k, bound) && OneStep(log1, log2, t) && RiseAt(log0, log2, k, bound)
    ensures Rise(log0, log2, k, bound)
  {
    forall i | |log0| <= i <= |log2|
      ensures RiseAt(log0, log2[..i], k, bound)
    {
      if i <= |log1| {
        assert log2[..i] == log1[..i];
      } else {
        assert log2[..i] == log2;
      }
    }
  }

  // ----- One resume -----

  /** The same instances of a kind are live at every moment. */
  ghost predicate Steady(log0: seq<Event>, log: seq<Event>, k: Kind) {
    log0 <= log && forall i | |log0| <= i <= |log| :: LiveAfter(log[..i], k) == LiveAfter(log0, k)
  }

  /** No later event counts the kind. */
  ghost predicate NoCount(log: seq<Event>, i: nat, k: Kind) {
    forall j | i <= j < |log| && log[j].Counted? :: log[j].kind != k
  }

  /** What one `resume` does to a kind: it is left alone, or from the last count on, which is event `at`, at most as
      many instances are ever live as before and the slots that were not counted as running. */
  ghost predicate Resumed(cfg: Config, log0: seq<Event>, log: seq<Event>, k: Kind, at: Option<nat>) {
    match at
    case None => Steady(log0, log, k)
    case Some(c) =>
      && log0 <= log && |log0| <= c < |log| && CountAt(cfg, log, c, k) && Steady(log0, log[..c], k)
      && forall i | c < i <= |log| ::
           |LiveAfter(log[..i], k)| <= |LiveAfter(log0, k)| + Slots(cfg, k) - |log[c].ids|
  }

  ghost predicate CountAt(cfg: Config, log: seq<Event>, c: nat, k: Kind)
    requires c < |log|
  {
    log[c].Counted? && log[c].kind == k && |log[c].ids| <= Slots(cfg, k) && NoCount(log, c + 1, k)
  }

  /** A count starts and terminates nothing. */
  lemma CountLive(log: seq<Event>, e: Event)
    requires e.Counted?
    ensures forall k: Kind :: LiveAfter(log + [e], k) == LiveAfter(log, k) && Steady(log, log + [e], k)
  {
    var log' := log + [e];
    assert StopsIn(log') == StopsIn(log);
    assert log'[..|log|] == log && log'[..|log'|] == log';
    forall k: Kind
      ensures LiveAfter(log', k) == LiveAfter(log, k)
    {
    }
  }

  lemma SteadyRefl(log: seq<Event>)
    ensures forall k: Kind :: Steady(log, log, k)
  {
    assert log[..|log|] == log;
  }

  lemma SteadyThen(log0: seq<Event>, log1: seq<Event>, log2: seq<Event>, k: Kind)
    requires Steady(log0, log1, k) && Steady(log1, log2, k)
    ensures Steady(log0, log2, k)
  {
    assert log1[..|log1|] == log1;
    forall i | |log0| <= i <= |log2|
      ensures LiveAfter(log2[..i], k) == LiveAfter(log0, k)
    {
      assert i <= |log1| ==> log2[..i] == log1[..i];
    }
  }

  /** The instances that a count found. */
  ghost function Found(log: seq<Event>, at: Option<nat>): set<string> {
    if at.Some? && at.value < |log| && log[at.value].Counted? then log[at.value].ids else {}
  }

  /** What counting and scheduling a kind does: the count is the next event, and the other kind is left alone. */
  ghost predicate KindResumed(cfg: Config, k: Kind, v0: View, log0: seq<Event>, t0: real, v: View, log: seq<Event>,
                              at: Option<nat>)
  {
    && Since(log0, log, t0) && Resumed(cfg, log0, log, k, at) && (at == None || at == Some(|log0|))
    && Steady(log0, log, Other(k)) && NoCount(log, |log0|, Other(k)) && v.Live(Other(k)) == v0.Live(Other(k))
    && Found(log, at) <= v0.Running(k, t0)
  }

  lemma NotCounted(cfg: Config, k: Kind, v0: View, log: seq<Event>, t0: real, v: View)
    requires v.Live(Other(k)) == v0.Live(Other(k))
    ensures KindResumed(cfg, k, v0, log, t0, v, log, None)
  {
    SteadyRefl(log);
  }

  lemma CountedKind(cfg: Config, k: Kind, v0: View, log0: seq<Event>, t0: real, v: View, log: seq<Event>, e: Event)
    requires e.Counted? && e.kind == k && e.from == t0 && |e.ids| <= Slots(cfg, k) && e.ids <= v0.Running(k, t0)
    requires Rise(log0 + [e], log, k, |LiveAfter(log0, k)| + Slots(cfg, k) - |e.ids|)
    requires Since(log0 + [e], log, e.time) && t0 <= e.time && v.Live(Other(k)) == v0.Live(Other(k))
    ensures KindResumed(cfg, k, v0, log0, t0, v, log, Some(|log0|)) && log[|log0|] == e
    ensures Found(log, Some(|log0|)) == e.ids
  {
    CountThenRise(cfg, log0, log, k, e);
    SinceThen(log0, log0 + [e], log, t0, e.time);
  }

  /** A count, and the scheduling loop after it. */
  lemma CountThenRise(cfg: Config, log0: seq<Event>, log: seq<Event>, k: Kind, e: Event)
    requires e.Counted? && e.kind == k && |e.ids| <= Slots(cfg, k)
    requires Rise(log0 + [e], log, k, |LiveAfter(log0, k)| + Slots(cfg, k) - |e.ids|)
    ensures Resumed(cfg, log0, log, k, Some(|log0|)) && log[|log0|] == e
    ensures Steady(log0, log, Other(k)) && NoCount(log, |log0|, Other(k))
  {
    CountLive(log0, e);
    var bound := |LiveAfter(log0, k)| + Slots(cfg, k) - |e.ids|;
    assert log[..|log0|] == log0;
    forall i | |log0| <= i <= |log|
      ensures LiveAfter(log[..i], Other(k)) == LiveAfter(log0, Other(k))
      ensures i > |log0| ==> |LiveAfter(log[..i], k)| <= bound
    {
      if i > |log0| {
        assert RiseAt(log0 + [e], log[..i], k, bound);
      }
    }
  }

  /** Parts of a `resume` before that leave the kind alone... */
  lemma AloneThen(cfg: Config, log0: seq<Event>, log1: seq<Event>, log2: seq<Event>, k: Kind, at: Option<nat>)
    requires Steady(log0, log1, k) && Resumed(cfg, log1, log2, k, at)
    ensures Resumed(cfg, log0, log2, k, at)
  {
    assert log1[..|log1|] == log1;
    match at
    case None => SteadyThen(log0, log1, log2, k);
    case Some(c) => SteadyThen(log0, log1, log2[..c], k);
  }

  /** ...and after. */
  lemma ThenAlone(cfg: Config, log0: seq<Event>, log1: seq<Event>, log2: seq<Event>, k: Kind, at: Option<nat>)
    requires Resumed(cfg, log0, log1, k, at) && Steady(log1, log2, k) && NoCount(log2, |log1|, k)
    ensures Resumed(cfg, log0, log2, k, at)
  {
    assert log1[..|log1|] == log1;
    match at
    case None => SteadyThen(log0, log1, log2, k);
    case Some(c) =>
      assert log2[..c] == log1[..c] && log2[c] == log1[c];
      forall i | c < i <= |log2|
        ensures |LiveAfter(log2[..i], k)| <= |LiveAfter(log0, k)| + Slots(cfg, k) - |log2[c].ids|
      {
        assert i <= |log1| ==> log2[..i] == log1[..i];
      }
      assert NoCount(log1, c + 1, k);
      forall j | c + 1 <= j < |log2| && log2[j].Counted?
        ensures log2[j].kind != k
      {
        assert j < |log1| ==> log2[j] == log1[j];
      }
  }

  /** The events of the log that are the counts of one `resume`. */
  datatype Counts = Counts(tc: Option<nat>, cs: Option<nat>) {
    function Of(k: Kind): Option<nat> {
      if k.Tc? then tc else cs
    }
  }

  ghost predicate AllResumed(cfg: Config, log0: seq<Event>, log: seq<Event>, counts: Counts) {
    log0 <= log && forall k: Kind :: Resumed(cfg, log0, log, k, counts.Of(k))
  }

  lemma NoneResumed(cfg: Config, log0: seq<Event>, log: seq<Event>)
    requires forall k: Kind :: Steady(log0, log, k)
    ensures AllResumed(cfg, log0, log, Counts(None, None))
  {
    assert Steady(log0, log, Tc);
  }

  lemma TcResumed(cfg: Config, log0: seq<Event>, log: seq<Event>, tc: Option<nat>)
    requires Resumed(cfg, log0, log, Tc, tc) && Steady(log0, log, Cs)
    ensures AllResumed(cfg, log0, log, Counts(tc, None)) && (tc.Some? ==> tc.value < |log|)
  {
  }

  /** The part for testcases, and then the part for crash sites. */
  lemma BothResumed(cfg: Config, log0: seq<Event>, log1: seq<Event>, log2: seq<Event>, tc: Option<nat>, cs: Option<nat>)
    requires AllResumed(cfg, log0, log1, Counts(tc, None)) && Resumed(cfg, log1, log2, Cs, cs)
    requires Steady(log1, log2, Tc) && NoCount(log2, |log1|, Tc)
    ensures AllResumed(cfg, log0, log2, Counts(tc, cs))
  {
    var counts := Counts(tc, None);
    assert Resumed(cfg, log0, log1, Tc, counts.Of(Tc)) && Resumed(cfg, log0, log1, Cs, counts.Of(Cs));
    ThenAlone(cfg, log0, log1, log2, Tc, tc);
    AloneThen(cfg, log0, log1, log2, Cs, cs);
  }

  /** The status line, and then the rest. */
  lemma LaterResumed(cfg: Config, log0: seq<Event>, log1: seq<Event>, log2: seq<Event>, counts: Counts)
    requires (forall k: Kind :: Steady(log0, log1, k)) && AllResumed(cfg, log1, log2, counts)
    ensures AllResumed(cfg, log0, log2, counts)
  {
    forall k: Kind
      ensures Resumed(cfg, log0, log2, k, counts.Of(k))
    {
      assert Steady(log0, log1, k);
      AloneThen(cfg, log0, log1, log2, k, counts.Of(k));
    }
    assert Steady(log0, log1, Tc);
  }

  lemma SinceThen(log0: seq<Event>, log1: seq<Event>, log2: seq<Event>, t0: real, t1: real)
    requires Since(log0, log1, t0) && Since(log1, log2, t1) && t0 <= t1
    ensures Since(log0, log2, t0)
  {
    forall i | |log0| <= i < |log2|
      ensures t0 <= log2[i].Begin()
    {
      assert i < |log1| ==> log2[i] == log1[i];
    }
  }

  // ----- A whole iteration -----

  /** One `resume`: the part of the log it wrote, when it was, and its counts. */
  datatype Pass = Pass(begin: nat, end: nat, from: real, to: real, counts: Counts)

  ghost predicate PassOk(cfg: Config, log: seq<Event>, p: Pass) {
    && p.begin <= p.end <= |log| && p.from <= p.to
    && PartOk(cfg, log[..p.begin], log[..p.end], p)
  }

  ghost predicate PartOk(cfg: Config, log0: seq<Event>, log: seq<Event>, p: Pass) {
    && (forall k: Kind :: |LiveAfter(log0, k)| <= Slots(cfg, k))
    && AllResumed(cfg, log0, log, p.counts) && Since(log0, log, p.from) && Until(log, p.to)
  }

  /** One `resume` follows the other, in the log without gaps and in time. */
  ghost predicate Contiguous(begin: nat, from: real, passes: seq<Pass>, end: nat, to: real) {
    && from <= to
    && (passes == [] ==> begin == end)
    && (passes != [] ==> passes[0].begin == begin && from <= passes[0].from)
    && (passes != [] ==> passes[|passes| - 1].end == end && passes[|passes| - 1].to <= to)
    && forall j | 0 <= j < |passes| - 1 ::
         passes[j].end == passes[j + 1].begin && passes[j].to <= passes[j + 1].from
  }

  /** What an iteration adds to a log from `from` to `to`: the events of each `resume`, and from `mid` on those of
      `kill_all`. */
  ghost predicate Iterated(cfg: Config, log0: seq<Event>, from: real, log: seq<Event>, to: real, passes: seq<Pass>,
                           mid: nat)
  {
    && |log0| <= mid <= |log| && log0 <= log && Contiguous(|log0|, from, passes, mid, to)
    && (forall p | p in passes :: PassOk(cfg, log, p))
    && (forall k: Kind, i | mid <= i <= |log| :: |LiveAfter(log[..i], k)| <= |LiveAfter(log[..mid], k)|)
  }

  lemma BeginIterated(cfg: Config, log: seq<Event>, now: real)
    ensures Iterated(cfg, log, now, log, now, [], |log|)
  {
    assert log[..|log|] == log;
  }

  lemma StillPassOk(cfg: Config, log1: seq<Event>, log: seq<Event>, passes: seq<Pass>)
    requires log1 <= log && forall p | p in passes :: PassOk(cfg, log1, p)
    ensures forall p | p in passes :: PassOk(cfg, log, p)
  {
    forall p | p in passes
      ensures PassOk(cfg, log, p)
    {
      assert PassOk(cfg, log1, p);
      assert log[..p.begin] == log1[..p.begin] && log[..p.end] == log1[..p.end];
    }
  }

  /** Time passes between two of them. */
  lemma IteratedLater(cfg: Config, log0: seq<Event>, from: real, log: seq<Event>, t1: real, t2: real, passes: seq<Pass>)
    requires Iterated(cfg, log0, from, log, t1, passes, |log|) && t1 <= t2
    ensures Iterated(cfg, log0, from, log, t2, passes, |log|)
  {
  }

  /** One more `resume`. */
  lemma NextIterated(cfg: Config, log0: seq<Event>, from: real, log1: seq<Event>, log: seq<Event>, passes: seq<Pass>,
                     p: Pass)
    requires Iterated(cfg, log0, from, log1, p.from, passes, |log1|) && log1 <= log
    requires p.begin == |log1| && p.end == |log| && p.from <= p.to && PartOk(cfg, log1, log, p)
    ensures Iterated(cfg, log0, from, log, p.to, passes + [p], |log|)
  {
    StillPassOk(cfg, log1, log, passes);
    assert log[..|log1|] == log1 && log[..|log|] == log;
    assert PassOk(cfg, log, p);
  }

  /** The end of an iteration. */
  lemma EndIterated(cfg: Config, log0: seq<Event>, from: real, log1: seq<Event>, log: seq<Event>, t1: real, t2: real,
                    passes: seq<Pass>)
    requires Iterated(cfg, log0, from, log1, t1, passes, |log1|) && t1 <= t2
    requires Rise(log1, log, Tc, |LiveAfter(log1, Tc)|)
    ensures Iterated(cfg, log0, from, log, t2, passes, |log1|)
  {
    StillPassOk(cfg, log1, log, passes);
    assert log[..|log1|] == log1;
    forall k: Kind, i | |log1| <= i <= |log|
      ensures |LiveAfter(log[..i], k)| <= |LiveAfter(log1, k)|
    {
      assert RiseAt(log1, log[..i], Tc, |LiveAfter(log1, Tc)|);
    }
  }

  /** At moment `i` of a `resume` at most twice the slots of a kind are live, less those its count found running. */
  ghost predicate Bounded(cfg: Config, log: seq<Event>, p: Pass, k: Kind, i: nat)
    requires i <= |log|
  {
    match p.counts.Of(k)
    case None => |LiveAfter(log[..i], k)| <= Slots(cfg, k)
    case Some(c) =>
      && c < |log| && log[c].Counted? && log[c].kind == k && |log[c].ids| <= Slots(cfg, k)
      && p.begin <= c < p.end && p.from <= log[c].from && log[c].time <= p.to
      && |LiveAfter(log[..i], k)| <= 2 * Slots(cfg, k) - |log[c].ids|
  }

  lemma PassBound(cfg: Config, log: seq<Event>, p: Pass, k: Kind, i: nat)
    requires PassOk(cfg, log, p) && p.begin <= i <= p.end
    ensures Bounded(cfg, log, p, k, i)
  {
    var log0, log1 := log[..p.begin], log[..p.end];
    assert Resumed(cfg, log0, log1, k, p.counts.Of(k));
    assert log1[..i] == log[..i];
    match p.counts.Of(k)
    case None =>
    case Some(c) =>
      assert log1[c] == log[c] && log1[c] in log1;
      if i <= c {
        assert log1[..c][..i] == log1[..i];
      }
  }

  ghost predicate PassBounded(cfg: Config, log: seq<Event>, p: Pass) {
    p.end <= |log| && forall k: Kind, i: nat | p.begin <= i <= p.end :: Bounded(cfg, log, p, k, i)
  }

  lemma PassesBounded(cfg: Config, log: seq<Event>, passes: seq<Pass>)
    requires forall p | p in passes :: PassOk(cfg, log, p)
    ensures forall p | p in passes :: PassBounded(cfg, log, p)
  {
    forall p | p in passes
      ensures PassBounded(cfg, log, p)
    {
      forall k: Kind, i: nat | p.begin <= i <= p.end
        ensures Bounded(cfg, log, p, k, i)
      {
        PassBound(cfg, log, p, k, i);
      }
    }
  }

  lemma FindPass(begin: nat, from: real, passes: seq<Pass>, end: nat, to: real, i: nat) returns (j: nat)
    requires Contiguous(begin, from, passes, end, to) && passes != [] && begin <= i <= end
    ensures j < |passes| && passes[j].begin <= i <= passes[j].end
  {
    j := 0;
    while passes[j].end < i
      invariant j < |passes| && passes[j].begin <= i
      decreases |passes| - j
    {
      j := j + 1;
    }
  }

  /** At no moment of an iteration are more than twice the slots of a kind live. */
  lemma IterationBound(cfg: Config, log0: seq<Event>, from: real, log: seq<Event>, to: real, passes: seq<Pass>,
                       mid: nat, k: Kind, i: nat)
    requires Iterated(cfg, log0, from, log, to, passes, mid)
    requires |LiveAfter(log0, k)| <= Slots(cfg, k) && |log0| <= i <= |log|
    ensures |LiveAfter(log[..i], k)| <= 2 * Slots(cfg, k)
  {
    var at := if i <= mid then i else mid;
    if passes == [] {
      assert log[..at] == log0;
    } else {
      var j := FindPass(|log0|, from, passes, mid, to, at);
      PassBound(cfg, log, passes[j], k, at);
    }
  }

  // ----- Progress -----

  /** At least `d` more instances of a kind have been started. */
  ghost predicate Work(v: View, w: View, k: Kind, d: int) {
    v.Begun(k) <= w.Begun(k) && |w.Begun(k)| >= |v.Begun(k)| + d
  }

  /** A slot is left free only if each of these names has been started. */
  ghost predicate NoneWaits(v: View, w: View, k: Kind, free: int, names: set<string>) {
    names <= w.Begun(k) || Work(v, w, k, free)
  }

  /** One kind in one `resume`: the instances its count found running, those ever started before and after, and the
      names to go over. */
  datatype Use = Use(found: set<string>, before: set<string>, after: set<string>, names: set<string>)
  {
    predicate Waits() {
      !(names <= after)
    }

    /** The cores used: by the instances found running and by those started since. */
    function Cores(): int {
      |found| + |after| - |before|
    }
  }

  /** No core is idle while a testcase waits. With failure injection each kind for which a name waits uses its half of
      the cores, so at most one core is idle while names of both kinds wait. */
  predicate CoresBusy(c: Config, tc: Use, cs: Use) {
    && tc.before <= tc.after && cs.before <= cs.after
    && (!c.finj && tc.Waits() ==> tc.Cores() >= c.cores)
    && (c.finj && tc.Waits() ==> tc.Cores() >= 1 && 2 * tc.Cores() >= c.cores - 1)
    && (c.finj && cs.Waits() ==> cs.Cores() >= 1 && 2 * cs.Cores() >= c.cores - 1)
    && (c.finj && tc.Waits() && cs.Waits() ==> tc.Cores() + cs.Cores() >= c.cores - 1)
  }

  lemma KeptBusy(c: Config, v: View, w: View, tc: Use, cs: Use)
    requires tc.before == v.Begun(Tc) <= tc.after == w.Begun(Tc)
    requires cs.before == v.Begun(Cs) <= cs.after == w.Begun(Cs)
    requires NoneWaits(v, w, Tc, Slots(c, Tc) - |tc.found|, tc.names)
    requires c.finj ==> NoneWaits(v, w, Cs, Slots(c, Cs) - |cs.found|, cs.names)
    ensures CoresBusy(c, tc, cs)
  {
    SlotsFit(c);
  }

  /** When no testcase was found running, all its slots are filled. */
  lemma BusyWaits(c: Config, v: View, w: View, tc: Use, cs: Use)
    requires CoresBusy(c, tc, cs) && tc.found == {} && tc.before == v.Begun(Tc) && tc.after == w.Begun(Tc)
    ensures NoneWaits(v, w, Tc, Slots(c, Tc), tc.names)
  {
    SlotsFit(c);
  }

  lemma WaitsMore(v: View, w: View, u: View, k: Kind, free: int, names: set<string>)
    requires NoneWaits(v, w, k, free, names) && Work(w, u, k, 0)
    ensures NoneWaits(v, u, k, free, names)
  {
  }

  /** What was started before a loop counts from before. */
  lemma WaitsFrom(v: View, w: View, u: View, k: Kind, free: int, names: set<string>)
    requires Work(v, w, k, 0) && NoneWaits(w, u, k, free, names) && w.Begun(k) <= u.Begun(k)
    ensures NoneWaits(v, u, k, free, names)
  {
  }

  /** The names `update_local` adds before one `resume`, and the time since the last one. */
  datatype Arrivals = Arrivals(tcs: set<string>, css: set<string>, wait: real)

  /** The filter keeps every testcase, and more than `tc_timeout` passes between two turns. */
  ghost predicate Patient(rounds: seq<Arrivals>, c: Config, allTcs: set<string>) {
    (forall n | n in allTcs :: c.select(n)) && forall a | a in rounds :: a.wait > c.timeout
  }

  /** After `i` turns that started something: as many as fit in the slots each time, or all there were. */
  ghost predicate Progressed(v: View, c: Config, allTcs: set<string>, i: nat) {
    && (i > 0 ==> (i - 1) * Slots(c, Tc) < |allTcs|)
    && (v.tcs <= v.Begun(Tc) || i * Slots(c, Tc) <= |v.Begun(Tc)|)
  }

  lemma NextProgressed(v: View, w: View, c: Config, allTcs: set<string>, i: nat)
    requires Progressed(v, c, allTcs, i) && v.tcs <= allTcs && !(v.tcs <= v.Begun(Tc))
    requires NoneWaits(v, w, Tc, Slots(c, Tc), w.tcs)
    ensures Progressed(w, c, allTcs, i + 1)
  {
    var n :| n in v.tcs && n !in v.Begun(Tc);
    SubsetSize(v.Begun(Tc), allTcs - {n});
    assert (i + 1) * Slots(c, Tc) == i * Slots(c, Tc) + Slots(c, Tc);
  }

  /** What was started stays started. */
  lemma BegunGrows(v: View, log0: seq<Event>, w: View, log: seq<Event>, k: Kind)
    requires Logged(v, log0) && Logged(w, log) && log0 <= log && v.Local(k) <= w.Local(k)
    ensures v.Begun(k) <= w.Begun(k) && Work(v, w, k, 0)
  {
    forall n | n in v.Begun(k)
      ensures n in w.Begun(k)
    {
      assert n in StartsIn(log0);
      var e :| e in log0 && e.Start? && e.name == n;
      assert e in log;
      assert n in StartsIn(log);
    }
    SubsetSize(v.Begun(k), w.Begun(k));
  }

  /** What is running later was running before. */
  lemma SameRunning(v: View, w: View, k: Kind, t0: real, t1: real)
    requires w.Live(k) == v.Live(k) && SameTimers(v.files, w.files) && t0 <= t1
    ensures w.Running(k, t1) <= v.Running(k, t0)
  {
  }

  lemma SameBegun(u: View, v: View, w: View, k: Kind)
    requires u.Begun(k) == v.Begun(k)
    ensures forall free, names | NoneWaits(v, w, k, free, names) :: NoneWaits(u, w, k, free, names)
  {
  }

  lemma StopBegun(v: View, n: string, k: Kind)
    requires n in v.pids
    ensures WithStop(v, n).Begun(k) == v.Begun(k)
  {
  }

  lemma StartBegun(v: View, n: string, now: real, length: real, k: Kind)
    requires n !in v.pids + v.stopped && n in v.Local(k)
    ensures Work(v, WithStart(v, n, now, length), k, 1) && n in WithStart(v, n, now, length).Begun(k)
  {
    assert WithStart(v, n, now, length).Begun(k) == v.Begun(k) + {n};
  }

  /** Once longer than `tc_timeout` nothing was started, nothing is running. */
  lemma WaitExpires(v: View, now: real, later: real, c: Config, k: Kind)
    requires Inv(v, now, c) && later - now > c.timeout
    ensures v.Running(k, later) == {}
  {
    forall n | n in v.Live(k)
      ensures ExpiredAt(v.files, n, later)
    {
      assert n in v.pids + v.stopped;
    }
  }

  /** A started instance that is not running is done. */
  lemma BegunDone(v: View, now: real, c: Config, n: string)
    requires Inv(v, now, c) && v.Running(Tc, now) == {} && n in v.Begun(Tc)
    ensures Done(v.files, n, now)
  {
    assert n in v.stopped || n in v.Live(Tc);
    assert n in v.Live(Tc) ==> n !in v.Running(Tc, now);
  }

  // ----- One scheduling loop -----

  /** The state of a scheduling loop between two names. */
  ghost predicate Turn(p: Progress, v: View, now: real, k: Kind, count: nat, slots: nat) {
    Filling(p, v, now, k) && count == |p.Used()| <= slots
  }

  lemma BeginTurns(p: Progress, v: View, now: real, k: Kind, c: Config)
    requires Inv(v, now, c) && p.live0 == v.Live(k) && p.started == {} && p.seen == {} && p.counted <= p.live0
    requires OthersExpired(v, k, p.counted, now) && |p.counted| <= Slots(c, k)
    ensures Turn(p, v, now, k, |p.counted|, Slots(c, k))
  {
    assert p.Used() == p.counted;
    forall n | n in p.live0
      ensures Started(v.files, n)
    {
      assert n in v.pids + v.stopped;
    }
  }

  lemma LiveBound(p: Progress, v: View, now: real, k: Kind, count: nat, slots: nat)
    requires Turn(p, v, now, k, count, slots)
    ensures |v.Live(k)| <= |p.live0| + slots - |p.counted|
  {
    assert p.Used() == p.counted + p.started;
    SubsetSize(v.Live(k), p.live0 + p.started);
    assert |p.counted + p.started| == |p.counted| + |p.started|;
    assert |p.live0 + p.started| == |p.live0| + |p.started|;
  }

  /** A scheduling loop when it began: the view, the log, the time, the count, and how many may become live. */
  datatype Loop = Loop(v: View, log: seq<Event>, now: real, count: nat, bound: int)

  /** What it has done after the names `seen`. */
  ghost predicate Scheduled(l: Loop, v: View, log: seq<Event>, k: Kind, count: nat, slots: nat, seen: set<string>) {
    && Rise(l.log, log, k, l.bound) && Since(l.log, log, l.now) && v.Live(Other(k)) == l.v.Live(Other(k))
    && Work(l.v, v, k, count - l.count) && (count < slots ==> seen <= v.Begun(k))
  }

  lemma BeginScheduled(l: Loop, c: Config, k: Kind, slots: nat)
    requires Inv(l.v, l.now, c) && Logged(l.v, l.log) && |l.v.Live(k)| <= l.bound
    ensures Scheduled(l, l.v, l.log, k, l.count, slots, {})
  {
    LogTells(l.v, l.log, k, l.now, c);
    NoRise(l.log, k, l.bound);
  }

  /** One more name. */
  lemma NextScheduled(l: Loop, v1: View, log1: seq<Event>, t1: real, v2: View, log2: seq<Event>, t2: real, c: Config,
                      k: Kind, count1: nat, count2: nat, slots: nat, seen: set<string>, n: string)
    requires Scheduled(l, v1, log1, k, count1, slots, seen) && Inv(l.v, l.now, c) && Logged(l.v, l.log)
    requires Inv(v2, t2, c) && Logged(v2, log2) && OneStep(log1, log2, t1) && l.now <= t1
    requires |v2.Live(k)| <= l.bound && v2.Live(Other(k)) == v1.Live(Other(k))
    requires Work(v1, v2, k, count2 - count1) && count1 <= count2 && (count2 < slots ==> n in v2.Begun(k))
    ensures Scheduled(l, v2, log2, k, count2, slots, seen + {n})
  {
    LogTells(l.v, l.log, Other(k), l.now, c);
    LogTells(v2, log2, k, t2, c);
    LogTells(v2, log2, Other(k), t2, c);
    RiseStep(l.log, log1, log2, k, l.bound, t1);
    SinceThen(l.log, log1, log2, l.now, t1);
  }

  /** At the end of the loop. */
  lemma EndScheduled(l: Loop, v: View, log: seq<Event>, k: Kind, count: nat, slots: nat, seen: set<string>)
    requires Scheduled(l, v, log, k, count, slots, seen) && count <= slots
    ensures NoneWaits(l.v, v, k, slots - l.count, seen)
  {
  }

  lemma AllSeen(p: Progress, v: View, now: real, k: Kind)
    requires Filling(p, v, now, k) && v.Live(k) <= p.seen
    ensures |v.Live(k)| <= |p.Used()|
  {
    assert v.Live(k) * p.seen == v.Live(k);
    SubsetSize(v.Live(k), p.Used());
  }

  predicate Done(files: map<string, Timer>, n: string, now: real) {
    Started(files, n) && ExpiredAt(files, n, now)
  }

  /** What an orderly log says: no instance is started twice or terminated twice, none is started after it was
      terminated, and every termination comes after a start of the same instance whose time had run out. */
  lemma OrderlyMeans(log: seq<Event>, i: nat, j: nat)
    requires Orderly(log) && i < j < |log| && !log[i].Counted? && !log[j].Counted? && log[i].name == log[j].name
    ensures log[i].Start? && log[j].Stop?
  {
    Earlier(log, i, j);
    assert OrderlyAt(log, j);
  }

  lemma Earlier(log: seq<Event>, i: nat, j: nat)
    requires i < j <= |log|
    ensures log[i].Start? ==> log[i].name in StartsIn(log[..j])
    ensures log[i].Stop? ==> log[i].name in StopsIn(log[..j])
  {
    assert log[i] == log[..j][i] && log[..j][i] in log[..j];
  }

  lemma StopAfterExpiry(log: seq<Event>, j: nat) returns (i: nat)
    requires Orderly(log) && j < |log| && log[j].Stop?
    ensures i < j && log[i].Start? && log[i].name == log[j].name && log[j].time - log[i].time > log[i].length
  {
    assert OrderlyAt(log, j);
    var e :| e in log[..j] && e.Start? && e.name == log[j].name && log[j].time - e.time > e.length;
    i :| 0 <= i < j && log[..j][i] == e;
  }

  /** `q` is `p` with one more name seen, and perhaps started. */
  ghost predicate Follows(p: Progress, q: Progress, n: string) {
    q.live0 == p.live0 && q.counted == p.counted && q.seen == p.seen + {n}
  }

  function Names(l: seq<string>): set<string> {
    set n | n in l
  }

  lemma NamesEnds(l: seq<string>)
    ensures Names(l[..0]) == {} && Names(l[..|l|]) == Names(l)
  {
    assert l[..|l|] == l;
  }

  lemma NamesStep(l: seq<string>, i: nat)
    requires i < |l| && Distinct(l)
    ensures l[i] !in Names(l[..i]) && Names(l[..i + 1]) == Names(l[..i]) + {l[i]}
  {
    assert l[..i + 1] == l[..i] + [l[i]];
  }

  /** Nothing but the clock and never-started timers has changed. */
  ghost predicate SameInstances(v: View, w: View) {
    SameTimers(v.files, w.files) && w == v.(files := w.files)
  }

  /** Progress of `get_run_count`: of the names seen, those counted were running at the start, the others have
      expired. */
  ghost predicate Counting(v0: View, t0: real, v: View, now: real, k: Kind, seen: set<string>, counted: set<string>) {
    && counted <= seen && counted <= v0.Running(k, t0)
    && forall n | n in v.Live(k) && n in seen && n !in counted :: ExpiredAt(v.files, n, now)
  }

  lemma CountStep(v0: View, t0: real, v1: View, t1: real, v2: View, t2: real, k: Kind,
                  seen: set<string>, counted: set<string>, n: string, running: bool)
    requires t0 <= t1 <= t2 && SameInstances(v0, v1) && SameInstances(v1, v2)
    requires Counting(v0, t0, v1, t1, k, seen, counted) && n !in seen
    requires running ==> n in v2.Running(k, t2)
    requires !running && n in v2.Live(k) ==> ExpiredAt(v2.files, n, t2)
    ensures Counting(v0, t0, v2, t2, k, seen + {n}, if running then counted + {n} else counted)
  {
  }

  /** Progress of a scheduling loop: the instances live before it, those counted as running, those it started, the names
      seen. */
  datatype Progress = Progress(live0: set<string>, counted: set<string>, started: set<string>, seen: set<string>)
  {
    function Used(): set<string> {
      counted + started
    }
  }

  ghost predicate Filling(p: Progress, v: View, now: real, k: Kind) {
    && p.counted <= p.live0 && p.started !! p.live0
    && (forall n | n in p.live0 + p.started :: Started(v.files, n))
    && v.Live(k) <= p.live0 + p.started
    && OthersExpired(v, k, p.Used(), now)
    && v.Live(k) * p.seen <= p.Used()
  }

  lemma FillLater(p: Progress, v: View, w: View, t1: real, t2: real, k: Kind)
    requires Filling(p, v, t1, k) && SameInstances(v, w) && t1 <= t2
    ensures Filling(p, w, t2, k)
  {
  }

  lemma FillStop(p: Progress, v: View, now: real, k: Kind, n: string)
    requires Filling(p, v, now, k)
    ensures Filling(p.(seen := p.seen + {n}), WithStop(v, n), now, k)
  {
  }

  lemma OneMoreUsed(p: Progress, q: Progress, v: View, now: real, k: Kind, n: string)
    requires Filling(p, v, now, k) && !Started(v.files, n) && q.counted == p.counted && q.started == p.started + {n}
    ensures |q.Used()| == |p.Used()| + 1
  {
    assert q.Used() == p.Used() + {n};
  }

  lemma FillNew(p: Progress, v: View, now: real, k: Kind, n: string, c: Config)
    requires Inv(v, now, c) && Filling(p, v, now, k) && !Started(v.files, n)
    ensures Filling(p.(seen := p.seen + {n}), v, now, k)
  {
    assert n !in v.pids + v.stopped;
  }

  lemma OtherKind(v: View, k: Kind, n: string, now: real, c: Config)
    requires Inv(v, now, c) && n in v.Local(k)
    ensures WithStop(v, n).Live(Other(k)) == v.Live(Other(k))
    ensures n !in v.pids ==> n !in v.Live(k)
  {
  }

  lemma OtherKindStart(v: View, k: Kind, n: string, now: real, c: Config)
    requires Inv(v, now, c) && n in v.Local(k)
    ensures v.(pids := v.pids + {n}).Live(Other(k)) == v.Live(Other(k))
  {
  }

  lemma FillStart(p: Progress, v: View, t1: real, t2: real, k: Kind, n: string, c: Config)
    requires Filling(p, v, t1, k) && t1 <= t2 && n in v.Local(k) && !Started(v.files, n) && t2 != 0.0
    ensures Filling(p.(seen := p.seen + {n}, started := p.started + {n}), WithStart(v, n, t2, c.timeout), t2, k)
  {
  }

  lemma StartedFree(p: Progress, q: Progress, v: View, t1: real, t2: real, k: Kind, n: string, c: Config)
    requires Inv(v, t1, c) && Filling(p, v, t1, k) && t1 <= t2 && n in v.Local(k) && !Started(v.files, n)
    requires q == p.(seen := p.seen + {n}, started := p.started + {n})
    ensures var w := WithStart(v, n, t2, c.timeout);
      && Filling(q, w, t2, k) && Follows(p, q, n) && |q.Used()| == |p.Used()| + 1
      && w.Live(Other(k)) == v.Live(Other(k)) && Work(v, w, k, 1) && n in w.Begun(k)
  {
    assert n !in v.pids + v.stopped;
    StartBegun(v, n, t2, c.timeout, k);
    OtherKindStart(v, k, n, t1, c);
    OneMoreUsed(p, q, v, t1, k, n);
    FillStart(p, v, t1, t2, k, n, c);
  }

  lemma LiveSelected(v: View, k: Kind, now: real, c: Config)
    requires Inv(v, now, c)
    ensures v.Live(k) <= set n | n in v.Local(k) && c.select(n)
  {
    forall n | n in v.Live(k)
      ensures c.select(n)
    {
      assert n in v.pids + v.stopped;
    }
  }

  /** The same timers, up to files that hold a timer never started. */
  ghost predicate SameTimers(a: map<string, Timer>, b: map<string, Timer>) {
    forall n :: Read(a, n) == Read(b, n)
  }

  /** Every live instance outside `counted` has expired. */
  ghost predicate OthersExpired(v: View, k: Kind, counted: set<string>, now: real) {
    forall n | n in v.Live(k) && n !in counted :: ExpiredAt(v.files, n, now)
  }

  lemma StartedIsLive(v: View, k: Kind, n: string, now: real, c: Config)
    requires Inv(v, now, c) && n in v.Local(k) && Started(v.files, n) && !ExpiredAt(v.files, n, now)
    ensures n in v.Live(k)
  {
  }

  lemma MoreLocal(v: View, w: View, now: real, c: Config, k: Kind)
    requires Inv(v, now, c) && v.tcs <= w.tcs && v.css <= w.css && w.tcs !! w.css
    requires w.pids == v.pids && w.stopped == v.stopped
    ensures w.Live(k) == v.Live(k) && w.Begun(k) == v.Begun(k)
  {
    forall n | n in v.pids + v.stopped
      ensures n in w.Local(k) <==> n in v.Local(k)
    {
      assert n in v.pids + v.stopped;
      assert n in w.tcs ==> n !in w.css;
    }
  }
}
