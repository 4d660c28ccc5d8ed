/** The stage 2 scheduler (src/pmfuzz/stages/stage2.py): which fuzzer instances run, over persistent timers and pid
    files. */
module Scheduler {
  import opened Instances
  import opened Listing
  import opened Text
  import opened Timers

  class Stage2 {
    const cfg: Config
    const clock: Clock
    const timers: TimerDir
    var pids: set<string>   // pid files
    var tcs: set<string>    // testcases in the local store, without extension
    var css: set<string>    // crash sites in the local store, without extension
    ghost var stopped: set<string>
    ghost var log: seq<Event>

    ghost function V(): View
      reads this, timers
    {
      View(timers.files, pids, stopped, tcs, css)
    }

    ghost predicate Valid()
      reads this, clock, timers
    {
      Inv(V(), clock.now, cfg) && Logged(V(), log) && Until(log, clock.now)
    }

    /** A fresh iteration: empty local stores, no timers, no instances. */
    constructor (cfg: Config, clock: Clock)
      requires clock.now > 0.0
      ensures Valid() && fresh(timers) && this.clock == clock && this.cfg == cfg
      ensures pids == {} && tcs == {} && css == {} && log == []
    {
      this.cfg := cfg;
      this.clock := clock;
      timers := new TimerDir();
      pids, tcs, css, stopped, log := {}, {}, {}, {}, [];
      new;
      forall k: Kind
        ensures V().Running(k, clock.now) == {}
      {
      }
    }

    /** `update_local` as the scheduler sees it: more testcases and crash sites; their names never meet. */
    method UpdateLocal(newTcs: set<string>, newCss: set<string>)
      requires Valid() && tcs + newTcs !! css + newCss
      modifies `tcs, `css
      ensures Valid() && tcs == old(tcs) + newTcs && css == old(css) + newCss
      ensures forall k: Kind :: V().Live(k) == old(V()).Live(k) && V().Begun(k) == old(V()).Begun(k)
      ensures forall k: Kind :: V().Running(k, clock.now) == old(V().Running(k, clock.now))
    {
      ghost var v := V();
      tcs := tcs + newTcs;
      css := css + newCss;
      forall k: Kind
        ensures V().Live(k) == v.Live(k) && V().Begun(k) == v.Begun(k)
      {
        MoreLocal(v, V(), clock.now, cfg, k);
      }
      forall k: Kind
        ensures V().Running(k, clock.now) == v.Running(k, clock.now)
      {
        assert V().Live(k) == v.Live(k);
      }
    }

    /** Constructing the timer of a name. */
    method OpenTimer(n: string) returns (t: PTimer)
      requires Valid()
      modifies timers
      ensures Valid() && fresh(t) && t.dir == timers && t.name == n && t.Synced()
      ensures timers.files == old(timers.files)[n := Read(old(timers.files), n)]
      ensures SameInstances(old(V()), V())
    {
      ghost var v := V();
      t := new PTimer(timers, n);
      StillInv(v, V(), clock.now, cfg);
      LogSame(v, V(), log);
    }

    /** Reading whether a timer has expired lets time pass. */
    method CheckExpired(t: PTimer) returns (r: bool)
      requires Valid() && t.dir == timers && t.Synced()
      modifies clock
      ensures Valid() && t.Synced() && old(clock.now) <= clock.now
      ensures r <==> ExpiredAt(timers.files, t.name, clock.now)
      ensures forall k: Kind :: V().Running(k, clock.now) <= old(V().Running(k, clock.now))
    {
      ghost var before := clock.now;
      r := t.Expired(clock);
      Later(V(), before, clock.now, cfg);
    }

    /** `start_new` and the run of one instance, which leaves a pid file. */
    method StartInstance(k: Kind, t: PTimer, ghost others: set<string>)
      requires Valid() && t.dir == timers && t.Synced() && t.IsNew()
      requires t.name in V().Local(k) && cfg.select(t.name)
      requires V().Running(k, clock.now) <= others && |others| < Slots(cfg, k)
      modifies `pids, `log, timers, clock, t
      ensures Valid() && t.Synced() && old(clock.now) <= clock.now
      ensures t.name !in old(pids) && V() == WithStart(old(V()), t.name, clock.now, cfg.timeout)
      ensures log == old(log) + [Start(k, t.name, clock.now, cfg.timeout)] && OneStep(old(log), log, old(clock.now))
    {
      ghost var v, before := V(), clock.now;
      assert t.name !in v.pids + v.stopped;
      t.StartNew(cfg.timeout, clock);
      Later(v, before, clock.now, cfg);
      StartOne(v, k, t.name, clock.now, cfg, others);
      LogStart(v, log, k, t.name, clock.now, cfg.timeout);
      OneEvent(log, Start(k, t.name, clock.now, cfg.timeout), before);
      pids := pids + {t.name};
      log := log + [Start(k, t.name, clock.now, cfg.timeout)];
    }

    /** `_terminate_testcase` or `_terminate_cs`: acts only when the pid file exists; collecting the results may
        abort. */
    method StopInstance(k: Kind, t: PTimer) returns (ok: bool)
      requires Valid() && t.dir == timers && t.Synced() && !t.IsNew() && t.name in V().Local(k)
      requires ExpiredAt(timers.files, t.name, clock.now)
      modifies `pids, `stopped, `log
      ensures Valid()
      ensures pids == old(pids) - {t.name} && OneStep(old(log), log, clock.now)
      ensures t.name in old(pids) ==>
                V() == WithStop(old(V()), t.name) && log == old(log) + [Stop(k, t.name, clock.now)]
      ensures t.name !in old(pids) ==> V() == old(V()) && log == old(log)
      ensures V().Begun(k) == old(V().Begun(k))
    {
      ok := true;
      OneEvent(log, Stop(k, t.name, clock.now), clock.now);
      if t.name in pids {
        StopOne(V(), t.name, clock.now, cfg);
        StopBegun(V(), t.name, k);
        LogStop(V(), log, k, t.name, clock.now);
        pids := pids - {t.name};
        stopped := stopped + {t.name};
        log := log + [Stop(k, t.name, clock.now)];
        ok := *;
      }
    }

    /** `local_dedup_list_st2` and `local_dedup_list_cs_st2`: the local names the filter keeps, in listing order. */
    method SelectedNames(k: Kind) returns (names: seq<string>)
      ensures Lists(names, Selected(k))
    {
      var all := ListDir(if k.Tc? then tcs else css);
      names := [];
      for i := 0 to |all|
        invariant Distinct(names)
        invariant forall n :: n in names <==> n in all[..i] && cfg.select(n)
      {
        if cfg.select(all[i]) {
          names := names + [all[i]];
        }
      }
      assert all[..|all|] == all;
    }

    ghost function Selected(k: Kind): set<string>
      reads `tcs, `css
    {
      set n | n in (if k.Tc? then tcs else css) && cfg.select(n)
    }

    /** `not ptimer.is_new() and not ptimer.expired()` */
    method IsRunning(k: Kind, n: string) returns (running: bool)
      requires Valid() && n in Selected(k)
      modifies timers, clock
      ensures Valid() && old(clock.now) <= clock.now && SameTimers(old(timers.files), timers.files)
      ensures running ==> n in V().Running(k, clock.now)
      ensures !running && n in V().Live(k) ==> ExpiredAt(timers.files, n, clock.now)
    {
      var ptimer := OpenTimer(n);
      running := false;
      if !ptimer.IsNew() {
        var expired := CheckExpired(ptimer);
        running := !expired;
        if running {
          StartedIsLive(V(), k, n, clock.now, cfg);
        }
      }
    }

    /** The loop of `get_run_count` for one kind. The pid file it opens is always there; it aborts when the process has
        died. */
    method CountRunning(k: Kind) returns (count: nat, ok: bool, ghost counted: set<string>)
      requires Valid()
      modifies timers, clock
      ensures Valid() && old(clock.now) <= clock.now && SameInstances(old(V()), V())
      ensures ok ==> count == |counted| && counted <= old(V().Running(k, clock.now))
      ensures ok ==> OthersExpired(V(), k, counted, clock.now)
    {
      count, ok, counted := 0, true, {};
      ghost var v0, t0 := V(), clock.now;
      var names := SelectedNames(k);
      NamesEnds(names);
      var i := 0;
      while i < |names| && ok
        invariant 0 <= i <= |names| && Valid() && t0 <= clock.now && SameInstances(v0, V())
        invariant count == |counted| && Counting(v0, t0, V(), clock.now, k, Names(names[..i]), counted)
      {
        NamesStep(names, i);
        count, ok, counted := CountNext(k, names[i], v0, t0, Names(names[..i]), counted, count);
        i := i + 1;
      }
      LiveSelected(V(), k, clock.now, cfg);
      assert ok ==> V().Live(k) <= Names(names);
    }

    method CountNext(k: Kind, n: string, ghost v0: View, ghost t0: real, ghost seen: set<string>,
                     ghost counted: set<string>, runCount: nat)
      returns (count: nat, ok: bool, ghost more: set<string>)
      requires Valid() && n in Selected(k) && n !in seen && t0 <= clock.now && SameInstances(v0, V())
      requires runCount == |counted| && Counting(v0, t0, V(), clock.now, k, seen, counted)
      modifies timers, clock
      ensures Valid() && old(clock.now) <= clock.now && SameInstances(v0, V())
      ensures count == |more| && Counting(v0, t0, V(), clock.now, k, seen + {n}, more)
    {
      count, ok, more := runCount, true, counted;
      ghost var v1, t1 := V(), clock.now;
      var running := IsRunning(k, n);
      CountStep(v0, t0, v1, t1, V(), clock.now, k, seen, counted, n, running);
      if running {
        count := count + 1;
        more := counted + {n};
        assert n in pids;  // open(pid_f)
        var alive: bool := *;
        ok := alive;
      }
    }

    /** `get_run_count` for one kind, which is logged: while it counts time passes, and each live instance that it does
        not count has expired. */
    method GetRunCount(k: Kind) returns (count: nat, ok: bool, ghost counted: set<string>)
      requires Valid()
      modifies timers, clock, `log
      ensures Valid() && old(clock.now) <= clock.now && SameInstances(old(V()), V())
      ensures log == if ok then old(log) + [Counted(k, counted, old(clock.now), clock.now)] else old(log)
      ensures ok ==> count == |counted| <= Slots(cfg, k) && counted <= old(V().Running(k, clock.now))
      ensures ok ==> OthersExpired(V(), k, counted, clock.now)
    {
      ghost var v, t0 := V(), clock.now;
      assert |v.Running(k, t0)| <= Slots(cfg, k);
      count, ok, counted := CountRunning(k);
      if ok {
        SubsetSize(counted, v.Running(k, t0));
        LogCount(V(), log, k, counted, t0, clock.now, cfg);
        log := log + [Counted(k, counted, t0, clock.now)];
      }
    }

    /** A name whose timer was started: it is terminated when its time has expired. */
    method VisitStarted(k: Kind, t: PTimer, ghost p: Progress) returns (ok: bool)
      requires Valid() && t.dir == timers && t.Synced() && !t.IsNew() && t.name in V().Local(k)
      requires Filling(p, V(), clock.now, k)
      modifies `pids, `stopped, `log, clock
      ensures Valid() && old(clock.now) <= clock.now
      ensures Filling(p.(seen := p.seen + {t.name}), V(), clock.now, k)
      ensures V().Live(Other(k)) == old(V().Live(Other(k))) && OneStep(old(log), log, old(clock.now))
      ensures V().Begun(k) == old(V().Begun(k)) && t.name in V().Begun(k)
    {
      ok := true;
      ghost var t0 := clock.now;
      var expired := CheckExpired(t);
      FillLater(p, V(), V(), t0, clock.now, k);
      if expired {
        FillStop(p, V(), clock.now, k, t.name);
        OtherKind(V(), k, t.name, clock.now, cfg);
        ok := StopInstance(k, t);
      }
    }

    /** A name never started, when a slot is free. */
    method VisitFree(k: Kind, t: PTimer, ghost p: Progress) returns (ghost q: Progress)
      requires Valid() && t.dir == timers && t.Synced() && t.IsNew() && t.name in Selected(k)
      requires Filling(p, V(), clock.now, k) && |p.Used()| < Slots(cfg, k)
      modifies `pids, `log, timers, clock, t
      ensures Valid() && old(clock.now) <= clock.now
      ensures Filling(q, V(), clock.now, k) && Follows(p, q, t.name) && |q.Used()| == |p.Used()| + 1
      ensures V().Live(Other(k)) == old(V().Live(Other(k))) && OneStep(old(log), log, old(clock.now))
      ensures Work(old(V()), V(), k, 1) && t.name in V().Begun(k)
    {
      ghost var v, t0 := V(), clock.now;
      q := p.(seen := p.seen + {t.name}, started := p.started + {t.name});
      StartInstance(k, t, p.Used());
      StartedFree(p, q, v, t0, clock.now, k, t.name, cfg);
    }

    /** A name never started: it is started when a slot is free. */
    method VisitNew(k: Kind, t: PTimer, runCount: nat, ghost p: Progress) returns (count: nat, ghost q: Progress)
      requires Valid() && t.dir == timers && t.Synced() && t.IsNew() && t.name in Selected(k)
      requires Filling(p, V(), clock.now, k) && runCount == |p.Used()| <= Slots(cfg, k)
      modifies `pids, `log, timers, clock, t
      ensures Valid() && old(clock.now) <= clock.now
      ensures Filling(q, V(), clock.now, k) && Follows(p, q, t.name) && count == |q.Used()| <= Slots(cfg, k)
      ensures V().Live(Other(k)) == old(V().Live(Other(k))) && OneStep(old(log), log, old(clock.now))
      ensures Work(old(V()), V(), k, count - runCount) && runCount <= count
      ensures count < Slots(cfg, k) ==> t.name in V().Begun(k)
    {
      if runCount < Slots(cfg, k) {
        q := VisitFree(k, t, p);
        count := runCount + 1;
      } else {
        count, q := runCount, p.(seen := p.seen + {t.name});
        FillNew(p, V(), clock.now, k, t.name, cfg);
      }
    }

    /** The body of a scheduling loop for one name. */
    method Visit(k: Kind, n: string, runCount: nat, ghost p: Progress) returns (count: nat, ok: bool, ghost q: Progress)
      requires Valid() && n in Selected(k) && Filling(p, V(), clock.now, k)
      requires runCount == |p.Used()| <= Slots(cfg, k)
      modifies `pids, `stopped, `log, timers, clock
      ensures Valid() && old(clock.now) <= clock.now
      ensures Filling(q, V(), clock.now, k) && Follows(p, q, n) && count == |q.Used()| <= Slots(cfg, k)
      ensures V().Live(Other(k)) == old(V().Live(Other(k))) && OneStep(old(log), log, old(clock.now))
      ensures Work(old(V()), V(), k, count - runCount) && runCount <= count
      ensures count < Slots(cfg, k) ==> n in V().Begun(k)
    {
      var ptimer := OpenForVisit(k, n, p);
      if ptimer.IsNew() {
        ok := true;
        count, q := VisitNew(k, ptimer, runCount, p);
      } else {
        count, q := runCount, p.(seen := p.seen + {n});
        ok := VisitStarted(k, ptimer, p);
      }
    }

    method OpenForVisit(k: Kind, n: string, ghost p: Progress) returns (t: PTimer)
      requires Valid() && Filling(p, V(), clock.now, k)
      modifies timers
      ensures Valid() && Filling(p, V(), clock.now, k) && V().Live(Other(k)) == old(V().Live(Other(k)))
      ensures fresh(t) && t.dir == timers && t.name == n && t.Synced() && V().Begun(k) == old(V().Begun(k))
    {
      ghost var v := V();
      t := OpenTimer(n);
      FillLater(p, v, V(), clock.now, clock.now, k);
    }

    method VisitNext(k: Kind, names: seq<string>, i: nat, runCount: nat, ghost p: Progress, ghost l: Loop)
      returns (count: nat, ok: bool, ghost q: Progress)
      requires Valid() && Distinct(names) && i < |names| && names[i] in Selected(k) && p.seen == Names(names[..i])
      requires Turn(p, V(), clock.now, k, runCount, Slots(cfg, k)) && LoopOk(l) && l.now <= clock.now
      requires Scheduled(l, V(), log, k, runCount, Slots(cfg, k), p.seen) && Bounds(l, p, k)
      modifies `pids, `stopped, `log, timers, clock
      ensures Valid() && old(clock.now) <= clock.now
      ensures q.live0 == p.live0 && q.counted == p.counted && q.seen == Names(names[..i + 1])
      ensures Turn(q, V(), clock.now, k, count, Slots(cfg, k))
      ensures Scheduled(l, V(), log, k, count, Slots(cfg, k), q.seen)
    {
      NamesStep(names, i);
      ghost var v1, log1, t1 := V(), log, clock.now;
      count, ok, q := Visit(k, names[i], runCount, p);
      LiveBound(q, V(), clock.now, k, count, Slots(cfg, k));
      NextScheduled(l, v1, log1, t1, V(), log, clock.now, cfg, k, runCount, count, Slots(cfg, k), p.seen, names[i]);
    }

    /** The loop began in a valid state. */
    ghost predicate LoopOk(l: Loop) {
      Inv(l.v, l.now, cfg) && Logged(l.v, l.log)
    }

    /** Its bound is what its progress allows. */
    predicate Bounds(l: Loop, p: Progress, k: Kind) {
      l.bound == |p.live0| + Slots(cfg, k) - |p.counted|
    }

    /** The scheduling loop of `resume` over a listing. */
    method ScheduleAll(k: Kind, names: seq<string>, ghost p0: Progress, ghost l: Loop, runCount: nat)
      returns (count: nat, ok: bool, ghost p: Progress)
      requires Valid() && Lists(names, Selected(k)) && p0.seen == {}
      requires LoopOk(l) && l.now <= clock.now && Bounds(l, p0, k)
      requires Turn(p0, V(), clock.now, k, runCount, Slots(cfg, k))
      requires Scheduled(l, V(), log, k, runCount, Slots(cfg, k), {})
      modifies `pids, `stopped, `log, timers, clock
      ensures Valid() && old(clock.now) <= clock.now
      ensures Turn(p, V(), clock.now, k, count, Slots(cfg, k)) && (ok ==> p.seen == Names(names))
      ensures Scheduled(l, V(), log, k, count, Slots(cfg, k), p.seen)
    {
      count, ok, p := runCount, true, p0;
      NamesEnds(names);
      var i := 0;
      while i < |names| && ok
        invariant 0 <= i <= |names| && Valid() && old(clock.now) <= clock.now && Bounds(l, p, k)
        invariant Turn(p, V(), clock.now, k, count, Slots(cfg, k)) && p.seen == Names(names[..i])
        invariant Scheduled(l, V(), log, k, count, Slots(cfg, k), p.seen)
      {
        count, ok, p := VisitNext(k, names, i, count, p, l);
        i := i + 1;
      }
    }

    /** When every name was visited, what is live fits in the slots. */
    lemma AllVisited(p: Progress, k: Kind, count: nat, names: seq<string>)
      requires Valid() && Turn(p, V(), clock.now, k, count, Slots(cfg, k))
      requires Lists(names, Selected(k)) && p.seen == Names(names)
      ensures |V().Live(k)| <= Slots(cfg, k) && p.seen == Selected(k)
    {
      LiveSelected(V(), k, clock.now, cfg);
      AllSeen(p, V(), clock.now, k);
    }

    /** The scheduling loop of `resume` for one kind, after its count: at every moment at most as many are live as
        before and the slots not counted as running, and no slot is left free while a selected name was never
        started. */
    method Schedule(k: Kind, runCount: nat, ghost counted: set<string>, ghost bound: int) returns (ok: bool)
      requires bound == |V().Live(k)| + Slots(cfg, k) - runCount
      requires Valid() && runCount == |counted| <= Slots(cfg, k) && counted <= V().Live(k)
      requires OthersExpired(V(), k, counted, clock.now)
      modifies `pids, `stopped, `log, timers, clock
      ensures Valid() && old(clock.now) <= clock.now
      ensures ok ==> |V().Live(k)| <= Slots(cfg, k)
      ensures Rise(old(log), log, k, bound) && Since(old(log), log, old(clock.now))
      ensures V().Live(Other(k)) == old(V().Live(Other(k)))
      ensures ok ==> NoneWaits(old(V()), V(), k, Slots(cfg, k) - runCount, Selected(k))
    {
      ghost var p := Progress(V().Live(k), counted, {}, {});
      ghost var l := Loop(V(), log, clock.now, runCount, bound);
      BeginTurns(p, V(), clock.now, k, cfg);
      BeginScheduled(l, cfg, k, Slots(cfg, k));
      var names := SelectedNames(k);
      var count;
      count, ok, p := ScheduleAll(k, names, p, l, runCount);
      if ok {
        AllVisited(p, k, count, names);
        EndScheduled(l, V(), log, k, count, Slots(cfg, k), Selected(k));
      }
    }

    /** Counting and scheduling one kind. The count is the next event; the other kind is left alone. */
    method ResumeKind(k: Kind) returns (ok: bool, ghost at: Option<nat>)
      requires Valid()
      modifies `pids, `stopped, `log, timers, clock
      ensures Valid() && old(clock.now) <= clock.now
      ensures KindResumed(cfg, k, old(V()), old(log), old(clock.now), V(), log, at)
      ensures ok ==> at.Some? && |V().Live(k)| <= Slots(cfg, k)
      ensures ok ==> NoneWaits(old(V()), V(), k, Slots(cfg, k) - |Found(log, at)|, Selected(k))
    {
      var runCount: nat;
      ghost var counted;
      ghost var v0, log0, t0 := V(), log, clock.now;
      runCount, ok, counted := GetRunCount(k);
      if !ok {
        at := None;
        NotCounted(cfg, k, v0, log, t0, V());
      } else {
        at := Some(|log0|);
        ok := ScheduleCounted(k, runCount, Counted(k, counted, t0, clock.now), v0, log0);
      }
    }

    method ScheduleCounted(k: Kind, runCount: nat, ghost e: Event, ghost v0: View, ghost log0: seq<Event>)
      returns (ok: bool)
      requires Valid() && e.Counted? && e.kind == k && log == log0 + [e] && e.time == clock.now && e.from <= e.time
      requires SameInstances(v0, V()) && e.ids <= v0.Running(k, e.from) && OthersExpired(V(), k, e.ids, clock.now)
      requires runCount == |e.ids| <= Slots(cfg, k)
      modifies `pids, `stopped, `log, timers, clock
      ensures Valid() && old(clock.now) <= clock.now
      ensures KindResumed(cfg, k, v0, log0, e.from, V(), log, Some(|log0|))
      ensures ok ==> |V().Live(k)| <= Slots(cfg, k)
      ensures ok ==> NoneWaits(v0, V(), k, Slots(cfg, k) - |Found(log, Some(|log0|))|, Selected(k))
    {
      ghost var v := V();
      LogTells(V(), log, k, clock.now, cfg);
      CountLive(log0, e);
      ok := Schedule(k, runCount, e.ids, |LiveAfter(log0, k)| + Slots(cfg, k) - |e.ids|);
      CountedKind(cfg, k, v0, log0, e.from, V(), log, e);
      SameBegun(v0, v, V(), k);
    }

    /** `resume`: each kind is left alone or counted and scheduled. Expired slots are not credited back, and still no
        kind ends above its slots. */
    method Resume(newTcs: set<string>, newCss: set<string>) returns (ok: bool, ghost counts: Counts)
      requires Valid() && tcs + newTcs !! css + newCss
      modifies this, timers, clock
      ensures Valid() && tcs == old(tcs) + newTcs && css == old(css) + newCss
      ensures old(clock.now) <= clock.now && Since(old(log), log, old(clock.now))
      ensures AllResumed(cfg, old(log), log, counts)
      ensures ok ==> counts.tc.Some? && |V().Live(Tc)| <= Slots(cfg, Tc)
      ensures ok && cfg.finj ==> counts.cs.Some? && |V().Live(Cs)| <= Slots(cfg, Cs)
      ensures !cfg.finj ==> counts.cs.None? && V().Live(Cs) == old(V().Live(Cs))
      ensures Found(log, counts.tc) <= old(V().Running(Tc, clock.now))
      ensures Found(log, counts.cs) <= old(V().Live(Cs))
      ensures ok ==> CoresBusy(cfg, Use(Found(log, counts.tc), old(V().Begun(Tc)), V().Begun(Tc), Selected(Tc)),
                               Use(Found(log, counts.cs), old(V().Begun(Cs)), V().Begun(Cs), Selected(Cs)))
      ensures ok && !cfg.finj ==> |V().Live(Tc)| <= cfg.cores
      ensures ok && cfg.finj && cfg.cores >= 2 ==> |V().Live(Tc)| + |V().Live(Cs)| <= cfg.cores
    {
      UpdateLocal(newTcs, newCss);
      ok, counts := ResumeLocal();
      if ok {
        SlotsFit(cfg);
      }
    }

    /** `resume` after `update_local`. */
    method ResumeLocal() returns (ok: bool, ghost counts: Counts)
      requires Valid()
      modifies `pids, `stopped, `log, timers, clock
      ensures Valid() && old(clock.now) <= clock.now && Since(old(log), log, old(clock.now))
      ensures AllResumed(cfg, old(log), log, counts)
      ensures ok ==> counts.tc.Some? && |V().Live(Tc)| <= Slots(cfg, Tc)
      ensures ok && cfg.finj ==> counts.cs.Some? && |V().Live(Cs)| <= Slots(cfg, Cs)
      ensures !cfg.finj ==> counts.cs.None? && V().Live(Cs) == old(V().Live(Cs))
      ensures Found(log, counts.tc) <= old(V().Running(Tc, clock.now)) && Found(log, counts.cs) <= old(V().Live(Cs))
      ensures ok ==> CoresBusy(cfg, Use(Found(log, counts.tc), old(V().Begun(Tc)), V().Begun(Tc), Selected(Tc)),
                               Use(Found(log, counts.cs), old(V().Begun(Cs)), V().Begun(Cs), Selected(Cs)))
    {
      ghost var log0, t0 := log, clock.now;
      counts := Counts(None, None);
      ok := ShowStatus();
      NoneResumed(cfg, log0, log);
      if ok {
        ghost var log1, t1 := log, clock.now;
        ok, counts := ResumeBoth();
        LaterResumed(cfg, log0, log1, log, counts);
        SinceThen(log0, log1, log, t0, t1);
      }
    }

    /** The scheduling loops of `resume`. */
    method ResumeBoth() returns (ok: bool, ghost counts: Counts)
      requires Valid()
      modifies `pids, `stopped, `log, timers, clock
      ensures Valid() && old(clock.now) <= clock.now && Since(old(log), log, old(clock.now))
      ensures AllResumed(cfg, old(log), log, counts)
      ensures ok ==> counts.tc.Some? && |V().Live(Tc)| <= Slots(cfg, Tc)
      ensures ok && cfg.finj ==> counts.cs.Some? && |V().Live(Cs)| <= Slots(cfg, Cs)
      ensures !cfg.finj ==> counts.cs.None? && V().Live(Cs) == old(V().Live(Cs))
      ensures Found(log, counts.tc) <= old(V().Running(Tc, clock.now)) && Found(log, counts.cs) <= old(V().Live(Cs))
      ensures ok ==> CoresBusy(cfg, Use(Found(log, counts.tc), old(V().Begun(Tc)), V().Begun(Tc), Selected(Tc)),
                               Use(Found(log, counts.cs), old(V().Begun(Cs)), V().Begun(Cs), Selected(Cs)))
    {
      ghost var v := V();
      ok, counts := ResumeKinds();
      if ok {
        BegunGrows(v, old(log), V(), log, Tc);
        BegunGrows(v, old(log), V(), log, Cs);
        KeptBusy(cfg, v, V(), Use(Found(log, counts.tc), v.Begun(Tc), V().Begun(Tc), Selected(Tc)),
                 Use(Found(log, counts.cs), v.Begun(Cs), V().Begun(Cs), Selected(Cs)));
      }
    }

    method ResumeKinds() returns (ok: bool, ghost counts: Counts)
      requires Valid()
      modifies `pids, `stopped, `log, timers, clock
      ensures Valid() && old(clock.now) <= clock.now && Since(old(log), log, old(clock.now))
      ensures AllResumed(cfg, old(log), log, counts)
      ensures ok ==> counts.tc.Some? && |V().Live(Tc)| <= Slots(cfg, Tc)
      ensures ok && cfg.finj ==> counts.cs.Some? && |V().Live(Cs)| <= Slots(cfg, Cs)
      ensures !cfg.finj ==> counts.cs.None? && V().Live(Cs) == old(V().Live(Cs))
      ensures Found(log, counts.tc) <= old(V().Running(Tc, clock.now)) && Found(log, counts.cs) <= old(V().Live(Cs))
      ensures ok ==> NoneWaits(old(V()), V(), Tc, Slots(cfg, Tc) - |Found(log, counts.tc)|, Selected(Tc))
      ensures ok && cfg.finj ==> NoneWaits(old(V()), V(), Cs, Slots(cfg, Cs) - |Found(log, counts.cs)|, Selected(Cs))
    {
      ghost var v, log0, t0 := V(), log, clock.now;
      ghost var tc;
      ok, tc := ResumeKind(Tc);
      counts := Counts(tc, None);
      TcResumed(cfg, log0, log, tc);
      if ok && cfg.finj {
        ghost var cs;
        ok, cs := ResumeCrashSites(v, log0, t0, tc);
        counts := Counts(tc, cs);
      }
    }

    /** The second loop, after that for testcases. */
    method ResumeCrashSites(ghost v: View, ghost log0: seq<Event>, ghost t0: real, ghost tc: Option<nat>)
      returns (ok: bool, ghost cs: Option<nat>)
      requires Valid() && Logged(v, log0) && v.tcs == tcs && v.css == css && v.Live(Cs) == V().Live(Cs)
      requires AllResumed(cfg, log0, log, Counts(tc, None)) && Since(log0, log, t0) && t0 <= clock.now
      requires |V().Live(Tc)| <= Slots(cfg, Tc) && tc.Some? && tc.value < |log|
      requires NoneWaits(v, V(), Tc, Slots(cfg, Tc) - |Found(log, tc)|, Selected(Tc))
      modifies `pids, `stopped, `log, timers, clock
      ensures Valid() && old(clock.now) <= clock.now && Since(log0, log, t0)
      ensures AllResumed(cfg, log0, log, Counts(tc, cs)) && Found(log, tc) == old(Found(log, tc))
      ensures |V().Live(Tc)| <= Slots(cfg, Tc) && Found(log, cs) <= v.Live(Cs)
      ensures NoneWaits(v, V(), Tc, Slots(cfg, Tc) - |Found(log, tc)|, Selected(Tc))
      ensures ok ==> cs.Some? && |V().Live(Cs)| <= Slots(cfg, Cs)
      ensures ok ==> NoneWaits(v, V(), Cs, Slots(cfg, Cs) - |Found(log, cs)|, Selected(Cs))
    {
      ghost var w, log1, t1 := V(), log, clock.now;
      ok, cs := ResumeKind(Cs);
      BothResumed(cfg, log0, log1, log, tc, cs);
      SinceThen(log0, log1, log, t0, t1);
      BegunGrows(v, log0, w, log1, Cs);
      BegunGrows(w, log1, V(), log, Tc);
      BegunGrows(w, log1, V(), log, Cs);
      WaitsMore(v, w, V(), Tc, Slots(cfg, Tc) - |Found(log, tc)|, Selected(Tc));
      if ok {
        WaitsFrom(v, w, V(), Cs, Slots(cfg, Cs) - |Found(log, cs)|, Selected(Cs));
      }
    }

    /** The status line of `resume` starts and stops nothing. */
    method ShowStatus() returns (ok: bool)
      requires Valid()
      modifies timers, clock, `log
      ensures Valid() && old(clock.now) <= clock.now
      ensures forall k: Kind :: V().Live(k) == old(V().Live(k)) && V().Begun(k) == old(V().Begun(k))
      ensures V().Running(Tc, clock.now) <= old(V().Running(Tc, clock.now))
      ensures Since(old(log), log, old(clock.now)) && forall k: Kind :: Steady(old(log), log, k)
    {
      ghost var v, t0 := V(), clock.now;
      ok := ReportStatus();
      SameRunning(v, V(), Tc, t0, clock.now);
    }

    /** It counts both kinds, and can abort. */
    method ReportStatus() returns (ok: bool)
      requires Valid()
      modifies timers, clock, `log
      ensures Valid() && old(clock.now) <= clock.now && SameInstances(old(V()), V())
      ensures Since(old(log), log, old(clock.now)) && forall k: Kind :: Steady(old(log), log, k)
    {
      var tcCount, csCount;
      ghost var c;
      SteadyRefl(log);
      tcCount, ok, c := StatusCount(Tc);
      if ok {
        ghost var log1, t1 := log, clock.now;
        csCount, ok, c := StatusCount(Cs);
        SteadyThen(old(log), log1, log, Tc);
        SteadyThen(old(log), log1, log, Cs);
        SinceThen(old(log), log1, log, old(clock.now), t1);
      }
    }

    /** A count for the status line. */
    method StatusCount(k: Kind) returns (count: nat, ok: bool, ghost counted: set<string>)
      requires Valid()
      modifies timers, clock, `log
      ensures Valid() && old(clock.now) <= clock.now && SameInstances(old(V()), V())
      ensures Since(old(log), log, old(clock.now)) && forall j: Kind :: Steady(old(log), log, j)
    {
      ghost var log0, t0 := log, clock.now;
      SteadyRefl(log);
      count, ok, counted := GetRunCount(k);
      if ok {
        CountLive(log0, Counted(k, counted, t0, clock.now));
      }
    }

    /** A name is done when its timer was started and has expired. */
    method IsDone(n: string) returns (done: bool)
      requires Valid()
      modifies timers, clock
      ensures Valid() && old(clock.now) <= clock.now && SameInstances(old(V()), V())
      ensures done <==> Done(timers.files, n, clock.now)
    {
      var ptimer := OpenTimer(n);
      done := false;
      if !ptimer.IsNew() {
        done := CheckExpired(ptimer);
      }
    }

    /** `completed`: every local testcase, filtered out or not, has been started and has expired. */
    method Completed() returns (r: bool)
      requires Valid()
      modifies timers, clock
      ensures Valid() && old(clock.now) <= clock.now && SameInstances(old(V()), V())
      ensures r ==> forall n | n in tcs :: Done(timers.files, n, clock.now)
      ensures !r ==> exists n | n in tcs :: !Done(old(timers.files), n, old(clock.now))
    {
      var names := ListDir(tcs);
      r := true;
      var i := 0;
      while i < |names| && r
        invariant 0 <= i <= |names| && Valid() && old(clock.now) <= clock.now && SameInstances(old(V()), V())
        invariant r ==> forall j | 0 <= j < i :: Done(timers.files, names[j], clock.now)
        invariant !r ==> exists n | n in tcs :: !Done(old(timers.files), n, old(clock.now))
      {
        ghost var files, t := timers.files, clock.now;
        assert names[i] in tcs;
        r := IsDone(names[i]);
        i := i + 1;
      }
    }

    /** One name of `kill_all`. */
    method Kill(n: string) returns (ok: bool)
      requires Valid() && n in tcs
      modifies `pids, `stopped, `log, timers, clock
      ensures Valid() && old(clock.now) <= clock.now && SameTimers(old(timers.files), timers.files)
      ensures pids == old(pids) || pids == old(pids) - {n}
      ensures OneStep(old(log), log, old(clock.now))
      ensures Done(old(timers.files), n, old(clock.now)) ==> n !in pids
    {
      ok := true;
      var ptimer := OpenTimer(n);
      if !ptimer.IsNew() {
        var expired := CheckExpired(ptimer);
        if expired {
          ok := StopInstance(Tc, ptimer);
        }
      }
    }

    /** These pid files tell what the log leaves live. */
    ghost predicate LivePids(log0: seq<Event>, pids0: set<string>)
      reads this
    {
      LiveAfter(log0, Tc) == (set n | n in pids0 && n in tcs) && LiveAfter(log0, Cs) == set n | n in pids0 && n in css
    }

    /** Fewer testcases are live, and the same crash sites. */
    lemma KillRises(log0: seq<Event>, log1: seq<Event>, t: real, pids0: set<string>)
      requires Valid() && OneStep(log1, log, t) && pids <= pids0 && pids0 - tcs <= pids
      requires LivePids(log0, pids0) && Rise(log0, log1, Tc, |LiveAfter(log0, Tc)|)
      ensures Rise(log0, log, Tc, |LiveAfter(log0, Tc)|)
    {
      LogTells(V(), log, Tc, clock.now, cfg);
      LogTells(V(), log, Cs, clock.now, cfg);
      SubsetSize(V().Live(Tc), LiveAfter(log0, Tc));
      RiseStep(log0, log1, log, Tc, |LiveAfter(log0, Tc)|, t);
    }

    /** `kill_all` after `i` names. */
    ghost predicate KilledTo(names: seq<string>, i: nat, v0: View, t0: real, log0: seq<Event>)
      requires i <= |names|
      reads this, timers
    {
      && SameTimers(v0.files, timers.files) && pids <= v0.pids && v0.pids - tcs <= pids
      && LivePids(log0, v0.pids) && Rise(log0, log, Tc, |LiveAfter(log0, Tc)|)
      && forall j | 0 <= j < i && Done(v0.files, names[j], t0) :: names[j] !in pids
    }

    method KillNext(names: seq<string>, i: nat, ghost v0: View, ghost t0: real, ghost log0: seq<Event>)
      returns (ok: bool)
      requires Valid() && i < |names| && names[i] in tcs && t0 <= clock.now && KilledTo(names, i, v0, t0, log0)
      modifies `pids, `stopped, `log, timers, clock
      ensures Valid() && old(clock.now) <= clock.now && KilledTo(names, i + 1, v0, t0, log0)
    {
      ghost var log1, t1 := log, clock.now;
      ok := Kill(names[i]);
      KillRises(log0, log1, t1, v0.pids);
    }

    lemma KillBegins()
      requires Valid()
      ensures LivePids(log, pids) && Rise(log, log, Tc, |LiveAfter(log, Tc)|)
    {
      LogTells(V(), log, Tc, clock.now, cfg);
      LogTells(V(), log, Cs, clock.now, cfg);
      NoRise(log, Tc, |LiveAfter(log, Tc)|);
    }

    /** `kill_all`: afterwards no testcase that was done still has a pid file; on the way none is started. */
    method KillAll() returns (ok: bool)
      requires Valid()
      modifies `pids, `stopped, `log, timers, clock
      ensures Valid() && old(clock.now) <= clock.now && SameTimers(old(timers.files), timers.files)
      ensures pids <= old(pids) && old(pids) - tcs <= pids
      ensures Rise(old(log), log, Tc, |LiveAfter(old(log), Tc)|)
      ensures ok ==> forall n | n in tcs && Done(old(timers.files), n, old(clock.now)) :: n !in pids
    {
      var names := ListDir(tcs);
      KillBegins();
      ghost var v0, t0, log0 := V(), clock.now, log;
      ok := true;
      var i := 0;
      while i < |names| && ok
        invariant 0 <= i <= |names| && Valid() && t0 <= clock.now && KilledTo(names, i, v0, t0, log0)
      {
        assert names[i] in tcs;
        ok := KillNext(names, i, v0, t0, log0);
        i := i + 1;
      }
    }

    /** The end of an iteration in `run_stage2`: when `completed` holds, `terminate` leaves no live testcase. It never
        holds when the filter drops a testcase, and always when nothing is running and every testcase was started. */
    method EndIteration() returns (ended: bool, ok: bool)
      requires Valid()
      modifies `pids, `stopped, `log, timers, clock
      ensures Valid() && old(clock.now) <= clock.now
      ensures ended && ok ==> V().Live(Tc) == {}
      ensures V().Live(Cs) == old(V().Live(Cs))
      ensures ok ==> forall k: Kind :: |V().Live(k)| <= |old(V().Live(k))|
      ensures !ended ==> pids == old(pids) && stopped == old(stopped) && log == old(log) && ok
      ensures !ended ==> V().Running(Tc, clock.now) <= old(V().Running(Tc, clock.now))
      ensures Rise(old(log), log, Tc, |LiveAfter(old(log), Tc)|)
      ensures ended ==> forall n | n in tcs :: cfg.select(n)
      ensures old(V().Running(Tc, clock.now)) == {} && tcs <= old(V().Begun(Tc)) ==> ended
    {
      ended := CheckCompleted();
      if ended {
        ok := KillDone();
      } else {
        ok := true;
        NoRise(log, Tc, |LiveAfter(log, Tc)|);
      }
    }

    /** `terminate` when every testcase is done. */
    method KillDone() returns (ok: bool)
      requires Valid() && forall n | n in tcs :: Done(timers.files, n, clock.now)
      modifies `pids, `stopped, `log, timers, clock
      ensures Valid() && old(clock.now) <= clock.now
      ensures ok ==> V().Live(Tc) == {}
      ensures V().Live(Cs) == old(V().Live(Cs))
      ensures Rise(old(log), log, Tc, |LiveAfter(old(log), Tc)|)
    {
      ok := KillAll();
    }

    /** What `completed` means for the filter, and when it must hold. */
    method CheckCompleted() returns (r: bool)
      requires Valid()
      modifies timers, clock
      ensures Valid() && old(clock.now) <= clock.now && SameTimers(old(timers.files), timers.files)
      ensures V().Running(Tc, clock.now) <= old(V().Running(Tc, clock.now))
      ensures r ==> forall n | n in tcs :: Done(timers.files, n, clock.now) && cfg.select(n)
      ensures old(V().Running(Tc, clock.now)) == {} && tcs <= old(V().Begun(Tc)) ==> r
    {
      ghost var v, t0 := V(), clock.now;
      if V().Running(Tc, clock.now) == {} {
        AllDone();
      }
      r := Completed();
      SameRunning(v, V(), Tc, t0, clock.now);
      if r {
        DoneSelected();
      }
    }

    lemma AllDone()
      requires Valid() && V().Running(Tc, clock.now) == {}
      ensures forall n | n in tcs && n in V().Begun(Tc) :: Done(timers.files, n, clock.now)
    {
      forall n | n in tcs && n in V().Begun(Tc)
        ensures Done(timers.files, n, clock.now)
      {
        BegunDone(V(), clock.now, cfg, n);
      }
    }

    lemma DoneSelected()
      requires Valid() && forall n | n in tcs :: Done(timers.files, n, clock.now)
      ensures forall n | n in tcs :: cfg.select(n)
    {
      forall n | n in tcs
        ensures cfg.select(n)
      {
        assert n in timers.files && n in V().pids + V().stopped;
      }
    }

    /** Time passes between two turns of `run_pmfuzz`; once it is more than `tc_timeout` nothing is running. */
    method Wait(d: real)
      requires Valid() && d >= 0.0
      modifies clock
      ensures Valid() && old(clock.now) <= clock.now
      ensures d > cfg.timeout ==> V().Running(Tc, clock.now) == {}
    {
      ghost var t0 := clock.now;
      clock.Sleep(d);
      Later(V(), t0, clock.now, cfg);
      if d > cfg.timeout {
        WaitExpires(V(), t0, clock.now, cfg, Tc);
      }
    }

    /** One iteration of stage 2 under `run_stage2`: as long as `completed` does not hold, `resume`, each time with what
        `update_local` brings. After every `resume` the live instances of each kind fit in their slots; `passes` tells
        what was counted and what was live at every moment of each `resume`, and when the iteration ends no testcase is
        live. It never ends when the filter drops a testcase. When it keeps them all, and more than `tc_timeout` passes
        between two turns, it ends within one turn more than it takes to start every testcase. */
    method RunIteration(rounds: seq<Arrivals>, ghost allTcs: set<string>, ghost allCss: set<string>)
      returns (ended: bool, ok: bool, ghost passes: seq<Pass>, ghost mid: nat)
      requires Valid() && forall k: Kind :: |V().Live(k)| <= Slots(cfg, k)
      requires tcs <= allTcs && css <= allCss && allTcs !! allCss
      requires forall i | 0 <= i < |rounds| :: rounds[i].tcs <= allTcs && rounds[i].css <= allCss
      requires forall i | 0 <= i < |rounds| :: rounds[i].wait >= 0.0
      modifies this, timers, clock
      ensures Valid() && (ok ==> forall k: Kind :: |V().Live(k)| <= Slots(cfg, k))
      ensures Iterated(cfg, old(log), old(clock.now), log, clock.now, passes, mid)
      ensures forall p | p in passes :: PassBounded(cfg, log, p)
      ensures !ended ==> mid == |log| && (ok ==> |passes| == |rounds|)
      ensures ended && ok ==> V().Live(Tc) == {}
      ensures (exists n | n in old(tcs) :: !cfg.select(n)) ==> !ended
      ensures Patient(rounds, cfg, allTcs) && rounds != [] && |allTcs| <= (|rounds| - 1) * Slots(cfg, Tc) ==>
                (ok ==> ended)
    {
      ended, ok, passes, mid := false, true, [], |log|;
      BeginIterated(cfg, log, clock.now);
      var i := 0;
      while i < |rounds| && ok && !ended
        invariant 0 <= i <= |rounds| && Valid() && (ok ==> forall k: Kind :: |V().Live(k)| <= Slots(cfg, k))
        invariant old(tcs) <= tcs <= allTcs && css <= allCss
        invariant Iterated(cfg, old(log), old(clock.now), log, clock.now, passes, mid)
        invariant !ended ==> mid == |log| && (ok ==> |passes| == i)
        invariant ended && ok ==> V().Live(Tc) == {}
        invariant ended ==> forall n | n in old(tcs) :: cfg.select(n)
        invariant Patient(rounds, cfg, allTcs) && ok && !ended ==> Progressed(V(), cfg, allTcs, i)
      {
        ended, ok, passes, mid := NextRound(rounds, i, old(log), old(clock.now), passes, allTcs);
        i := i + 1;
      }
      PassesBounded(cfg, log, passes);
    }

    method NextRound(rounds: seq<Arrivals>, i: nat, ghost log0: seq<Event>, ghost from: real, ghost passes: seq<Pass>,
                     ghost allTcs: set<string>)
      returns (ended: bool, ok: bool, ghost more: seq<Pass>, ghost mid: nat)
      requires i < |rounds| && rounds[i].wait >= 0.0 && tcs <= allTcs && rounds[i].tcs <= allTcs
      requires Valid() && (forall k: Kind :: |V().Live(k)| <= Slots(cfg, k))
      requires tcs + rounds[i].tcs !! css + rounds[i].css
      requires Iterated(cfg, log0, from, log, clock.now, passes, |log|)
      requires Patient(rounds, cfg, allTcs) ==> Progressed(V(), cfg, allTcs, i)
      modifies this, timers, clock
      ensures Valid() && (ok ==> forall k: Kind :: |V().Live(k)| <= Slots(cfg, k))
      ensures old(tcs) <= tcs <= old(tcs) + rounds[i].tcs && css <= old(css) + rounds[i].css
      ensures Iterated(cfg, log0, from, log, clock.now, more, mid)
      ensures ended ==> forall n | n in old(tcs) :: cfg.select(n)
      ensures !ended ==> mid == |log| && |more| == |passes| + 1
      ensures ended && ok ==> V().Live(Tc) == {}
      ensures Patient(rounds, cfg, allTcs) && ok && !ended ==> Progressed(V(), cfg, allTcs, i + 1)
    {
      ghost var v, t1 := V(), clock.now;
      Wait(rounds[i].wait);
      IteratedLater(cfg, log0, from, log, t1, clock.now, passes);
      ended, ok, more := Round(rounds[i], log0, from, passes);
      mid := if ended then |old(log)| else |log|;
      if Patient(rounds, cfg, allTcs) && ok && !ended {
        NextProgressed(v, V(), cfg, allTcs, i);
      }
    }

    /** One turn of `run_stage2`: the iteration ends, or `resume`. */
    method Round(a: Arrivals, ghost log0: seq<Event>, ghost from: real, ghost passes: seq<Pass>)
      returns (ended: bool, ok: bool, ghost more: seq<Pass>)
      requires Valid() && (forall k: Kind :: |V().Live(k)| <= Slots(cfg, k)) && tcs + a.tcs !! css + a.css
      requires Iterated(cfg, log0, from, log, clock.now, passes, |log|)
      modifies this, timers, clock
      ensures Valid() && (ok ==> forall k: Kind :: |V().Live(k)| <= Slots(cfg, k))
      ensures old(tcs) <= tcs <= old(tcs) + a.tcs && css <= old(css) + a.css
      ensures ended ==> more == passes && Iterated(cfg, log0, from, log, clock.now, passes, |old(log)|)
      ensures !ended ==> |more| == |passes| + 1 && Iterated(cfg, log0, from, log, clock.now, more, |log|)
      ensures ended && ok ==> V().Live(Tc) == {}
      ensures ended ==> forall n | n in old(tcs) :: cfg.select(n)
      ensures !ended && ok && old(V().Running(Tc, clock.now)) == {} ==>
                !(old(tcs) <= old(V().Begun(Tc))) && NoneWaits(old(V()), V(), Tc, Slots(cfg, Tc), Selected(Tc))
    {
      more := passes;
      ghost var log1, t1 := log, clock.now;
      ended, ok := EndIteration();
      if ended {
        EndIterated(cfg, log0, from, log1, log, t1, clock.now, passes);
      } else {
        ok, more := ResumeRound(a, old(V()), log0, from, t1, passes);
      }
    }

    method ResumeRound(a: Arrivals, ghost v0: View, ghost log0: seq<Event>, ghost from: real, ghost t1: real,
                       ghost passes: seq<Pass>)
      returns (ok: bool, ghost more: seq<Pass>)
      requires Valid() && (forall k: Kind :: |V().Live(k)| <= Slots(cfg, k)) && tcs + a.tcs !! css + a.css
      requires Iterated(cfg, log0, from, log, t1, passes, |log|) && t1 <= clock.now
      requires v0.Begun(Tc) == V().Begun(Tc)
      modifies this, timers, clock
      ensures Valid() && (ok ==> forall k: Kind :: |V().Live(k)| <= Slots(cfg, k))
      ensures tcs == old(tcs) + a.tcs && css == old(css) + a.css
      ensures |more| == |passes| + 1 && Iterated(cfg, log0, from, log, clock.now, more, |log|)
      ensures ok && old(V().Running(Tc, clock.now)) == {} ==> NoneWaits(v0, V(), Tc, Slots(cfg, Tc), Selected(Tc))
    {
      ghost var counts;
      ghost var log1, t := log, clock.now;
      FitsAfter();
      IteratedLater(cfg, log0, from, log, t1, clock.now, passes);
      ok, counts := ResumeFilled(a, v0);
      ghost var p := Pass(|log1|, |log|, t, clock.now, counts);
      NextIterated(cfg, log0, from, log1, log, passes, p);
      more := passes + [p];
    }

    /** A `resume` that finds no testcase running fills all their slots. */
    method ResumeFilled(a: Arrivals, ghost v0: View) returns (ok: bool, ghost counts: Counts)
      requires Valid() && (forall k: Kind :: |V().Live(k)| <= Slots(cfg, k)) && tcs + a.tcs !! css + a.css
      requires v0.Begun(Tc) == V().Begun(Tc)
      modifies this, timers, clock
      ensures Valid() && (ok ==> forall k: Kind :: |V().Live(k)| <= Slots(cfg, k))
      ensures tcs == old(tcs) + a.tcs && css == old(css) + a.css
      ensures old(clock.now) <= clock.now && Since(old(log), log, old(clock.now))
      ensures AllResumed(cfg, old(log), log, counts)
      ensures ok && old(V().Running(Tc, clock.now)) == {} ==> NoneWaits(v0, V(), Tc, Slots(cfg, Tc), Selected(Tc))
    {
      ok, counts := Resume(a.tcs, a.css);
      if ok && old(V().Running(Tc, clock.now)) == {} {
        BusyWaits(cfg, v0, V(), Use({}, v0.Begun(Tc), V().Begun(Tc), Selected(Tc)),
                  Use(Found(log, counts.cs), old(V().Begun(Cs)), V().Begun(Cs), Selected(Cs)));
      }
    }

    lemma FitsAfter()
      requires Valid() && forall k: Kind :: |V().Live(k)| <= Slots(cfg, k)
      ensures forall k: Kind :: |LiveAfter(log, k)| <= Slots(cfg, k)
    {
      LogTells(V(), log, Tc, clock.now, cfg);
      LogTells(V(), log, Cs, clock.now, cfg);
    }
  }
}
