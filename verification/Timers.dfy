/** The clock, and the persistent timers of src/pmfuzz/helper/ptimer.py. */
module Timers {

  /** `time.time()`: it never goes back, and may advance between any two readings. */
  class Clock {
    var now: real

    constructor ()
      ensures now > 0.0
    {
      now := 1.0;
    }

    method Time() returns (t: real)
      requires now > 0.0
      modifies this
      ensures old(now) <= now == t
    {
      var elapsed: real :| elapsed >= 0.0;
      now := now + elapsed;
      t := now;
    }

    /** `time.sleep`, and whatever else takes time between two operations. */
    method Sleep(d: real)
      requires d >= 0.0
      modifies this
      ensures now >= old(now) + d
    {
      var more: real :| more >= 0.0;
      now := now + d + more;
    }
  }

  datatype Timer = Timer(start: real, length: real)

  /** The timer files of a directory, by name prefix. */
  class TimerDir {
    var files: map<string, Timer>

    constructor ()
      ensures files == map[]
    {
      files := map[];
    }
  }

  function Read(files: map<string, Timer>, name: string): Timer {
    if name in files then files[name] else Timer(0.0, 0.0)
  }

  predicate Started(files: map<string, Timer>, name: string) {
    Read(files, name).start != 0.0
  }

  predicate ExpiredAt(files: map<string, Timer>, name: string, now: real) {
    now - Read(files, name).start > Read(files, name).length
  }

  class PTimer {
    const dir: TimerDir
    const name: string
    var state: Timer

    /** The object in memory and the file on disk agree. */
    ghost predicate Synced()
      reads this, dir
    {
      name in dir.files && dir.files[name] == state
    }

    /** Reads the file when there is one, and writes it back. */
    constructor (dir: TimerDir, name: string)
      modifies dir
      ensures this.dir == dir && this.name == name && Synced()
      ensures dir.files == old(dir.files)[name := Read(old(dir.files), name)]
      ensures state == if name in old(dir.files) then old(dir.files)[name] else Timer(0.0, 0.0)
    {
      this.dir := dir;
      this.name := name;
      state := Timer(0.0, 0.0);
      new;
      if name in dir.files {
        state := dir.files[name];
      }
      Sync();
    }

    /** `_sync` */
    method Sync()
      modifies dir
      ensures Synced() && dir.files == old(dir.files)[name := state]
    {
      dir.files := dir.files[name := state];
    }

    method Set(length: real)
      requires Synced()
      modifies this, dir
      ensures Synced() && state == Timer(old(state.start), length) && dir.files == old(dir.files)[name := state]
    {
      state := state.(length := length);
      Sync();
    }

    method Start(clock: Clock)
      requires Synced() && clock.now > 0.0
      modifies this, dir, clock
      ensures Synced() && state == Timer(clock.now, old(state.length)) && dir.files == old(dir.files)[name := state]
      ensures old(clock.now) <= clock.now
    {
      var t := clock.Time();
      state := state.(start := t);
      Sync();
    }

    method Clear()
      requires Synced()
      modifies this, dir
      ensures Synced() && state == Timer(0.0, 0.0) && dir.files == old(dir.files)[name := state]
    {
      state := Timer(0.0, 0.0);
      Sync();
    }

    /** `start_new`: whatever the timer was, it now runs from the present with the new length. */
    method StartNew(length: real, clock: Clock)
      requires Synced() && clock.now > 0.0
      modifies this, dir, clock
      ensures Synced() && state == Timer(clock.now, length) && dir.files == old(dir.files)[name := state]
      ensures old(clock.now) <= clock.now && !IsNew() && Started(dir.files, name)
    {
      Clear();
      Set(length);
      Start(clock);
    }

    method Expired(clock: Clock) returns (r: bool)
      requires clock.now > 0.0 && Synced()
      modifies clock
      ensures old(clock.now) <= clock.now && (r <==> ExpiredAt(dir.files, name, clock.now))
      ensures r <==> clock.now > state.start + state.length
    {
      var t := clock.Time();
      r := t - state.start > state.length;
    }

    /** Never started, or reset. */
    predicate IsNew()
      reads this
    {
      state.start == 0.0
    }
  }
}
