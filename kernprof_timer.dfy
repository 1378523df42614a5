/**
  kernprof's `RepeatedTimer`: a background timer that calls a dump function every `interval`
  seconds. Each new deadline is the previous deadline plus `interval`, never "now plus
  interval", so lateness of one firing does not push back the later ones.
  Time is an integer parameter (`now`, the value `time.time()` would return); the thread timer is
  a ghost flag `armed` with the absolute time `deadline` at which it fires.
 */
module KernprofTimer {

  /** The timer's scheduling state: `next_call` and `is_running`. */
  datatype Schedule = Schedule(nextCall: int, isRunning: bool)

  /** What can happen to a timer: it fires (`_run`), or `start`/`stop` is called. */
  datatype Event = Fire(now: int) | Start(now: int) | Stop

  /** `start`: only a stopped timer is re-armed, one interval after the previous deadline. */
  function StartStep(s: Schedule, interval: int): Schedule
  {
    if s.isRunning then s else Schedule(s.nextCall + interval, true)
  }

  /**
    The effect of one event; only an armed (running) timer can fire. The deadline either stays
    or moves on by exactly one interval, and only when the timer is (re)armed; `stop` disarms it
    and leaves the deadline alone; nothing but `stop` disarms a running timer.
   */
  function Apply(s: Schedule, interval: int, e: Event): (r: Schedule)
    ensures r.nextCall == s.nextCall || r.nextCall == s.nextCall + interval
    ensures r.nextCall != s.nextCall ==> r.isRunning
    ensures e.Stop? ==> !r.isRunning && r.nextCall == s.nextCall
    ensures s.isRunning && !e.Stop? ==> r.isRunning
  {
    match e
    case Fire(_) => if s.isRunning then StartStep(Schedule(s.nextCall, false), interval) else s
    case Start(_) => StartStep(s, interval)
    case Stop => Schedule(s.nextCall, false)
  }

  /** The effect of a sequence of events. */
  function Replay(s: Schedule, interval: int, evs: seq<Event>): Schedule
    decreases |evs|
  {
    if evs == [] then s else Replay(Apply(s, interval, evs[0]), interval, evs[1..])
  }

  /** Two events of the same kind, whatever time they happen at. */
  predicate SameKind(e1: Event, e2: Event)
  {
    (e1.Fire? && e2.Fire?) || (e1.Start? && e2.Start?) || (e1.Stop? && e2.Stop?)
  }

  /** The state just after the constructor, which records `now` and calls `start`. */
  function Initial(now: int, interval: int): Schedule
  {
    StartStep(Schedule(now, false), interval)
  }

  function Firings(times: seq<int>): (r: seq<Event>)
    ensures |r| == |times| && forall k :: 0 <= k < |r| ==> r[k] == Fire(times[k])
  {
    if times == [] then [] else [Fire(times[0])] + Firings(times[1..])
  }

  /**
    No drift: the schedule after any sequence of events depends only on the kinds of the events,
    never on the times at which they happened.
   */
  lemma {:induction false} TimesDoNotMatter(s: Schedule, interval: int, evs1: seq<Event>, evs2: seq<Event>)
    requires |evs1| == |evs2|
    requires forall k :: 0 <= k < |evs1| ==> SameKind(evs1[k], evs2[k])
    ensures Replay(s, interval, evs1) == Replay(s, interval, evs2)
    decreases |evs1|
  {
    if evs1 != [] {
      assert Apply(s, interval, evs1[0]) == Apply(s, interval, evs2[0]);
      TimesDoNotMatter(Apply(s, interval, evs1[0]), interval, evs1[1..], evs2[1..]);
    }
  }

  /** From a running schedule, `k` firings move the deadline by exactly `k` intervals. */
  lemma {:induction false} FiringsAdvance(s: Schedule, interval: int, times: seq<int>)
    requires s.isRunning
    ensures Replay(s, interval, Firings(times)) == Schedule(s.nextCall + |times| * interval, true)
    decreases |times|
  {
    if times != [] {
      var next := Schedule(s.nextCall + interval, true);
      assert Firings(times)[1..] == Firings(times[1..]);
      FiringsAdvance(next, interval, times[1..]);
    }
  }

  /**
    A timer created at `t0` whose firings happen at any times `times` has, after `k` of them,
    the deadline `t0 + (k + 1) * interval`: the k-th dump is due at `t0 + k * interval`.
   */
  lemma NoDrift(t0: int, interval: int, times: seq<int>)
    ensures Replay(Initial(t0, interval), interval, Firings(times))
            == Schedule(t0 + (|times| + 1) * interval, true)
  {
    FiringsAdvance(Initial(t0, interval), interval, times);
  }

  /** `start` on a running timer changes nothing; stop then start re-arms one interval later. */
  lemma StartIsGuarded(s: Schedule, interval: int, now: int)
    ensures s.isRunning ==> Apply(s, interval, Start(now)) == s
    ensures Replay(s, interval, [Stop, Start(now)]) == Schedule(s.nextCall + interval, true)
  {
    var stopped := Schedule(s.nextCall, false);
    assert [Stop, Start(now)][1..] == [Start(now)];
    assert Replay(s, interval, [Stop, Start(now)]) == Replay(stopped, interval, [Start(now)]);
    assert [Start(now)][1..] == [];
    assert Replay(stopped, interval, [Start(now)]) == Replay(StartStep(stopped, interval), interval, []);
  }

  /** `RepeatedTimer`. `dump_func(outfile)` calls are recorded in `dumps`. */
  class RepeatedTimer {
    const interval: int
    const outfile: string
    var nextCall: int
    var isRunning: bool
    /** The thread timer is pending. */
    ghost var armed: bool
    /** When the pending thread timer fires. */
    ghost var deadline: int
    /** The arguments of every `dump_func` call so far. */
    ghost var dumps: seq<string>

    ghost predicate Valid()
      reads this
    {
      armed == isRunning && (armed ==> deadline == nextCall)
    }

    function State(): Schedule
      reads this
    {
      Schedule(nextCall, isRunning)
    }

    /** `__init__`: records the current time and starts the timer. */
    constructor (interval: int, outfile: string, now: int)
      ensures Valid()
      ensures this.interval == interval && this.outfile == outfile
      ensures State() == Initial(now, interval) && nextCall == now + interval && isRunning
      ensures dumps == []
    {
      this.interval := interval;
      this.outfile := outfile;
      isRunning := false;
      nextCall := now;
      armed := false;
      dumps := [];
      new;
      Start(now);
    }

    /** `start`: if not running, move the deadline one interval on and arm the thread timer. */
    method Start(now: int)
      requires Valid()
      modifies this
      ensures Valid()
      ensures State() == StartStep(old(State()), interval)
      ensures old(isRunning) ==> deadline == old(deadline) && armed
      ensures !old(isRunning) ==> armed && deadline == old(nextCall) + interval
      ensures dumps == old(dumps)
    {
      if !isRunning {
        nextCall := nextCall + interval;
        var delay := nextCall - now;
        armed := true;
        deadline := now + delay;
        isRunning := true;
      }
    }

    /** `_run`, called when the armed thread timer fires: re-arm first, then dump. */
    method Run(now: int)
      requires Valid() && armed
      modifies this
      ensures Valid()
      ensures State() == Apply(old(State()), interval, Fire(now))
      ensures State() == Schedule(old(nextCall) + interval, true) && deadline == old(deadline) + interval
      ensures dumps == old(dumps) + [outfile]
    {
      armed := false;
      isRunning := false;
      Start(now);
      dumps := dumps + [outfile];
    }

    /** `stop`: cancel the thread timer. */
    method Stop()
      requires Valid()
      modifies this
      ensures Valid()
      ensures State() == Apply(old(State()), interval, Event.Stop)
      ensures !armed && nextCall == old(nextCall) && deadline == old(deadline) && dumps == old(dumps)
    {
      armed := false;
      isRunning := false;
    }
  }
}
