/**
 * The liveness heartbeat (lib/Heartbeat.js). Each heartbeat tick draws one
 * value from a countdown generator. Only a tick on which the countdown is
 * done decides anything: a failed check then marks the process offline and
 * leaves the countdown done, a passed check restarts it. Every other tick
 * marks the process online whatever its check said.
 */
module Heartbeat {
  import opened Bounds

  /** How many values a countdown yields before it is done. */
  const MAX_FAILURES: nat := 3

  /**
   * The countdown generator is described by its loop variable `i`: a fresh one
   * has `i == MAX_FAILURES`, and a finished one has `i == -1`.
   * A call to `next()` on it reports `done` iff `i <= 0`.
   */
  predicate Exhausted(i: int) {
    i <= 0
  }

  /** The loop variable after one more call to `next()`; a finished generator stays finished. */
  function Advance(i: int): int {
    if i < 0 then i else i - 1
  }

  /** The values a countdown yields from loop variable `i` on. */
  function Yields(i: int): (ys: seq<int>)
    ensures |ys| == Max0(i)
    ensures forall k :: 0 <= k < |ys| ==> ys[k] == i - 1 - k
    decreases Max0(i)
  {
    if i <= 0 then [] else [i - 1] + Yields(i - 1)
  }

  /** The `done` flags of `calls` successive calls to `next()` from loop variable `i`. */
  function DoneFlags(i: int, calls: nat): (flags: seq<bool>)
    ensures |flags| == calls
    decreases calls
  {
    if calls == 0 then [] else [Exhausted(i)] + DoneFlags(Advance(i), calls - 1)
  }

  /** Call number `j` (from 0) reports `done` iff `j` is at least the number of values left. */
  lemma {:induction false} CountdownCadence(i: int, calls: nat)
    ensures forall j :: 0 <= j < calls ==> DoneFlags(i, calls)[j] == (j >= Max0(i))
    decreases calls
  {
    if calls > 0 {
      CountdownCadence(Advance(i), calls - 1);
      var flags := DoneFlags(i, calls);
      forall j | 0 <= j < calls
        ensures flags[j] == (j >= Max0(i))
      {
        if j > 0 {
          assert flags[j] == DoneFlags(Advance(i), calls - 1)[j - 1];
        }
      }
    }
  }

  /** A fresh countdown yields 2, 1, 0 and is done from the fourth call on. */
  lemma FreshCountdown()
    ensures Yields(MAX_FAILURES) == [2, 1, 0]
    ensures DoneFlags(MAX_FAILURES, MAX_FAILURES + 2) == [false, false, false, true, true]
  {
    CountdownCadence(MAX_FAILURES, MAX_FAILURES + 2);
  }

  /** The countdown generator `countdown()`. */
  class Countdown {
    /** The generator's loop variable. */
    var i: int

    ghost predicate Valid()
      reads this
    {
      -1 <= i <= MAX_FAILURES
    }

    constructor ()
      ensures Valid() && i == MAX_FAILURES
    {
      i := MAX_FAILURES;
    }

    /** `next()`: tests `i--`; a non-zero test yields the decremented `i`, a zero test ends the generator. */
    method Next() returns (value: int, done: bool)
      requires Valid()
      modifies this
      ensures Valid()
      ensures done == Exhausted(old(i)) && i == Advance(old(i))
      ensures !done ==> |Yields(old(i))| > 0 && value == Yields(old(i))[0]
    {
      if i < 0 {
        // the generator has already returned
        value, done := 0, true;
      } else {
        var test := i;
        i := i - 1;
        if test == 0 {
          value, done := 0, true;
        } else {
          value, done := i, false;
        }
      }
    }
  }

  /** The heartbeat state: the countdown's loop variable and the two flags. */
  datatype Pulse = Pulse(countdown: int, online: bool, offline: bool)

  /** The state when construction ends: a fresh countdown, online. */
  const Initial: Pulse := Pulse(MAX_FAILURES, true, false)

  /** What every tick keeps: the flags disagree, and offline only with a finished countdown. */
  ghost predicate Consistent(p: Pulse) {
    && -1 <= p.countdown <= MAX_FAILURES
    && p.online == !p.offline
    && (p.offline ==> p.countdown == -1)
  }

  /** The next tick is a decision tick: its `next()` will report `done`. */
  predicate Decides(p: Pulse) {
    Exhausted(p.countdown)
  }

  /** One heartbeat tick whose check failed iff `err`. */
  function Step(p: Pulse, err: bool): (q: Pulse)
    ensures q.online == !q.offline
    ensures q.offline ==> err && Decides(p)
    ensures Decides(p) && !err ==> q.countdown == MAX_FAILURES
    ensures !Decides(p) ==> q.countdown == p.countdown - 1
  {
    var finished := Exhausted(p.countdown);
    var rest := Advance(p.countdown);
    if err && finished then Pulse(rest, false, true)
    else if finished then Pulse(MAX_FAILURES, true, false)
    else Pulse(rest, true, false)
  }

  /** The tick rule: offline exactly after a failed decision tick; offline means the next tick decides. */
  lemma StepRule(p: Pulse, err: bool)
    requires Consistent(p)
    ensures Consistent(Step(p, err))
    ensures Step(p, err).offline <==> err && Decides(p)
    ensures !Decides(p) ==> Step(p, err) == Pulse(p.countdown - 1, true, false)
    ensures Decides(p) && !err ==> Step(p, err) == Pulse(MAX_FAILURES, true, false)
    ensures Decides(p) && err ==> Decides(Step(p, err))
    ensures p.offline ==> Decides(p)
    ensures p.offline && !err ==> Step(p, err).online
  {
  }

  /** The state after ticks whose checks failed as `errs` says. */
  function Run(p: Pulse, errs: seq<bool>): Pulse
    decreases |errs|
  {
    if errs == [] then p else Run(Step(p, errs[0]), errs[1..])
  }

  /** The state after each of the ticks. */
  function Trace(p: Pulse, errs: seq<bool>): (states: seq<Pulse>)
    ensures |states| == |errs|
    decreases |errs|
  {
    if errs == [] then [] else [Step(p, errs[0])] + Trace(Step(p, errs[0]), errs[1..])
  }

  /** Whether each of the ticks was a decision tick. */
  function Decisions(p: Pulse, errs: seq<bool>): (flags: seq<bool>)
    ensures |flags| == |errs|
    decreases |errs|
  {
    if errs == [] then [] else [Decides(p)] + Decisions(Step(p, errs[0]), errs[1..])
  }

  /** From construction, four failing ticks leave the process online, online, online, then offline. */
  lemma FourFailuresFromStart()
    ensures var states := Trace(Initial, [true, true, true, true]);
            states[0].online && states[1].online && states[2].online && states[3].offline
  {
  }

  /**
   * Until the countdown is done, ticks decide nothing: failures before the
   * decision tick are not accumulated, the process stays online, and the next
   * decision tick is the one after the countdown's remaining values.
   */
  lemma {:induction false} TicksBeforeDecision(p: Pulse, errs: seq<bool>)
    requires Consistent(p) && p.countdown >= 0
    requires |errs| <= p.countdown + 1
    ensures forall k :: 0 <= k < |errs| ==> Decisions(p, errs)[k] == (k == p.countdown)
    ensures forall k :: 0 <= k < |errs| && k < p.countdown ==> Trace(p, errs)[k] == Pulse(p.countdown - 1 - k, true, false)
    decreases |errs|
  {
    if errs != [] {
      var q := Step(p, errs[0]);
      if p.countdown > 0 {
        TicksBeforeDecision(q, errs[1..]);
        forall k | 0 <= k < |errs|
          ensures Decisions(p, errs)[k] == (k == p.countdown)
          ensures k < p.countdown ==> Trace(p, errs)[k] == Pulse(p.countdown - 1 - k, true, false)
        {
          if k > 0 {
            assert Decisions(p, errs)[k] == Decisions(q, errs[1..])[k - 1];
            assert Trace(p, errs)[k] == Trace(q, errs[1..])[k - 1];
          }
        }
      }
    }
  }

  /** After a passed decision tick restarts the countdown, the next decision is `MAX_FAILURES + 1` ticks on. */
  lemma ResetCadence(p: Pulse, errs: seq<bool>)
    requires Consistent(p) && Decides(p)
    requires |errs| == MAX_FAILURES + 1
    ensures Decisions(Step(p, false), errs) == [false, false, false, true]
    ensures forall k :: 0 <= k < MAX_FAILURES ==> Trace(Step(p, false), errs)[k].online
  {
    TicksBeforeDecision(Initial, errs);
  }

  /** The process cannot be offline before `MAX_FAILURES + 1` ticks have passed since construction. */
  lemma {:induction false} OfflineNeedsMoreThanMaxTicks(errs: seq<bool>)
    requires |errs| > 0 && Trace(Initial, errs)[|errs| - 1].offline
    ensures |errs| > MAX_FAILURES
  {
    if |errs| <= MAX_FAILURES {
      TicksBeforeDecision(Initial, errs);
    }
  }

  /** `MAX_FAILURES + 1` failing ticks in a row always end offline, wherever the countdown stood. */
  lemma {:induction false} SustainedFailureTrips(p: Pulse, errs: seq<bool>)
    requires Consistent(p)
    requires |errs| > Max0(p.countdown)
    requires forall k :: 0 <= k < |errs| ==> errs[k]
    ensures Run(p, errs).offline
    decreases |errs|
  {
    var q := Step(p, errs[0]);
    if |errs| > 1 {
      SustainedFailureTrips(q, errs[1..]);
    }
  }

  /** The heartbeat object: its countdown and its two flags. */
  class Heartbeat {
    var counter: Countdown
    var online: bool
    var offline: bool

    ghost function State(): Pulse
      reads this, counter
    {
      Pulse(counter.i, online, offline)
    }

    ghost predicate Valid()
      reads this, counter
    {
      counter.Valid() && Consistent(State())
    }

    /** Construction ends by marking the process online. */
    constructor ()
      ensures Valid() && State() == Initial && fresh(counter)
    {
      counter := new Countdown();
      new;
      SetOnline();
    }

    /** `online()`. */
    method SetOnline()
      modifies this
      ensures online && !offline && counter == old(counter)
    {
      online := true;
      offline := false;
    }

    /** `offline()`. */
    method SetOffline()
      modifies this
      ensures !online && offline && counter == old(counter)
    {
      online := false;
      offline := true;
    }

    /** The heartbeat callback, with `err` telling whether the reachability check failed. */
    method Tick(err: bool)
      requires Valid()
      modifies this, counter
      ensures Valid() && State() == Step(old(State()), err)
      ensures counter == old(counter) || fresh(counter)
    {
      var value, finished := counter.Next();
      if err && finished {
        SetOffline();
        return;
      }
      if finished {
        counter := new Countdown();
      }
      SetOnline();
    }
  }
}
