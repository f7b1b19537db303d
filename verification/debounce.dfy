/**
 * `debounce`: a single pending-run slot. Each call cancels the pending run
 * and schedules a new one `wait` time units later with the call's
 * arguments; time is a logical clock supplied by the caller.
 */
module Debounce {
  import opened Wrappers

  /** A scheduled run: the time it is due and the arguments it will run with. */
  datatype Timer<A> = Timer(due: int, args: A)

  /**
   * The clock reaching `now`: a timer that is due runs and leaves the slot
   * empty; otherwise nothing runs and the slot is kept.
   */
  function Expire<A>(timer: Option<Timer<A>>, now: int): (Option<Timer<A>>, Option<A>) {
    if timer.Some? && timer.value.due <= now then (None, Some(timer.value.args)) else (timer, None)
  }

  class Debouncer<A> {
    const wait: nat
    var timer: Option<Timer<A>>

    constructor (wait: nat)
      ensures this.wait == wait && timer == None
    {
      this.wait := wait;
      timer := None;
    }

    /** The debounced function is called: drop the pending run and schedule this one. */
    method Call(now: int, args: A)
      modifies this
      ensures timer == Some(Timer(now + wait, args))
    {
      timer := Some(Timer(now + wait, args));
    }

    /** The clock reaches `now`; `run` holds the arguments of the run that fires, if any. */
    method Elapse(now: int) returns (run: Option<A>)
      modifies this
      ensures (timer, run) == Expire(old(timer), now)
      ensures run.Some? <==> old(timer).Some? && old(timer).value.due <= now
      ensures run.Some? ==> run.value == old(timer).value.args && timer == None
    {
      if timer.Some? && timer.value.due <= now {
        run := Some(timer.value.args);
        timer := None;
      } else {
        run := None;
      }
    }
  }

  /** Signals at non-decreasing times, each arriving before the run scheduled by the previous one is due. */
  predicate Burst<A>(wait: nat, signals: seq<(int, A)>) {
    forall i :: 0 < i < |signals| ==> signals[i - 1].0 <= signals[i].0 < signals[i - 1].0 + wait
  }

  /**
   * A sequence of calls `(time, args)` delivered to a debouncer whose slot
   * starts as `timer`: before each call the clock reaches its time. Yields
   * the final slot and the arguments of every run that fired on the way.
   */
  function Replay<A>(timer: Option<Timer<A>>, wait: nat, signals: seq<(int, A)>): (Option<Timer<A>>, seq<A>)
    decreases |signals|
  {
    if signals == [] then (timer, [])
    else
      var before := Replay(timer, wait, signals[..|signals| - 1]);
      var now, args := signals[|signals| - 1].0, signals[|signals| - 1].1;
      var fired := Expire(before.0, now);
      (Some(Timer(now + wait, args)), before.1 + (if fired.1.Some? then [fired.1.value] else []))
  }

  /**
   * Delivers a sequence of calls to `d`: before each call the clock reaches
   * its time, then the call is made. `fired` holds the arguments of every
   * run that fired on the way, so the class behaves as `Replay` describes.
   */
  method Feed<A>(d: Debouncer<A>, signals: seq<(int, A)>) returns (fired: seq<A>)
    modifies d
    ensures (d.timer, fired) == Replay(old(d.timer), d.wait, signals)
    ensures old(d.timer) == None && |signals| > 0 && Burst(d.wait, signals) ==>
      fired == [] && d.timer == Some(Timer(signals[|signals| - 1].0 + d.wait, signals[|signals| - 1].1))
  {
    fired := [];
    var i := 0;
    while i < |signals|
      invariant 0 <= i <= |signals|
      invariant (d.timer, fired) == Replay(old(d.timer), d.wait, signals[..i])
    {
      var (now, args) := signals[i];
      var run := d.Elapse(now);
      if run.Some? {
        fired := fired + [run.value];
      }
      d.Call(now, args);
      ghost var upTo := signals[..i + 1];
      assert upTo[..|upTo| - 1] == signals[..i] && upTo[|upTo| - 1] == (now, args);
      ghost var prev := Replay(old(d.timer), d.wait, signals[..i]);
      assert Replay(old(d.timer), d.wait, upTo)
          == (Some(Timer(now + d.wait, args)), prev.1 + (if run.Some? then [run.value] else []));
      assert d.timer == Some(Timer(now + d.wait, args));
      assert fired == prev.1 + (if run.Some? then [run.value] else []);
      i := i + 1;
    }
    assert signals[..i] == signals;
    if old(d.timer) == None && |signals| > 0 && Burst(d.wait, signals) {
      BurstLeavesOnePending(d.wait, signals);
    }
  }

  /** During a burst started with an empty slot nothing runs and one run, for the last call, is pending. */
  lemma {:induction false} BurstLeavesOnePending<A>(wait: nat, signals: seq<(int, A)>)
    requires |signals| > 0 && Burst(wait, signals)
    ensures Replay(None, wait, signals) == (Some(Timer(signals[|signals| - 1].0 + wait, signals[|signals| - 1].1)), [])
    decreases |signals|
  {
    if |signals| > 1 {
      var init := signals[..|signals| - 1];
      assert Burst(wait, init) by {
        forall i | 0 < i < |init| ensures init[i - 1].0 <= init[i].0 < init[i - 1].0 + wait {
          assert init[i - 1] == signals[i - 1] && init[i] == signals[i];
        }
      }
      BurstLeavesOnePending(wait, init);
      assert signals[|signals| - 2] == init[|init| - 1];
    } else {
      assert signals[..|signals| - 1] == [];
      assert Replay(None, wait, signals[..|signals| - 1]) == (None, []);
      var r := Replay(None, wait, signals);
      assert r.1 == [];
      assert r.0 == Some(Timer(signals[0].0 + wait, signals[0].1));
    }
  }

  /**
   * Debounce coalescing: however many calls a burst holds, exactly one run
   * fires once the quiet period after the last call has elapsed, with the
   * last call's arguments, and none fires before.
   */
  lemma BurstRunsOnce<A>(wait: nat, signals: seq<(int, A)>, later: int)
    requires |signals| > 0 && Burst(wait, signals)
    requires later >= signals[|signals| - 1].0
    ensures Replay(None, wait, signals).1 == []
    ensures var (rest, run) := Expire(Replay(None, wait, signals).0, later);
      if later >= signals[|signals| - 1].0 + wait
      then run == Some(signals[|signals| - 1].1) && rest == None
      else run == None && rest.Some?
  {
    BurstLeavesOnePending(wait, signals);
  }
}
