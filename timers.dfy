/** The `throttle` and `debounce` wrappers. Each wraps a callback `func` and keeps
    one piece of closed-over state: the `inThrottle` flag, or the pending
    `timeout`. Time is not modelled: a timer firing is an explicit `Expire` event,
    and each invocation of the wrapped callback is recorded, with its arguments,
    in the log `ran`. */
module Timers {
  import opened Wrappers

  /** What can happen to a wrapper: it is called with some arguments, or the
      timer it scheduled fires. */
  datatype TimerEvent<A> = Invoke(args: A) | Expire

  /** Number of timer firings in a trace. */
  function Expiries<A>(es: seq<TimerEvent<A>>): (n: nat)
    ensures n <= |es|
  {
    if es == [] then 0 else (if es[0].Expire? then 1 else 0) + Expiries(es[1..])
  }

  /** A trace made only of calls, with no timer firing. */
  predicate AllCalls<A>(es: seq<TimerEvent<A>>) {
    forall k :: 0 <= k < |es| ==> es[k].Invoke?
  }

  // ---------------------------------------------------------------------
  // throttle(func, limit)
  // ---------------------------------------------------------------------

  datatype ThrottleState<A> = ThrottleState(inThrottle: bool, ran: seq<A>)

  /** One event: a call while the flag is clear runs `func` and sets the flag (and
      schedules the timer that clears it); a call while the flag is set is
      dropped; the timer clears the flag. */
  function ThrottleStep<A>(s: ThrottleState<A>, e: TimerEvent<A>): (r: ThrottleState<A>)
    ensures r.inThrottle <==> e.Invoke?
    ensures s.ran <= r.ran && |r.ran| <= |s.ran| + 1
    ensures |r.ran| == |s.ran| + 1 <==> e.Invoke? && !s.inThrottle
    ensures |r.ran| == |s.ran| + 1 ==> r.ran[|s.ran|] == e.args
  {
    match e
    case Invoke(a) => if s.inThrottle then s else ThrottleState(true, s.ran + [a])
    case Expire => s.(inThrottle := false)
  }

  function ThrottleRun<A>(s: ThrottleState<A>, es: seq<TimerEvent<A>>): ThrottleState<A>
    decreases |es|
  {
    if es == [] then s else ThrottleRun(ThrottleStep(s, es[0]), es[1..])
  }

  /** Between two timer firings at most one call gets through, and it is the
      first call of the window, provided the window opens with the flag clear. */
  lemma {:induction false} ThrottleWindow<A>(s: ThrottleState<A>, es: seq<TimerEvent<A>>)
    requires Expiries(es) == 0
    ensures ThrottleRun(s, es).ran ==
      s.ran + (if !s.inThrottle && es != [] then [es[0].args] else [])
    ensures es != [] ==> ThrottleRun(s, es).inThrottle
    decreases |es|
  {
    if es != [] {
      var t := ThrottleStep(s, es[0]);
      assert t.inThrottle;
      ThrottleQuiet(t, es[1..]);
    }
  }

  /** With the flag set and no timer firing, every call is dropped. */
  lemma {:induction false} ThrottleQuiet<A>(s: ThrottleState<A>, es: seq<TimerEvent<A>>)
    requires s.inThrottle && Expiries(es) == 0
    ensures ThrottleRun(s, es) == s
    decreases |es|
  {
    if es != [] {
      ThrottleQuiet(ThrottleStep(s, es[0]), es[1..]);
    }
  }

  /** Over any trace, the callback runs at most once per timer firing, plus once
      if the trace starts with the flag clear; earlier runs are never undone. */
  lemma {:induction false} ThrottleRunsBounded<A>(s: ThrottleState<A>, es: seq<TimerEvent<A>>)
    ensures s.ran <= ThrottleRun(s, es).ran
    ensures |ThrottleRun(s, es).ran| - |s.ran| <= (if s.inThrottle then 0 else 1) + Expiries(es)
    decreases |es|
  {
    if es != [] {
      ThrottleRunsBounded(ThrottleStep(s, es[0]), es[1..]);
    }
  }

  /** The state a `throttle` closure keeps: the `inThrottle` flag, with the log of
      the calls that reached `func`. */
  class Throttle<A> {
    var inThrottle: bool
    var ran: seq<A>

    function State(): ThrottleState<A>
      reads this
    {
      ThrottleState(inThrottle, ran)
    }

    /** `throttle(func, limit)`: the flag starts clear (undefined). */
    constructor ()
      ensures !inThrottle && ran == []
    {
      inThrottle := false;
      ran := [];
    }

    /** The returned wrapper, called with `args`. */
    method Call(args: A) returns (ranNow: bool)
      modifies this
      ensures ranNow <==> !old(inThrottle)
      ensures inThrottle
      ensures ran == if ranNow then old(ran) + [args] else old(ran)
      ensures State() == ThrottleStep(old(State()), Invoke(args))
    {
      ranNow := !inThrottle;
      if ranNow {
        ran := ran + [args];
        inThrottle := true;
      }
    }

    /** The `setTimeout(() => inThrottle = false, limit)` callback. */
    method TimerExpired()
      modifies this
      ensures !inThrottle && ran == old(ran)
      ensures State() == ThrottleStep(old(State()), Expire)
    {
      inThrottle := false;
    }
  }

  // ---------------------------------------------------------------------
  // debounce(func, wait)
  // ---------------------------------------------------------------------

  /** `pending` is the timer in `timeout` that has not yet fired or been cleared,
      with the arguments it will pass to `func`. */
  datatype DebounceState<A> = DebounceState(pending: Option<A>, ran: seq<A>)

  /** One event: a call clears the pending timer and schedules a new one for its
      own arguments; the pending timer, when it fires, runs `func` with them. */
  function DebounceStep<A>(s: DebounceState<A>, e: TimerEvent<A>): (r: DebounceState<A>)
    ensures r.pending.Some? <==> e.Invoke?
    ensures e.Invoke? ==> r.pending.value == e.args && r.ran == s.ran
    ensures s.ran <= r.ran && |r.ran| <= |s.ran| + 1
    ensures |r.ran| == |s.ran| + 1 <==> e.Expire? && s.pending.Some?
    ensures |r.ran| == |s.ran| + 1 ==> r.ran[|s.ran|] == s.pending.value
  {
    match e
    case Invoke(a) => s.(pending := Some(a))
    case Expire =>
      match s.pending
      case None => s
      case Some(a) => DebounceState(None, s.ran + [a])
  }

  function DebounceRun<A>(s: DebounceState<A>, es: seq<TimerEvent<A>>): DebounceState<A>
    decreases |es|
  {
    if es == [] then s else DebounceRun(DebounceStep(s, es[0]), es[1..])
  }

  lemma {:induction false} DebounceRunAppend<A>(s: DebounceState<A>, xs: seq<TimerEvent<A>>, ys: seq<TimerEvent<A>>)
    ensures DebounceRun(s, xs + ys) == DebounceRun(DebounceRun(s, xs), ys)
    decreases |xs|
  {
    if xs == [] {
      assert xs + ys == ys;
    } else {
      assert (xs + ys)[1..] == xs[1..] + ys;
      DebounceRunAppend(DebounceStep(s, xs[0]), xs[1..], ys);
    }
  }

  /** A burst of calls runs nothing; it leaves one pending timer, carrying the
      arguments of the last call. */
  lemma {:induction false} DebounceBurst<A>(s: DebounceState<A>, es: seq<TimerEvent<A>>)
    requires es != [] && AllCalls(es)
    ensures DebounceRun(s, es) == DebounceState(Some(es[|es| - 1].args), s.ran)
    decreases |es|
  {
    if |es| > 1 {
      DebounceBurst(DebounceStep(s, es[0]), es[1..]);
    }
  }

  /** After a burst of calls, the timer fires `func` exactly once, with the
      arguments of the most recent call; a further firing does nothing. */
  lemma DebounceRunsLatestOnce<A>(s: DebounceState<A>, es: seq<TimerEvent<A>>)
    requires es != [] && AllCalls(es)
    ensures DebounceRun(s, es + [Expire]).ran == s.ran + [es[|es| - 1].args]
    ensures DebounceRun(s, es + [Expire, Expire]) == DebounceRun(s, es + [Expire])
  {
    DebounceBurst(s, es);
    DebounceRunAppend(s, es, [Expire]);
    DebounceRunAppend(s, es, [Expire, Expire]);
  }

  /** Over any trace, `func` runs at most once per timer firing, and earlier runs
      are never undone. */
  lemma {:induction false} DebounceRunsBounded<A>(s: DebounceState<A>, es: seq<TimerEvent<A>>)
    ensures s.ran <= DebounceRun(s, es).ran
    ensures |DebounceRun(s, es).ran| - |s.ran| <= Expiries(es)
    decreases |es|
  {
    if es != [] {
      DebounceRunsBounded(DebounceStep(s, es[0]), es[1..]);
    }
  }

  /** The state a `debounce` closure keeps: the pending `timeout`, with the log of
      the calls that reached `func`. */
  class Debounce<A> {
    var pending: Option<A>
    var ran: seq<A>

    function State(): DebounceState<A>
      reads this
    {
      DebounceState(pending, ran)
    }

    /** `debounce(func, wait)`: no timer is pending. */
    constructor ()
      ensures pending == None && ran == []
    {
      pending := None;
      ran := [];
    }

    /** `executedFunction(...args)`: `clearTimeout(timeout)`, then a new timer for `args`. */
    method Call(args: A)
      modifies this
      ensures pending == Some(args) && ran == old(ran)
      ensures State() == DebounceStep(old(State()), Invoke(args))
    {
      pending := Some(args);
    }

    /** The pending timer fires: `later` clears it and runs `func` with its arguments. */
    method TimerExpired()
      modifies this
      ensures pending == None
      ensures ran == match old(pending) case None => old(ran) case Some(a) => old(ran) + [a]
      ensures State() == DebounceStep(old(State()), Expire)
    {
      match pending
      case None =>
      case Some(a) =>
        pending := None;
        ran := ran + [a];
    }
  }
}
