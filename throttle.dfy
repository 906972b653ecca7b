/** `throttle(func, limit)`: a wrapper that forwards a call to `func` only
    when its `inThrottle` flag is clear, then sets the flag and starts a timer
    that clears it once the delay `setTimeout` makes of `limit` has passed.
    Calls made while the flag is set are dropped.

    The release timer is made explicit: the gate is either open, or closed
    until a release time. A call at time `now` first lets the release timer
    fire if it is due by `now`, then meets the gate. Every timer is taken
    to fire exactly when it is due. `Ran` is the reference
    semantics over a whole sequence of timed calls; class `Throttled` is the
    closure, updated in place one call at a time. */
module Throttle {

  /** The delay `setTimeout` waits for `limit`: the number is converted to
      a signed 32-bit integer, wrapping modulo 2^32, and a negative result
      counts as zero. */
  function Delay(limit: int): (d: nat)
    ensures d < 0x8000_0000
    ensures -0x8000_0000 <= limit < 0x8000_0000 ==> d == if limit > 0 then limit else 0
  {
    var wrapped := (limit + 0x8000_0000) % 0x1_0000_0000 - 0x8000_0000;
    if wrapped > 0 then wrapped else 0
  }

  /** Limits outside the 32-bit range wrap: 2^31 becomes a negative delay,
      so the release timer fires at once, and 2^32 + 16 waits 16 ms. */
  lemma WrappedLimits()
    ensures Delay(0x8000_0000) == 0 && Delay(0x1_0000_0010) == 16 && Delay(-0x1_0000_0000 + 5) == 5
  {
  }

  /** The `inThrottle` flag together with the due time of the pending
      release timer: `Open` when the flag is clear (initially it is
      `undefined`, which is falsy), `Closed(t)` when it is set and the timer
      clears it at `t`. */
  datatype Gate = Open | Closed(releaseAt: nat)

  /** The gate a call at `now` meets: the release timer has fired if it was
      due by then. */
  function Elapse(g: Gate, now: nat): Gate {
    if g.Closed? && g.releaseAt <= now then Open else g
  }

  /** A call at `now` reaches `func`. */
  predicate Admits(g: Gate, now: nat) {
    Elapse(g, now).Open?
  }

  /** The gate after a call at `now`: a call that gets through closes it for
      the delay; a dropped call changes nothing. */
  function Admit(g: Gate, now: nat, limit: int): Gate {
    if Admits(g, now) then Closed(now + Delay(limit)) else g
  }

  /** A call of the wrapper: when it happens and what it is called with. */
  datatype Call<A> = Call(at: nat, args: A)

  /** Calls happen in order of time. */
  predicate Chronological<A>(calls: seq<Call<A>>) {
    forall i, j | 0 <= i <= j < |calls| :: calls[i].at <= calls[j].at
  }

  /** A call no earlier than the last one keeps the calls in order of time. */
  lemma ChronologicalSnoc<A>(calls: seq<Call<A>>, c: Call<A>)
    requires Chronological(calls) && (calls != [] ==> calls[|calls| - 1].at <= c.at)
    ensures Chronological(calls + [c])
  {
    var s := calls + [c];
    forall i, j | 0 <= i <= j < |s| ensures s[i].at <= s[j].at {
      if j < |calls| {
        assert s[i] == calls[i] && s[j] == calls[j];
      } else if i < |calls| {
        assert s[i] == calls[i] && calls[i].at <= calls[|calls| - 1].at;
      }
    }
  }

  function Last<A>(calls: seq<Call<A>>): Call<A>
    requires calls != []
  {
    calls[|calls| - 1]
  }

  /** The gate after the given calls, starting open. */
  function GateAfter<A>(limit: int, calls: seq<Call<A>>): Gate {
    if calls == [] then Open
    else Admit(GateAfter(limit, calls[..|calls| - 1]), Last(calls).at, limit)
  }

  /** The positions of the calls that reach `func`, in order; each position
      appears once. */
  function Ran<A>(limit: int, calls: seq<Call<A>>): (r: seq<nat>)
    ensures forall k | 0 <= k < |r| :: r[k] < |calls|
    ensures forall k, l | 0 <= k < l < |r| :: r[k] < r[l]
  {
    if calls == [] then []
    else
      var prev := calls[..|calls| - 1];
      Ran(limit, prev) + (if Admits(GateAfter(limit, prev), Last(calls).at) then [|calls| - 1] else [])
  }

  /** The arguments `func` receives, in order. */
  function Forwarded<A>(limit: int, calls: seq<Call<A>>): (f: seq<A>)
    ensures |f| == |Ran(limit, calls)|
    ensures forall k | 0 <= k < |f| :: f[k] == calls[Ran(limit, calls)[k]].args
  {
    var r := Ran(limit, calls);
    seq(|r|, k requires 0 <= k < |r| => calls[r[k]].args)
  }

  /** One more call: the gate, the positions that ran and the forwarded
      arguments all extend by that call alone. */
  lemma CallStep<A>(limit: int, calls: seq<Call<A>>, c: Call<A>)
    ensures var g := GateAfter(limit, calls);
      var ran := Admits(g, c.at);
      && GateAfter(limit, calls + [c]) == Admit(g, c.at, limit)
      && Ran(limit, calls + [c]) == Ran(limit, calls) + (if ran then [|calls|] else [])
      && Forwarded(limit, calls + [c]) == Forwarded(limit, calls) + (if ran then [c.args] else [])
      && |calls| !in Ran(limit, calls)
  {
    assert (calls + [c])[..|calls|] == calls;
  }

  /** The gate is open until the first call gets through, and from then on
      closed until the delay after the last call that got through. */
  lemma {:induction false} GateShape<A>(limit: int, calls: seq<Call<A>>)
    ensures var r := Ran(limit, calls);
      GateAfter(limit, calls) == if r == [] then Open else Closed(calls[r[|r| - 1]].at + Delay(limit))
  {
    if calls != [] {
      var prev := calls[..|calls| - 1];
      GateShape(limit, prev);
      var r := Ran(limit, prev);
      if r != [] {
        assert calls[r[|r| - 1]] == prev[r[|r| - 1]];
      }
    }
  }

  /** The decision about a call is final: later calls only append positions
      after it. So a dropped call is never replayed, and nothing runs when
      the window closes by itself. */
  lemma {:induction false} RanPrefix<A>(limit: int, calls: seq<Call<A>>, n: nat)
    requires n <= |calls|
    ensures var r := Ran(limit, calls[..n]);
      && r <= Ran(limit, calls)
      && forall k | |r| <= k < |Ran(limit, calls)| :: n <= Ran(limit, calls)[k]
    decreases |calls| - n
  {
    if n < |calls| {
      var prev := calls[..|calls| - 1];
      assert prev[..n] == calls[..n];
      RanPrefix(limit, prev, n);
    } else {
      assert calls[..n] == calls;
    }
  }

  /** Whether call `i` runs is decided when it happens. */
  lemma DecisionIsFinal<A>(limit: int, calls: seq<Call<A>>, i: nat, n: nat)
    requires i < n <= |calls|
    ensures i in Ran(limit, calls[..n]) <==> i in Ran(limit, calls)
  {
    RanPrefix(limit, calls, n);
    var r := Ran(limit, calls[..n]);
    var all := Ran(limit, calls);
    if i in all {
      var k :| 0 <= k < |all| && all[k] == i;
      assert k < |r|;
      assert r[k] == i;
    }
  }

  /** Reference semantics: a call runs exactly when it comes at least
      the delay after every earlier call that ran. */
  lemma RunsIff<A>(limit: int, calls: seq<Call<A>>, i: nat)
    requires Chronological(calls) && i < |calls|
    ensures i in Ran(limit, calls)
        <==> forall j | j in Ran(limit, calls[..i]) :: calls[j].at + Delay(limit) <= calls[i].at
  {
    var upto := calls[..i + 1];
    DecisionIsFinal(limit, calls, i, i + 1);
    assert upto[..i] == calls[..i];
    var r := Ran(limit, calls[..i]);
    GateShape(limit, calls[..i]);
    assert i !in r;
    if r != [] {
      var last := r[|r| - 1];
      assert calls[..i][last] == calls[last];
      forall j | j in r ensures calls[j].at <= calls[last].at {
        var k :| 0 <= k < |r| && r[k] == j;
        assert calls[..i][j] == calls[j];
      }
    }
  }

  /** The first call runs, synchronously, with its own arguments. */
  lemma FirstCallRuns<A>(limit: int, calls: seq<Call<A>>)
    requires calls != []
    ensures Ran(limit, calls) != [] && Ran(limit, calls)[0] == 0
    ensures Forwarded(limit, calls)[0] == calls[0].args
  {
    RanPrefix(limit, calls, 1);
    assert Ran(limit, calls[..1]) == [0];
  }

  /** A call within the delay of an earlier call that ran is dropped. */
  lemma DroppedInWindow<A>(limit: int, calls: seq<Call<A>>, j: nat, i: nat)
    requires Chronological(calls) && j < i < |calls|
    requires j in Ran(limit, calls) && calls[i].at < calls[j].at + Delay(limit)
    ensures i !in Ran(limit, calls)
  {
    DecisionIsFinal(limit, calls, j, i);
    RunsIff(limit, calls, i);
  }

  /** A call that comes at least the delay after the previous call runs. */
  lemma QuietGapRuns<A>(limit: int, calls: seq<Call<A>>, i: nat)
    requires Chronological(calls) && 0 < i < |calls|
    requires calls[i - 1].at + Delay(limit) <= calls[i].at
    ensures i in Ran(limit, calls)
  {
    RunsIff(limit, calls, i);
    forall j | j in Ran(limit, calls[..i]) ensures calls[j].at + Delay(limit) <= calls[i].at {
      assert calls[..i][j] == calls[j];
    }
  }

  /** Calls that get through are at least the delay apart. */
  lemma Spacing<A>(limit: int, calls: seq<Call<A>>, k: nat)
    requires Chronological(calls) && k + 1 < |Ran(limit, calls)|
    ensures var r := Ran(limit, calls);
      calls[r[k]].at + Delay(limit) <= calls[r[k + 1]].at
  {
    var r := Ran(limit, calls);
    DecisionIsFinal(limit, calls, r[k], r[k + 1]);
    RunsIff(limit, calls, r[k + 1]);
  }

  /** With a delay of zero every call gets through: a limit of zero or
      less, or one that wraps to that. */
  lemma NoLimitRunsAll<A>(limit: int, calls: seq<Call<A>>, i: nat)
    requires Chronological(calls) && Delay(limit) == 0 && i < |calls|
    ensures i in Ran(limit, calls)
  {
    RunsIff(limit, calls, i);
    forall j | j in Ran(limit, calls[..i]) ensures calls[j].at + Delay(limit) <= calls[i].at {
      assert calls[..i][j] == calls[j];
    }
  }

  /** A limit of 2^31 throttles nothing: a call 1 ms after the first one
      runs too. */
  lemma HugeLimitThrottlesNothing()
    ensures Ran(0x8000_0000, [Call(0, 0), Call(1, 0)]) == [0, 1]
  {
    var calls := [Call(0, 0), Call(1, 0)];
    assert calls[..1] == [Call(0, 0)] && calls[..1][..0] == [];
    assert Delay(0x8000_0000) == 0;
  }

  /** The closure returned by `throttle(func, limit)`. `func` itself is not
      modelled: `forwarded` records the arguments it is called with. */
  class Throttled<A> {
    const limit: int
    var inThrottle: bool
    var releaseAt: nat
    var clock: nat
    var forwarded: seq<A>
    ghost var calls: seq<Call<A>>

    function Gate(): Gate
      reads this
    {
      if inThrottle then Closed(releaseAt) else Open
    }

    /** The state is the one the calls so far lead to. */
    ghost predicate Valid()
      reads this
    {
      && Chronological(calls)
      && (calls != [] ==> Last(calls).at <= clock)
      && Gate() == GateAfter(limit, calls)
      && forwarded == Forwarded(limit, calls)
    }

    constructor (limit: int)
      ensures Valid() && this.limit == limit && calls == [] && forwarded == []
    {
      this.limit := limit;
      inThrottle, releaseAt, clock := false, 0, 0;
      forwarded := [];
      calls := [];
    }

    /** A call of the wrapper at time `now` with arguments `args`; reports
        whether `func` was called. */
    method Invoke(now: nat, args: A) returns (ran: bool)
      requires Valid() && clock <= now
      modifies this
      ensures Valid() && clock == now
      ensures calls == old(calls) + [Call(now, args)]
      ensures ran <==> Admits(old(Gate()), now)
      ensures ran <==> |old(calls)| in Ran(limit, calls)
      ensures forwarded == old(forwarded) + (if ran then [args] else [])
    {
      clock := now;
      // the release timer fires first when it is due
      if inThrottle && releaseAt <= now {
        inThrottle := false;
      }
      ran := !inThrottle;
      if ran {
        forwarded := forwarded + [args];
        inThrottle := true;
        releaseAt := now + Delay(limit);
      }
      CallStep(limit, calls, Call(now, args));
      ChronologicalSnoc(calls, Call(now, args));
      calls := calls + [Call(now, args)];
    }
  }
}
