/**
 * `DeltaTracer` and `DeltaTracerWatcher` (src/mds/adsl/DeltaTracer.h): turn a
 * monotone counter into per-interval deltas. The only instantiation in the
 * system traces `int` performance counters; the model uses unbounded `int`.
 */
module DeltaTracers {

  /** The deltas that successive `get(now)` calls return for `readings`, starting from `last`. */
  function Deltas(last: int, readings: seq<int>): (r: seq<int>)
    ensures |r| == |readings|
    decreases readings
  {
    if readings == [] then [] else [readings[0] - last] + Deltas(readings[0], readings[1..])
  }

  function SumInts(s: seq<int>): int
  {
    if s == [] then 0 else s[0] + SumInts(s[1..])
  }

  /** The deltas telescope: together they add up to the last reading minus the starting value. */
  lemma {:induction false} DeltasTelescope(last: int, readings: seq<int>)
    requires readings != []
    ensures SumInts(Deltas(last, readings)) == readings[|readings| - 1] - last
    decreases readings
  {
    if |readings| > 1 {
      DeltasTelescope(readings[0], readings[1..]);
    }
  }

  /** Every reading is recovered from the starting value and the deltas up to it. */
  lemma {:induction false} DeltasRecover(last: int, readings: seq<int>, k: nat)
    requires k < |readings|
    ensures last + SumInts(Deltas(last, readings)[..k + 1]) == readings[k]
    decreases k
  {
    if k == 0 {
      assert Deltas(last, readings)[..1] == [readings[0] - last];
    } else {
      DeltasRecover(readings[0], readings[1..], k - 1);
      assert Deltas(last, readings)[..k + 1] == [readings[0] - last] + Deltas(readings[0], readings[1..])[..k];
    }
  }

  class DeltaTracer {
    var last: int

    /** `DeltaTracer()`: the source leaves `last` uninitialised, so the start value is arbitrary. */
    constructor ()
    {
      last := *;
    }

    /** `set_last(last_)`. */
    method SetLast(v: int)
      modifies this
      ensures last == v
    {
      last := v;
    }

    /** `get(now)`: the change since the previous reading, which becomes `now`. */
    method Get(now: int) returns (delta: int)
      modifies this
      ensures delta == now - old(last) && last == now
    {
      delta := now - last;
      last := now;
    }

    /** `clear()`: back to `T()`, zero. */
    method Clear()
      modifies this
      ensures last == 0
    {
      last := 0;
    }
  }

  /** A caller that feeds a whole series of readings to one tracer receives exactly `Deltas`. */
  method TraceAll(t: DeltaTracer, readings: seq<int>) returns (deltas: seq<int>)
    modifies t
    ensures deltas == Deltas(old(t.last), readings)
    ensures t.last == if readings == [] then old(t.last) else readings[|readings| - 1]
  {
    deltas := [];
    var i := 0;
    while i < |readings|
      invariant 0 <= i <= |readings|
      invariant t.last == if i == 0 then old(t.last) else readings[i - 1]
      invariant deltas + Deltas(t.last, readings[i..]) == Deltas(old(t.last), readings)
    {
      assert readings[i..][1..] == readings[i + 1..];
      var d := t.Get(readings[i]);
      deltas := deltas + [d];
      i := i + 1;
    }
  }

  /**
   * `DeltaTracerWatcher`: a tracer over a reading that the subclass's
   * `check_now(check_arg)` takes; the reading is passed in as `now`.
   */
  class DeltaTracerWatcher {
    const tracer: DeltaTracer
    var lastDelta: int
    const checkArg: int

    /** `DeltaTracerWatcher(check_arg)`; `last_delta` is left uninitialised by the source. */
    constructor (checkArg: int)
      ensures this.checkArg == checkArg && fresh(tracer)
    {
      this.checkArg := checkArg;
      tracer := new DeltaTracer();
      lastDelta := *;
    }

    /** `init_now()`: the current reading becomes the base and the last delta is zero. */
    method InitNow(now: int)
      modifies this, tracer
      ensures tracer.last == now && lastDelta == 0
    {
      tracer.SetLast(now);
      lastDelta := 0;
    }

    /** `get(update)`: with `update`, trace the current reading; in both cases answer the last delta. */
    method Get(update: bool, now: int) returns (d: int)
      modifies this, tracer
      ensures update ==> d == now - old(tracer.last) && tracer.last == now
      ensures !update ==> d == old(lastDelta) && tracer.last == old(tracer.last)
      ensures lastDelta == d
    {
      if update {
        lastDelta := tracer.Get(now);
      }
      d := lastDelta;
    }
  }
}
