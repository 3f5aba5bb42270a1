/**
 * `ReqCounter` (src/mds/adsl/ReqCounter.cc): a sliding window of epochs that
 * remembers, per epoch, whether a request hit, together with the number of
 * hit epochs in the window, so that a hit can tell a brand-new request from
 * one seen in a recent epoch.
 */
module RequestCounters {

  /** The number of hit epochs in a window. */
  function CountHits(s: seq<bool>): (c: nat)
    ensures c <= |s|
  {
    if s == [] then 0 else CountHits(s[..|s| - 1]) + (if s[|s| - 1] then 1 else 0)
  }

  /** `n` epochs without a hit. */
  function Falses(n: nat): (r: seq<bool>)
    ensures |r| == n && forall i :: 0 <= i < n ==> !r[i]
  {
    seq(n, _ => false)
  }

  /** One epoch goes by: the oldest flag leaves the window and `x` enters it. */
  function Rotate(window: seq<bool>, x: bool): (r: seq<bool>)
    requires |window| > 0
    ensures |r| == |window|
  {
    window[1..] + [x]
  }

  /** `n` epochs without a hit go by. */
  function RotateEmpty(window: seq<bool>, n: nat): (r: seq<bool>)
    requires |window| > 0
    ensures |r| == |window|
    decreases n
  {
    if n == 0 then window else RotateEmpty(Rotate(window, false), n - 1)
  }

  /** The number of empty epochs that follow the current one when `k` epochs go by. */
  function Gap(k: nat): nat
  {
    if k >= 2 then k - 2 else 0
  }

  /**
   * The window after `k` epochs go by (1 <= k < the default length): the
   * current epoch's hit flag enters the window, then `Gap(k)` empty epochs.
   */
  function Advanced(window: seq<bool>, lastHit: bool, k: nat): (r: seq<bool>)
    requires |window| > 0
    ensures |r| == |window|
  {
    RotateEmpty(Rotate(window, lastHit), Gap(k))
  }

  /** Rotating empty epochs in is the same as reading the window off further along the stream of flags. */
  lemma {:induction false} RotateEmptyIsSuffix(window: seq<bool>, n: nat)
    requires |window| > 0
    ensures RotateEmpty(window, n) == (window + Falses(n))[n..]
    decreases n
  {
    if n > 0 {
      RotateEmptyIsSuffix(Rotate(window, false), n - 1);
      assert Rotate(window, false) + Falses(n - 1) == (window + Falses(n))[1..];
    } else {
      assert window + Falses(0) == window;
    }
  }

  /**
   * After `k` epochs go by, the window is the last `|window|` flags of the old
   * window followed by the current epoch's flag and `Gap(k)` empty epochs.
   */
  lemma AdvancedIsSuffix(window: seq<bool>, lastHit: bool, k: nat)
    requires |window| > 0
    ensures Advanced(window, lastHit, k) == (window + [lastHit] + Falses(Gap(k)))[Gap(k) + 1..]
  {
    RotateEmptyIsSuffix(Rotate(window, lastHit), Gap(k));
    assert Rotate(window, lastHit) + Falses(Gap(k)) == (window + [lastHit] + Falses(Gap(k)))[1..];
  }

  /** A window counts no hit exactly when none of its epochs was hit. */
  lemma {:induction false} NoHitsIff(s: seq<bool>)
    ensures CountHits(s) == 0 <==> forall i :: 0 <= i < |s| ==> !s[i]
  {
    if s != [] {
      NoHitsIff(s[..|s| - 1]);
      assert forall i :: 0 <= i < |s| - 1 ==> s[..|s| - 1][i] == s[i];
    }
  }

  /** Hits counted over a concatenation add up. */
  lemma {:induction false} CountHitsAppend(a: seq<bool>, b: seq<bool>)
    ensures CountHits(a + b) == CountHits(a) + CountHits(b)
  {
    if b == [] {
      assert a + b == a;
    } else {
      CountHitsAppend(a, b[..|b| - 1]);
      assert (a + b)[..|a + b| - 1] == a + b[..|b| - 1];
    }
  }

  /** Dropping the oldest epoch takes its hit off the count. */
  lemma CountHitsRotate(s: seq<bool>, x: bool)
    requires |s| > 0
    ensures CountHits(s[1..] + [x]) == CountHits(s) - (if s[0] then 1 else 0) + (if x then 1 else 0)
  {
    CountHitsAppend([s[0]], s[1..]);
    assert [s[0]] + s[1..] == s;
    CountHitsAppend(s[1..], [x]);
    assert [x][..0] == [];
  }

  class ReqCounter {
    /** `REQCOUNTER_QUEUE_LEN_DEFAULT`, defined in ReqCounter.h, which is not part of this model. */
    const defaultLen: nat
    /** `_data`: one flag per past epoch, oldest first. */
    var data: seq<bool>
    /** `_last_hit`: whether the current epoch was hit. */
    var lastHit: bool
    /** `_cache_hit_times`: the number of hit epochs in `_data`. */
    var cacheHitTimes: int

    /** The cached count agrees with the window. */
    ghost predicate Valid()
      reads this
    {
      cacheHitTimes == CountHits(data)
    }

    /** `ReqCounter(queue_len)`: a window of `queue_len` epochs without hits. */
    constructor (queueLen: nat, defaultLen: nat)
      ensures Valid() && data == Falses(queueLen) && !lastHit && cacheHitTimes == 0
      ensures this.defaultLen == defaultLen
    {
      this.defaultLen := defaultLen;
      data := Falses(queueLen);
      lastHit := false;
      cacheHitTimes := 0;
      NoHitsIff(Falses(queueLen));
    }

    /**
     * `switch_epoch(epoch_num)`: move the window `epoch_num` epochs forward.
     * A move of the default length or more restarts with an empty window of
     * the default length; a smaller move needs a non-empty window, since it
     * reads its front.
     */
    method SwitchEpoch(epochNum: int)
      requires Valid()
      requires 0 < epochNum < defaultLen ==> |data| > 0
      modifies this
      ensures Valid()
      ensures epochNum <= 0 ==> data == old(data) && lastHit == old(lastHit)
      ensures 0 < epochNum && epochNum >= defaultLen ==> data == Falses(defaultLen) && !lastHit
      ensures 0 < epochNum < defaultLen ==> data == Advanced(old(data), old(lastHit), epochNum) && !lastHit
    {
      if epochNum <= 0 {
        return;
      }
      if epochNum >= defaultLen {
        data := Falses(defaultLen);
        lastHit := false;
        cacheHitTimes := 0;
        NoHitsIff(data);
        return;
      }
      ghost var target := Advanced(data, lastHit, epochNum);
      CountHitsRotate(data, lastHit);
      cacheHitTimes := cacheHitTimes + (if lastHit then 1 else 0) - (if data[0] then 1 else 0);
      data := data[1..] + [lastHit];
      lastHit := false;
      var k := epochNum - 1;
      var i := 0;
      while i < k - 1
        invariant 0 <= i <= Gap(epochNum) && |data| > 0
        invariant RotateEmpty(data, Gap(epochNum) - i) == target
        invariant cacheHitTimes == CountHits(data) && !lastHit
      {
        CountHitsRotate(data, false);
        cacheHitTimes := cacheHitTimes - (if data[0] then 1 else 0);
        data := data[1..] + [false];
        i := i + 1;
      }
      assert i == Gap(epochNum);
      assert RotateEmpty(data, 0) == data;
    }

    /**
     * `hit()`: -1 when the current epoch was already hit; otherwise marks it
     * and answers 1 for a request no epoch of the window saw, 0 for one
     * seen before.
     */
    method Hit() returns (r: int)
      requires Valid()
      modifies this`lastHit
      ensures Valid() && lastHit
      ensures old(lastHit) ==> r == -1
      ensures !old(lastHit) ==> (r == 1 <==> forall i :: 0 <= i < |data| ==> !data[i])
      ensures !old(lastHit) ==> (r == 0 <==> exists i :: 0 <= i < |data| && data[i])
    {
      if lastHit {
        return -1;
      }
      lastHit := true;
      NoHitsIff(data);
      r := if cacheHitTimes == 0 then 1 else 0;
    }
  }
}
