/**
 * The load containers of the ADSL extension of the metadata server
 * (src/mds/adsl/mdstypes.h): the fixed-length load history `LoadArray`,
 * the predicted load `dirfrag_load_pred_t` and the pair of decayed and
 * predicted load `dirfrag_load_t` kept for every directory fragment.
 *
 * Both `LoadArray_Int` and `LoadArray_Double` are modelled over `real`;
 * integer entries are reals with no fractional part.
 */
module LoadArrays {

  /** `n` zero entries: what `vector<T>(n)` holds. */
  function Zeros(n: nat): (r: seq<real>)
    ensures |r| == n && forall i :: 0 <= i < n ==> r[i] == 0.0
  {
    seq(n, _ => 0.0)
  }

  /**
   * A conversion of a `double` to an integer (an `int` initialised from a
   * `double`, `duration_cast<seconds>`): it truncates toward zero.
   */
  function Trunc(d: real): (s: int)
    ensures d >= 0.0 ==> s as real <= d < s as real + 1.0
    ensures d < 0.0 ==> s as real - 1.0 < d <= s as real
  {
    if d >= 0.0 then d.Floor else -((-d).Floor)
  }

  /** The sum `std::accumulate` computes, folding from the front. */
  function Sum(s: seq<real>): real
  {
    if s == [] then 0.0 else Sum(s[..|s| - 1]) + s[|s| - 1]
  }

  /**
   * The history left by `shift(n, next)`: the window moves `n` epochs forward,
   * `next` becomes the first of the new epochs and the others start at zero;
   * a move of the whole length or more empties the window.
   */
  function Shifted(s: seq<real>, n: nat, next: real): seq<real>
  {
    if n == 0 then s
    else if n >= |s| then Zeros(|s|)
    else s[n..] + [next] + Zeros(n - 1)
  }

  /** What every entry of a shifted history is, read off position by position. */
  lemma ShiftedAt(s: seq<real>, n: nat, next: real, i: nat)
    requires 0 < n && i < |s|
    ensures |Shifted(s, n, next)| == |s|
    ensures Shifted(s, n, next)[i] ==
      if n < |s| && i < |s| - n then s[i + n]
      else if n < |s| && i == |s| - n then next
      else 0.0
  {
  }

  /**
   * Shifting a history of two or more epochs by one drops the oldest reading
   * and appends the newest, so the total moves by exactly their difference.
   * (A one-epoch history is cleared instead: `n >= len` holds.)
   */
  lemma {:induction false} ShiftOneTotal(s: seq<real>, next: real)
    requires |s| > 1
    ensures Sum(Shifted(s, 1, next)) == Sum(s) - s[0] + next
  {
    var r := s[1..] + [next];
    assert Shifted(s, 1, next) == r + Zeros(0) == r;
    SumFront(s);
    assert r[..|r| - 1] == s[1..];
  }

  /** Removing the first element of a non-empty sequence takes it off the sum. */
  lemma {:induction false} SumFront(s: seq<real>)
    requires |s| > 0
    ensures Sum(s) == s[0] + Sum(s[1..])
  {
    if |s| > 1 {
      SumFront(s[..|s| - 1]);
      assert s[..|s| - 1][1..] == s[1..][..|s| - 2];
    }
  }

  /** A sum of `|s|` copies of `c` is `|s| * c`. */
  lemma {:induction false} SumUniform(s: seq<real>, c: real)
    requires forall i :: 0 <= i < |s| ==> s[i] == c
    ensures Sum(s) == (|s| as real) * c
  {
    if s != [] {
      SumUniform(s[..|s| - 1], c);
    }
  }

  /** A sum of values none below `m` is at least `|s| * m`, and above it if one value is above `m`. */
  lemma {:induction false} SumAtLeast(s: seq<real>, m: real, k: nat)
    requires forall i :: 0 <= i < |s| ==> s[i] >= m
    ensures Sum(s) >= (|s| as real) * m
    ensures k < |s| && s[k] > m ==> Sum(s) > (|s| as real) * m
  {
    if s != [] {
      SumAtLeast(s[..|s| - 1], m, k);
    }
  }

  /** A sum of values none above `m` is at most `|s| * m`, and below it if one value is below `m`. */
  lemma {:induction false} SumAtMost(s: seq<real>, m: real, k: nat)
    requires forall i :: 0 <= i < |s| ==> s[i] <= m
    ensures Sum(s) <= (|s| as real) * m
    ensures k < |s| && s[k] < m ==> Sum(s) < (|s| as real) * m
  {
    if s != [] {
      SumAtMost(s[..|s| - 1], m, k);
    }
  }

  /** A `LoadArray`: a vector of per-epoch loads, oldest first. */
  class LoadArray {
    var nums: seq<real>

    /** `LoadArray(int len)`: a history of `len` zero epochs. */
    constructor Sized(len: nat)
      ensures nums == Zeros(len)
    {
      nums := Zeros(len);
    }

    /** `LoadArray(vector<T>&)` and `LoadArray(T[], int)`: a copy of the given values. */
    constructor FromValues(values: seq<real>)
      ensures nums == values
    {
      nums := values;
    }

    /** `total()`: the sum of every epoch's load. */
    method Total() returns (t: real)
      ensures t == Sum(nums)
    {
      t := 0.0;
      var i := 0;
      while i < |nums|
        invariant 0 <= i <= |nums|
        invariant t == Sum(nums[..i])
      {
        assert nums[..i + 1][..i] == nums[..i];
        t := t + nums[i];
        i := i + 1;
      }
      assert nums[..i] == nums;
    }

    /** `shift(n, next)`, moving the values down in place as the source does. */
    method Shift(n: nat, next: real)
      modifies this
      ensures nums == Shifted(old(nums), n, next)
    {
      if n == 0 {
        return;
      }
      var len := |nums|;
      if n >= len {
        nums := Zeros(len);
        return;
      }
      ghost var before := nums;
      var i := 0;
      while i < len - n
        invariant 0 <= i <= len - n && |nums| == len
        invariant forall k :: 0 <= k < i ==> nums[k] == before[k + n]
        invariant forall k :: i <= k < len ==> nums[k] == before[k]
      {
        nums := nums[i := nums[i + n]];
        i := i + 1;
      }
      nums := nums[len - n := next];
      i := len - n + 1;
      while i < len
        invariant len - n + 1 <= i <= len && |nums| == len
        invariant forall k :: 0 <= k < len - n ==> nums[k] == before[k + n]
        invariant nums[len - n] == next
        invariant forall k :: len - n < k < i ==> nums[k] == 0.0
      {
        nums := nums[i := 0.0];
        i := i + 1;
      }
      assert nums == Shifted(before, n, next) by {
        forall k | 0 <= k < len
          ensures nums[k] == Shifted(before, n, next)[k]
        {
          ShiftedAt(before, n, next, k);
        }
      }
    }

    /** `size()`. */
    function Size(): (r: nat)
      reads this
      ensures r == |nums|
    {
      |nums|
    }

    /** `clear()`: the history becomes empty. */
    method Clear()
      modifies this
      ensures nums == []
    {
      nums := [];
    }

    /** `append(v)`: one more epoch at the end. */
    method Append(v: real)
      modifies this
      ensures nums == old(nums) + [v]
    {
      nums := nums + [v];
    }

    /** `operator[](i)`; reading past the end is undefined in the source. */
    function At(i: nat): (r: real)
      reads this
      requires i < |nums|
      ensures r in nums
    {
      nums[i]
    }
  }

  /** The five popularity counters of a `dirfrag_load_vec_t`, indexed by `META_POP_*`. */
  const META_POP_IRD: nat := 0
  const META_POP_IWR: nat := 1
  const META_POP_READDIR: nat := 2
  const META_POP_FETCH: nat := 3
  const META_POP_STORE: nat := 4
  const NUM_META_POP: nat := 5

  /**
   * `dirfrag_load_vec_t`: one counter per operation type. Its decay over time
   * is not modelled, so a counter is the plain sum of what was added to it.
   */
  datatype LoadVec = LoadVec(counters: seq<real>)
  {
    ghost predicate Valid() { |counters| == NUM_META_POP }

    static function Zero(): (z: LoadVec)
      ensures z.Valid() && forall t :: 0 <= t < NUM_META_POP ==> z.counters[t] == 0.0
    {
      LoadVec(Zeros(NUM_META_POP))
    }

    /** `get(t).hit(amount)`: counter `t` grows by `amount`, the others keep their value. */
    function Hit(t: nat, amount: real): (r: LoadVec)
      requires Valid() && t < NUM_META_POP
      ensures r.Valid() && r.counters[t] == counters[t] + amount
      ensures forall u :: 0 <= u < NUM_META_POP && u != t ==> r.counters[u] == counters[u]
    {
      LoadVec(counters[t := counters[t] + amount])
    }

    /** `add(r)`: counter-wise sum. */
    function Plus(other: LoadVec): (r: LoadVec)
      requires Valid() && other.Valid()
      ensures r.Valid() && forall t :: 0 <= t < NUM_META_POP ==> r.counters[t] == counters[t] + other.counters[t]
    {
      LoadVec(seq(NUM_META_POP, t requires 0 <= t < NUM_META_POP => counters[t] + other.counters[t]))
    }

    /** `sub(r)`: counter-wise difference. */
    function Minus(other: LoadVec): (r: LoadVec)
      requires Valid() && other.Valid()
      ensures r.Valid() && forall t :: 0 <= t < NUM_META_POP ==> r.counters[t] == counters[t] - other.counters[t]
    {
      LoadVec(seq(NUM_META_POP, t requires 0 <= t < NUM_META_POP => counters[t] - other.counters[t]))
    }

    /** `scale(f)`: every counter multiplied by `f`. */
    function Scaled(f: real): (r: LoadVec)
      requires Valid()
      ensures r.Valid() && forall t :: 0 <= t < NUM_META_POP ==> r.counters[t] == counters[t] * f
    {
      LoadVec(seq(NUM_META_POP, t requires 0 <= t < NUM_META_POP => counters[t] * f))
    }

    /** `adjust(d)`: every counter moves by `d`. */
    function Adjusted(d: real): (r: LoadVec)
      requires Valid()
      ensures r.Valid() && forall t :: 0 <= t < NUM_META_POP ==> r.counters[t] == counters[t] + d
    {
      LoadVec(seq(NUM_META_POP, t requires 0 <= t < NUM_META_POP => counters[t] + d))
    }
  }

  /** Taking off what was added gives the counters back: export then import of the same load is neutral. */
  lemma PlusMinus(a: LoadVec, b: LoadVec)
    requires a.Valid() && b.Valid()
    ensures a.Plus(b).Minus(b) == a
  {
    assert a.Plus(b).Minus(b).counters == a.counters;
  }

  /** `dirfrag_load_pred_t`: the load the predictor forecasts for one fragment. */
  class PredLoad {
    var load: real
    var localEpoch: int

    /** `dirfrag_load_pred_t()`: the source leaves both members uninitialised, so the start value is arbitrary. */
    constructor ()
    {
      load := *;
      localEpoch := *;
    }

    /** `adjust(d)`. */
    method Adjust(d: real)
      modifies this
      ensures load == old(load) + d && localEpoch == old(localEpoch)
    {
      load := load + d;
    }

    /** `zero()`. */
    method Zero()
      modifies this
      ensures load == 0.0 && localEpoch == old(localEpoch)
    {
      load := 0.0;
    }

    /** `add(r)`; `r` may be this very object, and then the load doubles. */
    method Add(r: PredLoad)
      modifies this
      ensures load == old(load) + old(r.load) && localEpoch == old(localEpoch)
    {
      load := load + r.load;
    }

    /** `sub(r)`; `r` may be this very object, and then the load becomes zero. */
    method Sub(r: PredLoad)
      modifies this
      ensures load == old(load) - old(r.load) && localEpoch == old(localEpoch)
    {
      load := load - r.load;
    }

    /** `scale(f)`. */
    method Scale(f: real)
      modifies this
      ensures load == old(load) * f && localEpoch == old(localEpoch)
    {
      load := load * f;
    }
  }

  /**
   * `dirfrag_load_t`: the decayed counters and the predicted load of one
   * fragment; every operation is forwarded to both halves.
   */
  class DirfragLoad {
    var decayLoad: LoadVec
    const predLoad: PredLoad
    var usePred: bool

    ghost predicate Valid()
      reads this
    {
      decayLoad.Valid()
    }

    constructor ()
      ensures Valid() && decayLoad == LoadVec.Zero() && fresh(predLoad)
    {
      decayLoad := LoadVec.Zero();
      predLoad := new PredLoad();
      usePred := *;
    }

    /** `adjust(now, rate, d)`. */
    method Adjust(d: real)
      requires Valid()
      modifies this, predLoad
      ensures Valid() && decayLoad == old(decayLoad).Adjusted(d)
      ensures predLoad.load == old(predLoad.load) + d && usePred == old(usePred)
    {
      decayLoad := decayLoad.Adjusted(d);
      predLoad.Adjust(d);
    }

    /** `zero(now)`. */
    method Zero()
      requires Valid()
      modifies this, predLoad
      ensures Valid() && decayLoad == LoadVec.Zero() && predLoad.load == 0.0 && usePred == old(usePred)
    {
      decayLoad := LoadVec.Zero();
      predLoad.Zero();
    }

    /** `add(now, rate, r)`. */
    method Add(r: DirfragLoad)
      requires Valid() && r.Valid()
      modifies this, predLoad
      ensures Valid() && decayLoad == old(decayLoad).Plus(old(r.decayLoad))
      ensures predLoad.load == old(predLoad.load) + old(r.predLoad.load) && usePred == old(usePred)
    {
      decayLoad := decayLoad.Plus(r.decayLoad);
      predLoad.Add(r.predLoad);
    }

    /** `sub(now, rate, r)`. */
    method Sub(r: DirfragLoad)
      requires Valid() && r.Valid()
      modifies this, predLoad
      ensures Valid() && decayLoad == old(decayLoad).Minus(old(r.decayLoad))
      ensures predLoad.load == old(predLoad.load) - old(r.predLoad.load) && usePred == old(usePred)
    {
      decayLoad := decayLoad.Minus(r.decayLoad);
      predLoad.Sub(r.predLoad);
    }

    /** `scale(f)`. */
    method Scale(f: real)
      requires Valid()
      modifies this, predLoad
      ensures Valid() && decayLoad == old(decayLoad).Scaled(f)
      ensures predLoad.load == old(predLoad.load) * f && usePred == old(usePred)
    {
      decayLoad := decayLoad.Scaled(f);
      predLoad.Scale(f);
    }
  }

  /**
   * The steps of test_mds_load.cc on two predicted loads that start at `a` and `b`:
   * adjust by 8 and 3, scale by 2 and 0.5, add the second into the first, zero the second.
   */
  method MdsLoadScenario(a: real, b: real) returns (first: real, second: real)
    ensures first == 2.0 * (a + 8.0) + 0.5 * (b + 3.0) && second == 0.0
  {
    var plFirst := new PredLoad();
    var plSecond := new PredLoad();
    plFirst.load, plSecond.load := a, b;
    plFirst.Adjust(8.0);
    plSecond.Adjust(3.0);
    plFirst.Scale(2.0);
    plSecond.Scale(0.5);
    plFirst.Add(plSecond);
    plSecond.Zero();
    first, second := plFirst.load, plSecond.load;
  }

  /** The history in test_load_array.cc after its three shifts of a five-epoch array. */
  lemma LoadArrayScenario()
    ensures Shifted(Shifted(Shifted(Zeros(5), 2, 10.0), 1, 20.0), 1, 30.0) == [0.0, 10.0, 0.0, 20.0, 30.0]
  {
    assert Shifted(Zeros(5), 2, 10.0) == [0.0, 0.0, 0.0, 10.0, 0.0];
    assert Shifted([0.0, 0.0, 0.0, 10.0, 0.0], 1, 20.0) == [0.0, 0.0, 10.0, 0.0, 20.0];
  }
}
