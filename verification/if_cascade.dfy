/**
 * The fine-grained decision cascade of `handle_ifbeat`
 * (src/mds/MDBalancer.cc): once rank 0 knows every rank's request rate it
 * works out which ranks are overloaded and tells each of them to which
 * underloaded ranks to export, and what share of its load.
 *
 * The imbalance factors and urgencies involve square roots and
 * exponentials; those two functions are parameters here, and the order
 * `std::sort` leaves equal factors in is not fixed.
 */
module IfCascades {
  import opened Wrappers
  import LoadArrays

  /** The share of its load an exporter gives its first importer. */
  const LUNULE_MIG_AMOUNT: real := 0.25

  /** At most this many importers per exporter (`max_exporter_count`). */
  const MAX_EXPORTER_COUNT: nat := 3

  /** `imbalance_summary_t`: one rank's imbalance factor and whether it is above the mean. */
  datatype Summary = Summary(myIf: real, urgency: real, whoami: int, isBigger: bool)

  /** `migration_decision_t`: export `percent` of the load, `exportLoad`, to rank `target`. */
  datatype Decision = Decision(target: int, exportLoad: real, percent: real)

  /** `sortImporter`: the larger imbalance factor comes first. */
  predicate SortImporter(a: Summary, b: Summary)
  {
    a.myIf > b.myIf
  }

  /**
   * The summary vector after `std::sort(begin() + 1, end(), sortImporter)`:
   * the first summary stays first and the rest are the same summaries by
   * non-increasing factor.
   */
  predicate SortedFromSecond(vec: seq<Summary>, summaries: seq<Summary>)
  {
    |vec| == |summaries| && (vec != [] ==> vec[0] == summaries[0]) &&
    (vec != [] ==> multiset(vec[1..]) == multiset(summaries[1..])) &&
    forall i, j :: 1 <= i < j < |vec| ==> !SortImporter(vec[j], vec[i])
  }

  /** Summaries by non-increasing factor: no summary precedes one `sortImporter` puts before it. */
  predicate ByFactor(s: seq<Summary>)
  {
    forall i, j :: 0 <= i < j < |s| ==> !SortImporter(s[j], s[i])
  }

  /** A summary with a factor at least the head's keeps summaries ordered by factor. */
  lemma ByFactorCons(x: Summary, t: seq<Summary>)
    ensures ByFactor(t) && (t == [] || x.myIf >= t[0].myIf) ==> ByFactor([x] + t)
  {
    if ByFactor(t) && (t == [] || x.myIf >= t[0].myIf) {
      var c := [x] + t;
      forall i, j | 0 <= i < j < |c|
        ensures !SortImporter(c[j], c[i])
      {
        assert c[j] == t[j - 1];
        if i > 0 { assert c[i] == t[i - 1]; } else if j > 1 { assert !SortImporter(t[j - 1], t[0]); }
      }
    }
  }

  /** `x` placed before the first summary with a smaller factor, after those with an equal one. */
  function InsertByFactor(s: seq<Summary>, x: Summary): (r: seq<Summary>)
    ensures multiset(r) == multiset(s) + multiset{x}
    ensures ByFactor(s) ==> ByFactor(r)
    ensures r != [] && (r[0] == x || (s != [] && r[0] == s[0]))
  {
    if s == [] || x.myIf > s[0].myIf then
      ByFactorCons(x, s);
      [x] + s
    else
      assert s == [s[0]] + s[1..];
      var rest := InsertByFactor(s[1..], x);
      ByFactorCons(s[0], rest);
      [s[0]] + rest
  }

  /** The summaries ordered by non-increasing factor; summaries with equal factors keep their order (`TiesKeepOrder`). */
  function SortByFactor(s: seq<Summary>): (r: seq<Summary>)
    ensures multiset(r) == multiset(s) && ByFactor(r)
  {
    if s == [] then []
    else
      assert s == s[..|s| - 1] + [s[|s| - 1]];
      InsertByFactor(SortByFactor(s[..|s| - 1]), s[|s| - 1])
  }

  /**
   * `std::sort(begin() + 1, end(), sortImporter)` on the summaries. Which
   * of several summaries with equal factors comes first is left open by
   * `std::sort`; this one keeps them in the order they came in, which for
   * summaries built rank by rank is rank order.
   */
  function SortSummaries(summaries: seq<Summary>): (vec: seq<Summary>)
    ensures SortedFromSecond(vec, summaries)
  {
    if summaries == [] then []
    else
      var rest := SortByFactor(summaries[1..]);
      assert |rest| == |multiset(rest)| == |multiset(summaries[1..])| == |summaries| - 1;
      var vec := [summaries[0]] + rest;
      assert vec[1..] == rest;
      assert forall i, j :: 1 <= i < j < |vec| ==> vec[i] == rest[i - 1] && vec[j] == rest[j - 1];
      vec
  }

  /** Two summaries with equal factors stay in the order they came in. */
  lemma TiesKeepOrder(a: Summary, b: Summary)
    requires a.myIf == b.myIf
    ensures SortByFactor([a, b]) == [a, b]
  {
    assert [a, b][..1] == [a];
    assert SortByFactor([a]) == [a] by {
      assert [a][..0] == [];
    }
  }

  /** `avg_IOPS`: the mean of the ranks' request rates. */
  function Mean(s: seq<real>): real
    requires s != []
  {
    LoadArrays.Sum(s) / (|s| as real)
  }

  /** Not every rank is above the mean: some summary always has `is_bigger` false. */
  lemma SomeRankNotAboveMean(iops: seq<real>) returns (k: nat)
    requires iops != []
    ensures k < |iops| && iops[k] <= Mean(iops)
  {
    k := 0;
    while k < |iops|
      invariant k <= |iops| && forall i :: 0 <= i < k ==> iops[i] > Mean(iops)
    {
      if iops[k] <= Mean(iops) {
        return;
      }
      k := k + 1;
    }
    LoadArrays.SumAtLeast(iops, Mean(iops), 0);
    assert false;
  }

  /**
   * The summaries the `for_each` over the IOPS builds: the `i`-th is rank
   * `i`'s, with its factor and urgency, marked bigger exactly when the
   * rank's IOPS are above the mean.
   */
  method BuildSummaries(ifs: seq<real>, urgencies: seq<real>, iops: seq<real>) returns (s: seq<Summary>)
    requires |ifs| == |urgencies| == |iops| > 0
    ensures |s| == |iops|
    ensures forall i :: 0 <= i < |s| ==> s[i].whoami == i && s[i].myIf == ifs[i] && s[i].urgency == urgencies[i]
    ensures forall i :: 0 <= i < |s| ==> (s[i].isBigger <==> iops[i] > Mean(iops))
  {
    var avg := Mean(iops);
    var tempPos := 0;
    s := [];
    for i := 0 to |iops|
      invariant |s| == i && tempPos == i
      invariant forall k :: 0 <= k < i ==> s[k].whoami == k && s[k].myIf == ifs[k] && s[k].urgency == urgencies[k]
      invariant forall k :: 0 <= k < i ==> (s[k].isBigger <==> iops[k] > avg)
    {
      s := s + [Summary(ifs[i], urgencies[i], tempPos, iops[i] > avg)];
      tempPos := tempPos + 1;
    }
  }

  /** `my_if_threshold`: the threshold shared out over at most `MAX_EXPORTER_COUNT` ranks. */
  function MyIfThreshold(ifThreshold: real, clusterSize: nat): real
    requires clusterSize > 0
  {
    ifThreshold / (if clusterSize < MAX_EXPORTER_COUNT then clusterSize else MAX_EXPORTER_COUNT) as real
  }

  /** A double division; a zero divisor, which yields an infinity or NaN in the source, yields 0 here. */
  function Div(a: real, b: real): real
  {
    if b == 0.0 then 0.0 else a / b
  }

  /** The position of the first largest value: what `max_element` points at. */
  function ArgMax(s: seq<real>): (i: nat)
    requires s != []
    ensures i < |s| && (forall k :: 0 <= k < |s| ==> s[k] <= s[i]) && (forall k :: 0 <= k < i ==> s[k] < s[i])
  {
    if |s| == 1 then 0
    else
      var j := 1 + ArgMax(s[1..]);
      assert forall k :: 1 <= k < |s| ==> s[k] == s[1..][k - 1];
      if s[0] >= s[j] then 0 else j
  }

  /** The position of the first smallest value: what `min_element` points at. */
  function ArgMin(s: seq<real>): (i: nat)
    requires s != []
    ensures i < |s| && (forall k :: 0 <= k < |s| ==> s[i] <= s[k]) && (forall k :: 0 <= k < i ==> s[i] < s[k])
  {
    if |s| == 1 then 0
    else
      var j := 1 + ArgMin(s[1..]);
      assert forall k :: 1 <= k < |s| ==> s[k] == s[1..][k - 1];
      if s[0] <= s[j] then 0 else j
  }

  /**
   * `max_pos` as written: `begin() - max_element(...)`, the position of the
   * largest IOPS negated.
   */
  function MaxPosAsWritten(iops: seq<real>): (p: int)
    requires iops != []
    ensures p == -(ArgMax(iops) as int) && p <= 0
  {
    -(ArgMax(iops) as int)
  }

  /** `min_pos` as written: the position of the smallest IOPS negated. */
  function MinPosAsWritten(iops: seq<real>): (p: int)
    requires iops != []
    ensures p == -(ArgMin(iops) as int) && p <= 0
  {
    -(ArgMin(iops) as int)
  }

  /**
   * `max_pos` as intended: the rank with the largest IOPS, the first of
   * them on a tie.
   */
  function MaxPos(iops: seq<real>): (p: int)
    requires iops != []
    ensures 0 <= p < |iops| && forall k :: 0 <= k < |iops| ==> iops[k] <= iops[p]
    ensures forall k :: 0 <= k < p ==> iops[k] < iops[p]
  {
    ArgMax(iops)
  }

  /** `min_pos` as intended: the rank with the smallest IOPS, the first of them on a tie. */
  function MinPos(iops: seq<real>): (p: int)
    requires iops != []
    ensures 0 <= p < |iops| && forall k :: 0 <= k < |iops| ==> iops[p] <= iops[k]
    ensures forall k :: 0 <= k < p ==> iops[p] < iops[k]
  {
    ArgMin(iops)
  }

  /**
   * As written, `max_pos` names a real rank only when the busiest rank is
   * rank 0: for a busiest rank `r > 0` it is `-r`, which is no rank at all.
   */
  lemma MaxPosAsWrittenMissesBusiest(iops: seq<real>)
    requires iops != []
    ensures MaxPosAsWritten(iops) == MaxPos(iops) <==> MaxPos(iops) == 0
    ensures MaxPosAsWritten(iops) != MaxPos(iops) ==> MaxPosAsWritten(iops) < 0
  {
  }

  /** With IOPS 100, 50 and 400 the busiest rank is 2 and the idlest 1, but `max_pos` is -2 and `min_pos` -1. */
  lemma PositionsCounterexample()
    ensures MaxPos([100.0, 50.0, 400.0]) == 2 && MinPos([100.0, 50.0, 400.0]) == 1
    ensures MaxPosAsWritten([100.0, 50.0, 400.0]) == -2 && MinPosAsWritten([100.0, 50.0, 400.0]) == -1
  {
    var s := [100.0, 50.0, 400.0];
    assert ArgMax(s[1..][1..]) == 0;
    assert s[1..][1..] == [400.0];
    assert ArgMin(s[1..][1..]) == 0;
  }

  /** The share of the load the `k`-th decision of an exporter gets: halved after every decision. */
  function Share(k: nat): (r: real)
    ensures r > 0.0
  {
    if k == 0 then LUNULE_MIG_AMOUNT else Share(k - 1) / 2.0
  }

  /**
   * A summary `sender` may send load to: another rank, not above the mean,
   * and either imbalanced enough or the idlest rank.
   */
  predicate Eligible(s: Summary, sender: int, threshold: real, minPos: int)
  {
    s.whoami != sender && !s.isBigger && (s.myIf >= threshold || s.whoami == minPos)
  }

  /**
   * `d` is the `j`-th decision of an exporter whose share is taken of
   * `iops[base]` and `loads[base]`, made for summary `s`.
   */
  predicate Made(d: Decision, s: Summary, j: nat, iops: seq<real>, loads: seq<real>, base: int)
    requires 0 <= base < |iops| && |loads| == |iops| && 0 <= s.whoami < |iops|
  {
    d.target == s.whoami &&
    d.percent == Share(j) * Div(iops[base] - iops[s.whoami], iops[base]) &&
    d.exportLoad == d.percent * loads[base]
  }

  /** Positions strictly increasing and within `n`. */
  predicate Increasing(ps: seq<nat>, n: nat)
  {
    (forall j :: 0 <= j < |ps| ==> ps[j] < n) && forall i, j :: 0 <= i < j < |ps| ==> ps[i] < ps[j]
  }

  /**
   * `ds` are the decisions made walking the first `k` summaries: one for
   * every eligible summary among them, at the positions `picked`, with the
   * share halved after each, every share but the first above `threshold`.
   */
  ghost predicate DecidedSoFar(vec: seq<Summary>, iops: seq<real>, loads: seq<real>, sender: int, base: int,
                               threshold: real, minPos: int, ds: seq<Decision>, picked: seq<nat>, k: nat)
    requires 0 <= base < |iops| && |loads| == |iops|
    requires forall i :: 0 <= i < |vec| ==> 0 <= vec[i].whoami < |iops|
  {
    k <= |vec| && |ds| == |picked| && Increasing(picked, k) &&
    (forall j :: 0 <= j < |picked| ==>
       Eligible(vec[picked[j]], sender, threshold, minPos) && Made(ds[j], vec[picked[j]], j, iops, loads, base)) &&
    (forall j :: 0 < j < |picked| ==> Share(j) > threshold) &&
    (forall i :: 0 <= i < k && Eligible(vec[i], sender, threshold, minPos) ==> i in picked)
  }

  /** Walking past a summary that is not eligible keeps the decisions. */
  lemma DecidedSkip(vec: seq<Summary>, iops: seq<real>, loads: seq<real>, sender: int, base: int,
                    threshold: real, minPos: int, ds: seq<Decision>, picked: seq<nat>, k: nat)
    requires 0 <= base < |iops| && |loads| == |iops|
    requires forall i :: 0 <= i < |vec| ==> 0 <= vec[i].whoami < |iops|
    requires DecidedSoFar(vec, iops, loads, sender, base, threshold, minPos, ds, picked, k)
    requires k < |vec| && !Eligible(vec[k], sender, threshold, minPos)
    ensures DecidedSoFar(vec, iops, loads, sender, base, threshold, minPos, ds, picked, k + 1)
  {
  }

  /** An eligible summary, met while the share is still above `threshold`, gets the next decision. */
  lemma DecidedPick(vec: seq<Summary>, iops: seq<real>, loads: seq<real>, sender: int, base: int,
                    threshold: real, minPos: int, ds: seq<Decision>, picked: seq<nat>, k: nat, d: Decision)
    requires 0 <= base < |iops| && |loads| == |iops|
    requires forall i :: 0 <= i < |vec| ==> 0 <= vec[i].whoami < |iops|
    requires DecidedSoFar(vec, iops, loads, sender, base, threshold, minPos, ds, picked, k)
    requires k < |vec| && Eligible(vec[k], sender, threshold, minPos)
    requires picked != [] ==> Share(|picked|) > threshold
    requires Made(d, vec[k], |picked|, iops, loads, base)
    ensures DecidedSoFar(vec, iops, loads, sender, base, threshold, minPos, ds + [d], picked + [k], k + 1)
  {
    var ps := picked + [k];
    assert forall j :: 0 <= j < |picked| ==> ps[j] == picked[j];
  }

  /**
   * The importer loop of one exporter: walking the sorted summaries, every
   * eligible one gets a decision with the current share, which then
   * halves; the walk stops after `MAX_EXPORTER_COUNT` decisions or once the
   * share is at most `threshold`. The share is taken of `iops[base]` and
   * `loads[base]`; `None` is the early return of `handle_ifbeat` when the
   * exporter's IOPS are at most 1.
   *
   * `picked` are the positions of the summaries that got a decision.
   */
  method Decide(vec: seq<Summary>, iops: seq<real>, loads: seq<real>,
                sender: int, base: int, threshold: real, minPos: int)
    returns (r: Option<seq<Decision>>, ghost picked: seq<nat>)
    requires 0 <= sender < |iops| && 0 <= base < |iops| && |loads| == |iops|
    requires forall k :: 0 <= k < |vec| ==> 0 <= vec[k].whoami < |iops|
    ensures r.None? <==> iops[sender] <= 1.0 && exists k :: 0 <= k < |vec| && Eligible(vec[k], sender, threshold, minPos)
    ensures r.Some? ==> |r.value| == |picked| <= MAX_EXPORTER_COUNT && Increasing(picked, |vec|)
    ensures r.Some? && r.value != [] ==> iops[sender] > 1.0
    ensures r.Some? ==> forall j :: 0 <= j < |picked| ==>
      Eligible(vec[picked[j]], sender, threshold, minPos) && Made(r.value[j], vec[picked[j]], j, iops, loads, base)
    ensures r.Some? ==> forall j :: 0 < j < |picked| ==> Share(j) > threshold
    ensures r.Some? && |picked| < MAX_EXPORTER_COUNT && (picked == [] || Share(|picked|) > threshold) ==>
      forall k :: 0 <= k < |vec| && Eligible(vec[k], sender, threshold, minPos) ==> k in picked
  {
    var amount := LUNULE_MIG_AMOUNT;
    var ds: seq<Decision> := [];
    picked := [];
    var k := 0;
    var stopped := false;
    while k < |vec| && |ds| < MAX_EXPORTER_COUNT && !stopped
      invariant DecidedSoFar(vec, iops, loads, sender, base, threshold, minPos, ds, picked, k)
      invariant |ds| <= MAX_EXPORTER_COUNT && amount == Share(|ds|)
      invariant picked != [] ==> iops[sender] > 1.0
      invariant stopped <==> picked != [] && Share(|picked|) <= threshold
    {
      if Eligible(vec[k], sender, threshold, minPos) {
        if iops[sender] <= 1.0 {
          r := None;
          return;
        }
        var pct := amount * Div(iops[base] - iops[vec[k].whoami], iops[base]);
        var d := Decision(vec[k].whoami, pct * loads[base], pct);
        DecidedPick(vec, iops, loads, sender, base, threshold, minPos, ds, picked, k, d);
        ds := ds + [d];
        picked := picked + [k];
        amount := amount / 2.0;
        stopped := amount <= threshold;
      } else {
        DecidedSkip(vec, iops, loads, sender, base, threshold, minPos, ds, picked, k);
      }
      k := k + 1;
    }
    if picked == [] {
      assert forall i :: 0 <= i < |vec| ==> !Eligible(vec[i], sender, threshold, minPos);
    }
    r := Some(ds);
  }

  /**
   * A summary whose rank must export: above the mean, and either the
   * busiest rank or imbalanced beyond `threshold`.
   */
  predicate Exporter(s: Summary, maxPos: int, threshold: real)
  {
    (maxPos == s.whoami || s.myIf > threshold) && s.isBigger
  }

  /**
   * The decisions for the exporter read at position `p` of the sorted
   * summaries, as written: they go to that summary's rank, and that rank's
   * IOPS decide the early return, but the share is taken of `iops[p]` and
   * `loads[p]`, rank `p`'s values.
   */
  method DecideAsWritten(vec: seq<Summary>, iops: seq<real>, loads: seq<real>, p: int, threshold: real, minPos: int)
    returns (r: Option<seq<Decision>>, ghost picked: seq<nat>)
    requires 0 <= p < |vec| == |iops| == |loads|
    requires forall k :: 0 <= k < |vec| ==> 0 <= vec[k].whoami < |iops|
    ensures r.None? <==> iops[vec[p].whoami] <= 1.0 && exists k :: 0 <= k < |vec| && Eligible(vec[k], vec[p].whoami, threshold, minPos)
    ensures r.Some? ==> |r.value| <= MAX_EXPORTER_COUNT
    ensures r.Some? && r.value != [] ==> iops[vec[p].whoami] > 1.0
    ensures r.Some? ==> |r.value| == |picked| && Increasing(picked, |vec|) && forall j :: 0 <= j < |picked| ==>
      Eligible(vec[picked[j]], vec[p].whoami, threshold, minPos) && Made(r.value[j], vec[picked[j]], j, iops, loads, p)
  {
    r, picked := Decide(vec, iops, loads, vec[p].whoami, p, threshold, minPos);
  }

  /**
   * The summaries are ranks' own: each names a rank, and is marked bigger
   * exactly when that rank's IOPS are above the mean.
   */
  predicate RankSummaries(vec: seq<Summary>, iops: seq<real>)
    requires iops != []
  {
    forall k :: 0 <= k < |vec| ==>
      0 <= vec[k].whoami < |iops| && (vec[k].isBigger <==> iops[vec[k].whoami] > Mean(iops))
  }

  /**
   * Rank `from`, above the mean IOPS (and above 1 if it decides anything),
   * hands at most `MAX_EXPORTER_COUNT` shares to other ranks at or below
   * the mean: the `j`-th gets `Share(j)` of the IOPS gap between rank
   * `base` and it, applied to rank `base`'s load.
   */
  predicate MovesFrom(from: int, base: int, ds: seq<Decision>, iops: seq<real>, loads: seq<real>)
    requires iops != [] && |loads| == |iops|
  {
    0 <= from < |iops| && 0 <= base < |iops| && iops[from] > Mean(iops) && |ds| <= MAX_EXPORTER_COUNT &&
    (ds != [] ==> iops[from] > 1.0) &&
    forall j :: 0 <= j < |ds| ==>
      0 <= ds[j].target < |iops| && ds[j].target != from && iops[ds[j].target] <= Mean(iops) &&
      ds[j].percent == Share(j) * Div(iops[base] - iops[ds[j].target], iops[base]) &&
      ds[j].exportLoad == ds[j].percent * loads[base]
  }

  /** What an exporter's decisions promise: `MovesFrom` with the share taken of its own IOPS and load. */
  predicate Moves(from: int, ds: seq<Decision>, iops: seq<real>, loads: seq<real>)
    requires iops != [] && |loads| == |iops|
  {
    MovesFrom(from, from, ds, iops, loads)
  }

  /**
   * The decisions `Decide` makes for a rank above the mean, over ranks' own
   * summaries, move load as `MovesFrom` says, the share taken of rank `base`.
   */
  lemma DecidedMoves(vec: seq<Summary>, iops: seq<real>, loads: seq<real>, sender: int, base: int,
                     threshold: real, minPos: int, ds: seq<Decision>, picked: seq<nat>)
    requires iops != [] && |loads| == |iops| && RankSummaries(vec, iops)
    requires 0 <= sender < |iops| && iops[sender] > Mean(iops) && 0 <= base < |iops|
    requires |ds| == |picked| <= MAX_EXPORTER_COUNT && Increasing(picked, |vec|)
    requires forall j :: 0 <= j < |picked| ==>
      Eligible(vec[picked[j]], sender, threshold, minPos) && Made(ds[j], vec[picked[j]], j, iops, loads, base)
    requires ds != [] ==> iops[sender] > 1.0
    ensures MovesFrom(sender, base, ds, iops, loads)
  {
  }

  /** One `send_ifbeat` of the cascade: rank `to` is told to carry out `decisions`. */
  datatype Send = Send(to: int, decisions: seq<Decision>)

  /**
   * `sends` are the ifbeats of the first `i` up ranks: one for every rank
   * other than 0 whose summary in `exam` (indexed by the up rank) must
   * export, at the positions `at` of `up`, each sent to that summary's rank
   * and moving load as `MovesFrom` says, with the share taken of rank
   * `bases[k]`.
   */
  ghost predicate CascadedSoFar(exam: seq<Summary>, iops: seq<real>, loads: seq<real>, threshold: real, maxPos: int,
                                up: seq<int>, sends: seq<Send>, bases: seq<int>, at: seq<nat>, i: nat)
    requires |exam| == |iops| == |loads| > 0
    requires forall i :: 0 <= i < |up| ==> 0 <= up[i] < |exam|
  {
    i <= |up| && |sends| == |at| == |bases| && Increasing(at, i) &&
    (forall k :: 0 <= k < |sends| ==>
       up[at[k]] != 0 && Exporter(exam[up[at[k]]], maxPos, threshold) && sends[k].to == exam[up[at[k]]].whoami) &&
    (forall k :: 0 <= k < |sends| ==> MovesFrom(sends[k].to, bases[k], sends[k].decisions, iops, loads)) &&
    (forall i' :: 0 <= i' < i && up[i'] != 0 && Exporter(exam[up[i']], maxPos, threshold) ==> i' in at)
  }

  /** An up rank that is 0 or need not export adds no ifbeat. */
  lemma CascadeSkip(exam: seq<Summary>, iops: seq<real>, loads: seq<real>, threshold: real, maxPos: int,
                    up: seq<int>, sends: seq<Send>, bases: seq<int>, at: seq<nat>, i: nat)
    requires |exam| == |iops| == |loads| > 0
    requires forall i :: 0 <= i < |up| ==> 0 <= up[i] < |exam|
    requires CascadedSoFar(exam, iops, loads, threshold, maxPos, up, sends, bases, at, i)
    requires i < |up| && (up[i] == 0 || !Exporter(exam[up[i]], maxPos, threshold))
    ensures CascadedSoFar(exam, iops, loads, threshold, maxPos, up, sends, bases, at, i + 1)
  {
  }

  /** An up rank other than 0 that must export gets the next ifbeat. */
  lemma CascadePick(exam: seq<Summary>, iops: seq<real>, loads: seq<real>, threshold: real, maxPos: int,
                    up: seq<int>, sends: seq<Send>, bases: seq<int>, at: seq<nat>, i: nat, s: Send, base: int)
    requires |exam| == |iops| == |loads| > 0
    requires forall i :: 0 <= i < |up| ==> 0 <= up[i] < |exam|
    requires CascadedSoFar(exam, iops, loads, threshold, maxPos, up, sends, bases, at, i)
    requires i < |up| && up[i] != 0 && Exporter(exam[up[i]], maxPos, threshold)
    requires s.to == exam[up[i]].whoami && MovesFrom(s.to, base, s.decisions, iops, loads)
    ensures CascadedSoFar(exam, iops, loads, threshold, maxPos, up, sends + [s], bases + [base], at + [i], i + 1)
  {
    var at' := at + [i];
    assert forall k :: 0 <= k < |at| ==> at'[k] == at[k];
  }

  /**
   * The exporter loop of `handle_ifbeat` as intended: every up rank `p`
   * other than 0 is looked at through its own summary, `own[p]`; if it must
   * export, it is sent its decisions over the sorted summaries, the share
   * taken of its own IOPS and load. `aborted` is the early return of
   * `Decide`, which ends the whole handler; the sends made before it stand.
   *
   * `at` are the positions in `up` that produced a send.
   */
  method ExporterCascade(own: seq<Summary>, vec: seq<Summary>, iops: seq<real>, loads: seq<real>,
                         threshold: real, maxPos: int, minPos: int, up: seq<int>)
    returns (sends: seq<Send>, aborted: bool, ghost at: seq<nat>)
    requires |own| == |vec| == |iops| == |loads| > 0 && RankSummaries(own, iops) && RankSummaries(vec, iops)
    requires forall p :: 0 <= p < |own| ==> own[p].whoami == p
    requires forall i :: 0 <= i < |up| ==> 0 <= up[i] < |own|
    ensures |sends| == |at| && Increasing(at, |up|)
    ensures forall k :: 0 <= k < |sends| ==>
      up[at[k]] != 0 && Exporter(own[up[at[k]]], maxPos, threshold) && sends[k].to == up[at[k]]
    ensures forall k :: 0 <= k < |sends| ==> Moves(sends[k].to, sends[k].decisions, iops, loads)
    ensures !aborted ==> forall i :: 0 <= i < |up| && up[i] != 0 && Exporter(own[up[i]], maxPos, threshold) ==> i in at
  {
    sends, aborted, at := [], false, [];
    ghost var bases: seq<int> := [];
    for i := 0 to |up|
      invariant CascadedSoFar(own, iops, loads, threshold, maxPos, up, sends, bases, at, i)
      invariant forall k :: 0 <= k < |sends| ==> bases[k] == sends[k].to
    {
      var p := up[i];
      if p != 0 && Exporter(own[p], maxPos, threshold) {
        var r, picked := Decide(vec, iops, loads, p, p, threshold, minPos);
        if r.None? {
          aborted := true;
          return;
        }
        DecidedMoves(vec, iops, loads, p, p, threshold, minPos, r.value, picked);
        var s := Send(p, r.value);
        CascadePick(own, iops, loads, threshold, maxPos, up, sends, bases, at, i, s, p);
        sends, bases, at := sends + [s], bases + [p], at + [i];
      } else {
        CascadeSkip(own, iops, loads, threshold, maxPos, up, sends, bases, at, i);
      }
    }
  }

  /** Exporter `s` makes `Decide` return early: its IOPS are at most 1 and some summary is eligible. */
  predicate Stuck(vec: seq<Summary>, iops: seq<real>, s: Summary, threshold: real, minPos: int)
    requires 0 <= s.whoami < |iops|
  {
    iops[s.whoami] <= 1.0 && exists k :: 0 <= k < |vec| && Eligible(vec[k], s.whoami, threshold, minPos)
  }

  /**
   * The exporter loop of `handle_ifbeat` as written: for every up rank `p`
   * other than 0 the summary at position `p` of the sorted vector is
   * looked at; if it must export, its rank is sent the decisions of
   * `DecideAsWritten`, the share taken of rank `p`'s IOPS and load, which
   * `bases` records.
   */
  method ExporterCascadeAsWritten(vec: seq<Summary>, iops: seq<real>, loads: seq<real>,
                                  threshold: real, maxPos: int, minPos: int, up: seq<int>)
    returns (sends: seq<Send>, aborted: bool, ghost at: seq<nat>, ghost bases: seq<int>)
    requires |vec| == |iops| == |loads| > 0 && RankSummaries(vec, iops)
    requires forall i :: 0 <= i < |up| ==> 0 <= up[i] < |vec|
    ensures |sends| == |at| == |bases| && Increasing(at, |up|)
    ensures forall k :: 0 <= k < |sends| ==>
      up[at[k]] != 0 && Exporter(vec[up[at[k]]], maxPos, threshold) && sends[k].to == vec[up[at[k]]].whoami &&
      bases[k] == up[at[k]]
    ensures forall k :: 0 <= k < |sends| ==> MovesFrom(sends[k].to, bases[k], sends[k].decisions, iops, loads)
    ensures !aborted ==> forall i :: 0 <= i < |up| && up[i] != 0 && Exporter(vec[up[i]], maxPos, threshold) ==> i in at
    ensures aborted ==>
      exists i :: 0 <= i < |up| && up[i] != 0 && Exporter(vec[up[i]], maxPos, threshold) &&
                  Stuck(vec, iops, vec[up[i]], threshold, minPos)
  {
    sends, aborted, at, bases := [], false, [], [];
    for i := 0 to |up|
      invariant CascadedSoFar(vec, iops, loads, threshold, maxPos, up, sends, bases, at, i)
      invariant forall k :: 0 <= k < |sends| ==> bases[k] == up[at[k]]
    {
      var p := up[i];
      if p != 0 && Exporter(vec[p], maxPos, threshold) {
        var r, picked := DecideAsWritten(vec, iops, loads, p, threshold, minPos);
        if r.None? {
          assert Stuck(vec, iops, vec[up[i]], threshold, minPos);
          aborted := true;
          return;
        }
        var sender := vec[p].whoami;
        DecidedMoves(vec, iops, loads, sender, p, threshold, minPos, r.value, picked);
        var s := Send(sender, r.value);
        CascadePick(vec, iops, loads, threshold, maxPos, up, sends, bases, at, i, s, p);
        sends, bases, at := sends + [s], bases + [p], at + [i];
      } else {
        CascadeSkip(vec, iops, loads, threshold, maxPos, up, sends, bases, at, i);
      }
    }
  }

  /**
   * With IOPS 100, 50 and 400 and factors 0.19, 0.30 and 0.48, the sorted
   * vector holds rank 0, then rank 2, then rank 1, so up rank 1 reads rank
   * 2's summary. Rank 2 must export and rank 0 is its first importer; as
   * written its share is taken of rank 1's IOPS and comes out as -25%,
   * where rank 2's own IOPS give 18.75%.
   */
  lemma IndexingCounterexample(vec: seq<Summary>, d: Decision)
    requires SortedFromSecond(vec, [Summary(0.19, 0.9, 0, false), Summary(0.30, 0.9, 1, false), Summary(0.48, 0.9, 2, true)])
    ensures vec[1] == Summary(0.48, 0.9, 2, true) && Exporter(vec[1], 2, 0.1)
    ensures vec[0] == Summary(0.19, 0.9, 0, false) && Eligible(vec[0], 2, 0.1, 1)
    ensures Made(d, vec[0], 0, [100.0, 50.0, 400.0], [1.0, 1.0, 1.0], 1) ==> d.percent == -0.25
    ensures Made(d, vec[0], 0, [100.0, 50.0, 400.0], [1.0, 1.0, 1.0], 2) ==> d.percent == 0.1875
  {
    var a, b := Summary(0.30, 0.9, 1, false), Summary(0.48, 0.9, 2, true);
    assert multiset(vec[1..]) == multiset{a, b} by {
      assert [Summary(0.19, 0.9, 0, false), a, b][1..] == [a, b];
    }
    assert |vec| == 3;
    assert vec[1] in multiset(vec[1..]) && vec[2] in multiset(vec[1..]) by {
      assert vec[1] == vec[1..][0] && vec[2] == vec[1..][1];
    }
  }

  /**
   * The floating-point functions `handle_ifbeat` uses and the model does
   * not compute: the square root, and the urgency `1/(1+e^(5-10x/p))` of
   * IOPS `x` under `mds_bal_presetmax` `p`.
   */
  datatype IfMath = IfMath(sqrt: real -> real, urgency: real -> real)

  /** `sum_quadratic`: the squared deviations of the IOPS from `avg`, added up. */
  function SumSquares(iops: seq<real>, avg: real): real
  {
    if iops == [] then 0.0
    else SumSquares(iops[..|iops| - 1], avg) + (iops[|iops| - 1] - avg) * (iops[|iops| - 1] - avg)
  }

  /**
   * A rank's `my_if`: the square root of its squared deviation from the
   * mean over `n - 1`, over the square root of `n` times the mean.
   */
  function RankIf(x: real, avg: real, n: nat, m: IfMath): real
  {
    Div(m.sqrt(Div((x - avg) * (x - avg), n as real - 1.0)), m.sqrt(n as real) * avg)
  }

  /**
   * What `handle_ifbeat` derives from the IOPS: every rank's factor and
   * urgency, the imbalance degree (the standard deviation over the square
   * root of `n` times the mean, 0 when that is 0) and the urgency of the
   * busiest rank.
   */
  datatype IfStats = IfStats(ifs: seq<real>, urgencies: seq<real>, degree: real, urgency: real)

  function Stats(iops: seq<real>, m: IfMath): (st: IfStats)
    requires iops != []
    ensures |st.ifs| == |st.urgencies| == |iops|
  {
    var n := |iops|;
    var avg := Mean(iops);
    var stdev := m.sqrt(Div(SumSquares(iops, avg), n as real - 1.0));
    var scale := m.sqrt(n as real) * avg;
    IfStats(seq(n, i requires 0 <= i < n => RankIf(iops[i], avg, n, m)),
            seq(n, i requires 0 <= i < n => m.urgency(iops[i])),
            if scale == 0.0 then 0.0 else stdev / scale,
            m.urgency(iops[MaxPos(iops)]))
  }

  /** `imbalance_factor`: the imbalance degree weighted by the urgency. */
  function ImbalanceFactor(iops: seq<real>, m: IfMath): real
    requires iops != []
  {
    var st := Stats(iops, m);
    st.degree * st.urgency
  }

  /** IOPS all at `avg` deviate by nothing. */
  lemma {:induction false} SumSquaresAtMean(iops: seq<real>, avg: real)
    requires forall i :: 0 <= i < |iops| ==> iops[i] == avg
    ensures SumSquares(iops, avg) == 0.0
  {
    if iops != [] {
      SumSquaresAtMean(iops[..|iops| - 1], avg);
    }
  }

  /**
   * When every rank runs at the same IOPS (and the square root of 0 is 0),
   * no rank is imbalanced and the imbalance factor is 0: a round never
   * starts in a balanced cluster for a positive threshold.
   */
  lemma UniformIopsBalanced(iops: seq<real>, m: IfMath)
    requires iops != [] && m.sqrt(0.0) == 0.0
    requires forall i :: 0 <= i < |iops| ==> iops[i] == iops[0]
    ensures Mean(iops) == iops[0] && ImbalanceFactor(iops, m) == 0.0
    ensures forall i :: 0 <= i < |iops| ==> Stats(iops, m).ifs[i] == 0.0
  {
    LoadArrays.SumUniform(iops, iops[0]);
    var avg := Mean(iops);
    assert avg == iops[0];
    SumSquaresAtMean(iops, avg);
    assert Div(SumSquares(iops, avg), |iops| as real - 1.0) == 0.0;
    forall i | 0 <= i < |iops|
      ensures Stats(iops, m).ifs[i] == 0.0
    {
      assert (iops[i] - avg) * (iops[i] - avg) == 0.0;
    }
  }

  /**
   * An imbalance factor at or above a positive threshold needs spread IOPS
   * (given that the square root of 0 is 0): the busiest rank is then above
   * the mean, so its summary is marked bigger.
   */
  lemma ImbalancedBusiestAboveMean(iops: seq<real>, m: IfMath, ifThreshold: real)
    requires iops != [] && m.sqrt(0.0) == 0.0 && ifThreshold > 0.0
    requires ImbalanceFactor(iops, m) >= ifThreshold
    ensures iops[MaxPos(iops)] > Mean(iops)
  {
    var avg := Mean(iops);
    assert (|iops| as real) * avg == LoadArrays.Sum(iops);
    if iops[MaxPos(iops)] <= avg {
      if exists k :: 0 <= k < |iops| && iops[k] < avg {
        var k :| 0 <= k < |iops| && iops[k] < avg;
        LoadArrays.SumAtMost(iops, avg, k);
        assert false;
      }
      assert forall i :: 0 <= i < |iops| ==> iops[i] == avg;
      SumSquaresAtMean(iops, avg);
      assert Div(SumSquares(iops, avg), |iops| as real - 1.0) == 0.0;
      assert false;
    }
  }

  /**
   * Sorting from the second position keeps the summaries ranks' own: the
   * first is still rank 0's when the summaries were built in rank order,
   * and none after it is.
   */
  lemma SortedRanks(vec: seq<Summary>, summaries: seq<Summary>, iops: seq<real>)
    requires SortedFromSecond(vec, summaries) && |summaries| == |iops| > 0
    requires forall i :: 0 <= i < |summaries| ==>
      summaries[i].whoami == i && (summaries[i].isBigger <==> iops[i] > Mean(iops))
    ensures RankSummaries(vec, iops) && vec[0] == summaries[0]
    ensures forall k :: 1 <= k < |vec| ==> vec[k].whoami != 0
  {
    forall k | 1 <= k < |vec|
      ensures 0 < vec[k].whoami < |iops| && (vec[k].isBigger <==> iops[vec[k].whoami] > Mean(iops))
    {
      assert vec[k] == vec[1..][k - 1];
      assert vec[k] in multiset(summaries[1..]);
      var i :| 0 <= i < |summaries| - 1 && summaries[1..][i] == vec[k];
      assert summaries[i + 1] == vec[k];
    }
  }

  /**
   * What rank 0 decided in an imbalance-factor round: the factor, the
   * ifbeats of the exporter cascade, its own decisions, whether it cleared
   * the export queue first, and whether the handler returned early.
   */
  datatype IfOutcome = IfOutcome(factor: real, sends: seq<Send>, own: Option<seq<Decision>>, clear: bool, aborted: bool)

  /** Every ifbeat goes to a rank other than 0 and moves load as `Moves` says. */
  predicate Sent(sends: seq<Send>, iops: seq<real>, loads: seq<real>)
    requires iops != [] && |loads| == |iops|
  {
    forall k :: 0 <= k < |sends| ==> sends[k].to != 0 && Moves(sends[k].to, sends[k].decisions, iops, loads)
  }

  /** Rank 0 must export: above the mean, and the busiest rank or imbalanced beyond the shared threshold. */
  predicate ExportsItself(iops: seq<real>, m: IfMath, ifThreshold: real)
    requires iops != []
  {
    iops[0] > Mean(iops) && (MaxPos(iops) == 0 || Stats(iops, m).ifs[0] > MyIfThreshold(ifThreshold, |iops|))
  }

  /**
   * What a round promises, from every rank's IOPS and load: nothing happens
   * below the threshold; every ifbeat goes to a rank other than 0 and, like
   * rank 0's own decisions, moves load from a rank above the mean IOPS to
   * ranks at or below it; rank 0 decides for itself exactly when it must
   * export (and nothing returned early); the queue is cleared exactly with
   * such decisions when the urgency is above 0.1 in an even epoch.
   */
  predicate RoundSound(o: IfOutcome, iops: seq<real>, loads: seq<real>, m: IfMath, ifThreshold: real, epoch: int)
    requires iops != [] && |loads| == |iops|
  {
    o.factor == ImbalanceFactor(iops, m) &&
    (o.factor < ifThreshold ==> o.sends == [] && o.own.None? && !o.clear && !o.aborted) &&
    Sent(o.sends, iops, loads) &&
    (o.own.Some? ==> Moves(0, o.own.value, iops, loads)) &&
    (o.own.Some? <==> o.factor >= ifThreshold && !o.aborted && ExportsItself(iops, m, ifThreshold)) &&
    (o.clear <==> o.own.Some? && Stats(iops, m).urgency > 0.1 && epoch % 2 == 0)
  }

  /**
   * Rank 0's own decisions, taken once the round has found that it must
   * export: `None` is the early return of `Decide`, which ends the handler.
   */
  method OwnDecisions(vec: seq<Summary>, iops: seq<real>, loads: seq<real>, threshold: real, minPos: int)
    returns (r: Option<seq<Decision>>)
    requires |iops| == |loads| > 0 && RankSummaries(vec, iops) && iops[0] > Mean(iops)
    ensures r.None? <==> iops[0] <= 1.0 && exists k :: 0 <= k < |vec| && Eligible(vec[k], 0, threshold, minPos)
    ensures r.Some? ==> Moves(0, r.value, iops, loads)
  {
    ghost var picked;
    r, picked := Decide(vec, iops, loads, 0, 0, threshold, minPos);
    if r.Some? {
      DecidedMoves(vec, iops, loads, 0, 0, threshold, minPos, r.value, picked);
    }
  }

  /**
   * Rank 0's round of `handle_ifbeat` as intended, once it has every rank's
   * IOPS and load: the statistics, the summaries sorted from the second on,
   * the exporter cascade over the up ranks with `max_pos` and `min_pos` the
   * busiest and idlest ranks, each exporter looked at through its own
   * summary and sharing out its own load, and rank 0's own decisions.
   * `IfRoundAsWritten` is the round as the handler has it.
   */
  method IfRound(iops: seq<real>, loads: seq<real>, m: IfMath, ifThreshold: real, up: seq<int>, epoch: int)
    returns (o: IfOutcome)
    requires |iops| == |loads| > 0
    requires forall i :: 0 <= i < |up| ==> 0 <= up[i] < |iops|
    ensures RoundSound(o, iops, loads, m, ifThreshold, epoch)
  {
    var st := Stats(iops, m);
    var factor := ImbalanceFactor(iops, m);
    if factor < ifThreshold {
      return IfOutcome(factor, [], None, false, false);
    }
    var threshold := MyIfThreshold(ifThreshold, |iops|);
    var maxPos, minPos := MaxPos(iops), MinPos(iops);
    var summaries := BuildSummaries(st.ifs, st.urgencies, iops);
    var vec := SortSummaries(summaries);
    SortedRanks(vec, summaries, iops);
    var sends, aborted, at := ExporterCascade(summaries, vec, iops, loads, threshold, maxPos, minPos, up);
    assert Sent(sends, iops, loads);
    if aborted {
      return IfOutcome(factor, sends, None, false, true);
    }
    assert Exporter(vec[0], maxPos, threshold) == ExportsItself(iops, m, ifThreshold);
    if !Exporter(vec[0], maxPos, threshold) {
      return IfOutcome(factor, sends, None, false, false);
    }
    var r := OwnDecisions(vec, iops, loads, threshold, minPos);
    if r.None? {
      return IfOutcome(factor, sends, None, false, true);
    }
    o := IfOutcome(factor, sends, r, st.urgency > 0.1 && epoch % 2 == 0, false);
  }

  /** Sorting from the second position keeps every summary's factor its rank's. */
  lemma SortedFactors(vec: seq<Summary>, summaries: seq<Summary>, ifs: seq<real>)
    requires SortedFromSecond(vec, summaries) && |summaries| == |ifs|
    requires forall i :: 0 <= i < |summaries| ==> summaries[i].whoami == i && summaries[i].myIf == ifs[i]
    ensures forall k :: 0 <= k < |vec| ==> 0 <= vec[k].whoami < |ifs| && vec[k].myIf == ifs[vec[k].whoami]
  {
    forall k | 0 <= k < |vec|
      ensures 0 <= vec[k].whoami < |ifs| && vec[k].myIf == ifs[vec[k].whoami]
    {
      if k > 0 {
        assert vec[k] == vec[1..][k - 1];
        assert vec[k] in multiset(summaries[1..]);
        var i :| 0 <= i < |summaries| - 1 && summaries[1..][i] == vec[k];
        assert summaries[i + 1] == vec[k];
      }
    }
  }

  /**
   * What the round as written promises: as `RoundSound`, except that the
   * share of the `k`-th ifbeat is taken of rank `bases[k]`, and that, with
   * `max_pos` never naming a rank other than 0, a rank other than 0 is sent
   * decisions only when its own factor is above the shared threshold.
   */
  predicate RoundAsWrittenSound(o: IfOutcome, bases: seq<int>, iops: seq<real>, loads: seq<real>, m: IfMath,
                                ifThreshold: real, epoch: int)
    requires iops != [] && |loads| == |iops|
  {
    AsWrittenOutcome(o, iops, loads, m, ifThreshold, epoch) && SharedFrom(o.sends, bases, iops, loads)
  }

  /** The `k`-th ifbeat moves load from its rank, the share taken of rank `bases[k]`'s IOPS and load. */
  predicate SharedFrom(sends: seq<Send>, bases: seq<int>, iops: seq<real>, loads: seq<real>)
    requires iops != [] && |loads| == |iops|
  {
    |bases| == |sends| && forall k :: 0 <= k < |sends| ==> MovesFrom(sends[k].to, bases[k], sends[k].decisions, iops, loads)
  }

  /** `RoundAsWrittenSound` without the share bases. */
  predicate AsWrittenOutcome(o: IfOutcome, iops: seq<real>, loads: seq<real>, m: IfMath, ifThreshold: real, epoch: int)
    requires iops != [] && |loads| == |iops|
  {
    o.factor == ImbalanceFactor(iops, m) &&
    (o.factor < ifThreshold ==> o.sends == [] && o.own.None? && !o.clear && !o.aborted) &&
    (forall k :: 0 <= k < |o.sends| ==>
       0 < o.sends[k].to < |iops| && Stats(iops, m).ifs[o.sends[k].to] > MyIfThreshold(ifThreshold, |iops|)) &&
    (o.own.Some? ==> Moves(0, o.own.value, iops, loads)) &&
    (o.own.Some? <==> o.factor >= ifThreshold && !o.aborted && ExportsItself(iops, m, ifThreshold)) &&
    (o.clear <==> o.own.Some? && Stats(iops, m).urgency > 0.1 && epoch % 2 == 0)
  }

  /** A round as written whose ifbeats all take their share of the receiver's own values keeps `RoundSound`. */
  lemma AsWrittenSoundWhenBasesAgree(o: IfOutcome, bases: seq<int>, iops: seq<real>, loads: seq<real>, m: IfMath,
                                     ifThreshold: real, epoch: int)
    requires iops != [] && |loads| == |iops|
    requires RoundAsWrittenSound(o, bases, iops, loads, m, ifThreshold, epoch)
    requires forall k :: 0 <= k < |o.sends| ==> bases[k] == o.sends[k].to
    ensures RoundSound(o, iops, loads, m, ifThreshold, epoch)
  {
  }

  /**
   * With `max_pos` at most 0, an exporter read at a position other than 0
   * is one only by its factor: every rank sent decisions there is not rank
   * 0 and has a factor above the threshold.
   */
  lemma SentAboveThreshold(vec: seq<Summary>, ifs: seq<real>, sends: seq<Send>, at: seq<nat>, up: seq<int>,
                           threshold: real, maxPos: int)
    requires maxPos <= 0 && |sends| == |at| && Increasing(at, |up|)
    requires forall i :: 0 <= i < |up| ==> 0 <= up[i] < |vec|
    requires forall k :: 1 <= k < |vec| ==> vec[k].whoami != 0
    requires forall k :: 0 <= k < |vec| ==> 0 <= vec[k].whoami < |ifs| && vec[k].myIf == ifs[vec[k].whoami]
    requires forall k :: 0 <= k < |sends| ==>
      up[at[k]] != 0 && Exporter(vec[up[at[k]]], maxPos, threshold) && sends[k].to == vec[up[at[k]]].whoami
    ensures forall k :: 0 <= k < |sends| ==>
      0 < sends[k].to < |ifs| && ifs[sends[k].to] > threshold
  {
    forall k | 0 <= k < |sends|
      ensures 0 < sends[k].to < |ifs| && ifs[sends[k].to] > threshold
    {
      assert 0 < up[at[k]] < |vec|;
    }
  }

  /**
   * The exporter cascade of the round as written, seen from its ifbeats:
   * each goes to a rank other than 0 whose factor is above the threshold,
   * with the share taken of rank `bases[k]`.
   */
  method CascadeAsWrittenSent(vec: seq<Summary>, summaries: seq<Summary>, ifs: seq<real>, iops: seq<real>,
                              loads: seq<real>, threshold: real, maxPos: int, minPos: int, up: seq<int>)
    returns (sends: seq<Send>, aborted: bool, ghost bases: seq<int>)
    requires |vec| == |iops| == |loads| > 0 && RankSummaries(vec, iops) && maxPos <= 0
    requires SortedFromSecond(vec, summaries) && |summaries| == |ifs|
    requires forall i :: 0 <= i < |summaries| ==> summaries[i].whoami == i && summaries[i].myIf == ifs[i]
    requires forall k :: 1 <= k < |vec| ==> vec[k].whoami != 0
    requires forall i :: 0 <= i < |up| ==> 0 <= up[i] < |vec|
    ensures forall k :: 0 <= k < |sends| ==> 0 < sends[k].to < |ifs| && ifs[sends[k].to] > threshold
    ensures SharedFrom(sends, bases, iops, loads)
    ensures aborted ==>
      exists i :: 0 <= i < |up| && up[i] != 0 && Exporter(vec[up[i]], maxPos, threshold) &&
                  Stuck(vec, iops, vec[up[i]], threshold, minPos)
  {
    SortedFactors(vec, summaries, ifs);
    ghost var at;
    sends, aborted, at, bases := ExporterCascadeAsWritten(vec, iops, loads, threshold, maxPos, minPos, up);
    SentAboveThreshold(vec, ifs, sends, at, up, threshold, maxPos);
  }

  /**
   * Rank 0's round as `handle_ifbeat` has it: `max_pos` and `min_pos` are
   * the negated positions, the exporter at up rank `p` is read at position
   * `p` of the sorted summaries and shares out rank `p`'s load, and rank 0's
   * own decisions follow. `bases` are the ranks the shares were taken of.
   */
  method IfRoundAsWritten(iops: seq<real>, loads: seq<real>, m: IfMath, ifThreshold: real, up: seq<int>, epoch: int)
    returns (o: IfOutcome, ghost bases: seq<int>)
    requires |iops| == |loads| > 0
    requires forall i :: 0 <= i < |up| ==> 0 <= up[i] < |iops|
    ensures AsWrittenOutcome(o, iops, loads, m, ifThreshold, epoch)
    ensures RoundAsWrittenSound(o, bases, iops, loads, m, ifThreshold, epoch)
  {
    var st := Stats(iops, m);
    var factor := ImbalanceFactor(iops, m);
    if factor < ifThreshold {
      return IfOutcome(factor, [], None, false, false), [];
    }
    var threshold := MyIfThreshold(ifThreshold, |iops|);
    var sends, own, aborted;
    sends, own, aborted, bases := ExportersAsWritten(iops, loads, st.ifs, st.urgencies, threshold, up);
    o := IfOutcome(factor, sends, own, own.Some? && st.urgency > 0.1 && epoch % 2 == 0, aborted);
  }

  /**
   * The exporters of the round as written, once the factor has passed the
   * threshold: the summaries of `ifs` and `urgencies`, sorted from the
   * second on, the cascade over the up ranks with the negated positions,
   * then rank 0's own decisions, which a cascade that returned early never
   * reaches.
   */
  method ExportersAsWritten(iops: seq<real>, loads: seq<real>, ifs: seq<real>, urgencies: seq<real>,
                            threshold: real, up: seq<int>)
    returns (sends: seq<Send>, own: Option<seq<Decision>>, aborted: bool, ghost bases: seq<int>)
    requires |iops| == |loads| == |ifs| == |urgencies| > 0
    requires forall i :: 0 <= i < |up| ==> 0 <= up[i] < |iops|
    ensures forall k :: 0 <= k < |sends| ==> 0 < sends[k].to < |ifs| && ifs[sends[k].to] > threshold
    ensures SharedFrom(sends, bases, iops, loads)
    ensures own.Some? ==> Moves(0, own.value, iops, loads)
    ensures own.Some? <==> !aborted && iops[0] > Mean(iops) && (MaxPos(iops) == 0 || ifs[0] > threshold)
  {
    var maxPos, minPos := MaxPosAsWritten(iops), MinPosAsWritten(iops);
    var summaries := BuildSummaries(ifs, urgencies, iops);
    var vec := SortSummaries(summaries);
    SortedRanks(vec, summaries, iops);
    sends, aborted, bases := CascadeAsWrittenSent(vec, summaries, ifs, iops, loads, threshold, maxPos, minPos, up);
    own := None;
    if aborted {
      return;
    }
    MaxPosAsWrittenMissesBusiest(iops);
    if !Exporter(vec[0], maxPos, threshold) {
      return;
    }
    own := OwnDecisions(vec, iops, loads, threshold, minPos);
    aborted := own.None?;
  }

  /**
   * With IOPS 100, 50 and 400 rank 2 is the busiest, so the intended test
   * makes it an exporter whatever its factor; as written `max_pos` is -2,
   * and with a threshold at or above its factor 0.48 the same summary is
   * no exporter, so the round sends it nothing.
   */
  lemma BusiestRankCounterexample()
    ensures Exporter(Summary(0.48, 0.9, 2, true), MaxPos([100.0, 50.0, 400.0]), 0.5)
    ensures !Exporter(Summary(0.48, 0.9, 2, true), MaxPosAsWritten([100.0, 50.0, 400.0]), 0.5)
  {
    PositionsCounterexample();
  }
}
