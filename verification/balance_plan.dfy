/**
 * The greedy rebalance matcher of the metadata-server balancer
 * (src/mds/MDBalancer.cc `try_match` and the matching passes of
 * `prep_rebalance`, src/mds/MDBalancer.h `balance_state_t`, `get_maxex`,
 * `get_maxim`): every rank's load is compared with the cluster's mean, ranks
 * above it export to ranks below it, and `balance_state_t` records how much
 * each rank exports and imports and how much the local rank sends to whom.
 */
module BalancePlans {
  import opened Multimaps
  import LoadArrays

  /** Matches and candidates at or below this much load are not worth making. */
  const MATCH_EPSILON: real := 0.001

  /** `map<mds_rank_t, double>::operator[]` read: a rank with no entry reads as 0. */
  function Get(m: map<int, real>, k: int): real
  {
    if k in m then m[k] else 0.0
  }

  function Min(a: real, b: real): real
  {
    if a <= b then a else b
  }

  /** One entry of a rank-keyed `std::map<mds_rank_t, float>`. */
  datatype RankLoad = RankLoad(rank: int, load: real)

  /** A rank-keyed `std::map`: one entry per rank, in ascending rank order. */
  predicate Ordered(m: seq<RankLoad>)
  {
    forall i, j :: 0 <= i < j < |m| ==> m[i].rank < m[j].rank
  }

  /** The ranks a rank-keyed map has entries for. */
  ghost function Ranks(m: seq<RankLoad>): set<int>
  {
    set i | 0 <= i < |m| :: m[i].rank
  }

  /** `operator[]` read of a rank-keyed map: the entry's load, 0 without one. */
  function Lookup(m: seq<RankLoad>, r: int): real
  {
    if m == [] then 0.0 else if m[0].rank == r then m[0].load else Lookup(m[1..], r)
  }

  /** The keys of a rank-keyed map in iteration order. */
  function Keys(m: seq<RankLoad>): (r: seq<int>)
    ensures |r| == |m| && forall i :: 0 <= i < |m| ==> r[i] == m[i].rank
  {
    seq(|m|, i requires 0 <= i < |m| => m[i].rank)
  }

  lemma RanksCons(x: RankLoad, m: seq<RankLoad>)
    ensures Ranks([x] + m) == {x.rank} + Ranks(m)
  {
    var c := [x] + m;
    forall q | q in Ranks(c)
      ensures q in {x.rank} + Ranks(m)
    {
      var i :| 0 <= i < |c| && c[i].rank == q;
      if i > 0 { assert c[i] == m[i - 1]; }
    }
    forall q | q in Ranks(m)
      ensures q in Ranks(c)
    {
      var i :| 0 <= i < |m| && m[i].rank == q;
      assert c[i + 1] == m[i];
    }
    assert c[0] == x;
  }

  /** `m[r] += v`: the entry for `r` is created at its place in rank order if missing. */
  function AddLoad(m: seq<RankLoad>, r: int, v: real): (res: seq<RankLoad>)
    ensures res != [] && (res[0].rank == r || (m != [] && res[0] == m[0]))
  {
    if m == [] || r < m[0].rank then [RankLoad(r, v)] + m
    else if r == m[0].rank then [RankLoad(r, m[0].load + v)] + m[1..]
    else [m[0]] + AddLoad(m[1..], r, v)
  }

  /** Adding to a rank-keyed map gives it an entry for that rank and no other new one. */
  lemma {:induction false} AddLoadRanks(m: seq<RankLoad>, r: int, v: real)
    ensures Ranks(AddLoad(m, r, v)) == Ranks(m) + {r}
  {
    if m == [] || r < m[0].rank {
      RanksCons(RankLoad(r, v), m);
    } else {
      RanksCons(m[0], m[1..]);
      assert m == [m[0]] + m[1..];
      if r == m[0].rank {
        RanksCons(RankLoad(r, m[0].load + v), m[1..]);
      } else {
        AddLoadRanks(m[1..], r, v);
        RanksCons(m[0], AddLoad(m[1..], r, v));
      }
    }
  }

  /** An entry whose rank is below the head's keeps a rank-keyed map ordered. */
  lemma OrderedCons(x: RankLoad, t: seq<RankLoad>)
    requires Ordered(t) && (t == [] || x.rank < t[0].rank)
    ensures Ordered([x] + t)
  {
    var c := [x] + t;
    forall i, j | 0 <= i < j < |c|
      ensures c[i].rank < c[j].rank
    {
      assert c[j] == t[j - 1];
      if i > 0 { assert c[i] == t[i - 1]; } else if j > 1 { assert t[0].rank < t[j - 1].rank; }
    }
  }

  /** Adding to a rank-keyed map keeps its entries in ascending rank order. */
  lemma {:induction false} AddLoadOrdered(m: seq<RankLoad>, r: int, v: real)
    requires Ordered(m)
    ensures Ordered(AddLoad(m, r, v))
  {
    if m == [] || r < m[0].rank {
      OrderedCons(RankLoad(r, v), m);
    } else if r == m[0].rank {
      assert Ordered(m[1..]);
      OrderedCons(RankLoad(r, m[0].load + v), m[1..]);
    } else {
      assert Ordered(m[1..]);
      AddLoadOrdered(m[1..], r, v);
      OrderedCons(m[0], AddLoad(m[1..], r, v));
    }
  }

  /** A rank below the first key of an ordered map has no entry. */
  lemma {:induction false} LookupBelowFirst(m: seq<RankLoad>, r: int)
    requires Ordered(m) && m != [] && r < m[0].rank
    ensures Lookup(m, r) == 0.0
  {
    if |m| > 1 {
      assert m[0].rank < m[1].rank;
      assert Ordered(m[1..]);
      LookupBelowFirst(m[1..], r);
    }
  }

  /** Adding to one rank's entry moves that entry by `v` and leaves every other entry as it was. */
  lemma {:induction false} AddLoadLookup(m: seq<RankLoad>, r: int, v: real, q: int)
    requires Ordered(m)
    ensures Lookup(AddLoad(m, r, v), q) == Lookup(m, q) + (if q == r then v else 0.0)
  {
    if m != [] && r > m[0].rank {
      assert Ordered(m[1..]);
      AddLoadLookup(m[1..], r, v, q);
    } else if m != [] && r < m[0].rank && q == r {
      LookupBelowFirst(m, r);
    } else if m != [] && r < m[0].rank {
      var res := AddLoad(m, r, v);
      assert res[1..] == m;
    } else if m != [] && q != r {
      assert Lookup(AddLoad(m, r, v), q) == Lookup(m[1..], q);
    }
  }

  /** `map<mds_rank_t, int>::operator[]` read: a rank with no entry reads as epoch 0. */
  function GetEpoch(m: map<int, int>, k: int): int
  {
    if k in m then m[k] else 0
  }

  /** Rank `i` keyed by its scaled load `meta[i]`, for every rank in order. */
  function LoadEntries(meta: seq<real>): (r: seq<Entry<int>>)
    ensures |r| == |meta| && forall i :: 0 <= i < |meta| ==> r[i] == Entry(meta[i], i)
  {
    seq(|meta|, i requires 0 <= i < |meta| => Entry(meta[i], i))
  }

  /** `load_map`: the ranks inserted one by one into a multimap keyed by load. */
  function LoadMap(meta: seq<real>): seq<Entry<int>>
  {
    Build(LoadEntries(meta))
  }

  /** `target_load`: the mean of the scaled loads of the `cluster_size` ranks. */
  function TargetLoad(meta: seq<real>): real
    requires |meta| > 0
  {
    LoadArrays.Sum(meta) / (|meta| as real)
  }

  /** A rank under `target * (1 + minRebalance)` is underloaded or barely overloaded. */
  predicate Underloaded(load: real, target: real, minRebalance: real)
  {
    load < target * (1.0 + minRebalance)
  }

  /**
   * `mds_last_epoch_under_map` after the "under or over?" loop has walked
   * `entries`: every rank whose load is underloaded or barely overloaded is
   * stamped with the current epoch.
   */
  function Stamp(lastUnder: map<int, int>, entries: seq<Entry<int>>, target: real, minRebalance: real, epoch: int): map<int, int>
  {
    if entries == [] then lastUnder
    else
      var e := entries[|entries| - 1];
      var before := Stamp(lastUnder, entries[..|entries| - 1], target, minRebalance, epoch);
      if Underloaded(e.key, target, minRebalance) then before[e.value := epoch] else before
  }

  /** Some entry of `entries` names rank `r` with an underloaded load. */
  predicate StampsRank(entries: seq<Entry<int>>, r: int, target: real, minRebalance: real)
  {
    exists i :: 0 <= i < |entries| && entries[i].value == r && Underloaded(entries[i].key, target, minRebalance)
  }

  /** A rank is stamped with the epoch exactly when one of its entries is underloaded; other ranks keep their epoch. */
  lemma {:induction false} StampEpoch(lastUnder: map<int, int>, entries: seq<Entry<int>>, target: real,
                                      minRebalance: real, epoch: int, r: int)
    ensures GetEpoch(Stamp(lastUnder, entries, target, minRebalance, epoch), r) ==
      if StampsRank(entries, r, target, minRebalance) then epoch else GetEpoch(lastUnder, r)
  {
    if entries != [] {
      var init := entries[..|entries| - 1];
      StampEpoch(lastUnder, init, target, minRebalance, epoch, r);
      if StampsRank(entries, r, target, minRebalance) {
        var i :| 0 <= i < |entries| && entries[i].value == r && Underloaded(entries[i].key, target, minRebalance);
        if i < |init| {
          assert init[i] == entries[i];
        }
      } else {
        forall i | 0 <= i < |init|
          ensures !(init[i].value == r && Underloaded(init[i].key, target, minRebalance))
        {
          assert init[i] == entries[i];
        }
      }
    }
  }

  /**
   * After the loop over the load map, rank `r` carries the current epoch if
   * it is one of the `cluster_size` ranks and is underloaded or barely
   * overloaded, and its old epoch otherwise.
   */
  lemma StampLoadMap(lastUnder: map<int, int>, meta: seq<real>, target: real, minRebalance: real, epoch: int, r: int)
    ensures GetEpoch(Stamp(lastUnder, LoadMap(meta), target, minRebalance, epoch), r) ==
      if 0 <= r < |meta| && Underloaded(meta[r], target, minRebalance) then epoch else GetEpoch(lastUnder, r)
  {
    var lm := LoadMap(meta);
    StampEpoch(lastUnder, lm, target, minRebalance, epoch, r);
    if StampsRank(lm, r, target, minRebalance) {
      var i :| 0 <= i < |lm| && lm[i].value == r && Underloaded(lm[i].key, target, minRebalance);
      InLoadMap(meta, lm[i]);
    }
    if 0 <= r < |meta| && Underloaded(meta[r], target, minRebalance) {
      InLoadMap(meta, Entry(meta[r], r));
      var i :| 0 <= i < |lm| && lm[i] == Entry(meta[r], r);
    }
  }

  /** A rank that was under the target recently (less than two epochs ago) is held back from exporting. */
  predicate Held(lastUnder: map<int, int>, r: int, epoch: int)
  {
    GetEpoch(lastUnder, r) != 0 && epoch - GetEpoch(lastUnder, r) < 2
  }

  /** The members of a non-empty multimap are its head and its tail's; if sorted, the head's key is the least. */
  lemma HeadFacts(s: seq<Entry<int>>)
    requires s != []
    ensures forall e :: e in s <==> e == s[0] || e in s[1..]
    ensures Sorted(s) ==> Sorted(s[1..]) && forall e :: e in s ==> s[0].key <= e.key
  {
    assert s == [s[0]] + s[1..];
  }

  /** The entries of a multimap whose load is below `target`, in multimap order. */
  function Below(s: seq<Entry<int>>, target: real): (r: seq<Entry<int>>)
    ensures forall e :: e in r <==> e in s && e.key < target
    ensures Sorted(s) ==> Sorted(r)
  {
    if s == [] then []
    else
      var rest := Below(s[1..], target);
      HeadFacts(s);
      if s[0].key < target then
        assert rest != [] ==> rest[0] in rest;
        SortedCons(s[0], rest);
        [s[0]] + rest
      else rest
  }

  /** The entries of a multimap at or above `target` whose rank is not held, in multimap order. */
  function AboveFree(s: seq<Entry<int>>, target: real, lastUnder: map<int, int>, epoch: int): (r: seq<Entry<int>>)
    ensures forall e :: e in r <==> e in s && !(e.key < target) && !Held(lastUnder, e.value, epoch)
    ensures Sorted(s) ==> Sorted(r)
  {
    if s == [] then []
    else
      var rest := AboveFree(s[1..], target, lastUnder, epoch);
      HeadFacts(s);
      if !(s[0].key < target) && !Held(lastUnder, s[0].value, epoch) then
        assert rest != [] ==> rest[0] in rest;
        SortedCons(s[0], rest);
        [s[0]] + rest
      else rest
  }

  /** Filtering one more entry extends the importers by it exactly when it is below the target. */
  lemma {:induction false} BelowSnoc(s: seq<Entry<int>>, e: Entry<int>, target: real)
    ensures Below(s + [e], target) == Below(s, target) + (if e.key < target then [e] else [])
  {
    if s != [] {
      assert (s + [e])[1..] == s[1..] + [e];
      BelowSnoc(s[1..], e, target);
    } else {
      assert [e][1..] == [];
    }
  }

  /** Filtering one more entry extends the exporters by it exactly when it is at or above the target and free. */
  lemma {:induction false} AboveFreeSnoc(s: seq<Entry<int>>, e: Entry<int>, target: real, lastUnder: map<int, int>, epoch: int)
    ensures AboveFree(s + [e], target, lastUnder, epoch) ==
      AboveFree(s, target, lastUnder, epoch) + (if !(e.key < target) && !Held(lastUnder, e.value, epoch) then [e] else [])
  {
    if s != [] {
      assert (s + [e])[1..] == s[1..] + [e];
      AboveFreeSnoc(s[1..], e, target, lastUnder, epoch);
    } else {
      assert [e][1..] == [];
    }
  }

  /**
   * The "first separate exporters and importers" loop of `prep_rebalance`:
   * walking the load map in key order, ranks below the target go into
   * `importers`, the others into `exporters` unless they are held back.
   * Each is a multimap built by `insert`, so both keep key order, and the
   * result is exactly the two filters of the load map.
   */
  method Partition(loadMap: seq<Entry<int>>, target: real, lastUnder: map<int, int>, epoch: int)
    returns (importers: seq<Entry<int>>, exporters: seq<Entry<int>>)
    requires Sorted(loadMap)
    ensures importers == Below(loadMap, target) && Sorted(importers)
    ensures exporters == AboveFree(loadMap, target, lastUnder, epoch) && Sorted(exporters)
  {
    importers, exporters := [], [];
    for k := 0 to |loadMap|
      invariant importers == Below(loadMap[..k], target)
      invariant exporters == AboveFree(loadMap[..k], target, lastUnder, epoch)
    {
      var e := loadMap[k];
      PartitionStepBelow(loadMap, k, target);
      PartitionStepAbove(loadMap, k, target, lastUnder, epoch);
      if e.key < target {
        InsertLast(importers, e);
        importers := Insert(importers, e);
      } else if !Held(lastUnder, e.value, epoch) {
        InsertLast(exporters, e);
        exporters := Insert(exporters, e);
      }
    }
    assert loadMap[..|loadMap|] == loadMap;
  }

  /** The entries before position `k` of a sorted multimap are sorted and have keys at most the `k`-th. */
  lemma SortedPrefix(s: seq<Entry<int>>, k: nat)
    requires Sorted(s) && k < |s|
    ensures Sorted(s[..k]) && forall e :: e in s[..k] ==> e.key <= s[k].key
  {
    forall e | e in s[..k]
      ensures e.key <= s[k].key
    {
      var i :| 0 <= i < k && s[..k][i] == e;
    }
  }

  /** A selection of entries whose keys are all at most `k` ends in a key at most `k`. */
  lemma LastBelow(sel: seq<Entry<int>>, s: seq<Entry<int>>, k: real)
    requires forall e :: e in sel ==> e in s
    requires forall e :: e in s ==> e.key <= k
    ensures sel == [] || sel[|sel| - 1].key <= k
  {
    if sel != [] {
      assert sel[|sel| - 1] in sel;
    }
  }

  /** One more entry of a sorted load map: how the importers grow, and that the entry comes last in key order. */
  lemma PartitionStepBelow(s: seq<Entry<int>>, k: nat, target: real)
    requires Sorted(s) && k < |s|
    ensures var e, b := s[k], Below(s[..k], target);
      Below(s[..k + 1], target) == b + (if e.key < target then [e] else []) &&
      Sorted(b) && (b == [] || b[|b| - 1].key <= e.key)
  {
    assert s[..k + 1] == s[..k] + [s[k]];
    SortedPrefix(s, k);
    BelowSnoc(s[..k], s[k], target);
    LastBelow(Below(s[..k], target), s[..k], s[k].key);
  }

  /** One more entry of a sorted load map: how the exporters grow, and that the entry comes last in key order. */
  lemma PartitionStepAbove(s: seq<Entry<int>>, k: nat, target: real, lastUnder: map<int, int>, epoch: int)
    requires Sorted(s) && k < |s|
    ensures var e, a := s[k], AboveFree(s[..k], target, lastUnder, epoch);
      AboveFree(s[..k + 1], target, lastUnder, epoch) == a + (if !(e.key < target) && !Held(lastUnder, e.value, epoch) then [e] else []) &&
      Sorted(a) && (a == [] || a[|a| - 1].key <= e.key)
  {
    assert s[..k + 1] == s[..k] + [s[k]];
    SortedPrefix(s, k);
    AboveFreeSnoc(s[..k], s[k], target, lastUnder, epoch);
    LastBelow(AboveFree(s[..k], target, lastUnder, epoch), s[..k], s[k].key);
  }

  /** A rank's entry in the load map is the one keyed by its own load. */
  lemma InLoadMap(meta: seq<real>, e: Entry<int>)
    ensures e in LoadMap(meta) <==> 0 <= e.value < |meta| && e.key == meta[e.value]
  {
    MemberOfBuild(LoadEntries(meta), e);
    if 0 <= e.value < |meta| && e.key == meta[e.value] {
      assert LoadEntries(meta)[e.value] == e;
    }
  }

  /** `importers` holds exactly the ranks whose scaled load is below the target load. */
  lemma ImportersExactly(meta: seq<real>, target: real, r: int)
    ensures r in Values(Below(LoadMap(meta), target)) <==> 0 <= r < |meta| && meta[r] < target
  {
    var imp := Below(LoadMap(meta), target);
    if r in Values(imp) {
      var i :| 0 <= i < |imp| && Values(imp)[i] == r;
      InLoadMap(meta, imp[i]);
    }
    if 0 <= r < |meta| && meta[r] < target {
      InLoadMap(meta, Entry(meta[r], r));
      var i :| 0 <= i < |imp| && imp[i] == Entry(meta[r], r);
      assert Values(imp)[i] == r;
    }
  }

  /**
   * `exporters` holds exactly the ranks at or above the target load that
   * are not held back by a recent under-target epoch.
   */
  lemma ExportersExactly(meta: seq<real>, target: real, lastUnder: map<int, int>, epoch: int, r: int)
    ensures r in Values(AboveFree(LoadMap(meta), target, lastUnder, epoch)) <==>
      0 <= r < |meta| && meta[r] >= target && !Held(lastUnder, r, epoch)
  {
    var exp := AboveFree(LoadMap(meta), target, lastUnder, epoch);
    if r in Values(exp) {
      var i :| 0 <= i < |exp| && Values(exp)[i] == r;
      InLoadMap(meta, exp[i]);
    }
    if 0 <= r < |meta| && meta[r] >= target && !Held(lastUnder, r, epoch) {
      InLoadMap(meta, Entry(meta[r], r));
      var i :| 0 <= i < |exp| && exp[i] == Entry(meta[r], r);
      assert Values(exp)[i] == r;
    }
  }

  /**
   * A plan moves only positive amounts, never makes a rank export more than
   * its surplus over the target load nor import more than its deficit, the
   * local rank's sends to a rank are part of what that rank imports, and
   * nothing is imported unless something is exported.
   */
  ghost predicate PlanWithin(targets: map<int, real>, imported: map<int, real>, exported: map<int, real>,
                             meta: map<int, real>, target: real)
  {
    (forall r :: r in exported ==> 0.0 < exported[r] <= Get(meta, r) - target) &&
    (forall r :: r in imported ==> 0.0 < imported[r] <= target - Get(meta, r)) &&
    (forall r :: r in targets ==> 0.0 < targets[r] <= Get(imported, r)) &&
    (imported != map[] ==> exported != map[])
  }

  /** One match of `howmuch` within both margins keeps a plan within the margins. */
  lemma MatchWithin(whoami: int, targets: map<int, real>, imported: map<int, real>, exported: map<int, real>,
                    meta: map<int, real>, target: real, ex: int, im: int, howmuch: real)
    requires PlanWithin(targets, imported, exported, meta, target)
    requires 0.0 < howmuch <= Get(meta, ex) - target - Get(exported, ex)
    requires howmuch <= target - Get(meta, im) - Get(imported, im)
    ensures PlanWithin(if ex == whoami then targets[im := Get(targets, im) + howmuch] else targets,
                       imported[im := Get(imported, im) + howmuch], exported[ex := Get(exported, ex) + howmuch],
                       meta, target)
  {
    assert 0.0 <= Get(imported, im) && 0.0 <= Get(exported, ex);
  }

  /** A map whose entries only grew and are positive reads at least as much for every rank. */
  lemma GetGrows(before: map<int, real>, after: map<int, real>)
    requires forall r :: r in before ==> r in after && before[r] <= after[r]
    requires forall r :: r in after ==> 0.0 < after[r]
    ensures forall r :: Get(before, r) <= Get(after, r)
  {
  }

  /** Adding a positive amount to one entry keeps every entry and lowers none. */
  lemma Bumped(m: map<int, real>, k: int, d: real)
    requires d > 0.0
    ensures forall r :: r in m ==> r in m[k := Get(m, k) + d] && m[r] <= m[k := Get(m, k) + d][r]
  {
  }

  /**
   * `balance_state_t`: the plan of one rebalance round. `exported[r]` and
   * `imported[r]` are the loads rank `r` gives away and takes on;
   * `targets[r]` is what the local rank sends to rank `r`.
   */
  class BalanceState {
    var targets: map<int, real>
    var imported: map<int, real>
    var exported: map<int, real>

    /** An empty plan. */
    constructor ()
      ensures targets == map[] && imported == map[] && exported == map[]
    {
      targets := map[];
      imported := map[];
      exported := map[];
    }

    /** `get_maxex(ex)`: how much more `ex` can give away before it falls to the target load. */
    function MaxEx(meta: map<int, real>, target: real, ex: int): real
      reads this
    {
      Get(meta, ex) - target - Get(exported, ex)
    }

    /** `get_maxim(im)`: how much more `im` can take on before it rises to the target load. */
    function MaxIm(meta: map<int, real>, target: real, im: int): real
      reads this
    {
      target - Get(meta, im) - Get(imported, im)
    }

    /** The plan so far keeps within the ranks' margins (`PlanWithin`). */
    ghost predicate Within(meta: map<int, real>, target: real)
      reads this
    {
      PlanWithin(targets, imported, exported, meta, target)
    }

    /** Exported and imported loads only ever grow. */
    twostate predicate Grown()
      reads this
    {
      (forall r :: r in old(exported) ==> r in exported && old(exported)[r] <= exported[r]) &&
      (forall r :: r in old(imported) ==> r in imported && old(imported)[r] <= imported[r])
    }

    /**
     * The bookkeeping of one match: `ex` exports `howmuch` more, `im`
     * imports `howmuch` more, and if `ex` is the local rank, `howmuch` more
     * goes to `im`. Within both margins, the plan stays within them.
     */
    method Transfer(whoami: int, meta: map<int, real>, target: real, ex: int, im: int, howmuch: real)
      requires Within(meta, target)
      requires 0.0 < howmuch <= MaxEx(meta, target, ex) && howmuch <= MaxIm(meta, target, im)
      modifies this
      ensures Within(meta, target) && Grown()
      ensures exported == old(exported)[ex := Get(old(exported), ex) + howmuch]
      ensures imported == old(imported)[im := Get(old(imported), im) + howmuch]
      ensures targets == if ex == whoami then old(targets)[im := Get(old(targets), im) + howmuch] else old(targets)
    {
      var t1 := if ex == whoami then targets[im := Get(targets, im) + howmuch] else targets;
      var i1 := imported[im := Get(imported, im) + howmuch];
      var e1 := exported[ex := Get(exported, ex) + howmuch];
      MatchWithin(whoami, targets, imported, exported, meta, target, ex, im, howmuch);
      Bumped(imported, im, howmuch);
      Bumped(exported, ex, howmuch);
      targets, imported, exported := t1, i1, e1;
    }

    /**
     * `try_match`: rank `ex` sends `im` as much as both can bear, the smaller
     * of the two margins; nothing happens when either margin is not
     * positive. Afterwards both margins are non-negative and at least one of
     * them is used up.
     */
    method TryMatch(whoami: int, meta: map<int, real>, target: real,
                    ex: int, maxex: real, im: int, maxim: real)
      returns (howmuch: real, maxexAfter: real, maximAfter: real)
      requires Within(meta, target)
      requires maxex == MaxEx(meta, target, ex) && maxim == MaxIm(meta, target, im)
      modifies this
      ensures Within(meta, target) && Grown()
      ensures maxexAfter == MaxEx(meta, target, ex) && maximAfter == MaxIm(meta, target, im)
      ensures maxex <= 0.0 || maxim <= 0.0 ==>
        howmuch == 0.0 && maxexAfter == maxex && maximAfter == maxim &&
        targets == old(targets) && imported == old(imported) && exported == old(exported)
      ensures maxex > 0.0 && maxim > 0.0 ==>
        ex != im && howmuch == Min(maxex, maxim) &&
        exported == old(exported)[ex := Get(old(exported), ex) + howmuch] &&
        imported == old(imported)[im := Get(old(imported), im) + howmuch] &&
        targets == (if ex == whoami then old(targets)[im := Get(old(targets), im) + howmuch] else old(targets))
      ensures maxex > 0.0 && maxim > 0.0 ==>
        maxexAfter >= 0.0 && maximAfter >= 0.0 && (maxexAfter == 0.0 || maximAfter == 0.0)
    {
      if maxex <= 0.0 || maxim <= 0.0 {
        return 0.0, maxex, maxim;
      }
      howmuch := Min(maxex, maxim);
      Transfer(whoami, meta, target, ex, im, howmuch);
      maxexAfter := maxex - howmuch;
      maximAfter := maxim - howmuch;
    }

    /**
     * The first pass of `prep_rebalance`: each exporter, from the most to
     * the least loaded, gives load back to the ranks it imported from, in
     * ascending rank order; exporters and sources whose margin is at most
     * `MATCH_EPSILON` are skipped, and an exporter stops once its margin is.
     */
    method MatchImportSources(whoami: int, meta: map<int, real>, target: real,
                              exporters: seq<int>, importSources: map<int, seq<int>>)
      requires Within(meta, target)
      modifies this
      ensures Within(meta, target) && Grown()
      ensures forall r :: r in exported && r !in old(exported) ==> r in exporters
    {
      for x := 0 to |exporters|
        invariant Within(meta, target) && Grown()
        invariant forall r :: r in exported && r !in old(exported) ==> r in exporters[..x]
      {
        var ex := exporters[x];
        var maxex := MaxEx(meta, target, ex);
        if maxex <= MATCH_EPSILON {
          continue;
        }
        var sources := if ex in importSources then importSources[ex] else [];
        for y := 0 to |sources|
          invariant Within(meta, target) && Grown()
          invariant maxex == MaxEx(meta, target, ex)
          invariant forall r :: r in exported && r !in old(exported) ==> r in exporters[..x + 1]
        {
          var im := sources[y];
          var maxim := MaxIm(meta, target, im);
          if maxim <= MATCH_EPSILON {
            continue;
          }
          var _, mx, _ := TryMatch(whoami, meta, target, ex, maxex, im, maxim);
          maxex := mx;
          if maxex <= MATCH_EPSILON {
            break;
          }
        }
      }
    }

    /**
     * One round of the second pass: the current exporter and importer are
     * matched, and each side whose margin is then at most `MATCH_EPSILON`
     * moves on; at least one does. Ranks already passed over stay saturated.
     */
    method MatchStep(whoami: int, meta: map<int, real>, target: real,
                     exOrder: seq<int>, imOrder: seq<int>, x: nat, y: nat)
      returns (x': nat, y': nat)
      requires Within(meta, target) && x < |exOrder| && y < |imOrder|
      requires MaxEx(meta, target, exOrder[x]) >= MATCH_EPSILON && MaxIm(meta, target, imOrder[y]) >= MATCH_EPSILON
      requires forall i :: 0 <= i < x ==> MaxEx(meta, target, exOrder[i]) <= MATCH_EPSILON
      requires forall j :: 0 <= j < y ==> MaxIm(meta, target, imOrder[j]) <= MATCH_EPSILON
      modifies this
      ensures Within(meta, target) && Grown()
      ensures x <= x' <= x + 1 && y <= y' <= y + 1 && x + y < x' + y'
      ensures forall i :: 0 <= i < x' ==> MaxEx(meta, target, exOrder[i]) <= MATCH_EPSILON
      ensures forall j :: 0 <= j < y' ==> MaxIm(meta, target, imOrder[j]) <= MATCH_EPSILON
      ensures forall r :: r in exported && r !in old(exported) ==> r == exOrder[x]
    {
      var maxex := MaxEx(meta, target, exOrder[x]);
      var maxim := MaxIm(meta, target, imOrder[y]);
      var _, mx, mi := TryMatch(whoami, meta, target, exOrder[x], maxex, imOrder[y], maxim);
      GetGrows(old(exported), exported);
      GetGrows(old(imported), imported);
      x', y' := x, y;
      if mx <= MATCH_EPSILON {
        x' := x + 1;
      }
      if mi <= MATCH_EPSILON {
        y' := y + 1;
      }
    }

    /**
     * The second pass of `prep_rebalance`: exporters in `exOrder` are matched
     * with importers in `imOrder`, each side moving on once its margin is at
     * most `MATCH_EPSILON`. The returned positions show where it stopped:
     * every exporter and importer passed over is saturated, and unless one
     * side ran out, the current pair has a margin below `MATCH_EPSILON`.
     */
    method MatchInOrder(whoami: int, meta: map<int, real>, target: real,
                        exOrder: seq<int>, imOrder: seq<int>)
      returns (x: nat, y: nat)
      requires Within(meta, target)
      modifies this
      ensures Within(meta, target) && Grown()
      ensures x <= |exOrder| && y <= |imOrder|
      ensures forall i :: 0 <= i < x ==> MaxEx(meta, target, exOrder[i]) <= MATCH_EPSILON
      ensures forall j :: 0 <= j < y ==> MaxIm(meta, target, imOrder[j]) <= MATCH_EPSILON
      ensures x == |exOrder| || y == |imOrder| ||
              MaxEx(meta, target, exOrder[x]) < MATCH_EPSILON || MaxIm(meta, target, imOrder[y]) < MATCH_EPSILON
      ensures forall r :: r in exported && r !in old(exported) ==> r in exOrder
    {
      x, y := 0, 0;
      while x < |exOrder| && y < |imOrder|
        invariant x <= |exOrder| && y <= |imOrder|
        invariant Within(meta, target) && Grown()
        invariant forall i :: 0 <= i < x ==> MaxEx(meta, target, exOrder[i]) <= MATCH_EPSILON
        invariant forall j :: 0 <= j < y ==> MaxIm(meta, target, imOrder[j]) <= MATCH_EPSILON
        invariant forall r :: r in exported && r !in old(exported) ==> r in exOrder
        decreases |exOrder| - x + |imOrder| - y
      {
        var maxex := MaxEx(meta, target, exOrder[x]);
        var maxim := MaxIm(meta, target, imOrder[y]);
        if maxex < MATCH_EPSILON || maxim < MATCH_EPSILON {
          break;
        }
        x, y := MatchStep(whoami, meta, target, exOrder, imOrder, x, y);
      }
    }
  }
}
