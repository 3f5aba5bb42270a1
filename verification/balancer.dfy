/**
 * The `MDBalancer` object of a metadata server (src/mds/MDBalancer.cc,
 * src/mds/MDBalancer.h): the heartbeat rounds rank 0 starts on its tick,
 * the load reports every rank scatters and gathers per epoch, the plan
 * `prep_rebalance` makes once every rank has reported, the imbalance-factor
 * rounds of `handle_ifbeat`, and the hit that feeds both the counters and
 * the fragmentation queues.
 *
 * Messages to other ranks, the cache's wait lists and the migrator's queue
 * are recorded as `Event`s. What the server reads of itself (its load, its
 * auth subtrees, the up ranks, whether the cluster is degraded or the
 * cache open), the clock and the results of `calc_mds_load` are inputs.
 */
module Balancers {
  import opened Wrappers
  import opened Multimaps
  import opened BalancePlans
  import LoadArrays
  import opened Configs
  import opened DirTrees
  import opened IfCascades
  import opened Fragments

  /** `mds_load_t`: what a rank reports of its load. */
  datatype MdsLoad = MdsLoad(authMeta: real, allMeta: real, reqRate: real, queueLen: real, cpuLoadAvg: real)

  /**
   * `mds_load_t::mds_pop_load` under `mds_bal_mode` `mode`: mode 0 weighs
   * the auth and the whole metadata load, requests and the queue; mode 1
   * only requests and the queue; mode 2 is the CPU load. Any other mode
   * aborts (`None`).
   */
  function PopLoad(l: MdsLoad, mode: int): (r: Option<real>)
    ensures r.Some? <==> 0 <= mode <= 2
  {
    if mode == 0 then Some(0.8 * l.authMeta + 0.2 * l.allMeta + l.reqRate + 10.0 * l.queueLen)
    else if mode == 1 then Some(l.reqRate + 10.0 * l.queueLen)
    else if mode == 2 then Some(l.cpuLoadAvg)
    else None
  }

  /**
   * How the modes relate: mode 0 is mode 1 plus the weighted metadata load;
   * a queued request weighs as much as ten requests a second; mode 2 reads
   * nothing but the CPU load.
   */
  lemma PopLoadModes(l: MdsLoad, more: MdsLoad)
    ensures PopLoad(l, 0).value == PopLoad(l, 1).value + 0.8 * l.authMeta + 0.2 * l.allMeta
    ensures more == l.(queueLen := l.queueLen + 1.0) ==>
      PopLoad(more, 1).value == PopLoad(l, 1).value + 10.0 && PopLoad(more, 0).value == PopLoad(l, 0).value + 10.0
    ensures l.cpuLoadAvg == more.cpuLoadAvg ==> PopLoad(l, 2) == PopLoad(more, 2)
  {
  }

  /** One auth subtree of the local cache: the rank its inode's authority is, whether it is a stray, and its load. */
  datatype AuthSubtree = AuthSubtree(from: int, stray: bool, load: real)

  /** A subtree `send_heartbeat` counts as imported: from another rank and not a stray. */
  predicate Imported(s: AuthSubtree, whoami: int)
  {
    s.from != whoami && !s.stray
  }

  /** The load the local rank has imported from rank `r`: the loads of the counted subtrees from `r`. */
  function ImportedFrom(subs: seq<AuthSubtree>, whoami: int, r: int): real
  {
    if subs == [] then 0.0
    else
      var s := subs[|subs| - 1];
      ImportedFrom(subs[..|subs| - 1], whoami, r) + (if Imported(s, whoami) && s.from == r then s.load else 0.0)
  }

  /** The ranks the local rank has imported from. */
  function Sources(subs: seq<AuthSubtree>, whoami: int): set<int>
  {
    if subs == [] then {}
    else
      var s := subs[|subs| - 1];
      Sources(subs[..|subs| - 1], whoami) + (if Imported(s, whoami) then {s.from} else {})
  }

  /** `import_map` after `import_map[from] += load` for every counted subtree in turn. */
  function ImportMapOf(subs: seq<AuthSubtree>, whoami: int): seq<RankLoad>
  {
    if subs == [] then []
    else
      var s := subs[|subs| - 1];
      var m := ImportMapOf(subs[..|subs| - 1], whoami);
      if Imported(s, whoami) then AddLoad(m, s.from, s.load) else m
  }

  /**
   * The import map is a rank-keyed map with an entry for exactly the ranks
   * imported from, and the entry for a rank is the load imported from it.
   */
  lemma {:induction false} ImportMapOfMeans(subs: seq<AuthSubtree>, whoami: int)
    ensures Ordered(ImportMapOf(subs, whoami)) && Ranks(ImportMapOf(subs, whoami)) == Sources(subs, whoami)
    ensures forall r :: Lookup(ImportMapOf(subs, whoami), r) == ImportedFrom(subs, whoami, r)
  {
    if subs != [] {
      var init, s := subs[..|subs| - 1], subs[|subs| - 1];
      ImportMapOfMeans(init, whoami);
      var m := ImportMapOf(init, whoami);
      if Imported(s, whoami) {
        AddLoadOrdered(m, s.from, s.load);
        AddLoadRanks(m, s.from, s.load);
        forall r
          ensures Lookup(ImportMapOf(subs, whoami), r) == ImportedFrom(subs, whoami, r)
        {
          AddLoadLookup(m, s.from, s.load, r);
        }
      }
    }
  }

  /** The import-map loop of `send_heartbeat`. */
  method CollectImports(subs: seq<AuthSubtree>, whoami: int) returns (m: seq<RankLoad>)
    ensures m == ImportMapOf(subs, whoami)
    ensures Ordered(m) && Ranks(m) == Sources(subs, whoami)
    ensures forall r :: Lookup(m, r) == ImportedFrom(subs, whoami, r)
  {
    m := [];
    for i := 0 to |subs|
      invariant m == ImportMapOf(subs[..i], whoami)
    {
      assert subs[..i + 1][..i] == subs[..i];
      var s := subs[i];
      if s.from == whoami {
        continue;
      }
      if s.stray {
        continue;
      }
      m := AddLoad(m, s.from, s.load);
    }
    assert subs[..|subs|] == subs;
    ImportMapOfMeans(subs, whoami);
  }

  /** What the balancer tells the rest of the server and the other ranks. */
  datatype Event =
    | Heartbeat(to: int, load: MdsLoad, beat: int, importMap: seq<RankLoad>)   // an `MHeartbeat` to rank `to`
    | IfBeat(to: int, load: MdsLoad, beat: int, factor: real, decisions: seq<Decision>) // an `MIFBeat` to rank `to`
    | WaitForOpenHeartbeat                            // `send_heartbeat` again once the cache is open
    | WaitForOpenIfBeat(to: int, factor: real, decisions: seq<Decision>) // `send_ifbeat` again once the cache is open
    | RetryMessage                                    // the message is handled again once the cache is open
    | SwitchReqEpoch                                  // `req_tracer.switch_epoch()`
    | ClearExportQueue                                // the migrator drops its queued exports
    | MantleWarning                                   // the cluster log warns that mantle failed
    | Rebalance(targets: map<int, real>)              // `try_rebalance` with these targets
    | DetermineRebalance(decisions: seq<Decision>)    // `simple_determine_rebalance` with these decisions
    | AssertFailed                                    // `assert(0)`: the server stops

  /** Heartbeats to every rank of `up` other than `whoami`, in order. */
  function Heartbeats(up: seq<int>, whoami: int, load: MdsLoad, beat: int, im: seq<RankLoad>): seq<Event>
  {
    if up == [] then []
    else
      var r := up[|up| - 1];
      Heartbeats(up[..|up| - 1], whoami, load, beat, im) + (if r != whoami then [Heartbeat(r, load, beat, im)] else [])
  }

  /** Every up rank but the sender gets the heartbeat, and nobody else does. */
  lemma {:induction false} HeartbeatsReachOthers(up: seq<int>, whoami: int, load: MdsLoad, beat: int, im: seq<RankLoad>)
    ensures forall e :: e in Heartbeats(up, whoami, load, beat, im) ==>
      e.Heartbeat? && e.to in up && e.to != whoami && e.load == load && e.beat == beat && e.importMap == im
    ensures forall r :: r in up && r != whoami ==> Heartbeat(r, load, beat, im) in Heartbeats(up, whoami, load, beat, im)
  {
    if up != [] {
      var init := up[..|up| - 1];
      HeartbeatsReachOthers(init, whoami, load, beat, im);
      assert up == init + [up[|up| - 1]];
    }
  }

  /** `send_heartbeat` sends one heartbeat to each other up rank when the up ranks are distinct. */
  lemma {:induction false} HeartbeatsCount(up: seq<int>, whoami: int, load: MdsLoad, beat: int, im: seq<RankLoad>)
    requires forall i, j :: 0 <= i < j < |up| ==> up[i] != up[j]
    ensures |Heartbeats(up, whoami, load, beat, im)| == if whoami in up then |up| - 1 else |up|
  {
    if up != [] {
      var init := up[..|up| - 1];
      HeartbeatsCount(init, whoami, load, beat, im);
      assert up == init + [up[|up| - 1]];
      assert up[|up| - 1] !in init;
    }
  }

  /** The send loop of `send_heartbeat`: one heartbeat to each up rank other than `whoami`. */
  method Broadcast(up: seq<int>, whoami: int, load: MdsLoad, beat: int, im: seq<RankLoad>) returns (sent: seq<Event>)
    ensures sent == Heartbeats(up, whoami, load, beat, im)
  {
    sent := [];
    for i := 0 to |up|
      invariant sent == Heartbeats(up[..i], whoami, load, beat, im)
    {
      assert up[..i + 1][..i] == up[..i];
      var r := up[i];
      if r == whoami {
        continue;
      }
      sent := sent + [Heartbeat(r, load, beat, im)];
    }
    assert up[..|up|] == up;
  }

  /** What a rank reads of itself when it reports its load. */
  datatype LocalView = LocalView(
    load: MdsLoad,              // `get_load()`
    subtrees: seq<AuthSubtree>, // `get_auth_subtrees()`
    up: seq<int>,               // the up ranks, ascending
    degraded: bool,             // `is_cluster_degraded()`
    cacheOpen: bool)            // `mdcache->is_open()`

  /** An `MHeartbeat` from rank `who`. */
  datatype HeartbeatMsg = HeartbeatMsg(who: int, beat: int, load: MdsLoad, importMap: seq<RankLoad>)

  /** An `MIFBeat` from rank `who`. */
  datatype IfBeatMsg = IfBeatMsg(who: int, beat: int, load: MdsLoad, ifValue: real, decisions: seq<Decision>)

  /**
   * `calc_mds_load(load)` and `calc_mds_load(load, true)` for the load each
   * rank reported, by rank.
   */
  datatype Scores = Scores(all: map<int, real>, auth: map<int, real>)

  /** What `prep_rebalance` ends with. */
  datatype Plan =
    | Thrash(targets: map<int, real>)   // `mds_thrash_exports`: every up rank a target, nothing to move
    | MissingLoad(rank: int)            // `mds_load.at(rank)` throws: no report from that rank
    | HeldBack                          // the local rank is not overloaded, or not for long enough
    | Planned(targets: map<int, real>, imported: map<int, real>, exported: map<int, real>)

  /**
   * `load_fac`: the local rank's auth load over its whole load, when it has
   * reported and the whole load is positive; 1 otherwise.
   */
  function LoadFactor(reported: bool, all: real, auth: real): (fac: real)
    ensures reported && all > 0.0 ==> all * fac == auth
    ensures !(reported && all > 0.0) ==> fac == 1.0
  {
    if reported && all > 0.0 then auth / all else 1.0
  }

  /** `calc_mds_load` of rank `i` times the load factor: `l` in the scaling loop. */
  function ScaledScore(all: map<int, real>, fac: real, i: int): real
  {
    Get(all, i) * fac
  }

  /** The scaled loads of ranks `0 .. n - 1`: `calc_mds_load` of each times the load factor. */
  function MetaSeq(all: map<int, real>, fac: real, n: nat): (meta: seq<real>)
    ensures |meta| == n && forall i :: 0 <= i < n ==> meta[i] == ScaledScore(all, fac, i)
  {
    seq(n, i => ScaledScore(all, fac, i))
  }

  /** `mds_meta_load`: rank `i` keyed to `meta[i]`. */
  function MetaMap(meta: seq<real>): (m: map<int, real>)
    ensures forall i :: i in m <==> 0 <= i < |meta|
    ensures forall i :: 0 <= i < |meta| ==> m[i] == meta[i]
  {
    map i | 0 <= i < |meta| :: meta[i]
  }

  /** The load map grows by the next rank's entry, inserted after its ties. */
  lemma LoadMapSnoc(meta: seq<real>, l: real)
    ensures LoadMap(meta + [l]) == Insert(LoadMap(meta), Entry(l, |meta|))
  {
    var es := LoadEntries(meta + [l]);
    assert es[..|es| - 1] == LoadEntries(meta);
  }

  /** The sum of the scaled loads grows by the next one. */
  lemma SumSnoc(meta: seq<real>, l: real)
    ensures LoadArrays.Sum(meta + [l]) == LoadArrays.Sum(meta) + l
  {
    assert (meta + [l])[..|meta|] == meta;
  }

  /** Ranks `0 .. k - 1` have all reported. */
  predicate Reported(reported: set<int>, k: int)
  {
    forall j :: 0 <= j < k ==> j in reported
  }

  /**
   * The scaling loop of `prep_rebalance` over the scaled loads `scaled` of
   * ranks `0 .. |scaled| - 1`: each rank in turn is recorded, added to the
   * total and inserted into the load map. `mds_load.at(i)` throws for the
   * first rank `i` that has not reported; the loop stops there with the
   * ranks before it done.
   */
  method ScaleLoads(scaled: seq<real>, reported: set<int>)
    returns (meta: seq<real>, total: real, loadMap: seq<Entry<int>>, missing: Option<int>)
    ensures |meta| <= |scaled| && meta == scaled[..|meta|]
    ensures Reported(reported, |meta|)
    ensures missing.None? ==> |meta| == |scaled|
    ensures missing.Some? ==> missing.value == |meta| < |scaled| && missing.value !in reported
    ensures total == LoadArrays.Sum(meta) && loadMap == LoadMap(meta)
  {
    meta, total, loadMap := [], 0.0, [];
    for i := 0 to |scaled|
      invariant meta == scaled[..i]
      invariant Reported(reported, i)
      invariant total == LoadArrays.Sum(meta) && loadMap == LoadMap(meta)
    {
      if i !in reported {
        return meta, total, loadMap, Some(i);
      }
      assert Reported(reported, i + 1);
      var l := scaled[i];
      assert scaled[..i + 1] == meta + [l];
      SumSnoc(meta, l);
      LoadMapSnoc(meta, l);
      loadMap := Insert(loadMap, Entry(l, i));
      meta := meta + [l];
      total := total + l;
    }
    missing := None;
  }

  /** The "under or over?" loop: every underloaded or barely overloaded rank is stamped with `epoch`. */
  method StampUnder(lastUnder: map<int, int>, loadMap: seq<Entry<int>>, target: real, minRebalance: real, epoch: int)
    returns (stamped: map<int, int>)
    ensures stamped == Stamp(lastUnder, loadMap, target, minRebalance, epoch)
  {
    stamped := lastUnder;
    for k := 0 to |loadMap|
      invariant stamped == Stamp(lastUnder, loadMap[..k], target, minRebalance, epoch)
    {
      assert loadMap[..k + 1][..k] == loadMap[..k];
      var e := loadMap[k];
      if Underloaded(e.key, target, minRebalance) {
        stamped := stamped[e.value := epoch];
      }
    }
    assert loadMap[..|loadMap|] == loadMap;
  }

  /** `mds_thrash_exports`: every up rank becomes a target of nothing. */
  method ThrashTargets(up: seq<int>) returns (targets: map<int, real>)
    ensures forall r :: r in targets <==> r in up
    ensures forall r :: r in targets ==> targets[r] == 0.0
  {
    targets := map[];
    for i := 0 to |up|
      invariant forall r :: r in targets <==> r in up[..i]
      invariant forall r :: r in targets ==> targets[r] == 0.0
    {
      assert up[..i + 1] == up[..i] + [up[i]];
      targets := targets[up[i] := 0.0];
    }
    assert up[..|up|] == up;
  }

  /** For every rank with a reported import map, the ranks it imported from, ascending. */
  function ImportSources(importMap: map<int, seq<RankLoad>>): (sources: map<int, seq<int>>)
    ensures forall r :: r in sources <==> r in importMap
    ensures forall r :: r in sources ==> sources[r] == Keys(importMap[r])
  {
    map r | r in importMap :: Keys(importMap[r])
  }

  /** A rank that occurs in the reversed order of a multimap's values occurs in the multimap. */
  lemma InReversedValues(s: seq<Entry<int>>, r: int)
    ensures r in Reversed(Values(s)) <==> r in Values(s)
  {
    var v := Values(s);
    if r in Reversed(v) {
      var i :| 0 <= i < |v| && Reversed(v)[i] == r;
      assert v[|v| - 1 - i] == r;
    }
    if r in v {
      var i :| 0 <= i < |v| && v[i] == r;
      assert Reversed(v)[|v| - 1 - i] == r;
    }
  }

  /**
   * `calc_mds_load(load, auth)` as written: the load it is handed and the
   * `auth` flag are ignored, and the result is the load of the local rank's
   * full-auth subtrees (`localLoad`), whoever the report is from.
   */
  function CalcMdsLoadAsWritten(load: MdsLoad, auth: bool, localLoad: real): real
  {
    localLoad
  }

  /** The scores of the reported loads under the `calc_mds_load` as written. */
  function AsWrittenScores(reported: map<int, MdsLoad>, localLoad: real): Scores
  {
    Scores(map r | r in reported :: CalcMdsLoadAsWritten(reported[r], false, localLoad),
           map r | r in reported :: CalcMdsLoadAsWritten(reported[r], true, localLoad))
  }

  /**
   * The scores the balancer evidently means: each rank's own reported load
   * under `mds_bal_mode` (`mds_load()` of the upstream balancer); the
   * balancer mode is one `mds_pop_load` knows.
   */
  function IntendedScores(reported: map<int, MdsLoad>, mode: int): (s: Scores)
    requires 0 <= mode <= 2
    ensures forall r :: r in reported ==> r in s.all && s.all[r] == PopLoad(reported[r], mode).value
  {
    var all := map r | r in reported :: PopLoad(reported[r], mode).value;
    Scores(all, all)
  }

  /**
   * With the same scaled load everywhere, a plan within the ranks' margins
   * moves nothing: no rank is above the target load, so none exports, and
   * without exports nothing is imported or sent.
   */
  lemma UniformLoadsPlanNothing(meta: seq<real>, targets: map<int, real>, imported: map<int, real>, exported: map<int, real>)
    requires |meta| > 0 && forall i :: 0 <= i < |meta| ==> meta[i] == meta[0]
    requires PlanWithin(targets, imported, exported, MetaMap(meta), TargetLoad(meta))
    requires forall r :: r in exported ==> 0 <= r < |meta|
    ensures targets == map[] && imported == map[] && exported == map[]
  {
    LoadArrays.SumUniform(meta, meta[0]);
    assert TargetLoad(meta) == meta[0];
    assert forall r :: r !in exported;
    assert exported == map[];
    assert forall r :: r !in targets;
  }

  /**
   * Under the `calc_mds_load` as written every rank's scaled load is the
   * same, so a plan `prep_rebalance` makes (within the margins, exporters
   * among the ranks) never moves anything, whatever the ranks reported.
   */
  lemma AsWrittenPlansNothing(reported: map<int, MdsLoad>, localLoad: real, fac: real, n: nat,
                              targets: map<int, real>, imported: map<int, real>, exported: map<int, real>)
    requires n > 0 && forall i :: 0 <= i < n ==> i in reported
    requires var meta := MetaSeq(AsWrittenScores(reported, localLoad).all, fac, n);
      PlanWithin(targets, imported, exported, MetaMap(meta), TargetLoad(meta))
    requires forall r :: r in exported ==> 0 <= r < n
    ensures targets == map[] && imported == map[] && exported == map[]
  {
    var meta := MetaSeq(AsWrittenScores(reported, localLoad).all, fac, n);
    UniformLoadsPlanNothing(meta, targets, imported, exported);
  }

  /**
   * Two ranks reporting very different loads (one busy, one idle) get the
   * same score under the `calc_mds_load` as written.
   */
  lemma AsWrittenIgnoresReports()
    ensures var busy, idle := MdsLoad(50.0, 60.0, 1000.0, 8.0, 3.0), MdsLoad(0.0, 0.0, 0.0, 0.0, 0.0);
      var s := AsWrittenScores(map[0 := busy, 1 := idle], 7.0);
      PopLoad(busy, 0).value > PopLoad(idle, 0).value && s.all[0] == s.all[1]
  {
  }

  /**
   * When the scaled loads differ, the target load lies strictly between
   * them: some rank is below it (an importer) and some rank above it (an
   * exporter unless held back), so a round has something to match.
   */
  lemma SpreadLoadsStraddleTarget(meta: seq<real>, i: nat, j: nat) returns (lo: nat, hi: nat)
    requires i < |meta| && j < |meta| && meta[i] != meta[j]
    ensures lo < |meta| && meta[lo] < TargetLoad(meta)
    ensures hi < |meta| && meta[hi] > TargetLoad(meta)
  {
    var t := TargetLoad(meta);
    var n := |meta| as real;
    assert n * t == LoadArrays.Sum(meta);
    var k := if meta[i] > t || meta[i] < t then i else j;
    if forall q :: 0 <= q < |meta| ==> meta[q] >= t {
      LoadArrays.SumAtLeast(meta, t, k);
      assert false;
    }
    lo :| 0 <= lo < |meta| && meta[lo] < t;
    if forall q :: 0 <= q < |meta| ==> meta[q] <= t {
      LoadArrays.SumAtMost(meta, t, k);
      assert false;
    }
    hi :| 0 <= hi < |meta| && meta[hi] > t;
  }

  /**
   * Under the intended scores, the busy and the idle rank above score
   * differently, so the target load falls strictly between their scaled
   * loads whenever the load factor is positive.
   */
  lemma IntendedSeesSpread(fac: real)
    requires fac > 0.0
    ensures var busy, idle := MdsLoad(50.0, 60.0, 1000.0, 8.0, 3.0), MdsLoad(0.0, 0.0, 0.0, 0.0, 0.0);
      var meta := MetaSeq(IntendedScores(map[0 := busy, 1 := idle], 0).all, fac, 2);
      meta[1] < TargetLoad(meta) < meta[0]
  {
    var busy, idle := MdsLoad(50.0, 60.0, 1000.0, 8.0, 3.0), MdsLoad(0.0, 0.0, 0.0, 0.0, 0.0);
    var meta := MetaSeq(IntendedScores(map[0 := busy, 1 := idle], 0).all, fac, 2);
    assert meta[0] > meta[1];
    var lo, hi := SpreadLoadsStraddleTarget(meta, 0, 1);
  }

  /**
   * A rank's IOPS in an imbalance-factor round: the growth of its request
   * count since the last round over `mds_bal_interval`; 0 for a rank seen
   * for the first time.
   */
  function RankIops(load: MdsLoad, oldReq: map<int, real>, i: int, interval: int): real
  {
    if i in oldReq then Div(load.reqRate - oldReq[i], interval as real) else 0.0
  }

  /** `IOPSvector`: the IOPS of ranks `0 .. n - 1`. */
  function IopsOf(reports: map<int, MdsLoad>, oldReq: map<int, real>, n: nat, interval: int): (iops: seq<real>)
    requires Reported(reports.Keys, n)
    ensures |iops| == n
  {
    seq(n, i requires 0 <= i < n => RankIops(reports[i], oldReq, i, interval))
  }

  /**
   * `old_req` after a round: ranks `0 .. n - 1` hold their current request
   * counts, every other entry stays.
   */
  function Recorded(oldReq: map<int, real>, reports: map<int, MdsLoad>, n: nat): (req: map<int, real>)
    requires Reported(reports.Keys, n)
    ensures forall r :: r in req <==> r in oldReq || 0 <= r < n
    ensures forall r :: r in req ==> req[r] == if 0 <= r < n then reports[r].reqRate else oldReq[r]
  {
    if n == 0 then oldReq else Recorded(oldReq, reports, n - 1)[n - 1 := reports[n - 1].reqRate]
  }

  /**
   * The IOPS loop of `handle_ifbeat`: rank by rank, the IOPS are read
   * against the request count of the last round, which is then replaced.
   */
  method CollectIops(reports: map<int, MdsLoad>, oldReq: map<int, real>, n: nat, interval: int)
    returns (iops: seq<real>, req: map<int, real>)
    requires Reported(reports.Keys, n)
    ensures iops == IopsOf(reports, oldReq, n, interval) && req == Recorded(oldReq, reports, n)
  {
    iops, req := [], oldReq;
    for i := 0 to n
      invariant |iops| == i && forall k :: 0 <= k < i ==> iops[k] == RankIops(reports[k], oldReq, k, interval)
      invariant req == Recorded(oldReq, reports, i)
    {
      var x := if i in req then Div(reports[i].reqRate - req[i], interval as real) else 0.0;
      iops, req := iops + [x], req[i := reports[i].reqRate];
    }
  }

  /** A second round over the same reports sees no traffic: every rank's IOPS are 0. */
  lemma RepeatedReportsIdle(reports: map<int, MdsLoad>, oldReq: map<int, real>, n: nat, interval: int)
    requires Reported(reports.Keys, n)
    ensures forall i :: 0 <= i < n ==> IopsOf(reports, Recorded(oldReq, reports, n), n, interval)[i] == 0.0
  {
  }

  /** `load_vector`: `calc_mds_load(load, true)` of ranks `0 .. n - 1`. */
  function AuthLoads(scores: Scores, n: nat): (loads: seq<real>)
    ensures |loads| == n && forall i :: 0 <= i < n ==> loads[i] == Get(scores.auth, i)
  {
    seq(n, i => Get(scores.auth, i))
  }

  /**
   * Rank 0's round on complete reports: the IOPS are collected against
   * the request counts of the last round, which `req` replaces, and the
   * round is decided on them and on `calc_mds_load(load, true)`.
   */
  method DecideRound(reports: map<int, MdsLoad>, oldReq: map<int, real>, n: nat, scores: Scores, m: IfMath,
                     cfg: Config, up: seq<int>, epoch: int)
    returns (o: IfOutcome, req: map<int, real>)
    requires n > 0 && Reported(reports.Keys, n)
    requires forall i :: 0 <= i < |up| ==> 0 <= up[i] < n
    ensures req == Recorded(oldReq, reports, n)
    ensures RoundSound(o, IopsOf(reports, oldReq, n, cfg.balInterval), AuthLoads(scores, n), m, cfg.ifThreshold, epoch)
  {
    var iops;
    iops, req := CollectIops(reports, oldReq, n, cfg.balInterval);
    o := IfRound(iops, AuthLoads(scores, n), m, cfg.ifThreshold, up, epoch);
  }

  /**
   * What `send_ifbeat` emits: nothing while the cluster is degraded, a retry
   * once the cache is open if it is not, and the message only to an up rank.
   */
  function IfBeatEvents(to: int, factor: real, decisions: seq<Decision>, view: LocalView, beat: int): seq<Event>
  {
    if view.degraded then []
    else if !view.cacheOpen then [WaitForOpenIfBeat(to, factor, decisions)]
    else if to !in view.up then []
    else [IfBeat(to, view.load, beat, factor, decisions)]
  }

  /** The ifbeats of a cascade, in order. */
  function CascadeEvents(sends: seq<Send>, factor: real, view: LocalView, beat: int): seq<Event>
  {
    if sends == [] then []
    else
      var s := sends[|sends| - 1];
      CascadeEvents(sends[..|sends| - 1], factor, view, beat) + IfBeatEvents(s.to, factor, s.decisions, view, beat)
  }

  /**
   * What rank 0's round emits: the cascade's ifbeats, then, if it decided
   * for itself, the cleared export queue when asked for and its own
   * `simple_determine_rebalance`.
   */
  function RoundEvents(o: IfOutcome, view: LocalView, beat: int): seq<Event>
  {
    CascadeEvents(o.sends, o.factor, view, beat) +
    if o.own.Some? then (if o.clear then [ClearExportQueue] else []) + [DetermineRebalance(o.own.value)] else []
  }

  /**
   * With the cache open and the cluster whole, the cascade's events are
   * ifbeats of the round's factor and epoch to up ranks other than 0, each
   * carrying decisions that move load from its receiver, above the mean
   * IOPS, to ranks at or below it.
   */
  lemma {:induction false} CascadeEventsSound(sends: seq<Send>, factor: real, view: LocalView, beat: int,
                                              iops: seq<real>, loads: seq<real>)
    requires iops != [] && |loads| == |iops| && Sent(sends, iops, loads)
    requires view.cacheOpen && !view.degraded
    ensures forall e :: e in CascadeEvents(sends, factor, view, beat) ==>
      e.IfBeat? && e.to in view.up && e.to != 0 && e.beat == beat && e.factor == factor &&
      Moves(e.to, e.decisions, iops, loads)
  {
    if sends != [] {
      var init := sends[..|sends| - 1];
      assert Sent(init, iops, loads) by {
        assert forall k :: 0 <= k < |init| ==> init[k] == sends[k];
      }
      CascadeEventsSound(init, factor, view, beat, iops, loads);
      assert Sent(sends, iops, loads);
    }
  }

  /** Whether a hit of `hits` on counter `t` makes a fragment hot: reads above `mds_bal_split_rd` or writes above `mds_bal_split_wr`. */
  predicate Hot(hits: real, t: nat, cfg: Config)
  {
    (hits > cfg.splitRd && t == LoadArrays.META_POP_IRD) || (hits > cfg.splitWr && t == LoadArrays.META_POP_IWR)
  }

  /**
   * `hit_dir`: the fragment's counters take the hit, and it goes through
   * `maybe_fragment`, hot exactly when its own counter for the hit's kind
   * is now above that kind's split threshold.
   */
  method HitDir(tree: DirTree, frags: FragmentQueues, d: int, t: nat, amount: real) returns (hot: bool)
    requires tree.Valid() && frags.Valid() && 0 <= d < |tree.nodes| && t < LoadArrays.NUM_META_POP
    modifies tree, frags
    ensures tree.Valid() && frags.Valid() && tree.HitTaken(d, t, amount)
    ensures hot <==> Hot(tree.popMe[d].counters[t], t, frags.cfg)
    ensures frags.MaybeFragmented(tree.nodes[d], hot)
  {
    var v := tree.HitDir(d, t, amount);
    hot := Hot(v, t, frags.cfg);
    frags.MaybeFragment(tree.nodes[d], hot);
  }

  class Balancer {
    const whoami: int
    const cfg: Config
    /** The heartbeat round this rank is in. */
    var beatEpoch: int
    /** The loads reported this epoch, by rank. */
    var mdsLoad: map<int, MdsLoad>
    /** What each rank reported it imported, and from whom. */
    var mdsImportMap: map<int, seq<RankLoad>>
    /** The scaled loads of the last plan. */
    var mdsMetaLoad: map<int, real>
    /** The last epoch each rank was seen underloaded or barely overloaded. */
    var lastEpochUnder: map<int, int>
    var myLoad: real
    var targetLoad: real
    var rebalanceTime: real
    /** The request counts of the last imbalance-factor round, by rank. */
    var oldReq: map<int, real>
    var lastHeartbeat: real
    var lastSample: real
    /** `num_bal_times`: the heartbeat rounds rank 0 may still start. */
    var numBalTimes: int
    var events: seq<Event>
    /** The heartbeat rounds `tick` has started. */
    ghost var rounds: nat
    /** Whether a round was started only because the uptime passed `mds_bal_max_until`. */
    ghost var pastUntil: bool

    /**
     * The rounds started and the rounds left add up to `mds_bal_max`, and
     * unless the uptime passed `mds_bal_max_until`, a non-negative
     * `mds_bal_max` is never overrun.
     */
    ghost predicate Valid()
      reads this
    {
      rounds as int + numBalTimes == cfg.balMax &&
      (cfg.balMax >= 0 && !pastUntil ==> numBalTimes >= 0)
    }

    /** The tick's own state is untouched. */
    twostate predicate TickKept()
      reads this
    {
      lastHeartbeat == old(lastHeartbeat) && lastSample == old(lastSample) &&
      numBalTimes == old(numBalTimes) && rounds == old(rounds) && pastUntil == old(pastUntil)
    }

    /** The state of the last plan is untouched. */
    twostate predicate PlanKept()
      reads this
    {
      mdsMetaLoad == old(mdsMetaLoad) && lastEpochUnder == old(lastEpochUnder) &&
      myLoad == old(myLoad) && targetLoad == old(targetLoad) && rebalanceTime == old(rebalanceTime)
    }

    /** The epoch and the reports gathered in it are untouched. */
    twostate predicate EpochKept()
      reads this
    {
      beatEpoch == old(beatEpoch) && mdsLoad == old(mdsLoad) && mdsImportMap == old(mdsImportMap)
    }

    /**
     * A balancer that has seen nothing: epoch 0, no reports, loads 0, the
     * clock readings at zero and `mds_bal_max` rounds to go.
     */
    constructor (whoami: int, cfg: Config)
      ensures Valid() && this.whoami == whoami && this.cfg == cfg
      ensures beatEpoch == 0 && myLoad == 0.0 && targetLoad == 0.0
      ensures mdsLoad == map[] && mdsImportMap == map[] && mdsMetaLoad == map[] && lastEpochUnder == map[] && oldReq == map[]
      ensures lastHeartbeat == 0.0 && lastSample == 0.0 && rebalanceTime == 0.0
      ensures numBalTimes == cfg.balMax && events == []
    {
      this.whoami := whoami;
      this.cfg := cfg;
      beatEpoch := 0;
      mdsLoad, mdsImportMap, mdsMetaLoad, lastEpochUnder, oldReq := map[], map[], map[], map[], map[];
      myLoad, targetLoad, rebalanceTime := 0.0, 0.0, 0.0;
      lastHeartbeat, lastSample := 0.0, 0.0;
      numBalTimes := cfg.balMax;
      events := [];
      rounds, pastUntil := 0, false;
    }

    /**
     * What `send_heartbeat` does: nothing while the cluster is degraded; a
     * retry once the cache is open if it is not; otherwise rank 0 opens a
     * new epoch (next epoch number, request counters switched, reports
     * cleared), the local load is recorded, the import map is rebuilt from
     * the auth subtrees, and every other up rank gets a heartbeat.
     */
    twostate predicate HeartbeatSent(view: LocalView)
      reads this
    {
      if view.degraded then EpochKept() && events == old(events)
      else if !view.cacheOpen then EpochKept() && events == old(events) + [WaitForOpenHeartbeat]
      else
        var im := ImportMapOf(view.subtrees, whoami);
        beatEpoch == old(beatEpoch) + (if whoami == 0 then 1 else 0) &&
        mdsLoad == (if whoami == 0 then map[] else old(mdsLoad))[whoami := view.load] &&
        mdsImportMap == old(mdsImportMap)[whoami := im] &&
        events == old(events) + (if whoami == 0 then [SwitchReqEpoch] else []) +
          Heartbeats(view.up, whoami, view.load, beatEpoch, im)
    }

    /** `send_heartbeat`. */
    method SendHeartbeat(view: LocalView)
      modifies this
      ensures HeartbeatSent(view) && TickKept() && PlanKept() && oldReq == old(oldReq)
    {
      if view.degraded {
        return;
      }
      if !view.cacheOpen {
        events := events + [WaitForOpenHeartbeat];
        return;
      }
      var first := whoami == 0;
      var epoch := if first then beatEpoch + 1 else beatEpoch;
      var im := CollectImports(view.subtrees, whoami);
      var sent := Broadcast(view.up, whoami, view.load, epoch, im);
      beatEpoch, mdsLoad, mdsImportMap, events :=
        epoch,
        (if first then map[] else mdsLoad)[whoami := view.load],
        mdsImportMap[whoami := im],
        events + (if first then [SwitchReqEpoch] else []) + sent;
    }

    /** `send_ifbeat`: the message goes out only while the cluster is whole, the cache open and `to` up. */
    method SendIfBeat(to: int, factor: real, decisions: seq<Decision>, view: LocalView)
      modifies this
      ensures EpochKept() && TickKept() && PlanKept() && oldReq == old(oldReq)
      ensures events == old(events) + IfBeatEvents(to, factor, decisions, view, beatEpoch)
    {
      if view.degraded {
        return;
      }
      if !view.cacheOpen {
        events := events + [WaitForOpenIfBeat(to, factor, decisions)];
        return;
      }
      if to !in view.up {
        return;
      }
      events := events + [IfBeat(to, view.load, beatEpoch, factor, decisions)];
    }

    /**
     * Whether `tick` starts a heartbeat round: only rank 0, only while
     * active, with a positive interval that has passed in whole seconds,
     * and while rounds are left or the uptime is past `mds_bal_max_until`.
     */
    predicate BeatDue(now: real, active: bool, uptime: int)
      reads this
    {
      whoami == 0 && active && cfg.balInterval > 0 &&
      LoadArrays.Trunc(now - lastHeartbeat) >= cfg.balInterval &&
      (numBalTimes != 0 || (cfg.balMaxUntil >= 0 && uptime > cfg.balMaxUntil))
    }

    /**
     * `tick`: the sample time moves on once the sample interval has passed;
     * a due round records the time, sends the heartbeat and uses up one
     * round. Unless the uptime passed `mds_bal_max_until`, no more than
     * `mds_bal_max` rounds are ever started.
     */
    method Tick(now: real, active: bool, uptime: int, view: LocalView)
      requires Valid()
      modifies this
      ensures Valid() && PlanKept() && oldReq == old(oldReq)
      ensures lastSample == if now - old(lastSample) > cfg.sampleInterval then now else old(lastSample)
      ensures old(BeatDue(now, active, uptime)) ==>
        lastHeartbeat == now && numBalTimes == old(numBalTimes) - 1 && rounds == old(rounds) + 1 && HeartbeatSent(view)
      ensures !old(BeatDue(now, active, uptime)) ==>
        lastHeartbeat == old(lastHeartbeat) && numBalTimes == old(numBalTimes) && rounds == old(rounds) &&
        EpochKept() && events == old(events)
      ensures cfg.balMax >= 0 && !pastUntil ==> rounds <= cfg.balMax
    {
      if now - lastSample > cfg.sampleInterval {
        lastSample := now;
      }
      if BeatDue(now, active, uptime) {
        StartRound(now, view);
      }
    }

    /** A heartbeat round of `tick`: the time is recorded, the heartbeat sent and one round used up. */
    method StartRound(now: real, view: LocalView)
      requires Valid()
      modifies this
      ensures Valid() && PlanKept() && oldReq == old(oldReq) && lastSample == old(lastSample)
      ensures lastHeartbeat == now && numBalTimes == old(numBalTimes) - 1 && rounds == old(rounds) + 1
      ensures HeartbeatSent(view)
      ensures pastUntil == (old(pastUntil) || old(numBalTimes) == 0)
    {
      SendHeartbeat(view);
      lastHeartbeat, numBalTimes, rounds, pastUntil := now, numBalTimes - 1, rounds + 1, pastUntil || numBalTimes == 0;
    }

    /**
     * The matching half of `prep_rebalance`, on the scaled loads `meta` and
     * the target load: the load map is split into importers and exporters,
     * exporters give back to the ranks they imported from, largest first,
     * and then exporters are matched with importers, the largest exporters
     * first on odd beats and the smallest first otherwise. The plan keeps
     * within every rank's margin, and only unheld ranks at or above the
     * target export.
     */
    method PlanTransfers(meta: seq<real>, target: real, beat: int)
      returns (targets: map<int, real>, imported: map<int, real>, exported: map<int, real>)
      ensures PlanWithin(targets, imported, exported, MetaMap(meta), target)
      ensures forall r :: r in exported ==> 0 <= r < |meta| && meta[r] >= target && !Held(lastEpochUnder, r, beatEpoch)
    {
      var importers, exporters := Partition(LoadMap(meta), target, lastEpochUnder, beatEpoch);
      var state := new BalanceState();
      var metaMap := MetaMap(meta);
      var exDesc := Reversed(Values(exporters));
      state.MatchImportSources(whoami, metaMap, target, exDesc, ImportSources(mdsImportMap));
      if beat > 0 && beat % 2 == 1 {
        var _, _ := state.MatchInOrder(whoami, metaMap, target, exDesc, Values(importers));
      } else {
        var _, _ := state.MatchInOrder(whoami, metaMap, target, Values(exporters), Values(importers));
      }
      targets, imported, exported := state.targets, state.imported, state.exported;
      forall r | r in exported
        ensures 0 <= r < |meta| && meta[r] >= target && !Held(lastEpochUnder, r, beatEpoch)
      {
        InReversedValues(exporters, r);
        ExportersExactly(meta, target, lastEpochUnder, beatEpoch, r);
      }
    }

    /** The load factor `prep_rebalance` scales every rank's score by. */
    function Factor(scores: Scores): real
      reads this
    {
      LoadFactor(whoami in mdsLoad, Get(scores.all, whoami), Get(scores.auth, whoami))
    }

    /**
     * The rebalance time is taken, the export queue cleared, the scaled
     * loads of the ranks the scaling loop passed become `mds_meta_load`,
     * and the local rank's its load.
     */
    method Record(meta: seq<real>, now: real)
      modifies this
      ensures EpochKept() && TickKept() && oldReq == old(oldReq)
      ensures targetLoad == old(targetLoad) && lastEpochUnder == old(lastEpochUnder)
      ensures rebalanceTime == now && events == old(events) + [ClearExportQueue]
      ensures mdsMetaLoad == MetaMap(meta) && myLoad == if 0 <= whoami < |meta| then meta[whoami] else old(myLoad)
    {
      rebalanceTime, events, mdsMetaLoad := now, events + [ClearExportQueue], MetaMap(meta);
      if 0 <= whoami < |meta| {
        myLoad := meta[whoami];
      }
    }

    /** The target load is the mean of the scaled loads, and the underloaded ranks are stamped with the epoch. */
    method SetTarget(meta: seq<real>, total: real, loadMap: seq<Entry<int>>)
      requires |meta| > 0 && total == LoadArrays.Sum(meta) && loadMap == LoadMap(meta)
      modifies this
      ensures EpochKept() && TickKept() && oldReq == old(oldReq) && events == old(events)
      ensures mdsMetaLoad == old(mdsMetaLoad) && myLoad == old(myLoad) && rebalanceTime == old(rebalanceTime)
      ensures targetLoad == TargetLoad(meta)
      ensures lastEpochUnder == Stamp(old(lastEpochUnder), LoadMap(meta), targetLoad, cfg.minRebalance, beatEpoch)
    {
      var target := total / (|meta| as real);
      var stamped := StampUnder(lastEpochUnder, loadMap, target, cfg.minRebalance, beatEpoch);
      targetLoad, lastEpochUnder := target, stamped;
    }

    /**
     * What is left of `prep_rebalance` once the scaled loads `meta` of all
     * ranks are in: the target load is their mean and every rank under
     * `target * (1 + mds_bal_min_rebalance)` is stamped with the epoch. The
     * local rank holds back when it is stamped now or was less than two
     * epochs ago; otherwise the plan keeps within every rank's margin, only
     * unheld ranks at or above the target export, and it goes to
     * `try_rebalance`.
     */
    twostate predicate Settled(meta: seq<real>, plan: Plan)
      requires |meta| > 0
      reads this
    {
      EpochKept() && TickKept() && oldReq == old(oldReq) &&
      mdsMetaLoad == old(mdsMetaLoad) && myLoad == old(myLoad) && rebalanceTime == old(rebalanceTime) &&
      targetLoad == TargetLoad(meta) &&
      lastEpochUnder == Stamp(old(lastEpochUnder), LoadMap(meta), targetLoad, cfg.minRebalance, beatEpoch) &&
      (plan.HeldBack? || plan.Planned?) &&
      (plan.HeldBack? <==> GetEpoch(lastEpochUnder, whoami) == beatEpoch || Held(lastEpochUnder, whoami, beatEpoch)) &&
      (plan.Planned? ==>
        PlanWithin(plan.targets, plan.imported, plan.exported, MetaMap(meta), targetLoad) &&
        forall r :: r in plan.exported ==> 0 <= r < |meta| && meta[r] >= targetLoad && !Held(lastEpochUnder, r, beatEpoch)) &&
      events == old(events) + (if plan.Planned? then [Rebalance(plan.targets)] else [])
    }

    /** The second half of `prep_rebalance`, from the target load on. */
    method Settle(meta: seq<real>, total: real, loadMap: seq<Entry<int>>, beat: int) returns (plan: Plan)
      requires |meta| > 0 && total == LoadArrays.Sum(meta) && loadMap == LoadMap(meta)
      modifies this
      ensures Settled(meta, plan)
    {
      SetTarget(meta, total, loadMap);
      var lastUnder := GetEpoch(lastEpochUnder, whoami);
      if lastUnder == beatEpoch {
        return HeldBack;
      }
      if lastUnder != 0 && beatEpoch - lastUnder < 2 {
        return HeldBack;
      }
      var targets, imported, exported := PlanTransfers(meta, targetLoad, beat);
      events := events + [Rebalance(targets)];
      plan := Planned(targets, imported, exported);
    }

    /**
     * `prep_rebalance(beat)` past the thrash check: the scores of ranks
     * `0 .. clusterSize - 1` are scaled by the load factor; the first rank
     * without a report ends the round with the ranks before it recorded.
     * Otherwise the round settles on the scaled loads of all ranks.
     */
    twostate predicate Balanced(beat: int, scores: Scores, clusterSize: nat, now: real, plan: Plan)
      requires clusterSize > 0
      reads this
    {
      rebalanceTime == now &&
      (plan.MissingLoad? <==> exists i :: 0 <= i < clusterSize && i !in mdsLoad) &&
      (plan.MissingLoad? ==>
        0 <= plan.rank < clusterSize && plan.rank !in mdsLoad && (forall i :: 0 <= i < plan.rank ==> i in mdsLoad) &&
        var meta := MetaSeq(scores.all, old(Factor(scores)), plan.rank);
        EpochKept() && TickKept() && oldReq == old(oldReq) &&
        mdsMetaLoad == MetaMap(meta) && myLoad == (if 0 <= whoami < plan.rank then meta[whoami] else old(myLoad)) &&
        targetLoad == old(targetLoad) && lastEpochUnder == old(lastEpochUnder) && events == old(events) + [ClearExportQueue]) &&
      (!plan.MissingLoad? ==>
        var meta := MetaSeq(scores.all, old(Factor(scores)), clusterSize);
        EpochKept() && TickKept() && oldReq == old(oldReq) &&
        mdsMetaLoad == MetaMap(meta) && myLoad == (if 0 <= whoami < clusterSize then meta[whoami] else old(myLoad)) &&
        targetLoad == TargetLoad(meta) &&
        lastEpochUnder == Stamp(old(lastEpochUnder), LoadMap(meta), targetLoad, cfg.minRebalance, beatEpoch) &&
        (plan.HeldBack? || plan.Planned?) &&
        (plan.HeldBack? <==> GetEpoch(lastEpochUnder, whoami) == beatEpoch || Held(lastEpochUnder, whoami, beatEpoch)) &&
        (plan.Planned? ==>
          PlanWithin(plan.targets, plan.imported, plan.exported, mdsMetaLoad, targetLoad) &&
          forall r :: r in plan.exported ==> 0 <= r < clusterSize && meta[r] >= targetLoad && !Held(lastEpochUnder, r, beatEpoch)) &&
        events == old(events) + [ClearExportQueue] + (if plan.Planned? then [Rebalance(plan.targets)] else []))
    }

    /** `prep_rebalance(beat)` past the thrash check. */
    method Balance(beat: int, scores: Scores, clusterSize: nat, now: real) returns (plan: Plan)
      requires clusterSize > 0
      modifies this
      ensures Balanced(beat, scores, clusterSize, now, plan)
    {
      var fac := Factor(scores);
      var meta, total, loadMap, missing := ScaleLoads(MetaSeq(scores.all, fac, clusterSize), mdsLoad.Keys);
      assert meta == MetaSeq(scores.all, fac, |meta|);
      Record(meta, now);
      if missing.Some? {
        return MissingLoad(missing.value);
      }
      plan := Settle(meta, total, loadMap, beat);
    }

    /**
     * `prep_rebalance(beat)`: under `mds_thrash_exports` every up rank is a
     * target of nothing and the rest of the state is kept; otherwise the
     * round balances the reported loads.
     */
    method PrepRebalance(beat: int, scores: Scores, clusterSize: nat, up: seq<int>, now: real) returns (plan: Plan)
      requires clusterSize > 0
      modifies this
      ensures cfg.thrashExports ==>
        plan.Thrash? && (forall r :: r in plan.targets <==> r in up) && (forall r :: r in plan.targets ==> plan.targets[r] == 0.0) &&
        EpochKept() && TickKept() && PlanKept() && oldReq == old(oldReq) && events == old(events) + [Rebalance(plan.targets)]
      ensures !cfg.thrashExports ==> Balanced(beat, scores, clusterSize, now, plan)
    {
      if cfg.thrashExports {
        var targets := ThrashTargets(up);
        events := events + [Rebalance(targets)];
        return Thrash(targets);
      }
      plan := Balance(beat, scores, clusterSize, now);
    }

    /**
     * A heartbeat from rank 0 opens epoch `beat`: the reports of another
     * epoch are dropped, this rank reports its own load and sends rank 0 an
     * imbalance factor of -1 with no decisions.
     */
    method FollowRankZero(beat: int, view: LocalView)
      requires view.cacheOpen && !view.degraded
      modifies this
      ensures TickKept() && PlanKept() && oldReq == old(oldReq)
      ensures whoami != 0 ==>
        var im := ImportMapOf(view.subtrees, whoami);
        beatEpoch == beat &&
        mdsLoad == (if old(beatEpoch) != beat then map[] else old(mdsLoad))[whoami := view.load] &&
        mdsImportMap == old(mdsImportMap)[whoami := im] &&
        events == old(events) + Heartbeats(view.up, whoami, view.load, beat, im) +
          (if 0 in view.up then [IfBeat(0, view.load, beat, -1.0, [])] else [])
    {
      if beatEpoch != beat {
        beatEpoch, mdsLoad := beat, map[];
      }
      SendHeartbeat(view);
      SendIfBeat(0, -1.0, [], view);
    }

    /**
     * The bookkeeping of `handle_heartbeat` for a heartbeat from `msg.who`.
     * A rank other than 0 moves on to a later epoch it hears of, dropping
     * the reports it has; a heartbeat from rank 0 sets the epoch, then this
     * rank reports its own load and sends its imbalance factor to rank 0.
     * Rank 0 drops a heartbeat of another epoch (`accepted` is false);
     * otherwise the sender's load and import map replace what it reported
     * before.
     */
    method TakeHeartbeat(msg: HeartbeatMsg, view: LocalView) returns (accepted: bool)
      requires view.cacheOpen && !view.degraded
      modifies this
      ensures TickKept() && PlanKept() && oldReq == old(oldReq)
      ensures accepted <==> !(msg.who != 0 && whoami == 0 && old(beatEpoch) != msg.beat)
      ensures !accepted ==> EpochKept() && events == old(events)
      ensures accepted ==> msg.who in mdsLoad && msg.who in mdsImportMap
      ensures accepted ==> mdsLoad[msg.who] == msg.load && mdsImportMap[msg.who] == msg.importMap
      ensures msg.who != 0 ==> events == old(events)
      ensures msg.who != 0 && whoami != 0 ==>
        beatEpoch == (if msg.beat > old(beatEpoch) then msg.beat else old(beatEpoch)) &&
        mdsLoad == (if msg.beat > old(beatEpoch) then map[] else old(mdsLoad))[msg.who := msg.load] &&
        mdsImportMap == old(mdsImportMap)[msg.who := msg.importMap]
      ensures msg.who != 0 && whoami == 0 && accepted ==>
        beatEpoch == old(beatEpoch) && mdsLoad == old(mdsLoad)[msg.who := msg.load] &&
        mdsImportMap == old(mdsImportMap)[msg.who := msg.importMap]
      ensures msg.who == 0 && whoami != 0 ==>
        var im := ImportMapOf(view.subtrees, whoami);
        beatEpoch == msg.beat &&
        mdsLoad == (if old(beatEpoch) != msg.beat then map[] else old(mdsLoad))[whoami := view.load][0 := msg.load] &&
        mdsImportMap == old(mdsImportMap)[whoami := im][0 := msg.importMap] &&
        events == old(events) + Heartbeats(view.up, whoami, view.load, msg.beat, im) +
          (if 0 in view.up then [IfBeat(0, view.load, msg.beat, -1.0, [])] else [])
    {
      if whoami != 0 && msg.beat > beatEpoch {
        beatEpoch, mdsLoad := msg.beat, map[];
      }
      if msg.who == 0 {
        FollowRankZero(msg.beat, view);
      } else if whoami == 0 {
        if beatEpoch != msg.beat {
          return false;
        }
      }
      mdsLoad, mdsImportMap := mdsLoad[msg.who := msg.load], mdsImportMap[msg.who := msg.importMap];
      accepted := true;
    }

    /**
     * `handle_heartbeat`. Nothing happens unless the rank is active; the
     * message is retried once the cache is open, and ignored while the
     * cluster is degraded. A heartbeat taken in completes the epoch's
     * reports when every in rank has reported; the heartbeat balancer
     * (`mds_bal_ifenable` 0) then plans, unless a mantle balancer is
     * configured (`mantle` is its result) and succeeds. `plan` is `None`
     * when no plan was made.
     */
    method HandleHeartbeat(msg: HeartbeatMsg, view: LocalView, active: bool, clusterSize: nat,
                           mantle: Option<int>, scores: Scores, now: real) returns (plan: Option<Plan>)
      modifies this
      ensures TickKept() && oldReq == old(oldReq)
      ensures !active || view.degraded || !view.cacheOpen ==>
        plan.None? && EpochKept() && PlanKept() &&
        events == old(events) + (if active && !view.cacheOpen then [RetryMessage] else [])
      ensures plan.Some? ==>
        active && view.cacheOpen && !view.degraded && cfg.ifEnable == 0 && |mdsLoad| == clusterSize &&
        msg.who in mdsLoad && mdsLoad[msg.who] == msg.load && (mantle.None? || mantle != Some(0))
      ensures active && view.cacheOpen && !view.degraded && msg.who != 0 && whoami == 0 && old(beatEpoch) != msg.beat ==>
        plan.None? && EpochKept() && PlanKept() && events == old(events)
      ensures plan.Some? ==> var p := plan.value;
        (cfg.thrashExports ==> p.Thrash?) &&
        (!cfg.thrashExports ==> !p.Thrash?) &&
        (p.Planned? ==> PlanWithin(p.targets, p.imported, p.exported, mdsMetaLoad, targetLoad))
    {
      if !active {
        return None;
      }
      if !view.cacheOpen {
        events := events + [RetryMessage];
        return None;
      }
      if view.degraded {
        return None;
      }
      var accepted := TakeHeartbeat(msg, view);
      if !accepted {
        return None;
      }
      if cfg.ifEnable != 0 || |mdsLoad| != clusterSize {
        return None;
      }
      if mantle.Some? {
        if mantle.value == 0 {
          return None;
        }
        events := events + [MantleWarning];
      }
      var p := PrepRebalance(msg.beat, scores, clusterSize, view.up, now);
      plan := Some(p);
    }

    /**
     * A round ran on the reports: the request counts are recorded, the
     * outcome keeps `RoundSound` for every rank's IOPS against the counts
     * of the last round and `calc_mds_load(load, true)`, and its events
     * are emitted.
     */
    twostate predicate RoundRan(clusterSize: nat, scores: Scores, m: IfMath, view: LocalView, o: IfOutcome)
      requires clusterSize > 0 && Reported(mdsLoad.Keys, clusterSize)
      reads this
    {
      oldReq == Recorded(old(oldReq), mdsLoad, clusterSize) &&
      RoundSound(o, IopsOf(mdsLoad, old(oldReq), clusterSize, cfg.balInterval),
                 AuthLoads(scores, clusterSize), m, cfg.ifThreshold, beatEpoch) &&
      events == old(events) + RoundEvents(o, view, beatEpoch)
    }

    /**
     * Rank 0's round once as many ranks have reported as are in: a rank
     * below `clusterSize` without a report fails the handler's assertion;
     * otherwise the round runs.
     */
    method RunIfRound(clusterSize: nat, scores: Scores, m: IfMath, view: LocalView) returns (round: Option<IfOutcome>)
      requires clusterSize > 0 && forall i :: 0 <= i < |view.up| ==> 0 <= view.up[i] < clusterSize
      modifies this`oldReq, this`events
      ensures round.None? <==> !Reported(mdsLoad.Keys, clusterSize)
      ensures round.None? ==> oldReq == old(oldReq) && events == old(events) + [AssertFailed]
      ensures round.Some? ==> RoundRan(clusterSize, scores, m, view, round.value)
    {
      if !Reported(mdsLoad.Keys, clusterSize) {
        events := events + [AssertFailed];
        return None;
      }
      var o, req := DecideRound(mdsLoad, oldReq, clusterSize, scores, m, cfg, view.up, beatEpoch);
      oldReq, events, round := req, events + RoundEvents(o, view, beatEpoch), Some(o);
    }

    /**
     * Rank 0 takes an ifbeat: one from another epoch is dropped; otherwise
     * the sender's load is recorded unless it already reported this epoch,
     * and once as many ranks have reported as are in, the round runs.
     */
    method GatherIfBeat(msg: IfBeatMsg, view: LocalView, clusterSize: nat, scores: Scores, m: IfMath)
      returns (round: Option<IfOutcome>)
      requires forall i :: 0 <= i < |view.up| ==> 0 <= view.up[i] < clusterSize
      modifies this
      ensures TickKept() && PlanKept() && beatEpoch == old(beatEpoch) && mdsImportMap == old(mdsImportMap)
      ensures mdsLoad ==
        if msg.beat != beatEpoch || msg.who in old(mdsLoad) then old(mdsLoad) else old(mdsLoad)[msg.who := msg.load]
      ensures msg.beat != beatEpoch || |mdsLoad| != clusterSize ==>
        round.None? && oldReq == old(oldReq) && events == old(events)
      ensures msg.beat == beatEpoch && |mdsLoad| == clusterSize && !Reported(mdsLoad.Keys, clusterSize) ==>
        round.None? && oldReq == old(oldReq) && events == old(events) + [AssertFailed]
      ensures msg.beat == beatEpoch && |mdsLoad| == clusterSize && Reported(mdsLoad.Keys, clusterSize) ==>
        round.Some? && RoundRan(clusterSize, scores, m, view, round.value)
    {
      if msg.beat != beatEpoch {
        return None;
      }
      if msg.who !in mdsLoad {
        mdsLoad := mdsLoad[msg.who := msg.load];
      }
      if |mdsLoad| != clusterSize {
        return None;
      }
      round := RunIfRound(clusterSize, scores, m, view);
    }

    /**
     * `handle_ifbeat`: ignored unless active, retried once the cache is
     * open, ignored while the cluster is degraded. Rank 0 gathers the
     * ifbeat and may run a round; any other rank carries out the decisions
     * it was sent when their imbalance factor reaches `mds_bal_ifthreshold`.
     * `round` is the round rank 0 ran, if any.
     */
    method HandleIfBeat(msg: IfBeatMsg, view: LocalView, active: bool, clusterSize: nat, scores: Scores, m: IfMath)
      returns (round: Option<IfOutcome>)
      requires whoami == 0 ==> forall i :: 0 <= i < |view.up| ==> 0 <= view.up[i] < clusterSize
      modifies this
      ensures TickKept() && PlanKept() && beatEpoch == old(beatEpoch) && mdsImportMap == old(mdsImportMap)
      ensures round.Some? ==> whoami == 0 && active && view.cacheOpen && !view.degraded && msg.beat == beatEpoch
      ensures !active || !view.cacheOpen || view.degraded ==>
        round.None? && mdsLoad == old(mdsLoad) && oldReq == old(oldReq) &&
        events == old(events) + (if active && !view.cacheOpen then [RetryMessage] else [])
      ensures active && view.cacheOpen && !view.degraded && whoami != 0 ==>
        round.None? && mdsLoad == old(mdsLoad) && oldReq == old(oldReq) &&
        events == old(events) + (if msg.ifValue >= cfg.ifThreshold then [DetermineRebalance(msg.decisions)] else [])
      ensures active && view.cacheOpen && !view.degraded && whoami == 0 && msg.beat == beatEpoch ==>
        mdsLoad == if msg.who in old(mdsLoad) then old(mdsLoad) else old(mdsLoad)[msg.who := msg.load]
      ensures round.Some? ==>
        |mdsLoad| == clusterSize > 0 && Reported(mdsLoad.Keys, clusterSize) &&
        RoundRan(clusterSize, scores, m, view, round.value)
    {
      if !active {
        return None;
      }
      if !view.cacheOpen {
        events := events + [RetryMessage];
        return None;
      }
      if view.degraded {
        return None;
      }
      if whoami == 0 {
        round := GatherIfBeat(msg, view, clusterSize, scores, m);
      } else {
        if msg.ifValue >= cfg.ifThreshold {
          events := events + [DetermineRebalance(msg.decisions)];
        }
        round := None;
      }
    }

    /** `handle_mds_failure`: when rank 0 fails, every rank's under-target history is forgotten. */
    method HandleMdsFailure(who: int)
      modifies this
      ensures lastEpochUnder == if who == 0 then map[] else old(lastEpochUnder)
      ensures EpochKept() && TickKept() && events == old(events) && oldReq == old(oldReq)
      ensures mdsMetaLoad == old(mdsMetaLoad) && myLoad == old(myLoad) && targetLoad == old(targetLoad)
      ensures rebalanceTime == old(rebalanceTime)
    {
      if who == 0 {
        lastEpochUnder := map[];
      }
    }
  }
}
