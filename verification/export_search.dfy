/**
 * The search for directory fragments to export (src/mds/MDBalancer.cc
 * `find_exports`, `find_exports_wrapper`,
 * `simple_determine_rebalance`).
 *
 * `find_exports` walks down from a fragment, looking at the fragments of
 * its subdirectories that are not already being exported and are neither
 * frozen nor freezing, and takes some of them until `have` comes close
 * enough to `amount`. The search is time-boxed: once 0.1 s have passed
 * since `rebalance_time` every call gives up and sets `have := amount`.
 * The clock is an input here: `budget` is how many more calls start
 * before the deadline, and `overdue` says that one call found it passed.
 * A failed `ceph_assert` stops the server; `aborted` records it, and
 * nothing happens after it.
 */
module ExportSearch {
  import opened Wrappers
  import opened Multimaps
  import opened DirTrees
  import opened Configs
  import LoadArrays
  import IfCascades

  /** `minchunk`: children below this load are idle and never taken. */
  const MIN_CHUNK: real := 0.5
  /** `MIN_OFFLOAD`: the point at which the search stops, close enough. */
  const MIN_OFFLOAD: real := 0.1
  /** `MIN_REEXPORT`: an import at least this busy may go on to another rank. */
  const MIN_REEXPORT: real := 5.0

  /** What a search threads through its calls: the caller's `exports`, the shared `already_exporting`, `have`, and the clock. */
  datatype Search = Search(exports: seq<int>, exporting: set<int>, have: real, budget: nat, overdue: bool, aborted: bool)

  /** The clock never runs backwards: once a call found the deadline passed, every later one does. */
  predicate Clocked(s: Search)
  {
    s.overdue ==> s.budget == 0
  }

  predicate InRange(nodes: seq<DirNode>, ds: seq<int>)
  {
    forall k :: 0 <= k < |ds| ==> 0 <= ds[k] < |nodes|
  }

  function Elements(ds: seq<int>): set<int>
  {
    set d | d in ds
  }

  function Min(a: real, b: real): real
  {
    if a <= b then a else b
  }

  /** The summed `get_load` of some fragments. */
  function SumLoads(nodes: seq<DirNode>, ds: seq<int>): real
    requires InRange(nodes, ds)
  {
    if ds == [] then 0.0 else SumLoads(nodes, ds[..|ds| - 1]) + nodes[ds[|ds| - 1]].load
  }

  lemma {:induction false} SumLoadsAppend(nodes: seq<DirNode>, x: seq<int>, y: seq<int>)
    requires InRange(nodes, x) && InRange(nodes, y)
    ensures InRange(nodes, x + y) && SumLoads(nodes, x + y) == SumLoads(nodes, x) + SumLoads(nodes, y)
    decreases |y|
  {
    if y != [] {
      var y' := y[..|y| - 1];
      assert (x + y)[..|x + y| - 1] == x + y';
      SumLoadsAppend(nodes, x, y');
    } else {
      assert x + y == x;
    }
  }

  /**
   * A fragment the search may take: not already being exported, neither
   * frozen nor freezing, and not idle.
   */
  predicate Candidate(nodes: seq<DirNode>, exporting: set<int>, c: int)
    requires 0 <= c < |nodes|
  {
    c !in exporting && !nodes[c].frozen && !nodes[c].freezing && nodes[c].load >= MIN_CHUNK
  }

  /** Every fragment of `added` was a candidate when the search began. */
  predicate Picked(nodes: seq<DirNode>, exporting: set<int>, added: seq<int>)
  {
    forall k :: 0 <= k < |added| ==> 0 <= added[k] < |nodes| && Candidate(nodes, exporting, added[k])
  }

  /**
   * How a search from `a` may end in `r`, having pushed `added` onto
   * `exports`: each fragment of `added` was a candidate, went into
   * `already_exporting`, and had its load counted in `have`, unless the
   * deadline passed. A call that found the deadline passed left `have` at
   * least `amount`; one that began past it never lowered `have` below
   * both its old value and `amount`.
   */
  predicate Accounted(nodes: seq<DirNode>, a: Search, added: seq<int>, r: Search, amount: real)
  {
    Picked(nodes, a.exporting, added) &&
    r.exporting == a.exporting + Elements(added) &&
    r.budget <= a.budget && (a.overdue ==> r.overdue) &&
    (!r.overdue ==> r.have == a.have + SumLoads(nodes, added)) &&
    (r.overdue && !a.overdue ==> r.have >= amount) &&
    (a.overdue ==> r.have >= Min(a.have, amount))
  }

  /** `r` is `a` after a search: `exports` only grew, by what `Accounted` says. */
  predicate Extends(nodes: seq<DirNode>, a: Search, r: Search, amount: real)
  {
    |a.exports| <= |r.exports| && r.exports[..|a.exports|] == a.exports &&
    Accounted(nodes, a, r.exports[|a.exports|..], r, amount)
  }

  /** Taking fragment `c`: it is pushed to `exports`, marked as being exported, and its load added to `have`. */
  function Take(nodes: seq<DirNode>, s: Search, c: int): (r: Search)
    requires 0 <= c < |nodes|
    ensures r.exports == s.exports + [c] && r.exporting == s.exporting + {c}
    ensures r.have - s.have == nodes[c].load
    ensures r.budget == s.budget && r.overdue == s.overdue && r.aborted == s.aborted
  {
    s.(exports := s.exports + [c], exporting := s.exporting + {c}, have := s.have + nodes[c].load)
  }

  /** A search that took nothing and only used up the clock. */
  lemma ExtendsIdle(nodes: seq<DirNode>, a: Search, r: Search, amount: real)
    requires r == a.(budget := r.budget, aborted := r.aborted) && r.budget <= a.budget
    ensures Extends(nodes, a, r, amount)
  {
    assert r.exports[|a.exports|..] == [];
  }

  /** Two searches one after the other are one search. */
  lemma ExtendsTrans(nodes: seq<DirNode>, a: Search, b: Search, c: Search, amount: real)
    requires Extends(nodes, a, b, amount) && Extends(nodes, b, c, amount)
    ensures Extends(nodes, a, c, amount)
  {
    var x, y := b.exports[|a.exports|..], c.exports[|b.exports|..];
    PrefixTrans(a.exports, b.exports, c.exports);
    AccountedTrans(nodes, a, x, b, y, c, amount);
  }

  lemma PrefixTrans(a: seq<int>, b: seq<int>, c: seq<int>)
    requires |a| <= |b| <= |c| && b[..|a|] == a && c[..|b|] == b
    ensures c[..|a|] == a && c[|a|..] == b[|a|..] + c[|b|..]
  {
    assert c[..|a|] == c[..|b|][..|a|];
    assert c == b + c[|b|..];
    assert b == a + b[|a|..];
  }

  lemma AccountedTrans(nodes: seq<DirNode>, a: Search, x: seq<int>, b: Search, y: seq<int>, c: Search, amount: real)
    requires Accounted(nodes, a, x, b, amount) && Accounted(nodes, b, y, c, amount)
    ensures Accounted(nodes, a, x + y, c, amount)
  {
    SumLoadsAppend(nodes, x, y);
    assert Elements(x + y) == Elements(x) + Elements(y);
    forall k | 0 <= k < |x + y|
      ensures 0 <= (x + y)[k] < |nodes| && Candidate(nodes, a.exporting, (x + y)[k])
    {
      if k >= |x| {
        assert (x + y)[k] == y[k - |x|];
      }
    }
  }

  /** Taking a fragment that was a candidate when the search began keeps the accounting. */
  lemma ExtendsTake(nodes: seq<DirNode>, a: Search, b: Search, c: int, amount: real)
    requires Extends(nodes, a, b, amount) && 0 <= c < |nodes| && Candidate(nodes, a.exporting, c)
    ensures Extends(nodes, a, Take(nodes, b, c), amount)
  {
    var r := Take(nodes, b, c);
    var x := b.exports[|a.exports|..];
    assert r.exports[..|a.exports|] == a.exports;
    assert r.exports[|a.exports|..] == x + [c];
    assert (x + [c])[..|x|] == x;
    assert Elements(x + [c]) == Elements(x) + {c};
  }

  /**
   * How much one `find_exports` call still needs and the bands it sorts
   * children into: `need` is `amount - have`, the others are the fractions
   * `mds_bal_need_min`, `mds_bal_need_max` and `mds_bal_midchunk` of it.
   */
  datatype Window = Window(need: real, needMin: real, needMax: real, midChunk: real)

  function WindowOf(cfg: Config, need: real): (w: Window)
    ensures w.need == need
  {
    Window(need, need * cfg.needMin, need * cfg.needMax, need * cfg.midChunk)
  }

  /**
   * Where the scan of the children stands: it found a child that fits the
   * window (the "lucky find"), or it has sorted the children so far into
   * the replicated and unreplicated ones bigger than `need` and the
   * `smaller` multimap keyed by load; `skipPos` is the hash mode's count
   * of children passed over since the last one kept.
   */
  datatype Scan =
    | Lucky(child: int)
    | Sifted(rep: seq<int>, unrep: seq<int>, smaller: seq<Entry<int>>, skipPos: int)

  /** The placement of small children: `mds_bal_frag`, the target rank and the number of ranks in. */
  datatype Placement = Placement(balFrag: int, target: int, clusterSize: int)

  /**
   * One child of the scan. A child already being exported, frozen or
   * freezing is passed over, and so is an idle one (below `minchunk`). A
   * child inside the window is a lucky find; one above `need` is bigger;
   * the others are smaller. In hash mode (`mds_bal_frag == 0`) a smaller
   * child is kept if it hashes to the target rank, and otherwise only one
   * in every `cluster_size + 1` of those that do not.
   */
  function ScanStep(nodes: seq<DirNode>, exporting: set<int>, w: Window, pl: Placement, acc: Scan, c: int): Scan
    requires acc.Sifted? && 0 <= c < |nodes|
  {
    var pop := nodes[c].load;
    if c in exporting || nodes[c].frozen || nodes[c].freezing || pop < MIN_CHUNK then acc
    else if w.needMin < pop < w.needMax then Lucky(c)
    else if pop > w.need then
      if nodes[c].replicated then acc.(rep := acc.rep + [c]) else acc.(unrep := acc.unrep + [c])
    else if pl.balFrag != 0 then acc.(smaller := Insert(acc.smaller, Entry(pop, c)))
    else if nodes[c].fragDest == pl.target || acc.skipPos + 1 >= pl.clusterSize + 1 then
      acc.(smaller := Insert(acc.smaller, Entry(pop, c)), skipPos := 0)
    else acc.(skipPos := acc.skipPos + 1)
  }

  /** The scan of `kids[k..]` from `acc`, stopping at a lucky find. */
  function ScanFrom(nodes: seq<DirNode>, exporting: set<int>, w: Window, pl: Placement, kids: seq<int>, k: nat, acc: Scan): Scan
    requires InRange(nodes, kids)
    decreases |kids| - k
  {
    if acc.Lucky? || k >= |kids| then acc
    else ScanFrom(nodes, exporting, w, pl, kids, k + 1, ScanStep(nodes, exporting, w, pl, acc, kids[k]))
  }

  /** The scan of all children of `dir`, from nothing sorted yet and `skip_pos = cluster_size`. */
  function ScanOf(nodes: seq<DirNode>, exporting: set<int>, w: Window, pl: Placement, dir: int): (sc: Scan)
    requires WellFormed(nodes) && 0 <= dir < |nodes|
    ensures SiftedWell(nodes, exporting, w, sc)
  {
    var init := Sifted([], [], [], pl.clusterSize);
    ScanFromWell(nodes, exporting, w, pl, nodes[dir].subdirs, 0, init);
    ScanFrom(nodes, exporting, w, pl, nodes[dir].subdirs, 0, init)
  }

  /**
   * What the scan promises: a lucky find is a candidate inside the window;
   * every bigger child is a candidate above `need`, on the list that
   * matches whether it is replicated; every smaller child is a candidate
   * at most `need`, filed under its own load, in key order.
   */
  predicate SiftedWell(nodes: seq<DirNode>, exporting: set<int>, w: Window, sc: Scan)
  {
    match sc
    case Lucky(c) =>
      0 <= c < |nodes| && Candidate(nodes, exporting, c) && w.needMin < nodes[c].load < w.needMax
    case Sifted(rep, unrep, smaller, _) =>
      (forall k :: 0 <= k < |rep| ==> Bigger(nodes, exporting, w, rep[k], true)) &&
      (forall k :: 0 <= k < |unrep| ==> Bigger(nodes, exporting, w, unrep[k], false)) &&
      Sorted(smaller) && (forall k :: 0 <= k < |smaller| ==> Smaller(nodes, exporting, w, smaller[k]))
  }

  /** A candidate above `need`, replicated or not as `rep` says. */
  predicate Bigger(nodes: seq<DirNode>, exporting: set<int>, w: Window, c: int, rep: bool)
  {
    0 <= c < |nodes| && Candidate(nodes, exporting, c) && nodes[c].replicated == rep && nodes[c].load > w.need
  }

  /** A candidate at most `need`, filed under its own load. */
  predicate Smaller(nodes: seq<DirNode>, exporting: set<int>, w: Window, e: Entry<int>)
  {
    0 <= e.value < |nodes| && Candidate(nodes, exporting, e.value) && e.key == nodes[e.value].load <= w.need
  }

  lemma ScanStepWell(nodes: seq<DirNode>, exporting: set<int>, w: Window, pl: Placement, acc: Scan, c: int)
    requires acc.Sifted? && 0 <= c < |nodes| && SiftedWell(nodes, exporting, w, acc)
    ensures SiftedWell(nodes, exporting, w, ScanStep(nodes, exporting, w, pl, acc, c))
  {
    var e := Entry(nodes[c].load, c);
    if Smaller(nodes, exporting, w, e) {
      InsertSmaller(nodes, exporting, w, acc.smaller, e);
    }
  }

  /** Filing a smaller child keeps every entry a smaller child, in key order. */
  lemma InsertSmaller(nodes: seq<DirNode>, exporting: set<int>, w: Window, smaller: seq<Entry<int>>, e: Entry<int>)
    requires Sorted(smaller) && forall k :: 0 <= k < |smaller| ==> Smaller(nodes, exporting, w, smaller[k])
    requires Smaller(nodes, exporting, w, e)
    ensures var ins := Insert(smaller, e);
      Sorted(ins) && forall k :: 0 <= k < |ins| ==> Smaller(nodes, exporting, w, ins[k])
  {
    var ins := Insert(smaller, e);
    forall k | 0 <= k < |ins|
      ensures Smaller(nodes, exporting, w, ins[k])
    {
      assert ins[k] in multiset(smaller) + multiset{e};
      if ins[k] != e {
        assert ins[k] in smaller;
      }
    }
  }

  /** The whole scan keeps its promise. */
  lemma {:induction false} ScanFromWell(nodes: seq<DirNode>, exporting: set<int>, w: Window, pl: Placement,
                                        kids: seq<int>, k: nat, acc: Scan)
    requires InRange(nodes, kids) && SiftedWell(nodes, exporting, w, acc)
    ensures SiftedWell(nodes, exporting, w, ScanFrom(nodes, exporting, w, pl, kids, k, acc))
    decreases |kids| - k
  {
    if !(acc.Lucky? || k >= |kids|) {
      ScanStepWell(nodes, exporting, w, pl, acc, kids[k]);
      ScanFromWell(nodes, exporting, w, pl, kids, k + 1, ScanStep(nodes, exporting, w, pl, acc, kids[k]));
    }
  }

  /**
   * The loop over `pop_lru_subdirs` in `find_exports`, each entry's nested
   * fragments in turn: it stops at a lucky find, and otherwise sorts every
   * child.
   */
  method ScanChildren(nodes: seq<DirNode>, exporting: set<int>, w: Window, pl: Placement, dir: int)
    returns (sc: Scan)
    requires WellFormed(nodes) && 0 <= dir < |nodes|
    ensures sc == ScanOf(nodes, exporting, w, pl, dir)
    ensures SiftedWell(nodes, exporting, w, sc)
  {
    var kids := nodes[dir].subdirs;
    var acc := Sifted([], [], [], pl.clusterSize);
    ScanFromWell(nodes, exporting, w, pl, kids, 0, acc);
    for i := 0 to |kids|
      invariant acc.Sifted?
      invariant ScanFrom(nodes, exporting, w, pl, kids, i, acc) == ScanOf(nodes, exporting, w, pl, dir)
    {
      var c := kids[i];
      var pop := nodes[c].load;
      if c in exporting || nodes[c].frozen || nodes[c].freezing {
        continue;
      }
      if pop < MIN_CHUNK {
        continue;
      }
      if w.needMin < pop < w.needMax {
        return Lucky(c);
      }
      if pop > w.need {
        if nodes[c].replicated {
          acc := acc.(rep := acc.rep + [c]);
        } else {
          acc := acc.(unrep := acc.unrep + [c]);
        }
      } else if pl.balFrag == 0 {
        if nodes[c].fragDest == pl.target {
          acc := acc.(smaller := Insert(acc.smaller, Entry(pop, c)), skipPos := 0);
        } else {
          var skip := acc.skipPos + 1;
          if skip >= pl.clusterSize + 1 {
            acc := acc.(smaller := Insert(acc.smaller, Entry(pop, c)), skipPos := 0);
          } else {
            acc := acc.(skipPos := skip);
          }
        }
      } else {
        acc := acc.(smaller := Insert(acc.smaller, Entry(pop, c)));
      }
    }
    return acc;
  }

  /** Whether a call gets past the clock, the authority assert and the `mds_bal_min_start` check. */
  predicate Proceeds(nodes: seq<DirNode>, cfg: Config, dir: int, amount: real, s: Search)
    requires 0 <= dir < |nodes|
  {
    s.budget > 0 && nodes[dir].auth && amount - s.have >= amount * cfg.minStart
  }

  /**
   * `find_exports(dir, amount, exports, have, already_exporting, target)`.
   * Past the deadline it sets `have := amount` and returns; a fragment
   * this rank is not the authority of fails the assert; when `have` is
   * already within `mds_bal_min_start` of `amount` nothing happens.
   * Otherwise the children are scanned: a lucky find is taken and the call
   * returns; so is the biggest smaller child if it reaches `midchunk` (the
   * "taking smaller" loop returns right after its first take). Failing
   * both, it descends into the bigger unreplicated children through
   * `find_exports_wrapper`, then takes the smaller children from the
   * biggest down, then descends into the bigger replicated ones (with the
   * default target, rank 0), returning once `have` is past `needmin`
   * after a descent or past `need` after a take.
   */
  method FindExports(nodes: seq<DirNode>, cfg: Config, whoami: int, clusterSize: int,
                     dir: int, amount: real, target: int, s: Search) returns (r: Search)
    requires WellFormed(nodes) && 0 <= dir < |nodes| && Clocked(s) && !s.aborted
    ensures Clocked(r) && Extends(nodes, s, r, amount)
    ensures s.budget == 0 ==> r == s.(have := amount, overdue := true)
    ensures s.budget > 0 && !nodes[dir].auth ==> r == s.(budget := s.budget - 1, aborted := true)
    ensures s.budget > 0 && nodes[dir].auth && amount - s.have < amount * cfg.minStart ==>
      r == s.(budget := s.budget - 1)
    ensures Proceeds(nodes, cfg, dir, amount, s) ==>
      var w := WindowOf(cfg, amount - s.have);
      var q := QuickTake(ScanOf(nodes, s.exporting, w, Placement(cfg.balFrag, target, clusterSize), dir), w);
      q.Some? ==> r == Take(nodes, s.(budget := s.budget - 1), q.value)
    decreases s.budget, 1
  {
    if s.budget == 0 {
      return s.(have := amount, overdue := true);
    }
    var s0 := s.(budget := s.budget - 1);
    if !nodes[dir].auth {
      return s0.(aborted := true);
    }
    ExtendsIdle(nodes, s, s0, amount);
    var need := amount - s.have;
    if need < amount * cfg.minStart {
      return s0;
    }
    var w := WindowOf(cfg, need);
    r := Explore(nodes, cfg, whoami, clusterSize, dir, amount, target, w, s0);
    ExtendsTrans(nodes, s, s0, r, amount);
  }

  /**
   * The part of `find_exports` past the early exits, with the window
   * `w` worked out from `need`: the scan, then the takes and descents.
   */
  method Explore(nodes: seq<DirNode>, cfg: Config, whoami: int, clusterSize: int,
                 dir: int, amount: real, target: int, w: Window, s: Search) returns (r: Search)
    requires WellFormed(nodes) && 0 <= dir < |nodes| && Clocked(s) && !s.aborted
    ensures Clocked(r) && Extends(nodes, s, r, amount)
    ensures var q := QuickTake(ScanOf(nodes, s.exporting, w, Placement(cfg.balFrag, target, clusterSize), dir), w);
      q.Some? ==> r == Take(nodes, s, q.value)
    decreases s.budget, 6
  {
    ExtendsIdle(nodes, s, s, amount);
    var sc := ScanChildren(nodes, s.exporting, w, Placement(cfg.balFrag, target, clusterSize), dir);
    if sc.Lucky? {
      ExtendsTake(nodes, s, s, sc.child, amount);
      return Take(nodes, s, sc.child);
    }
    var byLoad := Reversed(sc.smaller);
    if byLoad != [] && byLoad[0].key >= w.midChunk {
      assert byLoad[0] == Last(sc.smaller);
      ExtendsTake(nodes, s, s, byLoad[0].value, amount);
      return Take(nodes, s, byLoad[0].value);
    }
    assert QuickTake(sc, w) == None by {
      if sc.smaller != [] {
        assert byLoad[0] == Last(sc.smaller);
      }
    }
    r := Deepen(nodes, cfg, whoami, clusterSize, amount, target, w, sc, s);
  }

  /**
   * The rest of `find_exports` when nothing was taken straight away: the
   * descents into the bigger unreplicated children, and unless they
   * brought `have` past `needmin`, the last two stages.
   */
  method Deepen(nodes: seq<DirNode>, cfg: Config, whoami: int, clusterSize: int,
                amount: real, target: int, w: Window, sc: Scan, s: Search) returns (r: Search)
    requires WellFormed(nodes) && Clocked(s) && !s.aborted
    requires sc.Sifted? && SiftedWell(nodes, s.exporting, w, sc)
    ensures Clocked(r) && Extends(nodes, s, r, amount)
    decreases s.budget, 5
  {
    var done;
    r, done := Descend(nodes, cfg, whoami, clusterSize, sc.unrep, false, amount, target, w.needMin, s);
    if done {
      return;
    }
    var r1 := r;
    r := TakeThenDescend(nodes, cfg, whoami, clusterSize, amount, w, sc, s, r1);
  }

  /**
   * The last two stages of `find_exports`: the smaller children from the
   * biggest down, then the descents into the bigger replicated children.
   * The scan was made from `origin`.
   */
  method TakeThenDescend(nodes: seq<DirNode>, cfg: Config, whoami: int, clusterSize: int,
                         amount: real, w: Window, sc: Scan, ghost origin: Search, s: Search) returns (r: Search)
    requires WellFormed(nodes) && Clocked(s) && !s.aborted && Extends(nodes, origin, s, amount)
    requires sc.Sifted? && SiftedWell(nodes, origin.exporting, w, sc)
    ensures Clocked(r) && Extends(nodes, origin, r, amount)
    decreases s.budget, 4
  {
    var byLoad := Values(Reversed(sc.smaller));
    var taken, done;
    r, taken, done := TakeSmaller(nodes, byLoad, w.need, s);
    ExtendsTakeSmaller(nodes, origin, s, w, sc.smaller, taken, amount);
    if done {
      return;
    }
    var r2 := r;
    r, done := Descend(nodes, cfg, whoami, clusterSize, sc.rep, true, amount, 0, w.needMin, r2);
    ExtendsTrans(nodes, origin, r2, r, amount);
  }

  /**
   * The descents of `find_exports`: into the bigger unreplicated children
   * through `find_exports_wrapper` with the caller's target, or into the
   * bigger replicated ones through `find_exports` itself with the default
   * target, rank 0. It stops after a descent that fails an assert or
   * leaves `have` past `needMin`, and says so in `done`.
   */
  method Descend(nodes: seq<DirNode>, cfg: Config, whoami: int, clusterSize: int, kids: seq<int>, replicated: bool,
                 amount: real, target: int, needMin: real, s: Search) returns (r: Search, done: bool)
    requires WellFormed(nodes) && InRange(nodes, kids) && Clocked(s) && !s.aborted
    ensures Clocked(r) && Extends(nodes, s, r, amount)
    ensures done ==> r.aborted || r.have > needMin
    ensures !done ==> !r.aborted
    decreases s.budget, 3
  {
    ExtendsIdle(nodes, s, s, amount);
    r := s;
    for j := 0 to |kids|
      invariant Clocked(r) && !r.aborted && Extends(nodes, s, r, amount) && r.budget <= s.budget
    {
      var next;
      if replicated {
        next := FindExports(nodes, cfg, whoami, clusterSize, kids[j], amount, target, r);
      } else {
        next := FindExportsWrapper(nodes, cfg, whoami, clusterSize, kids[j], amount, target, r);
      }
      ExtendsTrans(nodes, s, r, next, amount);
      r := next;
      if r.aborted || r.have > needMin {
        return r, true;
      }
    }
    return r, false;
  }

  /** Taking the fragments of `xs` one after the other. */
  function TakeAll(nodes: seq<DirNode>, s: Search, xs: seq<int>): (r: Search)
    requires InRange(nodes, xs)
    ensures r.budget == s.budget && r.overdue == s.overdue && r.aborted == s.aborted
    ensures r.exports == s.exports + xs
  {
    if xs == [] then s else Take(nodes, TakeAll(nodes, s, xs[..|xs| - 1]), xs[|xs| - 1])
  }

  /** Taking fragments that were candidates when the search began keeps the accounting. */
  lemma {:induction false} ExtendsTakeAll(nodes: seq<DirNode>, origin: Search, s: Search, xs: seq<int>, amount: real)
    requires Extends(nodes, origin, s, amount)
    requires forall k :: 0 <= k < |xs| ==> 0 <= xs[k] < |nodes| && Candidate(nodes, origin.exporting, xs[k])
    ensures Extends(nodes, origin, TakeAll(nodes, s, xs), amount)
  {
    if xs != [] {
      ExtendsTakeAll(nodes, origin, s, xs[..|xs| - 1], amount);
      ExtendsTake(nodes, origin, TakeAll(nodes, s, xs[..|xs| - 1]), xs[|xs| - 1], amount);
    }
  }

  /** Taking the first `n` smaller children, biggest first, keeps the accounting. */
  lemma ExtendsTakeSmaller(nodes: seq<DirNode>, origin: Search, s: Search, w: Window, smaller: seq<Entry<int>>, n: nat,
                           amount: real)
    requires Extends(nodes, origin, s, amount)
    requires forall k :: 0 <= k < |smaller| ==> Smaller(nodes, origin.exporting, w, smaller[k])
    requires n <= |smaller|
    ensures var xs := Values(Reversed(smaller))[..n];
      InRange(nodes, xs) && Extends(nodes, origin, TakeAll(nodes, s, xs), amount)
  {
    var xs := Values(Reversed(smaller))[..n];
    forall k | 0 <= k < |xs|
      ensures 0 <= xs[k] < |nodes| && Candidate(nodes, origin.exporting, xs[k])
    {
      assert Smaller(nodes, origin.exporting, w, smaller[|smaller| - 1 - k]);
    }
    ExtendsTakeAll(nodes, origin, s, xs, amount);
  }

  /**
   * The "taking (much) smaller" loop of `find_exports`: the fragments of
   * `smaller`, biggest first, are taken one after the other, stopping
   * right after the first take that leaves `have` past `need`, which
   * `done` reports.
   */
  method TakeSmaller(nodes: seq<DirNode>, smaller: seq<int>, need: real, s: Search)
    returns (r: Search, n: nat, done: bool)
    requires InRange(nodes, smaller)
    ensures n <= |smaller| && r == TakeAll(nodes, s, smaller[..n])
    ensures done ==> r.have > need
    ensures !done ==> n == |smaller|
    ensures forall m :: 0 < m <= n && (m < n || !done) ==> TakeAll(nodes, s, smaller[..m]).have <= need
  {
    r, n := s, 0;
    while n < |smaller|
      invariant n <= |smaller| && r == TakeAll(nodes, s, smaller[..n])
      invariant forall m :: 0 < m <= n ==> TakeAll(nodes, s, smaller[..m]).have <= need
    {
      assert smaller[..n + 1][..n] == smaller[..n];
      r := Take(nodes, r, smaller[n]);
      n := n + 1;
      if r.have > need {
        return r, n, true;
      }
    }
    return r, n, false;
  }

  /**
   * The child a call takes and returns straight after: a lucky find, or
   * else the biggest smaller child if it reaches `midchunk`.
   */
  function QuickTake(sc: Scan, w: Window): Option<int>
  {
    if sc.Lucky? then Some(sc.child)
    else if sc.smaller != [] && Last(sc.smaller).key >= w.midChunk then Some(Last(sc.smaller).value)
    else None
  }

  function Last<T>(s: seq<T>): T
    requires s != []
  {
    s[|s| - 1]
  }

  /**
   * `find_exports_wrapper`: a stray fragment is left alone. When the path
   * classifier calls the fragment's path a root workload, every fragment
   * of its inode is collected once per fragment of that inode, into one
   * growing list, and after each collection the whole list is walked,
   * searching each fragment busier than a tenth of `amount`. Otherwise
   * rank 0 searches the fragment itself, and another rank searches the
   * fragment holding the directory's inode, or the fragment itself at the
   * root.
   */
  method FindExportsWrapper(nodes: seq<DirNode>, cfg: Config, whoami: int, clusterSize: int,
                            dir: int, amount: real, target: int, s: Search) returns (r: Search)
    requires WellFormed(nodes) && 0 <= dir < |nodes| && Clocked(s) && !s.aborted
    ensures Clocked(r) && Extends(nodes, s, r, amount)
    ensures nodes[dir].stray ==> r == s
    decreases s.budget, 2
  {
    ExtendsIdle(nodes, s, s, amount);
    if nodes[dir].stray {
      return s;
    }
    if nodes[dir].rootWorkload {
      var dfls := nodes[dir].inodeFrags;
      var little: seq<int> := [];
      r := s;
      for i := 0 to |dfls|
        invariant Clocked(r) && !r.aborted && Extends(nodes, s, r, amount) && r.budget <= s.budget
        invariant InRange(nodes, little)
      {
        little := little + nodes[dfls[i]].inodeFrags;
        for j := 0 to |little|
          invariant Clocked(r) && !r.aborted && Extends(nodes, s, r, amount) && r.budget <= s.budget
        {
          if nodes[little[j]].load > 0.1 * amount {
            var next := FindExports(nodes, cfg, whoami, clusterSize, little[j], amount, target, r);
            ExtendsTrans(nodes, s, r, next, amount);
            r := next;
            if r.aborted {
              return;
            }
          }
        }
      }
    } else if whoami == 0 || nodes[dir].parent == NO_PARENT {
      r := FindExports(nodes, cfg, whoami, clusterSize, dir, amount, target, s);
    } else {
      r := FindExports(nodes, cfg, whoami, clusterSize, nodes[dir].parent, amount, target, s);
    }
  }

  /** A fragment that may be exported at all: neither frozen nor freezing, and not idle. */
  predicate Exportable(nodes: seq<DirNode>, c: int)
  {
    0 <= c < |nodes| && !nodes[c].frozen && !nodes[c].freezing && nodes[c].load >= MIN_CHUNK
  }

  /**
   * What the decisions handled so far found: exportable fragments, all of
   * them already being exported, and none found for two decisions.
   */
  predicate Filed(nodes: seq<DirNode>, found: seq<seq<int>>, exporting: set<int>)
  {
    (forall i, j :: 0 <= i < j < |found| ==> Elements(found[i]) !! Elements(found[j])) &&
    (forall i :: 0 <= i < |found| ==> Elements(found[i]) <= exporting) &&
    (forall i, k :: 0 <= i < |found| && 0 <= k < |found[i]| ==> Exportable(nodes, found[i][k]))
  }

  /** A search started afresh for the next decision files what it found next to the others. */
  lemma FiledStep(nodes: seq<DirNode>, found: seq<seq<int>>, s: Search, r: Search, amount: real)
    requires Filed(nodes, found, s.exporting) && s.exports == [] && Extends(nodes, s, r, amount)
    ensures Filed(nodes, found + [r.exports], r.exporting)
  {
    assert r.exports[|s.exports|..] == r.exports;
    var f := found + [r.exports];
    forall i, j | 0 <= i < j < |f|
      ensures Elements(f[i]) !! Elements(f[j])
    {
      if j == |found| {
        forall x | x in Elements(f[j])
          ensures x !in Elements(f[i])
        {
          var k :| 0 <= k < |r.exports| && r.exports[k] == x;
          assert Candidate(nodes, s.exporting, r.exports[k]);
        }
      }
    }
    forall i, k | 0 <= i < |f| && 0 <= k < |f[i]|
      ensures Exportable(nodes, f[i][k])
    {
      if i == |found| {
        assert Candidate(nodes, s.exporting, r.exports[k]);
      }
    }
  }

  /** `percent * my_mds_load`, where `my_mds_load` is `calc_mds_load`'s result truncated to an `int`. */
  function ExportLoad(d: IfCascades.Decision, myLoad: real): real
  {
    d.percent * (LoadArrays.Trunc(myLoad) as real)
  }

  /**
   * `simple_determine_rebalance`, once the migrator's queue is cleared:
   * for each decision in turn, the full-auth subtrees that are neither
   * frozen, freezing nor stray go through `find_exports_wrapper` towards
   * the decision's target until `have` reaches 80% of the load to send,
   * and what was found is exported to the target. `already_exporting`
   * and the clock are shared by all decisions. `found[j]` is what
   * decision `j` exports; every fragment in it is exportable, and no
   * fragment goes to two decisions' targets.
   */
  method SimpleDetermineRebalance(nodes: seq<DirNode>, cfg: Config, whoami: int, clusterSize: int, myLoad: real,
                                  subtrees: seq<int>, decisions: seq<IfCascades.Decision>, budget: nat)
    returns (found: seq<seq<int>>, aborted: bool)
    requires WellFormed(nodes) && InRange(nodes, subtrees)
    ensures |found| <= |decisions| && (!aborted ==> |found| == |decisions|)
    ensures forall i, j :: 0 <= i < j < |found| ==> Elements(found[i]) !! Elements(found[j])
    ensures forall i, k :: 0 <= i < |found| && 0 <= k < |found[i]| ==> Exportable(nodes, found[i][k])
  {
    var s := Search([], {}, 0.0, budget, false, false);
    found := [];
    for j := 0 to |decisions|
      invariant |found| == j && Clocked(s) && !s.aborted && Filed(nodes, found, s.exporting)
    {
      var exLoad := ExportLoad(decisions[j], myLoad);
      var start := s.(exports := [], have := 0.0);
      var cur := start;
      ExtendsIdle(nodes, start, cur, exLoad);
      for p := 0 to |subtrees|
        invariant Clocked(cur) && !cur.aborted && Extends(nodes, start, cur, exLoad)
      {
        var d := subtrees[p];
        if nodes[d].freezing || nodes[d].frozen || nodes[d].stray {
          continue;
        }
        var next := FindExportsWrapper(nodes, cfg, whoami, clusterSize, d, exLoad, decisions[j].target, cur);
        ExtendsTrans(nodes, start, cur, next, exLoad);
        cur := next;
        if cur.aborted {
          return found, true;
        }
        if cur.have >= 0.8 * exLoad {
          break;
        }
      }
      FiledStep(nodes, found, start, cur, exLoad);
      found := found + [cur.exports];
      s := cur;
    }
    return found, false;
  }
}
