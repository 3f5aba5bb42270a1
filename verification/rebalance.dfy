/**
 * The heartbeat balancer's export pass (src/mds/MDBalancer.cc
 * `try_rebalance`): once `prep_rebalance` has decided how much load this
 * rank sends to each target, the rank first hands idle imports back to
 * where they came from, then for each target gives back imports that came
 * from it, then re-exports other busy imports, and finally searches its
 * own workload with `find_exports` for fragments to make up the rest.
 *
 * Each `export_dir_nicely(dir, to)` call is a `Move`, labelled with the
 * stage that made it.
 */
module Rebalances {
  import opened Multimaps
  import opened DirTrees
  import opened Configs
  import opened ExportSearch
  import opened Wrappers
  import BalancePlans

  /** A full-auth subtree root of this rank: its fragment, the rank its inode's authority names, and its flags. */
  datatype Subtree = Subtree(dir: int, from: int, mdsdir: bool, pinned: bool, isRoot: bool)

  /** An import kept for the later stages: `import_from_map`'s `(from, (dir, pop))`. */
  datatype Import = Import(dir: int, from: int, pop: real)

  /** Which stage asked for an export. */
  datatype Why = Idle | Back | Reexport | Found

  /** One `export_dir_nicely(dir, to)`, with the load the stage counted for it. */
  datatype Move = Move(dir: int, to: int, why: Why, pop: real)

  predicate Subtrees(nodes: seq<DirNode>, subtrees: seq<Subtree>)
  {
    forall i :: 0 <= i < |subtrees| ==> 0 <= subtrees[i].dir < |nodes|
  }

  /** The subtrees the pass looks at: not `~mdsN`, not pinned, and not already on the way out. */
  predicate Considered(nodes: seq<DirNode>, t: Subtree)
    requires 0 <= t.dir < |nodes|
  {
    !t.mdsdir && !t.pinned && !nodes[t.dir].freezing && !nodes[t.dir].frozen
  }

  /** An idle import (below `mds_bal_idle_threshold`, when that is on) that is neither the root nor this rank's own. */
  predicate GoesIdle(nodes: seq<DirNode>, cfg: Config, whoami: int, t: Subtree)
    requires 0 <= t.dir < |nodes|
  {
    cfg.idleThreshold > 0.0 && nodes[t.dir].load < cfg.idleThreshold && !t.isRoot && t.from != whoami
  }

  /** The idle imports handed back, in subtree order. */
  function IdleMoves(nodes: seq<DirNode>, cfg: Config, whoami: int, subtrees: seq<Subtree>): seq<Move>
    requires Subtrees(nodes, subtrees)
  {
    if subtrees == [] then []
    else
      var t := subtrees[|subtrees| - 1];
      var rest := IdleMoves(nodes, cfg, whoami, subtrees[..|subtrees| - 1]);
      if Considered(nodes, t) && GoesIdle(nodes, cfg, whoami, t) then rest + [Move(t.dir, t.from, Idle, nodes[t.dir].load)]
      else rest
  }

  /** The imports recorded in `import_from_map`, in subtree order. */
  function Imports(nodes: seq<DirNode>, cfg: Config, whoami: int, subtrees: seq<Subtree>): (r: seq<Import>)
    requires Subtrees(nodes, subtrees)
    ensures forall k :: 0 <= k < |r| ==> 0 <= r[k].dir < |nodes|
  {
    if subtrees == [] then []
    else
      var t := subtrees[|subtrees| - 1];
      var rest := Imports(nodes, cfg, whoami, subtrees[..|subtrees| - 1]);
      if Considered(nodes, t) && !GoesIdle(nodes, cfg, whoami, t) then rest + [Import(t.dir, t.from, nodes[t.dir].load)]
      else rest
  }

  /** A move hands back exactly an idle import, to the rank it came from. */
  lemma {:induction false} IdleMovesExactly(nodes: seq<DirNode>, cfg: Config, whoami: int, subtrees: seq<Subtree>, m: Move)
    requires Subtrees(nodes, subtrees)
    ensures m in IdleMoves(nodes, cfg, whoami, subtrees) <==>
      exists i :: 0 <= i < |subtrees| && Considered(nodes, subtrees[i]) && GoesIdle(nodes, cfg, whoami, subtrees[i]) &&
        m == Move(subtrees[i].dir, subtrees[i].from, Idle, nodes[subtrees[i].dir].load)
  {
    if subtrees != [] {
      var init := subtrees[..|subtrees| - 1];
      IdleMovesExactly(nodes, cfg, whoami, init, m);
      if m in IdleMoves(nodes, cfg, whoami, subtrees) && m !in IdleMoves(nodes, cfg, whoami, init) {
        assert Considered(nodes, subtrees[|subtrees| - 1]);
      }
      if exists i :: 0 <= i < |subtrees| && Considered(nodes, subtrees[i]) && GoesIdle(nodes, cfg, whoami, subtrees[i]) &&
          m == Move(subtrees[i].dir, subtrees[i].from, Idle, nodes[subtrees[i].dir].load) {
        var i :| 0 <= i < |subtrees| && Considered(nodes, subtrees[i]) && GoesIdle(nodes, cfg, whoami, subtrees[i]) &&
          m == Move(subtrees[i].dir, subtrees[i].from, Idle, nodes[subtrees[i].dir].load);
        if i < |init| {
          assert init[i] == subtrees[i];
        }
      }
    }
  }

  /** An import is recorded exactly for a considered subtree that is not idle, with its `get_load`. */
  lemma {:induction false} ImportsExactly(nodes: seq<DirNode>, cfg: Config, whoami: int, subtrees: seq<Subtree>, x: Import)
    requires Subtrees(nodes, subtrees)
    ensures x in Imports(nodes, cfg, whoami, subtrees) <==>
      exists i :: 0 <= i < |subtrees| && Considered(nodes, subtrees[i]) && !GoesIdle(nodes, cfg, whoami, subtrees[i]) &&
        x == Import(subtrees[i].dir, subtrees[i].from, nodes[subtrees[i].dir].load)
  {
    if subtrees != [] {
      var init := subtrees[..|subtrees| - 1];
      ImportsExactly(nodes, cfg, whoami, init, x);
      if x in Imports(nodes, cfg, whoami, subtrees) && x !in Imports(nodes, cfg, whoami, init) {
        assert Considered(nodes, subtrees[|subtrees| - 1]);
      }
      if exists i :: 0 <= i < |subtrees| && Considered(nodes, subtrees[i]) && !GoesIdle(nodes, cfg, whoami, subtrees[i]) &&
          x == Import(subtrees[i].dir, subtrees[i].from, nodes[subtrees[i].dir].load) {
        var i :| 0 <= i < |subtrees| && Considered(nodes, subtrees[i]) && !GoesIdle(nodes, cfg, whoami, subtrees[i]) &&
          x == Import(subtrees[i].dir, subtrees[i].from, nodes[subtrees[i].dir].load);
        if i < |init| {
          assert init[i] == subtrees[i];
        }
      }
    }
  }

  /** `import_pop_map`'s entries, `(pop, dir)`, in insertion order. */
  function PopEntries(imports: seq<Import>): (r: seq<Entry<int>>)
    ensures |r| == |imports| && forall k :: 0 <= k < |r| ==> r[k] == Entry(imports[k].pop, imports[k].dir)
  {
    seq(|imports|, k requires 0 <= k < |imports| => Entry(imports[k].pop, imports[k].dir))
  }

  /** Recording one more import inserts its entry into `import_pop_map`. */
  lemma BuildSnoc(imports: seq<Import>, x: Import)
    ensures Build(PopEntries(imports + [x])) == Insert(Build(PopEntries(imports)), Entry(x.pop, x.dir))
  {
    assert PopEntries(imports + [x])[..|imports|] == PopEntries(imports);
  }

  /** One more subtree: what it adds to the idle moves and to the imports. */
  lemma CollectStep(nodes: seq<DirNode>, cfg: Config, whoami: int, subtrees: seq<Subtree>, i: nat)
    requires Subtrees(nodes, subtrees) && i < |subtrees|
    ensures var t := subtrees[i];
      IdleMoves(nodes, cfg, whoami, subtrees[..i + 1]) == IdleMoves(nodes, cfg, whoami, subtrees[..i]) +
        (if Considered(nodes, t) && GoesIdle(nodes, cfg, whoami, t) then [Move(t.dir, t.from, Idle, nodes[t.dir].load)] else []) &&
      Imports(nodes, cfg, whoami, subtrees[..i + 1]) == Imports(nodes, cfg, whoami, subtrees[..i]) +
        (if Considered(nodes, t) && !GoesIdle(nodes, cfg, whoami, t) then [Import(t.dir, t.from, nodes[t.dir].load)] else [])
  {
    assert subtrees[..i + 1][..i] == subtrees[..i];
  }

  /**
   * The first stage: idle imports go back at once, every other considered
   * subtree is recorded in `import_from_map` (`byFrom`) and in
   * `import_pop_map` (`byPop`, sorted by load).
   */
  method CollectImports(nodes: seq<DirNode>, cfg: Config, whoami: int, subtrees: seq<Subtree>)
    returns (moves: seq<Move>, byFrom: seq<Import>, byPop: seq<Entry<int>>)
    requires Subtrees(nodes, subtrees)
    ensures moves == IdleMoves(nodes, cfg, whoami, subtrees)
    ensures byFrom == Imports(nodes, cfg, whoami, subtrees)
    ensures byPop == Build(PopEntries(byFrom))
  {
    moves, byFrom, byPop := [], [], [];
    for i := 0 to |subtrees|
      invariant moves == IdleMoves(nodes, cfg, whoami, subtrees[..i])
      invariant byFrom == Imports(nodes, cfg, whoami, subtrees[..i])
      invariant byPop == Build(PopEntries(byFrom))
    {
      CollectStep(nodes, cfg, whoami, subtrees, i);
      var t := subtrees[i];
      if Considered(nodes, t) {
        var pop := nodes[t.dir].load;
        if GoesIdle(nodes, cfg, whoami, t) {
          moves := moves + [Move(t.dir, t.from, Idle, pop)];
        } else {
          var imp := Import(t.dir, t.from, pop);
          BuildSnoc(byFrom, imp);
          byPop := Insert(byPop, Entry(pop, t.dir));
          byFrom := byFrom + [imp];
        }
      }
    }
    assert subtrees[..|subtrees|] == subtrees;
  }

  /** Where the first entry equal to `e` is, or `|s|` without one. */
  function IndexOf(s: seq<Entry<int>>, e: Entry<int>): (p: nat)
    ensures p <= |s| && (p < |s| ==> s[p] == e) && forall k :: 0 <= k < p ==> s[k] != e
  {
    if s == [] then 0 else if s[0] == e then 0 else 1 + IndexOf(s[1..], e)
  }

  /** `erase` at position `p`: the other entries keep their order. */
  function RemoveAt(s: seq<Entry<int>>, p: nat): (r: seq<Entry<int>>)
    requires p < |s|
    ensures |r| == |s| - 1 && (forall i :: 0 <= i < p ==> r[i] == s[i]) && (forall i :: p <= i < |r| ==> r[i] == s[i + 1])
    ensures multiset(r) == multiset(s) - multiset{s[p]}
    ensures Sorted(s) ==> Sorted(r)
    ensures forall x :: x in r ==> x in s
  {
    var r := s[..p] + s[p + 1..];
    RemoveAtKeeps(s, p);
    assert s == s[..p] + [s[p]] + s[p + 1..];
    r
  }

  /** Removing an entry keeps the others, in order. */
  lemma RemoveAtKeeps(s: seq<Entry<int>>, p: nat)
    requires p < |s|
    ensures Sorted(s) ==> Sorted(s[..p] + s[p + 1..])
    ensures forall x :: x in s[..p] + s[p + 1..] ==> x in s
  {
    var r := s[..p] + s[p + 1..];
    forall i | 0 <= i < |r|
      ensures r[i] == s[if i < p then i else i + 1]
    {
    }
    if Sorted(s) {
      forall i, j | 0 <= i < j < |r|
        ensures r[i].key <= r[j].key
      {
        assert r[i] == s[if i < p then i else i + 1];
        assert r[j] == s[if j < p then j else j + 1];
      }
    }
  }

  /** `erase` of the first `import_pop_map` entry equal to `e` (the loop over `equal_range(pop)` looking for `dir`). */
  function EraseFirst(s: seq<Entry<int>>, e: Entry<int>): (r: seq<Entry<int>>)
    ensures multiset(r) == multiset(s) - multiset{e}
    ensures Sorted(s) ==> Sorted(r)
    ensures forall x :: x in r ==> x in s
  {
    var p := IndexOf(s, e);
    if p < |s| then RemoveAt(s, p) else s
  }

  /** A target of this round worth sending to: at least `MIN_OFFLOAD`, and not under a tenth of the target load per target. */
  predicate Eligible(targets: seq<BalancePlans.RankLoad>, targetLoad: real, j: int)
    requires 0 <= j < |targets|
  {
    targets[j].load >= MIN_OFFLOAD && targets[j].load * 10.0 * (|targets| as real) >= targetLoad
  }

  /** Rank `r` is an eligible target. */
  predicate Wants(targets: seq<BalancePlans.RankLoad>, targetLoad: real, r: int)
  {
    exists j :: 0 <= j < |targets| && targets[j].rank == r && Eligible(targets, targetLoad, j)
  }

  /**
   * What justifies a move of the later stages: an import given back goes
   * to the rank it came from; a re-exported one is busier than
   * `MIN_REEXPORT`; a fragment found by the search was exportable; neither
   * moves a base inode's fragment, and all go to an eligible target.
   */
  predicate Sound(nodes: seq<DirNode>, targets: seq<BalancePlans.RankLoad>, targetLoad: real, imports: seq<Import>, m: Move)
  {
    0 <= m.dir < |nodes| && Wants(targets, targetLoad, m.to) &&
    match m.why
      case Idle => false
      case Back => Import(m.dir, m.to, m.pop) in imports && !nodes[m.dir].base
      case Reexport => Entry(m.pop, m.dir) in PopEntries(imports) && !nodes[m.dir].base && m.pop > MIN_REEXPORT
      case Found => Exportable(nodes, m.dir)
  }

  /** The load of the imports given back or re-exported to rank `r` (`export_pop_map[r]` after those stages). */
  function Sent(moves: seq<Move>, r: int): real
  {
    if moves == [] then 0.0
    else
      var m := moves[|moves| - 1];
      Sent(moves[..|moves| - 1], r) + if m.to == r && (m.why.Back? || m.why.Reexport?) then m.pop else 0.0
  }

  lemma SentSnoc(moves: seq<Move>, m: Move)
    ensures forall r :: Sent(moves + [m], r) == Sent(moves, r) + if m.to == r && (m.why.Back? || m.why.Reexport?) then m.pop else 0.0
  {
    assert (moves + [m])[..|moves|] == moves;
  }

  /**
   * What a stage added to `have` (from `have0`) for one target: the loads
   * of the imports it gave back or re-exported to `target`, keeping `have`
   * at most `amount`; it sent nothing to any other rank.
   */
  ghost predicate Tallied(before: seq<Move>, moves: seq<Move>, target: int, have0: real, have: real, amount: real)
  {
    |before| <= |moves| && moves[..|before|] == before &&
    Sent(moves, target) == Sent(before, target) + (have - have0) && have <= amount &&
    forall r :: r != target ==> Sent(moves, r) == Sent(before, r)
  }

  /** The moves past `lo` are all `Sound`. */
  predicate SoundFrom(nodes: seq<DirNode>, targets: seq<BalancePlans.RankLoad>, targetLoad: real, imports: seq<Import>,
                      moves: seq<Move>, lo: nat)
  {
    forall k :: lo <= k < |moves| ==> Sound(nodes, targets, targetLoad, imports, moves[k])
  }

  /** Every recorded import's load is at least zero, as `get_load` gives it. */
  predicate NonNegPops(imports: seq<Import>)
  {
    forall k :: 0 <= k < |imports| ==> imports[k].pop >= 0.0
  }

  /** `import_pop_map` holds only recorded imports, in key order. */
  predicate PopsOf(byPop: seq<Entry<int>>, imports: seq<Import>)
  {
    Sorted(byPop) && forall e :: e in byPop ==> e in PopEntries(imports)
  }

  /**
   * The give-back loop for one target: the imports that came from
   * `target`, in the order they were recorded, skipping base inodes'
   * fragments; each that still fits in `amount - have` is exported back
   * and erased from `import_pop_map`, and the loop ends once less than
   * `MIN_OFFLOAD` is left to send. Unless it ended so, every import from
   * `target` it left behind was too big for what was left to send.
   */
  method GiveBackTo(nodes: seq<DirNode>, targets: seq<BalancePlans.RankLoad>, targetLoad: real, imports: seq<Import>,
                    target: int, amount: real, byPop0: seq<Entry<int>>, moves0: seq<Move>, lo: nat)
    returns (byPop: seq<Entry<int>>, moves: seq<Move>, have: real)
    requires forall k :: 0 <= k < |imports| ==> 0 <= imports[k].dir < |nodes|
    requires Wants(targets, targetLoad, target) && amount >= 0.0
    requires PopsOf(byPop0, imports) && SoundFrom(nodes, targets, targetLoad, imports, moves0, lo)
    ensures PopsOf(byPop, imports) && SoundFrom(nodes, targets, targetLoad, imports, moves, lo)
    ensures Tallied(moves0, moves, target, 0.0, have, amount)
    ensures forall k :: |moves0| <= k < |moves| ==> moves[k].why == Back
    ensures NonNegPops(imports) && amount - have >= MIN_OFFLOAD ==>
      PassedOver(nodes, imports, target, moves, amount - have, |imports|)
  {
    byPop, moves, have := byPop0, moves0, 0.0;
    for k := 0 to |imports|
      invariant PopsOf(byPop, imports) && SoundFrom(nodes, targets, targetLoad, imports, moves, lo)
      invariant Tallied(moves0, moves, target, 0.0, have, amount)
      invariant forall i :: |moves0| <= i < |moves| ==> moves[i].why == Back
      invariant NonNegPops(imports) ==> PassedOver(nodes, imports, target, moves, amount - have, k)
    {
      var stop;
      byPop, moves, have, stop := GiveBackOne(nodes, targets, targetLoad, imports, target, amount, byPop, moves0, moves, have, lo, k);
      if stop {
        break;
      }
    }
  }

  /**
   * One turn of the give-back loop, at import `k`: an import from `target`
   * that is not a base inode's fragment and fits in `amount - have` is
   * exported back; `stop` says the loop breaks, since less than
   * `MIN_OFFLOAD` is left after an import it did not skip.
   */
  method GiveBackOne(nodes: seq<DirNode>, targets: seq<BalancePlans.RankLoad>, targetLoad: real, imports: seq<Import>,
                     target: int, amount: real, byPop0: seq<Entry<int>>, moves0: seq<Move>, moves1: seq<Move>, have1: real,
                     lo: nat, k: nat)
    returns (byPop: seq<Entry<int>>, moves: seq<Move>, have: real, stop: bool)
    requires forall i :: 0 <= i < |imports| ==> 0 <= imports[i].dir < |nodes|
    requires Wants(targets, targetLoad, target) && k < |imports|
    requires PopsOf(byPop0, imports) && SoundFrom(nodes, targets, targetLoad, imports, moves1, lo)
    requires Tallied(moves0, moves1, target, 0.0, have1, amount)
    requires forall i :: |moves0| <= i < |moves1| ==> moves1[i].why == Back
    requires NonNegPops(imports) ==> PassedOver(nodes, imports, target, moves1, amount - have1, k)
    ensures PopsOf(byPop, imports) && SoundFrom(nodes, targets, targetLoad, imports, moves, lo)
    ensures Tallied(moves0, moves, target, 0.0, have, amount)
    ensures forall i :: |moves0| <= i < |moves| ==> moves[i].why == Back
    ensures NonNegPops(imports) ==> PassedOver(nodes, imports, target, moves, amount - have, k + 1)
    ensures stop <==> (imports[k].from == target && !nodes[imports[k].dir].base && amount - have < MIN_OFFLOAD)
  {
    byPop, moves, have := byPop0, moves1, have1;
    var x := imports[k];
    if x.from != target || nodes[x.dir].base {
      if NonNegPops(imports) {
        PassSkip(nodes, imports, target, moves, amount - have, k);
      }
      return byPop, moves, have, false;
    }
    if x.pop <= amount - have {
      var m := Move(x.dir, target, Back, x.pop);
      assert Sound(nodes, targets, targetLoad, imports, m) by {
        assert x == Import(m.dir, m.to, m.pop);
      }
      SentSnoc(moves, m);
      assert (moves + [m])[..|moves0|] == moves[..|moves0|];
      if NonNegPops(imports) {
        PassGive(nodes, imports, target, moves, amount - have, k);
      }
      moves := moves + [m];
      have := have + x.pop;
      byPop := EraseFirst(byPop, Entry(x.pop, x.dir));
    } else if NonNegPops(imports) {
      PassSkip(nodes, imports, target, moves, amount - have, k);
    }
    stop := amount - have < MIN_OFFLOAD;
  }

  /**
   * Every import before `k` that came from `target` and is not a base
   * inode's fragment was given back, or is bigger than `room`.
   */
  ghost predicate PassedOver(nodes: seq<DirNode>, imports: seq<Import>, target: int, given: seq<Move>, room: real, k: nat)
    requires forall i :: 0 <= i < |imports| ==> 0 <= imports[i].dir < |nodes|
  {
    k <= |imports| &&
    forall j :: 0 <= j < k && imports[j].from == target && !nodes[imports[j].dir].base ==>
      Move(imports[j].dir, target, Back, imports[j].pop) in given || imports[j].pop > room
  }

  /** An import the give-back loop passes over: from another rank, a base inode's, or too big. */
  lemma PassSkip(nodes: seq<DirNode>, imports: seq<Import>, target: int, given: seq<Move>, room: real, k: nat)
    requires forall i :: 0 <= i < |imports| ==> 0 <= imports[i].dir < |nodes|
    requires k < |imports| && PassedOver(nodes, imports, target, given, room, k)
    requires imports[k].from != target || nodes[imports[k].dir].base || imports[k].pop > room
    ensures PassedOver(nodes, imports, target, given, room, k + 1)
  {
  }

  /** An import given back: the room shrinks by its load, which keeps every import passed over too big. */
  lemma PassGive(nodes: seq<DirNode>, imports: seq<Import>, target: int, given: seq<Move>, room: real, k: nat)
    requires forall i :: 0 <= i < |imports| ==> 0 <= imports[i].dir < |nodes|
    requires k < |imports| && PassedOver(nodes, imports, target, given, room, k) && imports[k].pop >= 0.0
    ensures PassedOver(nodes, imports, target, given + [Move(imports[k].dir, target, Back, imports[k].pop)],
                       room - imports[k].pop, k + 1)
  {
  }

  /**
   * `export_pop_map` after the stages so far, for the targets before `n`:
   * it has an entry exactly for the eligible ones, holding the load given
   * back or re-exported to that target, at most its amount; nothing went
   * to any other target.
   */
  ghost predicate Ledger(targets: seq<BalancePlans.RankLoad>, targetLoad: real, have: map<int, real>, moves: seq<Move>, n: int)
  {
    forall j :: 0 <= j < |targets| ==>
      (targets[j].rank in have <==> j < n && Eligible(targets, targetLoad, j)) &&
      Sent(moves, targets[j].rank) == (if targets[j].rank in have then have[targets[j].rank] else 0.0) &&
      (targets[j].rank in have ==> have[targets[j].rank] <= targets[j].load)
  }

  /** `double& have = export_pop_map[target]` for the next target: a zero entry. */
  lemma LedgerOpen(targets: seq<BalancePlans.RankLoad>, targetLoad: real, have: map<int, real>, moves: seq<Move>, i: nat)
    requires BalancePlans.Ordered(targets) && i < |targets| && Eligible(targets, targetLoad, i)
    requires Ledger(targets, targetLoad, have, moves, i)
    ensures Ledger(targets, targetLoad, have[targets[i].rank := 0.0], moves, i + 1)
  {
    forall j | 0 <= j < |targets| && j != i
      ensures targets[j].rank != targets[i].rank
    {
      if j < i { assert targets[j].rank < targets[i].rank; } else { assert targets[i].rank < targets[j].rank; }
    }
  }

  /** A stage that tallied `h` for target `i`, whose entry held `have[rank]`. */
  lemma LedgerStep(targets: seq<BalancePlans.RankLoad>, targetLoad: real, have: map<int, real>, moves: seq<Move>,
                   moves': seq<Move>, n: int, i: nat, h: real)
    requires BalancePlans.Ordered(targets) && i < |targets| && targets[i].rank in have
    requires Ledger(targets, targetLoad, have, moves, n)
    requires Tallied(moves, moves', targets[i].rank, have[targets[i].rank], h, targets[i].load)
    ensures Ledger(targets, targetLoad, have[targets[i].rank := h], moves', n)
  {
    forall j | 0 <= j < |targets| && j != i
      ensures targets[j].rank != targets[i].rank
    {
      if j < i { assert targets[j].rank < targets[i].rank; } else { assert targets[i].rank < targets[j].rank; }
    }
  }

  /** An eligible target is wanted. */
  lemma WantsEligible(targets: seq<BalancePlans.RankLoad>, targetLoad: real, i: nat)
    requires i < |targets| && Eligible(targets, targetLoad, i)
    ensures Wants(targets, targetLoad, targets[i].rank)
  {
  }

  /**
   * The second stage, target by target in rank order: a target below
   * `MIN_OFFLOAD`, or below a tenth of the target load per target, is
   * skipped; otherwise its `export_pop_map` entry starts at zero and the
   * imports that came from it are given back.
   */
  method GiveBackAll(nodes: seq<DirNode>, targets: seq<BalancePlans.RankLoad>, targetLoad: real, imports: seq<Import>,
                     byPop0: seq<Entry<int>>, moves0: seq<Move>)
    returns (byPop: seq<Entry<int>>, moves: seq<Move>, have: map<int, real>)
    requires BalancePlans.Ordered(targets) && forall k :: 0 <= k < |imports| ==> 0 <= imports[k].dir < |nodes|
    requires PopsOf(byPop0, imports) && Ledger(targets, targetLoad, map[], moves0, 0)
    ensures PopsOf(byPop, imports) && SoundFrom(nodes, targets, targetLoad, imports, moves, |moves0|)
    ensures moves0 <= moves && Ledger(targets, targetLoad, have, moves, |targets|)
    ensures forall k :: |moves0| <= k < |moves| ==> moves[k].why == Back
  {
    byPop, moves, have := byPop0, moves0, map[];
    for i := 0 to |targets|
      invariant PopsOf(byPop, imports) && SoundFrom(nodes, targets, targetLoad, imports, moves, |moves0|)
      invariant moves0 <= moves && Ledger(targets, targetLoad, have, moves, i)
      invariant forall k :: |moves0| <= k < |moves| ==> moves[k].why == Back
    {
      var t := targets[i];
      if !Eligible(targets, targetLoad, i) {
        continue;
      }
      LedgerOpen(targets, targetLoad, have, moves, i);
      have := have[t.rank := 0.0];
      WantsEligible(targets, targetLoad, i);
      var moves', h;
      byPop, moves', h := GiveBackTo(nodes, targets, targetLoad, imports, t.rank, t.load, byPop, moves, |moves0|);
      LedgerStep(targets, targetLoad, have, moves, moves', i + 1, i, h);
      assert moves'[..|moves0|] == moves[..|moves|][..|moves0|];
      moves, have := moves', have[t.rank := h];
    }
  }

  /**
   * The re-export loop for one target: `import_pop_map` from the least
   * busy entry up, skipping base inodes' fragments; an import busier than
   * `MIN_REEXPORT` that still fits in `amount - have` is exported to the
   * target and erased, and the loop ends once less than `MIN_OFFLOAD` is
   * left to send. Unless it ended so, every entry left in `import_pop_map`
   * is a base inode's fragment, too big for what was left to send, or not
   * busier than `MIN_REEXPORT`.
   */
  method ReexportTo(nodes: seq<DirNode>, targets: seq<BalancePlans.RankLoad>, targetLoad: real, imports: seq<Import>,
                    target: int, amount: real, have0: real, byPop0: seq<Entry<int>>, moves0: seq<Move>, lo: nat)
    returns (byPop: seq<Entry<int>>, moves: seq<Move>, have: real)
    requires forall k :: 0 <= k < |imports| ==> 0 <= imports[k].dir < |nodes|
    requires Wants(targets, targetLoad, target) && have0 <= amount
    requires PopsOf(byPop0, imports) && SoundFrom(nodes, targets, targetLoad, imports, moves0, lo)
    ensures PopsOf(byPop, imports) && SoundFrom(nodes, targets, targetLoad, imports, moves, lo)
    ensures Tallied(moves0, moves, target, have0, have, amount)
    ensures forall k :: |moves0| <= k < |moves| ==> moves[k].why == Reexport
    ensures NonNegPops(imports) && amount - have >= MIN_OFFLOAD ==>
      forall i :: 0 <= i < |byPop| ==> 0 <= byPop[i].value < |nodes| && Left(nodes, byPop[i], amount - have)
  {
    byPop, moves, have := byPop0, moves0, have0;
    var p := 0;
    while p < |byPop|
      invariant p <= |byPop| && PopsOf(byPop, imports) && SoundFrom(nodes, targets, targetLoad, imports, moves, lo)
      invariant Tallied(moves0, moves, target, have0, have, amount)
      invariant forall i :: |moves0| <= i < |moves| ==> moves[i].why == Reexport
      invariant NonNegPops(imports) ==> forall i :: 0 <= i < p ==> 0 <= byPop[i].value < |nodes| && Left(nodes, byPop[i], amount - have)
      decreases |byPop| - p
    {
      var e := byPop[p];
      assert e in PopEntries(imports);
      if nodes[e.value].base {
        p := p + 1;
        continue;
      }
      if e.key <= amount - have && e.key > MIN_REEXPORT {
        var m := Move(e.value, target, Reexport, e.key);
        SentSnoc(moves, m);
        assert (moves + [m])[..|moves0|] == moves[..|moves0|];
        moves := moves + [m];
        have := have + e.key;
        byPop := RemoveAt(byPop, p);
      } else {
        p := p + 1;
      }
      if amount - have < MIN_OFFLOAD {
        break;
      }
    }
  }

  /** An `import_pop_map` entry the re-export loop passes over with `room` left to send. */
  predicate Left(nodes: seq<DirNode>, e: Entry<int>, room: real)
    requires 0 <= e.value < |nodes|
  {
    nodes[e.value].base || e.key > room || e.key <= MIN_REEXPORT
  }

  /**
   * The third stage, target by target: a target with an `export_pop_map`
   * entry and at least `MIN_OFFLOAD` still to receive gets busy imports
   * re-exported to it.
   */
  method ReexportAll(nodes: seq<DirNode>, targets: seq<BalancePlans.RankLoad>, targetLoad: real, imports: seq<Import>,
                     byPop0: seq<Entry<int>>, moves0: seq<Move>, have0: map<int, real>, lo: nat)
    returns (byPop: seq<Entry<int>>, moves: seq<Move>, have: map<int, real>)
    requires BalancePlans.Ordered(targets) && forall k :: 0 <= k < |imports| ==> 0 <= imports[k].dir < |nodes|
    requires PopsOf(byPop0, imports) && SoundFrom(nodes, targets, targetLoad, imports, moves0, lo)
    requires Ledger(targets, targetLoad, have0, moves0, |targets|)
    ensures PopsOf(byPop, imports) && SoundFrom(nodes, targets, targetLoad, imports, moves, lo)
    ensures moves0 <= moves && Ledger(targets, targetLoad, have, moves, |targets|)
    ensures forall k :: |moves0| <= k < |moves| ==> moves[k].why == Reexport
  {
    byPop, moves, have := byPop0, moves0, have0;
    for i := 0 to |targets|
      invariant PopsOf(byPop, imports) && SoundFrom(nodes, targets, targetLoad, imports, moves, lo)
      invariant moves0 <= moves && Ledger(targets, targetLoad, have, moves, |targets|)
      invariant forall k :: |moves0| <= k < |moves| ==> moves[k].why == Reexport
    {
      var t := targets[i];
      if t.rank !in have || t.load - have[t.rank] < MIN_OFFLOAD {
        continue;
      }
      WantsEligible(targets, targetLoad, i);
      var moves', h;
      byPop, moves', h := ReexportTo(nodes, targets, targetLoad, imports, t.rank, t.load, have[t.rank], byPop, moves, lo);
      LedgerStep(targets, targetLoad, have, moves, moves', |targets|, i, h);
      assert moves'[..|moves0|] == moves[..|moves|][..|moves0|];
      moves, have := moves', have[t.rank := h];
    }
  }

  /**
   * The search for one target: `find_exports` (with its default target,
   * rank 0) on each recorded import, from the busiest down, adding to the
   * target's `have` and `exports`, until less than `MIN_OFFLOAD` is left
   * to send.
   */
  method SearchTo(nodes: seq<DirNode>, cfg: Config, whoami: int, clusterSize: int, dirs: seq<int>,
                  amount: real, s: Search) returns (r: Search)
    requires WellFormed(nodes) && InRange(nodes, dirs) && Clocked(s) && !s.aborted
    ensures Clocked(r) && Extends(nodes, s, r, amount)
  {
    r := s;
    ExtendsIdle(nodes, s, r, amount);
    for k := 0 to |dirs|
      invariant Clocked(r) && !r.aborted && Extends(nodes, s, r, amount)
    {
      var next := FindExports(nodes, cfg, whoami, clusterSize, dirs[k], amount, 0, r);
      ExtendsTrans(nodes, s, r, next, amount);
      r := next;
      if r.aborted || amount - r.have < MIN_OFFLOAD {
        return;
      }
    }
  }

  /** `export_dir_nicely(dir, target)` for each fragment the search found. */
  function FoundMoves(nodes: seq<DirNode>, found: seq<int>, target: int): (r: seq<Move>)
    requires InRange(nodes, found)
    ensures |r| == |found| && forall k :: 0 <= k < |r| ==> r[k] == Move(found[k], target, Found, nodes[found[k]].load)
  {
    seq(|found|, k requires 0 <= k < |found| => Move(found[k], target, Found, nodes[found[k]].load))
  }

  /** Appending found fragments sends no import anywhere. */
  lemma {:induction false} SentFound(nodes: seq<DirNode>, moves: seq<Move>, found: seq<int>, target: int)
    requires InRange(nodes, found)
    ensures forall r :: Sent(moves + FoundMoves(nodes, found, target), r) == Sent(moves, r)
  {
    if found != [] {
      var init := found[..|found| - 1];
      SentFound(nodes, moves, init, target);
      assert moves + FoundMoves(nodes, found, target) ==
        (moves + FoundMoves(nodes, init, target)) + [Move(found[|found| - 1], target, Found, nodes[found[|found| - 1]].load)];
      SentSnoc(moves + FoundMoves(nodes, init, target), Move(found[|found| - 1], target, Found, nodes[found[|found| - 1]].load));
    } else {
      assert moves + FoundMoves(nodes, found, target) == moves;
    }
  }

  /** No fragment found by the search goes to two different targets. */
  predicate FoundApart(moves: seq<Move>)
  {
    forall a, b :: 0 <= a < b < |moves| && moves[a].why == Found && moves[b].why == Found && moves[a].to != moves[b].to ==>
      moves[a].dir != moves[b].dir
  }

  /**
   * The found moves so far: each fragment is being exported already, and
   * each went to a target of lower rank than `bound`, if there is one.
   */
  ghost predicate FoundBelow(moves: seq<Move>, exporting: set<int>, bound: Option<int>)
  {
    forall k :: 0 <= k < |moves| && moves[k].why == Found ==>
      moves[k].dir in exporting && (bound.Some? ==> moves[k].to < bound.value)
  }

  /** The rank of the target after `i`, if any. */
  function NextRank(targets: seq<BalancePlans.RankLoad>, i: nat): Option<int>
  {
    if i + 1 < |targets| then Some(targets[i + 1].rank) else None
  }

  /** One target's search filed its finds next to the earlier targets' ones. */
  lemma FoundStep(nodes: seq<DirNode>, targets: seq<BalancePlans.RankLoad>, targetLoad: real, imports: seq<Import>,
                  moves: seq<Move>, lo: nat, i: nat, s: Search, r: Search, amount: real)
    requires BalancePlans.Ordered(targets) && i < |targets| && Wants(targets, targetLoad, targets[i].rank)
    requires s.exports == [] && Extends(nodes, s, r, amount)
    requires FoundApart(moves) && FoundBelow(moves, s.exporting, Some(targets[i].rank))
    requires SoundFrom(nodes, targets, targetLoad, imports, moves, lo) && lo <= |moves|
    ensures InRange(nodes, r.exports)
    ensures var moves' := moves + FoundMoves(nodes, r.exports, targets[i].rank);
      FoundApart(moves') && FoundBelow(moves', r.exporting, NextRank(targets, i)) &&
      SoundFrom(nodes, targets, targetLoad, imports, moves', lo)
  {
    assert r.exports[|s.exports|..] == r.exports;
    var t := targets[i].rank;
    var moves' := moves + FoundMoves(nodes, r.exports, t);
    forall a, b | 0 <= a < b < |moves'| && moves'[a].why == Found && moves'[b].why == Found && moves'[a].to != moves'[b].to
      ensures moves'[a].dir != moves'[b].dir
    {
      if |moves| <= b {
        assert Candidate(nodes, s.exporting, r.exports[b - |moves|]);
      }
    }
    forall k | 0 <= k < |moves'| && moves'[k].why == Found
      ensures moves'[k].dir in r.exporting && (NextRank(targets, i).Some? ==> moves'[k].to < NextRank(targets, i).value)
    {
      if i + 1 < |targets| {
        assert targets[i].rank < targets[i + 1].rank;
      }
    }
    forall k | lo <= k < |moves'|
      ensures Sound(nodes, targets, targetLoad, imports, moves'[k])
    {
      if |moves| <= k {
        assert Candidate(nodes, s.exporting, r.exports[k - |moves|]);
      }
    }
  }

  /**
   * The last stage: for each target with an `export_pop_map` entry and at
   * least `MIN_OFFLOAD` still to receive, the imports are searched from
   * the busiest down and everything found is exported to the target. The
   * fragments being exported and the clock are shared by all targets.
   */
  method SearchAll(nodes: seq<DirNode>, cfg: Config, whoami: int, clusterSize: int,
                   targets: seq<BalancePlans.RankLoad>, targetLoad: real, imports: seq<Import>,
                   byPop: seq<Entry<int>>, have: map<int, real>, moves0: seq<Move>, lo: nat, budget: nat)
    returns (moves: seq<Move>, aborted: bool)
    requires WellFormed(nodes) && BalancePlans.Ordered(targets) && forall k :: 0 <= k < |imports| ==> 0 <= imports[k].dir < |nodes|
    requires PopsOf(byPop, imports) && SoundFrom(nodes, targets, targetLoad, imports, moves0, lo) && lo <= |moves0|
    requires Ledger(targets, targetLoad, have, moves0, |targets|)
    requires forall k :: 0 <= k < |moves0| ==> moves0[k].why != Found
    ensures SoundFrom(nodes, targets, targetLoad, imports, moves, lo) && moves0 <= moves && FoundApart(moves)
    ensures forall r :: Sent(moves, r) == Sent(moves0, r)
  {
    var dirs := Reversed(Values(byPop));
    forall k | 0 <= k < |dirs|
      ensures 0 <= dirs[k] < |nodes|
    {
      assert byPop[|byPop| - 1 - k] in PopEntries(imports);
    }
    var s := Search([], {}, 0.0, budget, false, false);
    moves := moves0;
    for i := 0 to |targets|
      invariant Clocked(s) && !s.aborted
      invariant SoundFrom(nodes, targets, targetLoad, imports, moves, lo) && moves0 <= moves && lo <= |moves|
      invariant FoundApart(moves) && FoundBelow(moves, s.exporting, if i < |targets| then Some(targets[i].rank) else None)
      invariant forall r :: Sent(moves, r) == Sent(moves0, r)
    {
      var t := targets[i];
      if t.rank !in have || t.load - have[t.rank] < MIN_OFFLOAD {
        continue;
      }
      WantsEligible(targets, targetLoad, i);
      var start := s.(exports := [], have := have[t.rank]);
      var r := SearchTo(nodes, cfg, whoami, clusterSize, dirs, t.load, start);
      FoundStep(nodes, targets, targetLoad, imports, moves, lo, i, start, r, t.load);
      SentFound(nodes, moves, r.exports, t.rank);
      assert (moves + FoundMoves(nodes, r.exports, t.rank))[..|moves0|] == moves[..|moves0|];
      if r.aborted {
        return moves, true;
      }
      moves := moves + FoundMoves(nodes, r.exports, t.rank);
      s := r;
    }
    aborted := false;
  }

  /** `import_pop_map` as built holds exactly the recorded imports. */
  lemma PopsOfBuild(imports: seq<Import>)
    ensures PopsOf(Build(PopEntries(imports)), imports)
  {
    forall e | e in Build(PopEntries(imports))
      ensures e in PopEntries(imports)
    {
      MemberOfBuild(PopEntries(imports), e);
    }
  }

  /** Idle moves send no import anywhere. */
  lemma {:induction false} SentIdle(moves: seq<Move>)
    requires forall k :: 0 <= k < |moves| ==> moves[k].why == Idle
    ensures forall r :: Sent(moves, r) == 0.0
  {
    if moves != [] {
      SentIdle(moves[..|moves| - 1]);
    }
  }

  lemma IdleMovesIdle(nodes: seq<DirNode>, cfg: Config, whoami: int, subtrees: seq<Subtree>)
    requires Subtrees(nodes, subtrees)
    ensures forall k :: 0 <= k < |IdleMoves(nodes, cfg, whoami, subtrees)| ==> IdleMoves(nodes, cfg, whoami, subtrees)[k].why == Idle
  {
    var idle := IdleMoves(nodes, cfg, whoami, subtrees);
    forall k | 0 <= k < |idle|
      ensures idle[k].why == Idle
    {
      IdleMovesExactly(nodes, cfg, whoami, subtrees, idle[k]);
    }
  }

  /**
   * `try_rebalance`. With `mds_thrash_exports` set nothing is exported.
   * Otherwise the idle imports go back first (`IdleMoves`, in subtree
   * order); every later move is `Sound`; the imports given back or
   * re-exported to an eligible target add up to at most what it should
   * get, and an ineligible one gets none; and no fragment the search found
   * goes to two targets. `budget` is how many `find_exports` calls start
   * before the deadline; `aborted` says one failed its authority assert.
   */
  method TryRebalance(nodes: seq<DirNode>, cfg: Config, whoami: int, clusterSize: int, subtrees: seq<Subtree>,
                      targets: seq<BalancePlans.RankLoad>, targetLoad: real, budget: nat)
    returns (moves: seq<Move>, aborted: bool)
    requires WellFormed(nodes) && Subtrees(nodes, subtrees) && BalancePlans.Ordered(targets)
    ensures cfg.thrashExports ==> moves == [] && !aborted
    ensures !cfg.thrashExports ==> IdleMoves(nodes, cfg, whoami, subtrees) <= moves
    ensures forall k :: |IdleMoves(nodes, cfg, whoami, subtrees)| <= k < |moves| ==>
      Sound(nodes, targets, targetLoad, Imports(nodes, cfg, whoami, subtrees), moves[k])
    ensures forall j :: 0 <= j < |targets| ==>
      if Eligible(targets, targetLoad, j) then Sent(moves, targets[j].rank) <= targets[j].load
      else Sent(moves, targets[j].rank) == 0.0
    ensures FoundApart(moves)
  {
    if cfg.thrashExports {
      return [], false;
    }
    var idle, imports, byPop := CollectImports(nodes, cfg, whoami, subtrees);
    PopsOfBuild(imports);
    IdleMovesIdle(nodes, cfg, whoami, subtrees);
    SentIdle(idle);
    var moves1, have1, moves2, have2;
    byPop, moves1, have1 := GiveBackAll(nodes, targets, targetLoad, imports, byPop, idle);
    byPop, moves2, have2 := ReexportAll(nodes, targets, targetLoad, imports, byPop, moves1, have1, |idle|);
    assert forall k :: 0 <= k < |moves2| ==> moves2[k].why != Found by {
      forall k | 0 <= k < |moves2|
        ensures moves2[k].why != Found
      {
        if k < |moves1| { assert moves2[k] == moves1[k]; }
        if k < |idle| { assert moves1[k] == idle[k]; }
      }
    }
    moves, aborted := SearchAll(nodes, cfg, whoami, clusterSize, targets, targetLoad, imports, byPop, have2, moves2, |idle|, budget);
  }
}
