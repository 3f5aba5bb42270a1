/**
 * The directory-fragment tree the balancer walks and the popularity
 * counters it keeps on every fragment (src/mds/MDBalancer.cc `hit_dir`,
 * `subtract_export`, `add_import`, `adjust_pop_for_rename`).
 *
 * The cache's `CDir` objects are an arena: fragment `i` names its parent
 * fragment by index, and a parent always comes before its children, which
 * is what makes every walk to the root finish. Counters do not decay.
 */
module DirTrees {
  import opened LoadArrays

  /** `dirfrag_t`: the directory inode and the fragment of it. */
  datatype DirfragId = DirfragId(ino: int, frag: int)

  /** No parent fragment: the root of the hierarchy. */
  const NO_PARENT: int := -1

  /**
   * What the balancer reads of one `CDir` and its inode. `load` is what
   * `get_load` reports for it; `subdirs` are the fragments under the
   * entries of its `pop_lru_subdirs` list, in list order; `inodeFrags` are
   * all fragments of its own inode; `rootWorkload` is the path classifier's
   * verdict `WLT_ROOT`; `fragDest` is the rank the fragment hashes to.
   */
  datatype DirNode = DirNode(
    id: DirfragId,
    parent: int,
    auth: bool,
    subtreeRoot: bool,
    frozen: bool,
    freezing: bool,
    replicated: bool,
    stray: bool,
    base: bool,
    load: real,
    subdirs: seq<int>,
    inodeFrags: seq<int>,
    rootWorkload: bool,
    fragDest: int,
    fragmented: bool,
    shouldSplit: bool,
    shouldSplitFast: bool,
    shouldMerge: bool)

  /**
   * A well-formed arena: every parent comes before its child, the subdirs
   * listed under a fragment are its children, and every index is in range.
   */
  predicate WellFormed(nodes: seq<DirNode>)
  {
    forall i :: 0 <= i < |nodes| ==>
      NO_PARENT <= nodes[i].parent < i &&
      (forall k :: 0 <= k < |nodes[i].subdirs| ==>
         0 <= nodes[i].subdirs[k] < |nodes| && nodes[nodes[i].subdirs[k]].parent == i) &&
      (forall k :: 0 <= k < |nodes[i].inodeFrags| ==> 0 <= nodes[i].inodeFrags[k] < |nodes|)
  }

  /** The fragments from `d` up to the root, `d` first. */
  function Path(nodes: seq<DirNode>, d: int): (p: seq<int>)
    requires WellFormed(nodes) && 0 <= d < |nodes|
    ensures p != [] && p[0] == d
    ensures forall k :: 0 <= k < |p| ==> 0 <= p[k] <= d
    decreases d
  {
    if nodes[d].parent == NO_PARENT then [d] else [d] + Path(nodes, nodes[d].parent)
  }

  /** The fragments on the path from `d` to the root. */
  function PathSet(nodes: seq<DirNode>, d: int): (s: set<int>)
    requires WellFormed(nodes) && 0 <= d < |nodes|
    ensures d in s && forall k :: k in s ==> 0 <= k <= d
    decreases d
  {
    if nodes[d].parent == NO_PARENT then {d} else {d} + PathSet(nodes, nodes[d].parent)
  }

  /** The strict ancestors of `d`: its parent and everything above it. */
  function Ancestors(nodes: seq<DirNode>, d: int): (s: set<int>)
    requires WellFormed(nodes) && 0 <= d < |nodes|
    ensures d !in s && forall k :: k in s ==> 0 <= k < d
  {
    if nodes[d].parent == NO_PARENT then {} else PathSet(nodes, nodes[d].parent)
  }

  /** The fragments of the auth domain of `d`, see `DomainPath`. */
  function DomainSet(nodes: seq<DirNode>, d: int): (s: set<int>)
    requires WellFormed(nodes) && 0 <= d < |nodes|
    ensures d in s && forall k :: k in s ==> 0 <= k <= d
    decreases d
  {
    if nodes[d].subtreeRoot || nodes[d].parent == NO_PARENT then {d}
    else {d} + DomainSet(nodes, nodes[d].parent)
  }

  /** The set of the path is the path's elements. */
  lemma {:induction false} PathSetIsPath(nodes: seq<DirNode>, d: int)
    requires WellFormed(nodes) && 0 <= d < |nodes|
    ensures forall k :: k in PathSet(nodes, d) <==> k in Path(nodes, d)
    ensures forall k :: k in DomainSet(nodes, d) <==> k in DomainPath(nodes, d)
    decreases d
  {
    if nodes[d].parent != NO_PARENT {
      PathSetIsPath(nodes, nodes[d].parent);
    }
  }

  /**
   * The fragments from `d` up to and including the first subtree root (or
   * the root of the hierarchy): the auth domain whose counters a hit in
   * `d` reaches.
   */
  function DomainPath(nodes: seq<DirNode>, d: int): (p: seq<int>)
    requires WellFormed(nodes) && 0 <= d < |nodes|
    ensures p != [] && p[0] == d
    ensures forall k :: 0 <= k < |p| ==> 0 <= p[k] <= d
    decreases d
  {
    if nodes[d].subtreeRoot || nodes[d].parent == NO_PARENT then [d]
    else [d] + DomainPath(nodes, nodes[d].parent)
  }

  /** The auth domain is the start of the path to the root. */
  lemma {:induction false} DomainPathIsPrefix(nodes: seq<DirNode>, d: int)
    requires WellFormed(nodes) && 0 <= d < |nodes|
    ensures |DomainPath(nodes, d)| <= |Path(nodes, d)|
    ensures DomainPath(nodes, d) == Path(nodes, d)[..|DomainPath(nodes, d)|]
    decreases d
  {
    if !(nodes[d].subtreeRoot || nodes[d].parent == NO_PARENT) {
      DomainPathIsPrefix(nodes, nodes[d].parent);
    }
  }

  /** The auth domain ends at the first subtree root: no fragment before its last one is a subtree root. */
  lemma {:induction false} DomainPathStopsAtSubtreeRoot(nodes: seq<DirNode>, d: int)
    requires WellFormed(nodes) && 0 <= d < |nodes|
    ensures var p := DomainPath(nodes, d);
      forall k :: 0 <= k < |p| - 1 ==> !nodes[p[k]].subtreeRoot && nodes[p[k]].parent == p[k + 1]
    ensures var p := DomainPath(nodes, d);
      nodes[p[|p| - 1]].subtreeRoot || nodes[p[|p| - 1]].parent == NO_PARENT
    decreases d
  {
    if !(nodes[d].subtreeRoot || nodes[d].parent == NO_PARENT) {
      DomainPathStopsAtSubtreeRoot(nodes, nodes[d].parent);
    }
  }

  /** Every fragment's counters are five-slot load vectors. */
  ghost predicate AllValid(vs: seq<LoadVec>)
  {
    forall j :: 0 <= j < |vs| ==> vs[j].Valid()
  }

  /** `vs` with `get(t).hit(amount)` applied to the counters of the fragments in `s`. */
  function HitOn(vs: seq<LoadVec>, s: set<int>, t: nat, amount: real): (r: seq<LoadVec>)
    requires AllValid(vs) && t < NUM_META_POP
    ensures |r| == |vs| && AllValid(r)
  {
    seq(|vs|, j requires 0 <= j < |vs| => if j in s then vs[j].Hit(t, amount) else vs[j])
  }

  /** `vs` with `add(x)` applied to the counters of the fragments in `s`. */
  function AddOn(vs: seq<LoadVec>, s: set<int>, x: LoadVec): (r: seq<LoadVec>)
    requires AllValid(vs) && x.Valid()
    ensures |r| == |vs| && AllValid(r)
  {
    seq(|vs|, j requires 0 <= j < |vs| => if j in s then vs[j].Plus(x) else vs[j])
  }

  /** `vs` with `sub(x)` applied to the counters of the fragments in `s`. */
  function SubOn(vs: seq<LoadVec>, s: set<int>, x: LoadVec): (r: seq<LoadVec>)
    requires AllValid(vs) && x.Valid()
    ensures |r| == |vs| && AllValid(r)
  {
    seq(|vs|, j requires 0 <= j < |vs| => if j in s then vs[j].Minus(x) else vs[j])
  }

  /** Hitting one more fragment, not hit before, changes just its counters. */
  lemma HitOnSnoc(vs: seq<LoadVec>, s: set<int>, c: int, t: nat, amount: real)
    requires AllValid(vs) && t < NUM_META_POP && 0 <= c < |vs| && c !in s
    ensures HitOn(vs, s + {c}, t, amount) == HitOn(vs, s, t, amount)[c := vs[c].Hit(t, amount)]
  {
  }

  /** Adding to one more fragment, not added to before, changes just its counters. */
  lemma AddOnSnoc(vs: seq<LoadVec>, s: set<int>, c: int, x: LoadVec)
    requires AllValid(vs) && x.Valid() && 0 <= c < |vs| && c !in s
    ensures AddOn(vs, s + {c}, x) == AddOn(vs, s, x)[c := vs[c].Plus(x)]
  {
  }

  /** Subtracting from one more fragment, not subtracted from before, changes just its counters. */
  lemma SubOnSnoc(vs: seq<LoadVec>, s: set<int>, c: int, x: LoadVec)
    requires AllValid(vs) && x.Valid() && 0 <= c < |vs| && c !in s
    ensures SubOn(vs, s + {c}, x) == SubOn(vs, s, x)[c := vs[c].Minus(x)]
  {
  }

  /** `add(x)` when `inc`, `sub(x)` otherwise. */
  function Moved(v: LoadVec, x: LoadVec, inc: bool): (r: LoadVec)
    requires v.Valid() && x.Valid()
    ensures r.Valid()
  {
    if inc then v.Plus(x) else v.Minus(x)
  }

  /** `AddOn` when `inc`, `SubOn` otherwise. */
  function MoveOn(vs: seq<LoadVec>, s: set<int>, x: LoadVec, inc: bool): (r: seq<LoadVec>)
    requires AllValid(vs) && x.Valid()
    ensures |r| == |vs| && AllValid(r)
  {
    if inc then AddOn(vs, s, x) else SubOn(vs, s, x)
  }

  lemma MoveOnSnoc(vs: seq<LoadVec>, s: set<int>, c: int, x: LoadVec, inc: bool)
    requires AllValid(vs) && x.Valid() && 0 <= c < |vs| && c !in s
    ensures MoveOn(vs, s + {c}, x, inc) == MoveOn(vs, s, x, inc)[c := Moved(vs[c], x, inc)]
  {
  }

  /** Adding back what was subtracted restores every counter. */
  lemma AddOnUndoesSubOn(vs: seq<LoadVec>, s: set<int>, x: LoadVec)
    requires AllValid(vs) && x.Valid()
    ensures AddOn(SubOn(vs, s, x), s, x) == vs
  {
    var r := AddOn(SubOn(vs, s, x), s, x);
    forall j | 0 <= j < |vs|
      ensures r[j] == vs[j]
    {
      if j in s {
        assert r[j].counters == vs[j].counters;
      }
    }
  }

  /** Subtracting what was added restores every counter. */
  lemma SubOnUndoesAddOn(vs: seq<LoadVec>, s: set<int>, x: LoadVec)
    requires AllValid(vs) && x.Valid()
    ensures SubOn(AddOn(vs, s, x), s, x) == vs
  {
    var r := SubOn(AddOn(vs, s, x), s, x);
    forall j | 0 <= j < |vs|
      ensures r[j] == vs[j]
    {
      if j in s {
        assert r[j].counters == vs[j].counters;
      }
    }
  }

  /**
   * `adjust_pop_for_rename(pdir, d, false)` after `adjust_pop_for_rename(pdir,
   * d, true)` (and the other way round) restores every counter.
   */
  lemma MoveOnUndone(vs: seq<LoadVec>, s: set<int>, x: LoadVec, inc: bool)
    requires AllValid(vs) && x.Valid()
    ensures MoveOn(MoveOn(vs, s, x, inc), s, x, !inc) == vs
  {
    if inc {
      SubOnUndoesAddOn(vs, s, x);
    } else {
      AddOnUndoesSubOn(vs, s, x);
    }
  }

  /** The walk of `adjust_pop_for_rename` leaves `d`'s own counters, which it moves, as they were. */
  lemma MoveOnKeepsSource(vs: seq<LoadVec>, s: set<int>, x: LoadVec, inc: bool, d: int)
    requires AllValid(vs) && x.Valid() && 0 <= d < |vs| && d !in s
    ensures MoveOn(vs, s, x, inc)[d] == vs[d]
  {
  }

  /**
   * The popularity counters of every fragment of the cache: `pop_me` (hits
   * on the fragment itself), `pop_nested` (hits anywhere below it),
   * `pop_auth_subtree` (hits below it within its auth domain) and
   * `pop_auth_subtree_nested` (hits below it on any auth fragment).
   */
  class DirTree {
    const nodes: seq<DirNode>
    var popMe: seq<LoadVec>
    var popNested: seq<LoadVec>
    var popAuthSubtree: seq<LoadVec>
    var popAuthSubtreeNested: seq<LoadVec>

    ghost predicate Valid()
      reads this
    {
      WellFormed(nodes) &&
      |popMe| == |popNested| == |popAuthSubtree| == |popAuthSubtreeNested| == |nodes| &&
      AllValid(popMe) && AllValid(popNested) && AllValid(popAuthSubtree) && AllValid(popAuthSubtreeNested)
    }

    /** A cache whose fragments have not been hit yet. */
    constructor (nodes: seq<DirNode>)
      requires WellFormed(nodes)
      ensures Valid() && this.nodes == nodes
      ensures forall j :: 0 <= j < |nodes| ==>
        popMe[j] == LoadVec.Zero() && popNested[j] == LoadVec.Zero() &&
        popAuthSubtree[j] == LoadVec.Zero() && popAuthSubtreeNested[j] == LoadVec.Zero()
    {
      this.nodes := nodes;
      var zeros := seq(|nodes|, _ => LoadVec.Zero());
      popMe, popNested, popAuthSubtree, popAuthSubtreeNested := zeros, zeros, zeros, zeros;
    }

    /**
     * One step of the `hit_dir` walk: fragment `cur` takes the hit in
     * `pop_nested`, and in the auth counters the walk still updates.
     * `walked`, `domain` and `nestedWalked` are the fragments already hit in
     * each counter, and `nested0`, `auth0`, `authNested0` the counters
     * before the walk began.
     */
    method HitStep(cur: int, t: nat, amount: real, hitSubtree: bool, hitSubtreeNested: bool,
                   ghost walked: set<int>, ghost domain: set<int>, ghost nestedWalked: set<int>,
                   ghost nested0: seq<LoadVec>, ghost auth0: seq<LoadVec>, ghost authNested0: seq<LoadVec>)
      requires Valid() && 0 <= cur < |nodes| && t < NUM_META_POP
      requires cur !in walked && (hitSubtree ==> cur !in domain) && (hitSubtreeNested ==> cur !in nestedWalked)
      requires AllValid(nested0) && AllValid(auth0) && AllValid(authNested0)
      requires |nested0| == |auth0| == |authNested0| == |nodes|
      requires popNested == HitOn(nested0, walked, t, amount)
      requires popAuthSubtree == HitOn(auth0, domain, t, amount)
      requires popAuthSubtreeNested == HitOn(authNested0, nestedWalked, t, amount)
      modifies this
      ensures Valid() && popMe == old(popMe)
      ensures popNested == HitOn(nested0, walked + {cur}, t, amount)
      ensures popAuthSubtree == HitOn(auth0, if hitSubtree then domain + {cur} else domain, t, amount)
      ensures popAuthSubtreeNested ==
        HitOn(authNested0, if hitSubtreeNested then nestedWalked + {cur} else nestedWalked, t, amount)
    {
      HitOnSnoc(nested0, walked, cur, t, amount);
      popNested := popNested[cur := popNested[cur].Hit(t, amount)];
      if hitSubtree {
        HitOnSnoc(auth0, domain, cur, t, amount);
        popAuthSubtree := popAuthSubtree[cur := popAuthSubtree[cur].Hit(t, amount)];
      }
      if hitSubtreeNested {
        HitOnSnoc(authNested0, nestedWalked, cur, t, amount);
        popAuthSubtreeNested := popAuthSubtreeNested[cur := popAuthSubtreeNested[cur].Hit(t, amount)];
      }
    }

    /**
     * What a hit on fragment `d` does to the counters: its own counter
     * takes the hit; then, walking up to the root, every fragment's
     * `pop_nested` takes it; if `d` is auth, `pop_auth_subtree` takes it up
     * to and including the first subtree root and `pop_auth_subtree_nested`
     * all the way up.
     */
    twostate predicate HitTaken(d: int, t: nat, amount: real)
      requires 0 <= d < |nodes| && t < NUM_META_POP
      requires old(Valid())
      reads this
    {
      popMe == old(popMe)[d := old(popMe)[d].Hit(t, amount)] &&
      popNested == HitOn(old(popNested), PathSet(nodes, d), t, amount) &&
      popAuthSubtree ==
        (if nodes[d].auth then HitOn(old(popAuthSubtree), DomainSet(nodes, d), t, amount)
         else old(popAuthSubtree)) &&
      popAuthSubtreeNested ==
        (if nodes[d].auth then HitOn(old(popAuthSubtreeNested), PathSet(nodes, d), t, amount)
         else old(popAuthSubtreeNested))
    }

    /** The counter part of `hit_dir`; `v` is the fragment's own counter after the hit. */
    method HitDir(d: int, t: nat, amount: real) returns (v: real)
      requires Valid() && 0 <= d < |nodes| && t < NUM_META_POP
      modifies this
      ensures Valid() && HitTaken(d, t, amount) && v == popMe[d].counters[t]
    {
      popMe := popMe[d := popMe[d].Hit(t, amount)];
      v := popMe[d].counters[t];
      var hitSubtree := nodes[d].auth;
      var hitSubtreeNested := nodes[d].auth;
      var cur := d;
      ghost var walked: set<int> := {};
      ghost var domain: set<int> := {};
      ghost var nestedWalked: set<int> := {};
      ghost var nested0, auth0, authNested0 := popNested, popAuthSubtree, popAuthSubtreeNested;
      assert HitOn(nested0, {}, t, amount) == nested0;
      assert HitOn(auth0, {}, t, amount) == auth0;
      assert HitOn(authNested0, {}, t, amount) == authNested0;
      while true
        invariant Valid() && 0 <= cur < |nodes|
        invariant walked + PathSet(nodes, cur) == PathSet(nodes, d) && walked !! PathSet(nodes, cur)
        invariant popMe == old(popMe)[d := old(popMe)[d].Hit(t, amount)] && v == popMe[d].counters[t]
        invariant popNested == HitOn(nested0, walked, t, amount)
        invariant popAuthSubtree == HitOn(auth0, domain, t, amount)
        invariant popAuthSubtreeNested == HitOn(authNested0, nestedWalked, t, amount)
        invariant hitSubtreeNested == nodes[d].auth
        invariant nestedWalked == if nodes[d].auth then walked else {}
        invariant !nodes[d].auth ==> domain == {} && !hitSubtree
        invariant hitSubtree ==> domain + DomainSet(nodes, cur) == DomainSet(nodes, d) && domain == walked
        invariant !hitSubtree && nodes[d].auth ==> domain == DomainSet(nodes, d)
        decreases cur
      {
        HitStep(cur, t, amount, hitSubtree, hitSubtreeNested, walked, domain, nestedWalked, nested0, auth0, authNested0);
        if hitSubtree {
          domain := domain + {cur};
          if nodes[cur].subtreeRoot {
            hitSubtree := false;
          }
        }
        if hitSubtreeNested {
          nestedWalked := nestedWalked + {cur};
        }
        walked := walked + {cur};
        var pdir := nodes[cur].parent;
        if pdir == NO_PARENT {
          hitSubtree := false;
          break;
        }
        cur := pdir;
      }
    }

    /**
     * `subtract_export`: the exported fragment's auth-subtree load leaves
     * `pop_nested` and `pop_auth_subtree_nested` of every strict ancestor;
     * the fragment itself and every other counter are untouched.
     */
    method SubtractExport(d: int)
      requires Valid() && 0 <= d < |nodes|
      modifies this
      ensures Valid()
      ensures popNested == SubOn(old(popNested), Ancestors(nodes, d), old(popAuthSubtree)[d])
      ensures popAuthSubtreeNested == SubOn(old(popAuthSubtreeNested), Ancestors(nodes, d), old(popAuthSubtree)[d])
      ensures popMe == old(popMe) && popAuthSubtree == old(popAuthSubtree)
    {
      var subload := popAuthSubtree[d];
      var cur := nodes[d].parent;
      ghost var walked: set<int> := {};
      while cur != NO_PARENT
        invariant Valid() && NO_PARENT <= cur < |nodes|
        invariant walked + (if cur == NO_PARENT then {} else PathSet(nodes, cur)) == Ancestors(nodes, d)
        invariant cur != NO_PARENT ==> walked !! PathSet(nodes, cur)
        invariant popNested == SubOn(old(popNested), walked, subload)
        invariant popAuthSubtreeNested == SubOn(old(popAuthSubtreeNested), walked, subload)
        invariant popMe == old(popMe) && popAuthSubtree == old(popAuthSubtree)
        decreases cur
      {
        popNested := popNested[cur := popNested[cur].Minus(subload)];
        popAuthSubtreeNested := popAuthSubtreeNested[cur := popAuthSubtreeNested[cur].Minus(subload)];
        assert popNested == SubOn(old(popNested), walked + {cur}, subload) by {
          SubOnSnoc(old(popNested), walked, cur, subload);
        }
        assert popAuthSubtreeNested == SubOn(old(popAuthSubtreeNested), walked + {cur}, subload) by {
          SubOnSnoc(old(popAuthSubtreeNested), walked, cur, subload);
        }
        walked := walked + {cur};
        cur := nodes[cur].parent;
      }
    }

    /**
     * `add_import`: the imported fragment's auth-subtree load joins
     * `pop_nested` and `pop_auth_subtree_nested` of every strict ancestor;
     * the fragment itself and every other counter are untouched.
     */
    method AddImport(d: int)
      requires Valid() && 0 <= d < |nodes|
      modifies this
      ensures Valid()
      ensures popNested == AddOn(old(popNested), Ancestors(nodes, d), old(popAuthSubtree)[d])
      ensures popAuthSubtreeNested == AddOn(old(popAuthSubtreeNested), Ancestors(nodes, d), old(popAuthSubtree)[d])
      ensures popMe == old(popMe) && popAuthSubtree == old(popAuthSubtree)
    {
      var subload := popAuthSubtree[d];
      var cur := nodes[d].parent;
      ghost var walked: set<int> := {};
      while cur != NO_PARENT
        invariant Valid() && NO_PARENT <= cur < |nodes|
        invariant walked + (if cur == NO_PARENT then {} else PathSet(nodes, cur)) == Ancestors(nodes, d)
        invariant cur != NO_PARENT ==> walked !! PathSet(nodes, cur)
        invariant popNested == AddOn(old(popNested), walked, subload)
        invariant popAuthSubtreeNested == AddOn(old(popAuthSubtreeNested), walked, subload)
        invariant popMe == old(popMe) && popAuthSubtree == old(popAuthSubtree)
        decreases cur
      {
        popNested := popNested[cur := popNested[cur].Plus(subload)];
        popAuthSubtreeNested := popAuthSubtreeNested[cur := popAuthSubtreeNested[cur].Plus(subload)];
        assert popNested == AddOn(old(popNested), walked + {cur}, subload) by {
          AddOnSnoc(old(popNested), walked, cur, subload);
        }
        assert popAuthSubtreeNested == AddOn(old(popAuthSubtreeNested), walked + {cur}, subload) by {
          AddOnSnoc(old(popAuthSubtreeNested), walked, cur, subload);
        }
        walked := walked + {cur};
        cur := nodes[cur].parent;
      }
    }

    /**
     * One step of `adjust_pop_for_rename`: fragment `p` takes (or gives
     * back) `d`'s loads. `walked` and `domain` are the fragments already
     * adjusted, and `nested0`, `auth0`, `authNested0` the counters before
     * the walk began.
     */
    method RenameStep(p: int, d: int, inc: bool, adjustSubtree: bool, adjustSubtreeNest: bool,
                      ghost walked: set<int>, ghost domain: set<int>, ghost nestedWalked: set<int>,
                      ghost nested0: seq<LoadVec>, ghost auth0: seq<LoadVec>, ghost authNested0: seq<LoadVec>)
      requires Valid() && 0 <= p < |nodes| && 0 <= d < |nodes| && p != d
      requires p !in walked && d !in walked && (adjustSubtree ==> p !in domain) && d !in domain
      requires (adjustSubtreeNest ==> p !in nestedWalked) && d !in nestedWalked
      requires AllValid(nested0) && AllValid(auth0) && AllValid(authNested0)
      requires |nested0| == |auth0| == |authNested0| == |nodes|
      requires popNested == MoveOn(nested0, walked, nested0[d], inc)
      requires popAuthSubtree == MoveOn(auth0, domain, auth0[d], inc)
      requires popAuthSubtreeNested == MoveOn(authNested0, nestedWalked, authNested0[d], inc)
      modifies this
      ensures Valid() && popMe == old(popMe)
      ensures popNested == MoveOn(nested0, walked + {p}, nested0[d], inc)
      ensures popAuthSubtree == MoveOn(auth0, if adjustSubtree then domain + {p} else domain, auth0[d], inc)
      ensures popAuthSubtreeNested ==
        MoveOn(authNested0, if adjustSubtreeNest then nestedWalked + {p} else nestedWalked, authNested0[d], inc)
    {
      MoveOnSnoc(nested0, walked, p, nested0[d], inc);
      if adjustSubtree {
        MoveOnSnoc(auth0, domain, p, auth0[d], inc);
      }
      if adjustSubtreeNest {
        MoveOnSnoc(authNested0, nestedWalked, p, authNested0[d], inc);
      }
      if inc {
        popNested := popNested[p := popNested[p].Plus(popNested[d])];
        if adjustSubtree {
          popAuthSubtree := popAuthSubtree[p := popAuthSubtree[p].Plus(popAuthSubtree[d])];
        }
        if adjustSubtreeNest {
          popAuthSubtreeNested := popAuthSubtreeNested[p := popAuthSubtreeNested[p].Plus(popAuthSubtreeNested[d])];
        }
      } else {
        popNested := popNested[p := popNested[p].Minus(popNested[d])];
        if adjustSubtree {
          popAuthSubtree := popAuthSubtree[p := popAuthSubtree[p].Minus(popAuthSubtree[d])];
        }
        if adjustSubtreeNest {
          popAuthSubtreeNested := popAuthSubtreeNested[p := popAuthSubtreeNested[p].Minus(popAuthSubtreeNested[d])];
        }
      }
    }

    /**
     * `adjust_pop_for_rename`: the renamed fragment `d`'s nested load is
     * added to (`inc`) or taken from every fragment on the path from `pdir`
     * to the root; if `d` is auth, its nested auth load too, and if it is
     * moreover not a subtree root, its auth-subtree load along the auth
     * domain of `pdir`. `d` must not lie on that path, as a directory is
     * never an ancestor of its own parent.
     */
    method AdjustPopForRename(pdir: int, d: int, inc: bool)
      requires Valid() && 0 <= pdir < |nodes| && 0 <= d < |nodes| && d !in PathSet(nodes, pdir)
      modifies this
      ensures Valid() && popMe == old(popMe)
      ensures popNested == MoveOn(old(popNested), PathSet(nodes, pdir), old(popNested)[d], inc)
      ensures popAuthSubtree ==
        if !nodes[d].auth || nodes[d].subtreeRoot then old(popAuthSubtree)
        else MoveOn(old(popAuthSubtree), DomainSet(nodes, pdir), old(popAuthSubtree)[d], inc)
      ensures popAuthSubtreeNested ==
        if !nodes[d].auth then old(popAuthSubtreeNested)
        else MoveOn(old(popAuthSubtreeNested), PathSet(nodes, pdir), old(popAuthSubtreeNested)[d], inc)
    {
      var adjustSubtreeNest := nodes[d].auth;
      var adjustSubtree := adjustSubtreeNest && !nodes[d].subtreeRoot;
      var p := pdir;
      ghost var walked: set<int> := {};
      ghost var domain: set<int> := {};
      ghost var nestedWalked: set<int> := {};
      ghost var nested0, auth0, authNested0 := popNested, popAuthSubtree, popAuthSubtreeNested;
      assert MoveOn(nested0, {}, nested0[d], inc) == nested0;
      assert MoveOn(auth0, {}, auth0[d], inc) == auth0;
      assert MoveOn(authNested0, {}, authNested0[d], inc) == authNested0;
      while true
        invariant Valid() && 0 <= p < |nodes| && popMe == old(popMe)
        invariant walked + PathSet(nodes, p) == PathSet(nodes, pdir) && walked !! PathSet(nodes, p)
        invariant popNested == MoveOn(nested0, walked, nested0[d], inc)
        invariant popAuthSubtree == MoveOn(auth0, domain, auth0[d], inc)
        invariant popAuthSubtreeNested == MoveOn(authNested0, nestedWalked, authNested0[d], inc)
        invariant adjustSubtreeNest == nodes[d].auth && d !in walked && d !in domain
        invariant nestedWalked == if nodes[d].auth then walked else {}
        invariant !nodes[d].auth || nodes[d].subtreeRoot ==> domain == {} && !adjustSubtree
        invariant adjustSubtree ==> domain + DomainSet(nodes, p) == DomainSet(nodes, pdir) && domain == walked
        invariant !adjustSubtree && nodes[d].auth && !nodes[d].subtreeRoot ==> domain == DomainSet(nodes, pdir)
        decreases p
      {
        RenameStep(p, d, inc, adjustSubtree, adjustSubtreeNest, walked, domain, nestedWalked, nested0, auth0, authNested0);
        if adjustSubtree {
          domain := domain + {p};
        }
        if adjustSubtreeNest {
          nestedWalked := nestedWalked + {p};
        }
        if nodes[p].subtreeRoot {
          adjustSubtree := false;
        }
        walked := walked + {p};
        var next := nodes[p].parent;
        if next == NO_PARENT {
          adjustSubtree := false;
          break;
        }
        p := next;
      }
    }
  }
}
