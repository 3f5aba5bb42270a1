/**
 * The fragmentation queues of the balancer (src/mds/MDBalancer.cc
 * `maybe_fragment`, `queue_split`, `queue_merge`, `dynamically_fragment`;
 * src/mds/MDBalancer.h `split_pending`, `merge_pending`).
 *
 * A split or merge is not done at once: a context is queued (on the timer,
 * or for a fast split on the rank's waiter list) and the work happens when
 * it fires. The contexts in flight are ghost state here, so that what the
 * pending sets are for can be stated: a frag is pending only while a
 * context that will handle it is in flight, and a merge has exactly one.
 */
module Fragments {
  import opened Wrappers
  import LoadArrays
  import opened Configs
  import opened DirTrees

  /** `frag_t()`: the whole directory, unfragmented. */
  const ROOT_FRAG: int := 0

  /** What the queues hand to the timer, the waiter list and the cache. */
  datatype FragAction =
    | SplitWaiter(frag: DirfragId)              // `queue_waiter` of a split context
    | SplitTimer(frag: DirfragId, after: int)   // `timer.add_event_after` of a split context
    | MergeTimer(frag: DirfragId, after: int)   // `timer.add_event_after` of a merge context
    | SplitDir(frag: DirfragId, bits: int)      // `mdcache->split_dir`
    | MergeDir(frag: DirfragId, to: int)        // `mdcache->merge_dir` up to fragment `to`

  /**
   * `dynamically_fragment` treats `dir` as hot: `amount` is sizeable, the
   * fragment is auth and not stray, carries more than 60% of `amount`, and
   * its subdirectories' fragments carry at most half of its load.
   */
  predicate FileHot(dir: DirNode, amount: real, dirPop: real, childLoads: seq<real>)
  {
    amount > 0.1 && !dir.stray && dir.auth && dirPop > amount * 0.6 &&
    LoadArrays.Sum(childLoads) <= dirPop / 2.0
  }

  class FragmentQueues {
    const cfg: Config
    var splitPending: set<DirfragId>
    var mergePending: set<DirfragId>
    var actions: seq<FragAction>
    ghost var splitInFlight: multiset<DirfragId>
    ghost var mergeInFlight: multiset<DirfragId>

    /**
     * Every pending split has a context in flight that will find it; every
     * pending merge has exactly one, no merge context is in flight for a
     * frag that is not pending, and no whole directory is queued to merge.
     */
    ghost predicate Valid()
      reads this
    {
      (forall f :: f in splitPending ==> f in splitInFlight) &&
      mergeInFlight == multiset(mergePending) &&
      (forall f :: f in mergePending ==> f.frag != ROOT_FRAG)
    }

    constructor (cfg: Config)
      ensures Valid() && this.cfg == cfg
      ensures splitPending == {} && mergePending == {} && actions == []
    {
      this.cfg := cfg;
      splitPending, mergePending, actions := {}, {}, [];
      splitInFlight, mergeInFlight := multiset{}, multiset{};
    }

    /**
     * `queue_split`: the frag becomes pending; a fast split always queues a
     * waiter, a slow one sets a timer only when the frag was not pending.
     */
    method QueueSplit(frag: DirfragId, fast: bool)
      requires Valid()
      modifies this
      ensures Valid()
      ensures splitPending == old(splitPending) + {frag} && mergePending == old(mergePending)
      ensures actions == old(actions) +
        if fast then [SplitWaiter(frag)]
        else if frag !in old(splitPending) then [SplitTimer(frag, cfg.fragmentInterval)]
        else []
    {
      var isNew := frag !in splitPending;
      if isNew {
        splitPending := splitPending + {frag};
      }
      if fast {
        actions := actions + [SplitWaiter(frag)];
        splitInFlight := splitInFlight + multiset{frag};
      } else if isNew {
        actions := actions + [SplitTimer(frag, cfg.fragmentInterval)];
        splitInFlight := splitInFlight + multiset{frag};
      }
    }

    /**
     * A split context fires. If the frag is no longer pending another
     * context got there first and nothing happens; otherwise it stops being
     * pending, and the cache splits it only if it is in the cache
     * (`cached` is `Some`) and this rank is its authority.
     */
    method SplitCallback(frag: DirfragId, cached: Option<bool>)
      requires Valid() && frag in splitInFlight
      modifies this
      ensures Valid() && mergePending == old(mergePending)
      ensures frag !in old(splitPending) ==> splitPending == old(splitPending) && actions == old(actions)
      ensures frag in old(splitPending) ==> splitPending == old(splitPending) - {frag}
      ensures actions == old(actions) +
        if frag in old(splitPending) && cached == Some(true) then [SplitDir(frag, cfg.splitBits)] else []
    {
      splitInFlight := splitInFlight - multiset{frag};
      if frag !in splitPending {
        return;
      }
      splitPending := splitPending - {frag};
      if cached.None? || !cached.value {
        return;
      }
      actions := actions + [SplitDir(frag, cfg.splitBits)];
    }

    /** `queue_merge`: a timer is set only for a frag not already pending. */
    method QueueMerge(frag: DirfragId)
      requires Valid() && frag.frag != ROOT_FRAG
      modifies this
      ensures Valid()
      ensures mergePending == old(mergePending) + {frag} && splitPending == old(splitPending)
      ensures actions == old(actions) + if frag in old(mergePending) then [] else [MergeTimer(frag, cfg.fragmentInterval)]
    {
      if frag !in mergePending {
        mergePending := mergePending + {frag};
        actions := actions + [MergeTimer(frag, cfg.fragmentInterval)];
        mergeInFlight := mergeInFlight + multiset{frag};
      }
    }

    /**
     * A merge context fires. The frag is pending (its context is the only
     * one in flight, and only it erases the frag) and stops being pending;
     * if the fragment is in the cache and this rank is its authority, the
     * cache merges it up to `mergeTo`, the fragment its siblings' walk
     * reached, unless the walk did not move.
     */
    method MergeCallback(frag: DirfragId, cached: Option<bool>, mergeTo: int)
      requires Valid() && frag in mergeInFlight
      modifies this
      ensures Valid() && splitPending == old(splitPending)
      ensures frag in old(mergePending) && frag.frag != ROOT_FRAG
      ensures mergePending == old(mergePending) - {frag}
      ensures actions == old(actions) +
        if cached == Some(true) && mergeTo != frag.frag then [MergeDir(frag, mergeTo)] else []
    {
      mergePending := mergePending - {frag};
      mergeInFlight := mergeInFlight - multiset{frag};
      if cached.None? || !cached.value {
        return;
      }
      if mergeTo != frag.frag {
        actions := actions + [MergeDir(frag, mergeTo)];
      }
    }

    /**
     * What `maybe_fragment(dir, hot)` does to the queues: nothing unless
     * fragmentation is on and `dir` is an auth fragment of an ordinary
     * directory; a split is wanted when splitting is on and the fragment
     * is big or hot, and goes to the timer if new or to the waiter list if
     * pending and very big; a merge is queued for a fragment of a
     * fragmented directory that is small enough and not already pending.
     */
    twostate predicate MaybeFragmented(dir: DirNode, hot: bool)
      reads this
    {
      var on := cfg.fragmentDirs && cfg.fragmentInterval > 0 && dir.auth && !dir.base && !dir.stray;
      var split := on && cfg.splitSize > 0 && (dir.shouldSplit || hot);
      var slow := split && dir.id !in old(splitPending);
      var fast := split && !slow && dir.shouldSplitFast;
      var merge := on && dir.id.frag != ROOT_FRAG && dir.shouldMerge && dir.id !in old(mergePending);
      splitPending == old(splitPending) + (if split then {dir.id} else {}) &&
      mergePending == old(mergePending) + (if merge then {dir.id} else {}) &&
      actions == old(actions) +
        (if slow then [SplitTimer(dir.id, cfg.fragmentInterval)] else if fast then [SplitWaiter(dir.id)] else []) +
        (if merge then [MergeTimer(dir.id, cfg.fragmentInterval)] else [])
    }

    /** `maybe_fragment`. */
    method MaybeFragment(dir: DirNode, hot: bool)
      requires Valid()
      modifies this
      ensures Valid() && MaybeFragmented(dir, hot)
    {
      if cfg.fragmentDirs && cfg.fragmentInterval > 0 && dir.auth && !dir.base && !dir.stray {
        if cfg.splitSize > 0 && (dir.shouldSplit || hot) {
          if dir.id !in splitPending {
            QueueSplit(dir.id, false);
          } else if dir.shouldSplitFast {
            QueueSplit(dir.id, true);
          }
        }
        if dir.id.frag != ROOT_FRAG && dir.shouldMerge && dir.id !in mergePending {
          QueueMerge(dir.id);
        }
      }
    }

    /**
     * `dynamically_fragment`: the loads of the subdirectories' fragments,
     * `childLoads`, are added up, and the fragment goes through
     * `maybe_fragment` as hot exactly when `FileHot` holds; otherwise
     * nothing changes.
     */
    method DynamicallyFragment(dir: DirNode, amount: real, dirPop: real, childLoads: seq<real>)
      requires Valid()
      modifies this
      ensures Valid()
      ensures FileHot(dir, amount, dirPop, childLoads) ==> MaybeFragmented(dir, true)
      ensures !FileHot(dir, amount, dirPop, childLoads) ==> unchanged(this)
    {
      if amount <= 0.1 {
        return;
      }
      if dir.stray || !dir.auth {
        return;
      }
      if dirPop > amount * 0.6 {
        var subDirTotal := 0.0;
        for i := 0 to |childLoads|
          invariant subDirTotal == LoadArrays.Sum(childLoads[..i])
        {
          assert childLoads[..i + 1][..i] == childLoads[..i];
          subDirTotal := subDirTotal + childLoads[i];
        }
        assert childLoads[..|childLoads|] == childLoads;
        var fileHotRatio := 1.0 - subDirTotal / dirPop;
        if fileHotRatio >= 0.5 {
          MaybeFragment(dir, true);
        }
      }
    }
  }
}
