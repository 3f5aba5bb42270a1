/**
 * The ordered containers the balancer ranks things with
 * (src/mds/MDBalancer.cc): a `std::multimap<double, T>` keeps its entries
 * sorted by key, and `insert` places a new entry after every entry whose key
 * is not greater, so entries with equal keys stay in insertion order.
 */
module Multimaps {

  /** One entry of a `std::multimap<double, T>`. */
  datatype Entry<T> = Entry(key: real, value: T)

  /** Keys never decrease along the sequence. */
  predicate Sorted<T>(s: seq<Entry<T>>)
  {
    forall i, j :: 0 <= i < j < |s| ==> s[i].key <= s[j].key
  }

  /** `insert(e)`: `e` goes right before the first entry with a strictly larger key. */
  function Insert<T>(s: seq<Entry<T>>, e: Entry<T>): (r: seq<Entry<T>>)
    ensures |r| == |s| + 1
    ensures multiset(r) == multiset(s) + multiset{e}
    ensures Sorted(s) ==> Sorted(r)
    ensures r != [] && (r[0] == e || (s != [] && r[0] == s[0]))
  {
    if s == [] || e.key < s[0].key then
      SortedCons(e, s);
      [e] + s
    else
      assert s == [s[0]] + s[1..];
      var rest := Insert(s[1..], e);
      SortedCons(s[0], rest);
      [s[0]] + rest
  }

  /** An entry whose key is at most the head's keeps a sorted sequence sorted. */
  lemma SortedCons<T>(x: Entry<T>, t: seq<Entry<T>>)
    ensures Sorted(t) && (t == [] || x.key <= t[0].key) ==> Sorted([x] + t)
  {
    if Sorted(t) && (t == [] || x.key <= t[0].key) {
      var c := [x] + t;
      forall i, j | 0 <= i < j < |c|
        ensures c[i].key <= c[j].key
      {
        assert c[j] == t[j - 1];
        if i > 0 { assert c[i] == t[i - 1]; } else { assert t[0].key <= t[j - 1].key; }
      }
    }
  }

  /** Where `insert` puts an entry with key `k`: the number of leading entries with key at most `k`. */
  function UpperBound<T>(s: seq<Entry<T>>, k: real): (p: nat)
    ensures p <= |s|
  {
    if s == [] || k < s[0].key then 0 else 1 + UpperBound(s[1..], k)
  }

  /** Inserting an entry whose key is at least every key already there appends it. */
  lemma {:induction false} InsertLast<T>(s: seq<Entry<T>>, e: Entry<T>)
    requires Sorted(s) && (s == [] || s[|s| - 1].key <= e.key)
    ensures Insert(s, e) == s + [e]
  {
    if s != [] {
      assert s[0].key <= s[|s| - 1].key;
      if |s| > 1 {
        assert s[1..][|s| - 2] == s[|s| - 1];
        InsertLast(s[1..], e);
      }
      assert [s[0]] + (s[1..] + [e]) == s + [e];
    }
  }

  /** The multimap built by inserting `entries` one after the other into an empty one. */
  function Build<T>(entries: seq<Entry<T>>): (r: seq<Entry<T>>)
    ensures |r| == |entries|
    ensures Sorted(r) && multiset(r) == multiset(entries)
  {
    if entries == [] then []
    else
      assert entries == entries[..|entries| - 1] + [entries[|entries| - 1]];
      Insert(Build(entries[..|entries| - 1]), entries[|entries| - 1])
  }

  /** The values of the entries, in order. */
  function Values<T>(s: seq<Entry<T>>): (r: seq<T>)
    ensures |r| == |s| && forall i :: 0 <= i < |s| ==> r[i] == s[i].value
  {
    seq(|s|, i requires 0 <= i < |s| => s[i].value)
  }

  /** The entries in the opposite order: iterating from `rbegin()` to `rend()`. */
  function Reversed<T>(s: seq<T>): (r: seq<T>)
    ensures |r| == |s| && forall i :: 0 <= i < |s| ==> r[i] == s[|s| - 1 - i]
  {
    seq(|s|, i requires 0 <= i < |s| => s[|s| - 1 - i])
  }

  /** An entry is in a multimap exactly when it was inserted. */
  lemma MemberOfBuild<T>(entries: seq<Entry<T>>, e: Entry<T>)
    ensures e in Build(entries) <==> e in entries
  {
    assert e in Build(entries) <==> e in multiset(Build(entries));
    assert e in entries <==> e in multiset(entries);
  }

  /** `insert` splits the multimap at the upper bound of the new key. */
  lemma {:induction false} InsertAtUpperBound<T>(s: seq<Entry<T>>, e: Entry<T>)
    ensures var p := UpperBound(s, e.key); Insert(s, e) == s[..p] + [e] + s[p..]
  {
    if s != [] && !(e.key < s[0].key) {
      InsertAtUpperBound(s[1..], e);
      ConsSplit(s[0], s[1..], UpperBound(s[1..], e.key), e);
      assert [s[0]] + s[1..] == s;
    }
  }

  /** Splitting after a head entry: the split point moves one to the right. */
  lemma ConsSplit<T>(x: T, t: seq<T>, p: nat, e: T)
    requires p <= |t|
    ensures [x] + (t[..p] + [e] + t[p..]) == ([x] + t)[..p + 1] + [e] + ([x] + t)[p + 1..]
  {
    var c := [x] + t;
    assert c[..p + 1] == [x] + t[..p];
    assert c[p + 1..] == t[p..];
  }

  /**
   * In a sorted multimap every entry before the upper bound of `k` has a key
   * at most `k` and every entry from it on a strictly larger key: an inserted
   * entry lands after its ties, so ties stay in insertion order.
   */
  lemma {:induction false} UpperBoundSplitsKeys<T>(s: seq<Entry<T>>, k: real)
    requires Sorted(s)
    ensures forall i :: 0 <= i < UpperBound(s, k) ==> s[i].key <= k
    ensures forall i :: UpperBound(s, k) <= i < |s| ==> k < s[i].key
  {
    if s != [] && !(k < s[0].key) {
      var t := s[1..];
      assert Sorted(t);
      UpperBoundSplitsKeys(t, k);
      forall i | 0 <= i < UpperBound(s, k)
        ensures s[i].key <= k
      {
        if i > 0 { assert s[i] == t[i - 1]; }
      }
      forall i | UpperBound(s, k) <= i < |s|
        ensures k < s[i].key
      {
        assert s[i] == t[i - 1];
      }
    } else if s != [] {
      forall i | 0 <= i < |s|
        ensures k < s[i].key
      {
        assert s[0].key <= s[i].key;
      }
    }
  }
}
