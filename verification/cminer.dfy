/**
 * `CMiner` (src/mds/adsl/CMiner.cc): an online miner of access correlations.
 * Every accessed inode number is appended to `input`; a mining pass cuts the
 * input into windows, collects for every inode (the header) the short runs
 * that start at its occurrences (the deltas), and keeps, per header, the
 * inodes that follow it often enough (support) in enough of its deltas
 * (confidence).  The last `maxEpoch` rule sets are kept.
 */
module CMiners {

  /** A rule h -> t: in how many of h's deltas t appeared, and that count over h's frequency. */
  datatype Rule = Rule(appear: int, confidence: real)

  type RuleSet = map<int, Rule>

  function Min(a: int, b: int): int
  {
    if a <= b then a else b
  }

  // ---------------------------------------------------------------------
  // Counting

  /** The number of occurrences of `x` in `s`. */
  function Count(s: seq<int>, x: int): (c: nat)
    ensures c <= |s|
  {
    if s == [] then 0 else Count(s[..|s| - 1], x) + (if s[|s| - 1] == x then 1 else 0)
  }

  lemma {:induction false} CountAppend(a: seq<int>, b: seq<int>, x: int)
    ensures Count(a + b, x) == Count(a, x) + Count(b, x)
    decreases |b|
  {
    if b == [] {
      assert a + b == a;
    } else {
      var b' := b[..|b| - 1];
      assert (a + b)[..|a + b| - 1] == a + b';
      CountAppend(a, b', x);
    }
  }

  lemma {:induction false} CountPositive(s: seq<int>, x: int)
    ensures Count(s, x) > 0 <==> x in s
    decreases |s|
  {
    if s != [] {
      var s' := s[..|s| - 1];
      CountPositive(s', x);
      assert s == s' + [s[|s| - 1]];
      assert x in s <==> x in s' || x == s[|s| - 1];
    }
  }

  // ---------------------------------------------------------------------
  // Step 1: windows

  /** The concatenation of a sequence of segments. */
  function Flatten(ss: seq<seq<int>>): seq<int>
  {
    if ss == [] then [] else ss[0] + Flatten(ss[1..])
  }

  lemma {:induction false} FlattenSnoc(ss: seq<seq<int>>, a: seq<int>)
    ensures Flatten(ss + [a]) == Flatten(ss) + a
    decreases |ss|
  {
    if ss == [] {
      assert Flatten([a]) == a + Flatten([]);
    } else {
      assert (ss + [a])[1..] == ss[1..] + [a];
      FlattenSnoc(ss[1..], a);
    }
  }

  /**
   * The input cut into consecutive windows of `w` items, the last one
   * possibly shorter; with `w <= 0` no window ever fills, so the whole input
   * is one segment.
   */
  function Segments(s: seq<int>, w: int): seq<seq<int>>
    decreases |s|
  {
    if s == [] then []
    else if w <= 0 || |s| <= w then [s]
    else [s[..w]] + Segments(s[w..], w)
  }

  /** The segments concatenate back to the input. */
  lemma {:induction false} SegmentsFlatten(s: seq<int>, w: int)
    ensures Flatten(Segments(s, w)) == s
    decreases |s|
  {
    if s != [] && !(w <= 0 || |s| <= w) {
      SegmentsFlatten(s[w..], w);
      assert s == s[..w] + s[w..];
    } else if s != [] {
      assert Flatten([s]) == s + Flatten([]);
    }
  }

  /**
   * Every segment is non-empty; with a positive window every segment holds
   * `w` items except possibly the last, which holds at most `w`; with a
   * window `<= 0` there is at most one segment.
   */
  lemma {:induction false} SegmentsShape(s: seq<int>, w: int)
    ensures forall k :: 0 <= k < |Segments(s, w)| ==> Segments(s, w)[k] != []
    ensures w > 0 ==> forall k :: 0 <= k < |Segments(s, w)| ==> |Segments(s, w)[k]| <= w
    ensures w > 0 ==> forall k :: 0 <= k < |Segments(s, w)| - 1 ==> |Segments(s, w)[k]| == w
    ensures w <= 0 ==> |Segments(s, w)| <= 1
    decreases |s|
  {
    if s != [] && !(w <= 0 || |s| <= w) {
      SegmentsShape(s[w..], w);
      assert Segments(s, w) == [s[..w]] + Segments(s[w..], w);
    }
  }

  /** Step 1 of a mining pass (src/mds/adsl/CMiner.cc:76-92): the input cut into windows. */
  method Segment(items: seq<int>, w: int) returns (segments: seq<seq<int>>)
    ensures segments == Segments(items, w)
  {
    var count := 0;
    var segment: seq<int> := [];
    segments := [];
    assert segment + items[0..] == items;
    for i := 0 to |items|
      invariant count == |segment|
      invariant w > 0 ==> count < w
      invariant segments + Segments(segment + items[i..], w) == Segments(items, w)
    {
      assert (segment + [items[i]]) + items[i + 1..] == segment + items[i..];
      segment := segment + [items[i]];
      count := count + 1;
      if count == w {
        var rest := items[i + 1..];
        assert (segment + rest)[..w] == segment;
        assert (segment + rest)[w..] == rest;
        if rest == [] {
          assert segment + rest == segment;
        }
        segments := segments + [segment];
        segment := [];
        count := 0;
        assert segment + rest == rest;
      }
    }
    assert segment + items[|items|..] == segment;
    if count != 0 {
      segments := segments + [segment];
    }
  }

  // ---------------------------------------------------------------------
  // Step 2: deltas

  /** The delta made at position `j` of a segment: the item and the ones after it, `gap` items in all, cut at the segment's end. */
  function DeltaAt(seg: seq<int>, j: int, gap: nat): (d: seq<int>)
    requires 0 <= j < |seg|
    ensures |d| == Min(gap, |seg| - j)
    ensures gap > 0 ==> d[0] == seg[j]
  {
    seg[j..Min(j + gap, |seg|)]
  }

  /** The deltas of header `h` made at the first `n` positions of one segment, in order. */
  function SegDeltas(seg: seq<int>, gap: nat, h: int, n: nat): seq<seq<int>>
    requires n <= |seg|
  {
    if n == 0 then []
    else SegDeltas(seg, gap, h, n - 1) + (if seg[n - 1] == h then [DeltaAt(seg, n - 1, gap)] else [])
  }

  /** All deltas of header `h`, segment by segment. */
  function DeltaList(segs: seq<seq<int>>, gap: nat, h: int): seq<seq<int>>
  {
    if segs == [] then []
    else DeltaList(segs[..|segs| - 1], gap, h) + SegDeltas(segs[|segs| - 1], gap, h, |segs[|segs| - 1]|)
  }

  lemma {:induction false} SegDeltasCount(seg: seq<int>, gap: nat, h: int, n: nat)
    requires n <= |seg|
    ensures |SegDeltas(seg, gap, h, n)| == Count(seg[..n], h)
    decreases n
  {
    if n > 0 {
      SegDeltasCount(seg, gap, h, n - 1);
      assert seg[..n][..n - 1] == seg[..n - 1];
    }
  }

  /** One delta per occurrence: header `h` has as many deltas as it has occurrences in the segments. */
  lemma {:induction false} DeltaListCount(segs: seq<seq<int>>, gap: nat, h: int)
    ensures |DeltaList(segs, gap, h)| == Count(Flatten(segs), h)
    decreases |segs|
  {
    if segs != [] {
      var init, last := segs[..|segs| - 1], segs[|segs| - 1];
      DeltaListCount(init, gap, h);
      SegDeltasCount(last, gap, h, |last|);
      assert last[..|last|] == last;
      assert segs == init + [last];
      FlattenSnoc(init, last);
      CountAppend(Flatten(init), last, h);
    }
  }

  /** The frequency of a header (the number of its deltas) is its number of occurrences in the input. */
  lemma ItemFreqIsCount(items: seq<int>, w: int, gap: nat, h: int)
    ensures |DeltaList(Segments(items, w), gap, h)| == Count(items, h)
    ensures DeltaList(Segments(items, w), gap, h) != [] <==> h in items
  {
    DeltaListCount(Segments(items, w), gap, h);
    SegmentsFlatten(items, w);
    CountPositive(items, h);
  }

  function Get(deltas: map<int, seq<seq<int>>>, h: int): seq<seq<int>>
  {
    if h in deltas then deltas[h] else []
  }

  /** The map of deltas after the deltas made at the first `n` positions of `seg` are filed into `m`. */
  ghost function Filed(m: map<int, seq<seq<int>>>, seg: seq<int>, gap: nat, n: nat): map<int, seq<seq<int>>>
    requires n <= |seg|
  {
    if n == 0 then m
    else
      var prev := Filed(m, seg, gap, n - 1);
      prev[seg[n - 1] := Get(prev, seg[n - 1]) + [DeltaAt(seg, n - 1, gap)]]
  }

  /** Filing extends the list of every header by exactly its deltas from the segment. */
  lemma {:induction false} FiledGet(m: map<int, seq<seq<int>>>, seg: seq<int>, gap: nat, n: nat, h: int)
    requires n <= |seg|
    ensures Get(Filed(m, seg, gap, n), h) == Get(m, h) + SegDeltas(seg, gap, h, n)
    decreases n
  {
    if n == 0 {
      assert Get(m, h) + [] == Get(m, h);
    } else {
      FiledGet(m, seg, gap, n - 1, h);
      var prev := Filed(m, seg, gap, n - 1);
      if h != seg[n - 1] {
        assert SegDeltas(seg, gap, h, n) == SegDeltas(seg, gap, h, n - 1) + [];
      } else {
        var d := DeltaAt(seg, n - 1, gap);
        assert SegDeltas(seg, gap, h, n) == SegDeltas(seg, gap, h, n - 1) + [d];
        assert (Get(m, h) + SegDeltas(seg, gap, h, n - 1)) + [d] == Get(m, h) + (SegDeltas(seg, gap, h, n - 1) + [d]);
      }
    }
  }

  /**
   * The deltas of one segment filed under their items
   * (src/mds/adsl/CMiner.cc:101-117); `headers` lists the keys of the map as
   * they are created.
   */
  method AddSegment(deltas: map<int, seq<seq<int>>>, headers: seq<int>, seg: seq<int>, gap: nat)
    returns (deltas': map<int, seq<seq<int>>>, headers': seq<int>)
    requires forall h :: h in deltas ==> deltas[h] != []
    requires forall h :: h in headers <==> h in deltas
    ensures deltas' == Filed(deltas, seg, gap, |seg|)
    ensures forall h :: h in deltas' ==> deltas'[h] != []
    ensures forall h :: h in headers' <==> h in deltas'
  {
    deltas', headers' := deltas, headers;
    for j := 0 to |seg|
      invariant deltas' == Filed(deltas, seg, gap, j)
      invariant forall h :: h in deltas' ==> deltas'[h] != []
      invariant forall h :: h in headers' <==> h in deltas'
    {
      var item := seg[j];
      var expected := j + gap;
      if expected >= |seg| {
        expected := |seg|;
      }
      var d := seg[j..expected];
      assert d == DeltaAt(seg, j, gap);
      if item !in deltas' {
        headers' := headers' + [item];
      }
      deltas' := deltas'[item := Get(deltas', item) + [d]];
    }
  }

  /**
   * Step 2 of a mining pass (src/mds/adsl/CMiner.cc:99-117): every item's
   * deltas, filed under it; `headers` lists the keys of the map.
   */
  method BuildDeltas(segs: seq<seq<int>>, gap: nat) returns (deltas: map<int, seq<seq<int>>>, headers: seq<int>)
    ensures forall h :: h in deltas <==> DeltaList(segs, gap, h) != []
    ensures forall h :: h in deltas ==> deltas[h] == DeltaList(segs, gap, h)
    ensures forall h :: h in headers <==> h in deltas
  {
    deltas, headers := map[], [];
    for s := 0 to |segs|
      invariant forall h :: Get(deltas, h) == DeltaList(segs[..s], gap, h)
      invariant forall h :: h in deltas ==> deltas[h] != []
      invariant forall h :: h in headers <==> h in deltas
    {
      ghost var before := deltas;
      deltas, headers := AddSegment(deltas, headers, segs[s], gap);
      assert segs[..s + 1][..s] == segs[..s];
      forall h
        ensures Get(deltas, h) == DeltaList(segs[..s + 1], gap, h)
      {
        FiledGet(before, segs[s], gap, |segs[s]|, h);
      }
    }
    assert segs[..|segs|] == segs;
  }

  // ---------------------------------------------------------------------
  // Step 3: rules

  /** How often `t` occurs over all of a header's deltas; the header itself is never counted. */
  function CorrFreq(lists: seq<seq<int>>, h: int, t: int): nat
  {
    if lists == [] then 0
    else CorrFreq(lists[..|lists| - 1], h, t) + (if t == h then 0 else Count(lists[|lists| - 1], t))
  }

  /** In how many of a header's deltas `t` occurs. */
  function Appear(lists: seq<seq<int>>, t: int): (c: nat)
    ensures c <= |lists|
  {
    if lists == [] then 0
    else Appear(lists[..|lists| - 1], t) + (if t in lists[|lists| - 1] then 1 else 0)
  }

  /** Every item of every delta. */
  function Items(lists: seq<seq<int>>): set<int>
  {
    if lists == [] then {}
    else
      var last := lists[|lists| - 1];
      Items(lists[..|lists| - 1]) + (set x | x in last)
  }

  /** The share of a header's deltas in which `t` occurs. */
  function Confidence(lists: seq<seq<int>>, t: int): real
    requires lists != []
  {
    Appear(lists, t) as real / |lists| as real
  }

  /**
   * The rule set of header `h` whose deltas are `lists`: every other item
   * that occurs at least `minSupport` times in them and in more than a
   * `minConf` share of them.
   */
  function RuleSetOf(lists: seq<seq<int>>, h: int, minSupport: int, minConf: real): map<int, Rule>
    requires lists != []
  {
    map t | t in Items(lists) && t != h && CorrFreq(lists, h, t) >= minSupport && Confidence(lists, t) > minConf
      :: Rule(Appear(lists, t), Confidence(lists, t))
  }

  lemma {:induction false} CorrFreqPositive(lists: seq<seq<int>>, h: int, t: int)
    ensures CorrFreq(lists, h, t) > 0 <==> t != h && t in Items(lists)
    ensures t in Items(lists) ==> Appear(lists, t) > 0
    decreases |lists|
  {
    if lists != [] {
      CorrFreqPositive(lists[..|lists| - 1], h, t);
      CountPositive(lists[|lists| - 1], t);
    }
  }

  /**
   * Every kept rule h -> t names another item that occurred at least
   * `minSupport` times after h, in at least one of h's deltas, with a
   * confidence above `minConf` and at most 1.
   */
  lemma RuleBounds(lists: seq<seq<int>>, h: int, minSupport: int, minConf: real, t: int)
    requires lists != []
    requires t in RuleSetOf(lists, h, minSupport, minConf)
    ensures t != h && CorrFreq(lists, h, t) >= minSupport
    ensures RuleSetOf(lists, h, minSupport, minConf)[t].appear >= 1
    ensures minConf < RuleSetOf(lists, h, minSupport, minConf)[t].confidence <= 1.0
  {
    CorrFreqPositive(lists, h, t);
    AtMostOne(Appear(lists, t), |lists|);
  }

  lemma AtMostOne(a: nat, n: nat)
    requires 0 < n && a <= n
    ensures a as real / n as real <= 1.0
  {
    assert a as real / n as real * n as real == a as real;
  }

  function GetN(m: map<int, int>, t: int): int
  {
    if t in m then m[t] else 0
  }

  /** No item is listed twice. */
  predicate Distinct(s: seq<int>)
  {
    forall a, b :: 0 <= a < b < |s| ==> s[a] != s[b]
  }

  /**
   * One delta counted (src/mds/adsl/CMiner.cc:143-170): every item but the
   * header, once per occurrence and once per delta.  `freqKeys` lists the
   * keys of `corrFreqs`; the items seen in this delta are listed in
   * `listItems`, once each.
   */
  method CountList(h: int, list: seq<int>, corrFreqs: map<int, int>, freqKeys: seq<int>, corrAppear: map<int, int>)
    returns (freqs': map<int, int>, freqKeys': seq<int>, appear': map<int, int>)
    requires forall t :: t in corrFreqs ==> corrFreqs[t] > 0
    requires forall t :: t in freqKeys <==> t in corrFreqs
    ensures forall t :: GetN(freqs', t) == GetN(corrFreqs, t) + (if t == h then 0 else Count(list, t))
    ensures forall t :: t in freqs' ==> freqs'[t] > 0
    ensures forall t :: t in freqKeys' <==> t in freqs'
    ensures forall t :: t != h ==> GetN(appear', t) == GetN(corrAppear, t) + (if t in list then 1 else 0)
  {
    freqs', freqKeys' := corrFreqs, freqKeys;
    var listItems: seq<int> := [];
    for i := 0 to |list|
      invariant forall t :: t in listItems <==> t != h && t in list[..i]
      invariant Distinct(listItems)
      invariant forall t :: GetN(freqs', t) == GetN(corrFreqs, t) + (if t == h then 0 else Count(list[..i], t))
      invariant forall t :: t in freqs' ==> freqs'[t] > 0
      invariant forall t :: t in freqKeys' <==> t in freqs'
    {
      assert list[..i + 1] == list[..i] + [list[i]];
      assert list[..i + 1][..i] == list[..i];
      var item := list[i];
      if item != h {
        if item !in listItems {
          listItems := listItems + [item];
        }
        if item !in freqs' {
          freqs' := freqs'[item := 1];
          freqKeys' := freqKeys' + [item];
        } else {
          freqs' := freqs'[item := freqs'[item] + 1];
        }
      }
    }
    assert list[..|list|] == list;
    appear' := corrAppear;
    for r := 0 to |listItems|
      invariant forall t :: t != h ==> GetN(appear', t) == GetN(corrAppear, t) + (if t in listItems[..r] then 1 else 0)
    {
      var item := listItems[r];
      assert item !in listItems[..r];
      assert listItems[..r + 1] == listItems[..r] + [item];
      if item !in appear' {
        appear' := appear'[item := 1];
      } else {
        appear' := appear'[item := appear'[item] + 1];
      }
    }
    assert listItems[..|listItems|] == listItems;
  }

  /** The counts over all of a header's deltas (src/mds/adsl/CMiner.cc:137-171). */
  method CountLists(h: int, lists: seq<seq<int>>) returns (corrFreqs: map<int, int>, freqKeys: seq<int>, corrAppear: map<int, int>)
    ensures forall t :: GetN(corrFreqs, t) == CorrFreq(lists, h, t)
    ensures forall t :: t in corrFreqs ==> corrFreqs[t] > 0
    ensures forall t :: t in freqKeys <==> t in corrFreqs
    ensures forall t :: t != h ==> GetN(corrAppear, t) == Appear(lists, t)
  {
    corrFreqs, freqKeys, corrAppear := map[], [], map[];
    for k := 0 to |lists|
      invariant forall t :: GetN(corrFreqs, t) == CorrFreq(lists[..k], h, t)
      invariant forall t :: t in corrFreqs ==> corrFreqs[t] > 0
      invariant forall t :: t in freqKeys <==> t in corrFreqs
      invariant forall t :: t != h ==> GetN(corrAppear, t) == Appear(lists[..k], t)
    {
      corrFreqs, freqKeys, corrAppear := CountList(h, lists[k], corrFreqs, freqKeys, corrAppear);
      assert lists[..k + 1][..k] == lists[..k];
    }
    assert lists[..|lists|] == lists;
  }

  /** The support and confidence filters (src/mds/adsl/CMiner.cc:174-188), visiting the keys of `corrFreqs` listed in `freqKeys`. */
  method SelectRules(corrFreqs: map<int, int>, freqKeys: seq<int>, corrAppear: map<int, int>, itemFreq: nat, minSupport: int, minConf: real)
    returns (ruleSet: map<int, Rule>)
    requires itemFreq > 0
    requires forall t :: t in freqKeys <==> t in corrFreqs
    ensures forall t :: t in ruleSet <==>
      t in corrFreqs && corrFreqs[t] >= minSupport && GetN(corrAppear, t) as real / itemFreq as real > minConf
    ensures forall t :: t in ruleSet ==> ruleSet[t] == Rule(GetN(corrAppear, t), GetN(corrAppear, t) as real / itemFreq as real)
  {
    ruleSet := map[];
    for r := 0 to |freqKeys|
      invariant forall t :: t in ruleSet <==>
        t in freqKeys[..r] && corrFreqs[t] >= minSupport && GetN(corrAppear, t) as real / itemFreq as real > minConf
      invariant forall t :: t in ruleSet ==> ruleSet[t] == Rule(GetN(corrAppear, t), GetN(corrAppear, t) as real / itemFreq as real)
    {
      var item := freqKeys[r];
      assert freqKeys[..r + 1] == freqKeys[..r] + [item];
      var occurTimes := corrFreqs[item];
      if occurTimes >= minSupport {
        // `corr_appear[item]` reads 0 for an absent item, as operator[] does
        var conf := GetN(corrAppear, item) as real / itemFreq as real;
        if conf > minConf {
          ruleSet := ruleSet[item := Rule(GetN(corrAppear, item), conf)];
        }
      }
    }
    assert freqKeys[..|freqKeys|] == freqKeys;
  }

  /** Step 3 for one header (src/mds/adsl/CMiner.cc:137-189): count, filter and score the items of its deltas. */
  method MineHeader(h: int, lists: seq<seq<int>>, minSupport: int, minConf: real) returns (ruleSet: map<int, Rule>)
    requires lists != []
    ensures ruleSet == RuleSetOf(lists, h, minSupport, minConf)
  {
    var corrFreqs, freqKeys, corrAppear := CountLists(h, lists);
    ruleSet := SelectRules(corrFreqs, freqKeys, corrAppear, |lists|, minSupport, minConf);
    ghost var spec := RuleSetOf(lists, h, minSupport, minConf);
    forall t
      ensures t in ruleSet <==> t in spec
      ensures t in ruleSet ==> ruleSet[t] == spec[t]
    {
      CorrFreqPositive(lists, h, t);
    }
  }

  // ---------------------------------------------------------------------
  // A whole pass

  /**
   * The rule sets one mining pass derives from `items`: one per header
   * that occurred at least `minSupport` times.
   */
  function MinedRules(items: seq<int>, w: int, gap: nat, minSupport: int, minConf: real): map<int, RuleSet>
  {
    map h | h in items && DeltaList(Segments(items, w), gap, h) != []
                       && |DeltaList(Segments(items, w), gap, h)| >= minSupport
      :: RuleSetOf(DeltaList(Segments(items, w), gap, h), h, minSupport, minConf)
  }

  /** A header gets a rule set exactly when it occurred in the input at least `minSupport` times. */
  lemma HeaderKept(items: seq<int>, w: int, gap: nat, minSupport: int, minConf: real, h: int)
    ensures h in MinedRules(items, w, gap, minSupport, minConf) <==> h in items && Count(items, h) >= minSupport
  {
    ItemFreqIsCount(items, w, gap, h);
  }

  /**
   * The history after one pass: the new rule set is appended and, when the
   * history then holds more than `maxEpoch` sets, the oldest is dropped.  The
   * bound is compared as an unsigned size, so a negative `maxEpoch` never
   * drops anything.
   */
  function Pushed(series: seq<map<int, RuleSet>>, rules: map<int, RuleSet>, maxEpoch: int): seq<map<int, RuleSet>>
  {
    var s := series + [rules];
    if maxEpoch >= 0 && |s| > maxEpoch then s[1..] else s
  }

  /**
   * With a non-negative bound the history never holds more than `maxEpoch`
   * rule sets, the newest is last when it is kept at all, and every older
   * set kept is one of the previous ones, in order.
   */
  lemma PushedBound(series: seq<map<int, RuleSet>>, rules: map<int, RuleSet>, maxEpoch: int)
    requires 0 <= maxEpoch && |series| <= maxEpoch
    ensures |Pushed(series, rules, maxEpoch)| <= maxEpoch
    ensures maxEpoch > 0 ==> Pushed(series, rules, maxEpoch)[|Pushed(series, rules, maxEpoch)| - 1] == rules
    ensures |series| == maxEpoch ==> Pushed(series, rules, maxEpoch) == (series + [rules])[1..]
    ensures |series| < maxEpoch ==> Pushed(series, rules, maxEpoch) == series + [rules]
  {
  }

  class CMiner {
    const windowSize: int
    const maxGap: int
    const minSupport: int
    const minConfidence: real
    const maxEpoch: int
    var input: seq<int>
    var correlationSeries: seq<map<int, RuleSet>>

    ghost predicate Valid()
      reads this
    {
      maxEpoch >= 0 ==> |correlationSeries| <= maxEpoch
    }

    constructor (maxEpoch: int, windowSize: int, maxGap: int, minSupport: int, minConfidence: real)
      ensures Valid()
      ensures this.maxEpoch == maxEpoch && this.windowSize == windowSize && this.maxGap == maxGap
      ensures this.minSupport == minSupport && this.minConfidence == minConfidence
      ensures input == [] && correlationSeries == []
    {
      this.maxEpoch := maxEpoch;
      this.windowSize := windowSize;
      this.maxGap := maxGap;
      this.minSupport := minSupport;
      this.minConfidence := minConfidence;
      input := [];
      correlationSeries := [];
    }

    /** Records one access. */
    method Hit(ino: int)
      modifies this
      ensures input == old(input) + [ino]
      ensures correlationSeries == old(correlationSeries)
    {
      input := input + [ino];
    }

    /** One mining pass over the accesses recorded since the previous one. */
    method Process()
      requires Valid()
      requires maxGap >= 0
      modifies this
      ensures Valid()
      ensures input == []
      ensures correlationSeries ==
        Pushed(old(correlationSeries), MinedRules(old(input), windowSize, maxGap, minSupport, minConfidence), maxEpoch)
    {
      var temp := input;
      input := [];
      var segments := Segment(temp, windowSize);
      var deltas, headers := BuildDeltas(segments, maxGap);

      var rules: map<int, RuleSet> := map[];
      for r := 0 to |headers|
        invariant input == [] && correlationSeries == old(correlationSeries)
        invariant forall h :: h in rules <==> h in headers[..r] && |deltas[h]| >= minSupport
        invariant forall h :: h in rules ==> rules[h] == RuleSetOf(deltas[h], h, minSupport, minConfidence)
      {
        var header := headers[r];
        assert headers[..r + 1] == headers[..r] + [header];
        var deltaLists := deltas[header];
        var itemFreq := |deltaLists|;
        if itemFreq >= minSupport {
          var ruleSet := MineHeader(header, deltaLists, minSupport, minConfidence);
          rules := rules[header := ruleSet];
        }
      }
      assert headers[..|headers|] == headers;
      forall h
        ensures h in deltas <==> h in temp
      {
        ItemFreqIsCount(temp, windowSize, maxGap, h);
      }
      assert rules == MinedRules(temp, windowSize, maxGap, minSupport, minConfidence);

      correlationSeries := correlationSeries + [rules];
      if maxEpoch >= 0 && |correlationSeries| > maxEpoch {
        correlationSeries := correlationSeries[1..];
      }
    }
  }
}
