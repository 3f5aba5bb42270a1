/**
 * The trace reader of the two predictor verification tools
 * (src/test/adsl/mds/verify.cc and src/test/adsl/mds/pytorch/verify.cc).
 * Each line of a trace holds one epoch's load of every directory as decimal
 * numbers; `split_line` reads the numbers off a line and `readline` shifts
 * every directory's load history by one epoch with its new load entering.
 *
 * Reading the trace file is input: the buffer `getline` fills is a
 * parameter, as the bytes it holds and the number of bytes read.
 */
module LoadInjectors {
  import opened Wrappers
  import opened LoadArrays

  const NUL: char := '\0'

  predicate IsDigit(c: char)
  {
    '0' <= c <= '9'
  }

  function DigitValue(c: char): nat
  {
    if IsDigit(c) then (c as int) - ('0' as int) else 0
  }

  /** The decimal value of a run of digits. */
  function Value(d: seq<char>): nat
  {
    if d == [] then 0 else Value(d[..|d| - 1]) * 10 + DigitValue(d[|d| - 1])
  }

  function Pow10(n: nat): nat
  {
    if n == 0 then 1 else 10 * Pow10(n - 1)
  }

  /** A run of `n` digits is worth less than `10^n`. */
  lemma {:induction false} ValueBound(d: seq<char>)
    ensures Value(d) < Pow10(|d|)
    decreases |d|
  {
    if d != [] {
      ValueBound(d[..|d| - 1]);
    }
  }

  /** The number of digits a string starts with. */
  function LeadingDigits(s: seq<char>): (n: nat)
    ensures n <= |s|
  {
    if s == [] || !IsDigit(s[0]) then 0 else 1 + LeadingDigits(s[1..])
  }

  /** The maximal runs of digits of a string, left to right; every other character separates. */
  function Runs(s: seq<char>): seq<seq<char>>
    decreases |s|
  {
    if s == [] then []
    else if !IsDigit(s[0]) then Runs(s[1..])
    else
      var k := LeadingDigits(s);
      [s[..k]] + Runs(s[k..])
  }

  function Values(runs: seq<seq<char>>): (r: seq<int>)
    ensures |r| == |runs|
    ensures forall i :: 0 <= i < |runs| ==> r[i] == Value(runs[i])
  {
    if runs == [] then [] else Values(runs[..|runs| - 1]) + [Value(runs[|runs| - 1])]
  }

  /** No run of more than 9 digits, so every value fits in an `int`. */
  predicate ShortRuns(t: seq<char>)
  {
    var runs := Runs(t); forall i :: 0 <= i < |runs| ==> |runs[i]| <= 9
  }

  /** A string that starts with all its digits before `u` starts with them and then `u`'s. */
  lemma {:induction false} LeadingDigitsAppend(s: seq<char>, u: seq<char>)
    ensures LeadingDigits(s + u) == if LeadingDigits(s) < |s| then LeadingDigits(s) else |s| + LeadingDigits(u)
    decreases |s|
  {
    if s == [] {
      assert s + u == u;
    } else if IsDigit(s[0]) {
      LeadingDigitsAppend(s[1..], u);
      assert (s + u)[1..] == s[1..] + u;
    }
  }

  /** A non-empty string of digits is a single run. */
  lemma RunsAllDigits(q: seq<char>)
    requires q != [] && forall i :: 0 <= i < |q| ==> IsDigit(q[i])
    ensures Runs(q) == [q]
  {
    LeadingDigitsAppend(q, []);
    assert q + [] == q;
    assert q[..|q|] == q && q[|q|..] == [];
  }

  /**
   * A separator splits the text: the runs of `a + [c] + b` are those of `a`
   * followed by those of `b`, so a '-' or a '.' never joins two numbers or
   * makes one negative or fractional.
   */
  lemma {:induction false} SeparatorSplits(a: seq<char>, c: char, b: seq<char>)
    requires !IsDigit(c)
    ensures Runs(a + [c] + b) == Runs(a) + Runs(b)
    decreases |a|
  {
    var s := a + [c] + b;
    if a == [] {
      assert s[1..] == b;
    } else if !IsDigit(a[0]) {
      SeparatorSplits(a[1..], c, b);
      assert s[1..] == a[1..] + [c] + b;
    } else {
      var k := LeadingDigits(a);
      assert LeadingDigits(s) == k by {
        LeadingDigitsAppend(a, [c] + b);
        assert s == a + ([c] + b);
      }
      SeparatorSplits(a[k..], c, b);
      assert s[..k] == a[..k];
      assert s[k..] == a[k..] + [c] + b;
    }
  }

  /** The digits at the end of a string, as the run a scan still has open there. */
  function OpenRun(p: seq<char>): (q: seq<char>)
    ensures |q| <= |p|
    ensures forall i :: 0 <= i < |q| ==> IsDigit(q[i])
    ensures |q| < |p| ==> !IsDigit(p[|p| - |q| - 1])
  {
    if p != [] && IsDigit(p[|p| - 1]) then OpenRun(p[..|p| - 1]) + [p[|p| - 1]] else []
  }

  /** The open run is the end of the string. */
  lemma {:induction false} OpenRunIsSuffix(p: seq<char>)
    ensures OpenRun(p) == p[|p| - |OpenRun(p)|..]
    decreases |p|
  {
    if p != [] && IsDigit(p[|p| - 1]) {
      OpenRunIsSuffix(p[..|p| - 1]);
    }
  }

  /** The runs a scan has closed: those of the text before the run still open at its end. */
  function ClosedRuns(t: seq<char>): seq<seq<char>>
  {
    Runs(t[..|t| - |OpenRun(t)|])
  }

  /** Text that ends in a separator has no run open: all its runs are closed. */
  lemma ClosedAtSeparator(t: seq<char>)
    requires t != [] && !IsDigit(t[|t| - 1])
    ensures ClosedRuns(t) == Runs(t)
  {
    assert t[..|t|] == t;
  }

  /**
   * The runs of a string are the runs closed before its open run, then the
   * open run itself when there is one.
   */
  lemma CutAt(p: seq<char>, j: nat)
    requires 0 < j <= |p|
    ensures p == p[..j - 1] + [p[j - 1]] + p[j..]
    ensures p[..j] == p[..j - 1] + [p[j - 1]]
  {
  }

  /** Digits after a separator make one more run. */
  lemma RunsBeforeDigits(a: seq<char>, c: char, q: seq<char>)
    requires !IsDigit(c)
    requires q != [] && forall i :: 0 <= i < |q| ==> IsDigit(q[i])
    ensures Runs(a + [c] + q) == Runs(a + [c]) + [q]
  {
    RunsAllDigits(q);
    SeparatorSplits(a, c, q);
    SeparatorSplits(a, c, []);
    assert a + [c] + [] == a + [c];
  }

  lemma RunsSplitOpen(p: seq<char>)
    ensures Runs(p) == ClosedRuns(p) + (if OpenRun(p) == [] then [] else [OpenRun(p)])
  {
    var q := OpenRun(p);
    var j := |p| - |q|;
    OpenRunIsSuffix(p);
    if q == [] {
      assert p[..j] == p;
    } else if j == 0 {
      assert p == q;
      RunsAllDigits(q);
    } else {
      CutAt(p, j);
      RunsBeforeDigits(p[..j - 1], p[j - 1], q);
    }
  }

  /**
   * One step of the scan: a digit extends the open run and closes nothing;
   * a separator closes the open run, if any, and leaves none open.
   */
  lemma ScanStep(p: seq<char>, c: char)
    ensures IsDigit(c) ==> ClosedRuns(p + [c]) == ClosedRuns(p) && OpenRun(p + [c]) == OpenRun(p) + [c]
    ensures !IsDigit(c) ==>
      OpenRun(p + [c]) == [] && ClosedRuns(p + [c]) == ClosedRuns(p) + (if OpenRun(p) == [] then [] else [OpenRun(p)])
  {
    var pc := p + [c];
    assert pc[..|pc| - 1] == p;
    if IsDigit(c) {
      var m := |p| - |OpenRun(p)|;
      assert pc[..m] == p[..m];
    } else {
      ClosedAtSeparator(pc);
      SeparatorSplits(p, c, []);
      assert p + [c] + [] == pc;
      RunsSplitOpen(p);
    }
  }

  /**
   * `split_line(line, len)`: the values of the digit runs the scan of
   * positions `0..len` (both included) closes, left to right; a null line
   * gives no values.  The caller must make position `len` readable.
   */
  method SplitLine(line: Option<seq<char>>, len: nat) returns (ret: seq<int>)
    requires line.Some? ==> len < |line.value| && ShortRuns(line.value[..len + 1])
    ensures line.None? ==> ret == []
    ensures line.Some? ==> ret == Values(ClosedRuns(line.value[..len + 1]))
    ensures forall i :: 0 <= i < |ret| ==> 0 <= ret[i] < 1_000_000_000
  {
    ret := [];
    if line.None? {
      return;
    }
    var t := line.value[..len + 1];
    ghost var seen: seq<char> := [];
    var pos := 0;
    var num := 0;
    var lastIsDigit := false;
    while pos <= len
      invariant 0 <= pos <= len + 1
      invariant seen == t[..pos]
      invariant lastIsDigit <==> OpenRun(seen) != []
      invariant num == Value(OpenRun(seen))
      invariant ret == Values(ClosedRuns(seen))
    {
      var c := line.value[pos];
      assert t[..pos + 1] == seen + [c];
      if '0' <= c <= '9' {
        num := num * 10 + DigitValue(c);
        lastIsDigit := true;
        assert num == Value(OpenRun(seen + [c])) && ret == Values(ClosedRuns(seen + [c])) by {
          ScanStep(seen, c);
        }
      } else {
        if lastIsDigit {
          ret := ret + [num];
          num := 0;
        }
        lastIsDigit := false;
        assert OpenRun(seen + [c]) == [] && ret == Values(ClosedRuns(seen + [c])) by {
          ScanStep(seen, c);
          ValuesSnoc(ClosedRuns(seen), OpenRun(seen));
        }
      }
      pos := pos + 1;
      seen := seen + [c];
    }
    assert seen == t;
    ClosedValuesBound(t);
  }

  /** With no run longer than 9 digits, every value is below 10^9. */
  lemma ClosedValuesBound(t: seq<char>)
    requires ShortRuns(t)
    ensures forall i :: 0 <= i < |ClosedRuns(t)| ==> 0 <= Values(ClosedRuns(t))[i] < 1_000_000_000
  {
    RunsSplitOpen(t);
    forall i | 0 <= i < |ClosedRuns(t)|
      ensures Values(ClosedRuns(t))[i] < 1_000_000_000
    {
      var r := ClosedRuns(t)[i];
      assert r == Runs(t)[i];
      ValueBound(r);
      Pow10Mono(|r|, 9);
    }
  }

  lemma ValuesSnoc(runs: seq<seq<char>>, r: seq<char>)
    ensures Values(runs + [r]) == Values(runs) + [Value(r)]
  {
    assert (runs + [r])[..|runs|] == runs;
  }

  lemma {:induction false} Pow10Mono(m: nat, n: nat)
    requires m <= n
    ensures Pow10(m) <= Pow10(n)
    decreases n
  {
    if m < n {
      Pow10Mono(m, n - 1);
    }
  }

  /** What `getline` leaves: the buffer it allocated, the line read into it and the terminator after it. */
  datatype LineBuffer = LineBuffer(bytes: seq<char>, nread: nat)
  {
    predicate Filled()
    {
      nread < |bytes| && bytes[nread] == NUL
    }

    /** The line read, newline included. */
    function Line(): seq<char>
      requires nread <= |bytes|
    {
      bytes[..nread]
    }
  }

  /** The values `readline` of src/test/adsl/mds/verify.cc takes from a line: the scan stops at the terminator. */
  function EpochLoad(buf: LineBuffer): seq<int>
    requires buf.Filled()
  {
    Values(ClosedRuns(buf.bytes[..buf.nread + 1]))
  }

  /**
   * The values are those of the digit runs of the line itself, whatever the
   * buffer holds after the terminator.
   */
  lemma EpochLoadIsLine(buf: LineBuffer)
    requires buf.Filled()
    ensures EpochLoad(buf) == Values(Runs(buf.Line()))
  {
    var t := buf.bytes[..buf.nread + 1];
    assert t == buf.Line() + [NUL] + [];
    SeparatorSplits(buf.Line(), NUL, []);
    ClosedAtSeparator(t);
  }

  /**
   * The values the pytorch tool's `readline` takes from a line: it passes the
   * buffer's capacity rather than the bytes read, so the scan covers the whole
   * allocation and the byte `beyond` it.
   */
  function PytorchEpochLoad(buf: LineBuffer, beyond: char): seq<int>
  {
    Values(ClosedRuns(buf.bytes + [beyond]))
  }

  lemma LineRuns()
    ensures Runs(['5', '\n']) == [['5']]
  {
    RunsAllDigits(['5']);
    assert ['5', '\n'] == ['5'] + ['\n'] + [];
    SeparatorSplits(['5'], '\n', []);
  }

  lemma BufferRuns()
    ensures Runs(['5', '\n', NUL, '7', NUL]) == [['5'], ['7']]
  {
    RunsAllDigits(['5']);
    RunsAllDigits(['7']);
    assert ['5', '\n', NUL, '7', NUL] == ['5'] + ['\n'] + ([] + [NUL] + (['7'] + [NUL] + []));
    SeparatorSplits(['7'], NUL, []);
    SeparatorSplits([], NUL, ['7'] + [NUL] + []);
    SeparatorSplits(['5'], '\n', [] + [NUL] + (['7'] + [NUL] + []));
  }

  /**
   * A stale "7" left in the buffer after the line "5\n" and its terminator
   * becomes a second value: the pytorch tool reads [5, 7] where the line
   * holds only 5.
   */
  lemma PytorchStaleBytes()
    ensures var buf := LineBuffer(['5', '\n', NUL, '7'], 2);
      && buf.Filled()
      && Values(Runs(buf.Line())) == [5]
      && EpochLoad(buf) == [5]
      && PytorchEpochLoad(buf, NUL) == [5, 7]
  {
    var buf := LineBuffer(['5', '\n', NUL, '7'], 2);
    assert buf.Line() == ['5', '\n'];
    LineRuns();
    assert Value(['5']) == 5;
    EpochLoadIsLine(buf);
    var all := buf.bytes + [NUL];
    assert all == ['5', '\n', NUL, '7', NUL];
    BufferRuns();
    assert Value(['7']) == 7;
    ClosedAtSeparator(all);
  }

  /** The histories of `loads`, each shifted by one epoch with its value from `epoch` entering. */
  method ShiftAll(loads: seq<LoadArray>, epoch: seq<int>)
    requires |epoch| >= |loads|
    requires forall i, j :: 0 <= i < j < |loads| ==> loads[i] != loads[j]
    modifies set i | 0 <= i < |loads| :: loads[i]
    ensures forall i :: 0 <= i < |loads| ==> loads[i].nums == Shifted(old(loads[i].nums), 1, epoch[i] as real)
  {
    for i := 0 to |loads|
      invariant forall k :: 0 <= k < i ==> loads[k].nums == Shifted(old(loads[k].nums), 1, epoch[k] as real)
      invariant forall k :: i <= k < |loads| ==> loads[k].nums == old(loads[k].nums)
    {
      loads[i].Shift(1, epoch[i] as real);
    }
  }

  /**
   * `readline` of src/test/adsl/mds/verify.cc: at the end of the trace
   * nothing changes; otherwise every directory's history moves one epoch
   * on with the line's value for it entering.  The line must hold a value
   * for every directory (the length check is commented out).
   */
  method ReadLine(loads: seq<LoadArray>, got: Option<LineBuffer>) returns (ok: bool)
    requires forall i, j :: 0 <= i < j < |loads| ==> loads[i] != loads[j]
    requires got.Some? ==> got.value.Filled() && ShortRuns(got.value.bytes[..got.value.nread + 1])
    requires got.Some? ==> |EpochLoad(got.value)| >= |loads|
    modifies set i | 0 <= i < |loads| :: loads[i]
    ensures ok <==> got.Some?
    ensures !ok ==> forall i :: 0 <= i < |loads| ==> loads[i].nums == old(loads[i].nums)
    ensures ok ==> forall i :: 0 <= i < |loads| ==>
      loads[i].nums == Shifted(old(loads[i].nums), 1, EpochLoad(got.value)[i] as real)
  {
    if got.None? {
      return false;
    }
    var buf := got.value;
    var epochLoad := SplitLine(Some(buf.bytes), buf.nread);
    ShiftAll(loads, epochLoad);
    return true;
  }

  /**
   * `readline` of src/test/adsl/mds/pytorch/verify.cc as written: the line
   * is scanned over the buffer's whole capacity and the byte past it.
   */
  method ReadLinePytorch(loads: seq<LoadArray>, got: Option<LineBuffer>, beyond: char) returns (ok: bool)
    requires forall i, j :: 0 <= i < j < |loads| ==> loads[i] != loads[j]
    requires got.Some? ==> ShortRuns(got.value.bytes + [beyond])
    requires got.Some? ==> |PytorchEpochLoad(got.value, beyond)| >= |loads|
    modifies set i | 0 <= i < |loads| :: loads[i]
    ensures ok <==> got.Some?
    ensures !ok ==> forall i :: 0 <= i < |loads| ==> loads[i].nums == old(loads[i].nums)
    ensures ok ==> forall i :: 0 <= i < |loads| ==>
      loads[i].nums == Shifted(old(loads[i].nums), 1, PytorchEpochLoad(got.value, beyond)[i] as real)
  {
    if got.None? {
      return false;
    }
    var buf := got.value;
    var memory := buf.bytes + [beyond];
    assert memory[..|buf.bytes| + 1] == memory;
    var epochLoad := SplitLine(Some(memory), |buf.bytes|);
    ShiftAll(loads, epochLoad);
    return true;
  }
}
