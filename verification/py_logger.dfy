/**
 * `PyLogger` (src/mds/adsl/PyPredictor.cc): collects what a Python predictor
 * script writes to its standard output in a fixed buffer and hands it to the
 * debug log one line at a time, cutting lines longer than the buffer into
 * pieces. The debug log is modelled as the sequence of lines handed to it.
 */
module PyLoggers {

  const NUL: char := '\0'
  const NEWLINE: char := '\n'
  /** `PYLOGGER_BUF_SIZE`. */
  const BUF_SIZE: nat := 4096
  /** `PYLOGGER_FLUSH_SIZE`: the longest text the buffer holds before its terminator. */
  const FLUSH_SIZE: nat := BUF_SIZE - 1

  /** A C string: no character is the terminator. */
  predicate NoNul(s: string)
  {
    forall i :: 0 <= i < |s| ==> s[i] != NUL
  }

  /** `s` with its line breaks taken out. */
  function Unbroken(s: string): string
  {
    if s == [] then [] else (if s[0] == NEWLINE then [] else [s[0]]) + Unbroken(s[1..])
  }

  /** No line of a log is longer than the buffer holds. */
  predicate ShortLines(lines: seq<string>)
  {
    lines == [] || (ShortLines(lines[..|lines| - 1]) && |lines[|lines| - 1]| <= FLUSH_SIZE)
  }

  lemma {:induction false} ShortLinesAt(lines: seq<string>, i: nat)
    requires ShortLines(lines) && i < |lines|
    ensures |lines[i]| <= FLUSH_SIZE
  {
    if i < |lines| - 1 {
      ShortLinesAt(lines[..|lines| - 1], i);
    }
  }

  /** All lines of a log, joined without separators. */
  function Joined(lines: seq<string>): string
  {
    if lines == [] then [] else Joined(lines[..|lines| - 1]) + lines[|lines| - 1]
  }

  /** The number of characters before the first line break, or the length when there is none. */
  function LineLength(s: string): (n: nat)
    ensures n <= |s|
  {
    if s == [] || s[0] == NEWLINE then 0 else 1 + LineLength(s[1..])
  }

  /** The first line holds no break, and a break ends it unless the text ends first. */
  lemma {:induction false} LineLengthBounds(s: string)
    ensures forall i :: 0 <= i < LineLength(s) ==> s[i] != NEWLINE
    ensures LineLength(s) < |s| ==> s[LineLength(s)] == NEWLINE
  {
    if s != [] && s[0] != NEWLINE {
      LineLengthBounds(s[1..]);
    }
  }

  lemma {:induction false} UnbrokenAppend(a: string, b: string)
    ensures Unbroken(a + b) == Unbroken(a) + Unbroken(b)
  {
    if a == [] {
      assert a + b == b;
    } else {
      var ab := a + b;
      assert ab[0] == a[0] && ab[1..] == a[1..] + b;
      UnbrokenAppend(a[1..], b);
    }
  }

  /** Text without line breaks is kept as it is. */
  lemma {:induction false} UnbrokenOfLine(s: string)
    requires forall i :: 0 <= i < |s| ==> s[i] != NEWLINE
    ensures Unbroken(s) == s
  {
    if s != [] {
      UnbrokenOfLine(s[1..]);
    }
  }

  /**
   * Splitting the rest of a message at `k` characters of its first line: the
   * part before is kept as it is.
   */
  lemma SplitLine(s: string, k: nat)
    requires k <= LineLength(s)
    ensures Unbroken(s) == s[..k] + Unbroken(s[k..])
    ensures LineLength(s[k..]) == LineLength(s) - k
  {
    assert s == s[..k] + s[k..];
    LineLengthBounds(s);
    UnbrokenAppend(s[..k], s[k..]);
    UnbrokenOfLine(s[..k]);
    LineLengthDrop(s, k);
  }

  lemma {:induction false} LineLengthDrop(s: string, k: nat)
    requires k <= LineLength(s)
    ensures LineLength(s[k..]) == LineLength(s) - k
  {
    if k > 0 {
      LineLengthDrop(s[1..], k - 1);
      assert s[1..][k - 1..] == s[k..];
    }
  }

  /** The first line of the text from `p` is kept as it is ahead of the rest. */
  lemma LineAhead(m: string, p: nat, k: nat)
    requires p <= |m| && k == LineLength(m[p..])
    ensures p + k <= |m| && Unbroken(m[p..]) == m[p..p + k] + Unbroken(m[p + k..])
  {
    SplitLine(m[p..], k);
    assert m[p..][k..] == m[p + k..];
    assert m[p..][..k] == m[p..p + k];
  }

  /** The line break that ends a line is dropped. */
  lemma SkipBreak(s: string, p: nat, k: nat)
    requires p <= |s| && k == LineLength(s[p..]) && p + k < |s|
    ensures Unbroken(s[p + k..]) == Unbroken(s[p + k + 1..])
  {
    LineLengthBounds(s[p..]);
    assert s[p..][k] == s[p + k];
    assert s[p + k..][1..] == s[p + k + 1..];
  }

  /** Lines logged after a log, and the text held after them, continue the log's text. */
  lemma TextAfter(log: seq<string>, lines: seq<string>, held: string, pending: string, tail: string)
    requires Joined(lines) + held == pending + tail
    ensures Joined(log + lines) + held == (Joined(log) + pending) + tail
  {
    JoinedConcat(log, lines);
    calc {
      Joined(log + lines) + held;
      (Joined(log) + Joined(lines)) + held;
      Joined(log) + (Joined(lines) + held);
      Joined(log) + (pending + tail);
    }
  }

  /** Joining two logs one after the other joins their lines in order. */
  lemma {:induction false} JoinedConcat(a: seq<string>, b: seq<string>)
    ensures Joined(a + b) == Joined(a) + Joined(b)
    decreases |b|
  {
    if b == [] {
      assert a + b == a;
    } else {
      var front := b[..|b| - 1];
      assert (a + b)[..|a + b| - 1] == a + front;
      JoinedConcat(a, front);
      calc {
        Joined(a + b);
        Joined(a + front) + b[|b| - 1];
        (Joined(a) + Joined(front)) + b[|b| - 1];
        Joined(a) + (Joined(front) + b[|b| - 1]);
      }
    }
  }

  /** What a write hands to the log, line by line, and what it leaves in the buffer. */
  /** What a write hands to the log, line by line, and what it leaves in the buffer. */
  datatype Output = Output(lines: seq<string>, held: string)

  /**
   * The main loop of `_write` on the text of `m` from `p` on, with the
   * buffer empty: a line longer than `FLUSH_SIZE` gives up its next
   * `FLUSH_SIZE` characters as one line of the log; a line ended by a break
   * goes to the log without the break; a last line without a break is held
   * in the buffer.
   */
  function Lines(m: string, p: nat): Output
    requires p <= |m|
    decreases |m| - p
  {
    if p == |m| then Output([], [])
    else
      var e := LineEnd(m, p);
      if e - p > FLUSH_SIZE then
        var o := Lines(m, p + FLUSH_SIZE);
        Output([m[p..p + FLUSH_SIZE]] + o.lines, o.held)
      else if e < |m| then
        var o := Lines(m, e + 1);
        Output([m[p..e]] + o.lines, o.held)
      else
        Output([], m[p..])
  }

  /** The position of the first line break from `p` on, or the length when there is none. */
  function LineEnd(m: string, p: nat): (e: nat)
    requires p <= |m|
    ensures p <= e <= |m|
    decreases |m| - p
  {
    if p == |m| || m[p] == NEWLINE then p else LineEnd(m, p + 1)
  }

  lemma {:induction false} LineEndLength(m: string, p: nat)
    requires p <= |m|
    ensures LineEnd(m, p) == p + LineLength(m[p..])
    decreases |m| - p
  {
    if p < |m| && m[p] != NEWLINE {
      LineEndLength(m, p + 1);
      assert m[p..][1..] == m[p + 1..];
    }
  }

  /**
   * `_write(m)` with `pending` in the buffer: the message's first line, as
   * much of it as fits, completes the pending text; if the message goes on,
   * that text goes to the log, a break ending the line is skipped and the
   * rest is written as with an empty buffer.
   */
  function Fed(pending: string, m: string): Output
    requires |pending| <= FLUSH_SIZE
  {
    if pending == [] then Lines(m, 0)
    else
      var k := Room(m, |pending|);
      if k == |m| then Output([], pending + m)
      else
        var o := Lines(m, if k == LineLength(m) then k + 1 else k);
        Output([pending + m[..k]] + o.lines, o.held)
  }

  /**
   * The cases of `Fed` with text pending: the message's first line fits and
   * ends the message, or the completed text is logged and the rest, after a
   * break that ended the line, is written as with an empty buffer.
   */
  lemma FedCompletes(pending: string, m: string, k: nat, q: nat)
    requires pending != [] && |pending| <= FLUSH_SIZE && k == Room(m, |pending|)
    requires q == if k == LineLength(m) then k + 1 else k
    ensures k == |m| ==> Fed(pending, m) == Output([], pending + m)
    ensures k < |m| ==> q <= |m| && Fed(pending, m) == Output([pending + m[..k]] + Lines(m, q).lines, Lines(m, q).held)
  {
    if k < |m| && k == LineLength(m) {
      assert q == k + 1 <= |m|;
    }
  }

  /** How much of the first line of `m` completes a buffered text of `buffered` characters. */
  function Room(m: string, buffered: nat): (k: nat)
    requires buffered <= FLUSH_SIZE
    ensures k <= LineLength(m) && k <= |m| && buffered + k <= FLUSH_SIZE
    ensures k == LineLength(m) || buffered + k == FLUSH_SIZE
  {
    Min(LineLength(m), FLUSH_SIZE - buffered)
  }

  /** The length of the last piece a line of `n` characters is cut into. */
  function LastPiece(n: nat): (r: nat)
    ensures r <= n && r <= FLUSH_SIZE && (n > 0 ==> r > 0)
  {
    if n > FLUSH_SIZE then LastPiece(n - FLUSH_SIZE) else n
  }

  lemma {:induction false} JoinedCons(line: string, lines: seq<string>)
    ensures Joined([line] + lines) == line + Joined(lines)
    decreases |lines|
  {
    var all := [line] + lines;
    if lines == [] {
      assert all[..0] == [];
    } else {
      assert all[..|all| - 1] == [line] + lines[..|lines| - 1];
      JoinedCons(line, lines[..|lines| - 1]);
    }
  }

  /**
   * Nothing is lost or added: the logged lines, joined, followed by the held
   * text are the text from `p` on without its breaks.
   */
  lemma {:induction false} LinesText(m: string, p: nat)
    requires p <= |m|
    ensures Joined(Lines(m, p).lines) + Lines(m, p).held == Unbroken(m[p..])
    decreases |m| - p
  {
    if p < |m| {
      var n := LineLength(m[p..]);
      if n > FLUSH_SIZE {
        LinesText(m, p + FLUSH_SIZE);
        PieceAhead(m, p);
        TextStep(Lines(m, p), m[p..p + FLUSH_SIZE], Lines(m, p + FLUSH_SIZE), Unbroken(m[p..]), Unbroken(m[p + FLUSH_SIZE..]));
      } else if p + n < |m| {
        var next := p + n + 1;
        LinesText(m, next);
        LineEnds(m, p, n, next);
        TextStep(Lines(m, p), m[p..p + n], Lines(m, next), Unbroken(m[p..]), Unbroken(m[next..]));
      } else {
        LastLineHeld(m, p, n);
      }
    } else {
      assert m[p..] == [];
    }
  }

  /** A line logged ahead of an output keeps the text: the line, then the output's text. */
  lemma TextStep(whole: Output, line: string, rest: Output, text: string, restText: string)
    requires whole == Output([line] + rest.lines, rest.held)
    requires Joined(rest.lines) + rest.held == restText && text == line + restText
    ensures Joined(whole.lines) + whole.held == text
  {
    JoinedCons(line, rest.lines);
  }

  /** Every logged line and the held text fit the buffer and hold no break. */
  lemma {:induction false} LinesShort(m: string, p: nat)
    requires p <= |m|
    ensures ShortOutput(Lines(m, p))
    decreases |m| - p
  {
    if p < |m| {
      var n := LineLength(m[p..]);
      if n > FLUSH_SIZE {
        LinesShort(m, p + FLUSH_SIZE);
        PieceAhead(m, p);
        FirstLineNoBreak(m, p, FLUSH_SIZE);
        ShortStep(Lines(m, p), m[p..p + FLUSH_SIZE], Lines(m, p + FLUSH_SIZE));
      } else if p + n < |m| {
        var next := p + n + 1;
        LinesShort(m, next);
        LineEnds(m, p, n, next);
        FirstLineNoBreak(m, p, n);
        ShortStep(Lines(m, p), m[p..p + n], Lines(m, next));
      } else {
        LastLineHeld(m, p, n);
        FirstLineNoBreak(m, p, n);
      }
    }
  }

  /** The first `k` characters of the first line of the text from `p` hold no break. */
  lemma FirstLineNoBreak(m: string, p: nat, k: nat)
    requires p <= |m| && k <= LineLength(m[p..])
    ensures p + k <= |m| && NoBreak(m[p..p + k])
  {
    LineLengthBounds(m[p..]);
    assert forall i :: 0 <= i < k ==> m[p..p + k][i] == m[p..][i];
  }

  /** Every line of `o`, and its held text, fit the buffer and hold no break. */
  predicate ShortOutput(o: Output)
  {
    (forall i :: 0 <= i < |o.lines| ==> |o.lines[i]| <= FLUSH_SIZE && NoBreak(o.lines[i])) &&
    |o.held| <= FLUSH_SIZE && NoBreak(o.held)
  }

  /** A short line without a break logged ahead of a short output. */
  lemma ShortStep(whole: Output, line: string, rest: Output)
    requires whole == Output([line] + rest.lines, rest.held)
    requires |line| <= FLUSH_SIZE && NoBreak(line) && ShortOutput(rest)
    ensures ShortOutput(whole)
  {
    assert forall i :: 1 <= i < |whole.lines| ==> whole.lines[i] == rest.lines[i - 1];
  }

  /** No character is a line break. */
  predicate NoBreak(s: string)
  {
    forall i :: 0 <= i < |s| ==> s[i] != NEWLINE
  }

  /** A line of at most `FLUSH_SIZE` characters ended by a break goes to the log as it is. */
  lemma LinesBreakEndsLine(m: string, p: nat, n: nat)
    requires p + n < |m| && NoBreak(m[p..p + n]) && m[p + n] == NEWLINE && n <= FLUSH_SIZE
    ensures Lines(m, p) == Output([m[p..p + n]] + Lines(m, p + n + 1).lines, Lines(m, p + n + 1).held)
  {
    assert m[p..] == m[p..p + n] + m[p + n..];
    LineLengthOfLine(m[p..p + n], m[p + n..]);
    LineEndLength(m, p);
  }

  /** The first line of `line + rest` is `line` when `rest` starts with a break. */
  lemma {:induction false} LineLengthOfLine(line: string, rest: string)
    requires NoBreak(line) && rest != [] && rest[0] == NEWLINE
    ensures LineLength(line + rest) == |line|
    decreases |line|
  {
    if line == [] {
      assert line + rest == rest;
    } else {
      assert (line + rest)[1..] == line[1..] + rest;
      LineLengthOfLine(line[1..], rest);
    }
  }

  /** The text from `p` on, when its first line is longer than the buffer, gives up its next `FLUSH_SIZE` characters. */
  lemma PieceAhead(m: string, p: nat)
    requires p <= |m| && LineLength(m[p..]) > FLUSH_SIZE
    ensures p + FLUSH_SIZE <= |m| && LineLength(m[p + FLUSH_SIZE..]) == LineLength(m[p..]) - FLUSH_SIZE
    ensures Unbroken(m[p..]) == m[p..p + FLUSH_SIZE] + Unbroken(m[p + FLUSH_SIZE..])
    ensures Lines(m, p) == Output([m[p..p + FLUSH_SIZE]] + Lines(m, p + FLUSH_SIZE).lines, Lines(m, p + FLUSH_SIZE).held)
  {
    LineEndLength(m, p);
    SplitLine(m[p..], FLUSH_SIZE);
    assert m[p..][FLUSH_SIZE..] == m[p + FLUSH_SIZE..];
    assert m[p..][..FLUSH_SIZE] == m[p..p + FLUSH_SIZE];
  }

  /** Logging the next piece of a line longer than the buffer leaves the lines of the text after the piece to come. */
  lemma PieceStep(m: string, p: nat, log0: seq<string>, log1: seq<string>)
    requires p <= |m| && LineLength(m[p..]) > FLUSH_SIZE
    requires log1 == log0 + [m[p..p + FLUSH_SIZE]]
    ensures p + FLUSH_SIZE <= |m| && LineLength(m[p + FLUSH_SIZE..]) == LineLength(m[p..]) - FLUSH_SIZE
    ensures log1 + Lines(m, p + FLUSH_SIZE).lines == log0 + Lines(m, p).lines
    ensures Lines(m, p + FLUSH_SIZE).held == Lines(m, p).held
  {
    PieceAhead(m, p);
    LoggedAhead(log0, m[p..p + FLUSH_SIZE], Lines(m, p + FLUSH_SIZE).lines, Lines(m, p).lines);
  }

  /** A line of the text from `p` ended by a break goes to the log as it is, and the break is dropped. */
  lemma LineEnds(m: string, p: nat, n: nat, next: nat)
    requires p <= |m| && n == LineLength(m[p..]) && n <= FLUSH_SIZE && p + n < |m| && next == p + n + 1
    ensures m[p + n] == NEWLINE
    ensures Unbroken(m[p..]) == m[p..p + n] + Unbroken(m[next..])
    ensures Lines(m, p) == Output([m[p..p + n]] + Lines(m, next).lines, Lines(m, next).held)
  {
    LineEndLength(m, p);
    LineAhead(m, p, n);
    SkipBreak(m, p, n);
    LineLengthBounds(m[p..]);
    assert m[p + n] == m[p..][n];
  }

  /** Logging the line of the text from `p`, ended by a break, leaves the lines of the text after the break to come. */
  lemma LineStep(m: string, p: nat, n: nat, next: nat, log0: seq<string>, log1: seq<string>)
    requires p <= |m| && n == LineLength(m[p..]) && n <= FLUSH_SIZE && p + n < |m| && next == p + n + 1
    requires log1 == log0 + [m[p..p + n]]
    ensures log1 + Lines(m, next).lines == log0 + Lines(m, p).lines
    ensures Lines(m, next).held == Lines(m, p).held
  {
    LineEnds(m, p, n, next);
    LoggedAhead(log0, m[p..p + n], Lines(m, next).lines, Lines(m, p).lines);
  }

  /**
   * One round of the main loop from `p0`: after the pieces that bring the
   * text to `q` with the log at `log1`, the line from `q` is either held, or
   * logged with its break skipped, which brings the text to `p`.
   */
  lemma RoundLines(m: string, p0: nat, q: nat, p: nat, done: bool,
                   log0: seq<string>, log1: seq<string>, log2: seq<string>, held: string)
    requires p0 <= q <= |m| && LineLength(m[q..]) <= FLUSH_SIZE
    requires log1 + Lines(m, q).lines == log0 + Lines(m, p0).lines && Lines(m, q).held == Lines(m, p0).held
    requires done ==> q + LineLength(m[q..]) == |m| && log2 == log1 && held == m[q..]
    requires !done ==> q + LineLength(m[q..]) < |m| && p == q + LineLength(m[q..]) + 1 && log2 == log1 + [m[q..p - 1]]
    ensures done ==> log2 == log0 + Lines(m, p0).lines && held == Lines(m, p0).held
    ensures !done ==> p <= |m| && log2 + Lines(m, p).lines == log0 + Lines(m, p0).lines && Lines(m, p).held == Lines(m, p0).held
  {
    var n := LineLength(m[q..]);
    if done {
      LastLineHeld(m, q, n);
      assert log1 + Lines(m, q).lines == log1;
    } else {
      LineStep(m, q, n, p, log1, log2);
    }
  }

  /** A line logged ahead of the lines still to come. */
  lemma LoggedAhead(log: seq<string>, line: string, rest: seq<string>, all: seq<string>)
    requires all == [line] + rest
    ensures log + [line] + rest == log + all
  {
  }

  /** A last line without a break is held as it is. */
  lemma LastLineHeld(m: string, p: nat, n: nat)
    requires p <= |m| && n == LineLength(m[p..]) && n <= FLUSH_SIZE && p + n == |m|
    ensures m[p..] == m[p..p + n] && Unbroken(m[p..]) == m[p..]
    ensures Lines(m, p) == Output([], m[p..])
  {
    LineEndLength(m, p);
    LineLengthBounds(m[p..]);
    UnbrokenOfLine(m[p..]);
  }

  /** A message without a break that fits the buffer beside the pending text is only buffered. */
  lemma {:induction false} FedWithoutBreak(pending: string, m: string)
    requires NoBreak(m) && |pending| + |m| <= FLUSH_SIZE
    ensures Fed(pending, m) == Output([], pending + m)
  {
    LineLengthWithoutBreak(m);
    if pending == [] {
      assert pending + m == m && m[0..] == m;
      LineEndLength(m, 0);
    }
  }

  lemma {:induction false} LineLengthWithoutBreak(m: string)
    requires NoBreak(m)
    ensures LineLength(m) == |m|
    decreases |m|
  {
    if m != [] {
      LineLengthWithoutBreak(m[1..]);
    }
  }

  /**
   * What a write with text pending does to the text: the pending text and
   * the message without its breaks are exactly the logged lines joined and
   * the held text.
   */
  lemma {:induction false} FedText(pending: string, m: string)
    requires |pending| <= FLUSH_SIZE
    ensures Joined(Fed(pending, m).lines) + Fed(pending, m).held == pending + Unbroken(m)
  {
    if pending == [] {
      LinesText(m, 0);
      assert pending + Unbroken(m) == Unbroken(m) && m[0..] == m;
    } else {
      var n := LineLength(m);
      var k := Min(n, FLUSH_SIZE - |pending|);
      SplitLine(m, k);
      if k == |m| {
        assert m[k..] == [] && m[..k] == m;
      } else {
        var q := if k == n then k + 1 else k;
        if k == n {
          assert m[0..] == m;
          SkipBreak(m, 0, n);
        }
        FedTextAfterFirst(pending, m[..k], m, q, Unbroken(m[k..]));
      }
    }
  }

  /** The step of `FedText` once the first line is cut: the completed text, then the rest. */
  lemma {:induction false} FedTextAfterFirst(pending: string, first: string, m: string, q: nat, tail: string)
    requires q <= |m| && Unbroken(m[q..]) == tail
    ensures Joined([pending + first] + Lines(m, q).lines) + Lines(m, q).held == pending + (first + tail)
  {
    LinesText(m, q);
    JoinedCons(pending + first, Lines(m, q).lines);
  }

  /** Every line a write hands to the log, and the text it leaves, fit the buffer. */
  lemma {:induction false} FedShort(pending: string, m: string)
    requires |pending| <= FLUSH_SIZE
    ensures forall i :: 0 <= i < |Fed(pending, m).lines| ==> |Fed(pending, m).lines[i]| <= FLUSH_SIZE
    ensures |Fed(pending, m).held| <= FLUSH_SIZE
  {
    if pending == [] {
      LinesShort(m, 0);
    } else {
      var k := Room(m, |pending|);
      if k < |m| {
        LinesShort(m, if k == LineLength(m) then k + 1 else k);
      }
    }
  }

  class PyLogger {
    /** `buf`: a NUL-terminated text. */
    const buf: array<char>
    /** The position of the terminator, which the source finds with `strlen`. */
    ghost var len: nat
    /** The lines handed to the debug log so far. */
    var log: seq<string>

    ghost predicate Valid()
      reads this, buf
    {
      buf.Length == BUF_SIZE && len <= FLUSH_SIZE && buf[len] == NUL &&
      (forall i :: 0 <= i < len ==> buf[i] != NUL) &&
      ShortLines(log)
    }

    /** The text waiting in the buffer. */
    ghost function Pending(): string
      reads this, buf
      requires Valid()
    {
      buf[..len]
    }

    /** Everything written so far, as it reached the log or waits in the buffer. */
    ghost function Text(): string
      reads this, buf
      requires Valid()
    {
      Joined(log) + Pending()
    }

    /** `PyLogger()`: a zero-filled buffer and nothing logged. */
    constructor ()
      ensures Valid() && len == 0 && log == [] && fresh(buf)
    {
      buf := new char[BUF_SIZE](_ => NUL);
      len := 0;
      log := [];
    }

    /** `strlen(buf)`. */
    method StrLen() returns (n: nat)
      requires Valid()
      ensures n == len
    {
      n := 0;
      while buf[n] != NUL
        invariant n <= len
        decreases len - n
      {
        n := n + 1;
      }
    }

    /** `get_flush_pos(m)` on the text of `m` from `from`: the length of its first line. */
    static method GetFlushPos(m: string, from: nat) returns (pos: nat)
      requires from <= |m|
      ensures pos == LineLength(m[from..])
    {
      pos := 0;
      var p := from;
      while p < |m| && m[p] != NEWLINE
        invariant from <= p <= |m| && pos == p - from
        invariant LineLength(m[from..]) == pos + LineLength(m[p..])
      {
        assert m[p..][1..] == m[p + 1..];
        p := p + 1;
        pos := pos + 1;
      }
    }

    /**
     * `strncpy(buf + buflen, m, k)` followed by the terminator, for `k`
     * characters that are all there and fit.
     */
    method CopyIn(m: string, from: nat, k: nat)
      requires Valid() && NoNul(m) && from + k <= |m| && len + k <= FLUSH_SIZE
      modifies buf, this`len
      ensures Valid() && log == old(log) && len == old(len) + k
      ensures Pending() == old(Pending()) + m[from..from + k]
    {
      var at := StrLen();
      var i := 0;
      while i < k
        modifies buf
        invariant 0 <= i <= k
        invariant forall j :: 0 <= j < at ==> buf[j] == old(buf[j])
        invariant forall j :: at <= j < at + i ==> buf[j] == m[from + (j - at)]
      {
        buf[at + i] := m[from + i];
        i := i + 1;
      }
      buf[at + k] := NUL;
      len := at + k;
      assert buf[..len] == old(buf[..len]) + m[from..from + k];
    }

    /** `predictor_dout(0) << buf` followed by `*buf = '\0'`. */
    method EmitAndEmpty()
      requires Valid()
      modifies buf, this`len, this`log
      ensures Valid() && len == 0 && log == old(log) + [old(Pending())]
    {
      var n := StrLen();
      assert (log + [buf[..n]])[..|log|] == log;
      log := log + [buf[..n]];
      buf[0] := NUL;
      len := 0;
    }

    /** `_flush()`: hands the buffer to the log when it holds anything. */
    method Flush()
      requires Valid()
      modifies buf, this`len, this`log
      ensures Valid() && len == 0
      ensures log == if old(len) == 0 then old(log) else old(log) + [old(Pending())]
    {
      var buflen := StrLen();
      if buflen > 0 {
        EmitAndEmpty();
      }
    }

    /**
     * `_flush(m, n)` with `m` the text from `from`: appends at most `n`
     * characters, as many as fit, to the buffer and hands the buffer to the log.
     */
    method FlushWith(m: string, from: nat, n: nat)
      requires Valid() && NoNul(m) && from <= |m|
      modifies buf, this`len, this`log
      ensures Valid() && len == 0
      ensures var k := Min(Min(n, FLUSH_SIZE - old(len)), |m| - from);
        log == old(log) + [old(Pending()) + m[from..from + k]]
      ensures old(len) == 0 && n <= FLUSH_SIZE && from + n <= |m| ==> log == old(log) + [m[from..from + n]]
    {
      var buflen := StrLen();
      var bufleft := FLUSH_SIZE - buflen;
      var k := if n > bufleft then bufleft else n;
      // strncpy stops at the message's terminator
      k := Min(k, |m| - from);
      CopyIn(m, from, k);
      assert old(len) == 0 ==> Pending() == m[from..from + k];
      EmitAndEmpty();
    }

    /**
     * The first block of `_write(m)`, run when the buffer already holds text:
     * as much of the message's first line as fits (`Room`) completes the
     * buffered text. When the message goes on, the buffer is handed to the
     * log and a line break that ended the line is skipped; otherwise `_write`
     * is done.
     */
    method CompleteBuffered(m: string) returns (p: nat, flushLen: nat, done: bool)
      requires Valid() && NoNul(m) && len > 0
      modifies buf, this`len, this`log
      ensures Valid() && p <= |m|
      ensures done <==> Room(m, old(len)) == |m|
      ensures done ==> p == |m| && log == old(log) && Pending() == old(Pending()) + m
      ensures !done ==> (len == 0 && flushLen == LineLength(m[p..]) &&
        log == old(log) + [old(Pending()) + m[..Room(m, old(len))]] &&
        p == if Room(m, old(len)) == LineLength(m) then Room(m, old(len)) + 1 else Room(m, old(len)))
    {
      ghost var pending0 := Pending();
      var buflen := StrLen();
      var bufleft := FLUSH_SIZE - buflen;
      flushLen := GetFlushPos(m, 0);
      assert m[0..] == m;
      var realFlushLen := Min(flushLen, bufleft);
      assert realFlushLen == Room(m, old(len));
      LineLengthDrop(m, realFlushLen);
      assert m[0..realFlushLen] == m[..realFlushLen];
      CopyIn(m, 0, realFlushLen);
      p, flushLen := realFlushLen, flushLen - realFlushLen;
      assert Pending() == pending0 + m[..p];
      if p < |m| {
        Flush();
        assert log == old(log) + [pending0 + m[..p]];
        if flushLen == 0 {
          p := p + 1;
          flushLen := GetFlushPos(m, p);
        }
        done := false;
      } else {
        assert m[..p] == m;
        done := true;
      }
    }

    /**
     * The inner loop of `_write(m)`, with the buffer empty: while the current
     * line is longer than the buffer, its next `FLUSH_SIZE` characters go to
     * the log as one piece.
     */
    method WritePieces(m: string, p0: nat, flushLen0: nat) returns (p: nat, flushLen: nat)
      requires Valid() && NoNul(m) && len == 0 && p0 <= |m| && flushLen0 == LineLength(m[p0..])
      modifies buf, this`len, this`log
      ensures Valid() && len == 0 && p0 <= p <= |m| && flushLen <= FLUSH_SIZE
      ensures flushLen == LineLength(m[p..]) && flushLen == LastPiece(flushLen0)
      ensures log + Lines(m, p).lines == old(log) + Lines(m, p0).lines && Lines(m, p).held == Lines(m, p0).held
    {
      p, flushLen := p0, flushLen0;
      while flushLen > FLUSH_SIZE
        invariant Valid() && len == 0 && p0 <= p <= |m|
        invariant flushLen == LineLength(m[p..]) && LastPiece(flushLen) == LastPiece(flushLen0)
        invariant log + Lines(m, p).lines == old(log) + Lines(m, p0).lines && Lines(m, p).held == Lines(m, p0).held
      {
        ghost var log0 := log;
        FlushWith(m, p, FLUSH_SIZE);
        PieceStep(m, p, log0, log);
        p, flushLen := p + FLUSH_SIZE, flushLen - FLUSH_SIZE;
      }
    }

    /**
     * The end of one round of the main loop of `_write(m)`, once the pieces
     * of a long line are gone and the buffer is empty: a line ended by a
     * break goes to the log and the break is skipped, or a last line without
     * a break is copied into the buffer and `_write` is done.
     */
    method WriteLine(m: string, p0: nat, flushLen0: nat) returns (p: nat, flushLen: nat, done: bool)
      requires Valid() && NoNul(m) && len == 0 && p0 <= |m| && flushLen0 == LineLength(m[p0..]) && flushLen0 <= FLUSH_SIZE
      modifies buf, this`len, this`log
      ensures Valid() && p0 + flushLen0 <= p <= |m|
      ensures done <==> p0 + flushLen0 == |m|
      ensures done ==> p == |m| && log == old(log) && Pending() == m[p0..]
      ensures !done ==> (len == 0 && p == p0 + flushLen0 + 1 && m[p - 1] == NEWLINE &&
        log == old(log) + [m[p0..p - 1]] && flushLen == LineLength(m[p..]))
    {
      p, flushLen := p0, flushLen0;
      if p + flushLen < |m| {
        LineLengthBounds(m[p..]);
        assert m[p + flushLen] == m[p..][flushLen];
        FlushWith(m, p, flushLen);
        p := p + flushLen + 1;
        flushLen := GetFlushPos(m, p);
        done := false;
      } else {
        assert m[p..] == m[p..p + flushLen];
        CopyIn(m, p, flushLen);
        p := p + flushLen;
        done := true;
      }
    }

    /**
     * One round of the main loop of `_write(m)`, with the buffer empty: the
     * pieces of a long line, then the line itself or the held last line.
     */
    method WriteRound(m: string, p0: nat, flushLen0: nat) returns (p: nat, flushLen: nat, done: bool)
      requires Valid() && NoNul(m) && len == 0 && p0 < |m| && flushLen0 == LineLength(m[p0..])
      modifies buf, this`len, this`log
      ensures Valid() && p0 < p <= |m|
      ensures done ==> p == |m| && log == old(log) + Lines(m, p0).lines && Pending() == Lines(m, p0).held
      ensures !done ==> (len == 0 && flushLen == LineLength(m[p..]) &&
        log + Lines(m, p).lines == old(log) + Lines(m, p0).lines && Lines(m, p).held == Lines(m, p0).held)
    {
      p, flushLen := WritePieces(m, p0, flushLen0);
      ghost var q, log0 := p, log;
      p, flushLen, done := WriteLine(m, p, flushLen);
      RoundLines(m, p0, q, p, done, old(log), log0, log, Pending());
    }

    /**
     * `_write(m)`: the message's lines go to the log as `Fed` says, each line
     * break ending one and lines longer than the buffer being cut into pieces
     * of `FLUSH_SIZE` characters; a text already in the buffer is completed
     * by the message's first line; a last line without a break stays in the
     * buffer. Nothing written is lost (`FedText`).
     */
    method Write(m: string)
      requires Valid() && NoNul(m)
      modifies buf, this`len, this`log
      ensures Valid()
      ensures log == old(log) + Fed(old(Pending()), m).lines && Pending() == Fed(old(Pending()), m).held
      ensures Text() == old(Text()) + Unbroken(m)
      ensures NoBreak(m) && old(len) + |m| <= FLUSH_SIZE ==> log == old(log) && Pending() == old(Pending()) + m
    {
      ghost var pending0 := Pending();
      ghost var goal := Fed(pending0, m);
      if NoBreak(m) && len + |m| <= FLUSH_SIZE {
        FedWithoutBreak(pending0, m);
      }
      FedText(pending0, m);
      TextAfter(log, goal.lines, goal.held, pending0, Unbroken(m));
      var buflen := StrLen();
      if buflen > 0 {
        ghost var k := Room(m, buflen);
        FedCompletes(pending0, m, k, if k == LineLength(m) then k + 1 else k);
        var p, flushLen, done := CompleteBuffered(m);
        if !done {
          WriteLines(m, p, flushLen);
          LoggedAhead(old(log), pending0 + m[..k], Lines(m, p).lines, goal.lines);
        }
      } else {
        var flushLen := GetFlushPos(m, 0);
        assert m[0..] == m;
        WriteLines(m, 0, flushLen);
      }
    }

    /**
     * The main loop of `_write(m)` from `p0` on, with the buffer empty: round
     * by round, the text from `p0` goes to the log as `Lines` says.
     */
    method WriteLines(m: string, p0: nat, flushLen0: nat)
      requires Valid() && NoNul(m) && len == 0 && p0 <= |m| && flushLen0 == LineLength(m[p0..])
      modifies buf, this`len, this`log
      ensures Valid() && log == old(log) + Lines(m, p0).lines && Pending() == Lines(m, p0).held
    {
      var p, flushLen := p0, flushLen0;
      var msglen := |m| - p;
      while msglen > 0
        invariant Valid() && len == 0 && p0 <= p <= |m| && msglen == |m| - p
        invariant flushLen == LineLength(m[p..])
        invariant log + Lines(m, p).lines == old(log) + Lines(m, p0).lines && Lines(m, p).held == Lines(m, p0).held
        decreases msglen
      {
        var done;
        p, flushLen, done := WriteRound(m, p, flushLen);
        msglen := |m| - p;
        if done {
          return;
        }
      }
      assert m[p..] == [];
    }
  }

  function Min(a: int, b: int): int { if a < b then a else b }
}
