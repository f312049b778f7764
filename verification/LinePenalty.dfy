/** The penalty of one row or column (section 7.8.3 of ISO/IEC 18004:2015): long runs of one colour,
    and runs in the proportion 1:1:3:1:1 of a finder pattern with light space beside them.

    The encoder streams over the modules with a history of seven runs. Here it is proved to compute
    a sum over the runs of the line, and the runs are proved to be the line's only decomposition. */
module LinePenalty {

  const PENALTY_N1: nat := 3
  const PENALTY_N3: nat := 40

  // ---------- Runs ----------

  /** Runs alternate in colour and start with light; only the first may be empty. */
  predicate ValidRuns(runs: seq<nat>)
  {
    |runs| >= 1 && forall i :: 1 <= i < |runs| ==> runs[i] >= 1
  }

  predicate DarkRun(i: int) { i % 2 == 1 }

  function Repeat(color: bool, n: nat): (s: seq<bool>)
    ensures |s| == n
  {
    seq(n, _ => color)
  }

  /** The line that a list of runs describes. */
  function Render(runs: seq<nat>): seq<bool>
  {
    if runs == [] then []
    else Render(runs[..|runs| - 1]) + Repeat(DarkRun(|runs| - 1), runs[|runs| - 1])
  }

  /** One more module at the end of a line. */
  function ExtendRuns(runs: seq<nat>, color: bool): (r: seq<nat>)
    requires ValidRuns(runs)
    ensures ValidRuns(r)
  {
    var n := |runs| - 1;
    if color == DarkRun(n) then runs[..n] + [runs[n] + 1] else runs + [1]
  }

  function RunsOf(line: seq<bool>): (r: seq<nat>)
    ensures ValidRuns(r)
  {
    if line == [] then [0]
    else ExtendRuns(RunsOf(line[..|line| - 1]), line[|line| - 1])
  }

  lemma {:induction false} RenderSnoc(runs: seq<nat>, v: nat)
    ensures Render(runs + [v]) == Render(runs) + Repeat(DarkRun(|runs|), v)
  {
    assert (runs + [v])[..|runs|] == runs;
  }

  lemma {:induction false} RunsOfSnoc(line: seq<bool>, color: bool)
    ensures RunsOf(line + [color]) == ExtendRuns(RunsOf(line), color)
  {
    assert (line + [color])[..|line|] == line;
    hide ExtendRuns;
  }

  lemma {:induction false} RenderExtend(runs: seq<nat>, color: bool)
    requires ValidRuns(runs)
    ensures Render(ExtendRuns(runs, color)) == Render(runs) + [color]
  {
    hide Render;
    var n := |runs| - 1;
    if color == DarkRun(n) {
      var front, v := runs[..n], runs[n];
      RenderSnoc(front, v);
      RenderSnoc(front, v + 1);
      assert front + [v] == runs;
      assert Repeat(color, v + 1) == Repeat(color, v) + [color];
      hide Repeat;
      assert Render(front) + (Repeat(color, v) + [color]) == Render(front) + Repeat(color, v) + [color];
    } else {
      RenderSnoc(runs, 1);
      assert Repeat(color, 1) == [color];
    }
  }

  lemma {:induction false} RenderNothing()
    ensures Render([0]) == [] && RunsOf([]) == [0]
  {
    assert Render([0]) == Render([]) + Repeat(false, 0);
  }

  /** The runs of a line describe the line. */
  lemma {:induction false} RenderRunsOf(line: seq<bool>)
    ensures Render(RunsOf(line)) == line
  {
    hide Render, ExtendRuns;
    if line == [] {
      RenderNothing();
    } else {
      var n := |line| - 1;
      RenderRunsOf(line[..n]);
      RenderExtend(RunsOf(line[..n]), line[n]);
      assert line[..n] + [line[n]] == line;
    }
  }

  /** The runs of a line one module shorter. */
  function ShortenRuns(runs: seq<nat>): (r: seq<nat>)
    requires ValidRuns(runs) && runs != [0]
    ensures ValidRuns(r)
    ensures ExtendRuns(r, DarkRun(|runs| - 1)) == runs
  {
    var n := |runs| - 1;
    if n > 0 && runs[n] == 1 then runs[..n] else runs[..n] + [runs[n] - 1]
  }

  /** No other list of runs does. */
  lemma {:induction false} RunsOfRender(runs: seq<nat>)
    requires ValidRuns(runs)
    ensures RunsOf(Render(runs)) == runs
    decreases |runs|, runs[|runs| - 1]
  {
    hide Render, RunsOf, ExtendRuns;
    if runs == [0] {
      RenderNothing();
    } else {
      var color, shorter := DarkRun(|runs| - 1), ShortenRuns(runs);
      RunsOfRender(shorter);
      RenderExtend(shorter, color);
      RunsOfSnoc(Render(shorter), color);
    }
  }

  // ---------- The penalty of a list of runs ----------

  function RunScore(n: nat): nat { if n >= 5 then n - 2 else 0 }

  function RunPenalty(runs: seq<nat>): nat
  {
    if runs == [] then 0 else RunPenalty(runs[..|runs| - 1]) + RunScore(runs[|runs| - 1])
  }

  /** Seven runs, light at both ends: the proportion of a finder pattern, with light space of four
      times the unit on one side and at least the unit on the other. It can score on both sides. */
  function WindowScore(w: seq<nat>): nat
    requires |w| == 7
  {
    var n := w[5];
    var core := n > 0 && w[4] == n && w[3] == 3 * n && w[2] == n && w[1] == n;
    (if core && w[6] >= 4 * n && w[0] >= n then 1 else 0) + (if core && w[0] >= 4 * n && w[6] >= n then 1 else 0)
  }

  /** The sum over all windows of seven runs that end with a light run. */
  function FinderCount(p: seq<nat>): nat
  {
    if |p| < 7 then 0
    else FinderCount(p[..|p| - 1]) + (if DarkRun(|p| - 1) then 0 else WindowScore(p[|p| - 7..]))
  }

  /** The first light run with the light border of the symbol before it. */
  function PadFirst(runs: seq<nat>, size: nat): (p: seq<nat>)
    ensures |p| == |runs|
  {
    if runs == [] then [] else [runs[0] + size] + runs[1..]
  }

  /** The runs of the line between the light borders on both its sides. */
  function Bordered(runs: seq<nat>, size: nat): seq<nat>
    requires runs != []
  {
    var p, n := PadFirst(runs, size), |runs| - 1;
    if DarkRun(n) then p + [size] else p[..n] + [p[n] + size]
  }

  function LineScore(line: seq<bool>): nat
  {
    RunPenalty(RunsOf(line)) + PENALTY_N3 * FinderCount(Bordered(RunsOf(line), |line|))
  }

  // ---------- The streaming computation ----------

  /** The last seven runs, newest first, with zeros where there are none yet. */
  function History(p: seq<nat>): (h: seq<nat>)
    ensures |h| == 7
  {
    seq(7, i requires 0 <= i < 7 => if i < |p| then p[|p| - 1 - i] else 0)
  }

  function CountPatterns(h: seq<nat>): nat
    requires |h| == 7
  {
    var n := h[1];
    var core := n > 0 && h[2] == n && h[3] == n * 3 && h[4] == n && h[5] == n;
    (if core && h[0] >= n * 4 && h[6] >= n then 1 else 0) + (if core && h[6] >= n * 4 && h[0] >= n then 1 else 0)
  }

  /** The executed count; its requirement is what the source asserts. */
  function FinderPatterns(h: seq<nat>, size: nat): nat
    requires |h| == 7 && h[1] <= size * 3
  {
    CountPatterns(h)
  }

  method AddHistory(size: nat, currentRunLength: nat, runHistory: seq<nat>) returns (h: seq<nat>)
    requires |runHistory| == 7
    ensures h == [if runHistory[0] == 0 then currentRunLength + size else currentRunLength] + runHistory[..6]
  {
    var length := currentRunLength;
    if runHistory[0] == 0 {
      length := length + size;
    }
    h := [runHistory[0]] + runHistory[..6];
    h := h[0 := length];
  }

  lemma {:induction false} HistoryNext(p: seq<nat>, v: nat)
    ensures History(p + [v]) == [v] + History(p)[..6]
  {}

  lemma {:induction false} CountIsWindow(p: seq<nat>)
    ensures CountPatterns(History(p)) == if |p| < 7 then 0 else WindowScore(p[|p| - 7..])
  {}

  /** Padded runs seen so far: all but the current one. */
  function Completed(runs: seq<nat>, size: nat): seq<nat>
    requires runs != []
  {
    PadFirst(runs[..|runs| - 1], size)
  }

  /** What the loop knows after the modules of `line`. */
  ghost predicate Streamed(line: seq<bool>, size: nat, runColor: bool, run: nat, h: seq<nat>, result: int)
  {
    StateOf(RunsOf(line), size, runColor, run, h, result)
  }

  ghost predicate StateOf(runs: seq<nat>, size: nat, runColor: bool, run: nat, h: seq<nat>, result: int)
    requires runs != []
  {
    && runColor == DarkRun(|runs| - 1)
    && run == runs[|runs| - 1]
    && h == History(Completed(runs, size))
    && result == RunPenalty(runs) + PENALTY_N3 * FinderCount(Completed(runs, size))
  }

  lemma {:induction false} StreamStart(size: nat)
    ensures Streamed([], size, false, 0, [0, 0, 0, 0, 0, 0, 0], 0)
  {
    assert RunPenalty([0]) == RunPenalty([]) + RunScore(0);
  }

  /** A module of the colour of the current run. */
  lemma {:induction false} StreamSame(line: seq<bool>, size: nat, color: bool, run: nat, h: seq<nat>, result: int)
    requires Streamed(line, size, color, run, h, result)
    ensures Streamed(line + [color], size, color, run + 1, h,
                     result + (if run + 1 == 5 then PENALTY_N1 else if run + 1 > 5 then 1 else 0))
  {
    var runs := RunsOf(line);
    var n := |runs| - 1;
    var longer := runs[..n] + [run + 1];
    assert RunsOf(line + [color]) == longer by { assert (line + [color])[..|line|] == line; }
    assert longer[..n] == runs[..n];
    hide FinderCount, History, RunsOf;
  }

  /** Adding the next run to the history, with the border in front of the first one. */
  lemma {:induction false} HistoryAdd(runs: seq<nat>, m: nat, size: nat)
    requires ValidRuns(runs) && m < |runs| && size > 0
    ensures var h := History(PadFirst(runs[..m], size));
            (h[0] == 0 <==> m == 0) &&
            [if h[0] == 0 then runs[m] + size else runs[m]] + h[..6] == History(PadFirst(runs[..m + 1], size))
  {
    var p, v := PadFirst(runs[..m], size), if m == 0 then runs[m] + size else runs[m];
    HistoryNext(p, v);
    assert p + [v] == PadFirst(runs[..m + 1], size);
  }

  lemma {:induction false} RunPenaltySnoc(runs: seq<nat>, v: nat)
    ensures RunPenalty(runs + [v]) == RunPenalty(runs) + RunScore(v)
  {
    assert (runs + [v])[..|runs|] == runs;
  }

  lemma {:induction false} FinderCountSnoc(p: seq<nat>, v: nat)
    ensures FinderCount(p + [v]) == FinderCount(p) + (if DarkRun(|p|) then 0 else CountPatterns(History(p + [v])))
  {
    CountIsWindow(p + [v]);
    assert (p + [v])[..|p|] == p;
    hide WindowScore, CountPatterns, History;
  }

  lemma {:induction false} FinderCountNext(runs: seq<nat>, size: nat)
    requires runs != []
    ensures var p := PadFirst(runs, size);
            FinderCount(p) == FinderCount(Completed(runs, size)) + (if DarkRun(|runs| - 1) then 0 else CountPatterns(History(p)))
  {
    hide FinderCount, CountPatterns, History;
    var n := |runs| - 1;
    var p, q := Completed(runs, size), PadFirst(runs, size);
    assert p + [q[n]] == q;
    FinderCountSnoc(p, q[n]);
  }

  lemma {:induction false} StateOther(runs: seq<nat>, size: nat, color: bool, run: nat, h: seq<nat>, result: int)
    requires ValidRuns(runs) && StateOf(runs, size, color, run, h, result) && size > 0 && |h| == 7
    ensures var h' := [if h[0] == 0 then run + size else run] + h[..6];
            StateOf(runs + [1], size, !color, 1, h', result + (if color then 0 else PENALTY_N3 * CountPatterns(h')))
  {
    hide RunPenalty, History, CountPatterns, FinderCount, PadFirst;
    var n := |runs| - 1;
    assert runs[..n + 1] == runs && (runs + [1])[..n + 1] == runs;
    HistoryAdd(runs, n, size);
    RunPenaltySnoc(runs, 1);
    FinderCountNext(runs, size);
  }

  /** A module of the other colour ends the current run. */
  lemma {:induction false} StreamOther(line: seq<bool>, size: nat, color: bool, run: nat, h: seq<nat>, result: int)
    requires Streamed(line, size, color, run, h, result) && size > 0 && |h| == 7
    ensures var h' := [if h[0] == 0 then run + size else run] + h[..6];
            Streamed(line + [!color], size, !color, 1, h', result + (if color then 0 else PENALTY_N3 * CountPatterns(h')))
  {
    hide RunsOf, RunPenalty, History, CountPatterns, FinderCount, Completed;
    StateOther(RunsOf(line), size, color, run, h, result);
    RunsOfSnoc(line, !color);
  }

  lemma {:induction false} RunWithin(runs: seq<nat>, i: nat)
    requires i < |runs|
    ensures runs[i] <= |Render(runs)|
  {
    if i < |runs| - 1 { RunWithin(runs[..|runs| - 1], i); }
  }

  /** No run in the history is longer than the symbol with one border, and the current run fits the line. */
  lemma {:induction false} StreamedBounds(line: seq<bool>, size: nat, color: bool, run: nat, h: seq<nat>, result: int)
    requires Streamed(line, size, color, run, h, result)
    ensures run <= |line| && |h| == 7
    ensures forall i :: 0 <= i < 7 ==> h[i] <= size + |line|
  {
    hide RunsOf, RunPenalty, FinderCount, Render;
    var runs := RunsOf(line);
    RenderRunsOf(line);
    RunWithin(runs, |runs| - 1);
    var p := Completed(runs, size);
    forall j | 0 <= j < |p| ensures p[j] <= size + |line| { RunWithin(runs, j); }
  }

  method ScoreLine(line: seq<bool>) returns (result: int)
    requires line != []
    ensures result == LineScore(line)
  {
    hide *;
    var size := |line|;
    result := 0;
    var runColor := false;
    var run := 0;
    var runHistory: seq<nat> := [0, 0, 0, 0, 0, 0, 0];
    StreamStart(size);
    for x := 0 to size
      invariant run >= 0 && |runHistory| == 7
      invariant Streamed(line[..x], size, runColor, run, runHistory, result)
    {
      assert line[..x] + [line[x]] == line[..x + 1];
      if line[x] == runColor {
        StreamSame(line[..x], size, runColor, run, runHistory, result);
        run := run + 1;
        if run == 5 {
          result := result + PENALTY_N1;
        } else if run > 5 {
          result := result + 1;
        }
      } else {
        StreamOther(line[..x], size, runColor, run, runHistory, result);
        StreamedBounds(line[..x], size, runColor, run, runHistory, result);
        runHistory := AddHistory(size, run, runHistory);
        if !runColor {
          PatternsCounted(runHistory, size);
          result := result + FinderPatterns(runHistory, size) * PENALTY_N3;
        }
        runColor := line[x];
        run := 1;
      }
    }
    assert line[..size] == line;
    var count := TerminateAndCount(size, line, runColor, run, runHistory, result);
    result := result + count * PENALTY_N3;
  }

  lemma {:induction false} PatternsCounted(h: seq<nat>, size: nat)
    requires |h| == 7 && h[1] <= size * 3
    ensures FinderPatterns(h, size) == CountPatterns(h)
  {
    hide CountPatterns;
  }

  /** Closes the last run, adds the light border, and checks the pattern that ends there. */
  method TerminateAndCount(size: nat, ghost line: seq<bool>, currentRunColor: bool, currentRunLength: nat, runHistory: seq<nat>, ghost result: int)
    returns (count: nat)
    requires size == |line| > 0 && |runHistory| == 7
    requires Streamed(line, |line|, currentRunColor, currentRunLength, runHistory, result)
    ensures result + count * PENALTY_N3 == LineScore(line)
  {
    hide RunsOf, RunPenalty, History, CountPatterns, FinderCount, Bordered, PadFirst;
    ghost var runs := RunsOf(line);
    BorderHistory(runs, size);
    StreamedBounds(line, size, currentRunColor, currentRunLength, runHistory, result);
    var length, h := currentRunLength, runHistory;
    if currentRunColor {
      HistoryAdd(runs, |runs| - 1, size);
      assert runs[..|runs|] == runs;
      h := AddHistory(size, length, h);
      length := 0;
    }
    length := length + size;
    h := AddHistory(size, length, h);
    return FinderPatterns(h, size);
  }

  /** The history after the last run and the border, and the check that is made there. */
  lemma {:induction false} BorderHistory(runs: seq<nat>, size: nat)
    requires ValidRuns(runs) && size > 0
    ensures var n := |runs| - 1;
            var h := History(if DarkRun(n) then PadFirst(runs, size) else Completed(runs, size));
            var v := if DarkRun(n) then size else runs[n] + size;
            var h' := [if h[0] == 0 then v + size else v] + h[..6];
            FinderCount(Bordered(runs, size)) == FinderCount(Completed(runs, size)) + CountPatterns(h')
  {
    hide WindowScore, CountPatterns, FinderCount;
    var n := |runs| - 1;
    var p, q := Completed(runs, size), PadFirst(runs, size);
    assert p + [q[n]] == q;
    if DarkRun(n) {
      FinderCountSnoc(p, q[n]);
      FinderCountSnoc(q, size);
      HistoryNext(q, size);
      assert History(q)[0] != 0;
    } else {
      FinderCountSnoc(p, q[n] + size);
      HistoryNext(p, q[n] + size);
      assert History(p)[0] == 0 <==> n == 0;
    }
  }

  // ---------- Bounds ----------

  lemma {:induction false} RunsBounds(runs: seq<nat>)
    requires ValidRuns(runs)
    ensures RunPenalty(runs) <= |Render(runs)|
    ensures |runs| <= |Render(runs)| + 1
  {
    hide Render, RunPenalty;
    var n := |runs| - 1;
    RenderSnoc(runs[..n], runs[n]);
    RunPenaltySnoc(runs[..n], runs[n]);
    assert runs[..n] + [runs[n]] == runs;
    if n == 0 {
      NoRuns();
      assert runs[..n] == [];
    } else {
      RunsBounds(runs[..n]);
    }
  }

  lemma {:induction false} NoRuns()
    ensures RunPenalty([]) == 0 && Render([]) == []
  {}

  /** Two successive checks cannot both find the pattern: its centre would have to be both three
      units and one unit long. */
  lemma {:induction false} NoAdjacentFinders(p: seq<nat>)
    requires |p| >= 9
    ensures WindowScore(p[|p| - 7..]) == 0 || WindowScore(p[|p| - 9..|p| - 2]) == 0
  {}

  lemma {:induction false} FinderCountBound(p: seq<nat>)
    ensures 2 * FinderCount(p) <= |p|
    decreases |p|
  {
    hide *;
    if |p| < 7 {
      NoFinders(p);
    } else if |p| % 2 == 0 {
      FinderCountBound(p[..|p| - 1]);
      DarkEnd(p);
    } else if |p| < 9 {
      OneFinder(p);
    } else {
      TwoFinders(p);
      FinderCountBound(p[..|p| - 4]);
    }
  }

  lemma {:induction false} DarkEnd(p: seq<nat>)
    requires p != [] && |p| % 2 == 0
    ensures FinderCount(p) == FinderCount(p[..|p| - 1])
  {
    hide WindowScore, FinderCount;
    FinderCountLast(p);
  }

  lemma {:induction false} OneFinder(p: seq<nat>)
    requires |p| == 7
    ensures FinderCount(p) <= 2
  {
    hide WindowScore, FinderCount;
    WindowScoreBound(p[0..]);
    FinderCountTwo(p);
    NoFinders(p[..5]);
  }

  lemma {:induction false} NoFinders(p: seq<nat>)
    requires |p| < 7
    ensures FinderCount(p) == 0
  {
    if p != [] { NoFinders(p[..|p| - 1]); }
  }

  /** Of the last two checks at most one scores, and at most 2. */
  lemma {:induction false} TwoFinders(p: seq<nat>)
    requires |p| >= 9 && |p| % 2 == 1
    ensures FinderCount(p) <= FinderCount(p[..|p| - 4]) + 2
  {
    hide WindowScore, FinderCount;
    var n := |p|;
    NoAdjacentFinders(p);
    FinderCountTwo(p);
    FinderCountTwo(p[..n - 2]);
    assert p[..n - 2][..n - 4] == p[..n - 4];
    assert p[..n - 2][n - 9..] == p[n - 9..n - 2];
    WindowScoreBound(p[n - 7..]);
    WindowScoreBound(p[n - 9..n - 2]);
  }

  lemma {:induction false} FinderCountTwo(p: seq<nat>)
    requires |p| >= 7 && |p| % 2 == 1
    ensures FinderCount(p) == FinderCount(p[..|p| - 2]) + WindowScore(p[|p| - 7..])
  {
    hide WindowScore, FinderCount;
    var n := |p|;
    FinderCountLast(p);
    FinderCountLast(p[..n - 1]);
    assert p[..n - 1][..n - 2] == p[..n - 2];
  }

  lemma {:induction false} FinderCountLast(p: seq<nat>)
    requires p != []
    ensures FinderCount(p) == FinderCount(p[..|p| - 1])
         + (if |p| < 7 || DarkRun(|p| - 1) then 0 else WindowScore(p[|p| - 7..]))
  {
    hide WindowScore;
  }

  lemma {:induction false} WindowScoreBound(w: seq<nat>)
    requires |w| == 7
    ensures WindowScore(w) <= 2
  {}

  /** The score of a line grows at most linearly in its length. */
  lemma {:induction false} LineScoreBound(line: seq<bool>)
    ensures LineScore(line) <= 21 * |line| + 40
  {
    hide RunsOf, RunPenalty, FinderCount;
    RenderRunsOf(line);
    RunsBounds(RunsOf(line));
    FinderCountBound(Bordered(RunsOf(line), |line|));
  }
}
