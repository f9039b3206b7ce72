/** What stands in the log, line by line: which fetches are logged, and which
    words each was disassembled from. */
module TraceLines {
  import opened TraceWindow
  import opened TraceRuns

  /** Fetches j .. j + k lie on one straight line. */
  predicate OneLine(d: seq<Fetch>, j: nat, k: nat) {
    j + k < |d| && forall i {:trigger d[i]} :: j < i <= j + k ==> d[i].pc == (d[i - 1].pc + 2) % 0x1_0000_0000
  }

  /** The word k places behind fetch j, zero where the straight line has ended. */
  function WordBehind(d: seq<Fetch>, j: nat, k: nat): int { if OneLine(d, j, k) then d[j + k].word else 0 }

  /** A line for fetch j: its own word and the next four, as far as they follow it, then zeros. */
  predicate LineAt(d: seq<Fetch>, j: nat, line: Line) {
    && j < |d| && line.fetch == d[j] && |line.words| == 5
    && forall k {:trigger line.words[k]} :: 0 <= k < 5 ==> line.words[k] == WordBehind(d, j, k)
  }

  /** How many words the disassembler takes an instruction to have, at least one and at most eight counted. */
  function Counted(l: Length, line: Line): (w: nat)
    ensures 1 <= w <= 8
  {
    var len := l(line.fetch.pc, line.words);
    if len < 4 then 1 else if len / 2 > 8 then 8 else len / 2
  }

  /** The fetch logged after fetch j: the one behind the instruction, or the
      first one that breaks the straight line. */
  predicate NextLogged(d: seq<Fetch>, j: nat, w: nat, next: nat) {
    j < next <= j + w && (next < j + w ==> !OneLine(d, j, next - j)) && forall k :: 0 <= k < next - j ==> OneLine(d, j, k)
  }

  // ---- one run ------------------------------------------------------------------------

  /** Where a sweep of a run that starts at index `base` stops. */
  function Stops(l: Length, run: seq<Fetch>, base: nat): seq<nat>
    decreases |run|
  {
    if run == [] then [] else [base] + Stops(l, Drop(run, Step(l, run)), base + Step(l, run))
  }

  ghost predicate Ascending(js: seq<nat>, lo: nat, hi: nat) {
    (forall n :: 0 <= n < |js| ==> lo <= js[n] < hi) && forall n, m :: 0 <= n < m < |js| ==> js[n] < js[m]
  }

  lemma Unfold(l: Length, run: seq<Fetch>, base: nat)
    requires run != []
    ensures var w := Step(l, run);
            var rest := Drop(run, w);
            && w >= 1 && rest == (if w < |run| then run[w..] else []) && |rest| < |run|
            && Sweep(l, run) == [Head(run)] + Sweep(l, rest) && Stops(l, run, base) == [base] + Stops(l, rest, base + w)
  {
  }

  lemma NoStops(l: Length, base: nat)
    ensures Sweep(l, []) == [] && Stops(l, [], base) == []
  {
  }

  lemma AscendingCons(base: nat, js: seq<nat>, lo: nat, hi: nat)
    requires Ascending(js, lo, hi) && base < lo && base < hi
    ensures Ascending([base] + js, base, hi)
  {
    var all := [base] + js;
    forall n | 0 <= n < |all| ensures base <= all[n] < hi && (n > 0 ==> all[n] == js[n - 1] && all[n] > base) {}
  }

  lemma {:induction false} StopsInside(l: Length, run: seq<Fetch>, base: nat)
    ensures |Stops(l, run, base)| == |Sweep(l, run)| && Ascending(Stops(l, run, base), base, base + |run|)
    ensures run != [] ==> |Stops(l, run, base)| > 0 && Stops(l, run, base)[0] == base
    decreases |run|
  {
    hide *;
    if run == [] {
      NoStops(l, base);
      NoneAscend(base);
    } else {
      var w := Step(l, run);
      var rest := Drop(run, w);
      Unfold(l, run, base);
      StopsInside(l, rest, base + w);
      if rest == [] {
        NoStops(l, base + w);
        OneStop(base, base + |run|);
      } else {
        AscendingCons(base, Stops(l, rest, base + w), base + w, base + w + |rest|);
      }
    }
  }

  lemma NoneAscend(base: nat)
    ensures Ascending([], base, base)
  {
  }

  lemma OneStop(base: nat, hi: nat)
    requires base < hi
    ensures Ascending([base] + [], base, hi)
  {
  }

  lemma HeadWords(run: seq<Fetch>, k: nat)
    requires run != [] && k < 5
    ensures |Head(run).words| == 5 && Head(run).fetch == run[0] && Head(run).words[k] == if k < |run| then run[k].word else 0
  {
  }

  /** Line n of a sweep is the head of the run from its stop on. */
  lemma {:induction false} SweepAt(l: Length, run: seq<Fetch>, base: nat, n: nat)
    requires n < |Sweep(l, run)|
    ensures |Stops(l, run, base)| == |Sweep(l, run)| && base <= Stops(l, run, base)[n] < base + |run|
    ensures Sweep(l, run)[n] == Head(run[Stops(l, run, base)[n] - base..])
    decreases |run|
  {
    StopsInside(l, run, base);
    NoStops(l, base);
    hide Step, Head, Drop, Sweep, Stops;
    Unfold(l, run, base);
    if n == 0 {
      assert run[0..] == run;
    } else {
      var w := Step(l, run);
      var rest := Drop(run, w);
      SweepAt(l, rest, base + w, n - 1);
      var p := Stops(l, run, base)[n];
      assert p == Stops(l, rest, base + w)[n - 1];
      assert rest[p - (base + w)..] == run[p - base..];
    }
  }

  lemma CountedIsStep(l: Length, run: seq<Fetch>)
    requires run != []
    ensures Counted(l, Head(run)) == Step(l, run)
  {
    hide Operands;
  }

  /** The stop after stop n is the next within the run, or the run is over. */
  lemma {:induction false} NextStop(l: Length, run: seq<Fetch>, base: nat, n: nat)
    requires n < |Sweep(l, run)|
    ensures |Stops(l, run, base)| == |Sweep(l, run)|
    ensures var js, w := Stops(l, run, base), Counted(l, Sweep(l, run)[n]);
            if n + 1 < |js| then js[n + 1] == js[n] + w else js[n] + w >= base + |run|
    decreases |run|
  {
    StopsInside(l, run, base);
    NoStops(l, base);
    hide Step, Head, Drop, Sweep, Stops, Counted;
    Unfold(l, run, base);
    var w := Step(l, run);
    var rest := Drop(run, w);
    CountedIsStep(l, run);
    StopsInside(l, rest, base + w);
    if n > 0 {
      NextStop(l, rest, base + w, n - 1);
    } else if rest == [] {
      NoStops(l, base + w);
    }
  }

  // ---- a whole history ------------------------------------------------------------------

  /** The log of a history, index by index: it starts with the first fetch, each
      line is that of its fetch, and each next one is the next fetch logged; the
      last instruction reaches the end of the history. */
  ghost predicate Explained(l: Length, d: seq<Fetch>, js: seq<nat>, log: seq<Line>) {
    && |js| == |log| && (d == [] <==> js == [])
    && (d != [] ==> js[0] == 0 && LastLogged(d, js[|js| - 1], Counted(l, log[|js| - 1])))
    && (forall n :: 0 <= n < |js| ==> LineAt(d, js[n], log[n]))
    && forall n {:trigger js[n + 1]} :: 0 <= n < |js| - 1 ==> NextLogged(d, js[n], Counted(l, log[n]), js[n + 1])
  }

  predicate LastLogged(d: seq<Fetch>, j: nat, w: nat) { j < |d| <= j + w && OneLine(d, j, |d| - 1 - j) }

  lemma {:induction false} RunBreaks(d: seq<Fetch>)
    requires d != []
    ensures var r := RunStart(d); r > 0 ==> d[r].pc != (d[r - 1].pc + 2) % 0x1_0000_0000
    decreases |d|
  {
    if |d| >= 2 && Follows(d[|d| - 2], d[|d| - 1]) { RunBreaks(d[..|d| - 1]); }
  }

  lemma LastRunIsOneLine(d: seq<Fetch>, j: nat, k: nat)
    requires d != [] && RunStart(d) <= j < |d|
    ensures OneLine(d, j, k) <==> j + k < |d|
  {
    var r := RunStart(d);
    RunStartRun(d);
    var run := d[r..];
    if j + k < |d| {
      forall i {:trigger d[i]} | j < i <= j + k ensures d[i].pc == (d[i - 1].pc + 2) % 0x1_0000_0000 {
        assert run[i - r] == d[i] && run[i - r - 1] == d[i - 1];
        assert Follows(run[i - r - 1], run[i - r]);
      }
    }
  }

  lemma EarlierLine(d: seq<Fetch>, r: nat, j: nat, k: nat)
    requires j < r < |d| && d[r].pc != (d[r - 1].pc + 2) % 0x1_0000_0000
    ensures OneLine(d[..r], j, k) <==> OneLine(d, j, k)
  {
    assert forall i :: 0 <= i < r ==> d[..r][i] == d[i];
    if j + k >= r && j + k < |d| {
      assert d[r].pc != (d[r - 1].pc + 2) % 0x1_0000_0000;
    }
  }

  /** Lines and steps of an earlier run are those of the whole history. */
  lemma LineEarlier(d: seq<Fetch>, r: nat, j: nat, line: Line)
    requires 0 < r < |d| && d[r].pc != (d[r - 1].pc + 2) % 0x1_0000_0000 && LineAt(d[..r], j, line)
    ensures LineAt(d, j, line)
  {
    hide OneLine, WordBehind;
    forall k {:trigger line.words[k]} | 0 <= k < 5 ensures line.words[k] == WordBehind(d, j, k) {
      WordEarlier(d, r, j, k);
    }
  }

  lemma WordEarlier(d: seq<Fetch>, r: nat, j: nat, k: nat)
    requires j < r < |d| && d[r].pc != (d[r - 1].pc + 2) % 0x1_0000_0000
    ensures WordBehind(d[..r], j, k) == WordBehind(d, j, k)
  {
    EarlierLine(d, r, j, k);
  }

  lemma OneLineInside(d: seq<Fetch>, j: nat, k: nat)
    ensures OneLine(d, j, k) ==> j + k < |d|
  {
  }

  lemma NextEarlier(d: seq<Fetch>, r: nat, j: nat, w: nat, next: nat)
    requires 0 < r < |d| && d[r].pc != (d[r - 1].pc + 2) % 0x1_0000_0000 && j < r && NextLogged(d[..r], j, w, next)
    ensures NextLogged(d, j, w, next)
  {
    hide OneLine;
    forall k: nat ensures OneLine(d[..r], j, k) <==> OneLine(d, j, k) { EarlierLine(d, r, j, k); }
  }

  /** From the last instruction of a run to the first of the next one. */
  lemma NextAcross(d: seq<Fetch>, r: nat, j: nat, w: nat)
    requires 0 < r < |d| && d[r].pc != (d[r - 1].pc + 2) % 0x1_0000_0000 && LastLogged(d[..r], j, w)
    ensures NextLogged(d, j, w, r)
  {
    EarlierLine(d, r, j, r - j);
    forall k | 0 <= k < r - j ensures OneLine(d, j, k) {
      EarlierLine(d, r, j, k);
      ShorterLine(d[..r], j, r - 1 - j, k);
    }
    hide OneLine;
    OneLineInside(d[..r], j, r - j);
  }

  lemma ShorterLine(d: seq<Fetch>, j: nat, k: nat, m: nat)
    requires OneLine(d, j, k) && m <= k
    ensures OneLine(d, j, m)
  {
  }

  /** The last run of a history. */
  lemma LineInRun(l: Length, d: seq<Fetch>, n: nat)
    requires d != [] && var r := RunStart(d); n < |Sweep(l, d[r..])|
    ensures var r := RunStart(d); |Stops(l, d[r..], r)| == |Sweep(l, d[r..])| && LineAt(d, Stops(l, d[r..], r)[n], Sweep(l, d[r..])[n])
  {
    hide Sweep, Stops, Head, WordBehind, RunStart;
    var r := RunStart(d);
    var run := d[r..];
    SweepAt(l, run, r, n);
    var j, line := Stops(l, run, r)[n], Sweep(l, run)[n];
    assert run[j - r..] == d[j..];
    HeadWords(d[j..], 0);
    forall k {:trigger line.words[k]} | 0 <= k < 5 ensures line.words[k] == WordBehind(d, j, k) {
      HeadWords(d[j..], k);
      LastRunWord(d, j, k);
    }
  }

  lemma LastRunWord(d: seq<Fetch>, j: nat, k: nat)
    requires d != [] && RunStart(d) <= j < |d|
    ensures WordBehind(d, j, k) == if j + k < |d| then d[j + k].word else 0
  {
    LastRunIsOneLine(d, j, k);
    hide OneLine;
  }

  lemma NextInRun(l: Length, d: seq<Fetch>, n: nat)
    requires d != [] && var r := RunStart(d); n < |Sweep(l, d[r..])|
    ensures var r := RunStart(d);
            var js, w := Stops(l, d[r..], r), Counted(l, Sweep(l, d[r..])[n]);
            |js| == |Sweep(l, d[r..])| && if n + 1 < |js| then NextLogged(d, js[n], w, js[n + 1]) else LastLogged(d, js[n], w)
  {
    hide Sweep, Stops, Head, OneLine, RunStart, Counted;
    var r := RunStart(d);
    StopsInside(l, d[r..], r);
    NextStop(l, d[r..], r, n);
    var js, w := Stops(l, d[r..], r), Counted(l, Sweep(l, d[r..])[n]);
    forall k: nat ensures OneLine(d, js[n], k) <==> js[n] + k < |d| { LastRunIsOneLine(d, js[n], k); }
  }

  /** The limited sweeps of the runs of any history are explained by some indices. */
  lemma {:induction false} ExpectedExplained(l: Length, d: seq<Fetch>) returns (js: seq<nat>)
    ensures Explained(l, d, js, Expected(l, true, d))
    decreases |d|
  {
    if d == [] {
      js := [];
    } else {
      var r := RunStart(d);
      var run := d[r..];
      var before := ExpectedExplained(l, d[..r]);
      js := before + Stops(l, run, r);
      Joined(l, d, before);
    }
  }

  /** The same for the last run alone, which starts at index r. */
  ghost predicate RunExplained(l: Length, d: seq<Fetch>, r: nat, js: seq<nat>, log: seq<Line>) {
    && |js| == |log| > 0 && js[0] == r < |d| && LastLogged(d, js[|js| - 1], Counted(l, log[|js| - 1]))
    && (r > 0 ==> d[r].pc != (d[r - 1].pc + 2) % 0x1_0000_0000)
    && (forall n :: 0 <= n < |js| ==> LineAt(d, js[n], log[n]))
    && forall n {:trigger js[n + 1]} :: 0 <= n < |js| - 1 ==> NextLogged(d, js[n], Counted(l, log[n]), js[n + 1])
  }

  lemma LastRunExplained(l: Length, d: seq<Fetch>)
    requires d != []
    ensures var r := RunStart(d); RunExplained(l, d, r, Stops(l, d[r..], r), Sweep(l, d[r..]))
  {
    hide Sweep, Stops, RunStart, Counted, LineAt, NextLogged, LastLogged, Ascending;
    var r := RunStart(d);
    var stops, more := Stops(l, d[r..], r), Sweep(l, d[r..]);
    RunBreaks(d);
    StopsInside(l, d[r..], r);
    forall n | 0 <= n < |stops| ensures LineAt(d, stops[n], more[n]) { LineInRun(l, d, n); }
    forall n {:trigger stops[n + 1]} | 0 <= n < |stops| - 1 ensures NextLogged(d, stops[n], Counted(l, more[n]), stops[n + 1]) {
      NextInRun(l, d, n);
    }
    NextInRun(l, d, |stops| - 1);
  }

  lemma Joined(l: Length, d: seq<Fetch>, before: seq<nat>)
    requires d != [] && var r := RunStart(d); Explained(l, d[..r], before, Expected(l, true, d[..r]))
    ensures var r := RunStart(d); Explained(l, d, before + Stops(l, d[r..], r), Expected(l, true, d[..r]) + Sweep(l, d[r..]))
  {
    hide *;
    var r := RunStart(d);
    LastRunExplained(l, d);
    JoinedFrom(l, d, r, before, Expected(l, true, d[..r]), Stops(l, d[r..], r), Sweep(l, d[r..]));
  }

  /** The explanation of a run after that of the runs before it. */
  lemma JoinedFrom(l: Length, d: seq<Fetch>, r: nat, before: seq<nat>, had: seq<Line>, stops: seq<nat>, more: seq<Line>)
    requires r <= |d| && Explained(l, d[..r], before, had) && RunExplained(l, d, r, stops, more)
    ensures Explained(l, d, before + stops, had + more)
  {
    hide Counted, LineAt, NextLogged, LastLogged;
    var js, log := before + stops, had + more;
    forall n | 0 <= n < |js| ensures LineAt(d, js[n], log[n]) {
      if n < |before| { LineEarlier(d, r, js[n], log[n]); }
    }
    forall n {:trigger js[n + 1]} | 0 <= n < |js| - 1 ensures NextLogged(d, js[n], Counted(l, log[n]), js[n + 1]) {
      if n + 1 < |before| {
        LineInside(d[..r], before[n], had[n]);
        assert js[n + 1] == before[n + 1];
        NextEarlier(d, r, js[n], Counted(l, log[n]), js[n + 1]);
      } else if n < |before| {
        assert n == |before| - 1 && js[n + 1] == stops[0] == r;
        assert js[n] == before[n] && log[n] == had[n];
        LineInside(d[..r], before[n], had[n]);
        NextAcross(d, r, js[n], Counted(l, log[n]));
      } else {
        var m := n - |before|;
        assert NextLogged(d, stops[m], Counted(l, more[m]), stops[m + 1]);
        assert js[n + 1] == stops[m + 1] && js[n] == stops[m] && log[n] == more[m];
      }
    }
  }

  lemma LineInside(d: seq<Fetch>, j: nat, line: Line)
    requires LineAt(d, j, line)
    ensures j < |d|
  {
  }

  /** For every length function and every list of fetches, the log with its final
      flush is this: the first fetch, then after each instruction the fetch behind
      it or the one that broke the straight line, every line with the words that
      follow it on its straight line and zeros after those. */
  lemma LogExplained(l: Length, fs: seq<Fetch>) returns (js: seq<nat>)
    ensures Explained(l, Deduplicated(0xFFFF_FFFF, fs), js, Flush(l, RecordAll(l, START, fs)).log)
  {
    StreamingEqualsBatch(l, fs);
    js := ExpectedExplained(l, Deduplicated(START.lastPc, fs));
  }
}
