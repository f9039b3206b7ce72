/** The instruction trace: an eight-entry window over code fetches, which must
    log what a linear sweep over the whole straight-line run would log. */
module TraceWindow {

  const SLOTS := 8
  const PCS := 0x1_0000_0000

  datatype Fetch = Fetch(pc: int, word: int, frame: int, dataAddr: int)

  /** A log line: an opcode fetch and the five words the disassembler was given. */
  datatype Line = Line(fetch: Fetch, words: seq<int>)

  /** The disassembler: instruction length in bytes, from the PC and five words. */
  type Length = (int, seq<int>) -> nat

  // ---- the reference: a sweep over a whole run ------------------------------

  /** Five words from the head of the run, zero past its end. */
  function Operands(run: seq<Fetch>): seq<int> { seq(5, k => if 0 <= k < |run| then run[k].word else 0) }

  function Words(l: Length, run: seq<Fetch>): (w: nat)
    requires run != []
    ensures w >= 1
  {
    var len := l(run[0].pc, Operands(run));
    (if len < 2 then 2 else len) / 2
  }

  function Head(run: seq<Fetch>): Line
    requires run != []
  {
    Line(run[0], Operands(run))
  }

  /** The run behind its first w words. */
  function Drop(run: seq<Fetch>, w: nat): seq<Fetch> { if w < |run| then run[w..] else [] }

  /** Decode, step over the whole instruction, decode again. */
  function LinearSweep(l: Length, run: seq<Fetch>): seq<Line>
    decreases |run|
  {
    if run == [] then [] else [Head(run)] + LinearSweep(l, Drop(run, Words(l, run)))
  }

  function Step(l: Length, run: seq<Fetch>): (w: nat)
    requires run != []
    ensures 1 <= w <= SLOTS
  {
    if Words(l, run) > SLOTS then SLOTS else Words(l, run)
  }

  /** The same with steps of at most eight words. */
  function Sweep(l: Length, run: seq<Fetch>): seq<Line>
    decreases |run|
  {
    if run == [] then [] else [Head(run)] + Sweep(l, Drop(run, Step(l, run)))
  }

  /** The run from the n-th sweep boundary on. */
  function Remaining(l: Length, run: seq<Fetch>, n: nat): seq<Fetch>
    decreases n
  {
    if n == 0 || run == [] then run else Remaining(l, Drop(run, Step(l, run)), n - 1)
  }

  // ---- runs of a fetch history ------------------------------------------------

  predicate Follows(a: Fetch, b: Fetch) { b.pc == (a.pc + 2) % PCS }

  predicate Consecutive(run: seq<Fetch>) { forall k {:trigger run[k]} :: 0 < k < |run| ==> Follows(run[k - 1], run[k]) }

  /** Fetches of the PC just seen are not recorded again. */
  function Deduplicated(last: int, fs: seq<Fetch>): seq<Fetch>
    decreases fs
  {
    if fs == [] then [] else
      var rest := fs[..|fs| - 1];
      var f := fs[|fs| - 1];
      if f.pc == LastPc(last, rest) then Deduplicated(last, rest) else Deduplicated(last, rest) + [f]
  }

  function LastPc(last: int, fs: seq<Fetch>): int { if fs == [] then last else fs[|fs| - 1].pc }

  /** Where the last maximal straight-line run of a history starts. */
  function RunStart(d: seq<Fetch>): (r: nat)
    ensures r <= |d| && (d != [] ==> r < |d|)
  {
    if |d| < 2 then 0
    else if Follows(d[|d| - 2], d[|d| - 1]) then RunStart(d[..|d| - 1]) else |d| - 1
  }

  /** One sweep for each maximal run, in order; `limited` bounds every step by eight words. */
  function Expected(l: Length, limited: bool, d: seq<Fetch>): seq<Line>
    decreases |d|
  {
    if d == [] then []
    else
      var run := d[RunStart(d)..];
      Expected(l, limited, d[..RunStart(d)]) + if limited then Sweep(l, run) else LinearSweep(l, run)
  }

  // ---- one fetch -----------------------------------------------------------------

  datatype Trace = Trace(window: seq<Fetch>, lastPc: int, log: seq<Line>)

  function Append(l: Length, s: Trace, f: Fetch): Trace {
    if |s.window| < SLOTS then s.(window := s.window + [f])
    else s.(log := s.log + [Head(s.window)], window := Drop(s.window, Step(l, s.window)) + [f])
  }

  function Flush(l: Length, s: Trace): Trace { s.(log := s.log + Sweep(l, s.window), window := []) }

  function Record(l: Length, s: Trace, f: Fetch): Trace {
    if f.pc == s.lastPc then s
    else
      var t := s.(lastPc := f.pc);
      if s.window != [] && Follows(s.window[|s.window| - 1], f) then Append(l, t, f)
      else Append(l, Flush(l, t), f)
  }

  function RecordAll(l: Length, s: Trace, fs: seq<Fetch>): Trace {
    if fs == [] then s else Record(l, RecordAll(l, s, fs[..|fs| - 1]), fs[|fs| - 1])
  }

  // ---- the buffer object ----------------------------------------------------------

  class TraceBuffer {
    const length: Length
    const buf: array<Fetch>
    var len: nat
    var lastPc: int
    var log: seq<Line>

    ghost predicate Valid()
      reads this, buf
    {
      buf.Length == SLOTS && len <= SLOTS
    }

    ghost function State(): Trace
      requires Valid()
      reads this, buf
    {
      Trace(buf[..len], lastPc, log)
    }

    constructor (l: Length)
      ensures Valid() && fresh(buf) && length == l
      ensures State() == Trace([], 0xFFFF_FFFF, [])
    {
      length := l;
      buf := new Fetch[SLOTS](k => Fetch(0, 0, 0, 0));
      len, lastPc, log := 0, 0xFFFF_FFFF, [];
    }

    /** The words from slot i on, as handed to the disassembler. */
    method Gather(i: nat) returns (words: seq<int>)
      requires Valid() && i < len
      ensures words == Operands(buf[i..len])
      ensures |words| == 5 && forall k :: 0 <= k < 5 ==> words[k] == if i + k < len then buf[i + k].word else 0
    {
      words := [];
      for k := 0 to 5
        invariant |words| == k
        invariant forall j :: 0 <= j < k ==> words[j] == Operands(buf[i..len])[j]
      {
        words := words + [if k < len - i then buf[i + k].word else 0];
      }
    }

    /** Log the buffered entries, stepping over each instruction. */
    method FlushBuffer()
      requires Valid()
      modifies this
      ensures Valid() && State() == Flush(length, old(State()))
    {
      hide Sweep, Words, Operands, Drop;
      var i := 0;
      ghost var all := buf[..len];
      DropAll(length, all);
      while i < len
        invariant Valid() && len == old(len) && lastPc == old(lastPc)
        invariant log + Sweep(length, Drop(all, i)) == old(log) + Sweep(length, all)
      {
        var words := Gather(i);
        assert buf[i..len] == all[i..];
        var bytes := length(buf[i].pc, words);
        var count := (if bytes < 2 then 2 else bytes) / 2;
        CountsWords(length, all[i..], words);
        FlushStep(length, all, i, log, old(log) + Sweep(length, all));
        log := log + [Line(buf[i], words)];
        i := i + count;
      }
      len := 0;
      DropAllOver(length, all, i);
    }

    /** The buffer is full: log its oldest entry, then shift it out. */
    method EmitOldest()
      requires Valid() && len == SLOTS
      modifies this, buf
      ensures Valid() && len < SLOTS
      ensures State() == old(State()).(log := old(log) + [Head(old(State()).window)],
                                       window := Drop(old(State()).window, Step(length, old(State()).window)))
    {
      ghost var all := buf[..len];
      var words := Gather(0);
      assert buf[0..len] == all;
      var bytes := length(buf[0].pc, words);
      var count := (if bytes < 2 then 2 else bytes) / 2;
      if count > SLOTS { count := SLOTS; }
      log := log + [Line(buf[0], words)];
      assert count == Step(length, all) && Line(buf[0], words) == Head(all);
      var keep := len - count;
      for k := 0 to keep
        modifies buf
        invariant forall j :: 0 <= j < k ==> buf[j] == all[j + count]
        invariant forall j :: k <= j < SLOTS ==> buf[j] == all[j]
      {
        buf[k] := buf[k + count];
      }
      len := keep;
      assert buf[..len] == Drop(all, count);
    }

    method OnFetch(f: Fetch)
      requires Valid()
      modifies this, buf
      ensures Valid() && State() == Record(length, old(State()), f)
      ensures f.pc == old(lastPc) ==> State() == old(State())
      ensures f.pc != old(lastPc) ==> lastPc == f.pc && len >= 1 && buf[len - 1] == f
    {
      if f.pc != lastPc {
        lastPc := f.pc;
        var sequential := len > 0 && f.pc == (buf[len - 1].pc + 2) % PCS;
        if !sequential && len > 0 {
          FlushBuffer();
        }
        if len == SLOTS {
          EmitOldest();
        }
        buf[len] := f;
        len := len + 1;
        assert buf[..len] == buf[..len - 1] + [f];
      }
    }
  }

  lemma Reassociate(a: seq<Line>, b: seq<Line>, c: seq<Line>)
    ensures (a + b) + c == a + (b + c)
  {
  }

  lemma DropAll(l: Length, all: seq<Fetch>)
    ensures Drop(all, 0) == all
  {
  }

  lemma DropAllOver(l: Length, all: seq<Fetch>, i: nat)
    requires i >= |all|
    ensures Sweep(l, Drop(all, i)) == []
  {
  }

  lemma CountsWords(l: Length, run: seq<Fetch>, words: seq<int>)
    requires run != [] && words == Operands(run)
    ensures Words(l, run) == (var bytes := l(run[0].pc, words); (if bytes < 2 then 2 else bytes) / 2)
    ensures Head(run) == Line(run[0], words)
  {
  }

  /** Within eight entries the step limit makes no difference. */
  lemma DropTogether(l: Length, all: seq<Fetch>, i: nat)
    requires |all| <= SLOTS && i < |all|
    ensures Drop(all, i) == all[i..]
    ensures Drop(all[i..], Step(l, all[i..])) == Drop(all, i + Words(l, all[i..]))
  {
  }

  lemma FlushStep(l: Length, all: seq<Fetch>, i: nat, before: seq<Line>, whole: seq<Line>)
    requires |all| <= SLOTS && i < |all|
    requires before + Sweep(l, Drop(all, i)) == whole
    ensures before + [Head(all[i..])] + Sweep(l, Drop(all, i + Words(l, all[i..]))) == whole
  {
    DropTogether(l, all, i);
    Reassociate(before, [Head(all[i..])], Sweep(l, Drop(all, i + Words(l, all[i..]))));
  }

  // ---- streaming against batch -------------------------------------------------------

  lemma HeadOfExtended(l: Length, w: seq<Fetch>, y: seq<Fetch>)
    requires |w| == SLOTS
    ensures Head(w + y) == Head(w) && Step(l, w + y) == Step(l, w)
    ensures Drop(w + y, Step(l, w)) == Drop(w, Step(l, w)) + y
  {
    assert Operands(w + y) == Operands(w);
  }

  /** However the run goes on, the lines so far and a sweep from the window's
      head make up the sweep of the whole run; the head is a sweep boundary. */
  ghost predicate Ahead(l: Length, run: seq<Fetch>, done: seq<Line>, w: seq<Fetch>) {
    forall y: seq<Fetch> {:trigger run + y} :: Sweep(l, run + y) == done + Sweep(l, w + y) && Remaining(l, run + y, |done|) == w + y
  }

  lemma AheadStart(l: Length, f: Fetch)
    ensures Ahead(l, [f], [], [f])
  {
    forall y: seq<Fetch> ensures Sweep(l, [f] + y) == [] + Sweep(l, [f] + y) && Remaining(l, [f] + y, 0) == [f] + y {
      assert [] + Sweep(l, [f] + y) == Sweep(l, [f] + y);
    }
  }

  lemma AheadAppend(l: Length, run: seq<Fetch>, done: seq<Line>, w: seq<Fetch>, f: Fetch)
    requires Ahead(l, run, done, w)
    ensures Ahead(l, run + [f], done, w + [f])
  {
    forall y: seq<Fetch> ensures Sweep(l, (run + [f]) + y) == done + Sweep(l, (w + [f]) + y)
                                 && Remaining(l, (run + [f]) + y, |done|) == (w + [f]) + y {
      assert (run + [f]) + y == run + ([f] + y) && (w + [f]) + y == w + ([f] + y);
    }
  }

  lemma {:induction false} RemainingNext(l: Length, run: seq<Fetch>, n: nat)
    ensures Remaining(l, run, n + 1) == (var w := Remaining(l, run, n); if w == [] then [] else Drop(w, Step(l, w)))
    decreases n
  {
    if n > 0 && run != [] {
      RemainingNext(l, Drop(run, Step(l, run)), n - 1);
    } else if run != [] {
      assert Remaining(l, run, 1) == Remaining(l, Drop(run, Step(l, run)), 0);
    }
  }

  lemma AheadShift(l: Length, run: seq<Fetch>, done: seq<Line>, w: seq<Fetch>)
    requires Ahead(l, run, done, w) && |w| == SLOTS
    ensures Ahead(l, run, done + [Head(w)], Drop(w, Step(l, w)))
  {
    var rest := Drop(w, Step(l, w));
    forall y: seq<Fetch> ensures Sweep(l, run + y) == (done + [Head(w)]) + Sweep(l, rest + y)
                                 && Remaining(l, run + y, |done + [Head(w)]|) == rest + y {
      HeadOfExtended(l, w, y);
      Reassociate(done, [Head(w)], Sweep(l, rest + y));
      RemainingNext(l, run + y, |done|);
    }
  }

  /** The lines of the run in progress that are already logged are `done`. */
  ghost predicate Logged(l: Length, s: Trace, d: seq<Fetch>, done: seq<Line>) {
    s.log == Expected(l, true, d[..RunStart(d)]) + done && Ahead(l, d[RunStart(d)..], done, s.window)
  }

  /** What holds after any fetches whose deduplicated list is d. */
  ghost predicate Inv(l: Length, s: Trace, d: seq<Fetch>) {
    && |s.window| <= SLOTS && Consecutive(s.window)
    && (d == [] ==> s.window == [] && s.log == [])
    && (d != [] ==> s.window != [] && s.window[|s.window| - 1] == d[|d| - 1] && s.lastPc == d[|d| - 1].pc
                    && exists done: seq<Line> :: Logged(l, s, d, done))
  }

  lemma RunStartAppend(d: seq<Fetch>, f: Fetch)
    ensures RunStart(d + [f]) == if d != [] && Follows(d[|d| - 1], f) then RunStart(d) else |d|
    ensures (d + [f])[..|d|] == d && (d + [f])[|d|..] == [f]
    ensures d != [] ==> (d + [f])[..RunStart(d)] == d[..RunStart(d)] && (d + [f])[RunStart(d)..] == d[RunStart(d)..] + [f]
  {
    hide Follows;
    var e := d + [f];
    assert e[|e| - 1] == f && e[..|e| - 1] == d;
    if d != [] {
      assert e[|e| - 2] == d[|d| - 1];
      AppendSlices(d, f, RunStart(d));
    }
  }

  lemma AppendSlices(d: seq<Fetch>, f: Fetch, r: nat)
    requires r <= |d|
    ensures (d + [f])[..r] == d[..r] && (d + [f])[r..] == d[r..] + [f]
  {
  }

  /** Flushing completes the sweep of the run in progress. */
  lemma FlushCompletes(l: Length, s: Trace, d: seq<Fetch>)
    requires Inv(l, s, d)
    ensures Flush(l, s).log == Expected(l, true, d)
  {
    if d != [] {
      var done: seq<Line> :| Logged(l, s, d, done);
      var run := d[RunStart(d)..];
      assert run + [] == run && s.window + [] == s.window;
      assert Sweep(l, run) == done + Sweep(l, s.window);
      Reassociate(Expected(l, true, d[..RunStart(d)]), done, Sweep(l, s.window));
    }
  }

  lemma BranchKeeps(l: Length, s: Trace, d: seq<Fetch>, f: Fetch)
    requires Inv(l, s, d) && f.pc != s.lastPc && (d != [] ==> !Follows(d[|d| - 1], f))
    ensures Inv(l, Record(l, s, f), d + [f])
  {
    FlushCompletes(l, s, d);
    RunStartAppend(d, f);
    AheadStart(l, f);
    var t := Record(l, s, f);
    assert t.window == [f];
    assert t.log == Flush(l, s).log;
    assert Logged(l, t, d + [f], []);
  }

  lemma {:induction false} ConsecutiveParts(w: seq<Fetch>, k: nat, f: Fetch)
    requires Consecutive(w) && w != [] && Follows(w[|w| - 1], f)
    ensures Consecutive(Drop(w, k) + [f])
  {
    var v := Drop(w, k) + [f];
    forall j {:trigger v[j]} | 0 < j < |v| ensures Follows(v[j - 1], v[j]) {
      assert v[j - 1] == w[k + j - 1];
      if j < |v| - 1 {
        assert v[j] == w[k + j];
      }
    }
  }

  lemma GrowKeeps(l: Length, s: Trace, d: seq<Fetch>, done: seq<Line>, f: Fetch)
    requires d != [] && Follows(d[|d| - 1], f) && Logged(l, s, d, done)
    ensures Logged(l, s.(lastPc := f.pc, window := s.window + [f]), d + [f], done)
  {
    hide Ahead, Expected, Follows;
    RunStartAppend(d, f);
    AheadAppend(l, d[RunStart(d)..], done, s.window, f);
  }

  lemma ShiftKeeps(l: Length, s: Trace, d: seq<Fetch>, done: seq<Line>)
    requires d != [] && |s.window| == SLOTS && Logged(l, s, d, done)
    ensures Logged(l, s.(log := s.log + [Head(s.window)], window := Drop(s.window, Step(l, s.window))), d, done + [Head(s.window)])
  {
    hide Ahead, Expected, Step, Drop, Head;
    AheadShift(l, d[RunStart(d)..], done, s.window);
    Reassociate(Expected(l, true, d[..RunStart(d)]), done, [Head(s.window)]);
  }

  lemma SequentialKeeps(l: Length, s: Trace, d: seq<Fetch>, f: Fetch)
    requires Inv(l, s, d) && f.pc != s.lastPc && d != [] && Follows(d[|d| - 1], f)
    ensures Inv(l, Record(l, s, f), d + [f])
  {
    hide Logged, Follows, Step;
    var done: seq<Line> :| Logged(l, s, d, done);
    if |s.window| < SLOTS {
      ConsecutiveParts(s.window, 0, f);
      assert Drop(s.window, 0) == s.window;
      GrowKeeps(l, s, d, done, f);
    } else {
      var k := Step(l, s.window);
      ConsecutiveParts(s.window, k, f);
      ShiftKeeps(l, s, d, done);
      GrowKeeps(l, s.(log := s.log + [Head(s.window)], window := Drop(s.window, k)), d, done + [Head(s.window)], f);
    }
  }

  const START := Trace([], 0xFFFF_FFFF, [])

  /** After every list of fetches the window holds at most eight consecutive
      PCs, starts at a sweep boundary, and the log is complete up to there. */
  lemma {:induction false} InvAlways(l: Length, fs: seq<Fetch>)
    ensures var s := RecordAll(l, START, fs);
            Inv(l, s, Deduplicated(START.lastPc, fs)) && s.lastPc == LastPc(START.lastPc, fs)
    decreases fs
  {
    if fs != [] {
      var rest, f := fs[..|fs| - 1], fs[|fs| - 1];
      InvAlways(l, rest);
      var s, d := RecordAll(l, START, rest), Deduplicated(START.lastPc, rest);
      if f.pc != s.lastPc {
        if d != [] && Follows(d[|d| - 1], f) {
          SequentialKeeps(l, s, d, f);
        } else {
          BranchKeeps(l, s, d, f);
        }
      }
    }
  }

  /** Streaming equals batch, for every length function and every fetch list:
      the log and a final flush are the sweeps of the maximal straight-line runs. */
  lemma StreamingEqualsBatch(l: Length, fs: seq<Fetch>)
    ensures Flush(l, RecordAll(l, START, fs)).log == Expected(l, true, Deduplicated(START.lastPc, fs))
  {
    InvAlways(l, fs);
    FlushCompletes(l, RecordAll(l, START, fs), Deduplicated(START.lastPc, fs));
  }

  // ---- when eight words are enough ----------------------------------------------------------

  /** At every sweep boundary the instruction has at most eight words, or the
      run is over within eight. */
  predicate Fits(l: Length, run: seq<Fetch>)
    decreases |run|
  {
    run == [] || ((Words(l, run) <= SLOTS || |run| <= SLOTS) && Fits(l, Drop(run, Step(l, run))))
  }

  lemma NextPc(a: nat)
    ensures (a % PCS + 2) % PCS == (a + 2) % PCS
  {
    var q, r := a / PCS, a % PCS;
    assert a == PCS * q + r;
    if r + 2 >= PCS {
      assert a + 2 == PCS * (q + 1) + (r + 2 - PCS);
    }
  }

  lemma {:induction false} ConsecutivePcs(run: seq<Fetch>, j: nat, k: nat)
    requires Consecutive(run) && j <= k < |run| && 0 <= run[j].pc < PCS
    ensures run[k].pc == (run[j].pc + 2 * (k - j)) % PCS
    decreases k
  {
    if j < k {
      ConsecutivePcs(run, j, k - 1);
      assert Follows(run[k - 1], run[k]);
      NextPc(run[j].pc + 2 * (k - 1 - j));
    }
  }

  lemma PcsDiffer(run: seq<Fetch>, j: nat, k: nat)
    requires Consecutive(run) && j < k < |run| <= PCS / 2 && 0 <= run[j].pc < PCS
    ensures run[j] != run[k]
  {
    ConsecutivePcs(run, j, k);
    var a, b := run[j].pc, 2 * (k - j);
    assert 0 < b < PCS;
    assert (a + b) % PCS == if a + b < PCS then a + b else a + b - PCS;
  }

  lemma SweepHeads(l: Length, run: seq<Fetch>)
    requires run != []
    ensures Sweep(l, run) == [Head(run)] + Sweep(l, Drop(run, Step(l, run)))
    ensures LinearSweep(l, run) == [Head(run)] + LinearSweep(l, Drop(run, Words(l, run)))
    ensures Head(run).fetch == run[0]
  {
  }

  lemma FirstLinesDiffer(l: Length, near: seq<Fetch>, far: seq<Fetch>)
    requires near != [] && (far != [] ==> near[0] != far[0])
    ensures Sweep(l, near) != LinearSweep(l, far)
  {
    hide *;
    SweepHeads(l, near);
    var rest := Sweep(l, Drop(near, Step(l, near)));
    assert ([Head(near)] + rest)[0] == Head(near);
    if far == [] {
      EmptySweep(l);
    } else {
      SweepHeads(l, far);
      var farRest := LinearSweep(l, Drop(far, Words(l, far)));
      assert ([Head(far)] + farRest)[0] == Head(far);
    }
  }

  lemma EmptySweep(l: Length)
    ensures LinearSweep(l, []) == []
  {
  }

  /** A step of more than eight words over a longer run shows in the log. */
  lemma LongStepDiffers(l: Length, run: seq<Fetch>)
    requires Consecutive(run) && |run| <= PCS / 2 && forall i :: 0 <= i < |run| ==> 0 <= run[i].pc < PCS
    requires run != [] && Words(l, run) > SLOTS && |run| > SLOTS
    ensures Sweep(l, run) != LinearSweep(l, run)
  {
    hide Sweep, LinearSweep, Words, Head, Operands;
    SweepHeads(l, run);
    var w := Words(l, run);
    var near, far := Drop(run, SLOTS), Drop(run, w);
    if far != [] {
      PcsDiffer(run, SLOTS, w);
      assert near[0] == run[SLOTS] && far[0] == run[w];
    }
    FirstLinesDiffer(l, near, far);
    SameTails([Head(run)], Sweep(l, near), LinearSweep(l, far));
  }

  /** The limited sweep is the linear sweep exactly when the run fits. The run
      is shorter than the address space, so no PC comes twice. */
  lemma {:induction false} LimitIsHarmlessIff(l: Length, run: seq<Fetch>)
    requires Consecutive(run) && |run| <= PCS / 2 && forall i :: 0 <= i < |run| ==> 0 <= run[i].pc < PCS
    ensures Sweep(l, run) == LinearSweep(l, run) <==> Fits(l, run)
    decreases |run|
  {
    if run != [] {
      var rest := Drop(run, Step(l, run));
      ConsecutiveDrop(run, Step(l, run));
      if Words(l, run) <= SLOTS || |run| <= SLOTS {
        hide Words, Operands;
        assert rest == Drop(run, Words(l, run));
        LimitIsHarmlessIff(l, rest);
        SameTails([Head(run)], Sweep(l, rest), LinearSweep(l, rest));
      } else {
        LongStepDiffers(l, run);
      }
    }
  }

  lemma SameTails(a: seq<Line>, b: seq<Line>, c: seq<Line>)
    ensures a + b == a + c <==> b == c
  {
    if a + b == a + c {
      assert b == (a + b)[|a|..] && c == (a + c)[|a|..];
    }
  }

  lemma ConsecutiveDrop(run: seq<Fetch>, w: nat)
    requires Consecutive(run)
    ensures Consecutive(Drop(run, w))
  {
    var v := Drop(run, w);
    forall j {:trigger v[j]} | 0 < j < |v| ensures Follows(v[j - 1], v[j]) {
      assert v[j - 1] == run[w + j - 1] && v[j] == run[w + j];
    }
  }

  ghost predicate AtMostEightWords(l: Length) {
    forall pc: int, words: seq<int> {:trigger l(pc, words)} :: l(pc, words) <= 2 * SLOTS + 1
  }

  lemma {:induction false} ShortInstructionsFit(l: Length, run: seq<Fetch>)
    requires AtMostEightWords(l)
    ensures Sweep(l, run) == LinearSweep(l, run)
    decreases |run|
  {
    if run != [] {
      assert l(run[0].pc, Operands(run)) <= 2 * SLOTS + 1;
      ShortInstructionsFit(l, Drop(run, Step(l, run)));
    }
  }

  lemma {:induction false} ExpectedUnlimited(l: Length, d: seq<Fetch>)
    requires AtMostEightWords(l)
    ensures Expected(l, true, d) == Expected(l, false, d)
    decreases |d|
  {
    if d != [] {
      ExpectedUnlimited(l, d[..RunStart(d)]);
      ShortInstructionsFit(l, d[RunStart(d)..]);
    }
  }

  /** With instructions of at most eight words the window logs exactly the
      linear sweep of every straight-line run. */
  lemma WindowIsLinearSweep(l: Length, fs: seq<Fetch>)
    requires AtMostEightWords(l)
    ensures Flush(l, RecordAll(l, START, fs)).log == Expected(l, false, Deduplicated(START.lastPc, fs))
  {
    StreamingEqualsBatch(l, fs);
    ExpectedUnlimited(l, Deduplicated(START.lastPc, fs));
  }

  function StraightLine(n: nat): seq<Fetch> { seq(n, k => Fetch(2 * k, 0, 0, 0)) }

  /** The longest 68020 instruction has eleven words. On a run of one such
      instruction and its successor the window logs an operand word as an opcode. */
  lemma ElevenWordsBreakIt()
    ensures var l: Length := (pc, words) => 22;
            !Fits(l, StraightLine(12)) && Sweep(l, StraightLine(12)) != LinearSweep(l, StraightLine(12))
  {
    var l: Length := (pc, words) => 22;
    var run := StraightLine(12);
    assert Words(l, run) == 11;
    LimitIsHarmlessIff(l, run);
  }
}
