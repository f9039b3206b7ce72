/** When the trace of a whole fetch history, many runs long, is the linear sweep of every run. */
module TraceRuns {
  import opened TraceWindow

  type Run = seq<Fetch>

  /** The maximal straight-line runs of a history, in order. */
  function Runs(d: seq<Fetch>): seq<Run>
    decreases |d|
  {
    if d == [] then [] else Runs(d[..RunStart(d)]) + [d[RunStart(d)..]]
  }

  /** A run shorter than the address space, so that no PC comes twice. */
  ghost predicate Sound(run: Run) {
    run != [] && Consecutive(run) && |run| <= PCS / 2 && forall i :: 0 <= i < |run| ==> 0 <= run[i].pc < PCS
  }

  ghost predicate AllSound(rs: seq<Run>) { forall k :: 0 <= k < |rs| ==> Sound(rs[k]) }

  function Advance(l: Length, limited: bool, run: Run): (w: nat)
    requires run != []
    ensures w >= 1
  {
    if limited then Step(l, run) else Words(l, run)
  }

  function SweepOf(l: Length, limited: bool, run: Run): seq<Line> {
    if limited then Sweep(l, run) else LinearSweep(l, run)
  }

  /** A place in a list of runs: before word p of run i, or behind the last run. */
  datatype Place = Place(i: nat, p: nat)

  predicate At(rs: seq<Run>, x: Place) { x.i <= |rs| && if x.i < |rs| then x.p < |rs[x.i]| else x.p == 0 }

  /** One instruction further. */
  ghost function Next(l: Length, limited: bool, rs: seq<Run>, x: Place): (y: Place)
    requires AllSound(rs) && At(rs, x) && x.i < |rs|
    ensures At(rs, y) && if y.i == x.i then y.p > x.p else y == Place(x.i + 1, 0)
  {
    var w := Advance(l, limited, rs[x.i][x.p..]);
    FirstWord(rs, x.i + 1);
    if x.p + w < |rs[x.i]| then Place(x.i, x.p + w) else Place(x.i + 1, 0)
  }

  /** The log from there on, one line at a time. */
  ghost function From(l: Length, limited: bool, rs: seq<Run>, x: Place): seq<Line>
    requires AllSound(rs) && At(rs, x)
    decreases |rs| - x.i, if x.i < |rs| then |rs[x.i]| - x.p else 0
  {
    if x.i == |rs| then [] else [Head(rs[x.i][x.p..])] + From(l, limited, rs, Next(l, limited, rs, x))
  }

  lemma FirstWord(rs: seq<Run>, i: nat)
    requires AllSound(rs) && i <= |rs|
    ensures At(rs, Place(i, 0))
  {
    if i < |rs| { assert Sound(rs[i]); }
  }

  /** The log from the start of run i. */
  ghost function FromRun(l: Length, limited: bool, rs: seq<Run>, i: nat): seq<Line>
    requires AllSound(rs) && i <= |rs|
  {
    FirstWord(rs, i);
    From(l, limited, rs, Place(i, 0))
  }

  lemma SweepOfStep(l: Length, limited: bool, run: Run)
    requires run != []
    ensures SweepOf(l, limited, run) == [Head(run)] + SweepOf(l, limited, Drop(run, Advance(l, limited, run)))
    ensures SweepOf(l, limited, []) == []
  {
  }

  /** The rest of a run, then the later runs. */
  lemma {:induction false} FromIsSweep(l: Length, limited: bool, rs: seq<Run>, x: Place)
    requires AllSound(rs) && At(rs, x) && x.i < |rs|
    ensures From(l, limited, rs, x) == SweepOf(l, limited, rs[x.i][x.p..]) + FromRun(l, limited, rs, x.i + 1)
    decreases |rs[x.i]| - x.p
  {
    hide SweepOf, Advance, Head, AllSound;
    var run := rs[x.i][x.p..];
    var w := Advance(l, limited, run);
    SweepOfStep(l, limited, run);
    if w < |run| {
      FromIsSweep(l, limited, rs, Place(x.i, x.p + w));
      assert Drop(run, w) == rs[x.i][x.p + w..];
      Reassociate([Head(run)], SweepOf(l, limited, Drop(run, w)), FromRun(l, limited, rs, x.i + 1));
    } else {
      assert [Head(run)] + [] == [Head(run)];
    }
  }

  ghost function Concat(l: Length, limited: bool, rs: seq<Run>): seq<Line> {
    if rs == [] then [] else Concat(l, limited, rs[..|rs| - 1]) + SweepOf(l, limited, rs[|rs| - 1])
  }

  lemma {:induction false} ConcatThenFrom(l: Length, limited: bool, rs: seq<Run>, i: nat)
    requires AllSound(rs) && i <= |rs|
    ensures Concat(l, limited, rs[..i]) + FromRun(l, limited, rs, i) == FromRun(l, limited, rs, 0)
  {
    hide SweepOf, AllSound;
    if i == 0 {
      assert rs[..0] == [] && Concat(l, limited, rs[..0]) == [];
    } else {
      ConcatThenFrom(l, limited, rs, i - 1);
      FirstWord(rs, i - 1);
      FromIsSweep(l, limited, rs, Place(i - 1, 0));
      assert rs[i - 1][0..] == rs[i - 1];
      assert rs[..i][..i - 1] == rs[..i - 1] && rs[..i][i - 1] == rs[i - 1];
      Reassociate(Concat(l, limited, rs[..i - 1]), SweepOf(l, limited, rs[i - 1]), FromRun(l, limited, rs, i));
    }
  }

  lemma {:induction false} ExpectedIsConcat(l: Length, limited: bool, d: seq<Fetch>)
    ensures Expected(l, limited, d) == Concat(l, limited, Runs(d))
    decreases |d|
  {
    if d != [] {
      var r := RunStart(d);
      ExpectedIsConcat(l, limited, d[..r]);
      var rs := Runs(d);
      assert rs[..|rs| - 1] == Runs(d[..r]) && rs[|rs| - 1] == d[r..];
    }
  }

  lemma ExpectedIsFrom(l: Length, limited: bool, d: seq<Fetch>)
    requires AllSound(Runs(d))
    ensures Expected(l, limited, d) == FromRun(l, limited, Runs(d), 0)
  {
    var rs := Runs(d);
    hide *;
    ExpectedIsConcat(l, limited, d);
    ConcatThenFrom(l, limited, rs, |rs|);
    NothingAfter(l, limited, rs);
    assert rs[..|rs|] == rs && Concat(l, limited, rs) + [] == Concat(l, limited, rs);
  }

  lemma NothingAfter(l: Length, limited: bool, rs: seq<Run>)
    requires AllSound(rs)
    ensures FromRun(l, limited, rs, |rs|) == []
  {
  }

  // ---- two logs over the same runs ---------------------------------------------------

  lemma FromStep(l: Length, limited: bool, rs: seq<Run>, x: Place)
    requires AllSound(rs) && At(rs, x) && x.i < |rs|
    ensures var ls := From(l, limited, rs, x);
            ls != [] && ls[0] == Head(rs[x.i][x.p..]) && ls[0].fetch == rs[x.i][x.p]
            && ls[1..] == From(l, limited, rs, Next(l, limited, rs, x))
  {
    assert rs[x.i][x.p..][0] == rs[x.i][x.p];
  }

  /** Different words of one run give different lines. */
  lemma SameRunDiffers(l: Length, rs: seq<Run>, x: Place, y: Place)
    requires AllSound(rs) && At(rs, x) && At(rs, y) && x.i == y.i < |rs| && x.p < y.p
    ensures From(l, true, rs, x) != From(l, false, rs, y)
  {
    FromStep(l, true, rs, x);
    FromStep(l, false, rs, y);
    assert Sound(rs[x.i]);
    PcsDiffer(rs[x.i], x.p, y.p);
  }

  lemma EndDiffers(l: Length, rs: seq<Run>, x: Place, y: Place)
    requires AllSound(rs) && At(rs, x) && At(rs, y) && x.i < |rs| == y.i
    ensures From(l, true, rs, x) != From(l, false, rs, y)
  {
    FromStep(l, true, rs, x);
  }

  lemma TailsDiffer(a: seq<Line>, b: seq<Line>)
    requires a != [] && b != [] && a[1..] != b[1..]
    ensures a != b
  {
  }

  /** Once the limited log is in an earlier run than the linear one it cannot
      catch up: it would have to enter the linear one's run at its first word. */
  lemma {:induction false} Behind(l: Length, rs: seq<Run>, x: Place, y: Place)
    requires AllSound(rs) && At(rs, x) && At(rs, y) && x.i < y.i < |rs|
    ensures From(l, true, rs, x) != From(l, false, rs, y)
    decreases |rs| - x.i, |rs[x.i]| - x.p
  {
    hide AllSound, From, Advance, Head;
    var x', y' := Next(l, true, rs, x), Next(l, false, rs, y);
    hide Next;
    if y'.i == |rs| {
      EndDiffers(l, rs, x', y');
    } else if x'.i < y'.i {
      Behind(l, rs, x', y');
    } else {
      SameRunDiffers(l, rs, x', y');
    }
    FromStep(l, true, rs, x);
    FromStep(l, false, rs, y);
    TailsDiffer(From(l, true, rs, x), From(l, false, rs, y));
  }

  /** Every run from here on fits the eight-word limit. */
  ghost predicate FitFrom(l: Length, rs: seq<Run>, x: Place)
    requires At(rs, x)
  {
    x.i < |rs| ==> Fits(l, rs[x.i][x.p..]) && forall k :: x.i < k < |rs| ==> Fits(l, rs[k])
  }

  lemma FitsStep(l: Length, run: Run)
    requires run != []
    ensures Fits(l, run) <==> (Words(l, run) <= SLOTS || |run| <= SLOTS) && Fits(l, Drop(run, Step(l, run)))
    ensures Fits(l, [])
  {
  }

  lemma FitFromStep(l: Length, rs: seq<Run>, x: Place)
    requires AllSound(rs) && At(rs, x) && x.i < |rs|
    ensures var run := rs[x.i][x.p..];
            FitFrom(l, rs, x) <==> (Words(l, run) <= SLOTS || |run| <= SLOTS) && FitFrom(l, rs, Next(l, true, rs, x))
  {
    hide Fits, Words, Step;
    var run, y := rs[x.i][x.p..], Next(l, true, rs, x);
    FitsStep(l, run);
    if y.i == x.i {
      assert Drop(run, Step(l, run)) == rs[y.i][y.p..];
    } else {
      assert Drop(run, Step(l, run)) == [];
      if y.i < |rs| { assert rs[y.i][0..] == rs[y.i]; }
    }
  }

  /** A step within the limit is the same step; a longer one over more words is not. */
  lemma NextTogether(l: Length, rs: seq<Run>, x: Place)
    requires AllSound(rs) && At(rs, x) && x.i < |rs|
    ensures var run, y, z := rs[x.i][x.p..], Next(l, true, rs, x), Next(l, false, rs, x);
            if Words(l, run) <= SLOTS || |run| <= SLOTS then y == z
            else y.i == x.i && (z.i > y.i || z.p > y.p)
  {
  }

  /** From one and the same place the two logs agree exactly when everything from there on fits. */
  lemma {:induction false} AgreeIff(l: Length, rs: seq<Run>, x: Place)
    requires AllSound(rs) && At(rs, x)
    ensures From(l, true, rs, x) == From(l, false, rs, x) <==> FitFrom(l, rs, x)
    decreases |rs| - x.i, if x.i < |rs| then |rs[x.i]| - x.p else 0
  {
    if x.i == |rs| {
      assert From(l, true, rs, x) == [] == From(l, false, rs, x);
    } else {
      hide AllSound, From, Advance, Head, FitFrom, Words;
      FitFromStep(l, rs, x);
      NextTogether(l, rs, x);
      var run, y, z := rs[x.i][x.p..], Next(l, true, rs, x), Next(l, false, rs, x);
      hide Next;
      FromStep(l, true, rs, x);
      FromStep(l, false, rs, x);
      if Words(l, run) <= SLOTS || |run| <= SLOTS {
        AgreeIff(l, rs, y);
        TailsDecide(From(l, true, rs, x), From(l, false, rs, x));
      } else {
        if z.i == |rs| {
          EndDiffers(l, rs, y, z);
        } else if y.i < z.i {
          Behind(l, rs, y, z);
        } else {
          SameRunDiffers(l, rs, y, z);
        }
        TailsDiffer(From(l, true, rs, x), From(l, false, rs, x));
      }
    }
  }

  lemma TailsDecide(a: seq<Line>, b: seq<Line>)
    requires a != [] && b != [] && a[0] == b[0]
    ensures a == b <==> a[1..] == b[1..]
  {
    assert a == [a[0]] + a[1..] && b == [b[0]] + b[1..];
  }

  // ---- the whole trace -------------------------------------------------------------------

  lemma {:induction false} RunStartRun(d: seq<Fetch>)
    requires d != []
    ensures Consecutive(d[RunStart(d)..])
    decreases |d|
  {
    var r, n := RunStart(d), |d| - 1;
    var run := d[r..];
    if |d| >= 2 && Follows(d[n - 1], d[n]) {
      RunStartRun(d[..n]);
      var before := d[..n][r..];
      forall k {:trigger run[k]} | 0 < k < |run| ensures Follows(run[k - 1], run[k]) {
        assert run[k] == d[r + k] && run[k - 1] == d[r + k - 1];
        if r + k < n { assert before[k] == d[r + k] && before[k - 1] == d[r + k - 1]; }
      }
    }
  }

  /** Fetches hold 32-bit PCs, and no straight-line run goes once around the address space. */
  ghost predicate NoWrap(d: seq<Fetch>) {
    && (forall k :: 0 <= k < |d| ==> 0 <= d[k].pc < PCS)
    && forall k :: 0 <= k < |Runs(d)| ==> |Runs(d)[k]| <= PCS / 2
  }

  lemma {:induction false} RunsAreSound(d: seq<Fetch>)
    requires NoWrap(d)
    ensures AllSound(Runs(d))
    decreases |d|
  {
    if d != [] {
      var r, rs := RunStart(d), Runs(d);
      RunStartRun(d);
      assert rs[|rs| - 1] == d[r..] && rs[..|rs| - 1] == Runs(d[..r]);
      assert NoWrap(d[..r]) by {
        forall k | 0 <= k < |Runs(d[..r])| ensures |Runs(d[..r])[k]| <= PCS / 2 { assert Runs(d[..r])[k] == rs[k]; }
      }
      RunsAreSound(d[..r]);
      forall k | 0 <= k < |rs| ensures Sound(rs[k]) {
        if k < |rs| - 1 { assert rs[k] == Runs(d[..r])[k]; }
      }
    }
  }

  lemma FitFromStart(l: Length, rs: seq<Run>)
    requires At(rs, Place(0, 0))
    ensures FitFrom(l, rs, Place(0, 0)) <==> forall k :: 0 <= k < |rs| ==> Fits(l, rs[k])
  {
    if rs != [] { assert rs[0][0..] == rs[0]; }
  }

  /** The whole log, however many runs and whatever repeats among them, is the
      linear sweep of every run exactly when every run fits the eight-word limit. */
  lemma TraceIsLinearIff(l: Length, fs: seq<Fetch>)
    requires NoWrap(Deduplicated(START.lastPc, fs))
    ensures var d := Deduplicated(START.lastPc, fs);
            Flush(l, RecordAll(l, START, fs)).log == Expected(l, false, d)
            <==> forall k :: 0 <= k < |Runs(d)| ==> Fits(l, Runs(d)[k])
  {
    hide *;
    var d := Deduplicated(START.lastPc, fs);
    var rs := Runs(d);
    RunsAreSound(d);
    StreamingEqualsBatch(l, fs);
    ExpectedIsFrom(l, true, d);
    ExpectedIsFrom(l, false, d);
    FirstWord(rs, 0);
    FromRunIs(l, true, rs);
    FromRunIs(l, false, rs);
    AgreeIff(l, rs, Place(0, 0));
    FitFromStart(l, rs);
  }

  lemma FromRunIs(l: Length, limited: bool, rs: seq<Run>)
    requires AllSound(rs) && At(rs, Place(0, 0))
    ensures FromRun(l, limited, rs, 0) == From(l, limited, rs, Place(0, 0))
  {
  }
}
