/** Running a built program on any core that implements the emitted subset.
    Preload and test are arbitrary machine code: they appear only through the
    effect they have on what a fragment can see. */
module HarnessRuns {
  import opened Basics
  import opened M68k
  import opened StateDump
  import opened Harness

  /** The state a preload or test may read and write: everything but A7. */
  datatype View = View(d: Registers, a: seq<long>, ccr: Ccr, ram: seq<byte>)

  function ViewOf(m: Machine, l: Layout): View
    requires l.Valid()
  {
    View(m.d, m.a[..7], m.ccr, m.mem[l.scratch..l.scratch + SCRATCH_LEN])
  }

  /** What the prologue leaves: D0-D7 and A0-A5 zero, A6 the scratch base, CCR clear. */
  function CleanView(l: Layout, ram: seq<byte>): View
    requires l.Valid()
  {
    View([0, 0, 0, 0, 0, 0, 0, 0], [0, 0, 0, 0, 0, 0, l.scratch], CcrOfByte(0), ram)
  }

  predicate SameOutside(x: Memory, y: Memory, a: int, len: int) {
    forall k :: 0 <= k < MEM_SIZE && !(a <= k < a + len) ==> x[k] == y[k]
  }

  function PreloadPc(l: Layout): int { l.prog + 38 }

  function InitPc(v: Variant, t: TestSpec, l: Layout): int
    requires l.Valid()
  {
    l.prog + |Leading(v, t, l)|
  }

  function FinalPc(v: Variant, t: TestSpec, l: Layout): int
    requires l.Valid()
  {
    InitPc(v, t, l) + |t.test|
  }

  /** Wherever the preload starts inside the loaded program, it runs to its end,
      turning what it sees into `effect` of it, and keeps A7 and all memory
      outside scratch. */
  ghost predicate PreloadRuns(core: Machine -> Machine, v: Variant, t: TestSpec, l: Layout, effect: View -> View)
    requires l.Valid()
  {
    forall m: Machine :: m.pc == PreloadPc(l) && Loaded(m.mem, l.prog, Program(v, t, l)) ==>
      exists m' :: PreloadDone(core, m, m', t, l, effect)
  }

  ghost predicate PreloadDone(core: Machine -> Machine, m: Machine, m': Machine, t: TestSpec, l: Layout, effect: View -> View)
    requires l.Valid()
  {
    && Reaches(core, m, m') && m'.pc == m.pc + |t.preload|
    && ViewOf(m', l) == effect(ViewOf(m, l)) && m'.a[7] == m.a[7]
    && SameOutside(m.mem, m'.mem, l.scratch, SCRATCH_LEN)
  }

  /** Does the epilogue put A7 back itself? */
  predicate RestoresA7(v: Variant, t: TestSpec) {
    v.Bracketed? || NeedsFixup(t)
  }

  /** From init_pc the test runs to final_pc with the given effect. It may leave
      anything in A7 when the epilogue restores it, and must keep the program,
      the saved slot, the initial snapshot and the return address on the stack. */
  ghost predicate TestRuns(core: Machine -> Machine, v: Variant, t: TestSpec, l: Layout, sp: int, effect: View -> View)
    requires l.Valid() && InRange(sp, 4)
  {
    forall m: Machine :: m.pc == InitPc(v, t, l) && Loaded(m.mem, l.prog, Program(v, t, l)) && m.a[7] == sp ==>
      exists m' :: TestDone(core, m, m', v, t, l, sp, effect)
  }

  ghost predicate TestDone(core: Machine -> Machine, m: Machine, m': Machine, v: Variant, t: TestSpec, l: Layout, sp: int, effect: View -> View)
    requires l.Valid() && InRange(sp, 4)
  {
    && Reaches(core, m, m') && m'.pc == FinalPc(v, t, l)
    && ViewOf(m', l) == effect(ViewOf(m, l))
    && (RestoresA7(v, t) || m'.a[7] == sp)
    && Loaded(m'.mem, l.prog, Program(v, t, l))
    && ReadLong(m'.mem, l.saved) == ReadLong(m.mem, l.saved)
    && ReadLong(m'.mem, sp) == ReadLong(m.mem, sp)
    && ReadSnapshot(m'.mem, l.initSnap) == ReadSnapshot(m.mem, l.initSnap)
  }

  // ---- the prologue ------------------------------------------------------------

  lemma {:induction false} ClearDataEffect(m: Machine, n: int)
    requires 0 <= n <= 8
    ensures ExecAll(ClearData(n), m).Some?
    ensures var m' := ExecAll(ClearData(n), m).value;
            && m'.a == m.a && m'.mem == m.mem
            && forall k :: 0 <= k < 8 ==> m'.d[k] == if k < n then 0 else m.d[k]
  {
    if n > 0 {
      ClearDataEffect(m, n - 1);
      var last := [MoveQ(n - 1, 0)];
      var m1 := ExecAll(ClearData(n - 1), m).value;
      assert ClearData(n) == ClearData(n - 1) + last;
      ExecAllAppend(ClearData(n - 1), last, m);
      ExecOne(last[0], m1);
    }
  }

  lemma ExecOne(i: Instr, m: Machine)
    ensures ExecAll([i], m) == Exec(i, m)
  {
    if Exec(i, m).Some? {
      assert ExecAll([i][1..], Exec(i, m).value) == Some(Exec(i, m).value);
    }
  }

  lemma {:induction false} ClearAddressEffect(m: Machine, n: int)
    requires 0 <= n <= 6
    ensures ExecAll(ClearAddress(n), m).Some?
    ensures var m' := ExecAll(ClearAddress(n), m).value;
            && m'.d == m.d && m'.mem == m.mem
            && forall k :: 0 <= k < 8 ==> m'.a[k] == if k < n then 0 else m.a[k]
  {
    if n > 0 {
      ClearAddressEffect(m, n - 1);
      var last := [SubA(n - 1, n - 1)];
      var m1 := ExecAll(ClearAddress(n - 1), m).value;
      assert ClearAddress(n) == ClearAddress(n - 1) + last;
      ExecAllAppend(ClearAddress(n - 1), last, m);
      ExecOne(last[0], m1);
    }
  }

  lemma LastTwo(m: Machine, l: Layout) returns (m': Machine)
    requires l.Valid()
    ensures ExecAll([MoveAImm(6, l.scratch), MoveToCcr(0)], m) == Some(m')
    ensures m'.d == m.d && m'.a == m.a[6 := l.scratch] && m'.ccr == CcrOfByte(0) && m'.mem == m.mem
  {
    var a6, cc := MoveAImm(6, l.scratch), MoveToCcr(0);
    var m1 := Exec(a6, m).value;
    m' := Exec(cc, m1).value;
    ExecOne(a6, m);
    ExecOne(cc, m1);
    ExecAllAppend([a6], [cc], m);
    assert [a6] + [cc] == [a6, cc];
  }

  lemma ClearsEffect(m: Machine) returns (m': Machine)
    ensures ExecAll(ClearData(8) + ClearAddress(6), m) == Some(m')
    ensures m'.mem == m.mem && (forall k :: 0 <= k < 8 ==> m'.d[k] == 0)
    ensures forall k :: 0 <= k < 8 ==> m'.a[k] == if k < 6 then 0 else m.a[k]
  {
    ClearDataEffect(m, 8);
    var m1 := ExecAll(ClearData(8), m).value;
    ClearAddressEffect(m1, 6);
    m' := ExecAll(ClearAddress(6), m1).value;
    ExecAllAppend(ClearData(8), ClearAddress(6), m);
  }

  /** The prologue erases the caller's registers. */
  lemma PrologueEffect(m: Machine, l: Layout) returns (m': Machine)
    requires l.Valid()
    ensures ExecAll(PrologueCode(l), m) == Some(m')
    ensures m'.mem == m.mem && m'.a[7] == m.a[7] && m'.pc == m.pc + 38
    ensures ViewOf(m', l) == CleanView(l, m.mem[l.scratch..l.scratch + SCRATCH_LEN])
  {
    var m1 := ClearsEffect(m);
    m' := LastTwo(m1, l);
    ExecAllAppend(ClearData(8) + ClearAddress(6), [MoveAImm(6, l.scratch), MoveToCcr(0)], m);
    PrologueBytes(l);
    PrologueIsStraight(l);
    ExecAllAdvances(PrologueCode(l), m);
    AllClear(m1.d, m1.a, l);
  }

  lemma PrologueIsStraight(l: Layout)
    requires l.Valid()
    ensures forall k :: 0 <= k < |PrologueCode(l)| ==> !PrologueCode(l)[k].Rts? && Harmless(PrologueCode(l)[k], 0, MEM_SIZE)
  {
  }

  lemma AllClear(d: Registers, a: Registers, l: Layout)
    requires l.Valid() && (forall k :: 0 <= k < 8 ==> d[k] == 0) && (forall k :: 0 <= k < 6 ==> a[k] == 0)
    ensures d == [0, 0, 0, 0, 0, 0, 0, 0] && a[6 := l.scratch][..7] == [0, 0, 0, 0, 0, 0, l.scratch]
  {
  }

  // ---- pieces of the loaded program ---------------------------------------------

  lemma LoadedFive(mem: Memory, at: int, a: seq<byte>, b: seq<byte>, c: seq<byte>, d: seq<byte>, e: seq<byte>)
    requires Loaded(mem, at, a + b + c + d + e)
    ensures Loaded(mem, at, a) && Loaded(mem, at + |a| + |b|, c) && Loaded(mem, at + |a| + |b| + |c| + |d|, e)
  {
    LoadedSplit(mem, at, a + b + c + d, e);
    LoadedSplit(mem, at, a + b + c, d);
    LoadedSplit(mem, at, a + b, c);
    LoadedSplit(mem, at, a, b);
  }

  lemma ProgramShape(v: Variant, t: TestSpec, l: Layout)
    requires l.Valid() && t.Valid()
    ensures Program(v, t, l)
         == EncodeAll(PrologueCode(l)) + t.preload + EncodeAll(BeforeTest(v, l)) + t.test + EncodeAll(AfterTest(v, t, l))
    ensures InitPc(v, t, l) == PreloadPc(l) + |t.preload| + |EncodeAll(BeforeTest(v, l))|
    ensures FinalPc(v, t, l) + |EncodeAll(AfterTest(v, t, l))| == l.prog + |Program(v, t, l)| <= l.prog + PROG_LEN
  {
    ProgramLength(v, t, l);
    PrologueBytes(l);
  }

  lemma ProgramPieces(mem: Memory, v: Variant, t: TestSpec, l: Layout)
    requires l.Valid() && t.Valid() && Loaded(mem, l.prog, Program(v, t, l))
    ensures Loaded(mem, l.prog, EncodeAll(PrologueCode(l)))
    ensures Loaded(mem, PreloadPc(l) + |t.preload|, EncodeAll(BeforeTest(v, l)))
    ensures InitPc(v, t, l) == PreloadPc(l) + |t.preload| + |EncodeAll(BeforeTest(v, l))|
    ensures Loaded(mem, FinalPc(v, t, l), EncodeAll(AfterTest(v, t, l)))
    ensures FinalPc(v, t, l) + |EncodeAll(AfterTest(v, t, l))| <= l.prog + PROG_LEN
  {
    ProgramShape(v, t, l);
    PrologueBytes(l);
    var a, c, e := EncodeAll(PrologueCode(l)), EncodeAll(BeforeTest(v, l)), EncodeAll(AfterTest(v, t, l));
    LoadedFive(mem, l.prog, a, t.preload, c, t.test, e);
  }

  lemma StillLoaded(mem: Memory, mem': Memory, a: int, len: int, at: int, code: seq<byte>)
    requires Loaded(mem, at, code) && SameOutside(mem, mem', a, len) && Apart(at, |code|, a, len)
    ensures Loaded(mem', at, code)
  {
    assert mem'[at..at + |code|] == mem[at..at + |code|];
  }

  /** One instruction of loaded code. */
  lemma RunOne(core: Machine -> Machine, i: Instr, m: Machine) returns (m': Machine)
    requires Implements(core) && Loaded(m.mem, m.pc, Encode(i)) && Exec(i, m).Some?
    ensures Reaches(core, m, m') && Exec(i, m) == Some(m')
  {
    StepRuns(core, i, m);
    m' := core(m);
    assert Iterate(core, m, 1) == Iterate(core, core(m), 0);
  }

  // ---- reaching the test ----------------------------------------------------------

  /** Addresses the program up to the test never writes. */
  predicate Untouched(l: Layout, k: int) {
    !(l.initSnap <= k < l.initSnap + SNAP_LEN) && !(l.scratch <= k < l.scratch + SCRATCH_LEN) && !(l.saved <= k < l.saved + 4)
  }

  /** The state at init_pc. */
  ghost predicate AtInit(m: Machine, m': Machine, v: Variant, t: TestSpec, l: Layout, preload: View -> View)
    requires l.Valid()
  {
    var input := preload(CleanView(l, m.mem[l.scratch..l.scratch + SCRATCH_LEN]));
    var snap := ReadSnapshot(m'.mem, l.initSnap);
    && m'.pc == InitPc(v, t, l) && m'.a[7] == m.a[7]
    && m'.d == input.d && m'.a[..7] == input.a
    && m'.mem[l.scratch..l.scratch + SCRATCH_LEN] == input.ram
    && snap.d == input.d && snap.a == input.a + [m.a[7]] && snap.ccrHigh == 0 && snap.ram == input.ram
    && |input.ram| == SCRATCH_LEN
    && snap.ccr == InitialCcr(input).ToByte()
    && m'.ccr == (if v.Bench? then InitialCcr(input) else MoveFlags(InitialCcr(input), m.a[7]))
    && Loaded(m'.mem, l.prog, Program(v, t, l))
    && (forall k :: 0 <= k < MEM_SIZE && Untouched(l, k) ==> m'.mem[k] == m.mem[k])
    && ReadLong(m'.mem, l.saved) == (if v.Bench? then ReadLong(m.mem, l.saved) else m.a[7])
  }

  /** The CCR after the initial dump: X as the preload left it, N and Z from the last scratch long. */
  function InitialCcr(input: View): Ccr
    requires |input.ram| == SCRATCH_LEN
  {
    MoveFlags(input.ccr, JoinLong(input.ram[SCRATCH_LEN - 4..]))
  }

  lemma RunPrologue(core: Machine -> Machine, m: Machine, v: Variant, t: TestSpec, l: Layout) returns (m': Machine)
    requires Implements(core) && l.Valid() && t.Valid()
    requires m.pc == l.prog && Loaded(m.mem, l.prog, Program(v, t, l))
    ensures Reaches(core, m, m') && m'.pc == PreloadPc(l) && m'.mem == m.mem && m'.a[7] == m.a[7]
    ensures ViewOf(m', l) == CleanView(l, m.mem[l.scratch..l.scratch + SCRATCH_LEN])
  {
    ProgramPieces(m.mem, v, t, l);
    m' := PrologueEffect(m, l);
    PrologueIsStraight(l);
    CodeRuns(core, PrologueCode(l), m);
  }

  /** The dump and the A7 save lie in the program, before the test. */
  lemma BeforeTestLoaded(mem: Memory, v: Variant, t: TestSpec, l: Layout)
    requires l.Valid() && t.Valid() && Loaded(mem, l.prog, Program(v, t, l))
    ensures var at := PreloadPc(l) + |t.preload|;
            && Loaded(mem, at, EncodeAll(DumpCode(l.initSnap, l.scratch, true)))
            && |EncodeAll(DumpCode(l.initSnap, l.scratch, true))| == 262
            && l.prog <= at && at + 262 <= l.prog + PROG_LEN
            && InitPc(v, t, l) == at + 262 + (if v.Bench? then 0 else 6)
            && (v.Bracketed? ==> Loaded(mem, at + 262, Encode(MoveL(An(7), l.saved))))
  {
    ProgramPieces(mem, v, t, l);
    ProgramLength(v, t, l);
    BeforeTestBytes(v, l);
    DumpBytes(l.initSnap, l.scratch, true);
    var dump := EncodeAll(DumpCode(l.initSnap, l.scratch, true));
    LoadedSplit(mem, PreloadPc(l) + |t.preload|, dump, if v.Bracketed? then Encode(MoveL(An(7), l.saved)) else []);
  }

  lemma RunInitialDump(core: Machine -> Machine, m: Machine, v: Variant, t: TestSpec, l: Layout) returns (m': Machine)
    requires Implements(core) && l.Valid() && t.Valid()
    requires m.pc == PreloadPc(l) + |t.preload| && Loaded(m.mem, l.prog, Program(v, t, l))
    ensures Reaches(core, m, m') && Dumped(m, m', l.initSnap, l.scratch, true)
    ensures Loaded(m'.mem, l.prog, Program(v, t, l))
    ensures m'.pc == InitPc(v, t, l) - if v.Bench? then 0 else 6
  {
    BeforeTestLoaded(m.mem, v, t, l);
    m' := DumpRuns(core, m, l.initSnap, l.scratch, true);
    ProgramLength(v, t, l);
    StillLoaded(m.mem, m'.mem, l.initSnap, SNAP_LEN, l.prog, Program(v, t, l));
  }

  /** The MOVE.L A7,saved_a7 of the bracketed variant: it changes N and Z after the dump. */
  lemma SaveA7(core: Machine -> Machine, m: Machine, t: TestSpec, l: Layout) returns (m': Machine)
    requires Implements(core) && l.Valid() && t.Valid()
    requires m.pc == InitPc(Bracketed, t, l) - 6 && Loaded(m.mem, l.prog, Program(Bracketed, t, l))
    ensures Reaches(core, m, m') && m'.pc == InitPc(Bracketed, t, l)
    ensures m'.d == m.d && m'.a == m.a && m'.ccr == MoveFlags(m.ccr, m.a[7])
    ensures m'.mem == Store(m.mem, l.saved, LongBytes(m.a[7]))
  {
    BeforeTestLoaded(m.mem, Bracketed, t, l);
    MoveLExec(m, An(7), l.saved);
    m' := RunOne(core, MoveL(An(7), l.saved), m);
  }

  lemma StoreIsLocal(mem: Memory, a: int, v: long)
    requires InRange(a, 4)
    ensures SameOutside(mem, Store(mem, a, LongBytes(v)), a, 4)
    ensures ReadLong(Store(mem, a, LongBytes(v)), a) == v
  {
    LongRoundTrip(v);
  }

  /** Reads of a region the writes miss. */
  lemma SameBytes(x: Memory, y: Memory, a: int, len: int, b: int, blen: int)
    requires SameOutside(x, y, a, len) && InRange(b, blen) && Apart(b, blen, a, len)
    ensures x[b..b + blen] == y[b..b + blen]
  {
  }

  lemma LastLong(mem: Memory, l: Layout)
    requires l.Valid()
    ensures ReadLong(mem, l.scratch + SCRATCH_LEN - 4) == JoinLong(mem[l.scratch..l.scratch + SCRATCH_LEN][SCRATCH_LEN - 4..])
  {
    assert mem[l.scratch..l.scratch + SCRATCH_LEN][SCRATCH_LEN - 4..] == mem[l.scratch + SCRATCH_LEN - 4..l.scratch + SCRATCH_LEN];
  }

  /** From any caller state the program reaches init_pc, with the state there
      fixed by the test spec, the scratch base and the scratch contents. */
  lemma ReachInit(core: Machine -> Machine, m: Machine, v: Variant, t: TestSpec, l: Layout, preload: View -> View) returns (m': Machine)
    requires Implements(core) && l.Valid() && t.Valid()
    requires PreloadRuns(core, v, t, l, preload)
    requires m.pc == l.prog && Loaded(m.mem, l.prog, Program(v, t, l))
    ensures Reaches(core, m, m') && AtInit(m, m', v, t, l, preload)
  {
    var m2 := ReachDump(core, m, v, t, l, preload);
    var m3 := RunInitialDump(core, m2, v, t, l);
    ReachesTrans(core, m, m2, m3);
    if v.Bench? {
      m' := m3;
      AtInitBench(m, m2, m3, t, l, preload);
    } else {
      m' := SaveA7(core, m3, t, l);
      ReachesTrans(core, m, m3, m');
      AtInitBracketed(m, m2, m3, m', t, l, preload);
    }
  }

  /** Prologue and preload. */
  lemma ReachDump(core: Machine -> Machine, m: Machine, v: Variant, t: TestSpec, l: Layout, preload: View -> View) returns (m2: Machine)
    requires Implements(core) && l.Valid() && t.Valid()
    requires PreloadRuns(core, v, t, l, preload)
    requires m.pc == l.prog && Loaded(m.mem, l.prog, Program(v, t, l))
    ensures Reaches(core, m, m2) && m2.pc == PreloadPc(l) + |t.preload|
    ensures ViewOf(m2, l) == preload(CleanView(l, m.mem[l.scratch..l.scratch + SCRATCH_LEN])) && m2.a[7] == m.a[7]
    ensures SameOutside(m.mem, m2.mem, l.scratch, SCRATCH_LEN) && Loaded(m2.mem, l.prog, Program(v, t, l))
  {
    var m1 := RunPrologue(core, m, v, t, l);
    m2 :| PreloadDone(core, m1, m2, t, l, preload);
    ReachesTrans(core, m, m1, m2);
    ProgramLength(v, t, l);
    StillLoaded(m1.mem, m2.mem, l.scratch, SCRATCH_LEN, l.prog, Program(v, t, l));
  }

  /** The initial dump, described through the view it was taken from. */
  lemma DumpedView(m: Machine, m2: Machine, m3: Machine, l: Layout, input: View)
    requires l.Valid() && ViewOf(m2, l) == input && m2.a[7] == m.a[7]
    requires SameOutside(m.mem, m2.mem, l.scratch, SCRATCH_LEN)
    requires Dumped(m2, m3, l.initSnap, l.scratch, true)
    ensures |input.ram| == SCRATCH_LEN && |input.a| == 7
    ensures ViewOf(m3, l) == input.(ccr := InitialCcr(input)) && m3.a == input.a + [m.a[7]]
    ensures ReadSnapshot(m3.mem, l.initSnap) == Snapshot(input.d, input.a + [m.a[7]], 0, InitialCcr(input).ToByte(), input.ram)
    ensures forall k :: 0 <= k < MEM_SIZE && Untouched(l, k) ==> m3.mem[k] == m.mem[k]
    ensures ReadLong(m3.mem, l.saved) == ReadLong(m.mem, l.saved)
  {
    LastLong(m2.mem, l);
    SameBytes(m2.mem, m3.mem, l.initSnap, SNAP_LEN, l.scratch, SCRATCH_LEN);
    SameBytes(m.mem, m2.mem, l.scratch, SCRATCH_LEN, l.saved, 4);
    SameBytes(m2.mem, m3.mem, l.initSnap, SNAP_LEN, l.saved, 4);
    assert m2.a == m2.a[..7] + [m.a[7]];
  }

  lemma AtInitBench(m: Machine, m2: Machine, m3: Machine, t: TestSpec, l: Layout, preload: View -> View)
    requires l.Valid() && t.Valid()
    requires ViewOf(m2, l) == preload(CleanView(l, m.mem[l.scratch..l.scratch + SCRATCH_LEN])) && m2.a[7] == m.a[7]
    requires SameOutside(m.mem, m2.mem, l.scratch, SCRATCH_LEN)
    requires Dumped(m2, m3, l.initSnap, l.scratch, true)
    requires Loaded(m3.mem, l.prog, Program(Bench, t, l)) && m3.pc == InitPc(Bench, t, l)
    ensures AtInit(m, m3, Bench, t, l, preload)
  {
    DumpedView(m, m2, m3, l, ViewOf(m2, l));
  }

  /** Saving A7 keeps what the initial dump established, up to the flags. */
  lemma AfterSave(m: Machine, m3: Machine, m4: Machine, l: Layout)
    requires l.Valid() && m4.mem == Store(m3.mem, l.saved, LongBytes(m3.a[7]))
    requires forall k :: 0 <= k < MEM_SIZE && Untouched(l, k) ==> m3.mem[k] == m.mem[k]
    ensures m4.mem[l.scratch..l.scratch + SCRATCH_LEN] == m3.mem[l.scratch..l.scratch + SCRATCH_LEN]
    ensures ReadSnapshot(m4.mem, l.initSnap) == ReadSnapshot(m3.mem, l.initSnap)
    ensures SameOutside(m3.mem, m4.mem, l.saved, 4) && ReadLong(m4.mem, l.saved) == m3.a[7]
    ensures forall k :: 0 <= k < MEM_SIZE && Untouched(l, k) ==> m4.mem[k] == m.mem[k]
  {
    StoreIsLocal(m3.mem, l.saved, m3.a[7]);
    SameBytes(m3.mem, m4.mem, l.saved, 4, l.scratch, SCRATCH_LEN);
    SameSnapshot(m3.mem, m4.mem, l.saved, 4, l.initSnap);
  }

  lemma AtInitBracketed(m: Machine, m2: Machine, m3: Machine, m4: Machine, t: TestSpec, l: Layout, preload: View -> View)
    requires l.Valid() && t.Valid()
    requires ViewOf(m2, l) == preload(CleanView(l, m.mem[l.scratch..l.scratch + SCRATCH_LEN])) && m2.a[7] == m.a[7]
    requires SameOutside(m.mem, m2.mem, l.scratch, SCRATCH_LEN)
    requires Dumped(m2, m3, l.initSnap, l.scratch, true)
    requires Loaded(m3.mem, l.prog, Program(Bracketed, t, l))
    requires m4.pc == InitPc(Bracketed, t, l) && m4.d == m3.d && m4.a == m3.a && m4.ccr == MoveFlags(m3.ccr, m3.a[7])
    requires m4.mem == Store(m3.mem, l.saved, LongBytes(m3.a[7]))
    ensures AtInit(m, m4, Bracketed, t, l, preload)
  {
    DumpedView(m, m2, m3, l, ViewOf(m2, l));
    AfterSave(m, m3, m4, l);
    ProgramLength(Bracketed, t, l);
    StillLoaded(m3.mem, m4.mem, l.saved, 4, l.prog, Program(Bracketed, t, l));
  }

  lemma SameSnapshot(mem: Memory, mem': Memory, a: int, len: int, snap: int)
    requires InRange(snap, SNAP_LEN) && Apart(snap, SNAP_LEN, a, len) && SameOutside(mem, mem', a, len)
    ensures ReadSnapshot(mem', snap) == ReadSnapshot(mem, snap)
  {
    forall i | 0 <= i < 8
      ensures ReadLongs(mem', snap)[i] == ReadLongs(mem, snap)[i]
      ensures ReadLongs(mem', snap + 0x20)[i] == ReadLongs(mem, snap + 0x20)[i]
    {
      var p, q := snap + 4 * i, snap + 0x20 + 4 * i;
      assert mem'[p..p + 4] == mem[p..p + 4] && mem'[q..q + 4] == mem[q..q + 4];
    }
  }

  // ---- returning to the caller ------------------------------------------------------

  function RestoreLen(v: Variant): int { if v.Bracketed? then 6 else 0 }

  function FixupLen(v: Variant, t: TestSpec): int { if v.Bench? && NeedsFixup(t) then 8 else 0 }

  lemma AfterTestParts(mem: Memory, at: int, v: Variant, t: TestSpec, l: Layout)
    requires l.Valid() && t.Valid() && Loaded(mem, at, EncodeAll(AfterTest(v, t, l)))
    ensures |EncodeAll(AfterTest(v, t, l))| == RestoreLen(v) + 264 + FixupLen(v, t)
    ensures |EncodeAll(Dump(l))| == 262 && |EncodeAll(Restore(v, l))| == RestoreLen(v)
    ensures Loaded(mem, at, EncodeAll(Restore(v, l)))
    ensures Loaded(mem, at + RestoreLen(v), EncodeAll(Dump(l)))
    ensures Loaded(mem, at + RestoreLen(v) + 262, EncodeAll(Fixup(v, t, l)))
    ensures Loaded(mem, at + RestoreLen(v) + 262 + FixupLen(v, t), Encode(Rts))
  {
    AfterTestBytes(v, t, l);
    TailBytes(v, t, l);
    DumpBytes(l.finalSnap, l.scratch, false);
    LoadedFour(mem, at, EncodeAll(Restore(v, l)), EncodeAll(Dump(l)), EncodeAll(Fixup(v, t, l)), Encode(Rts));
  }

  lemma AfterTestLoaded(mem: Memory, v: Variant, t: TestSpec, l: Layout)
    requires l.Valid() && t.Valid() && Loaded(mem, l.prog, Program(v, t, l))
    ensures var at := FinalPc(v, t, l);
            && l.prog <= at && at + RestoreLen(v) + 264 + FixupLen(v, t) <= l.prog + PROG_LEN
            && (v.Bracketed? ==> Loaded(mem, at, Encode(MoveAAbs(7, l.saved))))
            && Loaded(mem, at + RestoreLen(v), EncodeAll(Dump(l))) && |EncodeAll(Dump(l))| == 262
            && (FixupLen(v, t) > 0 ==>
                  && Loaded(mem, at + RestoreLen(v) + 262, Encode(MoveAAbs(7, l.saved)))
                  && Loaded(mem, at + RestoreLen(v) + 268, Encode(SubQA(4, 7))))
            && Loaded(mem, at + RestoreLen(v) + 262 + FixupLen(v, t), Encode(Rts))
  {
    var at := FinalPc(v, t, l);
    ProgramPieces(mem, v, t, l);
    AfterTestParts(mem, at, v, t, l);
    TailBytes(v, t, l);
    if FixupLen(v, t) > 0 {
      assert |Encode(MoveAAbs(7, l.saved))| == 6;
      LoadedSplit(mem, at + RestoreLen(v) + 262, Encode(MoveAAbs(7, l.saved)), Encode(SubQA(4, 7)));
    }
  }

  lemma LoadedFour(mem: Memory, at: int, a: seq<byte>, b: seq<byte>, c: seq<byte>, d: seq<byte>)
    requires Loaded(mem, at, a + b + c + d)
    ensures Loaded(mem, at, a) && Loaded(mem, at + |a|, b) && Loaded(mem, at + |a| + |b|, c)
    ensures Loaded(mem, at + |a| + |b| + |c|, d)
  {
    LoadedSplit(mem, at, a + b + c, d);
    LoadedSplit(mem, at, a + b, c);
    LoadedSplit(mem, at, a, b);
  }

  lemma MoveAAbsExec(m: Machine, n: regno, at: long)
    requires InRange(at, 4)
    ensures Exec(MoveAAbs(n, at), m) == Some(m.(a := m.a[n := ReadLong(m.mem, at)], pc := m.pc + 6))
  {
  }

  lemma SubQAExec(m: Machine)
    ensures Exec(SubQA(4, 7), m) == Some(m.(a := m.a[7 := (m.a[7] - 4) % MEM_SIZE], pc := m.pc + 2))
  {
  }

  lemma RtsExec(m: Machine)
    requires InRange(m.a[7], 4)
    ensures Exec(Rts, m) == Some(m.(pc := ReadLong(m.mem, m.a[7]), a := m.a[7 := (m.a[7] + 4) % MEM_SIZE]))
  {
  }

  /** MOVEA.L saved_a7,A7 sets no flag. */
  lemma RunRestore(core: Machine -> Machine, m: Machine, v: Variant, t: TestSpec, l: Layout) returns (m': Machine)
    requires Implements(core) && l.Valid() && t.Valid()
    requires m.pc == FinalPc(v, t, l) && Loaded(m.mem, l.prog, Program(v, t, l))
    ensures Reaches(core, m, m') && m'.pc == m.pc + RestoreLen(v) && m'.mem == m.mem
    ensures m'.d == m.d && m'.ccr == m.ccr
    ensures m'.a == if v.Bracketed? then m.a[7 := ReadLong(m.mem, l.saved)] else m.a
  {
    AfterTestLoaded(m.mem, v, t, l);
    if v.Bracketed? {
      MoveAAbsExec(m, 7, l.saved);
      m' := RunOne(core, MoveAAbs(7, l.saved), m);
    } else {
      m' := m;
      assert Iterate(core, m, 0) == m;
    }
  }

  lemma RunFinalDump(core: Machine -> Machine, m: Machine, v: Variant, t: TestSpec, l: Layout) returns (m': Machine)
    requires Implements(core) && l.Valid() && t.Valid()
    requires m.pc == FinalPc(v, t, l) + RestoreLen(v) && Loaded(m.mem, l.prog, Program(v, t, l))
    ensures Reaches(core, m, m') && Dumped(m, m', l.finalSnap, l.scratch, false)
    ensures m'.pc == m.pc + 262 && Loaded(m'.mem, l.prog, Program(v, t, l))
  {
    AfterTestLoaded(m.mem, v, t, l);
    m' := DumpRuns(core, m, l.finalSnap, l.scratch, false);
    ProgramLength(v, t, l);
    StillLoaded(m.mem, m'.mem, l.finalSnap, SNAP_LEN, l.prog, Program(v, t, l));
  }

  /** MOVE.L g_saved_sp,A7; SUBQ.L #4,A7. */
  lemma ReloadA7(core: Machine -> Machine, m: Machine, at: long) returns (m': Machine)
    requires Implements(core) && InRange(at, 4)
    requires Loaded(m.mem, m.pc, Encode(MoveAAbs(7, at))) && Loaded(m.mem, m.pc + 6, Encode(SubQA(4, 7)))
    ensures Reaches(core, m, m')
    ensures m' == m.(a := m.a[7 := (ReadLong(m.mem, at) - 4) % MEM_SIZE], pc := m.pc + 8)
  {
    MoveAAbsExec(m, 7, at);
    var m1 := RunOne(core, MoveAAbs(7, at), m);
    SubQAExec(m1);
    m' := RunOne(core, SubQA(4, 7), m1);
    ReachesTrans(core, m, m1, m');
    var r := (ReadLong(m.mem, at) - 4) % MEM_SIZE;
    assert m.a[7 := ReadLong(m.mem, at)][7 := r] == m.a[7 := r];
  }

  /** The optional reload and the RTS. */
  lemma ExitRuns(core: Machine -> Machine, m: Machine, fix: bool, saved: long, sp: int) returns (m': Machine)
    requires Implements(core) && InRange(saved, 4) && InRange(sp, 4)
    requires fix ==> Loaded(m.mem, m.pc, Encode(MoveAAbs(7, saved))) && Loaded(m.mem, m.pc + 6, Encode(SubQA(4, 7)))
    requires Loaded(m.mem, m.pc + (if fix then 8 else 0), Encode(Rts))
    requires if fix then ReadLong(m.mem, saved) == (sp + 4) % MEM_SIZE else m.a[7] == sp
    ensures Reaches(core, m, m')
    ensures m' == m.(pc := ReadLong(m.mem, sp), a := m.a[7 := (sp + 4) % MEM_SIZE])
  {
    if fix {
      var m1 := ReloadA7(core, m, saved);
      PopAfterPush(sp);
      m' := Return(core, m1, sp);
      ReachesTrans(core, m, m1, m');
      assert m1.a[7 := (sp + 4) % MEM_SIZE] == m.a[7 := (sp + 4) % MEM_SIZE];
    } else {
      m' := Return(core, m, sp);
    }
  }

  lemma PopAfterPush(sp: int)
    requires InRange(sp, 4)
    ensures ((sp + 4) % MEM_SIZE - 4) % MEM_SIZE == sp
  {
    if sp + 4 == MEM_SIZE { assert (sp + 4) % MEM_SIZE == 0; }
  }

  lemma Return(core: Machine -> Machine, m: Machine, sp: int) returns (m': Machine)
    requires Implements(core) && InRange(sp, 4) && m.a[7] == sp && Loaded(m.mem, m.pc, Encode(Rts))
    ensures Reaches(core, m, m')
    ensures m' == m.(pc := ReadLong(m.mem, sp), a := m.a[7 := (sp + 4) % MEM_SIZE])
  {
    RtsExec(m);
    m' := RunOne(core, Rts, m);
  }

  /** What the final snapshot and the machine look like when the program has returned. */
  ghost predicate Returned(m: Machine, m': Machine, v: Variant, l: Layout, sp: int)
    requires l.Valid() && InRange(sp, 4)
  {
    && m'.pc == ReadLong(m.mem, sp) && m'.a[7] == (sp + 4) % MEM_SIZE
    && m'.d == m.d && m'.a[..7] == m.a[..7]
    && ReadSnapshot(m'.mem, l.finalSnap)
         == Snapshot(m.d, if v.Bracketed? then m.a[7 := sp] else m.a, 0, m.ccr.ToByte(),
                     m.mem[l.scratch..l.scratch + SCRATCH_LEN])
    && SameOutside(m.mem, m'.mem, l.finalSnap, SNAP_LEN)
  }

  /** The saved slot holds what invoke_program or the bracket put there. */
  predicate SlotReady(mem: Memory, v: Variant, t: TestSpec, l: Layout, sp: int)
    requires l.Valid()
  {
    if v.Bracketed? then ReadLong(mem, l.saved) == sp
    else NeedsFixup(t) ==> ReadLong(mem, l.saved) == (sp + 4) % MEM_SIZE
  }

  /** From final_pc the program returns to the JSR's caller. When the epilogue
      restores A7 this holds whatever the test left there. */
  lemma ReachReturn(core: Machine -> Machine, m: Machine, v: Variant, t: TestSpec, l: Layout, sp: int) returns (m': Machine)
    requires Implements(core) && l.Valid() && t.Valid() && InRange(sp, 4)
    requires m.pc == FinalPc(v, t, l) && Loaded(m.mem, l.prog, Program(v, t, l))
    requires Apart(sp, 4, l.finalSnap, SNAP_LEN)
    requires SlotReady(m.mem, v, t, l, sp) && (RestoresA7(v, t) || m.a[7] == sp)
    ensures Reaches(core, m, m') && Returned(m, m', v, l, sp)
  {
    hide Program, Reaches, Returned, ReadSnapshot;
    var m1 := RunRestore(core, m, v, t, l);
    var m2 := RunFinalDump(core, m1, v, t, l);
    SameBytes(m.mem, m2.mem, l.finalSnap, SNAP_LEN, l.saved, 4);
    SameBytes(m.mem, m2.mem, l.finalSnap, SNAP_LEN, sp, 4);
    m' := RunExit(core, m2, v, t, l, sp);
    ReachesTrans(core, m, m1, m2);
    ReachesTrans(core, m, m2, m');
    ReturnedFrom(m, m1, m2, m', v, l, sp);
  }

  lemma RunExit(core: Machine -> Machine, m: Machine, v: Variant, t: TestSpec, l: Layout, sp: int) returns (m': Machine)
    requires Implements(core) && l.Valid() && t.Valid() && InRange(sp, 4)
    requires m.pc == FinalPc(v, t, l) + RestoreLen(v) + 262 && Loaded(m.mem, l.prog, Program(v, t, l))
    requires if FixupLen(v, t) > 0 then ReadLong(m.mem, l.saved) == (sp + 4) % MEM_SIZE else m.a[7] == sp
    ensures Reaches(core, m, m')
    ensures m' == m.(pc := ReadLong(m.mem, sp), a := m.a[7 := (sp + 4) % MEM_SIZE])
  {
    AfterTestLoaded(m.mem, v, t, l);
    m' := ExitRuns(core, m, FixupLen(v, t) > 0, l.saved, sp);
  }

  lemma ReturnedFrom(m: Machine, m1: Machine, m2: Machine, m': Machine, v: Variant, l: Layout, sp: int)
    requires l.Valid() && InRange(sp, 4)
    requires m1.d == m.d && m1.ccr == m.ccr && m1.mem == m.mem
    requires m1.a == if v.Bracketed? then m.a[7 := sp] else m.a
    requires Dumped(m1, m2, l.finalSnap, l.scratch, false)
    requires m'.mem == m2.mem && m'.d == m2.d && m'.pc == ReadLong(m.mem, sp) && m'.a == m2.a[7 := (sp + 4) % MEM_SIZE]
    ensures Returned(m, m', v, l, sp)
  {
  }

  // ---- the whole invocation ----------------------------------------------------------

  /** One invocation, from the JSR to its return: both snapshots are determined
      by the test spec, the scratch base, the scratch contents and SP; nothing
      else of the caller's state shows. */
  ghost predicate Invoked(m: Machine, m': Machine, v: Variant, t: TestSpec, l: Layout, preload: View -> View, test: View -> View)
    requires l.Valid() && InRange(m.a[7], 4)
  {
    var sp := m.a[7];
    var input := preload(CleanView(l, m.mem[l.scratch..l.scratch + SCRATCH_LEN]));
    && |input.ram| == SCRATCH_LEN
    && var start := input.(ccr := if v.Bench? then InitialCcr(input) else MoveFlags(InitialCcr(input), sp));
    var out := test(start);
    var first, last := ReadSnapshot(m'.mem, l.initSnap), ReadSnapshot(m'.mem, l.finalSnap);
    && m'.pc == ReadLong(m.mem, sp) && m'.a[7] == (sp + 4) % MEM_SIZE
    && first.d == input.d && first.a == input.a + [sp] && first.ccr == InitialCcr(input).ToByte() && first.ram == input.ram
    && last.d == out.d && last.a[..7] == out.a && last.ccr == out.ccr.ToByte() && last.ram == out.ram
    && (RestoresA7(v, t) && v.Bracketed? ==> last.a[7] == sp)
  }

  /** The return address on the stack is outside everything the program writes. */
  predicate StackClear(l: Layout, sp: int) {
    && Apart(sp, 4, l.initSnap, SNAP_LEN) && Apart(sp, 4, l.finalSnap, SNAP_LEN)
    && Apart(sp, 4, l.scratch, SCRATCH_LEN) && Apart(sp, 4, l.saved, 4)
  }

  lemma InitIsReady(m: Machine, m1: Machine, v: Variant, t: TestSpec, l: Layout, preload: View -> View)
    requires l.Valid() && InRange(m.a[7], 4) && StackClear(l, m.a[7]) && AtInit(m, m1, v, t, l, preload)
    requires v.Bench? ==> SlotReady(m.mem, v, t, l, m.a[7])
    ensures m1.pc == InitPc(v, t, l) && m1.a[7] == m.a[7] && Loaded(m1.mem, l.prog, Program(v, t, l))
    ensures ReadLong(m1.mem, m.a[7]) == ReadLong(m.mem, m.a[7]) && SlotReady(m1.mem, v, t, l, m.a[7])
  {
    var sp := m.a[7];
    StackKept(m.mem, m1.mem, l, sp);
    hide Program, Loaded, ReadSnapshot, ReadLong, Untouched;
  }

  lemma StackKept(x: Memory, y: Memory, l: Layout, sp: int)
    requires l.Valid() && InRange(sp, 4) && StackClear(l, sp)
    requires forall k :: 0 <= k < MEM_SIZE && Untouched(l, k) ==> y[k] == x[k]
    ensures ReadLong(y, sp) == ReadLong(x, sp)
  {
    assert y[sp..sp + 4] == x[sp..sp + 4];
  }

  /** From init_pc through the test and back to the caller. */
  lemma TestAndReturn(core: Machine -> Machine, m1: Machine, v: Variant, t: TestSpec, l: Layout, sp: int, test: View -> View)
    returns (m2: Machine, m': Machine)
    requires Implements(core) && l.Valid() && t.Valid() && InRange(sp, 4) && Apart(sp, 4, l.finalSnap, SNAP_LEN)
    requires m1.pc == InitPc(v, t, l) && Loaded(m1.mem, l.prog, Program(v, t, l)) && m1.a[7] == sp
    requires TestRuns(core, v, t, l, sp, test) && SlotReady(m1.mem, v, t, l, sp)
    ensures Reaches(core, m1, m') && Returned(m2, m', v, l, sp)
    ensures ViewOf(m2, l) == test(ViewOf(m1, l)) && ReadLong(m2.mem, sp) == ReadLong(m1.mem, sp)
    ensures ReadSnapshot(m'.mem, l.initSnap) == ReadSnapshot(m2.mem, l.initSnap) == ReadSnapshot(m1.mem, l.initSnap)
  {
    m2 :| TestDone(core, m1, m2, v, t, l, sp, test);
    m' := ReachReturn(core, m2, v, t, l, sp);
    ReachesTrans(core, m1, m2, m');
    SameSnapshot(m2.mem, m'.mem, l.finalSnap, SNAP_LEN, l.initSnap);
  }

  lemma Invoke(core: Machine -> Machine, m: Machine, v: Variant, t: TestSpec, l: Layout, preload: View -> View, test: View -> View)
    returns (m': Machine)
    requires Implements(core) && l.Valid() && t.Valid() && InRange(m.a[7], 4)
    requires m.pc == l.prog && Loaded(m.mem, l.prog, Program(v, t, l))
    requires PreloadRuns(core, v, t, l, preload) && TestRuns(core, v, t, l, m.a[7], test)
    requires StackClear(l, m.a[7])
    requires v.Bench? ==> SlotReady(m.mem, v, t, l, m.a[7])
    ensures Reaches(core, m, m') && Invoked(m, m', v, t, l, preload, test)
  {
    var sp := m.a[7];
    var m1 := ReachInit(core, m, v, t, l, preload);
    InitIsReady(m, m1, v, t, l, preload);
    var m2;
    m2, m' := TestAndReturn(core, m1, v, t, l, sp, test);
    ReachesTrans(core, m, m1, m');
    InvokedFrom(m, m1, m2, m', v, t, l, preload, test);
  }

  lemma InvokedFrom(m: Machine, m1: Machine, m2: Machine, m': Machine, v: Variant, t: TestSpec, l: Layout, preload: View -> View, test: View -> View)
    requires l.Valid() && InRange(m.a[7], 4)
    requires AtInit(m, m1, v, t, l, preload)
    requires ViewOf(m2, l) == test(ViewOf(m1, l))
    requires ReadSnapshot(m2.mem, l.initSnap) == ReadSnapshot(m1.mem, l.initSnap)
    requires ReadLong(m2.mem, m.a[7]) == ReadLong(m1.mem, m.a[7]) == ReadLong(m.mem, m.a[7])
    requires Returned(m2, m', v, l, m.a[7])
    requires ReadSnapshot(m'.mem, l.initSnap) == ReadSnapshot(m2.mem, l.initSnap)
    ensures Invoked(m, m', v, t, l, preload, test)
  {
    var input := preload(CleanView(l, m.mem[l.scratch..l.scratch + SCRATCH_LEN]));
    var start := input.(ccr := if v.Bench? then InitialCcr(input) else MoveFlags(InitialCcr(input), m.a[7]));
    assert ViewOf(m1, l) == start;
  }

  // ---- the CCR promise -----------------------------------------------------------------

  lemma ToByteInjective(x: Ccr, y: Ccr)
    ensures x.ToByte() == y.ToByte() ==> x == y
  {
  }

  /** The promise that the initial snapshot records the CCR the test inherits
      holds for cpu_bench.c; in the bracketed variant the extra MOVE.L A7 comes
      after the capture, and the promise holds exactly when SP has the sign and
      zeroness of the last scratch long. */
  lemma CcrPromise(m: Machine, m': Machine, v: Variant, t: TestSpec, l: Layout, preload: View -> View)
    requires l.Valid() && AtInit(m, m', v, t, l, preload)
    ensures var last := JoinLong(preload(CleanView(l, m.mem[l.scratch..l.scratch + SCRATCH_LEN])).ram[SCRATCH_LEN - 4..]);
            ReadSnapshot(m'.mem, l.initSnap).ccr == m'.ccr.ToByte()
            <==> v.Bench? || ((last >= 0x8000_0000 <==> m.a[7] >= 0x8000_0000) && (last == 0 <==> m.a[7] == 0))
  {
    var input := preload(CleanView(l, m.mem[l.scratch..l.scratch + SCRATCH_LEN]));
    ToByteInjective(InitialCcr(input), m'.ccr);
  }

  // ---- programs with empty preload and test, on any processor -------------------------

  const EMPTY := TestSpec("", [], [])

  /** The effect of no code at all. */
  function Same(w: View): View { w }

  lemma EmptyPreloadRuns(core: Machine -> Machine, v: Variant, l: Layout)
    requires l.Valid()
    ensures PreloadRuns(core, v, EMPTY, l, Same)
  {
    forall m: Machine | m.pc == PreloadPc(l) && Loaded(m.mem, l.prog, Program(v, EMPTY, l))
      ensures exists m' :: PreloadDone(core, m, m', EMPTY, l, Same)
    {
      assert Iterate(core, m, 0) == m;
      assert PreloadDone(core, m, m, EMPTY, l, Same);
    }
  }

  lemma EmptyTestRuns(core: Machine -> Machine, v: Variant, l: Layout, sp: int)
    requires l.Valid() && InRange(sp, 4)
    ensures TestRuns(core, v, EMPTY, l, sp, Same)
  {
    forall m: Machine | m.pc == InitPc(v, EMPTY, l) && Loaded(m.mem, l.prog, Program(v, EMPTY, l)) && m.a[7] == sp
      ensures exists m' :: TestDone(core, m, m', v, EMPTY, l, sp, Same)
    {
      assert Iterate(core, m, 0) == m;
      assert TestDone(core, m, m, v, EMPTY, l, sp, Same);
    }
  }

  function Zeros(n: int): seq<byte>
    requires n >= 0
  {
    seq(n, i => 0)
  }

  /** The program in otherwise cleared memory, about to be entered with A7 == sp. */
  function Entered(v: Variant, l: Layout, sp: long): (m: Machine)
    requires l.Valid()
    ensures m.pc == l.prog && Loaded(m.mem, l.prog, Program(v, EMPTY, l)) && m.a[7] == sp
    ensures m.mem[l.scratch..l.scratch + SCRATCH_LEN] == Zeros(SCRATCH_LEN)
  {
    ProgramLength(v, EMPTY, l);
    var mem: Memory := Zeros(MEM_SIZE);
    var r: Registers := [0, 0, 0, 0, 0, 0, 0, 0];
    Machine(r, r[7 := sp], CcrOfByte(0), l.prog, Store(mem, l.prog, Program(v, EMPTY, l)))
  }

  /** It does fail: for every layout of the bench and any stack below 80000000,
      the reference processor, entering the bracketed program over the cleared
      scratch the bench starts from, reaches init_pc with another CCR than the
      initial snapshot records. */
  lemma CcrPromiseFails(l: Layout, sp: long) returns (m: Machine, m': Machine)
    requires l.Valid() && 0 < sp < 0x8000_0000
    ensures m.pc == l.prog && m.a[7] == sp && Loaded(m.mem, l.prog, Program(Bracketed, EMPTY, l))
    ensures Reaches(ReferenceCore, m, m') && m'.pc == InitPc(Bracketed, EMPTY, l)
    ensures ReadSnapshot(m'.mem, l.initSnap).ccr != m'.ccr.ToByte()
  {
    m := Entered(Bracketed, l, sp);
    ReferenceImplements();
    EmptyPreloadRuns(ReferenceCore, Bracketed, l);
    m' := ReachInit(ReferenceCore, m, Bracketed, EMPTY, l, Same);
    ClearedScratch(m, l);
    CcrPromise(m, m', Bracketed, EMPTY, l, Same);
  }

  lemma ClearedScratch(m: Machine, l: Layout)
    requires l.Valid() && m.mem[l.scratch..l.scratch + SCRATCH_LEN] == Zeros(SCRATCH_LEN)
    ensures JoinLong(Same(CleanView(l, m.mem[l.scratch..l.scratch + SCRATCH_LEN])).ram[SCRATCH_LEN - 4..]) == 0
  {
    assert Zeros(SCRATCH_LEN)[SCRATCH_LEN - 4..] == [0, 0, 0, 0];
  }

  /** Whole invocations exist: the reference processor runs either program, with
      empty preload and test, from its entry back to the caller. */
  lemma InvocationExists(v: Variant, l: Layout, sp: long) returns (m: Machine, m': Machine)
    requires l.Valid() && InRange(sp, 4) && StackClear(l, sp)
    ensures m.pc == l.prog && m.a[7] == sp && Loaded(m.mem, l.prog, Program(v, EMPTY, l))
    ensures Reaches(ReferenceCore, m, m') && Invoked(m, m', v, EMPTY, l, Same, Same)
  {
    m := Entered(v, l, sp);
    ReferenceImplements();
    EmptyPreloadRuns(ReferenceCore, v, l);
    EmptyTestRuns(ReferenceCore, v, l, sp);
    m' := Invoke(ReferenceCore, m, v, EMPTY, l, Same, Same);
  }
}
