/** The two program builders of the bench, and the emitters they share. */
module Harness {
  import opened Basics
  import opened M68k
  import opened StateDump

  const PROG_LEN := 1024
  const MAX_PRELOAD := 30
  const MAX_TEST := 18

  /** cpu_bench.c reloads A7 only for unbalancing tests; cpu_test_macii.c
      brackets every test with an A7 save and restore. */
  datatype Variant = Bench | Bracketed

  datatype TestSpec = TestSpec(name: string, preload: seq<byte>, test: seq<byte>) {
    predicate Valid() { |preload| <= MAX_PRELOAD && |test| <= MAX_TEST }
  }

  /** Addresses of the C statics; `saved` is g_saved_sp or saved_a7. */
  datatype Layout = Layout(prog: int, initSnap: int, finalSnap: int, scratch: int, saved: int) {
    predicate Valid() {
      && InRange(prog, PROG_LEN) && InRange(initSnap, SNAP_LEN) && InRange(finalSnap, SNAP_LEN)
      && InRange(scratch, SCRATCH_LEN) && InRange(saved, 4)
      && Apart(prog, PROG_LEN, initSnap, SNAP_LEN) && Apart(prog, PROG_LEN, finalSnap, SNAP_LEN)
      && Apart(prog, PROG_LEN, scratch, SCRATCH_LEN) && Apart(prog, PROG_LEN, saved, 4)
      && Apart(initSnap, SNAP_LEN, finalSnap, SNAP_LEN) && Apart(initSnap, SNAP_LEN, scratch, SCRATCH_LEN)
      && Apart(finalSnap, SNAP_LEN, scratch, SCRATCH_LEN)
      && Apart(initSnap, SNAP_LEN, saved, 4) && Apart(finalSnap, SNAP_LEN, saved, 4)
      && Apart(scratch, SCRATCH_LEN, saved, 4)
    }
  }

  // ---- the programs as instruction lists -----------------------------------

  predicate MatchesAt(s: string, pattern: string, k: int) {
    0 <= k <= |s| - |pattern| && s[k..k + |pattern|] == pattern
  }

  /** strstr(s, pattern) != NULL */
  predicate Contains(s: string, pattern: string) {
    exists k :: 0 <= k <= |s| && MatchesAt(s, pattern, k)
  }

  /** The pattern stands somewhere in the string. */
  ghost predicate Within(s: string, pattern: string) { exists before: string, after: string :: s == before + pattern + after }

  lemma ContainsIff(s: string, pattern: string)
    ensures Contains(s, pattern) <==> Within(s, pattern)
  {
    if Contains(s, pattern) {
      var k :| 0 <= k <= |s| && MatchesAt(s, pattern, k);
      assert s == s[..k] + pattern + s[k + |pattern|..];
    }
    forall before: string, after: string | s == before + pattern + after ensures Contains(s, pattern) {
      assert MatchesAt(s, pattern, |before|);
    }
  }

  predicate NeedsFixup(t: TestSpec) {
    Contains(t.name, "RTD #") && !Contains(t.name, "RTD #0")
  }

  function ClearData(n: int): (r: seq<Instr>)
    requires 0 <= n <= 8
    ensures |r| == n
  {
    seq(n, k requires 0 <= k < n => MoveQ(k, 0))
  }

  function ClearAddress(n: int): (r: seq<Instr>)
    requires 0 <= n <= 6
    ensures |r| == n
  {
    seq(n, k requires 0 <= k < n => SubA(k, k))
  }

  function PrologueCode(l: Layout): seq<Instr>
    requires l.Valid()
  {
    ClearData(8) + ClearAddress(6) + [MoveAImm(6, l.scratch), MoveToCcr(0)]
  }

  function BeforeTest(v: Variant, l: Layout): seq<Instr>
    requires l.Valid()
  {
    DumpCode(l.initSnap, l.scratch, true) + if v.Bracketed? then [MoveL(An(7), l.saved)] else []
  }

  function Restore(v: Variant, l: Layout): seq<Instr>
    requires l.Valid()
  {
    if v.Bracketed? then [MoveAAbs(7, l.saved)] else []
  }

  function Fixup(v: Variant, t: TestSpec, l: Layout): seq<Instr>
    requires l.Valid()
  {
    if v.Bench? && NeedsFixup(t) then [MoveAAbs(7, l.saved), SubQA(4, 7)] else []
  }

  function Dump(l: Layout): seq<Instr>
    requires l.Valid()
  {
    DumpCode(l.finalSnap, l.scratch, false)
  }

  function AfterTest(v: Variant, t: TestSpec, l: Layout): seq<Instr>
    requires l.Valid()
  {
    Restore(v, l) + Dump(l) + Fixup(v, t, l) + [Rts]
  }

  /** The bytes up to the test, and the whole program. */
  function Leading(v: Variant, t: TestSpec, l: Layout): seq<byte>
    requires l.Valid()
  {
    EncodeAll(PrologueCode(l)) + t.preload + EncodeAll(BeforeTest(v, l))
  }

  function Program(v: Variant, t: TestSpec, l: Layout): seq<byte>
    requires l.Valid()
  {
    Leading(v, t, l) + t.test + EncodeAll(AfterTest(v, t, l))
  }

  // ---- lengths ---------------------------------------------------------------

  lemma {:induction false} StoreCodeLength(snap: int, scratch: int, n: int)
    requires 0 <= n <= STORES && InRange(scratch, SCRATCH_LEN) && InRange(snap, SNAP_LEN)
    ensures |EncodeAll(StoreCode(snap, scratch, n))| == if n <= 16 then 6 * n else 10 * n - 64
  {
    if n > 0 {
      StoreCodeLength(snap, scratch, n - 1);
      var last := MoveL(StoreSource(scratch, n - 1), snap + Slot(n - 1));
      assert StoreCode(snap, scratch, n) == StoreCode(snap, scratch, n - 1) + [last];
      EncodeAllAppend(StoreCode(snap, scratch, n - 1), [last]);
      EncodeOne(last);
    }
  }

  lemma Join2(h: seq<byte>, a: seq<byte>, b: seq<byte>)
    ensures h + a + b == h + (a + b)
  {
  }

  lemma Join4(h: seq<byte>, a: seq<byte>, b: seq<byte>, c: seq<byte>, d: seq<byte>)
    ensures h + a + b + c + d == h + (a + b + c + d)
  {
  }

  lemma EncodeOne(i: Instr)
    ensures EncodeAll([i]) == Encode(i)
  {
    assert FlatMap(Encode, [i][1..]) == [];
  }

  lemma EncodeTwo(i: Instr, j: Instr)
    ensures EncodeAll([i, j]) == Encode(i) + Encode(j)
  {
    EncodeOne(i);
    EncodeOne(j);
    EncodeAllAppend([i], [j]);
    assert [i] + [j] == [i, j];
  }

  lemma DumpBytes(snap: int, scratch: int, isInit: bool)
    requires InRange(scratch, SCRATCH_LEN) && InRange(snap, SNAP_LEN)
    ensures EncodeAll(DumpCode(snap, scratch, isInit))
         == (if isInit then [] else Encode(CcrTo(snap + CCR_OFFSET)))
          + EncodeAll(StoreCode(snap, scratch, STORES))
          + (if isInit then Encode(CcrTo(snap + CCR_OFFSET)) else [])
    ensures |EncodeAll(DumpCode(snap, scratch, isInit))| == 262
  {
    var stores := StoreCode(snap, scratch, STORES);
    var ccr := CcrTo(snap + CCR_OFFSET);
    StoreCodeLength(snap, scratch, STORES);
    EncodeOne(ccr);
    assert |Encode(ccr)| == 6;
    if isInit {
      assert DumpCode(snap, scratch, isInit) == stores + [ccr];
      EncodeAllAppend(stores, [ccr]);
    } else {
      assert DumpCode(snap, scratch, isInit) == [ccr] + stores;
      EncodeAllAppend([ccr], stores);
    }
  }

  lemma {:induction false} ClearDataLength(n: int)
    requires 0 <= n <= 8
    ensures |EncodeAll(ClearData(n))| == 2 * n
  {
    if n > 0 {
      ClearDataLength(n - 1);
      assert ClearData(n) == ClearData(n - 1) + [MoveQ(n - 1, 0)];
      EncodeAllAppend(ClearData(n - 1), [MoveQ(n - 1, 0)]);
      EncodeOne(MoveQ(n - 1, 0));
    }
  }

  lemma {:induction false} ClearAddressLength(n: int)
    requires 0 <= n <= 6
    ensures |EncodeAll(ClearAddress(n))| == 2 * n
  {
    if n > 0 {
      ClearAddressLength(n - 1);
      assert ClearAddress(n) == ClearAddress(n - 1) + [SubA(n - 1, n - 1)];
      EncodeAllAppend(ClearAddress(n - 1), [SubA(n - 1, n - 1)]);
      EncodeOne(SubA(n - 1, n - 1));
    }
  }

  lemma PrologueBytes(l: Layout)
    requires l.Valid()
    ensures EncodeAll(PrologueCode(l)) == EncodeAll(ClearData(8)) + EncodeAll(ClearAddress(6))
                                       + (Encode(MoveAImm(6, l.scratch)) + Encode(MoveToCcr(0)))
    ensures |EncodeAll(PrologueCode(l))| == 38
  {
    ClearDataLength(8);
    ClearAddressLength(6);
    EncodeTwo(MoveAImm(6, l.scratch), MoveToCcr(0));
    EncodeAllAppend(ClearData(8), ClearAddress(6));
    EncodeAllAppend(ClearData(8) + ClearAddress(6), [MoveAImm(6, l.scratch), MoveToCcr(0)]);
    assert |Encode(MoveAImm(6, l.scratch))| == 6 && |Encode(MoveToCcr(0))| == 4;
  }

  lemma BeforeTestBytes(v: Variant, l: Layout)
    requires l.Valid()
    ensures EncodeAll(BeforeTest(v, l)) == EncodeAll(DumpCode(l.initSnap, l.scratch, true))
                                        + (if v.Bracketed? then Encode(MoveL(An(7), l.saved)) else [])
    ensures |EncodeAll(BeforeTest(v, l))| == 262 + if v.Bracketed? then 6 else 0
  {
    var save := MoveL(An(7), l.saved);
    DumpBytes(l.initSnap, l.scratch, true);
    EncodeOne(save);
    assert |Encode(save)| == 6;
    EncodeAllAppend(DumpCode(l.initSnap, l.scratch, true), if v.Bracketed? then [save] else []);
  }

  lemma TailBytes(v: Variant, t: TestSpec, l: Layout)
    requires l.Valid()
    ensures EncodeAll(Restore(v, l)) == if v.Bracketed? then Encode(MoveAAbs(7, l.saved)) else []
    ensures EncodeAll(Fixup(v, t, l)) == if v.Bench? && NeedsFixup(t) then Encode(MoveAAbs(7, l.saved)) + Encode(SubQA(4, 7)) else []
    ensures |EncodeAll(Restore(v, l))| == if v.Bracketed? then 6 else 0
    ensures |EncodeAll(Fixup(v, t, l))| == if v.Bench? && NeedsFixup(t) then 8 else 0
  {
    EncodeOne(MoveAAbs(7, l.saved));
    EncodeTwo(MoveAAbs(7, l.saved), SubQA(4, 7));
    assert |Encode(MoveAAbs(7, l.saved))| == 6 && |Encode(SubQA(4, 7))| == 2;
  }

  lemma AfterTestBytes(v: Variant, t: TestSpec, l: Layout)
    requires l.Valid()
    ensures EncodeAll(AfterTest(v, t, l))
         == EncodeAll(Restore(v, l)) + EncodeAll(Dump(l)) + EncodeAll(Fixup(v, t, l)) + Encode(Rts)
    ensures |EncodeAll(AfterTest(v, t, l))|
         == 264 + (if v.Bracketed? then 6 else 0) + (if v.Bench? && NeedsFixup(t) then 8 else 0)
  {
    DumpBytes(l.finalSnap, l.scratch, false);
    TailBytes(v, t, l);
    EncodeOne(Rts);
    EncodeAllAppend(Restore(v, l), Dump(l));
    EncodeAllAppend(Restore(v, l) + Dump(l), Fixup(v, t, l));
    EncodeAllAppend(Restore(v, l) + Dump(l) + Fixup(v, t, l), [Rts]);
  }

  /** The exact program length; it fits the 1 KB buffer for every test spec. */
  lemma ProgramLength(v: Variant, t: TestSpec, l: Layout)
    requires l.Valid() && t.Valid()
    ensures |Leading(v, t, l)| == 300 + |t.preload| + if v.Bracketed? then 6 else 0
    ensures |Program(v, t, l)| == 564 + |t.preload| + |t.test|
              + (if v.Bracketed? then 12 else if NeedsFixup(t) then 8 else 0)
    ensures |Program(v, t, l)| <= PROG_LEN
  {
    PrologueBytes(l);
    BeforeTestBytes(v, l);
    AfterTestBytes(v, t, l);
  }

  // ---- the emitters, writing in place ---------------------------------------

  /** The statics of one bench: the program buffer and the two recorded PCs. */
  class Builder {
    const layout: Layout
    const progBuffer: array<byte>
    var initPc: int
    var finalPc: int

    ghost predicate Valid() {
      layout.Valid() && progBuffer.Length == PROG_LEN
    }

    constructor (l: Layout)
      requires l.Valid()
      ensures Valid() && layout == l && fresh(progBuffer)
    {
      layout := l;
      progBuffer := new byte[PROG_LEN](_ => 0);
      initPc, finalPc := 0, 0;
    }

    method PutW(p: nat, v: word) returns (q: nat)
      requires p + 2 <= progBuffer.Length
      modifies progBuffer
      ensures q == p + 2
      ensures progBuffer[..q] == old(progBuffer[..p]) + WordBytes(v)
      ensures forall k :: q <= k < progBuffer.Length ==> progBuffer[k] == old(progBuffer[k])
    {
      progBuffer[p] := v / 256;
      progBuffer[p + 1] := v % 256;
      q := p + 2;
    }

    method PutL(p: nat, v: long) returns (q: nat)
      requires p + 4 <= progBuffer.Length
      modifies progBuffer
      ensures q == p + 4
      ensures progBuffer[..q] == old(progBuffer[..p]) + LongBytes(v)
      ensures forall k :: q <= k < progBuffer.Length ==> progBuffer[k] == old(progBuffer[k])
    {
      progBuffer[p] := v / 0x100_0000;
      progBuffer[p + 1] := v / 0x1_0000 % 256;
      progBuffer[p + 2] := v / 256 % 256;
      progBuffer[p + 3] := v % 256;
      q := p + 4;
    }

    /** A word followed by a long operand. */
    method PutWL(p: nat, w: word, v: long) returns (q: nat)
      requires p + 6 <= progBuffer.Length
      modifies progBuffer
      ensures q == p + 6
      ensures progBuffer[..q] == old(progBuffer[..p]) + (WordBytes(w) + LongBytes(v))
      ensures forall k :: q <= k < progBuffer.Length ==> progBuffer[k] == old(progBuffer[k])
    {
      q := PutW(p, w);
      q := PutL(q, v);
    }

    method EmitMoveLDnToAbs(p: nat, dn: regno, addr: long) returns (q: nat)
      requires p + 6 <= progBuffer.Length
      modifies progBuffer
      ensures q == p + 6
      ensures progBuffer[..q] == old(progBuffer[..p]) + Encode(MoveL(Dn(dn), addr))
      ensures forall k :: q <= k < progBuffer.Length ==> progBuffer[k] == old(progBuffer[k])
    {
      q := PutWL(p, 0x23C0 + dn, addr);
    }

    method EmitMoveLAnToAbs(p: nat, an: regno, addr: long) returns (q: nat)
      requires p + 6 <= progBuffer.Length
      modifies progBuffer
      ensures q == p + 6
      ensures progBuffer[..q] == old(progBuffer[..p]) + Encode(MoveL(An(an), addr))
      ensures forall k :: q <= k < progBuffer.Length ==> progBuffer[k] == old(progBuffer[k])
    {
      q := PutWL(p, 0x23C8 + an, addr);
    }

    method EmitMoveALImmToAn(p: nat, an: regno, imm: long) returns (q: nat)
      requires p + 6 <= progBuffer.Length
      modifies progBuffer
      ensures q == p + 6
      ensures progBuffer[..q] == old(progBuffer[..p]) + Encode(MoveAImm(an, imm))
      ensures forall k :: q <= k < progBuffer.Length ==> progBuffer[k] == old(progBuffer[k])
    {
      q := PutWL(p, 0x207C + an * 512, imm);
    }

    method EmitMoveWImmToCcr(p: nat, imm: word) returns (q: nat)
      requires p + 4 <= progBuffer.Length
      modifies progBuffer
      ensures q == p + 4
      ensures progBuffer[..q] == old(progBuffer[..p]) + Encode(MoveToCcr(imm % 256))
      ensures forall k :: q <= k < progBuffer.Length ==> progBuffer[k] == old(progBuffer[k])
    {
      q := PutW(p, 0x44FC);
      q := PutW(q, imm % 256);
    }

    /** The scratch copy and CCR capture instructions. */
    method EmitAbsToAbs(p: nat, src: long, dst: long) returns (q: nat)
      requires p + 10 <= progBuffer.Length
      modifies progBuffer
      ensures q == p + 10
      ensures progBuffer[..q] == old(progBuffer[..p]) + Encode(MoveL(Mem(src), dst))
      ensures forall k :: q <= k < progBuffer.Length ==> progBuffer[k] == old(progBuffer[k])
    {
      q := PutWL(p, 0x23F9, src);
      q := PutL(q, dst);
    }

    /** First loop of the dump: A0-A7. */
    method EmitAddressStores(p: nat, snap: long) returns (q: nat)
      requires Valid() && InRange(snap, SNAP_LEN) && p + 48 <= progBuffer.Length
      modifies progBuffer
      ensures q == p + 48
      ensures progBuffer[..q] == old(progBuffer[..p]) + EncodeAll(StoreCode(snap, layout.scratch, 8))
      ensures forall k :: q <= k < progBuffer.Length ==> progBuffer[k] == old(progBuffer[k])
    {
      ghost var base := progBuffer[..p];
      q := p;
      for n := 0 to 8
        invariant q == p + 6 * n
        invariant progBuffer[..q] == base + EncodeAll(StoreCode(snap, layout.scratch, n))
        invariant forall k :: p + 48 <= k < progBuffer.Length ==> progBuffer[k] == old(progBuffer[k])
      {
        q := EmitMoveLAnToAbs(q, n, snap + 0x20 + n * 4);
        NextStore(base, snap, layout.scratch, n);
      }
    }

    /** Second loop: D0-D7. */
    method EmitDataStores(p: nat, snap: long, ghost base: seq<byte>) returns (q: nat)
      requires Valid() && InRange(snap, SNAP_LEN) && p + 48 <= progBuffer.Length
      requires progBuffer[..p] == base + EncodeAll(StoreCode(snap, layout.scratch, 8))
      modifies progBuffer
      ensures q == p + 48
      ensures progBuffer[..q] == base + EncodeAll(StoreCode(snap, layout.scratch, 16))
      ensures forall k :: q <= k < progBuffer.Length ==> progBuffer[k] == old(progBuffer[k])
    {
      q := p;
      for n := 0 to 8
        invariant q == p + 6 * n
        invariant progBuffer[..q] == base + EncodeAll(StoreCode(snap, layout.scratch, 8 + n))
        invariant forall k :: p + 48 <= k < progBuffer.Length ==> progBuffer[k] == old(progBuffer[k])
      {
        q := EmitMoveLDnToAbs(q, n, snap + n * 4);
        NextStore(base, snap, layout.scratch, 8 + n);
      }
    }

    method EmitScratchStore(p: nat, snap: long, i: nat) returns (q: nat)
      requires Valid() && InRange(snap, SNAP_LEN) && p + 10 <= progBuffer.Length && i < 16
      modifies progBuffer
      ensures q == p + 10
      ensures progBuffer[..q] == old(progBuffer[..p]) + Encode(MoveL(StoreSource(layout.scratch, 16 + i), snap + Slot(16 + i)))
      ensures forall k :: q <= k < progBuffer.Length ==> progBuffer[k] == old(progBuffer[k])
    {
      q := EmitAbsToAbs(p, layout.scratch + i * 4, snap + RAM_OFFSET + i * 4);
    }

    /** Third loop: the scratch longs. */
    method EmitScratchStores(p: nat, snap: long, ghost base: seq<byte>) returns (q: nat)
      requires Valid() && InRange(snap, SNAP_LEN) && p + 160 <= progBuffer.Length
      requires progBuffer[..p] == base + EncodeAll(StoreCode(snap, layout.scratch, 16))
      modifies progBuffer
      ensures q == p + 160
      ensures progBuffer[..q] == base + EncodeAll(StoreCode(snap, layout.scratch, STORES))
      ensures forall k :: q <= k < progBuffer.Length ==> progBuffer[k] == old(progBuffer[k])
    {
      hide EncodeAll, StoreCode, Encode, StoreSource, Slot;
      q := p;
      for i := 0 to SCRATCH_LEN / 4
        invariant q == p + 10 * i
        invariant progBuffer[..q] == base + EncodeAll(StoreCode(snap, layout.scratch, 16 + i))
        invariant forall k :: p + 160 <= k < progBuffer.Length ==> progBuffer[k] == old(progBuffer[k])
      {
        q := EmitScratchStore(q, snap, i);
        NextStore(base, snap, layout.scratch, 16 + i);
      }
    }

    method EmitStateDump(p: nat, snap: long, isInit: bool) returns (q: nat)
      requires Valid() && InRange(snap, SNAP_LEN) && p + 262 <= progBuffer.Length
      modifies progBuffer
      ensures q == p + 262
      ensures progBuffer[..q] == old(progBuffer[..p]) + EncodeAll(DumpCode(snap, layout.scratch, isInit))
      ensures forall k :: q <= k < progBuffer.Length ==> progBuffer[k] == old(progBuffer[k])
    {
      q := p;
      if !isInit { q := PutWL(q, 0x42F9, snap + CCR_OFFSET); }
      ghost var base := progBuffer[..q];
      q := EmitAddressStores(q, snap);
      q := EmitDataStores(q, snap, base);
      q := EmitScratchStores(q, snap, base);
      if isInit { q := PutWL(q, 0x42F9, snap + CCR_OFFSET); }
      DumpAssembled(old(progBuffer[..p]), snap, layout.scratch, isInit);
    }

    static lemma DumpAssembled(head: seq<byte>, snap: long, scratch: int, isInit: bool)
      requires InRange(scratch, SCRATCH_LEN) && InRange(snap, SNAP_LEN)
      ensures var ccr := WordBytes(0x42F9) + LongBytes(snap + CCR_OFFSET);
              head + EncodeAll(DumpCode(snap, scratch, isInit))
              == if isInit then head + EncodeAll(StoreCode(snap, scratch, STORES)) + ccr
                 else head + ccr + EncodeAll(StoreCode(snap, scratch, STORES))
    {
      var ccr, stores := Encode(CcrTo(snap + CCR_OFFSET)), EncodeAll(StoreCode(snap, scratch, STORES));
      DumpBytes(snap, scratch, isInit);
      assert ccr == WordBytes(0x42F9) + LongBytes(snap + CCR_OFFSET);
      Join2(head, ccr, stores);
      Join2(head, stores, ccr);
    }

    /** Appending one more store to what has been emitted. */
    static lemma NextStore(base: seq<byte>, snap: int, scratch: int, n: int)
      requires 0 <= n < STORES && InRange(scratch, SCRATCH_LEN) && InRange(snap, SNAP_LEN)
      ensures base + EncodeAll(StoreCode(snap, scratch, n)) + Encode(MoveL(StoreSource(scratch, n), snap + Slot(n)))
           == base + EncodeAll(StoreCode(snap, scratch, n + 1))
    {
      var last := MoveL(StoreSource(scratch, n), snap + Slot(n));
      assert StoreCode(snap, scratch, n + 1) == StoreCode(snap, scratch, n) + [last];
      EncodeAllAppend(StoreCode(snap, scratch, n), [last]);
      EncodeOne(last);
      Join2(base, EncodeAll(StoreCode(snap, scratch, n)), Encode(last));
    }

    /** memcpy of preload or test bytes. */
    method Copy(p: nat, bytes: seq<byte>) returns (q: nat)
      requires p + |bytes| <= progBuffer.Length
      modifies progBuffer
      ensures q == p + |bytes|
      ensures progBuffer[..q] == old(progBuffer[..p]) + bytes
      ensures forall k :: q <= k < progBuffer.Length ==> progBuffer[k] == old(progBuffer[k])
    {
      forall k | 0 <= k < |bytes| { progBuffer[p + k] := bytes[k]; }
      q := p + |bytes|;
    }

    /** MOVEQ #0,Dn for every data register. */
    method EmitClearData() returns (q: nat)
      requires Valid()
      modifies progBuffer
      ensures q == 16 && progBuffer[..q] == EncodeAll(ClearData(8))
    {
      q := 0;
      for n := 0 to 8
        invariant q == 2 * n && progBuffer[..q] == EncodeAll(ClearData(n))
      {
        q := PutW(q, 0x7000 + n * 512);
        NextClear(n);
      }
    }

    static lemma NextClear(n: int)
      requires 0 <= n < 8
      ensures EncodeAll(ClearData(n)) + WordBytes(0x7000 + n * 512) == EncodeAll(ClearData(n + 1))
      ensures n < 6 ==> EncodeAll(ClearAddress(n)) + WordBytes(0x91C8 + n * 512 + n) == EncodeAll(ClearAddress(n + 1))
    {
      assert ClearData(n + 1) == ClearData(n) + [MoveQ(n, 0)];
      EncodeAllAppend(ClearData(n), [MoveQ(n, 0)]);
      EncodeOne(MoveQ(n, 0));
      assert Encode(MoveQ(n, 0)) == WordBytes(0x7000 + n * 512);
      if n < 6 {
        assert ClearAddress(n + 1) == ClearAddress(n) + [SubA(n, n)];
        EncodeAllAppend(ClearAddress(n), [SubA(n, n)]);
        EncodeOne(SubA(n, n));
        assert Encode(SubA(n, n)) == WordBytes(0x91C8 + n * 512 + n);
      }
    }

    /** SUBA.L An,An for A0-A5. */
    method EmitClearAddress(p: nat) returns (q: nat)
      requires p + 12 <= progBuffer.Length
      modifies progBuffer
      ensures q == p + 12 && progBuffer[..q] == old(progBuffer[..p]) + EncodeAll(ClearAddress(6))
    {
      ghost var base := progBuffer[..p];
      q := p;
      for n := 0 to 6
        invariant q == p + 2 * n && progBuffer[..q] == base + EncodeAll(ClearAddress(n))
      {
        q := PutW(q, 0x91C8 + n * 512 + n);
        NextClear(n);
        Join2(base, EncodeAll(ClearAddress(n)), WordBytes(0x91C8 + n * 512 + n));
      }
    }

    method EmitPrologue() returns (q: nat)
      requires Valid()
      modifies progBuffer
      ensures q == 38
      ensures progBuffer[..q] == EncodeAll(PrologueCode(layout))
    {
      q := EmitClearData();
      q := EmitClearAddress(q);
      q := EmitMoveALImmToAn(q, 6, layout.scratch);
      q := EmitMoveWImmToCcr(q, 0);
      PrologueBytes(layout);
    }

    /** The A7 reload of cpu_bench.c, for the tests that need it. */
    method EmitFixup(p: nat, t: TestSpec) returns (q: nat)
      requires Valid() && p + 8 <= progBuffer.Length
      modifies progBuffer
      ensures q == p + |EncodeAll(Fixup(Bench, t, layout))| <= p + 8
      ensures progBuffer[..q] == old(progBuffer[..p]) + EncodeAll(Fixup(Bench, t, layout))
    {
      q := p;
      TailBytes(Bench, t, layout);
      if Contains(t.name, "RTD #") && !Contains(t.name, "RTD #0") {
        q := PutWL(q, 0x2E79, layout.saved);
        q := PutW(q, 0x598F);
      }
    }

    /** Everything up to the test; shared by both builders. */
    method EmitLeading(v: Variant, t: TestSpec) returns (q: nat)
      requires Valid() && t.Valid()
      modifies progBuffer
      ensures q == |Leading(v, t, layout)| <= 336
      ensures progBuffer[..q] == Leading(v, t, layout)
    {
      q := EmitPrologue();
      if |t.preload| != 0 { q := Copy(q, t.preload); }
      q := EmitStateDump(q, layout.initSnap, true);
      BeforeTestBytes(v, layout);
      if v.Bracketed? { q := PutWL(q, 0x23CF, layout.saved); }
      ProgramLength(v, t, layout);
    }

    static lemma BenchTail(t: TestSpec, l: Layout, head: seq<byte>)
      requires l.Valid()
      ensures head + EncodeAll(Dump(l)) + EncodeAll(Fixup(Bench, t, l)) + WordBytes(0x4E75)
           == head + EncodeAll(AfterTest(Bench, t, l))
    {
      TailBytes(Bench, t, l);
      AfterTestBytes(Bench, t, l);
      Join4(head, EncodeAll(Restore(Bench, l)), EncodeAll(Dump(l)), EncodeAll(Fixup(Bench, t, l)), Encode(Rts));
      assert head + EncodeAll(Restore(Bench, l)) == head;
      assert Encode(Rts) == WordBytes(0x4E75);
    }

    static lemma BracketedTail(t: TestSpec, l: Layout, head: seq<byte>)
      requires l.Valid()
      ensures head + (WordBytes(0x2E79) + LongBytes(l.saved)) + EncodeAll(Dump(l)) + WordBytes(0x4E75)
           == head + EncodeAll(AfterTest(Bracketed, t, l))
    {
      TailBytes(Bracketed, t, l);
      AfterTestBytes(Bracketed, t, l);
      var fix := EncodeAll(Fixup(Bracketed, t, l));
      Join4(head, EncodeAll(Restore(Bracketed, l)), EncodeAll(Dump(l)), fix, Encode(Rts));
      var body := head + EncodeAll(Restore(Bracketed, l)) + EncodeAll(Dump(l));
      assert body + fix == body;
      assert Encode(Rts) == WordBytes(0x4E75);
      assert Encode(MoveAAbs(7, l.saved)) == WordBytes(0x2E79) + LongBytes(l.saved);
    }

    /** build_program of cpu_bench.c. */
    method BuildBench(t: TestSpec) returns (len: nat)
      requires Valid() && t.Valid()
      modifies this, progBuffer
      ensures len <= PROG_LEN && progBuffer[..len] == Program(Bench, t, layout)
      ensures len == 564 + |t.preload| + |t.test| + if Within(t.name, "RTD #") && !Within(t.name, "RTD #0") then 8 else 0
      ensures initPc == layout.prog + |Leading(Bench, t, layout)|
      ensures finalPc - initPc == |t.test|
    {
      ProgramLength(Bench, t, layout);
      ContainsIff(t.name, "RTD #");
      ContainsIff(t.name, "RTD #0");
      var p := EmitLeading(Bench, t);
      initPc := layout.prog + p;
      p := Copy(p, t.test);
      finalPc := layout.prog + p;
      p := EmitStateDump(p, layout.finalSnap, false);
      p := EmitFixup(p, t);
      len := PutW(p, 0x4E75);
      BenchTail(t, layout, Leading(Bench, t, layout) + t.test);
    }

    /** build_program of cpu_test_macii.c. */
    method BuildBracketed(t: TestSpec) returns (len: nat)
      requires Valid() && t.Valid()
      modifies this, progBuffer
      ensures len <= PROG_LEN && progBuffer[..len] == Program(Bracketed, t, layout)
      ensures len == 576 + |t.preload| + |t.test|
      ensures initPc == layout.prog + |Leading(Bracketed, t, layout)|
      ensures finalPc - initPc == |t.test|
    {
      ProgramLength(Bracketed, t, layout);
      var p := EmitLeading(Bracketed, t);
      initPc := layout.prog + p;
      p := Copy(p, t.test);
      finalPc := layout.prog + p;
      p := PutWL(p, 0x2E79, layout.saved);
      p := EmitStateDump(p, layout.finalSnap, false);
      len := PutW(p, 0x4E75);
      BracketedTail(t, layout, Leading(Bracketed, t, layout) + t.test);
    }
  }
}
