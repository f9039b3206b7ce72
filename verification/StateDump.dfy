/** What the emitted state dump does when a 68k runs it. */
module StateDump {
  import opened Basics
  import opened M68k

  const SCRATCH_LEN := 64
  const SNAP_LEN := 132        // d 0x00, a 0x20, ccr_high 0x40, ccr 0x41, pad 0x42, ram 0x44
  const CCR_OFFSET := 0x40
  const RAM_OFFSET := 0x44
  const STORES := 32           // eight An, eight Dn, sixteen scratch longs

  datatype Snapshot = Snapshot(d: Registers, a: Registers, ccrHigh: byte, ccr: byte, ram: seq<byte>)

  function ReadLongs(mem: Memory, base: int): Registers
    requires InRange(base, 32)
  {
    seq(8, i requires 0 <= i < 8 => ReadLong(mem, base + 4 * i))
  }

  function ReadSnapshot(mem: Memory, base: int): Snapshot
    requires InRange(base, SNAP_LEN)
  {
    Snapshot(ReadLongs(mem, base), ReadLongs(mem, base + 0x20),
             mem[base + CCR_OFFSET], mem[base + CCR_OFFSET + 1],
             mem[base + RAM_OFFSET..base + SNAP_LEN])
  }

  /** Where the k-th store of the dump lands in the snapshot. */
  function Slot(k: int): int
    requires 0 <= k < STORES
  {
    if k < 8 then 0x20 + 4 * k else if k < 16 then 4 * (k - 8) else RAM_OFFSET + 4 * (k - 16)
  }

  function StoreSource(scratch: int, k: int): Source
    requires 0 <= k < STORES && InRange(scratch, SCRATCH_LEN)
  {
    if k < 8 then An(k) else if k < 16 then Dn(k - 8) else Mem(scratch + 4 * (k - 16))
  }

  function StoreCode(snap: int, scratch: int, n: int): (r: seq<Instr>)
    requires 0 <= n <= STORES && InRange(scratch, SCRATCH_LEN) && InRange(snap, SNAP_LEN)
    ensures |r| == n
  {
    seq(n, k requires 0 <= k < n => MoveL(StoreSource(scratch, k), snap + Slot(k)))
  }

  /** The instructions of a dump: CCR last for the initial one, first for the final one. */
  function DumpCode(snap: int, scratch: int, isInit: bool): seq<Instr>
    requires InRange(scratch, SCRATCH_LEN) && InRange(snap, SNAP_LEN)
  {
    var ccr := [CcrTo(snap + CCR_OFFSET)];
    (if isInit then [] else ccr) + StoreCode(snap, scratch, STORES) + (if isInit then ccr else [])
  }

  /** The long the k-th store saves. */
  function Saved(m: Machine, scratch: int, k: int): long
    requires 0 <= k < STORES && InRange(scratch, SCRATCH_LEN)
  {
    SourceValue(m, StoreSource(scratch, k)).value
  }

  /** What has happened after the first n stores. */
  ghost predicate AfterStores(m: Machine, m': Machine, snap: int, scratch: int, n: int)
    requires 0 <= n <= STORES && InRange(scratch, SCRATCH_LEN) && InRange(snap, SNAP_LEN)
  {
    && m'.d == m.d && m'.a == m.a
    && m'.ccr == (if n == 0 then m.ccr else MoveFlags(m.ccr, Saved(m, scratch, n - 1)))
    && (forall j :: 0 <= j < n ==> m'.mem[snap + Slot(j)..snap + Slot(j) + 4] == LongBytes(Saved(m, scratch, j)))
    && (forall k :: 0 <= k < MEM_SIZE && !(snap <= k < snap + CCR_OFFSET) && !(snap + RAM_OFFSET <= k < snap + SNAP_LEN)
          ==> m'.mem[k] == m.mem[k])
  }

  lemma {:induction false} StoresRun(m: Machine, snap: int, scratch: int, n: int)
    requires 0 <= n <= STORES && InRange(scratch, SCRATCH_LEN) && InRange(snap, SNAP_LEN)
    requires Apart(snap, SNAP_LEN, scratch, SCRATCH_LEN)
    ensures ExecAll(StoreCode(snap, scratch, n), m).Some?
    ensures AfterStores(m, ExecAll(StoreCode(snap, scratch, n), m).value, snap, scratch, n)
  {
    if n > 0 {
      var before := StoreCode(snap, scratch, n - 1);
      var last := MoveL(StoreSource(scratch, n - 1), snap + Slot(n - 1));
      StoresRun(m, snap, scratch, n - 1);
      assert StoreCode(snap, scratch, n) == before + [last];
      var m1 := ExecAll(before, m).value;
      ExecAllAppend(before, [last], m);
      OneMoreStore(m, m1, snap, scratch, n);
      assert ExecAll([last], m1) == Exec(last, m1);
    }
  }

  lemma MoveLExec(m: Machine, s: Source, t: long)
    requires SourceValue(m, s).Some? && InRange(t, 4)
    ensures var v := SourceValue(m, s).value;
            Exec(MoveL(s, t), m) == Some(Machine(m.d, m.a, MoveFlags(m.ccr, v), m.pc + |Encode(MoveL(s, t))|, Store(m.mem, t, LongBytes(v))))
  {
  }

  lemma SavedUnchanged(m: Machine, m1: Machine, snap: int, scratch: int, n: int, j: int)
    requires 0 <= n <= STORES && InRange(scratch, SCRATCH_LEN) && InRange(snap, SNAP_LEN)
    requires Apart(snap, SNAP_LEN, scratch, SCRATCH_LEN)
    requires AfterStores(m, m1, snap, scratch, n) && 0 <= j < STORES
    ensures SourceValue(m1, StoreSource(scratch, j)) == SourceValue(m, StoreSource(scratch, j))
  {
    if j >= 16 {
      var at := scratch + 4 * (j - 16);
      assert m1.mem[at..at + 4] == m.mem[at..at + 4];
    }
  }

  lemma OneMoreStore(m: Machine, m1: Machine, snap: int, scratch: int, n: int)
    requires 0 < n <= STORES && InRange(scratch, SCRATCH_LEN) && InRange(snap, SNAP_LEN)
    requires Apart(snap, SNAP_LEN, scratch, SCRATCH_LEN)
    requires AfterStores(m, m1, snap, scratch, n - 1)
    ensures var last := MoveL(StoreSource(scratch, n - 1), snap + Slot(n - 1));
            && Exec(last, m1).Some?
            && AfterStores(m, Exec(last, m1).value, snap, scratch, n)
  {
    var t := snap + Slot(n - 1);
    var s := StoreSource(scratch, n - 1);
    SavedUnchanged(m, m1, snap, scratch, n - 1, n - 1);
    MoveLExec(m1, s, t);
    var v := Saved(m, scratch, n - 1);
    var m2 := Exec(MoveL(s, t), m1).value;
    StoredSoFar(m, m1.mem, v, snap, scratch, n);
    assert m2.mem == Store(m1.mem, t, LongBytes(v));
    assert m2.ccr == MoveFlags(m.ccr, v);
  }

  lemma StoredSoFar(m: Machine, mem: Memory, v: long, snap: int, scratch: int, n: int)
    requires 0 < n <= STORES && InRange(scratch, SCRATCH_LEN) && InRange(snap, SNAP_LEN)
    requires v == Saved(m, scratch, n - 1)
    requires forall j :: 0 <= j < n - 1 ==> mem[snap + Slot(j)..snap + Slot(j) + 4] == LongBytes(Saved(m, scratch, j))
    ensures var r := Store(mem, snap + Slot(n - 1), LongBytes(v));
            forall j :: 0 <= j < n ==> r[snap + Slot(j)..snap + Slot(j) + 4] == LongBytes(Saved(m, scratch, j))
  {
    var r := Store(mem, snap + Slot(n - 1), LongBytes(v));
    forall j | 0 <= j < n
      ensures r[snap + Slot(j)..snap + Slot(j) + 4] == LongBytes(Saved(m, scratch, j))
    {
      if j < n - 1 {
        var p := snap + Slot(j);
        assert Apart(p, 4, snap + Slot(n - 1), 4);
        assert r[p..p + 4] == mem[p..p + 4];
      }
    }
  }

  lemma SavedLong(m: Machine, mem: Memory, snap: int, scratch: int, g: int)
    requires InRange(scratch, SCRATCH_LEN) && InRange(snap, SNAP_LEN) && 0 <= g < 16
    requires mem[snap + Slot(16 + g)..snap + Slot(16 + g) + 4] == LongBytes(Saved(m, scratch, 16 + g))
    ensures mem[snap + RAM_OFFSET + 4 * g..snap + RAM_OFFSET + 4 * g + 4] == m.mem[scratch + 4 * g..scratch + 4 * g + 4]
  {
    BytesRoundTrip(m.mem[scratch + 4 * g..scratch + 4 * g + 4]);
  }

  lemma SliceEnd<T>(x: seq<T>, a: int, b: int, c: int)
    requires 0 <= a <= b <= c <= |x|
    ensures x[a..c] == x[a..b] + x[b..c]
  {
  }

  /** The ram field, built up long by long, is a copy of scratch. */
  lemma {:induction false} SavedRam(m: Machine, mem: Memory, snap: int, scratch: int, g: int)
    requires InRange(scratch, SCRATCH_LEN) && InRange(snap, SNAP_LEN) && 0 <= g <= 16
    requires forall j :: 16 <= j < STORES ==> mem[snap + Slot(j)..snap + Slot(j) + 4] == LongBytes(Saved(m, scratch, j))
    ensures mem[snap + RAM_OFFSET..snap + RAM_OFFSET + 4 * g] == m.mem[scratch..scratch + 4 * g]
  {
    if g > 0 {
      SavedRam(m, mem, snap, scratch, g - 1);
      SavedLong(m, mem, snap, scratch, g - 1);
      SliceEnd(mem, snap + RAM_OFFSET, snap + RAM_OFFSET + 4 * (g - 1), snap + RAM_OFFSET + 4 * g);
      SliceEnd(m.mem, scratch, scratch + 4 * (g - 1), scratch + 4 * g);
    }
  }

  /** The state after a whole dump: registers, X and everything outside the
      snapshot kept, the snapshot filled with the entry state, and the CCR
      field holding the exit CCR (initial dump) or the entry CCR (final dump). */
  ghost predicate Dumped(m: Machine, m': Machine, snap: int, scratch: int, isInit: bool)
    requires InRange(scratch, SCRATCH_LEN) && InRange(snap, SNAP_LEN)
  {
    && m'.d == m.d && m'.a == m.a && m'.ccr.x == m.ccr.x
    && m'.ccr == MoveFlags(m.ccr, ReadLong(m.mem, scratch + SCRATCH_LEN - 4))
    && (var last := ReadLong(m.mem, scratch + 60); m'.ccr == Ccr(m.ccr.x, last >= 0x8000_0000, last == 0, false, false))
    && m'.pc == m.pc + |EncodeAll(DumpCode(snap, scratch, isInit))|
    && ReadSnapshot(m'.mem, snap)
         == Snapshot(m.d, m.a, 0, (if isInit then m'.ccr else m.ccr).ToByte(), m.mem[scratch..scratch + SCRATCH_LEN])
    && (forall k :: 0 <= k < MEM_SIZE && !(snap <= k < snap + SNAP_LEN) ==> m'.mem[k] == m.mem[k])
    && m'.mem[snap + 0x42..snap + 0x44] == m.mem[snap + 0x42..snap + 0x44]
  }

  /** Straight-line code without RTS advances the pc by its length. */
  lemma {:induction false} ExecAllAdvances(code: seq<Instr>, m: Machine)
    requires forall k :: 0 <= k < |code| ==> !code[k].Rts?
    requires ExecAll(code, m).Some?
    ensures ExecAll(code, m).value.pc == m.pc + |EncodeAll(code)|
  {
    if code != [] {
      ExecAllAdvances(code[1..], Exec(code[0], m).value);
    }
  }

  lemma SnapshotFilled(m: Machine, mem: Memory, snap: int, scratch: int)
    requires InRange(scratch, SCRATCH_LEN) && InRange(snap, SNAP_LEN)
    requires forall j :: 0 <= j < STORES ==> mem[snap + Slot(j)..snap + Slot(j) + 4] == LongBytes(Saved(m, scratch, j))
    ensures ReadLongs(mem, snap) == m.d && ReadLongs(mem, snap + 0x20) == m.a
    ensures mem[snap + RAM_OFFSET..snap + SNAP_LEN] == m.mem[scratch..scratch + SCRATCH_LEN]
  {
    SavedRam(m, mem, snap, scratch, 16);
    forall i | 0 <= i < 8
      ensures ReadLongs(mem, snap)[i] == m.d[i] && ReadLongs(mem, snap + 0x20)[i] == m.a[i]
    {
      LongRoundTrip(m.d[i]);
      LongRoundTrip(m.a[i]);
      assert Slot(i) == 0x20 + 4 * i && Saved(m, scratch, i) == m.a[i];
      assert Slot(i + 8) == 4 * i && Saved(m, scratch, i + 8) == m.d[i];
    }
  }

  lemma CcrToExec(m: Machine, t: long)
    requires InRange(t, 2)
    ensures Exec(CcrTo(t), m)
         == Some(m.(mem := Store(m.mem, t, [0, m.ccr.ToByte()]), pc := m.pc + |Encode(CcrTo(t))|))
    ensures ExecAll([CcrTo(t)], m) == Exec(CcrTo(t), m)
  {
    var code := [CcrTo(t)];
    assert ExecAll(code[1..], Exec(CcrTo(t), m).value) == Some(Exec(CcrTo(t), m).value);
  }

  /** The dump as three phases: CCR or nothing, the stores, nothing or CCR. */
  lemma DumpPhases(m: Machine, snap: int, scratch: int, isInit: bool) returns (m0: Machine, m1: Machine, m2: Machine)
    requires InRange(scratch, SCRATCH_LEN) && InRange(snap, SNAP_LEN)
    requires Apart(snap, SNAP_LEN, scratch, SCRATCH_LEN)
    ensures m0 == if isInit then m else Exec(CcrTo(snap + CCR_OFFSET), m).value
    ensures AfterStores(m0, m1, snap, scratch, STORES)
    ensures m2 == if isInit then Exec(CcrTo(snap + CCR_OFFSET), m1).value else m1
    ensures ExecAll(DumpCode(snap, scratch, isInit), m) == Some(m2)
  {
    var code := DumpCode(snap, scratch, isInit);
    var stores := StoreCode(snap, scratch, STORES);
    var ccr := CcrTo(snap + CCR_OFFSET);
    CcrToExec(m, snap + CCR_OFFSET);
    m0 := if isInit then m else Exec(ccr, m).value;
    StoresRun(m0, snap, scratch, STORES);
    m1 := ExecAll(stores, m0).value;
    CcrToExec(m1, snap + CCR_OFFSET);
    m2 := if isInit then Exec(ccr, m1).value else m1;
    if isInit {
      assert code == stores + [ccr];
      ExecAllAppend(stores, [ccr], m);
    } else {
      assert code == [ccr] + stores;
      ExecAllAppend([ccr], stores, m);
    }
  }

  /** Bytes of the snapshot longs are not touched by the CCR store. */
  lemma CcrStoreKeepsLongs(mem: Memory, snap: int, j: int, ccr: byte)
    requires InRange(snap, SNAP_LEN) && 0 <= j < STORES
    ensures Store(mem, snap + CCR_OFFSET, [0, ccr])[snap + Slot(j)..snap + Slot(j) + 4] == mem[snap + Slot(j)..snap + Slot(j) + 4]
  {
  }

  lemma DumpFillsLongs(m: Machine, m0: Machine, m1: Machine, m2: Machine, snap: int, scratch: int, isInit: bool)
    requires InRange(scratch, SCRATCH_LEN) && InRange(snap, SNAP_LEN)
    requires Apart(snap, SNAP_LEN, scratch, SCRATCH_LEN)
    requires m0 == if isInit then m else Exec(CcrTo(snap + CCR_OFFSET), m).value
    requires AfterStores(m0, m1, snap, scratch, STORES)
    requires m2 == if isInit then Exec(CcrTo(snap + CCR_OFFSET), m1).value else m1
    ensures forall j :: 0 <= j < STORES ==> Saved(m0, scratch, j) == Saved(m, scratch, j)
    ensures forall j :: 0 <= j < STORES ==> m2.mem[snap + Slot(j)..snap + Slot(j) + 4] == LongBytes(Saved(m, scratch, j))
  {
    CcrToExec(m, snap + CCR_OFFSET);
    CcrToExec(m1, snap + CCR_OFFSET);
    assert m0.mem[scratch..scratch + SCRATCH_LEN] == m.mem[scratch..scratch + SCRATCH_LEN];
    LongsKept(m, m0, m1.mem, m2.mem, snap, scratch, m1.ccr.ToByte());
  }

  lemma LongsKept(m: Machine, m0: Machine, mem1: Memory, mem2: Memory, snap: int, scratch: int, ccr: byte)
    requires InRange(scratch, SCRATCH_LEN) && InRange(snap, SNAP_LEN)
    requires m0.d == m.d && m0.a == m.a
    requires m0.mem[scratch..scratch + SCRATCH_LEN] == m.mem[scratch..scratch + SCRATCH_LEN]
    requires forall j :: 0 <= j < STORES ==> mem1[snap + Slot(j)..snap + Slot(j) + 4] == LongBytes(Saved(m0, scratch, j))
    requires mem2 == mem1 || mem2 == Store(mem1, snap + CCR_OFFSET, [0, ccr])
    ensures forall j :: 0 <= j < STORES ==> Saved(m0, scratch, j) == Saved(m, scratch, j)
    ensures forall j :: 0 <= j < STORES ==> mem2[snap + Slot(j)..snap + Slot(j) + 4] == LongBytes(Saved(m, scratch, j))
  {
    forall j | 0 <= j < STORES
      ensures Saved(m0, scratch, j) == Saved(m, scratch, j)
      ensures mem2[snap + Slot(j)..snap + Slot(j) + 4] == LongBytes(Saved(m, scratch, j))
    {
      SameSaved(m, m0, scratch, j);
      CcrStoreKeepsLongs(mem1, snap, j, ccr);
    }
  }

  lemma DumpFrame(m: Machine, m0: Machine, m1: Machine, m2: Machine, snap: int, scratch: int, isInit: bool)
    requires InRange(scratch, SCRATCH_LEN) && InRange(snap, SNAP_LEN)
    requires m0 == if isInit then m else Exec(CcrTo(snap + CCR_OFFSET), m).value
    requires AfterStores(m0, m1, snap, scratch, STORES)
    requires m2 == if isInit then Exec(CcrTo(snap + CCR_OFFSET), m1).value else m1
    ensures m2.d == m.d && m2.a == m.a
    ensures m2.ccr == m1.ccr == MoveFlags(m.ccr, Saved(m0, scratch, STORES - 1))
    ensures forall k :: 0 <= k < MEM_SIZE && !(snap <= k < snap + SNAP_LEN) ==> m2.mem[k] == m.mem[k]
    ensures m2.mem[snap + 0x42] == m.mem[snap + 0x42] && m2.mem[snap + 0x43] == m.mem[snap + 0x43]
    ensures m2.mem[snap + CCR_OFFSET] == 0
    ensures m2.mem[snap + CCR_OFFSET + 1] == (if isInit then m2.ccr else m.ccr).ToByte()
  {
    var c := snap + CCR_OFFSET;
    CcrToExec(m, c);
    CcrToExec(m1, c);
    var mc := if isInit then m1 else m;
    var written := if isInit then m2 else m0;
    assert written.mem[c..c + 2] == [0, mc.ccr.ToByte()];
    assert written.mem[c] == written.mem[c..c + 2][0] && written.mem[c + 1] == written.mem[c..c + 2][1];
  }

  lemma DumpedFrom(m: Machine, m2: Machine, snap: int, scratch: int, isInit: bool)
    requires InRange(scratch, SCRATCH_LEN) && InRange(snap, SNAP_LEN)
    requires m2.d == m.d && m2.a == m.a
    requires m2.ccr == MoveFlags(m.ccr, Saved(m, scratch, STORES - 1))
    requires m2.pc == m.pc + |EncodeAll(DumpCode(snap, scratch, isInit))|
    requires forall k :: 0 <= k < MEM_SIZE && !(snap <= k < snap + SNAP_LEN) ==> m2.mem[k] == m.mem[k]
    requires m2.mem[snap + 0x42] == m.mem[snap + 0x42] && m2.mem[snap + 0x43] == m.mem[snap + 0x43]
    requires m2.mem[snap + CCR_OFFSET] == 0
    requires m2.mem[snap + CCR_OFFSET + 1] == (if isInit then m2.ccr else m.ccr).ToByte()
    requires ReadLongs(m2.mem, snap) == m.d && ReadLongs(m2.mem, snap + 0x20) == m.a
    requires m2.mem[snap + RAM_OFFSET..snap + SNAP_LEN] == m.mem[scratch..scratch + SCRATCH_LEN]
    ensures Dumped(m, m2, snap, scratch, isInit)
  {
    var p := snap + 0x42;
    assert m2.mem[p..p + 2] == m.mem[p..p + 2];
  }

  lemma DumpEffect(m: Machine, snap: int, scratch: int, isInit: bool)
    requires InRange(scratch, SCRATCH_LEN) && InRange(snap, SNAP_LEN)
    requires Apart(snap, SNAP_LEN, scratch, SCRATCH_LEN)
    ensures ExecAll(DumpCode(snap, scratch, isInit), m).Some?
    ensures Dumped(m, ExecAll(DumpCode(snap, scratch, isInit), m).value, snap, scratch, isInit)
  {
    var m0, m1, m2 := DumpPhases(m, snap, scratch, isInit);
    ExecAllAdvances(DumpCode(snap, scratch, isInit), m);
    DumpFillsLongs(m, m0, m1, m2, snap, scratch, isInit);
    SnapshotFilled(m, m2.mem, snap, scratch);
    DumpFrame(m, m0, m1, m2, snap, scratch, isInit);
    DumpedFrom(m, m2, snap, scratch, isInit);
  }

  /** Saved values do not depend on memory outside scratch. */
  lemma SameSaved(m: Machine, m0: Machine, scratch: int, j: int)
    requires 0 <= j < STORES && InRange(scratch, SCRATCH_LEN)
    requires m0.d == m.d && m0.a == m.a
    requires m0.mem[scratch..scratch + SCRATCH_LEN] == m.mem[scratch..scratch + SCRATCH_LEN]
    ensures Saved(m0, scratch, j) == Saved(m, scratch, j)
  {
    if j >= 16 {
      var o := 4 * (j - 16);
      assert m0.mem[scratch + o..scratch + o + 4] == m0.mem[scratch..scratch + SCRATCH_LEN][o..o + 4];
      assert m.mem[scratch + o..scratch + o + 4] == m.mem[scratch..scratch + SCRATCH_LEN][o..o + 4];
    }
  }

  /** On any core, the dump's bytes run to completion from any machine state. */
  lemma DumpRuns(core: Machine -> Machine, m: Machine, snap: int, scratch: int, isInit: bool) returns (m': Machine)
    requires Implements(core)
    requires InRange(scratch, SCRATCH_LEN) && InRange(snap, SNAP_LEN)
    requires Apart(snap, SNAP_LEN, scratch, SCRATCH_LEN)
    requires Loaded(m.mem, m.pc, EncodeAll(DumpCode(snap, scratch, isInit)))
    requires Apart(snap, SNAP_LEN, m.pc, |EncodeAll(DumpCode(snap, scratch, isInit))|)
    ensures Reaches(core, m, m') && Dumped(m, m', snap, scratch, isInit)
  {
    var code := DumpCode(snap, scratch, isInit);
    DumpEffect(m, snap, scratch, isInit);
    m' := ExecAll(code, m).value;
    assert AllHarmless(code, m.pc, m.pc + |EncodeAll(code)|) by {
      forall k | 0 <= k < |code| ensures Harmless(code[k], m.pc, m.pc + |EncodeAll(code)|) {
        InsideSnapshot(snap, scratch, isInit, k);
      }
    }
    CodeRuns(core, code, m);
  }

  lemma InsideSnapshot(snap: int, scratch: int, isInit: bool, k: int)
    requires InRange(scratch, SCRATCH_LEN) && InRange(snap, SNAP_LEN)
    requires 0 <= k < |DumpCode(snap, scratch, isInit)|
    ensures var i := DumpCode(snap, scratch, isInit)[k];
            && (i.MoveL? || i.CcrTo?)
            && snap <= i.to && (if i.MoveL? then i.to + 4 else i.to + 2) <= snap + SNAP_LEN
  {
  }
}
