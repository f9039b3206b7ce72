/** Table walks before and after relocation, and the comparison mask. */
module PmmuWalk {
  import opened Basics
  import opened PmmuReloc

  const WINDOW := 0x40

  predicate IsTable(r: Region) { r.Root? || r.LevB? || r.LevC? || r.Srp? }

  /** The four table windows of one corpus row. */
  datatype Tables = Tables(root: seq<byte>, levb: seq<byte>, levc: seq<byte>, srp: seq<byte>) {
    predicate Shaped() { |root| == WINDOW && |levb| == WINDOW && |levc| == WINDOW && |srp| == WINDOW }
  }

  function Window(ts: Tables, r: Region): seq<byte>
    requires IsTable(r)
  {
    match r
    case Root => ts.root
    case LevB => ts.levb
    case LevC => ts.levc
    case Srp => ts.srp
  }

  function WordOf(w: seq<byte>, k: nat): nat
    requires 4 * k + 4 <= |w|
  {
    Value(w[4 * k..4 * k + 4])
  }

  // ---- translated windows, word by word ----------------------------------------

  lemma WordBelow(w: seq<byte>, k: nat)
    requires 4 * k + 4 <= |w|
    ensures WordOf(w, k) < LONG
  {
    var b := w[4 * k..4 * k + 4];
    ValueOfFour(b, b[0], b[1], b[2], b[3]);
  }

  lemma {:induction false} OrBelow(x: nat, y: nat, m: nat)
    requires x < Pow2(m) && y < Pow2(m)
    ensures BitOr(x, y) < Pow2(m)
    decreases m
  {
    if x > 0 && y > 0 {
      OrBelow(x / 2, y / 2, m - 1);
    }
  }

  lemma LongIsPow2()
    ensures Pow2(32) == LONG
  {
    assert Pow2(8) == 256;
    assert Pow2(16) == 0x1_0000;
    assert Pow2(24) == 0x100_0000;
  }

  /** Relocated descriptors always fit in 32 bits. */
  lemma DescBelow(h: Header, v: nat)
    requires BenchLayout(h) && v < LONG
    ensures Desc(h, v) < LONG
  {
    hide Pow2, BenchLayout, Addr, BitOr;
    if v % 4 == 1 {
      PageStart(v);
      AddrAligned(h, v - v % 256);
      OrBelowLong(Addr(h, v - v % 256), v % 256);
    } else if v % 4 != 0 {
      TableStart(v);
      AddrAligned(h, v - v % 16);
      OrBelowLong(Addr(h, v - v % 16), v % 16);
    }
  }

  lemma TableStart(v: nat)
    ensures (v - v % 16) % 16 == 0
  {
    Times16(v / 16);
    assert v - v % 16 == 16 * (v / 16);
  }

  lemma OrBelowLong(x: nat, y: nat)
    requires x < LONG && y < 256
    ensures BitOr(x, y) < LONG
  {
    LongIsPow2();
    hide Pow2;
    OrBelow(x, y, 32);
  }

  /** A whole window translates, and every long word of the result is the relocated one. */
  lemma {:induction false} TranslatedWords(h: Header, w: seq<byte>)
    requires BenchLayout(h) && |w| % 4 == 0
    ensures Translated(h, w).Some? && |Translated(h, w).value| == |w|
    ensures forall k: nat {:trigger WordOf(w, k)} :: 4 * k + 4 <= |w| ==> WordOf(Translated(h, w).value, k) == Desc(h, WordOf(w, k))
    decreases |w|
  {
    if w != [] {
      hide Desc, Value, Bytes4, BenchLayout;
      var n := |w| / 4 - 1;
      var i := 4 * n;
      LastWordOf(i, |w|);
      TranslatedWords(h, w[..i]);
      assert w[i..] == w[i..i + 4];
      WordBelow(w, n);
      DescBelow(h, WordOf(w, n));
      var before, v := Translated(h, w[..i]).value, Desc(h, WordOf(w, n));
      var t := Translated(h, w).value;
      assert t == before + Bytes4(v);
      BytesLength(v);
      forall k: nat | 4 * k + 4 <= |w| ensures WordOf(t, k) == Desc(h, WordOf(w, k)) {
        if k == n {
          assert t[4 * k..4 * k + 4] == Bytes4(v);
          ValueOfBytes(v);
        } else {
          SliceOfPrefix(w, i, k);
          SliceOfPrefix(t, i, k);
          assert t[..i] == before;
        }
      }
    }
  }

  lemma BytesLength(v: nat)
    requires v < LONG
    ensures |Bytes4(v)| == 4
  {
  }

  lemma SliceOfPrefix(w: seq<byte>, i: nat, k: nat)
    requires 4 * k + 4 <= i <= |w|
    ensures WordOf(w[..i], k) == WordOf(w, k)
  {
    assert w[..i][4 * k..4 * k + 4] == w[4 * k..4 * k + 4];
  }

  predicate SlotsInWindow(slots: seq<nat>, n: nat) { forall k :: 0 <= k < |slots| ==> 4 * slots[k] + 4 <= n }

  lemma ZeroWord()
    ensures Value([0, 0, 0, 0]) == 0
  {
    ValueOfFour([0, 0, 0, 0], 0, 0, 0, 0);
  }

  lemma ZeroSlotWord(w: seq<byte>, slot: nat, k: nat)
    requires 4 * slot + 4 <= |w| && 4 * k + 4 <= |w|
    ensures |ZeroSlot(w, slot)| == |w| && WordOf(ZeroSlot(w, slot), k) == if k == slot then 0 else WordOf(w, k)
  {
    var z := ZeroSlot(w, slot);
    if k == slot {
      assert z[4 * k..4 * k + 4] == [0, 0, 0, 0];
      ZeroWord();
    } else {
      assert z[4 * k..4 * k + 4] == w[4 * k..4 * k + 4];
    }
  }

  /** Exactly the listed slots are cleared. */
  lemma {:induction false} ZeroSlotsWord(w: seq<byte>, slots: seq<nat>, k: nat)
    requires SlotsInWindow(slots, |w|) && 4 * k + 4 <= |w|
    ensures |ZeroSlots(w, slots)| == |w| && WordOf(ZeroSlots(w, slots), k) == if k in slots then 0 else WordOf(w, k)
    decreases slots
  {
    if slots != [] {
      var n := |slots| - 1;
      assert slots == slots[..n] + [slots[n]];
      ZeroSlotsWord(w, slots[..n], k);
      hide ZeroSlot, WordOf;
      ZeroSlotWord(ZeroSlots(w, slots[..n]), slots[n], k);
    }
  }

  // ---- walks ----------------------------------------------------------------------

  /** Where a table lies: in the corpus, or where the bench put it. */
  function Place(o: Option<Header>, r: Region): nat { if o.Some? then Target(o.value, r) else Base(r) }

  predicate Within(o: Option<Header>, r: Region, a: nat, i: nat) {
    Place(o, r) <= a && a + 4 * i + 4 <= Place(o, r) + WINDOW
  }

  function TableAt(o: Option<Header>, a: nat, i: nat): (t: Option<Region>)
    ensures t.Some? ==> IsTable(t.value) && Within(o, t.value, a, i)
  {
    if Within(o, Root, a, i) then Some(Root)
    else if Within(o, LevB, a, i) then Some(LevB)
    else if Within(o, LevC, a, i) then Some(LevC)
    else if Within(o, Srp, a, i) then Some(Srp)
    else None
  }

  /** Entry i of the short-format table at address a. */
  function Entry(o: Option<Header>, ts: Tables, a: nat, i: nat): Option<nat>
    requires ts.Shaped()
  {
    var t := TableAt(o, a, i);
    if t.None? then None else Some(WordOf(Window(ts, t.value), (a - Place(o, t.value)) / 4 + i))
  }

  /** How a walk ends. */
  datatype Walk = AtTable(addr: nat) | AtPage(addr: nat, flags: nat) | AtLongTable(addr: nat, flags: nat)
                | Invalid(descriptor: nat) | Outside

  function Follow(o: Option<Header>, ts: Tables, a: nat, path: seq<nat>): Walk
    requires ts.Shaped()
    decreases path
  {
    if path == [] then AtTable(a)
    else
      var e := Entry(o, ts, a, path[0]);
      if e.None? then Outside
      else
        var v := e.value;
        if v % 4 == 0 then Invalid(v)
        else if v % 4 == 1 then AtPage(v - v % 256, v % 256)
        else if v % 4 == 2 then Follow(o, ts, v - v % 16, path[1..])
        else AtLongTable(v - v % 16, v % 16)
  }

  /** The end of a walk with its addresses moved and its flags as they were. */
  function Moved(h: Header, w: Walk): Walk {
    match w
    case AtTable(a) => AtTable(Addr(h, a))
    case AtPage(a, f) => AtPage(Addr(h, a), f)
    case AtLongTable(a, f) => AtLongTable(Addr(h, a), f)
    case Invalid(v) => Invalid(v)
    case Outside => Outside
  }

  /** The corpus tables with the runner's own slots cleared. */
  function Masked(h: Header, ts: Tables): Tables { ts.(levb := ZeroSlots(ts.levb, h.maskedLevB)) }

  /** What the bench should hold, window by window. */
  ghost predicate BenchTables(h: Header, ts: Tables, bench: Tables) {
    bench.Shaped()
    && forall r: Region :: IsTable(r) ==>
         TranslatedWindow(h, Base(r), Window(ts, r), h.maskedLevB) == Some(Window(bench, r))
  }

  /** Whatever the corpus windows hold, they translate without overflow. */
  lemma EveryRowTranslates(h: Header, ts: Tables) returns (bench: Tables)
    requires BenchLayout(h) && ts.Shaped() && SlotsInWindow(h.maskedLevB, WINDOW)
    ensures BenchTables(h, ts, bench)
  {
    TranslatedWords(h, ts.root);
    TranslatedWords(h, ts.levb);
    TranslatedWords(h, ts.levc);
    TranslatedWords(h, ts.srp);
    hide Translated, ZeroSlots, BenchLayout;
    var levb := Translated(h, ts.levb).value;
    ZeroSlotsWord(levb, h.maskedLevB, 0);
    bench := Tables(Translated(h, ts.root).value, ZeroSlots(levb, h.maskedLevB),
                    Translated(h, ts.levc).value, Translated(h, ts.srp).value);
  }

  lemma BenchWindow(h: Header, ts: Tables, bench: Tables, r: Region)
    requires BenchTables(h, ts, bench) && IsTable(r)
    ensures bench.Shaped() && TranslatedWindow(h, Base(r), Window(ts, r), h.maskedLevB) == Some(Window(bench, r))
  {
  }

  lemma BenchWord(h: Header, ts: Tables, bench: Tables, r: Region, k: nat)
    requires BenchLayout(h) && ts.Shaped() && BenchTables(h, ts, bench) && SlotsInWindow(h.maskedLevB, WINDOW)
    requires IsTable(r) && k < 16
    ensures Masked(h, ts).Shaped()
    ensures WordOf(Window(bench, r), k) == Desc(h, WordOf(Window(Masked(h, ts), r), k))
  {
    hide BenchLayout, BenchTables, Translated, WordOf, ZeroSlots, Desc, SlotsInWindow;
    var w := Window(ts, r);
    BenchWindow(h, ts, bench, r);
    TranslatedWords(h, w);
    assert WordOf(Translated(h, w).value, k) == Desc(h, WordOf(w, k));
    ZeroSlotsWord(ts.levb, h.maskedLevB, k);
    InvalidKept(h, 0);
    if r.LevB? {
      ZeroSlotsWord(Translated(h, w).value, h.maskedLevB, k);
    }
  }

  lemma MaskedShaped(h: Header, ts: Tables)
    requires ts.Shaped() && SlotsInWindow(h.maskedLevB, WINDOW)
    ensures Masked(h, ts).Shaped()
  {
    ZeroSlotsWord(ts.levb, h.maskedLevB, 0);
  }

  /** A table entry is found in the same table and slot after the move. */
  lemma TableAtMoved(h: Header, a: nat, i: nat)
    requires BenchLayout(h) && TableAt(None, a, i).Some?
    ensures var r := TableAt(None, a, i).value;
            In(a, r) && TableAt(Some(h), Addr(h, a), i) == Some(r) && Addr(h, a) - Target(h, r) == a - Base(r)
  {
    var r := TableAt(None, a, i).value;
    assert In(a, r);
    OffsetsKept(h, a, r);
    forall s: Region | IsTable(s) && s != r ensures !Within(Some(h), s, Addr(h, a), i) {
      assert Target(h, r) + Size(r) <= Target(h, s) || Target(h, s) + Size(s) <= Target(h, r);
    }
    assert Within(Some(h), r, Addr(h, a), i);
  }

  lemma EntryMoved(h: Header, ts: Tables, bench: Tables, a: nat, i: nat)
    requires BenchLayout(h) && ts.Shaped() && BenchTables(h, ts, bench) && SlotsInWindow(h.maskedLevB, WINDOW)
    requires a % 16 == 0 && Masked(h, ts).Shaped() && Entry(None, Masked(h, ts), a, i).Some?
    ensures Entry(None, Masked(h, ts), a, i).value < LONG
    ensures Entry(Some(h), bench, Addr(h, a), i) == Some(Desc(h, Entry(None, Masked(h, ts), a, i).value))
  {
    hide BenchLayout, BenchTables, Desc, WordOf, Addr, ZeroSlots, SlotsInWindow;
    var r := TableAt(None, a, i).value;
    TableAtMoved(h, a, i);
    var k := (a - Base(r)) / 4 + i;
    BenchWord(h, ts, bench, r, k);
    WordBelow(Window(Masked(h, ts), r), k);
  }

  lemma LowTwo(m: nat, r: nat)
    ensures (4 * m + r) % 4 == r % 4
  {
  }

  lemma SameType(n: nat, v: nat, p: nat)
    requires (p == 16 || p == 256) && n % p == v % p
    ensures n % 4 == v % 4
  {
    var q := p / 4;
    assert p == 4 * q;
    assert n == 4 * (q * (n / p)) + n % p && v == 4 * (q * (v / p)) + v % p;
    LowTwo(q * (n / p), n % p);
    LowTwo(q * (v / p), v % p);
  }

  /** A page descriptor stays one; it is the moved one exactly when its page is aligned. */
  lemma PageMoved(h: Header, v: nat)
    requires BenchLayout(h) && v < LONG && v % 4 == 1
    ensures var n, page := Desc(h, v), Addr(h, v - v % 256);
            n % 4 == 1 && (AtPage(n - n % 256, n % 256) == AtPage(page, v % 256) <==> page % 256 == 0)
  {
    hide Addr, BenchLayout, BitOr;
    PageDescKeptIff(h, v);
    PageStart(v);
    AddrAligned(h, v - v % 256);
    OrLowTwo(Addr(h, v - v % 256), v % 256);
  }

  lemma TableMoved(h: Header, v: nat)
    requires BenchLayout(h) && v < LONG && v % 4 >= 2
    ensures var n := Desc(h, v); n % 4 == v % 4 && n % 16 == v % 16 && n - n % 16 == Addr(h, v - v % 16)
    ensures (v - v % 16) % 16 == 0
  {
    hide *;
    TableDescKept(h, v);
    SameType(Desc(h, v), v, 16);
    TableStart(v);
  }

  lemma InvalidKept(h: Header, v: nat)
    requires v % 4 == 0
    ensures Desc(h, v) == v
  {
  }

  /** Moving the end of the walk in `ts` is walking `bench` from the moved start:
      always when the walk ends anywhere but on a page, and on a page exactly
      when the page lands on a 256-byte boundary. Walks that leave the tables
      are not compared. */
  ghost predicate Commutes(h: Header, ts: Tables, bench: Tables, a: nat, path: seq<nat>)
    requires ts.Shaped() && bench.Shaped()
  {
    var w := Follow(None, ts, a, path);
    !w.Outside? ==>
      (Follow(Some(h), bench, Addr(h, a), path) == Moved(h, w) <==> (w.AtPage? ==> Addr(h, w.addr) % 256 == 0))
  }

  lemma EndCommutes(h: Header, ts: Tables, bench: Tables, a: nat, path: seq<nat>, v: nat)
    requires ts.Shaped() && bench.Shaped() && BenchLayout(h) && v < LONG && v % 4 != 2 && path != []
    requires Entry(None, ts, a, path[0]) == Some(v) && Entry(Some(h), bench, Addr(h, a), path[0]) == Some(Desc(h, v))
    ensures Commutes(h, ts, bench, a, path)
  {
    hide BenchLayout, Desc, Addr, Entry;
    if v % 4 == 0 {
      InvalidKept(h, v);
    } else if v % 4 == 1 {
      PageMoved(h, v);
    } else {
      TableMoved(h, v);
    }
  }

  lemma TableCommutes(h: Header, ts: Tables, bench: Tables, a: nat, path: seq<nat>, v: nat)
    requires ts.Shaped() && bench.Shaped() && BenchLayout(h) && v < LONG && v % 4 == 2 && path != []
    requires Entry(None, ts, a, path[0]) == Some(v) && Entry(Some(h), bench, Addr(h, a), path[0]) == Some(Desc(h, v))
    requires Commutes(h, ts, bench, v - v % 16, path[1..])
    ensures Commutes(h, ts, bench, a, path)
  {
    hide BenchLayout, Desc, Addr, Entry, Moved;
    TableMoved(h, v);
  }

  lemma OutsideCommutes(h: Header, ts: Tables, bench: Tables, a: nat, path: seq<nat>)
    requires ts.Shaped() && bench.Shaped() && (path == [] || Entry(None, ts, a, path[0]).None?)
    ensures Commutes(h, ts, bench, a, path)
  {
    hide Addr, Entry;
  }

  /** Following a chain of short descriptors, for any chain length, any table
      contents and any masked slots. */
  lemma {:induction false} WalkCommutes(h: Header, ts: Tables, bench: Tables, a: nat, path: seq<nat>)
    requires BenchLayout(h) && ts.Shaped() && BenchTables(h, ts, bench) && SlotsInWindow(h.maskedLevB, WINDOW)
    requires a % 16 == 0 && a < LONG
    ensures Masked(h, ts).Shaped() && bench.Shaped() && Commutes(h, Masked(h, ts), bench, a, path)
    decreases path
  {
    hide *;
    BenchWindow(h, ts, bench, Root);
    MaskedShaped(h, ts);
    var m := Masked(h, ts);
    if path == [] || Entry(None, m, a, path[0]).None? {
      OutsideCommutes(h, m, bench, a, path);
    } else {
      EntryMoved(h, ts, bench, a, path[0]);
      var v := Entry(None, m, a, path[0]).value;
      if v % 4 == 2 {
        TableMoved(h, v);
        WalkCommutes(h, ts, bench, v - v % 16, path[1..]);
        TableCommutes(h, m, bench, a, path, v);
      } else {
        EndCommutes(h, m, bench, a, path, v);
      }
    }
  }

  /** Slots the walk reads, so that an unmasked walk is the corpus walk itself. */
  predicate TouchesMasked(h: Header, ts: Tables, a: nat, path: seq<nat>)
    requires ts.Shaped()
    decreases path
  {
    path != [] &&
    var t := TableAt(None, a, path[0]);
    t.Some? &&
    var k := (a - Base(t.value)) / 4 + path[0];
    (t.value.LevB? && k in h.maskedLevB)
    || (var v := WordOf(Window(ts, t.value), k); v % 4 == 2 && TouchesMasked(h, ts, v - v % 16, path[1..]))
  }

  lemma EntryUnmasked(h: Header, ts: Tables, a: nat, i: nat)
    requires ts.Shaped() && SlotsInWindow(h.maskedLevB, WINDOW) && Masked(h, ts).Shaped()
    requires var t := TableAt(None, a, i);
             t.Some? ==> !(t.value.LevB? && (a - Base(t.value)) / 4 + i in h.maskedLevB)
    ensures Entry(None, Masked(h, ts), a, i) == Entry(None, ts, a, i)
  {
    var t := TableAt(None, a, i);
    if t.Some? {
      ZeroSlotsWord(ts.levb, h.maskedLevB, (a - Base(t.value)) / 4 + i);
    }
  }

  lemma {:induction false} UnmaskedWalk(h: Header, ts: Tables, a: nat, path: seq<nat>)
    requires ts.Shaped() && SlotsInWindow(h.maskedLevB, WINDOW) && Masked(h, ts).Shaped()
    requires !TouchesMasked(h, ts, a, path)
    ensures Follow(None, Masked(h, ts), a, path) == Follow(None, ts, a, path)
    decreases path
  {
    hide Masked, SlotsInWindow, WordOf, TableAt;
    if path != [] {
      EntryUnmasked(h, ts, a, path[0]);
      var e := Entry(None, ts, a, path[0]);
      if e.Some? && e.value % 4 == 2 {
        UnmaskedWalk(h, ts, e.value - e.value % 16, path[1..]);
      }
    }
  }

  // ---- the comparison mask ---------------------------------------------------------

  const U_BIT := 8
  const M_BIT := 16

  /** Descriptor slots whose modified bit depends on where the program itself lived. */
  function EnvSlots(base: nat): seq<nat> {
    if base == 0x3100 then [0, 7] else if base == 0x3200 then [0, 1, 2, 3] else []
  }

  function Clear(b: byte, p: nat): byte
    requires p == U_BIT || p == M_BIT
  {
    if b / p % 2 == 1 then b - p else b
  }

  method MaskPlacementBits(base: nat, buf: seq<byte>) returns (out: seq<byte>)
    requires base == 0x3100 ==> |buf| >= 32
    requires base == 0x3200 ==> |buf| >= 16
    ensures |out| == |buf|
    ensures forall j :: 0 <= j < |buf| ==> out[j] == MaskedByte(base, j, buf[j])
    ensures forall j :: 0 <= j < |buf| ==>
              out[j] == buf[j] - (if j % 4 == 3 then 8 * (buf[j] / 8 % 2) else 0) - (if Environment(base, j) then 16 * (buf[j] / 16 % 2) else 0)
  {
    out := buf;
    var i := 3;
    while i < |out|
      invariant |out| == |buf| && i % 4 == 3
      invariant forall j :: 0 <= j < |buf| ==> out[j] == if j < i && j % 4 == 3 then Clear(buf[j], U_BIT) else buf[j]
    {
      out := out[i := Clear(out[i], U_BIT)];
      i := i + 4;
    }
    ghost var cleared := out;
    var slots := EnvSlots(base);
    for n := 0 to |slots|
      invariant |out| == |buf|
      invariant forall j :: 0 <= j < |buf| ==>
        out[j] == if j % 4 == 3 && j / 4 in slots[..n] then Clear(cleared[j], M_BIT) else cleared[j]
    {
      assert slots[..n + 1] == slots[..n] + [slots[n]];
      assert forall m :: 0 <= m < n ==> slots[m] != slots[n];
      out := out[slots[n] * 4 + 3 := Clear(out[slots[n] * 4 + 3], M_BIT)];
    }
    assert slots[..|slots|] == slots;
    forall j | 0 <= j < |buf| ensures MaskedByte(base, j, buf[j]) == Without(base, j, buf[j]) { MaskedIs(base, j, buf[j]); }
    hide MaskedByte, Clear, EnvSlots, Environment;
  }

  /** The flag bytes of the descriptors the environment itself touches: slots 0
      and 7 of the table at 3100, slots 0 to 3 of the one at 3200. */
  predicate Environment(base: nat, j: nat) {
    (base == 0x3100 && (j == 3 || j == 31)) || (base == 0x3200 && (j == 3 || j == 7 || j == 11 || j == 15))
  }

  function Without(base: nat, j: nat, b: byte): int {
    b - (if j % 4 == 3 then 8 * (b / 8 % 2) else 0) - (if Environment(base, j) then 16 * (b / 16 % 2) else 0)
  }

  lemma EnvironmentIs(base: nat, j: nat)
    ensures j % 4 == 3 && j / 4 in EnvSlots(base) <==> Environment(base, j)
  {
  }

  lemma MaskedIs(base: nat, j: nat, b: byte)
    ensures MaskedByte(base, j, b) == Without(base, j, b)
  {
    EnvironmentIs(base, j);
    ClearedBits(b);
    hide Clear, EnvSlots, Environment;
  }

  function MaskedByte(base: nat, j: nat, b: byte): byte {
    if j % 4 != 3 then b
    else if j / 4 in EnvSlots(base) then Clear(Clear(b, U_BIT), M_BIT)
    else Clear(b, U_BIT)
  }

  function Bit(b: byte, p: nat): nat
    requires p > 0
  {
    b / p % 2
  }

  /** All flag bits agree, except the used bit and, on environment slots, the modified bit. */
  predicate SameSignal(x: byte, y: byte, used: bool, modified: bool) {
    && Bit(x, 1) == Bit(y, 1) && Bit(x, 2) == Bit(y, 2) && Bit(x, 4) == Bit(y, 4)
    && (used || Bit(x, 8) == Bit(y, 8)) && (modified || Bit(x, 16) == Bit(y, 16))
    && Bit(x, 32) == Bit(y, 32) && Bit(x, 64) == Bit(y, 64) && Bit(x, 128) == Bit(y, 128)
  }

  /** Two masked bytes are equal exactly when nothing but placement differed. */
  lemma MaskComparesSignal(base: nat, j: nat, x: byte, y: byte)
    ensures MaskedByte(base, j, x) == MaskedByte(base, j, y)
            <==> SameSignal(x, y, j % 4 == 3, Environment(base, j))
  {
    hide *;
    var used, modified := j % 4 == 3, Environment(base, j);
    EnvironmentIs(base, j);
    MaskedBits(base, j, x);
    MaskedBits(base, j, y);
    BitsDecide(x, y, used, modified);
  }

  /** A byte from its flags, without the masked ones. */
  function FromBits(b: byte, used: bool, modified: bool): nat {
    Bit(b, 1) + 2 * Bit(b, 2) + 4 * Bit(b, 4) + (if used then 0 else 8 * Bit(b, 8)) + (if modified then 0 else 16 * Bit(b, 16))
    + 32 * Bit(b, 32) + 64 * Bit(b, 64) + 128 * Bit(b, 128)
  }

  lemma MaskedBits(base: nat, j: nat, b: byte)
    ensures MaskedByte(base, j, b) == FromBits(b, j % 4 == 3, Environment(base, j))
  {
    EnvironmentIs(base, j);
    ByteOfBits(b);
    ClearedBits(b);
    hide Clear, EnvSlots, Environment, Bit;
  }

  lemma BitsDecide(x: byte, y: byte, used: bool, modified: bool)
    ensures FromBits(x, used, modified) == FromBits(y, used, modified) <==> SameSignal(x, y, used, modified)
  {
    hide Digits, Bit, FromBits;
    BitsAreDigits(x, used, modified);
    BitsAreDigits(y, used, modified);
    SameDigits(DigitsOf(x, used, modified), DigitsOf(y, used, modified));
    SameList(x, y, used, modified);
  }

  function DigitsOf(b: byte, used: bool, modified: bool): seq<nat> {
    [Bit(b, 1), Bit(b, 2), Bit(b, 4), if used then 0 else Bit(b, 8), if modified then 0 else Bit(b, 16), Bit(b, 32), Bit(b, 64), Bit(b, 128)]
  }

  lemma BitsAreDigits(b: byte, used: bool, modified: bool)
    ensures FromBits(b, used, modified) == Digits(DigitsOf(b, used, modified))
    ensures forall k :: 0 <= k < 8 ==> DigitsOf(b, used, modified)[k] <= 1
  {
    BitRange(b);
    hide Bit, Digits;
    EightDigits(Bit(b, 1), Bit(b, 2), Bit(b, 4), if used then 0 else Bit(b, 8), if modified then 0 else Bit(b, 16), Bit(b, 32), Bit(b, 64), Bit(b, 128));
  }

  lemma SameList(x: byte, y: byte, used: bool, modified: bool)
    ensures DigitsOf(x, used, modified) == DigitsOf(y, used, modified) <==> SameSignal(x, y, used, modified)
  {
    hide Bit;
    var a, b := DigitsOf(x, used, modified), DigitsOf(y, used, modified);
    assert a == b <==> forall k :: 0 <= k < 8 ==> a[k] == b[k];
  }

  /** The number with these binary digits, lowest first. */
  function Digits(ds: seq<nat>): nat { if ds == [] then 0 else ds[0] + 2 * Digits(ds[1..]) }

  lemma {:induction false} SameDigits(a: seq<nat>, b: seq<nat>)
    requires |a| == |b| && (forall k :: 0 <= k < |a| ==> a[k] <= 1) && forall k :: 0 <= k < |b| ==> b[k] <= 1
    ensures Digits(a) == Digits(b) <==> a == b
  {
    if a != [] {
      SameDigits(a[1..], b[1..]);
      assert a == [a[0]] + a[1..] && b == [b[0]] + b[1..];
    }
  }

  lemma EightDigits(d0: nat, d1: nat, d2: nat, d3: nat, d4: nat, d5: nat, d6: nat, d7: nat)
    ensures Digits([d0, d1, d2, d3, d4, d5, d6, d7]) == d0 + 2 * d1 + 4 * d2 + 8 * d3 + 16 * d4 + 32 * d5 + 64 * d6 + 128 * d7
  {
    FourDigits(d4, d5, d6, d7, []);
    FourDigits(d0, d1, d2, d3, [d4, d5, d6, d7]);
    assert [d4, d5, d6, d7] + [] == [d4, d5, d6, d7];
    assert [d0, d1, d2, d3] + [d4, d5, d6, d7] == [d0, d1, d2, d3, d4, d5, d6, d7];
  }

  lemma FourDigits(d0: nat, d1: nat, d2: nat, d3: nat, rest: seq<nat>)
    ensures Digits([d0, d1, d2, d3] + rest) == d0 + 2 * d1 + 4 * d2 + 8 * d3 + 16 * Digits(rest)
  {
    var a3 := [d3] + rest;
    var a2 := [d2] + a3;
    var a1 := [d1] + a2;
    assert [d0, d1, d2, d3] + rest == [d0] + a1;
    assert a3[1..] == rest && a2[1..] == a3 && a1[1..] == a2 && ([d0] + a1)[1..] == a1;
    assert Digits(a3) == d3 + 2 * Digits(rest) && Digits(a2) == d2 + 2 * Digits(a3) && Digits(a1) == d1 + 2 * Digits(a2);
  }

  lemma BitRange(b: byte)
    ensures forall p :: p in {1, 2, 4, 8, 16, 32, 64, 128} ==> 0 <= Bit(b, p) <= 1
  {
  }

  lemma ByteOfBits(b: byte)
    ensures b == Bit(b, 1) + 2 * Bit(b, 2) + 4 * Bit(b, 4) + 8 * Bit(b, 8) + 16 * Bit(b, 16) + 32 * Bit(b, 32) + 64 * Bit(b, 64) + 128 * Bit(b, 128)
  {
    Halves(b, 1);
    Halves(b, 2);
    Halves(b, 4);
    Halves(b, 8);
    Halves(b, 16);
    Halves(b, 32);
    Halves(b, 64);
    Halves(b, 128);
    hide Bit;
  }

  lemma Halves(b: byte, p: nat)
    requires p in {1, 2, 4, 8, 16, 32, 64, 128}
    ensures b / p == 2 * (b / (2 * p)) + Bit(b, p)
    ensures b / 1 == b && b / 256 == 0
  {
  }

  lemma ClearedBits(b: byte)
    ensures Clear(b, U_BIT) == b - 8 * Bit(b, 8)
    ensures Clear(Clear(b, U_BIT), M_BIT) == b - 8 * Bit(b, 8) - 16 * Bit(b, 16)
  {
  }
}
