/** Relocation of the PMMU corpus: fixed addresses and descriptors are moved to
    where the bench keeps its tables, and table walks must still mean the same. */
module PmmuReloc {
  import opened Basics

  const LONG := 0x1_0000_0000

  // ---- bitwise or --------------------------------------------------------------

  function BitOr(x: nat, y: nat): (r: nat)
    ensures r >= x && r >= y && r <= x + y
    decreases x + y
  {
    if x == 0 then y else if y == 0 then x
    else 2 * BitOr(x / 2, y / 2) + if x % 2 == 1 || y % 2 == 1 then 1 else 0
  }

  function Pow2(m: nat): nat { if m == 0 then 1 else 2 * Pow2(m - 1) }

  /** Or of a multiple of 2^m and a smaller number is their sum. */
  lemma {:induction false} OrOfDisjoint(q: nat, l: nat, m: nat)
    requires l < Pow2(m)
    ensures BitOr(Pow2(m) * q, l) == Pow2(m) * q + l
    decreases m
  {
    if m > 0 {
      var half := Pow2(m - 1) * q;
      assert Pow2(m) * q == 2 * half by { TwiceProduct(Pow2(m - 1), q); }
      OrOfDisjoint(q, l / 2, m - 1);
      hide Pow2;
      OrDoubled(half, l);
    } else {
      assert BitOr(Pow2(0) * q, 0) == Pow2(0) * q;
    }
  }

  lemma TwiceProduct(p: nat, q: nat)
    ensures 2 * p * q == 2 * (p * q)
  {
  }

  lemma OrDoubled(half: nat, l: nat)
    ensures BitOr(2 * half, l) == 2 * BitOr(half, l / 2) + l % 2
  {
    assert 2 * half % 2 == 0 && 2 * half / 2 == half;
  }

  lemma OrLow4(x: nat, l: nat)
    requires x % 16 == 0 && l < 16
    ensures BitOr(x, l) == x + l
  {
    assert Pow2(4) == 16 && x == 16 * (x / 16);
    OrOfDisjoint(x / 16, l, 4);
  }

  lemma OrLow8(x: nat, l: nat)
    requires x % 256 == 0 && l < 256
    ensures BitOr(x, l) == x + l
  {
    assert Pow2(4) == 16 && Pow2(8) == 256 && x == 256 * (x / 256);
    OrOfDisjoint(x / 256, l, 8);
  }

  lemma OrBits(x: nat, y: nat)
    ensures BitOr(x, y) % 2 == (if x % 2 == 1 || y % 2 == 1 then 1 else 0)
    ensures BitOr(x, y) / 2 == BitOr(x / 2, y / 2)
  {
  }

  /** Or with a multiple of four leaves the two lowest bits alone. */
  lemma OrLowTwo(x: nat, y: nat)
    requires x % 4 == 0
    ensures BitOr(x, y) % 4 == y % 4
  {
    OrBits(x, y);
    OrBits(x / 2, y / 2);
    hide BitOr;
    LowTwoBits(BitOr(x, y));
    LowTwoBits(y);
    LowTwoBits(x);
  }

  lemma LowTwoBits(n: nat)
    ensures n % 4 == n % 2 + 2 * (n / 2 % 2)
  {
  }

  // ---- addresses -------------------------------------------------------------------

  datatype Region = Data | Root | LevB | LevC | Srp | Remap1 | Remap2

  /** The bench's report of where everything went. */
  datatype Header = Header(
    data: nat, root: nat, levb: nat, levc: nat, srp: nat, remap1: nat, remap2: nat,
    stackTop: nat, tcOff: nat, maskedLevB: seq<nat>)

  function Base(r: Region): nat {
    match r
    case Data => 0x1800
    case Root => 0x3000
    case LevB => 0x3100
    case LevC => 0x3200
    case Srp => 0x4000
    case Remap1 => 0x9000
    case Remap2 => 0xA000
  }

  function Size(r: Region): nat { if r.Remap1? || r.Remap2? then 0x1000 else 0x40 }

  function Target(h: Header, r: Region): nat {
    match r
    case Data => h.data
    case Root => h.root
    case LevB => h.levb
    case LevC => h.levc
    case Srp => h.srp
    case Remap1 => h.remap1
    case Remap2 => h.remap2
  }

  predicate In(a: nat, r: Region) { Base(r) <= a < Base(r) + Size(r) }

  function RegionOf(a: nat): (o: Option<Region>)
    ensures o.Some? ==> In(a, o.value)
    ensures o.None? ==> forall r: Region :: !In(a, r)
  {
    if In(a, Data) then Some(Data)
    else if In(a, Root) then Some(Root)
    else if In(a, LevB) then Some(LevB)
    else if In(a, LevC) then Some(LevC)
    else if In(a, Srp) then Some(Srp)
    else if In(a, Remap1) then Some(Remap1)
    else if In(a, Remap2) then Some(Remap2)
    else None
  }

  function Addr(h: Header, a: nat): nat {
    if a == 0x17F8 then h.tcOff
    else if RegionOf(a).Some? then Target(h, RegionOf(a).value) + (a - Base(RegionOf(a).value))
    else if a == 0x80000 then h.stackTop
    else if a == 0x70000 then h.stackTop % LONG - h.stackTop % 0x1_0000
    else a
  }

  /** Where each corpus address goes: seven regions, the saved TC, the stack top
      and its 64 KB page; every other address stays. */
  lemma AddrIs(h: Header, a: nat)
    ensures a == 0x17F8 ==> Addr(h, a) == h.tcOff
    ensures 0x1800 <= a < 0x1840 ==> Addr(h, a) == h.data + (a - 0x1800)
    ensures 0x3000 <= a < 0x3040 ==> Addr(h, a) == h.root + (a - 0x3000)
    ensures 0x3100 <= a < 0x3140 ==> Addr(h, a) == h.levb + (a - 0x3100)
    ensures 0x3200 <= a < 0x3240 ==> Addr(h, a) == h.levc + (a - 0x3200)
    ensures 0x4000 <= a < 0x4040 ==> Addr(h, a) == h.srp + (a - 0x4000)
    ensures 0x9000 <= a < 0xA000 ==> Addr(h, a) == h.remap1 + (a - 0x9000)
    ensures 0xA000 <= a < 0xB000 ==> Addr(h, a) == h.remap2 + (a - 0xA000)
    ensures a == 0x8_0000 ==> Addr(h, a) == h.stackTop
    ensures a == 0x7_0000 ==> Addr(h, a) == h.stackTop / 0x1_0000 % 0x1_0000 * 0x1_0000
    ensures a == 0x17F8 || 0x1800 <= a < 0x1840 || 0x3000 <= a < 0x3040 || 0x3100 <= a < 0x3140 || 0x3200 <= a < 0x3240
            || 0x4000 <= a < 0x4040 || 0x9000 <= a < 0xB000 || a == 0x7_0000 || a == 0x8_0000 || Addr(h, a) == a
  {
    HighHalf(h.stackTop);
  }

  lemma HighHalf(x: nat)
    ensures x % LONG - x % 0x1_0000 == x / 0x1_0000 % 0x1_0000 * 0x1_0000
  {
    var q := x / 0x1_0000;
    assert x == 0x1_0000 * q + x % 0x1_0000;
    assert q == 0x1_0000 * (q / 0x1_0000) + q % 0x1_0000;
    assert x == LONG * (q / 0x1_0000) + (0x1_0000 * (q % 0x1_0000) + x % 0x1_0000);
  }

  /** Targets do not overlap. */
  ghost predicate Disjoint(h: Header) {
    forall r: Region, s: Region {:trigger Target(h, r), Target(h, s)} ::
      r != s ==> Target(h, r) + Size(r) <= Target(h, s) || Target(h, s) + Size(s) <= Target(h, r)
  }

  /** As the bench lays them out: tables and stack on 16 bytes, pages on 4096, all below 4 GiB. */
  ghost predicate BenchLayout(h: Header) {
    && Disjoint(h)
    && (forall r: Region :: Target(h, r) % 16 == 0 && Target(h, r) + Size(r) <= LONG)
    && h.remap1 % 0x1000 == 0 && h.remap2 % 0x1000 == 0
    && h.stackTop % 16 == 0 && h.stackTop < LONG && h.tcOff < LONG
  }

  lemma OffsetsKept(h: Header, a: nat, r: Region)
    requires In(a, r)
    ensures Addr(h, a) == Target(h, r) + (a - Base(r))
  {
    assert RegionOf(a) == Some(r) by {
      var o := RegionOf(a);
      RegionsApart(a, o.value, r);
    }
  }

  lemma RegionsApart(a: nat, r: Region, s: Region)
    requires In(a, r) && In(a, s)
    ensures r == s
  {
  }

  /** Different corpus addresses keep different places and their distance within a region. */
  lemma AddrInjective(h: Header, a: nat, b: nat, r: Region, s: Region)
    requires Disjoint(h) && In(a, r) && In(b, s)
    ensures Addr(h, a) == Addr(h, b) <==> a == b
    ensures r == s ==> Addr(h, a) - Addr(h, b) == a - b
  {
    OffsetsKept(h, a, r);
    OffsetsKept(h, b, s);
    if a == b { RegionsApart(a, r, s); }
    assert r != s ==> Target(h, r) + Size(r) <= Target(h, s) || Target(h, s) + Size(s) <= Target(h, r);
  }

  // ---- descriptors --------------------------------------------------------------------

  function Desc(h: Header, v: nat): nat {
    if v % 4 == 0 then v
    else if v % 4 == 2 || v % 4 == 3 then BitOr(Addr(h, v - v % 16), v % 16)
    else BitOr(Addr(h, v - v % 256), v % 256)
  }

  /** Pages the bench layout need not put on a page boundary: the small regions and the stack. */
  predicate SmallPage(a: nat) { a == 0x1800 || a == 0x3000 || a == 0x3100 || a == 0x3200 || a == 0x4000 || a == 0x80000 }

  lemma SumAligned(t: nat, a: nat, base: nat, p: nat)
    requires (p == 16 || p == 256) && t % p == 0 && a % p == 0 && base % p == 0 && base <= a
    ensures (t + (a - base)) % p == 0
  {
  }

  lemma RoundedDown(x: nat)
    ensures (x - x % 0x1_0000) % 256 == 0 && (x - x % 0x1_0000) % 16 == 0
  {
    var q := x / 0x1_0000;
    assert x - x % 0x1_0000 == 0x1_0000 * q;
    Times256(256 * q);
  }

  lemma Times256(q: nat)
    ensures (256 * q) % 256 == 0 && (256 * q) % 16 == 0
  {
    assert (256 * q) % 256 == 0;
    var m := 16 * q;
    assert (16 * m) % 16 == 0 by { Times16(m); }
    assert 256 * q == 16 * m;
  }

  lemma Times16(q: nat)
    ensures (16 * q) % 16 == 0
  {
  }

  lemma PageStart(v: nat)
    ensures (v - v % 256) % 256 == 0 && (v - v % 256) % 16 == 0
  {
    assert v - v % 256 == 256 * (v / 256);
    Times256(v / 256);
  }

  lemma RegionPlaced(h: Header, r: Region)
    requires BenchLayout(h)
    ensures Target(h, r) % 16 == 0 && Target(h, r) + Size(r) <= LONG
    ensures r.Remap1? || r.Remap2? ==> Target(h, r) % 256 == 0
  {
    hide Disjoint;
    PageAligned(h.remap1);
    PageAligned(h.remap2);
  }

  lemma PageAligned(x: nat)
    ensures x % 0x1000 == 0 ==> x % 256 == 0
  {
    if x % 0x1000 == 0 {
      assert x == 256 * (16 * (x / 0x1000));
      Times256(16 * (x / 0x1000));
    }
  }

  lemma RegionAligned(h: Header, a: nat, r: Region)
    requires BenchLayout(h) && In(a, r) && a % 16 == 0
    ensures Addr(h, a) % 16 == 0 && Addr(h, a) < LONG
    ensures a % 256 == 0 && !SmallPage(a) ==> Addr(h, a) % 256 == 0
  {
    hide Addr;
    OffsetsKept(h, a, r);
    var t, b := Target(h, r), Base(r);
    RegionPlaced(h, r);
    SumAligned(t, a, b, 16);
    if a % 256 == 0 && !SmallPage(a) {
      assert r.Remap1? || r.Remap2?;
      SumAligned(t, a, b, 256);
    }
  }

  /** The bench moves tables to 16-byte boundaries, and every page but the small ones to page boundaries. */
  lemma AddrAligned(h: Header, a: nat)
    requires BenchLayout(h) && a < LONG && a % 16 == 0
    ensures Addr(h, a) % 16 == 0 && Addr(h, a) < LONG
    ensures a % 256 == 0 && !SmallPage(a) ==> Addr(h, a) % 256 == 0
  {
    var o := RegionOf(a);
    if o.Some? {
      RegionAligned(h, a, o.value);
    } else {
      RoundedDown(h.stackTop);
    }
  }

  /** A table descriptor keeps its type and status bits and points to the moved table. */
  lemma TableDescKept(h: Header, v: nat)
    requires BenchLayout(h) && v < LONG && v % 4 >= 2
    ensures var n := Desc(h, v); n % 16 == v % 16 && n - n % 16 == Addr(h, v - v % 16) && n < LONG
  {
    var a := v - v % 16;
    hide Addr, BenchLayout;
    AddrAligned(h, a);
    OrLow4(Addr(h, a), v % 16);
    SplitLow(Addr(h, a), v % 16, 16);
  }

  lemma SplitLow(x: nat, l: nat, p: nat)
    requires p > 0 && l < p && x % p == 0 && (p == 16 || p == 256) && x < LONG
    ensures (x + l) % p == l && x + l < LONG
  {
  }

  /** A page descriptor keeps its page and all its flags exactly when the page
      lands on a 256-byte boundary. */
  lemma PageDescKeptIff(h: Header, v: nat)
    requires v % 4 == 1
    ensures var n, page := Desc(h, v), Addr(h, v - v % 256);
            n % 256 == v % 256 && n - n % 256 == page <==> page % 256 == 0
  {
    hide Addr, BitOr;
    var n, page := Desc(h, v), Addr(h, v - v % 256);
    if page % 256 == 0 {
      OrLow8(page, v % 256);
      SumOfPage(page, v % 256);
    } else if n - n % 256 == page {
      PageStart(n);
    }
  }

  lemma SumOfPage(page: nat, l: nat)
    requires page % 256 == 0 && l < 256
    ensures (page + l) % 256 == l
  {
  }

  const SAMPLE := Header(0x10_0000, 0x10_0040, 0x10_0080, 0x10_00C0, 0x10_0100, 0x20_0000, 0x20_1000, 0x30_0010, 0x10_0200, [])

  lemma SampleIsABenchLayout()
    ensures BenchLayout(SAMPLE)
  {
    SampleIsDisjoint();
    hide Disjoint;
    forall r: Region ensures Target(SAMPLE, r) % 16 == 0 && Target(SAMPLE, r) + Size(r) <= LONG {
      match r case Data => case Root => case LevB => case LevC => case Srp => case Remap1 => case Remap2 =>
    }
  }

  lemma SampleIsDisjoint()
    ensures Disjoint(SAMPLE)
  {
    hide Target, Size;
    forall r: Region, s: Region | r != s
      ensures Target(SAMPLE, r) + Size(r) <= Target(SAMPLE, s) || Target(SAMPLE, s) + Size(s) <= Target(SAMPLE, r)
    {
      SampleApart(r, s);
    }
  }

  lemma SampleApart(r: Region, s: Region)
    requires r != s
    ensures Target(SAMPLE, r) + Size(r) <= Target(SAMPLE, s) || Target(SAMPLE, s) + Size(s) <= Target(SAMPLE, r)
  {
  }

  /** The bench's stack is only 16-byte aligned, so a page descriptor for
      80000 can pick up address bits as flags: here 10, the modified bit. */
  lemma SmallPageLosesFlags()
    ensures BenchLayout(SAMPLE) && Desc(SAMPLE, 0x80001) % 256 == 0x11
  {
    SampleIsABenchLayout();
    assert Addr(SAMPLE, 0x80000) == 0x30_0010;
    OrLow4(0x30_0010, 1);
  }

  // ---- windows -------------------------------------------------------------------------

  function Value(w: seq<byte>): nat {
    if w == [] then 0 else Value(w[..|w| - 1]) * 256 + w[|w| - 1]
  }

  function Bytes4(v: nat): seq<byte>
    requires v < LONG
  {
    [v / 0x100_0000, v / 0x1_0000 % 256, v / 256 % 256, v % 256]
  }

  lemma ValueOfFour(b: seq<byte>, b0: nat, b1: nat, b2: nat, b3: nat)
    requires |b| == 4 && b[0] == b0 && b[1] == b1 && b[2] == b2 && b[3] == b3
    ensures Value(b) == ((b0 * 256 + b1) * 256 + b2) * 256 + b3
  {
    var c, d, e := b[..3], b[..2], b[..1];
    assert c[..2] == d && d[..1] == e && e[..0] == [];
    assert Value(e) == b0;
    assert Value(d) == b0 * 256 + b1;
    assert Value(c) == (b0 * 256 + b1) * 256 + b2;
  }

  lemma ValueOfBytes(v: nat)
    requires v < LONG
    ensures Value(Bytes4(v)) == v
  {
    ValueOfFour(Bytes4(v), v / 0x100_0000, v / 0x1_0000 % 256, v / 256 % 256, v % 256);
    SplitBytes(v);
  }

  lemma SplitBytes(v: nat)
    requires v < LONG
    ensures ((v / 0x100_0000 * 256 + v / 0x1_0000 % 256) * 256 + v / 256 % 256) * 256 + v % 256 == v
  {
    assert v / 0x100_0000 * 256 + v / 0x1_0000 % 256 == v / 0x1_0000;
    assert v / 0x1_0000 * 256 + v / 256 % 256 == v / 256;
  }

  /** Where the last long word of a window starts; it is short when the length is no multiple of four. */
  function LastWord(n: nat): (i: nat)
    requires n > 0
    ensures i < n && i % 4 == 0 && Min(i + 4, n) == n
  {
    (n - 1) / 4 * 4
  }

  /** Every long word through Desc; None where a result needs more than 32 bits. */
  function Translated(h: Header, w: seq<byte>): Option<seq<byte>>
    decreases |w|
  {
    if w == [] then Some([])
    else
      var i := LastWord(|w|);
      var before := Translated(h, w[..i]);
      var v := Desc(h, Value(w[i..]));
      if before.Some? && v < LONG then Some(before.value + Bytes4(v)) else None
  }

  function ZeroSlot(w: seq<byte>, slot: nat): seq<byte> {
    w[..Min(4 * slot, |w|)] + [0, 0, 0, 0] + w[Min(4 * slot + 4, |w|)..]
  }

  function ZeroSlots(w: seq<byte>, slots: seq<nat>): seq<byte>
    decreases slots
  {
    if slots == [] then w else ZeroSlot(ZeroSlots(w, slots[..|slots| - 1]), slots[|slots| - 1])
  }

  /** A corpus table window as the bench should show it. */
  function TranslatedWindow(h: Header, base: nat, w: seq<byte>, slots: seq<nat>): Option<seq<byte>> {
    var t := Translated(h, w);
    if t.None? || base != 0x3100 then t else Some(ZeroSlots(t.value, slots))
  }

  lemma LastWordOf(i: nat, n: nat)
    requires i < n <= i + 4 && i % 4 == 0
    ensures LastWord(n) == i
  {
  }

  /** One long word of the loop. */
  lemma WordStep(h: Header, w: seq<byte>, i: nat)
    requires i < |w| && i % 4 == 0
    ensures var end := Min(i + 4, |w|); var v := Desc(h, Value(w[i..end]));
            Translated(h, w[..end]) == if Translated(h, w[..i]).Some? && v < LONG then Some(Translated(h, w[..i]).value + Bytes4(v)) else None
  {
    var end := Min(i + 4, |w|);
    LastWordOf(i, end);
    assert w[..end][..i] == w[..i] && w[..end][i..] == w[i..end];
  }

  lemma {:induction false} PrefixFails(h: Header, w: seq<byte>, end: nat)
    requires end <= |w| && (end % 4 == 0 || end == |w|) && Translated(h, w[..end]).None?
    ensures Translated(h, w).None?
    decreases |w| - end
  {
    if end == |w| {
      assert w[..end] == w;
    } else {
      WordStep(h, w, end);
      PrefixFails(h, w, Min(end + 4, |w|));
    }
  }

  method TranslateTableWindow(h: Header, base: nat, expected: seq<byte>, slots: seq<nat>) returns (r: Option<seq<byte>>)
    ensures r == TranslatedWindow(h, base, expected, slots)
  {
    hide Translated, Desc, Value, Bytes4, ZeroSlot;
    var out := expected;
    var i, end := 0, 0;
    EmptyWindow(h, expected);
    while i < |expected|
      invariant 0 <= i % 4 == 0 && end == Min(i, |expected|)
      invariant i <= |out| && Translated(h, expected[..end]) == Some(out[..i]) && out[i..] == expected[end..]
    {
      WordStep(h, expected, i);
      var v := Desc(h, Value(expected[i..Min(i + 4, |expected|)]));
      if v >= LONG {
        PrefixFails(h, expected, Min(i + 4, |expected|));
        return None;
      }
      out := Spliced(out, i, v);
      i := i + 4;
      end := Min(i, |expected|);
    }
    assert expected[..end] == expected && out[..i] == out;
    if base == 0x3100 {
      var t := out;
      for k := 0 to |slots|
        invariant out == ZeroSlots(t, slots[..k])
      {
        assert slots[..k + 1][..k] == slots[..k];
        out := ZeroSlot(out, slots[k]);
      }
      assert slots[..|slots|] == slots;
    }
    return Some(out);
  }

  lemma EmptyWindow(h: Header, w: seq<byte>)
    ensures Translated(h, w[..0]) == Some(w[..0])
  {
  }

  /** out[i:i+4] = the four bytes of v. */
  function Spliced(out: seq<byte>, i: nat, v: nat): (r: seq<byte>)
    requires i <= |out| && v < LONG
    ensures |r| >= i + 4 && r[..i + 4] == out[..i] + Bytes4(v) && r[i + 4..] == out[Min(i + 4, |out|)..]
  {
    out[..i] + Bytes4(v) + out[Min(i + 4, |out|)..]
  }
}
