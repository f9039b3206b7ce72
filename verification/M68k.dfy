/** The part of the 68k instruction set that the bench harness emits
    (section 4 of the M68000 Family Programmer's Reference Manual), as a
    byte-level interpreter.  A `core` is any processor that agrees with `Step`
    on these instructions; what it does on every other opcode is left open, so
    that preload and test bytes can be arbitrary machine code. */
module M68k {
  import opened Basics

  const MEM_SIZE := 0x1_0000_0000

  type long = x: int | 0 <= x < MEM_SIZE
  type regno = x: int | 0 <= x < 8
  type word = x: int | 0 <= x < 0x1_0000
  type Registers = s: seq<long> | |s| == 8 witness [0, 0, 0, 0, 0, 0, 0, 0]
  type Memory = m: seq<byte> | |m| == MEM_SIZE ghost witness seq(MEM_SIZE, i => 0)

  datatype Ccr = Ccr(x: bool, n: bool, z: bool, v: bool, c: bool) {
    function ToByte(): byte {
      (if x then 16 else 0) + (if n then 8 else 0) + (if z then 4 else 0) + (if v then 2 else 0) + (if c then 1 else 0)
    }
  }

  function CcrOfByte(b: int): Ccr {
    Ccr(b / 16 % 2 == 1, b / 8 % 2 == 1, b / 4 % 2 == 1, b / 2 % 2 == 1, b % 2 == 1)
  }

  /** The flags a MOVE or MOVEQ leaves: X is kept, V and C are cleared. */
  function MoveFlags(before: Ccr, v: long): Ccr {
    Ccr(before.x, v >= 0x8000_0000, v == 0, false, false)
  }

  /** The condition code byte: X N Z V C in its five low bits. */
  lemma CcrBits(c: Ccr)
    ensures c.ToByte() < 32 && CcrOfByte(c.ToByte()) == c
    ensures (c.x <==> c.ToByte() / 16 == 1) && (c.n <==> c.ToByte() / 8 % 2 == 1) && (c.z <==> c.ToByte() / 4 % 2 == 1)
    ensures (c.v <==> c.ToByte() / 2 % 2 == 1) && (c.c <==> c.ToByte() % 2 == 1)
  {
  }

  datatype Machine = Machine(d: Registers, a: Registers, ccr: Ccr, pc: int, mem: Memory)

  // ---- memory -------------------------------------------------------------

  function WordBytes(v: word): (r: seq<byte>)
    ensures |r| == 2
  {
    [v / 256, v % 256]
  }

  function LongBytes(v: long): (r: seq<byte>)
    ensures |r| == 4
  {
    [v / 0x100_0000, v / 0x1_0000 % 256, v / 256 % 256, v % 256]
  }

  function JoinWord(b: seq<byte>): word
    requires |b| == 2
  {
    var hi: int, lo: int := b[0], b[1];
    hi * 256 + lo
  }

  function JoinLong(b: seq<byte>): long
    requires |b| == 4
  {
    var b0: int, b1: int, b2: int, b3: int := b[0], b[1], b[2], b[3];
    b0 * 0x100_0000 + b1 * 0x1_0000 + b2 * 256 + b3
  }

  lemma LongRoundTrip(v: long)
    ensures JoinLong(LongBytes(v)) == v
  {
    var h := v / 256;
    assert v / 0x1_0000 == h / 256 && v / 0x100_0000 == h / 256 / 256;
  }

  lemma BytesRoundTrip(b: seq<byte>)
    requires |b| == 4
    ensures LongBytes(JoinLong(b)) == b
  {
    var b0: int, b1: int, b2: int, b3: int := b[0], b[1], b[2], b[3];
    var v := JoinLong(b);
    assert v / 256 == b0 * 0x1_0000 + b1 * 256 + b2;
    assert v / 0x1_0000 == b0 * 256 + b1;
    assert v / 0x100_0000 == b0;
  }

  predicate InRange(a: int, len: int) {
    0 <= a && 0 <= len && a + len <= MEM_SIZE
  }

  predicate Apart(a: int, alen: int, b: int, blen: int) {
    a + alen <= b || b + blen <= a
  }

  /** `code` is stored at `a`. */
  predicate Loaded(mem: Memory, a: int, code: seq<byte>) {
    InRange(a, |code|) && mem[a..a + |code|] == code
  }

  function ReadLong(mem: Memory, a: int): long
    requires InRange(a, 4)
  {
    JoinLong(mem[a..a + 4])
  }

  function Store(mem: Memory, a: int, bytes: seq<byte>): (r: Memory)
    requires InRange(a, |bytes|)
    ensures r[a..a + |bytes|] == bytes
    ensures forall k :: 0 <= k < MEM_SIZE && !(a <= k < a + |bytes|) ==> r[k] == mem[k]
  {
    mem[..a] + bytes + mem[a + |bytes|..]
  }

  // ---- instructions -------------------------------------------------------

  datatype Source = Dn(n: regno) | An(n: regno) | Mem(addr: long)

  datatype Instr =
    | MoveQ(dst: regno, imm: byte)             // MOVEQ #imm,Dn
    | SubA(src: regno, dst: regno)             // SUBA.L Am,An
    | MoveAImm(dst: regno, value: long)        // MOVEA.L #value,An
    | MoveToCcr(bits: word)                    // MOVE.W #bits,CCR
    | MoveL(from: Source, to: long)            // MOVE.L <source>,(xxx).L
    | CcrTo(to: long)                          // MOVE.W CCR,(xxx).L
    | MoveAAbs(dst: regno, source: long)        // MOVEA.L (xxx).L,An
    | SubQA(q: regno, dst: regno)              // SUBQ.L #q,An  (q = 0 stands for 8)
    | Rts

  /** The first word of an instruction. */
  function Opcode(i: Instr): word {
    match i
    case MoveQ(n, imm) => 0x7000 + n * 512 + imm
    case SubA(m, n) => 0x91C8 + n * 512 + m
    case MoveAImm(n, _) => 0x207C + n * 512
    case MoveToCcr(_) => 0x44FC
    case MoveL(Dn(n), _) => 0x23C0 + n
    case MoveL(An(n), _) => 0x23C8 + n
    case MoveL(Mem(_), _) => 0x23F9
    case CcrTo(_) => 0x42F9
    case MoveAAbs(n, _) => 0x2079 + n * 512
    case SubQA(q, n) => 0x5188 + q * 512 + n
    case Rts => 0x4E75
  }

  /** The effective address field: mode and register. */
  function Ea(s: Source): word {
    match s
    case Dn(n) => 8 * 0 + n
    case An(n) => 8 * 1 + n
    case Mem(_) => 8 * 7 + 1
  }

  /** The first words in the fields of the manual: operation, register, size or
      destination mode, source mode and register. */
  lemma OpcodeFields(i: Instr)
    ensures Opcode(i) == match i
                         case MoveQ(n, imm) => 7 * 4096 + n * 512 + imm
                         case SubA(m, n) => 9 * 4096 + n * 512 + 7 * 64 + Ea(An(m))
                         case MoveAImm(n, _) => 2 * 4096 + n * 512 + 1 * 64 + (8 * 7 + 4)
                         case MoveAAbs(n, s) => 2 * 4096 + n * 512 + 1 * 64 + Ea(Mem(s))
                         case MoveL(s, _) => 2 * 4096 + 1 * 512 + 7 * 64 + Ea(s)
                         case MoveToCcr(_) => 4 * 4096 + 2 * 512 + 3 * 64 + (8 * 7 + 4)
                         case CcrTo(t) => 4 * 4096 + 1 * 512 + 3 * 64 + Ea(Mem(t))
                         case SubQA(q, n) => 5 * 4096 + q * 512 + 256 + 2 * 64 + Ea(An(n))
                         case Rts => 4 * 4096 + 7 * 512 + 64 + 8 * 6 + 5
  {
  }

  /** The extension words. */
  function Extension(i: Instr): (r: seq<byte>)
    ensures |r| <= 8
  {
    match i
    case MoveAImm(_, v) => LongBytes(v)
    case MoveToCcr(w) => WordBytes(w)
    case MoveL(Mem(s), t) => LongBytes(s) + LongBytes(t)
    case MoveL(_, t) => LongBytes(t)
    case CcrTo(t) => LongBytes(t)
    case MoveAAbs(_, s) => LongBytes(s)
    case _ => []
  }

  function Encode(i: Instr): (r: seq<byte>)
    ensures 2 <= |r| <= 10
  {
    WordBytes(Opcode(i)) + Extension(i)
  }

  /** One-word instructions. */
  function DecodeShort(w: word): Option<Instr> {
    if 0x7000 <= w < 0x8000 && w / 256 % 2 == 0 then Some(MoveQ((w - 0x7000) / 512, w % 256))
    else if 0x91C8 <= w < 0xA1C8 && (w - 0x91C8) % 512 < 8 then Some(SubA((w - 0x91C8) % 512, (w - 0x91C8) / 512))
    else if 0x5188 <= w < 0x6188 && (w - 0x5188) % 512 < 8 then Some(SubQA((w - 0x5188) / 512, (w - 0x5188) % 512))
    else if w == 0x4E75 then Some(Rts)
    else None
  }

  /** Instructions with one long operand. */
  function DecodeLong(w: word, x: long): Option<Instr> {
    if 0x207C <= w < 0x307C && (w - 0x207C) % 512 == 0 then Some(MoveAImm((w - 0x207C) / 512, x))
    else if 0x2079 <= w < 0x3079 && (w - 0x2079) % 512 == 0 then Some(MoveAAbs((w - 0x2079) / 512, x))
    else if 0x23C0 <= w < 0x23C8 then Some(MoveL(Dn(w - 0x23C0), x))
    else if 0x23C8 <= w < 0x23D0 then Some(MoveL(An(w - 0x23C8), x))
    else if w == 0x42F9 then Some(CcrTo(x))
    else None
  }

  /** Decode the instruction at `pc`; None for every opcode the harness does not emit. */
  function Decode(mem: Memory, pc: int): Option<Instr> {
    if !InRange(pc, 2) then None else
    var w := JoinWord(mem[pc..pc + 2]);
    if DecodeShort(w).Some? then DecodeShort(w)
    else if w == 0x44FC then
      if InRange(pc, 4) then Some(MoveToCcr(JoinWord(mem[pc + 2..pc + 4]))) else None
    else if w == 0x23F9 then
      if InRange(pc, 10) then Some(MoveL(Mem(JoinLong(mem[pc + 2..pc + 6])), JoinLong(mem[pc + 6..pc + 10]))) else None
    else if InRange(pc, 6) then DecodeLong(w, JoinLong(mem[pc + 2..pc + 6]))
    else None
  }

  lemma RegisterField(n: regno, low: int)
    requires 0 <= low < 512
    ensures (n * 512 + low) / 512 == n && (n * 512 + low) % 512 == low
  {
  }

  lemma OpcodeMoveQ(n: regno, imm: byte)
    ensures DecodeShort(0x7000 + n * 512 + imm) == Some(MoveQ(n, imm))
  {
    RegisterField(n, imm);
    var w := 0x7000 + n * 512 + imm;
    assert w / 256 == 0x70 + n * 2 && w % 256 == imm;
  }

  lemma OpcodeSubA(m: regno, n: regno)
    ensures DecodeShort(0x91C8 + n * 512 + m) == Some(SubA(m, n))
  {
    RegisterField(n, m);
  }

  lemma OpcodeSubQA(q: regno, n: regno)
    ensures DecodeShort(0x5188 + q * 512 + n) == Some(SubQA(q, n))
  {
    RegisterField(q, n);
  }

  lemma OpcodeShort(i: Instr)
    ensures DecodeShort(Opcode(i)) == if i.MoveQ? || i.SubA? || i.SubQA? || i.Rts? then Some(i) else None
  {
    match i
    case MoveQ(n, imm) => OpcodeMoveQ(n, imm);
    case SubA(m, n) => OpcodeSubA(m, n);
    case SubQA(q, n) => OpcodeSubQA(q, n);
    case _ => assert Opcode(i) < 0x5188;
  }

  lemma OpcodeLong(i: Instr, x: long)
    ensures match i
            case MoveAImm(n, v) => DecodeLong(Opcode(i), v) == Some(i)
            case MoveAAbs(n, v) => DecodeLong(Opcode(i), v) == Some(i)
            case MoveL(Dn(n), t) => DecodeLong(Opcode(i), t) == Some(i)
            case MoveL(An(n), t) => DecodeLong(Opcode(i), t) == Some(i)
            case CcrTo(t) => DecodeLong(Opcode(i), t) == Some(i)
            case _ => true
  {
  }

  /** Decoding inverts encoding, wherever the bytes are placed. */
  lemma DecodeEncode(mem: Memory, pc: int, i: Instr)
    requires Loaded(mem, pc, Encode(i))
    ensures Decode(mem, pc) == Some(i)
  {
    var code, ext := Encode(i), Extension(i);
    assert mem[pc..pc + 2] == code[..2] == WordBytes(Opcode(i));
    assert mem[pc + 2..pc + 2 + |ext|] == code[2..] == ext;
    OpcodeShort(i);
    match i
    case MoveL(Mem(s), t) =>
      LongRoundTrip(s); LongRoundTrip(t);
      assert mem[pc + 2..pc + 6] == ext[..4] == LongBytes(s);
      assert mem[pc + 6..pc + 10] == ext[4..] == LongBytes(t);
    case MoveAImm(n, v) => LongRoundTrip(v); OpcodeLong(i, v);
    case MoveAAbs(n, v) => LongRoundTrip(v); OpcodeLong(i, v);
    case MoveL(Dn(n), v) => LongRoundTrip(v); OpcodeLong(i, v);
    case MoveL(An(n), v) => LongRoundTrip(v); OpcodeLong(i, v);
    case CcrTo(v) => LongRoundTrip(v); OpcodeLong(i, v);
    case _ =>
  }

  // ---- semantics ----------------------------------------------------------

  function SourceValue(m: Machine, s: Source): Option<long> {
    match s
    case Dn(n) => Some(m.d[n])
    case An(n) => Some(m.a[n])
    case Mem(s) => if InRange(s, 4) then Some(ReadLong(m.mem, s)) else None
  }

  /** Execute `i`; None when an operand runs off the address space. */
  function Exec(i: Instr, m: Machine): Option<Machine> {
    var next := m.pc + |Encode(i)|;
    match i
    case MoveQ(n, imm) =>
      var v: long := if imm < 128 then imm else imm + 0xFFFF_FF00;
      Some(m.(d := m.d[n := v], ccr := MoveFlags(m.ccr, v), pc := next))
    case SubA(s, n) =>
      Some(m.(a := m.a[n := (m.a[n] - m.a[s]) % MEM_SIZE], pc := next))
    case MoveAImm(n, v) =>
      Some(m.(a := m.a[n := v], pc := next))
    case MoveToCcr(w) =>
      Some(m.(ccr := CcrOfByte(w), pc := next))
    case MoveL(s, t) =>
      var v := SourceValue(m, s);
      if v.None? || !InRange(t, 4) then None
      else Some(m.(mem := Store(m.mem, t, LongBytes(v.value)), ccr := MoveFlags(m.ccr, v.value), pc := next))
    case CcrTo(t) =>
      if !InRange(t, 2) then None
      else Some(m.(mem := Store(m.mem, t, [0, m.ccr.ToByte()]), pc := next))
    case MoveAAbs(n, s) =>
      if !InRange(s, 4) then None
      else Some(m.(a := m.a[n := ReadLong(m.mem, s)], pc := next))
    case SubQA(q, n) =>
      Some(m.(a := m.a[n := (m.a[n] - (if q == 0 then 8 else q)) % MEM_SIZE], pc := next))
    case Rts =>
      if !InRange(m.a[7], 4) then None
      else Some(m.(pc := ReadLong(m.mem, m.a[7]), a := m.a[7 := (m.a[7] + 4) % MEM_SIZE]))
  }

  /** One step of the modelled subset. */
  function Step(m: Machine): Option<Machine> {
    var i := Decode(m.mem, m.pc);
    if i.None? then None else Exec(i.value, m)
  }

  /** A processor that does the right thing on the modelled instructions. */
  ghost predicate Implements(core: Machine -> Machine) {
    forall m :: Step(m).Some? ==> core(m) == Step(m).value
  }

  /** The subset interpreter, idling elsewhere, is such a processor. */
  function ReferenceCore(m: Machine): Machine {
    var s := Step(m);
    if s.Some? then s.value else m
  }

  lemma ReferenceImplements()
    ensures Implements(ReferenceCore)
  {
  }

  ghost function Iterate(core: Machine -> Machine, m: Machine, n: nat): Machine
    decreases n
  {
    if n == 0 then m else Iterate(core, core(m), n - 1)
  }

  ghost predicate Reaches(core: Machine -> Machine, m: Machine, m': Machine) {
    exists n: nat :: Iterate(core, m, n) == m'
  }

  lemma {:induction false} IterateAdd(core: Machine -> Machine, m: Machine, j: nat, k: nat)
    ensures Iterate(core, m, j + k) == Iterate(core, Iterate(core, m, j), k)
    decreases j
  {
    if j > 0 { IterateAdd(core, core(m), j - 1, k); }
  }

  lemma ReachesTrans(core: Machine -> Machine, a: Machine, b: Machine, c: Machine)
    requires Reaches(core, a, b) && Reaches(core, b, c)
    ensures Reaches(core, a, c)
  {
    var j: nat :| Iterate(core, a, j) == b;
    var k: nat :| Iterate(core, b, k) == c;
    IterateAdd(core, a, j, k);
  }

  // ---- straight-line code -------------------------------------------------

  function FlatMap<T>(f: T -> seq<byte>, xs: seq<T>): seq<byte> {
    if xs == [] then [] else f(xs[0]) + FlatMap(f, xs[1..])
  }

  lemma {:induction false} FlatMapAppend<T>(f: T -> seq<byte>, a: seq<T>, b: seq<T>)
    ensures FlatMap(f, a + b) == FlatMap(f, a) + FlatMap(f, b)
  {
    if a == [] {
      assert a + b == b;
    } else {
      FlatMapAppend(f, a[1..], b);
      assert (a + b)[1..] == a[1..] + b;
    }
  }

  function EncodeAll(code: seq<Instr>): seq<byte> {
    FlatMap(Encode, code)
  }

  lemma EncodeAllAppend(a: seq<Instr>, b: seq<Instr>)
    ensures EncodeAll(a + b) == EncodeAll(a) + EncodeAll(b)
  {
    FlatMapAppend(Encode, a, b);
  }

  function ExecAll(code: seq<Instr>, m: Machine): Option<Machine> {
    if code == [] then Some(m) else
    var m1 := Exec(code[0], m);
    if m1.None? then None else ExecAll(code[1..], m1.value)
  }

  lemma {:induction false} ExecAllAppend(a: seq<Instr>, b: seq<Instr>, m: Machine)
    ensures ExecAll(a, m).Some? ==> ExecAll(a + b, m) == ExecAll(b, ExecAll(a, m).value)
  {
    if a == [] {
      assert a + b == b;
    } else {
      assert (a + b)[1..] == a[1..] + b;
      if Exec(a[0], m).Some? { ExecAllAppend(a[1..], b, Exec(a[0], m).value); }
    }
  }

  /** `i` neither jumps nor writes into [lo, hi). */
  predicate Harmless(i: Instr, lo: int, hi: int) {
    match i
    case MoveL(_, t) => Apart(t, 4, lo, hi - lo)
    case CcrTo(t) => Apart(t, 2, lo, hi - lo)
    case Rts => false
    case _ => true
  }

  lemma StepRuns(core: Machine -> Machine, i: Instr, m: Machine)
    requires Implements(core) && Loaded(m.mem, m.pc, Encode(i)) && Exec(i, m).Some?
    ensures core(m) == Exec(i, m).value
  {
    DecodeEncode(m.mem, m.pc, i);
    assert Step(m).Some?;
  }

  lemma LoadedSplit(mem: Memory, a: int, x: seq<byte>, y: seq<byte>)
    requires Loaded(mem, a, x + y)
    ensures Loaded(mem, a, x) && Loaded(mem, a + |x|, y)
  {
    assert mem[a..a + |x|] == (x + y)[..|x|] == x;
    assert mem[a + |x|..a + |x| + |y|] == (x + y)[|x|..] == y;
  }

  /** Executing a harmless instruction moves to the next one and leaves [lo, hi) alone. */
  lemma HarmlessKeeps(i: Instr, m: Machine, lo: int, hi: int)
    requires Exec(i, m).Some? && Harmless(i, lo, hi)
    ensures var m' := Exec(i, m).value;
            && m'.pc == m.pc + |Encode(i)|
            && forall k :: 0 <= k < MEM_SIZE && lo <= k < hi ==> m'.mem[k] == m.mem[k]
  {
  }

  ghost predicate AllHarmless(code: seq<Instr>, lo: int, hi: int) {
    forall k :: 0 <= k < |code| ==> Harmless(code[k], lo, hi)
  }

  lemma HarmlessInside(i: Instr, lo: int, hi: int, lo': int, hi': int)
    requires Harmless(i, lo, hi) && lo <= lo' <= hi' <= hi
    ensures Harmless(i, lo', hi')
  {
  }

  lemma HeadRuns(core: Machine -> Machine, i: Instr, rest: seq<byte>, m: Machine)
    requires Implements(core) && Exec(i, m).Some?
    requires Loaded(m.mem, m.pc, Encode(i) + rest)
    requires Harmless(i, m.pc, m.pc + |Encode(i) + rest|)
    ensures core(m) == Exec(i, m).value && core(m).pc == m.pc + |Encode(i)|
    ensures Loaded(core(m).mem, core(m).pc, rest)
  {
    LoadedSplit(m.mem, m.pc, Encode(i), rest);
    StepRuns(core, i, m);
    HarmlessKeeps(i, m, m.pc, m.pc + |Encode(i) + rest|);
    assert core(m).mem[m.pc + |Encode(i)|..m.pc + |Encode(i) + rest|]
        == m.mem[m.pc + |Encode(i)|..m.pc + |Encode(i) + rest|];
  }

  /** Any core runs loaded straight-line code exactly as the instruction list
      says, provided the code does not overwrite itself. */
  lemma {:induction false} CodeRuns(core: Machine -> Machine, code: seq<Instr>, m: Machine)
    requires Implements(core) && Loaded(m.mem, m.pc, EncodeAll(code))
    requires AllHarmless(code, m.pc, m.pc + |EncodeAll(code)|)
    requires ExecAll(code, m).Some?
    ensures Reaches(core, m, ExecAll(code, m).value)
    decreases |code|
  {
    if code == [] {
      assert Iterate(core, m, 0) == m;
    } else {
      var i, tail := code[0], EncodeAll(code[1..]);
      HeadRuns(core, i, tail, m);
      var m1 := core(m);
      assert AllHarmless(code[1..], m1.pc, m1.pc + |tail|) by {
        forall k | 0 <= k < |code[1..]| ensures Harmless(code[1..][k], m1.pc, m1.pc + |tail|) {
          HarmlessInside(code[k + 1], m.pc, m.pc + |EncodeAll(code)|, m1.pc, m1.pc + |tail|);
        }
      }
      CodeRuns(core, code[1..], m1);
      var end := ExecAll(code, m).value;
      var n: nat :| Iterate(core, m1, n) == end;
      assert Iterate(core, m, n + 1) == end;
    }
  }
}
