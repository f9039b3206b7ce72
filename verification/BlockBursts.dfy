/** Read and write bursts, tick by tick. */
module BlockBursts {
  import opened Basics
  import opened BlockDevice
  import opened BlockProtocol

  const WORDS := 256

  // ---- a busy device ignores every other disk -----------------------------------

  lemma OtherVisit(s: Dev, p: Pins, o: Options, i: int)
    requires Inv(s) && Busy(s) && p.Shaped() && 0 <= i < DISKS && i != s.current
    ensures Visit(s, p, o, i) == s
  {
  }

  lemma {:induction false} VisitsUpTo(s: Dev, p: Pins, o: Options, n: nat)
    requires Inv(s) && Busy(s) && p.Shaped() && n <= s.current
    ensures Visits(s, p, o, n) == s
  {
    if n > 0 {
      VisitsUpTo(s, p, o, n - 1);
      OtherVisit(s, p, o, n - 1);
    }
  }

  /** A tick of a busy device that stays busy is one visit of its disk. */
  lemma {:induction false} VisitsPast(s: Dev, p: Pins, o: Options, n: nat)
    requires Inv(s) && Busy(s) && p.Shaped() && s.current < n <= DISKS
    requires var t := Visit(s, p, o, s.current); Inv(t) && t.current == s.current
    ensures Visits(s, p, o, n) == Visit(s, p, o, s.current)
  {
    hide Visit;
    if n - 1 == s.current {
      VisitsUpTo(s, p, o, n - 1);
    } else {
      VisitsPast(s, p, o, n - 1);
      OtherVisit(Visit(s, p, o, s.current), p, o, n - 1);
    }
  }

  lemma IdleVisit(s: Dev, p: Pins, o: Options, i: int)
    requires Inv(s) && !Busy(s) && p.Shaped() && i !in p.rd && i !in p.wr && 0 <= i < DISKS
    ensures Visit(s, p, o, i) == s
  {
  }

  // ---- acceptance -----------------------------------------------------------------

  /** Ticks from acceptance to the first word. */
  function Delay(latency: int): int { if latency > 1 then latency - 1 else 1 }

  /** The state an accepted request leaves: the burst starts at byte `base`. */
  ghost predicate Started(s: Dev, c: int, base: nat, o: Options, write: bool) {
    && Inv(s) && s.current == c && s.writing == write && s.reading == !write
    && s.bytecnt == 0 && s.buffAddr == 0 && !s.buffWr && s.ackDelay == Delay(o.latency)
    && s.disks[c].pos == base && s.sdAck == (if o.latency == 1 then {c} else {})
  }

  ghost predicate SameContents(s: Dev, t: Dev)
    requires s.Shaped() && t.Shaped()
  {
    forall k :: 0 <= k < DISKS ==> t.disks[k].content == s.disks[k].content && t.disks[k].writable == s.disks[k].writable
  }

  /** An idle device takes up a request at once, keeping all disk contents. */
  lemma AcceptStarts(s: Dev, p: Pins, o: Options, c: int)
    requires Inv(s) && !Busy(s) && p.Shaped() && OneWay(p) && o.latency >= 1 && 0 <= c < 8
    requires c in p.rd || c in p.wr
    ensures var t := Visit(s, p, o, c);
            Started(t, c, p.lba[c] * BLOCK, o, c in p.wr) && SameContents(s, t)
  {
    VisitKeepsInv(s, p, o, c);
    assert c in p.rd + p.wr;
    assert {} + {c} == {c};
  }

  // ---- arbitration: the lowest requesting index, from where the visits stand ---------

  predicate Asks(p: Pins, i: int) { i in p.rd || i in p.wr }

  function Lowest(p: Pins, from: nat): (i: nat)
    requires from <= DISKS
    ensures from <= i <= DISKS
    ensures i < DISKS ==> Asks(p, i)
    ensures forall k :: from <= k < i ==> !Asks(p, k)
    decreases DISKS - from
  {
    if from == DISKS || Asks(p, from) then from else Lowest(p, from + 1)
  }

  /** An idle device after the visits of indices from .. n - 1: the lowest
      requesting disk among them, if any, has been taken up. */
  function Passed(s: Dev, p: Pins, o: Options, from: nat, n: nat): (t: Dev)
    requires Seekable(s) && p.Shaped() && from <= n <= DISKS
    ensures Seekable(t)
  {
    var i := Lowest(p, from);
    if i < n then Visit(s, p, o, i) else s
  }

  lemma PassedStep(s: Dev, p: Pins, o: Options, from: nat, n: nat)
    requires Inv(s) && !Busy(s) && p.Shaped() && OneWay(p) && o.latency >= 1 && from <= n < DISKS
    ensures Visit(Passed(s, p, o, from, n), p, o, n) == Passed(s, p, o, from, n + 1)
  {
    var i := Lowest(p, from);
    if i < n {
      AcceptStarts(s, p, o, i);
      hide Visit;
      OtherVisit(Visit(s, p, o, i), p, o, n);
    } else if i > n {
      assert !Asks(p, n);
      hide Visit;
      IdleVisit(s, p, o, n);
    }
  }

  lemma {:induction false} IdlePasses(s: Dev, p: Pins, o: Options, n: nat)
    requires Inv(s) && !Busy(s) && p.Shaped() && OneWay(p) && o.latency >= 1 && n <= DISKS
    ensures Visits(s, p, o, n) == Passed(s, p, o, 0, n)
  {
    hide Visit;
    if n > 0 {
      IdlePasses(s, p, o, n - 1);
      PassedStep(s, p, o, 0, n - 1);
    }
  }

  /** A device whose visit of its own disk is that of the idle device u goes on as u does. */
  lemma {:induction false} EndingPasses(s: Dev, u: Dev, p: Pins, o: Options, n: nat)
    requires Inv(s) && Busy(s) && Inv(u) && !Busy(u) && p.Shaped() && OneWay(p) && o.latency >= 1 && s.current < n <= DISKS
    requires Visit(s, p, o, s.current) == Visit(u, p, o, s.current)
    ensures Visits(s, p, o, n) == Passed(u, p, o, s.current, n)
  {
    hide Visit;
    if n - 1 == s.current {
      VisitsUpTo(s, p, o, n - 1);
    } else {
      EndingPasses(s, u, p, o, n - 1);
    }
    PassedStep(u, p, o, s.current, n - 1);
  }

  /** What has been taken up by the end of a tick has just started; no content has changed. */
  lemma PassedStarts(s: Dev, p: Pins, o: Options, from: nat)
    requires Inv(s) && !Busy(s) && p.Shaped() && OneWay(p) && o.latency >= 1 && from <= DISKS
    ensures var i, t := Lowest(p, from), Passed(s, p, o, from, DISKS);
            && Inv(t) && SameContents(s, t)
            && if i < DISKS then Started(t, i, p.lba[i] * BLOCK, o, i in p.wr) else t == s
  {
    var i := Lowest(p, from);
    if i < DISKS {
      AcceptStarts(s, p, o, i);
    }
  }

  /** The tick on which requests reach an idle device: the lowest-numbered disk is taken up. */
  lemma RequestTick(s: Dev, p: Pins, o: Options)
    requires Inv(s) && !Busy(s) && p.Shaped() && Awake(p) && OneWay(p) && o.latency >= 1
    ensures var c, t := Lowest(p, 0), Call(s, p, o);
            && SameContents(s, t)
            && if c < DISKS then Started(t, c, p.lba[c] * BLOCK, o, c in p.wr) else t == s
  {
    hide Visit, Started, SameContents;
    CallIs(s, p, o);
    IdlePasses(s, p, o, DISKS);
    PassedStarts(s, p, o, 0);
  }

  // ---- reading ------------------------------------------------------------------------

  /** The device n ticks after a read was accepted in state s: counting down,
      then presenting word m/2 on even m and withdrawing it on odd m. */
  function ReadAt(s: Dev, c: int, base: nat, n: nat): Dev
    requires s.Shaped() && 0 <= c < DISKS && s.ackDelay >= 1
  {
    var d := s.ackDelay;
    if n < d then s.(ackDelay := d - n)
    else
      var m := n - d;
      var j := m / 2;
      s.(ackDelay := 1, sdAck := {c}, bytecnt := 2 * j + 2, buffAddr := j, buffWr := m % 2 == 0,
         buffDout := WordAt(s.disks[c].content, base + 2 * j),
         disks := s.disks[c := s.disks[c].(pos := base + 2 * j + 2)])
  }

  lemma ReadInv(s: Dev, c: int, base: nat, o: Options, n: nat)
    requires Started(s, c, base, o, false) && o.latency >= 1 && n <= s.ackDelay + 510
    ensures Inv(ReadAt(s, c, base, n)) && ReadAt(s, c, base, n).current == c
  {
  }

  /** One tick further, whatever is requested meanwhile. */
  lemma ReadStep(s: Dev, p: Pins, o: Options, c: int, base: nat, n: nat)
    requires Started(s, c, base, o, false) && o.latency >= 1 && p.Shaped() && n < s.ackDelay + 510
    ensures Visit(ReadAt(s, c, base, n), p, o, c) == ReadAt(s, c, base, n + 1)
  {
    var a := ReadAt(s, c, base, n);
    var b := Transfer(a, p, o, c);
    assert Mount(b, c) == b;
    assert Accept(b, p, o, c) == b;
    assert {c} + {c} == {c} && {} + {c} == {c};
    if n + 1 < s.ackDelay {
      assert s.sdAck - {c} == {} == s.sdAck;
    } else if n + 1 > s.ackDelay {
      var m := n - s.ackDelay;
      assert b.disks == ReadAt(s, c, base, n + 1).disks;
    }
  }

  /** The device when a read is over. */
  function ReadOver(s: Dev, c: int, base: nat): Dev
    requires s.Shaped() && 0 <= c < DISKS
  {
    s.(reading := false, ackDelay := 0, current := -1, sdAck := {}, bytecnt := BLOCK, buffAddr := 255, buffWr := false,
       buffDout := WordAt(s.disks[c].content, base + 510),
       disks := s.disks[c := s.disks[c].(pos := base + BLOCK)])
  }

  /** The visit that ends a read does with a request what an idle device would. */
  lemma ReadEnds(s: Dev, p: Pins, o: Options, c: int, base: nat)
    requires Started(s, c, base, o, false) && o.latency >= 1 && p.Shaped() && OneWay(p)
    ensures Seekable(ReadAt(s, c, base, s.ackDelay + 510)) && Inv(ReadOver(s, c, base)) && !Busy(ReadOver(s, c, base))
    ensures Visit(ReadAt(s, c, base, s.ackDelay + 510), p, o, c) == Visit(ReadOver(s, c, base), p, o, c)
  {
    var a, u := ReadAt(s, c, base, s.ackDelay + 510), ReadOver(s, c, base);
    assert a.bytecnt == BLOCK && a.buffWr && a.buffAddr == 255;
    var b := Transfer(a, p, o, c);
    assert b == a.(buffWr := false, reading := false);
    assert b.disks == u.disks && b.buffDout == u.buffDout;
    EndingVisit(b, u, p, o, c);
    assert Transfer(u, p, o, c) == u;
  }

  /** After its transfer phase an ended disk differs from an idle device only in
      what the rest of the visit undoes. */
  lemma EndingVisit(b: Dev, u: Dev, p: Pins, o: Options, c: int)
    requires Inv(u) && !Busy(u) && p.Shaped() && OneWay(p) && o.latency >= 1 && 0 <= c < 8
    requires b == u.(current := c, ackDelay := 1, sdAck := {c})
    ensures Seekable(b)
    ensures Finish(Accept(Mount(b, c), p, o, c), c) == Finish(Accept(Mount(u, c), p, o, c), c)
  {
    assert Mount(b, c) == b.(ackDelay := 0) && Mount(u, c) == u;
    assert {c} - {c} == {} && {} + {c} == {c} && {c} + {c} == {c} && {} - {c} == {};
    assert c in p.rd ==> c !in p.wr;
  }

  ghost predicate PinsOk(ps: seq<Pins>) {
    forall k :: 0 <= k < |ps| ==> ps[k].Shaped() && OneWay(ps[k])
  }

  /** n ticks into a read the device is in the state ReadAt gives. */

  /** ... on ticks on which the device is awake. */
  ghost predicate Live(ps: seq<Pins>) { PinsOk(ps) && AllAwake(ps) }

  lemma {:induction false} ReadRun(s: Dev, ps: seq<Pins>, o: Options, c: int, base: nat)
    requires Started(s, c, base, o, false) && o.latency >= 1 && Live(ps) && |ps| <= s.ackDelay + 510
    ensures Run(s, ps, o) == ReadAt(s, c, base, |ps|)
  {
    if ps == [] {
    } else {
      var n, p := |ps| - 1, ps[|ps| - 1];
      ReadRun(s, ps[..n], o, c, base);
      ReadInv(s, c, base, o, n);
      ReadStep(s, p, o, c, base, n);
      ReadInv(s, c, base, o, n + 1);
      VisitsPast(ReadAt(s, c, base, n), p, o, DISKS);
    }
  }

  ghost predicate PresentsWord(s: Dev, c: int, j: int, w: int) {
    s.buffWr && s.buffAddr == j && s.buffDout == w && s.sdAck == {c}
  }

  lemma ReadAtPresents(s: Dev, c: int, base: nat, o: Options, j: nat)
    requires Started(s, c, base, o, false) && o.latency >= 1 && j < WORDS
    ensures PresentsWord(ReadAt(s, c, base, s.ackDelay + 2 * j), c, j, WordAt(s.disks[c].content, base + 2 * j))
  {
  }

  lemma WordPresented(s: Dev, ps: seq<Pins>, o: Options, c: int, base: nat, j: nat)
    requires Started(s, c, base, o, false) && o.latency >= 1 && Live(ps)
    requires j < WORDS && |ps| == Delay(o.latency) + 2 * j
    ensures PresentsWord(Run(s, ps, o), c, j, WordAt(s.disks[c].content, base + 2 * j))
  {
    assert s.ackDelay + 2 * j == |ps|;
    hide Run, PresentsWord, Inv;
    ReadRun(s, ps, o, c, base);
    ReadAtPresents(s, c, base, o, j);
  }

  /** Ticks on which no word is presented. */
  predicate Quiet(n: int, d: int) { n < d || (n - d) % 2 == 1 }

  lemma NothingPresented(s: Dev, ps: seq<Pins>, o: Options, c: int, base: nat)
    requires Started(s, c, base, o, false) && o.latency >= 1 && Live(ps)
    requires |ps| <= Delay(o.latency) + 510 && Quiet(|ps|, Delay(o.latency))
    ensures !Run(s, ps, o).buffWr
  {
    ReadRun(s, ps, o, c, base);
  }

  lemma LastReadTick(s: Dev, p: Pins, o: Options, c: int, base: nat)
    requires Started(s, c, base, o, false) && o.latency >= 1 && p.Shaped() && Awake(p) && OneWay(p)
    ensures Seekable(ReadAt(s, c, base, s.ackDelay + 510)) && Seekable(ReadOver(s, c, base)) && 0 <= c < DISKS
    ensures Call(ReadAt(s, c, base, s.ackDelay + 510), p, o) == Passed(ReadOver(s, c, base), p, o, c, DISKS)
  {
    ReadInv(s, c, base, o, s.ackDelay + 510);
    ReadEnds(s, p, o, c, base);
    hide Visit, ReadAt, ReadOver, Passed;
    EndingPasses(ReadAt(s, c, base, s.ackDelay + 510), ReadOver(s, c, base), p, o, DISKS);
  }

  lemma ReadFinishes(s: Dev, ps: seq<Pins>, o: Options, c: int, base: nat)
    requires Started(s, c, base, o, false) && o.latency >= 1 && Live(ps) && |ps| == Delay(o.latency) + 511
    ensures Seekable(ReadOver(s, c, base)) && 0 <= c < DISKS
    ensures Run(s, ps, o) == Passed(ReadOver(s, c, base), ps[|ps| - 1], o, c, DISKS)
  {
    var n := |ps| - 1;
    hide ReadAt, ReadOver, Call, Passed, Inv;
    ReadRun(s, ps[..n], o, c, base);
    LastReadTick(s, ps[n], o, c, base);
  }

  /** A sector buffer of 256 words. */
  predicate Buffer(buf: seq<int>) { |buf| == WORDS && forall j :: 0 <= j < WORDS ==> 0 <= buf[j] < 0x1_0000 }

  /** A byte of the image, FF past its end. */
  function OrFF(content: seq<byte>, q: nat): int { if q < |content| then content[q] else 255 }

  /** The block of an image at byte `base`, as big-endian words. */
  function BlockWords(content: seq<byte>, base: nat): (buf: seq<int>)
    ensures Buffer(buf) && forall j :: 0 <= j < WORDS ==> buf[j] == WordAt(content, base + 2 * j)
    ensures forall j :: 0 <= j < WORDS ==> buf[j] == OrFF(content, base + 2 * j) * 256 + OrFF(content, base + 2 * j + 1)
  {
    seq(WORDS, j requires 0 <= j < WORDS => WordAt(content, base + 2 * j))
  }

  /** The words a read presents, j = 0 .. 255. */
  ghost predicate Presents(s: Dev, ps: seq<Pins>, o: Options, c: int, buf: seq<int>)
    requires Seekable(s) && PinsOk(ps) && Buffer(buf) && o.latency >= 1 && |ps| == Delay(o.latency) + 511
  {
    forall j :: 0 <= j < WORDS ==> PresentsWord(Run(s, ps[..Delay(o.latency) + 2 * j], o), c, j, buf[j])
  }

  lemma AllWordsPresented(s: Dev, ps: seq<Pins>, o: Options, c: int, base: nat)
    requires Started(s, c, base, o, false) && o.latency >= 1 && Live(ps) && |ps| == Delay(o.latency) + 511
    ensures Presents(s, ps, o, c, BlockWords(s.disks[c].content, base))
  {
    assert Seekable(s) && 0 <= c < DISKS;
    hide Run, PresentsWord, Inv, Seekable;
    forall j | 0 <= j < WORDS
      ensures PresentsWord(Run(s, ps[..Delay(o.latency) + 2 * j], o), c, j, WordAt(s.disks[c].content, base + 2 * j))
    {
      WordPresented(s, ps[..Delay(o.latency) + 2 * j], o, c, base, j);
    }
  }

  /** No other tick presents a word. */
  ghost predicate SilentElsewhere(s: Dev, ps: seq<Pins>, o: Options)
    requires Seekable(s) && PinsOk(ps)
  {
    forall n :: 0 <= n < |ps| && Quiet(n, Delay(o.latency)) ==> !Run(s, ps[..n], o).buffWr
  }

  lemma SilentBetweenWords(s: Dev, ps: seq<Pins>, o: Options, c: int, base: nat)
    requires Started(s, c, base, o, false) && o.latency >= 1 && Live(ps) && |ps| == Delay(o.latency) + 511
    ensures SilentElsewhere(s, ps, o)
  {
    assert Seekable(s);
    hide Run, Inv, Seekable, Quiet;
    forall n | 0 <= n < |ps| && Quiet(n, Delay(o.latency)) ensures !Run(s, ps[..n], o).buffWr {
      NothingPresented(s, ps[..n], o, c, base);
    }
  }

  /** A read burst: 256 words at addresses 0..255 in order, each presented on
      its own tick with ack set, equal to the big-endian bytes of the block; no
      other tick presents a word; after Delay + 511 ticks the transfer is over
      and the device has gone on, in that same tick, to whatever is requested
      from index c upwards. The disks may request anything throughout. */
  lemma ReadBurst(s: Dev, ps: seq<Pins>, o: Options, c: int, base: nat)
    requires Started(s, c, base, o, false) && o.latency >= 1 && Live(ps) && |ps| == Delay(o.latency) + 511
    ensures Presents(s, ps, o, c, BlockWords(s.disks[c].content, base))
    ensures SilentElsewhere(s, ps, o)
    ensures Seekable(ReadOver(s, c, base)) && 0 <= c < DISKS
    ensures Run(s, ps, o) == Passed(ReadOver(s, c, base), ps[|ps| - 1], o, c, DISKS)
  {
    hide Presents, SilentElsewhere, ReadOver, Run, Passed;
    AllWordsPresented(s, ps, o, c, base);
    SilentBetweenWords(s, ps, o, c, base);
    ReadFinishes(s, ps, o, c, base);
  }

  // ---- writing -------------------------------------------------------------------------

  /** The image after the first k words of `buf` have been put at `base`. */
  function Written(content: seq<byte>, base: nat, buf: seq<int>, k: nat): seq<byte>
    requires k <= |buf| && forall j :: 0 <= j < |buf| ==> 0 <= buf[j] < 0x1_0000
  {
    if k == 0 then content
    else Put(Put(Written(content, base, buf, k - 1), base + 2 * (k - 1), buf[k - 1] / 256), base + 2 * (k - 1) + 1, buf[k - 1] % 256)
  }

  /** Writes reach the image unless the image is read-only or writes are ignored. */
  predicate Writes(s: Dev, o: Options, c: int)
    requires s.Shaped() && 0 <= c < DISKS
  {
    s.disks[c].writable && !o.ignoreWrites
  }

  function WrittenDisk(s: Dev, o: Options, c: int, base: nat, buf: seq<int>, k: nat): Disk
    requires s.Shaped() && 0 <= c < DISKS && Buffer(buf) && k <= WORDS
  {
    if Writes(s, o, c) then s.disks[c].(content := Written(s.disks[c].content, base, buf, k), pos := base + 2 * k)
    else s.disks[c].(pos := base)
  }

  /** The device n ticks after a write was accepted: counting down, then one word a tick. */
  function WriteAt(s: Dev, o: Options, c: int, base: nat, buf: seq<int>, n: nat): Dev
    requires s.Shaped() && 0 <= c < DISKS && s.ackDelay >= 1 && Buffer(buf) && n < s.ackDelay + WORDS
  {
    var d := s.ackDelay;
    if n < d then s.(ackDelay := d - n)
    else
      var k := n - d + 1;
      s.(ackDelay := 1, sdAck := {c}, bytecnt := 2 * k, buffAddr := if k < WORDS then k else 0,
         disks := s.disks[c := WrittenDisk(s, o, c, base, buf, k)])
  }

  lemma WriteInv(s: Dev, o: Options, c: int, base: nat, buf: seq<int>, n: nat)
    requires Started(s, c, base, o, true) && o.latency >= 1 && Buffer(buf) && n < s.ackDelay + WORDS
    ensures Inv(WriteAt(s, o, c, base, buf, n)) && WriteAt(s, o, c, base, buf, n).current == c
  {
  }

  /** The target's buffer answers with the word last addressed. */
  ghost predicate Answers(p: Pins, c: int, buf: seq<int>, addr: int)
    requires p.Shaped() && 0 <= c < DISKS && Buffer(buf)
  {
    0 <= addr < WORDS && p.din[c] == buf[addr]
  }

  lemma CountDownStep(s: Dev, p: Pins, o: Options, c: int, base: nat, buf: seq<int>, n: nat)
    requires Started(s, c, base, o, true) && o.latency >= 1 && p.Shaped() && Buffer(buf) && n + 1 < s.ackDelay
    ensures Visit(WriteAt(s, o, c, base, buf, n), p, o, c) == WriteAt(s, o, c, base, buf, n + 1)
  {
    var a := WriteAt(s, o, c, base, buf, n);
    var b := Transfer(a, p, o, c);
    assert b == a && Mount(b, c) == b && Accept(b, p, o, c) == b;
    assert s.sdAck - {c} == {} == s.sdAck;
  }

  lemma PutStep(s: Dev, p: Pins, o: Options, c: int, base: nat, buf: seq<int>, k: nat)
    requires Started(s, c, base, o, true) && p.Shaped() && Buffer(buf) && k < WORDS && p.din[c] == buf[k]
    ensures PutWord(WrittenDisk(s, o, c, base, buf, k), o, p.din[c]) == WrittenDisk(s, o, c, base, buf, k + 1)
    ensures WrittenDisk(s, o, c, base, buf, 0) == s.disks[c]
  {
  }

  lemma WriteStep(s: Dev, p: Pins, o: Options, c: int, base: nat, buf: seq<int>, n: nat)
    requires Started(s, c, base, o, true) && o.latency >= 1 && p.Shaped() && Buffer(buf) && n + 1 < s.ackDelay + WORDS
    requires Answers(p, c, buf, WriteAt(s, o, c, base, buf, n).buffAddr)
    ensures Visit(WriteAt(s, o, c, base, buf, n), p, o, c) == WriteAt(s, o, c, base, buf, n + 1)
  {
    if n + 1 < s.ackDelay {
      CountDownStep(s, p, o, c, base, buf, n);
    } else {
      var a := WriteAt(s, o, c, base, buf, n);
      var k := n + 1 - s.ackDelay;
      PutStep(s, p, o, c, base, buf, k);
      assert a.ackDelay == 1 && a.writing && !a.reading && a.bytecnt == 2 * k && a.buffAddr == k;
      assert a.disks == s.disks[c := WrittenDisk(s, o, c, base, buf, k)];
      var b := Transfer(a, p, o, c);
      assert b.disks == s.disks[c := WrittenDisk(s, o, c, base, buf, k + 1)];
      assert Mount(b, c) == b && Accept(b, p, o, c) == b;
      assert {c} + {c} == {c} && {} + {c} == {c};
    }
  }

  function WriteOver(s: Dev, o: Options, c: int, base: nat, buf: seq<int>): Dev
    requires s.Shaped() && 0 <= c < DISKS && Buffer(buf)
  {
    s.(writing := false, ackDelay := 0, current := -1, sdAck := {}, bytecnt := BLOCK, buffAddr := 0,
       disks := s.disks[c := WrittenDisk(s, o, c, base, buf, WORDS)])
  }

  lemma WriteEnds(s: Dev, p: Pins, o: Options, c: int, base: nat, buf: seq<int>)
    requires Started(s, c, base, o, true) && o.latency >= 1 && p.Shaped() && OneWay(p) && Buffer(buf)
    ensures Seekable(WriteAt(s, o, c, base, buf, s.ackDelay + 255))
    ensures Inv(WriteOver(s, o, c, base, buf)) && !Busy(WriteOver(s, o, c, base, buf))
    ensures Visit(WriteAt(s, o, c, base, buf, s.ackDelay + 255), p, o, c) == Visit(WriteOver(s, o, c, base, buf), p, o, c)
  {
    var a, u := WriteAt(s, o, c, base, buf, s.ackDelay + 255), WriteOver(s, o, c, base, buf);
    assert a.bytecnt == BLOCK && a.buffAddr == 0 && a.ackDelay == 1;
    var b := Transfer(a, p, o, c);
    assert b == a.(buffAddr := 0, writing := false);
    EndingVisit(b, u, p, o, c);
    assert Transfer(u, p, o, c) == u;
  }

  /** On every tick the target's buffer answers the address of the tick before. */
  ghost predicate Synchronous(s: Dev, ps: seq<Pins>, o: Options, c: int, buf: seq<int>)
    requires Seekable(s) && PinsOk(ps) && 0 <= c < DISKS && Buffer(buf)
  {
    forall n :: 0 <= n < |ps| ==> Answers(ps[n], c, buf, Run(s, ps[..n], o).buffAddr)
  }

  lemma SynchronousPrefix(s: Dev, ps: seq<Pins>, o: Options, c: int, buf: seq<int>)
    requires Seekable(s) && PinsOk(ps) && 0 <= c < DISKS && Buffer(buf) && ps != []
    requires Synchronous(s, ps, o, c, buf)
    ensures Synchronous(s, ps[..|ps| - 1], o, c, buf)
    ensures Answers(ps[|ps| - 1], c, buf, Run(s, ps[..|ps| - 1], o).buffAddr)
  {
    hide Run, Answers;
    var n := |ps| - 1;
    forall k | 0 <= k < n ensures Answers(ps[..n][k], c, buf, Run(s, ps[..n][..k], o).buffAddr) {
      assert ps[..n][..k] == ps[..k];
    }
  }

  lemma WriteTick(s: Dev, p: Pins, o: Options, c: int, base: nat, buf: seq<int>, n: nat)
    requires Started(s, c, base, o, true) && o.latency >= 1 && p.Shaped() && Awake(p) && Buffer(buf) && n + 1 < s.ackDelay + WORDS
    requires Answers(p, c, buf, WriteAt(s, o, c, base, buf, n).buffAddr)
    ensures Seekable(WriteAt(s, o, c, base, buf, n))
    ensures Call(WriteAt(s, o, c, base, buf, n), p, o) == WriteAt(s, o, c, base, buf, n + 1)
  {
    WriteInv(s, o, c, base, buf, n);
    WriteStep(s, p, o, c, base, buf, n);
    WriteInv(s, o, c, base, buf, n + 1);
    hide Visit, WriteAt;
    VisitsPast(WriteAt(s, o, c, base, buf, n), p, o, DISKS);
  }

  lemma {:induction false} WriteRun(s: Dev, ps: seq<Pins>, o: Options, c: int, base: nat, buf: seq<int>)
    requires Started(s, c, base, o, true) && o.latency >= 1 && Live(ps) && Buffer(buf) && |ps| < s.ackDelay + WORDS
    requires Synchronous(s, ps, o, c, buf)
    ensures Run(s, ps, o) == WriteAt(s, o, c, base, buf, |ps|)
  {
    hide Synchronous, Answers, Call;
    if ps != [] {
      var n, p := |ps| - 1, ps[|ps| - 1];
      SynchronousPrefix(s, ps, o, c, buf);
      WriteRun(s, ps[..n], o, c, base, buf);
      WriteTick(s, p, o, c, base, buf, n);
    }
  }

  lemma LastWriteTick(s: Dev, p: Pins, o: Options, c: int, base: nat, buf: seq<int>)
    requires Started(s, c, base, o, true) && o.latency >= 1 && p.Shaped() && Awake(p) && OneWay(p) && Buffer(buf)
    ensures Seekable(WriteAt(s, o, c, base, buf, s.ackDelay + 255)) && Seekable(WriteOver(s, o, c, base, buf)) && 0 <= c < DISKS
    ensures Call(WriteAt(s, o, c, base, buf, s.ackDelay + 255), p, o) == Passed(WriteOver(s, o, c, base, buf), p, o, c, DISKS)
  {
    WriteInv(s, o, c, base, buf, s.ackDelay + 255);
    WriteEnds(s, p, o, c, base, buf);
    hide Visit, WriteAt, WriteOver, Passed;
    EndingPasses(WriteAt(s, o, c, base, buf, s.ackDelay + 255), WriteOver(s, o, c, base, buf), p, o, DISKS);
  }

  /** A write burst ends after Delay + 256 ticks with the block of the image
      replaced by the target's buffer and nothing else on any disk changed; in
      the last of them the device has gone on to whatever is requested from
      index c upwards. The disks may request anything throughout. */
  lemma WriteBurst(s: Dev, ps: seq<Pins>, o: Options, c: int, base: nat, buf: seq<int>)
    requires Started(s, c, base, o, true) && o.latency >= 1 && Live(ps) && Buffer(buf)
    requires |ps| == Delay(o.latency) + WORDS && Synchronous(s, ps[..|ps| - 1], o, c, buf)
    ensures Inv(WriteOver(s, o, c, base, buf)) && !Busy(WriteOver(s, o, c, base, buf)) && 0 <= c < DISKS
    ensures Run(s, ps, o) == Passed(WriteOver(s, o, c, base, buf), ps[|ps| - 1], o, c, DISKS)
  {
    var n := |ps| - 1;
    WriteRun(s, ps[..n], o, c, base, buf);
    WriteEnds(s, ps[n], o, c, base, buf);
    hide WriteAt, WriteOver, Call, Passed, Synchronous, Answers;
    LastWriteTick(s, ps[n], o, c, base, buf);
  }

  // ---- mounts queued meanwhile wait -----------------------------------------------------

  function WithQueue(s: Dev, q: seq<bool>): Dev { s.(mountQueue := q) }

  /** The transfer goes on past this tick. */
  ghost predicate GoesOn(s: Dev, p: Pins, o: Options)
    requires Seekable(s) && p.Shaped()
  {
    0 <= s.current < DISKS && var t := Transfer(s, p, o, s.current); t.reading || t.writing
  }

  lemma QueuedVisit(s: Dev, q: seq<bool>, p: Pins, o: Options, i: int)
    requires Inv(s) && Busy(s) && p.Shaped() && 0 <= i < DISKS && |q| == DISKS && (i == s.current ==> GoesOn(s, p, o))
    ensures Seekable(WithQueue(s, q)) && Visit(WithQueue(s, q), p, o, i) == WithQueue(Visit(s, p, o, i), q)
  {
    var a, b := Transfer(s, p, o, i), Transfer(WithQueue(s, q), p, o, i);
    assert b == WithQueue(a, q);
    assert Mount(b, i) == b && Mount(a, i) == a;
    hide Transfer, Mount;
  }

  lemma GoingOnStays(s: Dev, p: Pins, o: Options)
    requires Inv(s) && Busy(s) && p.Shaped() && OneWay(p) && o.latency >= 1 && GoesOn(s, p, o)
    ensures var t := Visit(s, p, o, s.current); Inv(t) && t.current == s.current
  {
    VisitKeepsInv(s, p, o, s.current);
    hide Inv, Mount;
    MountLeaves(Transfer(s, p, o, s.current), s.current);
  }

  lemma MountLeaves(s: Dev, i: int)
    requires Seekable(s) && 0 <= i < DISKS
    ensures var t := Mount(s, i); t.current == s.current && t.reading == s.reading && t.writing == s.writing
  {
  }

  lemma {:induction false} QueuedVisits(s: Dev, q: seq<bool>, p: Pins, o: Options, n: nat)
    requires Inv(s) && Busy(s) && p.Shaped() && OneWay(p) && o.latency >= 1 && n <= DISKS && |q| == DISKS && GoesOn(s, p, o)
    ensures Seekable(WithQueue(s, q)) && Visits(WithQueue(s, q), p, o, n) == WithQueue(Visits(s, p, o, n), q)
  {
    hide Visit, GoesOn;
    if n > 0 {
      QueuedVisits(s, q, p, o, n - 1);
      if n - 1 <= s.current {
        VisitsUpTo(s, p, o, n - 1);
        QueuedVisit(s, q, p, o, n - 1);
      } else {
        GoingOnStays(s, p, o);
        VisitsPast(s, p, o, n - 1);
        QueuedVisit(Visit(s, p, o, s.current), q, p, o, n - 1);
      }
    }
  }

  /** It goes on past each of these ticks. */
  ghost predicate AllGoOn(s: Dev, ps: seq<Pins>, o: Options)
    requires Seekable(s) && PinsOk(ps)
  {
    forall n :: 0 <= n < |ps| ==> GoesOn(Run(s, ps[..n], o), ps[n], o)
  }

  lemma AllGoOnPrefix(s: Dev, ps: seq<Pins>, o: Options)
    requires Seekable(s) && PinsOk(ps) && ps != [] && AllGoOn(s, ps, o)
    ensures var n := |ps| - 1;
            PinsOk(ps[..n]) && AllGoOn(s, ps[..n], o) && ps[n].Shaped() && OneWay(ps[n]) && GoesOn(Run(s, ps[..n], o), ps[n], o)
  {
    hide GoesOn, Run;
    var n := |ps| - 1;
    forall k | 0 <= k < n ensures GoesOn(Run(s, ps[..n][..k], o), ps[..n][k], o) { assert ps[..n][..k] == ps[..k]; }
  }

  /** As long as a transfer goes on, the device does with any mounts queued what it does with none. */
  lemma {:induction false} QueueWaits(s: Dev, q: seq<bool>, ps: seq<Pins>, o: Options)
    requires Inv(s) && o.latency >= 1 && PinsOk(ps) && |q| == DISKS
    requires AllGoOn(s, ps, o)
    ensures Seekable(WithQueue(s, q)) && Run(WithQueue(s, q), ps, o) == WithQueue(Run(s, ps, o), q)
  {
    if ps != [] {
      var n := |ps| - 1;
      hide AllGoOn, GoesOn, Call, Inv;
      SeekableInv(s);
      AllGoOnPrefix(s, ps, o);
      QueueWaits(s, q, ps[..n], o);
      RunKeepsInv(s, ps[..n], o);
      LastQueued(Run(s, ps[..n], o), q, ps[n], o);
    }
  }

  lemma LastQueued(s: Dev, q: seq<bool>, p: Pins, o: Options)
    requires Inv(s) && o.latency >= 1 && p.Shaped() && OneWay(p) && |q| == DISKS && GoesOn(s, p, o)
    ensures Seekable(s) && Seekable(WithQueue(s, q)) && Call(WithQueue(s, q), p, o) == WithQueue(Call(s, p, o), q)
  {
    hide Visits;
    CallIs(s, p, o);
    CallIs(WithQueue(s, q), p, o);
    QueuedVisits(s, q, p, o, 10);
  }

  /** So mounts queued during a read leave every word of it in place, and none of them is taken up before it ends ... */
  lemma ReadUndisturbed(s: Dev, q: seq<bool>, ps: seq<Pins>, o: Options, c: int, base: nat)
    requires Started(s, c, base, o, false) && o.latency >= 1 && Live(ps) && |ps| <= Delay(o.latency) + 510 && |q| == DISKS
    ensures Seekable(WithQueue(s, q)) && Run(WithQueue(s, q), ps, o) == WithQueue(ReadAt(s, c, base, |ps|), q)
  {
    forall n | 0 <= n < |ps| ensures GoesOn(Run(s, ps[..n], o), ps[n], o) {
      ReadRun(s, ps[..n], o, c, base);
      ReadInv(s, c, base, o, n);
    }
    hide GoesOn, Visits;
    ReadRun(s, ps, o, c, base);
    QueueWaits(s, q, ps, o);
  }

  lemma WriteGoesOn(s: Dev, p: Pins, o: Options, c: int, base: nat, buf: seq<int>, n: nat)
    requires Started(s, c, base, o, true) && o.latency >= 1 && p.Shaped() && Buffer(buf) && n + 1 < s.ackDelay + WORDS
    ensures Seekable(WriteAt(s, o, c, base, buf, n)) && GoesOn(WriteAt(s, o, c, base, buf, n), p, o)
  {
    WriteInv(s, o, c, base, buf, n);
  }

  lemma StartedFacts(s: Dev, c: int, base: nat, o: Options, write: bool)
    requires Started(s, c, base, o, write)
    ensures Inv(s) && Seekable(s) && s.Shaped() && 0 <= c < DISKS && s.ackDelay == Delay(o.latency)
  {
  }

  lemma LivePrefix(ps: seq<Pins>, n: nat)
    requires Live(ps) && n < |ps|
    ensures Live(ps[..n]) && PinsOk(ps[..n]) && PinsOk(ps) && ps[n].Shaped() && OneWay(ps[n]) && Awake(ps[n])
    ensures forall k :: 0 <= k < n ==> ps[..n][k].Shaped()
  {
  }

  lemma WriteGoesOnAt(s: Dev, ps: seq<Pins>, o: Options, c: int, base: nat, buf: seq<int>, n: nat)
    requires Started(s, c, base, o, true) && o.latency >= 1 && Live(ps) && Buffer(buf) && |ps| < Delay(o.latency) + WORDS
    requires Synchronous(s, ps, o, c, buf) && n < |ps|
    ensures GoesOn(Run(s, ps[..n], o), ps[n], o)
  {
    hide *;
    StartedFacts(s, c, base, o, true);
    LivePrefix(ps, n);
    SynchronousUpTo(s, ps, o, c, buf, n);
    WriteRun(s, ps[..n], o, c, base, buf);
    WriteGoesOn(s, ps[n], o, c, base, buf, n);
  }

  lemma AllWritesGoOn(s: Dev, ps: seq<Pins>, o: Options, c: int, base: nat, buf: seq<int>)
    requires Started(s, c, base, o, true) && o.latency >= 1 && Live(ps) && Buffer(buf) && |ps| < Delay(o.latency) + WORDS
    requires Synchronous(s, ps, o, c, buf)
    ensures AllGoOn(s, ps, o)
  {
    assert Seekable(s) && PinsOk(ps);
    hide GoesOn, Synchronous, Run, Buffer, Seekable, Started;
    forall n | 0 <= n < |ps| ensures GoesOn(Run(s, ps[..n], o), ps[n], o) {
      WriteGoesOnAt(s, ps, o, c, base, buf, n);
    }
  }

  /** ... and likewise for a write. */
  lemma WriteUndisturbed(s: Dev, q: seq<bool>, ps: seq<Pins>, o: Options, c: int, base: nat, buf: seq<int>)
    requires Started(s, c, base, o, true) && o.latency >= 1 && Live(ps) && Buffer(buf) && |ps| < Delay(o.latency) + WORDS && |q| == DISKS
    requires Synchronous(s, ps, o, c, buf)
    ensures Seekable(WithQueue(s, q)) && Run(WithQueue(s, q), ps, o) == WithQueue(WriteAt(s, o, c, base, buf, |ps|), q)
  {
    hide GoesOn, Synchronous, WriteAt, Run, Buffer, AllGoOn;
    AllWritesGoOn(s, ps, o, c, base, buf);
    WriteRun(s, ps, o, c, base, buf);
    QueueWaits(s, q, ps, o);
  }

  lemma SynchronousUpTo(s: Dev, ps: seq<Pins>, o: Options, c: int, buf: seq<int>, n: nat)
    requires Seekable(s) && PinsOk(ps) && 0 <= c < DISKS && Buffer(buf) && n <= |ps| && Synchronous(s, ps, o, c, buf)
    ensures Synchronous(s, ps[..n], o, c, buf)
  {
    hide Run, Answers;
    forall k | 0 <= k < n ensures Answers(ps[..n][k], c, buf, Run(s, ps[..n][..k], o).buffAddr) {
      assert ps[..n][..k] == ps[..k];
    }
  }

  // ---- what was written is what is read -----------------------------------------------

  /** Byte q of the image after k words. */
  lemma {:induction false} WrittenByte(content: seq<byte>, base: nat, buf: seq<int>, k: nat, q: nat)
    requires Buffer(buf) && k <= WORDS
    ensures var r := Written(content, base, buf, k);
            && |r| == (if k > 0 && base + 2 * k > |content| then base + 2 * k else |content|)
            && (q < |r| ==> r[q] == if base <= q < base + 2 * k then (if (q - base) % 2 == 0 then buf[(q - base) / 2] / 256 else buf[(q - base) / 2] % 256)
                                    else if q < |content| then content[q] else 0)
  {
    if k > 0 {
      WrittenByte(content, base, buf, k - 1, q);
    }
  }

  /** A later read of the block returns the buffer that was written. */
  lemma WriteThenRead(content: seq<byte>, base: nat, buf: seq<int>, j: nat)
    requires Buffer(buf) && j < WORDS
    ensures WordAt(Written(content, base, buf, WORDS), base + 2 * j) == buf[j]
  {
    WrittenByte(content, base, buf, WORDS, base + 2 * j);
    WrittenByte(content, base, buf, WORDS, base + 2 * j + 1);
  }

  /** Bytes outside the block are untouched; a gap past the old end reads zero. */
  lemma WriteIsLocal(content: seq<byte>, base: nat, buf: seq<int>, q: nat)
    requires Buffer(buf) && !(base <= q < base + BLOCK)
    ensures var r := Written(content, base, buf, WORDS);
            |r| >= |content| && (q < |content| ==> r[q] == content[q]) && (|content| <= q < |r| ==> r[q] == 0)
  {
    WrittenByte(content, base, buf, WORDS, q);
  }

  /** The device is not in the middle of writing disk c. */
  ghost predicate NotWriting(s: Dev, c: int) { !(s.writing && s.current == c) }

  ghost predicate Keeps(s: Dev, t: Dev, c: int)
    requires s.Shaped() && t.Shaped() && 0 <= c < DISKS
  {
    t.disks[c].content == s.disks[c].content && NotWriting(t, c)
  }

  /** A disk's content changes only through its own writes. */
  lemma VisitKeeps(s: Dev, p: Pins, o: Options, i: int, c: int)
    requires Inv(s) && p.Shaped() && 0 <= i < DISKS && 0 <= c < DISKS && NotWriting(s, c) && c !in p.wr
    ensures Keeps(s, Visit(s, p, o, i), c)
  {
    var t := Mount(Transfer(s, p, o, i), i);
    assert t.disks[c].content == s.disks[c].content && NotWriting(t, c);
    hide Transfer, Mount;
  }

  lemma {:induction false} VisitsKeep(s: Dev, p: Pins, o: Options, n: nat, c: int)
    requires Inv(s) && p.Shaped() && OneWay(p) && o.latency >= 1 && n <= DISKS && 0 <= c < DISKS && NotWriting(s, c) && c !in p.wr
    ensures Keeps(s, Visits(s, p, o, n), c)
  {
    hide Visit;
    if n > 0 {
      VisitsKeep(s, p, o, n - 1, c);
      VisitsKeepInv(s, p, o, n - 1);
      VisitKeeps(Visits(s, p, o, n - 1), p, o, n - 1, c);
    }
  }

  lemma {:induction false} RunKeeps(s: Dev, ps: seq<Pins>, o: Options, c: int)
    requires Inv(s) && PinsOk(ps) && o.latency >= 1 && 0 <= c < DISKS && NotWriting(s, c)
    requires forall k :: 0 <= k < |ps| ==> c !in ps[k].wr
    ensures Inv(Run(s, ps, o)) && Keeps(s, Run(s, ps, o), c)
  {
    hide Visits;
    if ps != [] {
      var n := |ps| - 1;
      RunKeeps(s, ps[..n], o, c);
      RunKeepsInv(s, ps, o);
      VisitsKeep(Run(s, ps[..n], o), ps[n], o, DISKS, c);
    }
  }

  /** What a write burst leaves on the disks: the written block, or nothing new
      when the image is read-only or writes are ignored; the other disks as they
      were. The device writes no more unless the disk asks again in the last tick. */
  lemma WriteLeaves(s: Dev, ps: seq<Pins>, o: Options, c: int, base: nat, buf: seq<int>)
    requires Started(s, c, base, o, true) && o.latency >= 1 && Live(ps) && Buffer(buf)
    requires |ps| == Delay(o.latency) + WORDS && Synchronous(s, ps[..|ps| - 1], o, c, buf)
    ensures Inv(Run(s, ps, o)) && (c !in ps[|ps| - 1].wr ==> NotWriting(Run(s, ps, o), c))
    ensures forall k :: 0 <= k < DISKS ==>
              Run(s, ps, o).disks[k].content
              == if k == c && s.disks[c].writable && !o.ignoreWrites then Written(s.disks[c].content, base, buf, WORDS)
                 else s.disks[k].content
  {
    WriteBurst(s, ps, o, c, base, buf);
    hide Visit, Synchronous, Run, Passed, Written;
    PassedStarts(WriteOver(s, o, c, base, buf), ps[|ps| - 1], o, c);
  }

  lemma PinsShaped(ps: seq<Pins>)
    requires PinsOk(ps)
    ensures forall k :: 0 <= k < |ps| ==> ps[k].Shaped()
  {
  }

  lemma LivePins(ps: seq<Pins>)
    requires Live(ps)
    ensures PinsOk(ps)
  {
  }

  lemma SeekableInv(s: Dev)
    requires Inv(s)
    ensures Seekable(s) && s.Shaped() && |s.disks| == DISKS
  {
  }

  lemma KeptContent(s: Dev, t: Dev, c: int)
    requires s.Shaped() && t.Shaped() && 0 <= c < DISKS && |s.disks| == |t.disks| == DISKS && Keeps(s, t, c)
    ensures t.disks[c].content == s.disks[c].content
  {
  }

  /** From the request of a write to the end of its burst. */
  lemma WritePhase(s: Dev, p: Pins, ws: seq<Pins>, o: Options, c: int, buf: seq<int>)
    requires Inv(s) && !Busy(s) && o.latency >= 1 && Buffer(buf) && 0 <= c < DISKS && Writes(s, o, c)
    requires p.Shaped() && Awake(p) && OneWay(p) && Lowest(p, 0) == c && c in p.wr && |p.lba| == DISKS
    requires Live(ws) && |ws| == Delay(o.latency) + WORDS && c !in ws[|ws| - 1].wr
    requires Synchronous(Call(s, p, o), ws[..|ws| - 1], o, c, buf)
    ensures var t := Run(Call(s, p, o), ws, o);
            && Inv(t) && NotWriting(t, c) && |t.disks| == DISKS
            && t.disks[c].content == Written(s.disks[c].content, p.lba[c] * BLOCK, buf, WORDS)
  {
    hide Call, Run, Lowest, Written, Synchronous;
    RequestTick(s, p, o);
    WriteLeaves(Call(s, p, o), ws, o, c, p.lba[c] * BLOCK, buf);
  }

  /** From the request of a read to the end of its burst. */
  lemma ReadPhase(s: Dev, p: Pins, rs: seq<Pins>, o: Options, c: int, content: seq<byte>, buf: seq<int>)
    requires Inv(s) && !Busy(s) && o.latency >= 1 && Buffer(buf) && 0 <= c < DISKS && |s.disks| == DISKS
    requires p.Shaped() && Awake(p) && OneWay(p) && Lowest(p, 0) == c && c in p.rd && |p.lba| == DISKS
    requires s.disks[c].content == Written(content, p.lba[c] * BLOCK, buf, WORDS)
    requires Live(rs) && |rs| == Delay(o.latency) + 511
    ensures Presents(Call(s, p, o), rs, o, c, buf)
  {
    hide Call, Run, Lowest, Presents, Written;
    RequestTick(s, p, o);
    ReadNotWritten(p, c);
    ReadsBack(content, Call(s, p, o), rs, o, c, p.lba[c] * BLOCK, buf);
  }

  /** End to end: an idle device takes up a write of disk c, and some time later,
      idle again, a read of the same block. Whatever the latency, whatever the
      other disks ask at any time, and whatever reads happen in between, the
      words presented are the target's buffer. */
  lemma WriteThenReadRun(s: Dev, pw: Pins, ws: seq<Pins>, s2: Dev, between: seq<Pins>, s3: Dev, pr: Pins, rs: seq<Pins>, o: Options, c: int, buf: seq<int>)
    requires Inv(s) && !Busy(s) && o.latency >= 1 && Buffer(buf) && 0 <= c < DISKS && Writes(s, o, c)
    requires pw.Shaped() && Awake(pw) && OneWay(pw) && Lowest(pw, 0) == c && c in pw.wr && |pw.lba| == DISKS
    requires Live(ws) && |ws| == Delay(o.latency) + WORDS && c !in ws[|ws| - 1].wr
    requires Synchronous(Call(s, pw, o), ws[..|ws| - 1], o, c, buf)
    requires s2 == Run(Call(s, pw, o), ws, o)
    requires PinsOk(between) && (forall k :: 0 <= k < |between| ==> c !in between[k].wr)
    requires Seekable(s2) && s3 == Run(s2, between, o) && !Busy(s3)
    requires pr.Shaped() && Awake(pr) && OneWay(pr) && Lowest(pr, 0) == c && c in pr.rd && |pr.lba| == DISKS && pr.lba[c] == pw.lba[c]
    requires Live(rs) && |rs| == Delay(o.latency) + 511
    ensures Seekable(s3) && Presents(Call(s3, pr, o), rs, o, c, buf)
  {
    hide *;
    SeekableInv(s);
    LivePins(ws);
    PinsShaped(ws);
    PinsShaped(between);
    WritePhase(s, pw, ws, o, c, buf);
    SeekableInv(s2);
    RunKeeps(s2, between, o, c);
    SeekableInv(s3);
    KeptContent(s2, s3, c);
    ReadPhase(s3, pr, rs, o, c, s.disks[c].content, buf);
  }

  lemma ReadNotWritten(p: Pins, c: int)
    requires OneWay(p) && c in p.rd
    ensures c !in p.wr
  {
  }

  lemma ReadsBack(content: seq<byte>, s: Dev, rs: seq<Pins>, o: Options, c: int, base: nat, buf: seq<int>)
    requires Started(s, c, base, o, false) && o.latency >= 1 && Buffer(buf)
    requires s.disks[c].content == Written(content, base, buf, WORDS)
    requires Live(rs) && |rs| == Delay(o.latency) + 511
    ensures Presents(s, rs, o, c, buf)
  {
    hide Presents, Written;
    AllWordsPresented(s, rs, o, c, base);
    forall j | 0 <= j < WORDS ensures BlockWords(s.disks[c].content, base)[j] == buf[j] {
      WriteThenRead(content, base, buf, j);
    }
    assert BlockWords(s.disks[c].content, base) == buf;
  }
}
