/** What every visit keeps once mounts have settled, and exact read and write bursts. */
module BlockProtocol {
  import opened BlockDevice

  /** No mount is announced or queued. */
  ghost predicate Settled(s: Dev) {
    s.Shaped() && s.imgMounted == {} && forall k :: 0 <= k < DISKS ==> !s.mountQueue[k]
  }

  /** The target never asks one disk for both directions at once. */
  ghost predicate OneWay(p: Pins) { p.rd !! p.wr }

  ghost predicate Busy(s: Dev) { s.current != -1 }

  ghost predicate Inv(s: Dev) {
    && Seekable(s) && Settled(s)
    && (if Busy(s)
        then 0 <= s.current < 8 && s.reading != s.writing && s.ackDelay >= 1 && s.sdAck <= {s.current}
        else s.current == -1 && !s.reading && !s.writing && s.ackDelay == 0 && s.sdAck == {})
    && s.bytecnt % 2 == 0 && 0 <= s.bytecnt <= BLOCK
    && (s.writing ==> s.buffAddr == if s.bytecnt < BLOCK then s.bytecnt / 2 else 0)
    && (s.buffWr ==> s.reading && s.bytecnt > 0 && s.buffAddr == s.bytecnt / 2 - 1)
  }

  lemma FreshInv()
    ensures Inv(Fresh())
  {
  }

  /** Every disk index of every tick keeps the invariant, whatever is requested. */
  lemma VisitKeepsInv(s: Dev, p: Pins, o: Options, i: int)
    requires Inv(s) && p.Shaped() && OneWay(p) && o.latency >= 1 && 0 <= i < DISKS
    ensures Inv(Visit(s, p, o, i))
  {
    var a := Transfer(s, p, o, i);
    var b := Mount(a, i);
    var c := Accept(b, p, o, i);
    TransferStep(s, p, o, i);
    MountSettled(a, i);
    AcceptStep(b, p, o, i);
  }

  /** Between the phases of a visit: as Inv, except that a transfer may have
      just ended while its delay still reads 1. */
  ghost predicate Mid(s: Dev, i: int) {
    && Seekable(s) && Settled(s)
    && (if Busy(s)
        then && 0 <= s.current < 8 && s.sdAck <= {s.current}
             && ((s.reading != s.writing && s.ackDelay >= 1) || (s.current == i && !s.reading && !s.writing && 0 <= s.ackDelay <= 1))
        else s.current == -1 && !s.reading && !s.writing && s.ackDelay == 0 && s.sdAck == {})
    && s.bytecnt % 2 == 0 && 0 <= s.bytecnt <= BLOCK
    && (s.writing ==> s.buffAddr == if s.bytecnt < BLOCK then s.bytecnt / 2 else 0)
    && (s.buffWr ==> s.reading && s.bytecnt > 0 && s.buffAddr == s.bytecnt / 2 - 1)
  }

  lemma TransferStep(s: Dev, p: Pins, o: Options, i: int)
    requires Inv(s) && p.Shaped() && 0 <= i < DISKS
    ensures Mid(Transfer(s, p, o, i), i)
  {
  }

  lemma MountSettled(s: Dev, i: int)
    requires Mid(s, i) && 0 <= i < DISKS
    ensures Mid(Mount(s, i), i) && CountedOut(Mount(s, i))
  {
  }

  /** A transfer that has ended has no delay left. */
  ghost predicate CountedOut(s: Dev) { !s.reading && !s.writing ==> s.ackDelay == 0 }

  lemma AcceptStep(s: Dev, p: Pins, o: Options, i: int)
    requires Mid(s, i) && CountedOut(s) && p.Shaped() && OneWay(p) && o.latency >= 1 && 0 <= i < DISKS
    ensures Inv(Finish(Accept(s, p, o, i), i))
  {
    var t := Accept(s, p, o, i);
    assert i in p.rd || i in p.wr ==> i in p.rd + p.wr;
    assert t.current == i ==> t.sdAck - {i} == {};
  }

  lemma {:induction false} VisitsKeepInv(s: Dev, p: Pins, o: Options, n: nat)
    requires Inv(s) && p.Shaped() && OneWay(p) && o.latency >= 1 && n <= DISKS
    ensures Inv(Visits(s, p, o, n))
  {
    if n > 0 {
      VisitsKeepInv(s, p, o, n - 1);
      VisitKeepsInv(Visits(s, p, o, n - 1), p, o, n - 1);
    }
  }

  // ---- when the device works at all --------------------------------------------------

  /** The boot wait is over and the 32-bit time is not negative. */
  predicate Awake(p: Pins) { 2000 <= p.time % 0x1_0000_0000 < 0x8000_0000 }

  /** A call visits all ten indices, in ascending order, exactly when the device is awake. */
  lemma CallIs(s: Dev, p: Pins, o: Options)
    requires Seekable(s) && p.Shaped()
    ensures Call(s, p, o) == if Awake(p) then Visits(s, p, o, 10) else s
  {
  }

  /** A whole run: any number of ticks, at any times, under any requests of any disks. */
  function Run(s: Dev, ps: seq<Pins>, o: Options): (r: Dev)
    requires Seekable(s) && forall k :: 0 <= k < |ps| ==> ps[k].Shaped()
    ensures Seekable(r)
  {
    if ps == [] then s else Call(Run(s, ps[..|ps| - 1], o), ps[|ps| - 1], o)
  }

  lemma {:induction false} RunAppend(s: Dev, a: seq<Pins>, b: seq<Pins>, o: Options)
    requires Seekable(s) && forall k :: 0 <= k < |a + b| ==> (a + b)[k].Shaped()
    ensures forall k :: 0 <= k < |a| ==> a[k] == (a + b)[k]
    ensures forall k :: 0 <= k < |b| ==> b[k] == (a + b)[|a| + k]
    ensures Run(s, a + b, o) == Run(Run(s, a, o), b, o)
    decreases |b|
  {
    if b == [] {
      assert a + b == a;
    } else {
      hide Call, Seekable;
      var n := |b| - 1;
      assert (a + b)[..|a + b| - 1] == a + b[..n];
      assert forall k :: 0 <= k < |a + b[..n]| ==> (a + b[..n])[k] == (a + b)[k];
      RunAppend(s, a, b[..n], o);
    }
  }

  ghost predicate AllAwake(ps: seq<Pins>) { forall k :: 0 <= k < |ps| ==> Awake(ps[k]) }

  /** Ticks at consecutive times from `from` on. */
  ghost predicate ConsecutiveFrom(ps: seq<Pins>, from: nat) { forall k :: 0 <= k < |ps| ==> ps[k].time == from + k }

  /** Consecutive ticks from the boot time on are all awake until the 31-bit time runs out. */
  lemma AwakeFrom(ps: seq<Pins>, from: nat)
    requires ConsecutiveFrom(ps, from) && 2000 <= from && from + |ps| <= 0x8000_0000
    ensures AllAwake(ps)
  {
  }

  ghost predicate NoneAwake(ps: seq<Pins>) { forall k :: 0 <= k < |ps| ==> !Awake(ps[k]) }

  lemma {:induction false} AsleepRun(s: Dev, ps: seq<Pins>, o: Options)
    requires Seekable(s) && (forall k :: 0 <= k < |ps| ==> ps[k].Shaped()) && NoneAwake(ps)
    ensures Run(s, ps, o) == s
  {
    if ps != [] {
      AsleepRun(s, ps[..|ps| - 1], o);
      CallIs(s, ps[|ps| - 1], o);
    }
  }

  /** Safety over whole runs: a busy device has exactly one direction and a
      live delay, an idle one none; acks belong to the current disk. */
  lemma {:induction false} RunKeepsInv(s: Dev, ps: seq<Pins>, o: Options)
    requires Inv(s) && o.latency >= 1
    requires forall k :: 0 <= k < |ps| ==> ps[k].Shaped() && OneWay(ps[k])
    ensures Inv(Run(s, ps, o))
  {
    if ps != [] {
      RunKeepsInv(s, ps[..|ps| - 1], o);
      VisitsKeepInv(Run(s, ps[..|ps| - 1], o), ps[|ps| - 1], o, DISKS);
      CallIs(Run(s, ps[..|ps| - 1], o), ps[|ps| - 1], o);
    }
  }
}
