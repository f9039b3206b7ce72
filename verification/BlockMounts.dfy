/** Queued mounts while nothing is requested, one index visit at a time. */
module BlockMounts {
  import opened Basics
  import opened BlockDevice
  import opened BlockProtocol

  /** No transfer, no request taken up. */
  ghost predicate Ready(s: Dev) {
    && Seekable(s) && s.current == -1 && !s.reading && !s.writing && !s.buffWr && s.sdAck == {}
    && s.bytecnt % 2 == 0 && 0 <= s.bytecnt <= BLOCK && s.ackDelay >= 0
  }

  /** ... and no announcement under way. */
  ghost predicate Resting(s: Dev) {
    Ready(s) && s.imgMounted == {}
  }

  /** img_mounted is eight bits wide: only these disks have a pin. */
  const PINS := 8

  /** The index k visits after index `start`. */
  function At(start: nat, k: nat): (i: nat)
    ensures i < DISKS
  {
    (start + k) % DISKS
  }

  lemma AtComposes(start: nat, a: nat, b: nat)
    ensures At(At(start, a), b) == At(start, a + b)
  {
  }

  /** n visits from index `start` on, when nothing is requested. */
  function MountRun(s: Dev, start: nat, n: nat): (r: Dev)
    requires Seekable(s)
    ensures Seekable(r)
  {
    if n == 0 then s else Mount(MountRun(s, start, n - 1), At(start, n - 1))
  }

  /** What the core sees when an img_mounted bit goes up. */
  datatype Notice = Notice(bits: set<int>, size: int)

  function Raised(s: Dev, t: Dev): seq<Notice> {
    if s.imgMounted == {} && t.imgMounted != {} then [Notice(t.imgMounted, t.imgSize)] else []
  }

  function Notices(s: Dev, start: nat, n: nat): seq<Notice>
    requires Seekable(s)
  {
    if n == 0 then [] else Notices(s, start, n - 1) + Raised(MountRun(s, start, n - 1), MountRun(s, start, n))
  }

  lemma {:induction false} RunSplits(s: Dev, start: nat, a: nat, b: nat)
    requires Seekable(s)
    ensures MountRun(s, start, a + b) == MountRun(MountRun(s, start, a), At(start, a), b)
    ensures Notices(s, start, a + b) == Notices(s, start, a) + Notices(MountRun(s, start, a), At(start, a), b)
  {
    hide Mount, Raised, At;
    if b > 0 {
      RunSplits(s, start, a, b - 1);
      assert a + b - 1 == a + (b - 1);
      AtComposes(start, a, b - 1);
    }
  }

  // ---- a visit without requests is a mount step --------------------------------------

  lemma QuietVisit(s: Dev, p: Pins, o: Options, i: int)
    requires Ready(s) && p.Shaped() && p.rd == {} && p.wr == {} && 0 <= i < DISKS
    ensures Visit(s, p, o, i) == Mount(s, i) && Ready(Mount(s, i))
  {
  }

  lemma {:induction false} MountRunReady(s: Dev, start: nat, n: nat)
    requires Ready(s)
    ensures Ready(MountRun(s, start, n))
  {
    if n > 0 {
      MountRunReady(s, start, n - 1);
    }
  }

  lemma {:induction false} QuietVisits(s: Dev, p: Pins, o: Options, n: nat)
    requires Ready(s) && p.Shaped() && p.rd == {} && p.wr == {} && n <= DISKS
    ensures Visits(s, p, o, n) == MountRun(s, 0, n)
  {
    assert Seekable(s);
    if n > 0 {
      assert At(0, n - 1) == n - 1;
      hide Visit, Mount, Ready, Seekable, At;
      QuietVisits(s, p, o, n - 1);
      MountRunReady(s, 0, n - 1);
      QuietVisit(MountRun(s, 0, n - 1), p, o, n - 1);
    }
  }

  lemma QuietTick(s: Dev, p: Pins, o: Options)
    requires Ready(s) && p.Shaped() && Awake(p) && p.rd == {} && p.wr == {}
    ensures Call(s, p, o) == MountRun(s, 0, DISKS)
  {
    hide Visits, MountRun;
    CallIs(s, p, o);
    QuietVisits(s, p, o, DISKS);
  }

  ghost predicate QuietPins(ps: seq<Pins>) {
    forall k :: 0 <= k < |ps| ==> ps[k].Shaped() && Awake(ps[k]) && ps[k].rd == {} && ps[k].wr == {}
  }

  lemma TenMore(s: Dev, m: nat, p: Pins, o: Options)
    requires Ready(s) && m % DISKS == 0 && p.Shaped() && Awake(p) && p.rd == {} && p.wr == {}
    ensures Seekable(s) && Call(MountRun(s, 0, m), p, o) == MountRun(s, 0, m + DISKS)
  {
    MountRunReady(s, 0, m);
    QuietTick(MountRun(s, 0, m), p, o);
    RunSplits(s, 0, m, DISKS);
    assert At(0, m) == 0;
  }

  lemma QuietPrefix(ps: seq<Pins>)
    requires QuietPins(ps) && ps != []
    ensures var n := |ps| - 1; QuietPins(ps[..n]) && ps[n].Shaped() && Awake(ps[n]) && ps[n].rd == {} && ps[n].wr == {}
    ensures DISKS * (|ps| - 1) % DISKS == 0 && DISKS * (|ps| - 1) + DISKS == DISKS * |ps| && DISKS * (|ps| - 1) >= 0
  {
  }

  lemma QuietShaped(ps: seq<Pins>)
    requires QuietPins(ps)
    ensures forall k :: 0 <= k < |ps| ==> ps[k].Shaped()
  {
  }

  lemma RunStep(s: Dev, ps: seq<Pins>, o: Options)
    requires Seekable(s) && QuietPins(ps) && ps != []
    ensures QuietPins(ps[..|ps| - 1]) && Run(s, ps, o) == Call(Run(s, ps[..|ps| - 1], o), ps[|ps| - 1], o)
  {
    hide Call;
  }

  lemma RunNothing(s: Dev, o: Options)
    requires Seekable(s)
    ensures Run(s, [], o) == s == MountRun(s, 0, DISKS * 0)
  {
  }

  lemma ReadySeekable(s: Dev)
    requires Ready(s)
    ensures Seekable(s)
  {
  }

  /** Ticks without requests are ten mount steps each. */
  lemma {:induction false} QuietRun(s: Dev, ps: seq<Pins>, o: Options)
    requires Ready(s) && QuietPins(ps)
    ensures Seekable(s) && DISKS * |ps| >= 0 && Run(s, ps, o) == MountRun(s, 0, DISKS * |ps|)
    decreases |ps|
  {
    hide *;
    ReadySeekable(s);
    QuietShaped(ps);
    if ps == [] {
      RunNothing(s, o);
    } else {
      var n := |ps| - 1;
      QuietPrefix(ps);
      QuietShaped(ps[..n]);
      RunStep(s, ps, o);
      QuietRun(s, ps[..n], o);
      TenMore(s, DISKS * n, ps[n], o);
    }
  }

  // ---- one announcement ---------------------------------------------------------------

  /** Visits until a queued disk is reached, counting from index `start + e`. */
  function Gap(q: seq<bool>, start: nat, e: nat): (g: nat)
    requires |q| == DISKS && e <= DISKS
    ensures e <= g <= DISKS
    ensures g < DISKS ==> q[At(start, g)]
    ensures forall k :: e <= k < g ==> !q[At(start, k)]
    decreases DISKS - e
  {
    if e == DISKS || q[At(start, e)] then e else Gap(q, start, e + 1)
  }

  type Index = k: nat | k < DISKS

  function Queued(q: seq<bool>): set<Index>
    requires |q| == DISKS
  {
    set k: Index | k < DISKS && q[k]
  }

  lemma GapFinds(q: seq<bool>, start: nat, k: nat)
    requires |q| == DISKS && k < DISKS && q[k]
    ensures Gap(q, start, 0) < DISKS
  {
    var e := (k + DISKS - start % DISKS) % DISKS;
    ReachesIndex(start, k);
    assert q[At(start, e)];
  }

  lemma ModUnique(x: nat, d: nat, k: nat)
    requires x == DISKS * d + k && k < DISKS
    ensures x % DISKS == k
  {
  }

  lemma ReachesIndex(start: nat, k: nat)
    requires k < DISKS
    ensures At(start, (k + DISKS - start % DISKS) % DISKS) == k
  {
    var r := start % DISKS;
    assert start == DISKS * (start / DISKS) + r;
    var e := (k + DISKS - r) % DISKS;
    assert e == if k >= r then k - r else k + DISKS - r;
    if k >= r {
      ModUnique(start + e, start / DISKS, k);
    } else {
      ModUnique(start + e, start / DISKS + 1, k);
    }
  }

  lemma SomeGap(q: seq<bool>, start: nat)
    requires |q| == DISKS && Queued(q) != {}
    ensures Gap(q, start, 0) < DISKS
  {
    var k :| k in Queued(q);
    GapFinds(q, start, k);
  }

  /** The queued disk reached first from index `start`. */
  function Next(q: seq<bool>, start: nat): (j: Index)
    requires |q| == DISKS && Queued(q) != {}
    ensures j in Queued(q) && Gap(q, start, 0) < DISKS && j == At(start, Gap(q, start, 0))
  {
    SomeGap(q, start);
    At(start, Gap(q, start, 0))
  }

  /** The queue without disk j. */
  function Without(q: seq<bool>, j: Index): (r: seq<bool>)
    requires |q| == DISKS && j in Queued(q)
    ensures |r| == DISKS && Queued(r) == Queued(q) - {j}
  {
    q[j := false]
  }

  function Waited(s: Dev, n: nat): Dev { s.(ackDelay := if s.ackDelay > n then s.ackDelay - n else 0) }

  /** While no queued disk is visited the delay only drains. */
  lemma {:induction false} Waits(s: Dev, start: nat, n: nat)
    requires Ready(s) && s.imgMounted == {}
    requires forall k :: 0 <= k < n ==> !s.mountQueue[At(start, k)]
    ensures MountRun(s, start, n) == Waited(s, n) && Notices(s, start, n) == []
  {
    if n > 0 {
      hide At;
      Waits(s, start, n - 1);
      var t := Waited(s, n - 1);
      assert !s.mountQueue[At(start, n - 1)];
      assert Mount(t, At(start, n - 1)) == Waited(s, n);
    }
  }

  /** Disk j announced, k visits ago. */
  function Announcing(s: Dev, j: nat, k: nat): Dev
    requires Seekable(s) && j < PINS
  {
    s.(mountQueue := s.mountQueue[j := false], imgSize := s.disks[j].size, imgReadonly := true,
       disks := s.disks[j := s.disks[j].(pos := 0)], imgMounted := {j}, ackDelay := MOUNT_TICKS - k)
  }

  /** The device once disk j's announcement is over. */
  function Announced(s: Dev, j: nat): (t: Dev)
    requires Seekable(s) && j < PINS
    ensures Seekable(t)
  {
    Announcing(s, j, MOUNT_TICKS - 1).(imgMounted := {})
  }

  lemma {:induction false} Counting(s: Dev, j: nat, k: nat)
    requires Resting(s) && j < PINS && s.mountQueue[j] && k < MOUNT_TICKS
    ensures MountRun(s, j, 1 + k) == Announcing(s, j, k)
    ensures Notices(s, j, 1 + k) == [Notice({j}, s.disks[j].size)]
  {
    if k == 0 {
      assert MountRun(s, j, 0) == s && Notices(s, j, 0) == [] && At(j, 0) == j;
      assert {} + {j} == {j};
    } else {
      Counting(s, j, k - 1);
    }
  }

  /** The pins on every visit of an announcement, k visits in: the disk's bit
      alone, its own size, read-only; the other queued disks still wait. */
  lemma AnnouncementPins(s: Dev, j: nat, k: nat)
    requires Resting(s) && j < PINS && s.mountQueue[j] && k < 1200
    ensures var t := MountRun(s, j, 1 + k);
            && t.imgMounted == {j} && t.imgSize == s.disks[j].size && t.imgReadonly && t.ackDelay == 1200 - k
            && t.mountQueue == s.mountQueue[j := false]
            && forall i :: 0 <= i < DISKS ==> t.disks[i] == if i == j then s.disks[i].(pos := 0) else s.disks[i]
  {
    Counting(s, j, k);
    hide MountRun;
  }

  /** The bit of the disk under the visit is raised alone with its own size, the
      pins stay as they are for 1199 further visits whatever else is queued, and
      the 1200th, which is the same index again, takes the bit down. */
  lemma Announces(s: Dev, j: nat)
    requires Resting(s) && j < PINS && s.mountQueue[j]
    ensures forall k :: 0 <= k < MOUNT_TICKS ==> MountRun(s, j, 1 + k) == Announcing(s, j, k)
    ensures (j + MOUNT_TICKS) % DISKS == j
    ensures MountRun(s, j, 1 + MOUNT_TICKS) == Announced(s, j)
    ensures Notices(s, j, 1 + MOUNT_TICKS) == [Notice({j}, s.disks[j].size)]
  {
    forall k | 0 <= k < MOUNT_TICKS ensures MountRun(s, j, 1 + k) == Announcing(s, j, k) {
      Counting(s, j, k);
    }
    Counting(s, j, MOUNT_TICKS - 1);
    var t := Announcing(s, j, MOUNT_TICKS - 1);
    assert At(j, MOUNT_TICKS) == j;
    assert Mount(t, j) == t.(imgMounted := {j} - {j});
    assert {j} - {j} == {};
  }

  /** A disk without a pin is taken off the queue in one visit: nothing is raised. */
  function Dropped(s: Dev, j: nat): (t: Dev)
    requires Seekable(s) && j < DISKS
    ensures Seekable(t)
  {
    s.(mountQueue := s.mountQueue[j := false], imgSize := s.disks[j].size, imgReadonly := true,
       disks := s.disks[j := s.disks[j].(pos := 0)], ackDelay := MOUNT_TICKS)
  }

  lemma Drops(s: Dev, j: nat)
    requires Resting(s) && PINS <= j < DISKS && s.mountQueue[j]
    ensures MountRun(s, j, 1) == Dropped(s, j) && Notices(s, j, 1) == []
  {
    assert At(j, 0) == j;
    assert MountRun(s, j, 0) == s && Notices(s, j, 0) == [];
  }

  /** Visits spent on a queued disk once it is reached. */
  function Span(j: nat): nat { if j < PINS then 1 + MOUNT_TICKS else 1 }

  /** The device afterwards, and what the core has seen. */
  function Handled(s: Dev, j: nat): (t: Dev)
    requires Seekable(s) && j < DISKS
    ensures Seekable(t)
  {
    if j < PINS then Announced(s, j) else Dropped(s, j)
  }

  function Shown(s: Dev, j: nat): seq<Notice>
    requires s.Shaped() && j < DISKS
  {
    if j < PINS then [Notice({j}, s.disks[j].size)] else []
  }

  lemma Handles(s: Dev, j: nat)
    requires Resting(s) && j < DISKS && s.mountQueue[j]
    ensures MountRun(s, j, Span(j)) == Handled(s, j) && Notices(s, j, Span(j)) == Shown(s, j)
  {
    hide MountRun, Notices, Announced, Announcing, Dropped;
    if j < PINS {
      Announces(s, j);
    } else {
      Drops(s, j);
    }
  }

  // ---- the whole queue ------------------------------------------------------------------

  /** The cyclic order in which queued disks are reached. */
  function Order(q: seq<bool>, start: nat): seq<Index>
    requires |q| == DISKS
    decreases |Queued(q)|
  {
    if Queued(q) == {} then [] else
      var j := Next(q, start);
      [j] + Order(Without(q, j), At(j, 1))
  }

  /** Visits until the last announcement is over. */
  function Duration(q: seq<bool>, start: nat): nat
    requires |q| == DISKS
    decreases |Queued(q)|
  {
    if Queued(q) == {} then 0 else
      var j := Next(q, start);
      Gap(q, start, 0) + Span(j) + Duration(Without(q, j), At(j, 1))
  }

  /** Every queued disk appears in the order, once. */
  lemma {:induction false} OrderIsExact(q: seq<bool>, start: nat)
    requires |q| == DISKS
    ensures multiset(Order(q, start)) == multiset(Queued(q))
    decreases |Queued(q)|
  {
    hide Queued, Without, Next, Gap;
    if Queued(q) != {} {
      var j := Next(q, start);
      OrderIsExact(Without(q, j), At(j, 1));
      assert multiset(Queued(q)) == multiset{j} + multiset(Queued(q) - {j});
      assert multiset([j] + Order(Without(q, j), At(j, 1))) == multiset([j]) + multiset(Order(Without(q, j), At(j, 1)));
    }
  }

  /** Each queued announcement lasts at most 1210 visits. */
  lemma {:induction false} DurationBound(q: seq<bool>, start: nat)
    requires |q| == DISKS
    ensures Duration(q, start) <= 1210 * |Queued(q)|
    decreases |Queued(q)|
  {
    hide Queued, Without, Next, Gap;
    if Queued(q) != {} {
      var j := Next(q, start);
      DurationBound(Without(q, j), At(j, 1));
      assert |Queued(q) - {j}| == |Queued(q)| - 1;
    }
  }

  /** The queued disks that have a pin. */
  function Pinned(q: seq<bool>): set<Index>
    requires |q| == DISKS
  {
    set k <- Queued(q) | k < PINS
  }

  function Visible(order: seq<Index>): seq<Index> {
    if order == [] then [] else (if order[0] < PINS then [order[0]] else []) + Visible(order[1..])
  }

  lemma VisibleCons(j: Index, rest: seq<Index>)
    ensures Visible([j] + rest) == (if j < PINS then [j] else []) + Visible(rest)
  {
    assert ([j] + rest)[1..] == rest;
  }

  /** Every queued disk with a pin is among the visible ones, once; the others are not. */
  lemma {:induction false} VisibleIsExact(q: seq<bool>, start: nat)
    requires |q| == DISKS
    ensures multiset(Visible(Order(q, start))) == multiset(Pinned(q))
    decreases |Queued(q)|
  {
    if Queued(q) == {} {
      assert Pinned(q) == {};
    } else {
      var j := Next(q, start);
      var rest := Order(Without(q, j), At(j, 1));
      VisibleIsExact(Without(q, j), At(j, 1));
      VisibleCons(j, rest);
      PinnedWithout(q, j);
      hide Queued, Without, Next, Gap, Pinned, Visible;
      if j < PINS {
        assert multiset(Pinned(q)) == multiset{j} + multiset(Pinned(q) - {j});
        assert multiset([j] + Visible(rest)) == multiset([j]) + multiset(Visible(rest));
      } else {
        assert [] + Visible(rest) == Visible(rest);
      }
    }
  }

  lemma PinnedWithout(q: seq<bool>, j: Index)
    requires |q| == DISKS && j in Queued(q)
    ensures if j < PINS then j in Pinned(q) && Pinned(Without(q, j)) == Pinned(q) - {j} else Pinned(Without(q, j)) == Pinned(q)
  {
  }

  /** One notice a disk: its bit alone, with its own image size. */
  function NoticesOf(disks: seq<Disk>, order: seq<Index>): seq<Notice>
    requires |disks| == DISKS
  {
    seq(|order|, k requires 0 <= k < |order| => Notice({order[k] as int}, disks[order[k]].size))
  }

  /** The first queued disk, from wherever the visits stand. */
  lemma FirstHandled(s: Dev, start: nat)
    requires Resting(s) && Queued(s.mountQueue) != {}
    ensures var j, g := Next(s.mountQueue, start), Gap(s.mountQueue, start, 0);
            MountRun(s, start, g + Span(j)) == Handled(Waited(s, g), j)
            && Notices(s, start, g + Span(j)) == Shown(s, j)
            && At(start, g + Span(j)) == At(j, 1)
  {
    var j, g := Next(s.mountQueue, start), Gap(s.mountQueue, start, 0);
    assert s.mountQueue[j];
    Waits(s, start, g);
    Handles(Waited(s, g), j);
    AtAgain(start, g, j);
    hide Mount, Handled, MountRun, Notices, At, Span;
    RunSplits(s, start, g, Span(j));
    assert [] + Shown(s, j) == Shown(s, j);
  }

  lemma AtAgain(start: nat, g: nat, j: nat)
    requires j == At(start, g)
    ensures At(start, g + Span(j)) == At(j, 1)
  {
    AtComposes(start, g, Span(j));
    assert At(j, 1 + MOUNT_TICKS) == At(j, 1);
  }

  lemma HandledRests(s: Dev, g: nat, j: nat)
    requires Resting(s) && j in Queued(s.mountQueue)
    ensures var t := Handled(Waited(s, g), j);
            Resting(t) && t.mountQueue == Without(s.mountQueue, j) && t.ackDelay <= MOUNT_TICKS && SameSizes(s.disks, t.disks)
  {
  }

  ghost predicate SameSizes(d: seq<Disk>, e: seq<Disk>) {
    |d| == |e| && forall k :: 0 <= k < |d| ==> d[k].size == e[k].size
  }

  lemma NoticesCons(d: seq<Disk>, e: seq<Disk>, j: Index, rest: seq<Index>)
    requires SameSizes(d, e) && |d| == DISKS
    ensures NoticesOf(d, Visible([j] + rest)) == (if j < PINS then [Notice({j as int}, d[j].size)] else []) + NoticesOf(e, Visible(rest))
  {
    VisibleCons(j, rest);
  }

  /** After n visits from `start`, exactly the notices of `order` have gone out
      and the device rests with an empty queue. */
  ghost predicate Served(s: Dev, start: nat, n: nat, order: seq<Index>)
    requires Seekable(s)
  {
    var t := MountRun(s, start, n);
    && Notices(s, start, n) == NoticesOf(s.disks, Visible(order))
    && Resting(t) && Queued(t.mountQueue) == {} && (t.ackDelay <= MOUNT_TICKS || t.ackDelay <= s.ackDelay)
  }

  /** After a visits from `start`, disk j alone has been handled and t is left. */
  ghost predicate Step(s: Dev, start: nat, a: nat, j: Index, t: Dev)
    requires Seekable(s)
  {
    && Resting(t) && MountRun(s, start, a) == t && At(start, a) == At(j, 1)
    && Notices(s, start, a) == (if j < PINS then [Notice({j as int}, s.disks[j].size)] else [])
    && SameSizes(s.disks, t.disks) && t.ackDelay <= MOUNT_TICKS
    && Queued(s.mountQueue) != {} && j == Next(s.mountQueue, start) && t.mountQueue == Without(s.mountQueue, j)
    && a == Gap(s.mountQueue, start, 0) + Span(j)
  }

  lemma FirstStep(s: Dev, start: nat) returns (a: nat, j: Index, t: Dev)
    requires Resting(s) && Queued(s.mountQueue) != {}
    ensures Seekable(s) && Step(s, start, a, j, t)
  {
    j := Next(s.mountQueue, start);
    var g := Gap(s.mountQueue, start, 0);
    a, t := g + Span(j), Handled(Waited(s, g), j);
    FirstHandled(s, start);
    HandledRests(s, g, j);
    hide Handled, Waited, Span, MountRun, Notices;
  }

  lemma StepShrinks(s: Dev, start: nat, a: nat, j: Index, t: Dev)
    requires Resting(s) && Step(s, start, a, j, t)
    ensures Resting(t) && |Queued(t.mountQueue)| < |Queued(s.mountQueue)|
  {
    Shrinks(s.mountQueue, j);
  }

  lemma StepOrders(s: Dev, start: nat, a: nat, j: Index, t: Dev)
    requires Resting(s) && Step(s, start, a, j, t)
    ensures Order(s.mountQueue, start) == [j] + Order(t.mountQueue, At(j, 1))
    ensures Duration(s.mountQueue, start) == a + Duration(t.mountQueue, At(j, 1))
  {
    hide Next, Gap, Without, At, MountRun, Notices, Span;
  }

  lemma ServedCons(s: Dev, start: nat, a: nat, j: Index, t: Dev, n: nat, rest: seq<Index>)
    requires Resting(s) && Step(s, start, a, j, t)
    requires Seekable(t) && Served(t, At(j, 1), n, rest)
    ensures Served(s, start, a + n, [j] + rest)
  {
    hide MountRun, Notices, At, NoticesOf, Visible, Resting, Queued, Next, Gap, Without, Span;
    RestingSeekable(s);
    RunSplits(s, start, a, n);
    NoticesCons(s.disks, t.disks, j, rest);
  }

  lemma RestingSeekable(s: Dev)
    requires Resting(s)
    ensures Ready(s) && Seekable(s) && s.Shaped() && |s.mountQueue| == DISKS && s.ackDelay >= 0
  {
  }

  lemma Shrinks(q: seq<bool>, j: Index)
    requires |q| == DISKS && j in Queued(q)
    ensures |Queued(Without(q, j))| < |Queued(q)|
  {
    hide Queued;
    assert |Queued(q) - {j}| == |Queued(q)| - 1;
  }

  lemma NoneServed(s: Dev, start: nat)
    requires Resting(s) && Queued(s.mountQueue) == {}
    ensures Served(s, start, Duration(s.mountQueue, start), Order(s.mountQueue, start))
  {
    assert NoticesOf(s.disks, Visible(Order(s.mountQueue, start))) == [];
  }

  /** All queued disks, one after the other in cyclic order. */
  lemma {:induction false} AllAnnounced(s: Dev, start: nat)
    requires Resting(s)
    ensures Served(s, start, Duration(s.mountQueue, start), Order(s.mountQueue, start))
    decreases |Queued(s.mountQueue)|
  {
    hide *;
    RestingSeekable(s);
    if Queued(s.mountQueue) == {} {
      NoneServed(s, start);
    } else {
      var a, j, t := FirstStep(s, start);
      StepShrinks(s, start, a, j, t);
      RestingSeekable(t);
      AllAnnounced(t, At(j, 1));
      ServedCons(s, start, a, j, t, Duration(t.mountQueue, At(j, 1)), Order(t.mountQueue, At(j, 1)));
      StepOrders(s, start, a, j, t);
    }
  }

  lemma Drains(s: Dev, start: nat, n: nat)
    requires Resting(s) && Queued(s.mountQueue) == {} && n > s.ackDelay
    ensures Notices(s, start, n) == [] && Inv(MountRun(s, start, n))
  {
    NothingQueued(s.mountQueue);
    hide At, MountRun, Notices;
    Waits(s, start, n);
  }

  lemma ServedFacts(s: Dev, start: nat, n: nat, order: seq<Index>)
    requires Resting(s) && Served(s, start, n, order)
    ensures Seekable(s) && |s.disks| == DISKS
    ensures var t := MountRun(s, start, n);
            Resting(t) && |t.mountQueue| == DISKS && Queued(t.mountQueue) == {} && (t.ackDelay <= MOUNT_TICKS || t.ackDelay <= s.ackDelay)
    ensures Notices(s, start, n) == NoticesOf(s.disks, Visible(order))
  {
  }

  lemma ServedThenIdle(s: Dev, start: nat, n: nat, order: seq<Index>, k: nat)
    requires Resting(s) && Served(s, start, n, order) && k > MOUNT_TICKS && k > s.ackDelay
    ensures Seekable(s) && |s.disks| == DISKS
    ensures Notices(s, start, n + k) == NoticesOf(s.disks, Visible(order)) && Inv(MountRun(s, start, n + k))
  {
    hide *;
    ServedFacts(s, start, n, order);
    Drains(MountRun(s, start, n), At(start, n), k);
    RunSplits(s, start, n, k);
  }

  lemma SomeTicks()
    ensures MOUNT_TICKS > 0
  {
  }

  /** In ticks: once quiet for long enough, every queued mount of a disk with a
      pin has been announced exactly once, alone and with its own size, no other
      has been announced at all, and the device is in a settled idle state. */
  lemma QueueSettles(s: Dev, ps: seq<Pins>, o: Options)
    requires Resting(s) && QuietPins(ps)
    requires DISKS * |ps| > Duration(s.mountQueue, 0) + s.ackDelay + MOUNT_TICKS
    ensures multiset(Visible(Order(s.mountQueue, 0))) == multiset(Pinned(s.mountQueue))
    ensures Notices(s, 0, DISKS * |ps|) == NoticesOf(s.disks, Visible(Order(s.mountQueue, 0)))
    ensures Run(s, ps, o) == MountRun(s, 0, DISKS * |ps|) && Inv(Run(s, ps, o))
  {
    hide *;
    SomeTicks();
    RestingSeekable(s);
    VisibleIsExact(s.mountQueue, 0);
    QuietRun(s, ps, o);
    AllAnnounced(s, 0);
    var n := Duration(s.mountQueue, 0);
    ServedThenIdle(s, 0, n, Order(s.mountQueue, 0), DISKS * |ps| - n);
    assert n + (DISKS * |ps| - n) == DISKS * |ps|;
  }

  /** The core sees a notice for a queued disk, ever, exactly when the disk has a pin. */
  lemma AnnouncedIff(s: Dev, ps: seq<Pins>, o: Options, k: Index)
    requires Resting(s) && QuietPins(ps) && k in Queued(s.mountQueue)
    requires DISKS * |ps| > Duration(s.mountQueue, 0) + s.ackDelay + MOUNT_TICKS
    ensures Notice({k as int}, s.disks[k].size) in Notices(s, 0, DISKS * |ps|) <==> k < PINS
  {
    var order := Visible(Order(s.mountQueue, 0));
    QueueSettles(s, ps, o);
    InNotices(s.disks, order, k);
    assert k in order <==> k in multiset(order);
    hide Notices, Order, Visible, Duration;
    assert k in multiset(Pinned(s.mountQueue)) <==> k in Pinned(s.mountQueue);
  }

  lemma InNotices(disks: seq<Disk>, order: seq<Index>, k: Index)
    requires |disks| == DISKS
    ensures Notice({k as int}, disks[k].size) in NoticesOf(disks, order) <==> k in order
  {
    var ns := NoticesOf(disks, order);
    if k in order {
      var i :| 0 <= i < |order| && order[i] == k;
      assert ns[i] == Notice({k as int}, disks[k].size);
    }
    if Notice({k as int}, disks[k].size) in ns {
      var i :| 0 <= i < |ns| && ns[i] == Notice({k as int}, disks[k].size);
      assert order[i] as int in ns[i].bits && k as int in ns[i].bits;
    }
  }

  lemma NothingQueued(q: seq<bool>)
    requires |q| == DISKS && Queued(q) == {}
    ensures forall k :: 0 <= k < DISKS ==> !q[k]
  {
    forall k: nat | k < DISKS ensures !q[k] {
      assert k !in Queued(q);
    }
  }

  // ---- a request that does not wait ----------------------------------------------------------

  /** A request raised while an announcement still counts down claims the device
      and costs a second count on each visit, so the count no longer keeps step
      with the ten indices; and with two counts left the disk is acknowledged
      although no transfer has been started. */
  lemma EarlyRequest(s: Dev, p: Pins, o: Options, i: nat)
    requires Ready(s) && p.Shaped() && i < PINS && (i in p.rd || i in p.wr)
    requires s.ackDelay > 1 && (!s.mountQueue[i] || s.imgMounted != {})
    ensures var t := Visit(s, p, o, i);
            && !t.reading && !t.writing && t.disks == s.disks && t.imgMounted == s.imgMounted
            && t.ackDelay == s.ackDelay - 2 && (i in t.sdAck <==> s.ackDelay == 2)
            && t.current == if s.ackDelay == 2 then -1 else i
  {
  }

  // ---- the boot wait ---------------------------------------------------------------------

  lemma {:induction false} QueueNeverGrows(s: Dev, start: nat, n: nat, k: Index)
    requires Seekable(s) && !s.mountQueue[k]
    ensures !MountRun(s, start, n).mountQueue[k]
  {
    if n > 0 { QueueNeverGrows(s, start, n - 1, k); }
  }

  lemma FirstTaken(s: Dev) returns (g: nat)
    requires Resting(s) && Queued(s.mountQueue) != {}
    ensures g < 10 && s.mountQueue[g] && !MountRun(s, 0, g + 1).mountQueue[g]
  {
    SomeGap(s.mountQueue, 0);
    g := Gap(s.mountQueue, 0, 0);
    assert At(0, g) == g;
    Waits(s, 0, g);
    MountTakes(Waited(s, g), g);
  }

  lemma MountTakes(s: Dev, g: nat)
    requires Resting(s) && g < DISKS && s.mountQueue[g]
    ensures !Mount(s, g).mountQueue[g]
  {
  }

  lemma MoreVisits(s: Dev, g: nat, n: nat)
    requires Seekable(s) && g < 10 <= n && s.mountQueue[g] && !MountRun(s, 0, g + 1).mountQueue[g]
    ensures MountRun(s, 0, n).mountQueue != s.mountQueue
  {
    hide MountRun, At, Mount;
    RunSplits(s, 0, g + 1, n - (g + 1));
    QueueNeverGrows(MountRun(s, 0, g + 1), At(0, g + 1), n - (g + 1), g);
  }

  /** Ten visits take at least one disk off the queue. */
  lemma QueueShrinks(s: Dev, n: nat)
    requires Resting(s) && Queued(s.mountQueue) != {} && n >= 10
    ensures MountRun(s, 0, n).mountQueue != s.mountQueue
  {
    hide *;
    RestingSeekable(s);
    var g := FirstTaken(s);
    MoreVisits(s, g, n);
  }

  /** Started at time 0 with a mount waiting, the device does nothing through
      exactly its first 2000 ticks. */
  lemma WakesAfterBoot(s: Dev, ps: seq<Pins>, o: Options)
    requires Resting(s) && Queued(s.mountQueue) != {}
    requires forall k :: 0 <= k < |ps| ==> ps[k].Shaped() && ps[k].rd == {} && ps[k].wr == {}
    requires ConsecutiveFrom(ps, 0) && |ps| <= 0x8000_0000
    ensures Run(s, ps, o) == s <==> |ps| <= 2000
  {
    if |ps| <= 2000 {
      AsleepRun(s, ps, o);
    } else {
      var a, b := ps[..2000], ps[2000..];
      assert ps == a + b;
      AsleepRun(s, a, o);
      assert QuietPins(b);
      hide Resting, Ready, Seekable, Queued, Run, MountRun, Call;
      RestingSeekable(s);
      RunAppend(s, a, b, o);
      QuietRun(s, b, o);
      QueueShrinks(s, DISKS * |b|);
    }
  }

  lemma FreshRests()
    ensures Resting(Fresh())
  {
  }

  /** Mounting an image leaves the device resting, so everything above holds for
      any mounts queued before or between announcements. */
  lemma MountRests(s: Dev, image: seq<byte>, writable: bool, i: Index)
    requires Resting(s)
    ensures var t := s.(disks := s.disks[i := Disk(image, 0, writable, |image|, true)], mountQueue := s.mountQueue[i := true]);
            Resting(t) && Queued(t.mountQueue) == Queued(s.mountQueue) + {i}
  {
  }
}
