/** The simulated block device: one tick visits every disk index once. */
module BlockDevice {
  import opened Basics

  const DISKS := 10        // kVDNUM
  const BLOCK := 512       // kBLKSZ
  const MOUNT_TICKS := 1200

  /** An image file with its shared read/write position. Reading at or past
      the end gives end-of-file; the position is only used until the next seek. */
  datatype Disk = Disk(content: seq<byte>, pos: int, writable: bool, size: int, isOpen: bool)

  /** The device's fields and output pins. A pin byte is a set of bit numbers below 8. */
  datatype Dev = Dev(
    disks: seq<Disk>, mountQueue: seq<bool>,
    reading: bool, writing: bool, ackDelay: int, bytecnt: int, current: int,
    sdAck: set<int>, buffAddr: int, buffDout: int, buffWr: bool,
    imgMounted: set<int>, imgSize: int, imgReadonly: bool) {

    predicate Shaped() { |disks| == DISKS && |mountQueue| == DISKS }
  }

  /** Input pins of a tick, and the simulation time at which it comes. */
  datatype Pins = Pins(time: nat, rd: set<int>, wr: set<int>, lba: seq<nat>, din: seq<int>) {
    predicate Shaped() {
      && |lba| == DISKS && |din| == DISKS
      && (forall k :: k in rd ==> 0 <= k < 8) && (forall k :: k in wr ==> 0 <= k < 8)
      && (forall k :: 0 <= k < DISKS ==> 0 <= din[k] < 0x1_0000)
    }
  }

  /** Run-time options: sector latency, and +ignore_scsi_writes. */
  datatype Options = Options(latency: int, ignoreWrites: bool)

  function SetBit(pins: set<int>, i: int): set<int> { if i < 8 then pins + {i} else pins }

  // ---- file access ----------------------------------------------------------

  /** get() & 0xFF: end-of-file reads as FF. */
  function ByteAt(content: seq<byte>, p: int): byte {
    if 0 <= p < |content| then content[p] else 255
  }

  function WordAt(content: seq<byte>, p: int): (w: int)
    ensures 0 <= w < 0x1_0000
  {
    var hi: int, lo: int := ByteAt(content, p), ByteAt(content, p + 1);
    hi * 256 + lo
  }

  function Zeros(n: int): seq<byte> { if n <= 0 then [] else seq(n, k => 0) }

  /** put(): a write past the end fills the gap with zeros. */
  function Put(content: seq<byte>, p: nat, b: byte): seq<byte> {
    if p < |content| then content[p := b] else content + Zeros(p - |content|) + [b]
  }

  function PutWord(d: Disk, o: Options, w: int): Disk
    requires 0 <= w < 0x1_0000 && d.pos >= 0
  {
    if o.ignoreWrites || !d.writable then d
    else d.(content := Put(Put(d.content, d.pos, w / 256), d.pos + 1, w % 256), pos := d.pos + 2)
  }

  predicate Seekable(s: Dev) { s.Shaped() && forall k :: 0 <= k < DISKS ==> s.disks[k].pos >= 0 }

  // ---- one disk index, in four phases -------------------------------------------

  /** Move one word of the current transfer. */
  function Transfer(s: Dev, p: Pins, o: Options, i: int): (r: Dev)
    requires Seekable(s) && p.Shaped() && 0 <= i < DISKS
    ensures Seekable(r)
  {
    if s.current != i then s
    else if s.ackDelay != 1 then s.(buffWr := false)
    else
      var d := s.disks[i];
      if s.reading && !s.buffWr && s.bytecnt < BLOCK then
        s.(buffDout := WordAt(d.content, d.pos), buffAddr := s.bytecnt / 2, bytecnt := s.bytecnt + 2, buffWr := true,
           disks := s.disks[i := d.(pos := d.pos + 2)])
      else if s.writing && s.bytecnt < BLOCK then
        s.(disks := s.disks[i := PutWord(d, o, p.din[i])], bytecnt := s.bytecnt + 2,
           buffAddr := if s.bytecnt + 2 < BLOCK then (s.bytecnt + 2) / 2 else 0)
      else if s.writing then s.(buffAddr := 0, writing := false)
      else s.(buffWr := false, reading := s.reading && s.bytecnt < BLOCK)
  }

  /** Announce a queued mount, end an announcement, or count down. */
  function Mount(s: Dev, i: int): (r: Dev)
    requires Seekable(s) && 0 <= i < DISKS
    ensures Seekable(r)
  {
    if !s.reading && !s.writing && s.mountQueue[i] && s.imgMounted == {} then
      s.(mountQueue := s.mountQueue[i := false], imgSize := s.disks[i].size, imgReadonly := true,
         disks := s.disks[i := s.disks[i].(pos := 0)], imgMounted := SetBit(s.imgMounted, i), ackDelay := MOUNT_TICKS)
    else if s.ackDelay == 1 && i in s.imgMounted then s.(imgMounted := s.imgMounted - {i})
    else if !s.reading && !s.writing && s.ackDelay > 0 then s.(ackDelay := s.ackDelay - 1)
    else s
  }

  /** Take up a request of this disk. */
  function Accept(s: Dev, p: Pins, o: Options, i: int): (r: Dev)
    requires Seekable(s) && p.Shaped() && 0 <= i < DISKS
    ensures Seekable(r)
  {
    if (s.current == -1 || s.current == i) && (i in p.rd || i in p.wr) then
      if s.ackDelay == 0 then
        s.(current := i, reading := s.reading || i in p.rd, writing := s.writing || i in p.wr,
           disks := s.disks[i := s.disks[i].(pos := p.lba[i] * BLOCK)],
           bytecnt := 0, buffAddr := 0, ackDelay := o.latency)
      else s.(current := i)
    else s
  }

  /** Drive this disk's ack and finish the transfer. */
  function Finish(s: Dev, i: int): Dev {
    if s.current != i then s
    else
      var ack := if s.ackDelay == 1 then SetBit(s.sdAck, i) else s.sdAck - {i};
      var delay := if s.ackDelay > 1 || (s.ackDelay == 1 && !s.reading && !s.writing) then s.ackDelay - 1 else s.ackDelay;
      s.(sdAck := ack, ackDelay := delay, current := if delay == 0 && !s.reading && !s.writing then -1 else s.current)
  }

  function Visit(s: Dev, p: Pins, o: Options, i: int): (r: Dev)
    requires Seekable(s) && p.Shaped() && 0 <= i < DISKS
    ensures Seekable(r)
  {
    Finish(Accept(Mount(Transfer(s, p, o, i), i), p, o, i), i)
  }

  /** The first n disk indices of a tick. */
  function Visits(s: Dev, p: Pins, o: Options, n: nat): (r: Dev)
    requires Seekable(s) && p.Shaped() && n <= DISKS
    ensures Seekable(r)
  {
    if n == 0 then s else Visit(Visits(s, p, o, n - 1), p, o, n - 1)
  }

  const BOOT := 2000

  /** One call of BeforeEval. */
  function Tick(s: Dev, p: Pins, o: Options, cycles: int): (r: Dev)
    requires Seekable(s) && p.Shaped()
    ensures Seekable(r)
  {
    if cycles < BOOT then s else Visits(s, p, o, DISKS)
  }

  /** The unsigned 64-bit time as the int parameter of BeforeEval receives it. */
  function CInt(t: nat): int {
    var r := t % 0x1_0000_0000;
    if r < 0x8000_0000 then r else r - 0x1_0000_0000
  }

  /** The simulation loop's call of BeforeEval. */
  function Call(s: Dev, p: Pins, o: Options): (r: Dev)
    requires Seekable(s) && p.Shaped()
    ensures Seekable(r)
  {
    Tick(s, p, o, CInt(p.time))
  }

  // ---- the device object -----------------------------------------------------------

  class SimBlockDevice {
    const options: Options
    var disks: seq<Disk>
    var mountQueue: seq<bool>
    var reading: bool
    var writing: bool
    var ackDelay: int
    var bytecnt: int
    var current: int
    var sdAck: set<int>
    var buffAddr: int
    var buffDout: int
    var buffWr: bool
    var imgMounted: set<int>
    var imgSize: int
    var imgReadonly: bool

    ghost function State(): Dev
      reads this
    {
      Dev(disks, mountQueue, reading, writing, ackDelay, bytecnt, current, sdAck, buffAddr, buffDout, buffWr,
          imgMounted, imgSize, imgReadonly)
    }

    ghost predicate Valid()
      reads this
    {
      Seekable(State())
    }

    constructor (o: Options)
      ensures Valid() && options == o
      ensures State() == Fresh()
    {
      options := o;
      disks := seq(DISKS, k => Disk([], 0, false, 0, false));
      mountQueue := seq(DISKS, k => false);
      reading, writing, ackDelay, bytecnt, current := false, false, 0, 0, -1;
      sdAck, buffAddr, buffDout, buffWr := {}, 0, 0, false;
      imgMounted, imgSize, imgReadonly := {}, 0, false;
    }

    /** Remember an image and queue its announcement. `found` says whether the
        file opens at all; a stream that is already open cannot be opened again,
        so a second image for the same index is refused. */
    method MountDisk(image: seq<byte>, found: bool, writable: bool, index: nat)
      requires Valid() && index < DISKS
      modifies this
      ensures Valid()
      ensures State() == if !found || old(disks)[index].isOpen then old(State())
                         else old(State()).(disks := old(disks)[index := Disk(image, 0, writable, |image|, true)],
                                            mountQueue := old(mountQueue)[index := true])
    {
      if found && !disks[index].isOpen {
        disks := disks[index := Disk(image, 0, writable, |image|, true)];
        mountQueue := mountQueue[index := true];
      }
    }

    method TransferWord(p: Pins, i: nat)
      requires Valid() && p.Shaped() && i < DISKS
      modifies this
      ensures State() == Transfer(old(State()), p, options, i) && Valid()
    {
      if current == i {
        if ackDelay == 1 {
          if reading && !buffWr && bytecnt < BLOCK {
            var hi: int := ByteAt(disks[i].content, disks[i].pos);
            var lo: int := ByteAt(disks[i].content, disks[i].pos + 1);
            buffDout := hi * 256 + lo;
            disks := disks[i := disks[i].(pos := disks[i].pos + 2)];
            buffAddr := bytecnt / 2;
            bytecnt := bytecnt + 2;
            buffWr := true;
          } else if writing && bytecnt < BLOCK {
            var word := p.din[i];
            if !options.ignoreWrites && disks[i].writable {
              var c := Put(disks[i].content, disks[i].pos, word / 256);
              disks := disks[i := disks[i].(content := Put(c, disks[i].pos + 1, word % 256), pos := disks[i].pos + 2)];
            } else {
              assert disks[i := disks[i]] == disks;
            }
            bytecnt := bytecnt + 2;
            buffAddr := if bytecnt < BLOCK then bytecnt / 2 else 0;
          } else if writing {
            buffAddr := 0;
            writing := false;
          } else {
            buffWr := false;
            if reading && bytecnt >= BLOCK { reading := false; }
          }
        } else {
          buffWr := false;
        }
      }
    }

    method MountStep(i: nat)
      requires Valid() && i < DISKS
      modifies this
      ensures State() == Mount(old(State()), i) && Valid()
    {
      if !reading && !writing && mountQueue[i] && imgMounted == {} {
        mountQueue := mountQueue[i := false];
        imgSize := disks[i].size;
        imgReadonly := true;
        disks := disks[i := disks[i].(pos := 0)];
        imgMounted := if i < 8 then imgMounted + {i} else imgMounted;
        ackDelay := MOUNT_TICKS;
      } else if ackDelay == 1 && i in imgMounted {
        imgMounted := imgMounted - {i};
      } else if !reading && !writing && ackDelay > 0 {
        ackDelay := ackDelay - 1;
      }
    }

    method AcceptRequest(p: Pins, i: nat)
      requires Valid() && p.Shaped() && i < DISKS
      modifies this
      ensures State() == Accept(old(State()), p, options, i) && Valid()
    {
      if (current == -1 || current == i) && (i in p.rd || i in p.wr) {
        current := i;
        if ackDelay == 0 {
          if i in p.rd { reading := true; }
          if i in p.wr { writing := true; }
          disks := disks[i := disks[i].(pos := p.lba[i] * BLOCK)];
          bytecnt := 0;
          buffAddr := 0;
          ackDelay := options.latency;
        }
      }
    }

    method FinishStep(i: nat)
      requires Valid() && i < DISKS
      modifies this
      ensures State() == Finish(old(State()), i) && Valid()
    {
      if current == i {
        if ackDelay == 1 {
          sdAck := if i < 8 then sdAck + {i} else sdAck;
        } else {
          sdAck := sdAck - {i};
        }
        if ackDelay > 1 || (ackDelay == 1 && !reading && !writing) { ackDelay := ackDelay - 1; }
        if ackDelay == 0 && !reading && !writing { current := -1; }
      }
    }

    method BeforeEval(p: Pins, cycles: int)
      requires Valid() && p.Shaped()
      modifies this
      ensures State() == Tick(old(State()), p, options, cycles) && Valid()
      ensures State() == if cycles < 2000 then old(State()) else Visits(old(State()), p, options, 10)
    {
      hide Transfer, Mount, Accept, Finish;
      if cycles < BOOT { return; }
      for i := 0 to DISKS
        invariant Valid() && State() == Visits(old(State()), p, options, i)
      {
        ghost var before := State();
        TransferWord(p, i);
        MountStep(i);
        AcceptRequest(p, i);
        FinishStep(i);
        assert State() == Visit(before, p, options, i);
      }
    }
  }

  /** The state after construction. */
  function Fresh(): (r: Dev)
    ensures Seekable(r)
  {
    Dev(seq(DISKS, k => Disk([], 0, false, 0, false)), seq(DISKS, k => false), false, false, 0, 0, -1, {}, 0, 0, false, {}, 0, false)
  }
}
