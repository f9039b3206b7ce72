/** The simulated download bus: queued files streamed as 16-bit words. */
module DownloadBus {
  import opened Basics

  /** Files by name; a name outside the map cannot be opened. */
  type Disk = map<string, seq<byte>>

  datatype Chunk = Chunk(name: string, index: int, restart: bool)

  /** An open stream: read position and the end-of-file flag fgetc leaves. */
  datatype File = File(content: seq<byte>, pos: nat, eof: bool)

  /** Queue, stream, next address, and the output pins. */
  datatype Bus = Bus(
    queue: seq<Chunk>, file: Option<File>, next: int,
    addr: int, index: int, dout: int, wr: bool, download: bool)

  // ---- one tick -------------------------------------------------------------

  /** Open the next chunk when no stream is open. A chunk that does not open is spent. */
  function Open(s: Bus, disk: Disk): Bus {
    if s.file.Some? || s.queue == [] then s
    else
      var ch := s.queue[0];
      var next := if ch.index != s.index || ch.restart then 0 else s.next;
      s.(queue := s.queue[1..], next := next, addr := next, index := ch.index % 256,
         file := if ch.name in disk then Some(File(disk[ch.name], 0, false)) else None)
  }

  /** fgetc twice: the word, if a first byte is left, and the stream afterwards. */
  function Fetch(f: File): (Option<int>, File)
    requires f.pos <= |f.content|
  {
    var left := |f.content| - f.pos;
    if left == 0 then (None, f.(eof := true))
    else
      var hi: int := f.content[f.pos];
      if left == 1 then (Some(hi * 256), f.(pos := f.pos + 1, eof := true))
      else
        var lo: int := f.content[f.pos + 1];
        (Some(hi * 256 + lo), f.(pos := f.pos + 2))
  }

  function Stream(s: Bus, wait: bool): Bus
    requires s.file.Some? ==> s.file.value.pos <= |s.file.value.content|
  {
    if s.file.None? then s.(download := false, wr := false)
    else if wait then s
    else if s.file.value.eof then s.(file := None, download := false, wr := false, addr := s.next)
    else
      var (word, f) := Fetch(s.file.value);
      if word.None? then s.(download := true, file := Some(f))
      else s.(download := true, file := Some(f), addr := s.next, dout := word.value, wr := true, next := s.next + 2)
  }

  function Tick(s: Bus, disk: Disk, wait: bool): Bus
    requires Inv(s)
  {
    Stream(Open(s, disk), wait)
  }

  /** Without a stream the bus is quiet and shows the next address; with one, a
      word that is up is the one just before the next address. */
  ghost predicate Inv(s: Bus) {
    match s.file
    case None => !s.wr && s.addr == s.next
    case Some(f) => f.pos <= |f.content| && (f.eof ==> f.pos == |f.content|) && (s.wr ==> s.addr == s.next - 2)
  }

  // ---- the bus object -----------------------------------------------------------

  class SimBus {
    const disk: Disk
    var queue: seq<Chunk>
    var file: Option<File>
    var nextAddr: int
    var addr: int
    var index: int
    var dout: int
    var wr: bool
    var download: bool

    ghost function State(): Bus
      reads this
    {
      Bus(queue, file, nextAddr, addr, index, dout, wr, download)
    }

    constructor (d: Disk)
      ensures disk == d && State() == Bus([], None, 0, 0, 0, 0, false, false) && Inv(State()) && PinOk(State())
    {
      disk := d;
      queue, file, nextAddr, addr, index, dout, wr, download := [], None, 0, 0, 0, 0, false, false;
    }

    method QueueDownload(name: string, i: int, restart: bool)
      modifies this`queue
      ensures State() == old(State()).(queue := old(queue) + [Chunk(name, i, restart)])
    {
      queue := queue + [Chunk(name, i, restart)];
    }

    /** Take the next chunk off the queue when no stream is open. */
    method OpenNext()
      modifies this
      ensures State() == Open(old(State()), disk)
    {
      if file.None? && queue != [] {
        var current := queue[0];
        queue := queue[1..];
        if current.index != index { nextAddr := 0; }
        if current.restart { nextAddr := 0; }
        addr := nextAddr;
        index := current.index % 256;
        file := if current.name in disk then Some(File(disk[current.name], 0, false)) else None;
      }
    }

    /** Show the next word, or end the stream. */
    method StreamWord(wait: bool)
      requires file.Some? ==> file.value.pos <= |file.value.content|
      modifies this
      ensures State() == Stream(old(State()), wait)
    {
      if file.Some? {
        if !wait {
          download := true;
          if file.value.eof {
            file := None;
            download := false;
            wr := false;
            addr := nextAddr;
          }
          if file.Some? {
            var (word, f) := Fetch(file.value);
            file := Some(f);
            if word.Some? {
              addr := nextAddr;
              dout := word.value;
              wr := true;
              nextAddr := nextAddr + 2;
            }
          }
        }
      } else {
        download := false;
        wr := false;
      }
    }

    method BeforeEval(wait: bool)
      requires Inv(State())
      modifies this
      ensures State() == Tick(old(State()), disk, wait) && Inv(State())
    {
      OpenNext();
      StreamWord(wait);
    }
  }

  // ---- what the files should become ------------------------------------------------

  /** A word on the bus: the core writes `word` at byte address `addr` of target `index`. */
  datatype Write = Write(index: int, addr: int, word: int)

  /** Big-endian words; an odd last byte is padded with zero. */
  function WordOf(content: seq<byte>, k: nat): int
    requires 2 * k < |content|
  {
    var hi: int := content[2 * k];
    var lo: int := if 2 * k + 1 < |content| then content[2 * k + 1] else 0;
    hi * 256 + lo
  }

  function Rounded(n: nat): nat { (n + 1) / 2 * 2 }

  /** What the first word leaves. */
  function Tail(content: seq<byte>): (r: seq<byte>)
    requires content != []
    ensures |r| < |content|
  {
    if |content| == 1 then [] else content[2..]
  }

  /** The words of a file, from address `base` on. */
  function FileWrites(index: int, base: int, content: seq<byte>): seq<Write>
    decreases |content|
  {
    if content == [] then []
    else [Write(index, base, WordOf(content, 0))] + FileWrites(index, base + 2, Tail(content))
  }

  /** Where a chunk leaves the bus: target index and next address. */
  datatype Cursor = Cursor(index: int, next: int)

  function StartOf(c: Cursor, ch: Chunk): int { if ch.index != c.index || ch.restart then 0 else c.next }

  function After(c: Cursor, ch: Chunk, disk: Disk): Cursor {
    Cursor(ch.index % 256, StartOf(c, ch) + if ch.name in disk then Rounded(|disk[ch.name]|) else 0)
  }

  function ChunkWrites(c: Cursor, ch: Chunk, disk: Disk): seq<Write> {
    if ch.name in disk then FileWrites(ch.index % 256, StartOf(c, ch), disk[ch.name]) else []
  }

  /** First in, first out. */
  function QueueWrites(c: Cursor, q: seq<Chunk>, disk: Disk): seq<Write>
    decreases q
  {
    if q == [] then [] else ChunkWrites(c, q[0], disk) + QueueWrites(After(c, q[0], disk), q[1..], disk)
  }

  function QueueEnd(c: Cursor, q: seq<Chunk>, disk: Disk): Cursor
    decreases q
  {
    if q == [] then c else QueueEnd(After(c, q[0], disk), q[1..], disk)
  }

  // ---- what is still to come --------------------------------------------------------

  ghost function Rest(s: Bus): seq<byte>
    requires Inv(s)
  {
    if s.file.Some? then s.file.value.content[s.file.value.pos..] else []
  }

  ghost function Here(s: Bus): Cursor
    requires Inv(s)
  {
    Cursor(s.index, s.next + Rounded(|Rest(s)|))
  }

  ghost function Pending(s: Bus, disk: Disk): seq<Write>
    requires Inv(s)
  {
    FileWrites(s.index, s.next, Rest(s)) + QueueWrites(Here(s), s.queue, disk)
  }

  ghost function End(s: Bus, disk: Disk): Cursor
    requires Inv(s)
  {
    QueueEnd(Here(s), s.queue, disk)
  }

  function ChunkTicks(ch: Chunk, disk: Disk): nat { if ch.name in disk then |disk[ch.name]| / 2 + 2 else 1 }

  function QueueTicks(q: seq<Chunk>, disk: Disk): nat {
    if q == [] then 0 else ChunkTicks(q[0], disk) + QueueTicks(q[1..], disk)
  }

  /** Ticks without wait that are still needed. */
  ghost function Work(s: Bus, disk: Disk): nat
    requires Inv(s)
  {
    (if s.file.None? then 0 else if s.file.value.eof then 1 else |Rest(s)| / 2 + 2) + QueueTicks(s.queue, disk)
  }

  /** The word a tick newly puts on the bus: the write strobe rises, or stays up with another address. */
  function Seen(s: Bus, t: Bus): seq<Write> {
    if t.wr && !(s.wr && s.index == t.index && s.addr == t.addr) then [Write(t.index, t.addr, t.dout)] else []
  }

  lemma Reassociate(a: seq<Write>, b: seq<Write>, c: seq<Write>)
    ensures (a + b) + c == a + (b + c)
  {
  }

  lemma OpenKeeps(s: Bus, disk: Disk)
    requires Inv(s)
    ensures var t := Open(s, disk);
            Inv(t) && t.wr == s.wr && Pending(t, disk) == Pending(s, disk) && End(t, disk) == End(s, disk)
            && (if s.file.None? && s.queue != [] && s.queue[0].name !in disk
                then t.file.None? && Work(t, disk) == Work(s, disk) - 1
                else Work(t, disk) == Work(s, disk) && (t.file.None? ==> t.queue == [] && t == s))
            && (s.wr ==> t == s)
  {
    if s.file.None? && s.queue != [] {
      var t := Open(s, disk);
      assert FileWrites(s.index, s.next, Rest(s)) == [];
      if s.queue[0].name in disk {
        assert Rest(t) == disk[s.queue[0].name];
      }
      assert Here(t) == After(Here(s), s.queue[0], disk);
    }
  }

  lemma StreamWord(s: Bus, disk: Disk)
    requires Inv(s) && s.file.Some? && !s.file.value.eof && s.file.value.pos < |s.file.value.content|
    ensures var t := Stream(s, false);
            Inv(t) && t.queue == s.queue && Here(t) == Here(s)
            && Seen(s, t) + FileWrites(t.index, t.next, Rest(t)) == FileWrites(s.index, s.next, Rest(s))
            && (if t.file.value.eof then 1 else |Rest(t)| / 2 + 2) == |Rest(s)| / 2 + 1
  {
    var t := Stream(s, false);
    assert Rest(t) == Tail(Rest(s));
    assert Seen(s, t) == [Write(s.index, s.next, WordOf(Rest(s), 0))];
  }

  lemma StreamKeeps(s: Bus, disk: Disk, wait: bool)
    requires Inv(s)
    ensures var t := Stream(s, wait);
            Inv(t) && Seen(s, t) + Pending(t, disk) == Pending(s, disk) && End(t, disk) == End(s, disk)
            && Work(t, disk) == if wait || s.file.None? then Work(s, disk) else Work(s, disk) - 1
  {
    hide QueueWrites, QueueEnd, QueueTicks;
    var t := Stream(s, wait);
    if s.file.Some? && !wait && !s.file.value.eof && s.file.value.pos < |s.file.value.content| {
      hide Stream, Seen, FileWrites, Here;
      StreamWord(s, disk);
      Reassociate(Seen(s, t), FileWrites(t.index, t.next, Rest(t)), QueueWrites(Here(t), t.queue, disk));
    } else if s.file.Some? && !wait {
      assert Rest(s) == [] && Rest(t) == [];
    }
  }

  /** A tick moves what it newly shows from the pending words, and nothing else. */
  lemma TickKeeps(s: Bus, disk: Disk, wait: bool)
    requires Inv(s)
    ensures var t := Tick(s, disk, wait);
            Inv(t) && Seen(s, t) + Pending(t, disk) == Pending(s, disk) && End(t, disk) == End(s, disk)
            && Work(t, disk) <= Work(s, disk) && (!wait && Work(s, disk) > 0 ==> Work(t, disk) == Work(s, disk) - 1)
  {
    var m := Open(s, disk);
    OpenKeeps(s, disk);
    StreamKeeps(m, disk, wait);
    assert s != m ==> !s.wr && !m.wr;
    hide Pending, End, Work, Open;
  }

  // ---- whole runs ------------------------------------------------------------------------

  ghost function Run(s: Bus, disk: Disk, waits: seq<bool>): (t: Bus)
    requires Inv(s)
    ensures Inv(t)
    decreases waits
  {
    if waits == [] then s
    else
      TickKeeps(s, disk, waits[0]);
      Run(Tick(s, disk, waits[0]), disk, waits[1..])
  }

  ghost function Log(s: Bus, disk: Disk, waits: seq<bool>): seq<Write>
    requires Inv(s)
    decreases waits
  {
    if waits == [] then []
    else
      TickKeeps(s, disk, waits[0]);
      Seen(s, Tick(s, disk, waits[0])) + Log(Tick(s, disk, waits[0]), disk, waits[1..])
  }

  function Granted(waits: seq<bool>): nat {
    if waits == [] then 0 else (if waits[0] then 0 else 1) + Granted(waits[1..])
  }

  /** At every moment of every wait schedule: shown so far + still pending is
      what the queue promised at the start. */
  lemma {:induction false} LogConserved(s: Bus, disk: Disk, waits: seq<bool>)
    requires Inv(s)
    ensures Log(s, disk, waits) + Pending(Run(s, disk, waits), disk) == Pending(s, disk)
    ensures End(Run(s, disk, waits), disk) == End(s, disk)
    ensures Work(Run(s, disk, waits), disk) <= if Granted(waits) >= Work(s, disk) then 0 else Work(s, disk) - Granted(waits)
    decreases waits
  {
    hide Tick, Pending, End, Work, Seen;
    if waits != [] {
      var t := Tick(s, disk, waits[0]);
      TickKeeps(s, disk, waits[0]);
      LogConserved(t, disk, waits[1..]);
      Reassociate(Seen(s, t), Log(t, disk, waits[1..]), Pending(Run(t, disk, waits[1..]), disk));
    }
  }

  lemma WorkDone(s: Bus, disk: Disk)
    requires Inv(s) && Work(s, disk) == 0
    ensures s.file == None && s.queue == [] && !s.wr && Pending(s, disk) == [] && End(s, disk) == Cursor(s.index, s.addr)
  {
  }

  /** For every wait schedule with enough ticks granted, the words shown are
      exactly the queued files' words, in order, each once; the bus is then idle
      and its address is the last start plus that file's length rounded up to even. */
  lemma DownloadCompletes(s: Bus, disk: Disk, waits: seq<bool>)
    requires Inv(s) && Granted(waits) >= Work(s, disk)
    ensures Log(s, disk, waits) == Pending(s, disk)
    ensures var t := Run(s, disk, waits);
            t.file == None && t.queue == [] && !t.wr && Cursor(t.index, t.addr) == End(s, disk)
  {
    LogConserved(s, disk, waits);
    WorkDone(Run(s, disk, waits), disk);
  }

  // ---- the download pin --------------------------------------------------------------------

  /** Low without a stream; high once a stream has been read from, and with every word. */
  ghost predicate PinOk(s: Bus) {
    match s.file
    case None => !s.download
    case Some(f) => f.pos > 0 || f.eof || s.wr ==> s.download
  }

  /** A tick raises the pin when it is granted to an open stream, keeps it while
      the core makes the stream wait, and lowers it when the stream ends. */
  lemma PinTick(s: Bus, disk: Disk, wait: bool)
    requires Inv(s) && PinOk(s)
    ensures var t := Tick(s, disk, wait); PinOk(t) && (t.download <==> t.file.Some? && (s.download || !wait))
  {
  }

  /** At every moment of every wait schedule every word shown comes with the pin
      up, and it is down whenever no stream is open. */
  lemma {:induction false} PinAlways(s: Bus, disk: Disk, waits: seq<bool>)
    requires Inv(s) && PinOk(s)
    ensures var t := Run(s, disk, waits); PinOk(t) && (t.wr ==> t.download) && (t.download ==> t.file.Some?)
    decreases waits
  {
    hide Tick;
    if waits != [] {
      TickKeeps(s, disk, waits[0]);
      PinTick(s, disk, waits[0]);
      PinAlways(Tick(s, disk, waits[0]), disk, waits[1..]);
    }
  }

  // ---- memory behind the bus ---------------------------------------------------------------

  /** Words by target index and byte address. */
  type Memory = map<(int, int), int>

  function Store(m: Memory, t: Bus): Memory { if t.wr then m[(t.index, t.addr) := t.dout] else m }

  /** The core stores on every tick with the strobe up, also while it repeats a word. */
  ghost function Stored(m: Memory, s: Bus, disk: Disk, waits: seq<bool>): Memory
    requires Inv(s)
    decreases waits
  {
    if waits == [] then m
    else
      TickKeeps(s, disk, waits[0]);
      Stored(Store(m, Tick(s, disk, waits[0])), Tick(s, disk, waits[0]), disk, waits[1..])
  }

  function Apply(m: Memory, ws: seq<Write>): Memory
    decreases ws
  {
    if ws == [] then m else Apply(m[(ws[0].index, ws[0].addr) := ws[0].word], ws[1..])
  }

  /** A word that is still up is already in memory. */
  ghost predicate UpIsStored(m: Memory, s: Bus) {
    s.wr ==> (s.index, s.addr) in m && m[(s.index, s.addr)] == s.dout
  }

  lemma StoreOnce(m: Memory, s: Bus, disk: Disk, wait: bool)
    requires Inv(s) && UpIsStored(m, s)
    ensures var t := Tick(s, disk, wait); UpIsStored(Store(m, t), t) && Store(m, t) == Apply(m, Seen(s, t))
  {
    var t := Tick(s, disk, wait);
    if t.wr && Seen(s, t) == [] {
      assert t.dout == s.dout;
      assert m[(t.index, t.addr) := t.dout] == m;
    } else if t.wr {
      assert Seen(s, t)[1..] == [];
    }
  }

  lemma {:induction false} ApplySplits(m: Memory, a: seq<Write>, b: seq<Write>)
    ensures Apply(m, a + b) == Apply(Apply(m, a), b)
    decreases a
  {
    if a == [] {
      assert a + b == b;
    } else {
      assert (a + b)[1..] == a[1..] + b;
      ApplySplits(m[(a[0].index, a[0].addr) := a[0].word], a[1..], b);
    }
  }

  /** Repeating a word on wait ticks changes nothing: memory is the log applied once. */
  lemma {:induction false} StoredIsLog(m: Memory, s: Bus, disk: Disk, waits: seq<bool>)
    requires Inv(s) && UpIsStored(m, s)
    ensures Stored(m, s, disk, waits) == Apply(m, Log(s, disk, waits))
    decreases waits
  {
    if waits != [] {
      TickKeeps(s, disk, waits[0]);
      var t := Tick(s, disk, waits[0]);
      StoreOnce(m, s, disk, waits[0]);
      StoredIsLog(Store(m, t), t, disk, waits[1..]);
      ApplySplits(m, Seen(s, t), Log(t, disk, waits[1..]));
      hide Tick, Inv, Pending, End, Work, Seen, Apply, Store;
    }
  }

  predicate Covers(index: int, base: int, n: nat, key: (int, int)) {
    key.0 == index && base <= key.1 < base + n && (key.1 - base) % 2 == 0
  }

  /** m2 is m1 with the file laid out at `base`, two bytes a word. */
  ghost predicate LaidOut(m1: Memory, m2: Memory, index: int, base: int, content: seq<byte>) {
    && (forall k: nat {:trigger WordOf(content, k)} :: 2 * k < |content| ==>
          (index, base + 2 * k) in m2 && m2[(index, base + 2 * k)] == WordOf(content, k))
    && forall key: (int, int) :: !Covers(index, base, |content|, key) ==>
          (key in m1 <==> key in m2) && (key in m1 ==> m2[key] == m1[key])
  }

  lemma CoversMore(index: int, base: int, n: nat, key: (int, int))
    requires n > 1 && Covers(index, base + 2, n - 2, key)
    ensures Covers(index, base, n, key)
  {
    assert key.1 - base == key.1 - (base + 2) + 2;
  }

  lemma {:induction false} FileLaidOut(m: Memory, index: int, base: int, content: seq<byte>)
    ensures LaidOut(m, Apply(m, FileWrites(index, base, content)), index, base, content)
    decreases |content|
  {
    if content != [] {
      var rest := Tail(content);
      var ws := FileWrites(index, base, content);
      var first := m[(index, base) := WordOf(content, 0)];
      assert ws[1..] == FileWrites(index, base + 2, rest);
      FileLaidOut(first, index, base + 2, rest);
      var m2 := Apply(m, ws);
      assert m2 == Apply(first, FileWrites(index, base + 2, rest));
      forall k: nat | 2 * k < |content|
        ensures (index, base + 2 * k) in m2 && m2[(index, base + 2 * k)] == WordOf(content, k)
      {
        if k > 0 {
          assert WordOf(content, k) == WordOf(rest, k - 1);
          assert base + 2 * k == base + 2 + 2 * (k - 1);
        } else {
          assert !Covers(index, base + 2, |rest|, (index, base));
        }
      }
      forall key: (int, int) | !Covers(index, base, |content|, key)
        ensures (key in m <==> key in m2) && (key in m ==> m2[key] == m[key])
      {
        assert Covers(index, base, |content|, (index, base));
        assert !Covers(index, base + 2, |rest|, key) by {
          if Covers(index, base + 2, |rest|, key) { CoversMore(index, base, |content|, key); }
        }
      }
    }
  }

  lemma OneChunk(c: Cursor, ch: Chunk, disk: Disk)
    ensures QueueWrites(c, [ch], disk) == ChunkWrites(c, ch, disk) && QueueEnd(c, [ch], disk) == After(c, ch, disk)
    ensures QueueTicks([ch], disk) == ChunkTicks(ch, disk)
  {
    assert [ch][1..] == [];
    assert ChunkWrites(c, ch, disk) + [] == ChunkWrites(c, ch, disk);
  }

  /** A file queued on an idle bus, whatever the core's wait pattern: memory
      holds the file as big-endian words from address zero and is otherwise
      untouched, and the address left behind is the length rounded up to even. */
  lemma SingleDownload(m: Memory, s: Bus, disk: Disk, name: string, index: int, waits: seq<bool>)
    requires Inv(s) && s.file == None && s.queue == [] && name in disk && 0 <= index < 256
    requires Granted(waits) >= |disk[name]| / 2 + 2
    ensures var q := s.(queue := [Chunk(name, index, true)]);
            && LaidOut(m, Stored(m, q, disk, waits), index, 0, disk[name])
            && Run(q, disk, waits).addr == Rounded(|disk[name]|)
            && Run(q, disk, waits).index == index && Run(q, disk, waits).file == None
  {
    var q := s.(queue := [Chunk(name, index, true)]);
    hide *;
    OneFilePending(s, disk, name, index);
    DownloadCompletes(q, disk, waits);
    NothingUp(m, q);
    StoredIsLog(m, q, disk, waits);
    FileLaidOut(m, index, 0, disk[name]);
  }

  lemma OneFilePending(s: Bus, disk: Disk, name: string, index: int)
    requires Inv(s) && s.file == None && name in disk && 0 <= index < 256
    ensures var q := s.(queue := [Chunk(name, index, true)]);
            && Inv(q) && Work(q, disk) == |disk[name]| / 2 + 2 && Pending(q, disk) == FileWrites(index, 0, disk[name])
            && End(q, disk) == Cursor(index, Rounded(|disk[name]|))
  {
    var q := s.(queue := [Chunk(name, index, true)]);
    assert Rest(q) == [] && FileWrites(q.index, q.next, []) == [];
    OneChunk(Here(q), q.queue[0], disk);
    assert [] + FileWrites(index, 0, disk[name]) == FileWrites(index, 0, disk[name]);
  }

  lemma NothingUp(m: Memory, s: Bus)
    requires Inv(s) && s.file == None
    ensures UpIsStored(m, s)
  {
  }

  // ---- several files -------------------------------------------------------------------------

  /** Files queued later come entirely after the ones queued before, from where those end. */
  lemma {:induction false} QueueIsFifo(c: Cursor, q: seq<Chunk>, r: seq<Chunk>, disk: Disk)
    ensures QueueWrites(c, q + r, disk) == QueueWrites(c, q, disk) + QueueWrites(QueueEnd(c, q, disk), r, disk)
    decreases q
  {
    if q == [] {
      assert q + r == r;
    } else {
      assert (q + r)[1..] == q[1..] + r;
      QueueIsFifo(After(c, q[0], disk), q[1..], r, disk);
    }
  }

  function Padded(content: seq<byte>): (p: seq<byte>)
    ensures |p| == Rounded(|content|) && content <= p
  {
    if |content| % 2 == 0 then content else content + [0]
  }

  lemma FileWritesStep(index: int, base: int, content: seq<byte>)
    requires content != []
    ensures FileWrites(index, base, content)
            == [Write(index, base, WordOf(content, 0))] + FileWrites(index, base + 2, Tail(content))
  {
  }

  lemma PadRest(a: seq<byte>, b: seq<byte>)
    requires a != []
    ensures var rest, whole := Tail(a), Padded(a) + b;
            whole != [] && Tail(whole) == Padded(rest) + b && WordOf(whole, 0) == WordOf(a, 0)
            && Rounded(|a|) == 2 + Rounded(|rest|)
  {
  }

  /** One word more in front of both sides. */
  lemma JoinStep(index: int, base: int, a: seq<byte>, b: seq<byte>, rest: seq<byte>, more: seq<Write>)
    requires a != [] && rest == Tail(a)
    requires FileWrites(index, base + 2, Padded(rest) + b) == FileWrites(index, base + 2, rest) + more
    ensures FileWrites(index, base, Padded(a) + b) == FileWrites(index, base, a) + more
  {
    hide *;
    PadRest(a, b);
    FileWritesStep(index, base, a);
    FileWritesStep(index, base, Padded(a) + b);
    Reassociate([Write(index, base, WordOf(a, 0))], FileWrites(index, base + 2, rest), more);
  }

  lemma {:induction false} WritesJoin(index: int, base: int, a: seq<byte>, b: seq<byte>)
    ensures FileWrites(index, base, Padded(a) + b) == FileWrites(index, base, a) + FileWrites(index, base + Rounded(|a|), b)
    decreases |a|
  {
    if a == [] {
      assert Padded(a) + b == b;
    } else {
      hide *;
      var rest := Tail(a);
      WritesJoin(index, base + 2, rest, b);
      PadRest(a, b);
      assert base + 2 + Rounded(|rest|) == base + Rounded(|a|);
      JoinStep(index, base, a, b, rest, FileWrites(index, base + Rounded(|a|), b));
    }
  }

  /** Two files for the same target, the second without restart, arrive as one
      image: the first padded to even length, the second right behind it. */
  lemma SequentialImages(c: Cursor, index: int, first: string, second: string, disk: Disk)
    requires 0 <= index < 256 && first in disk && second in disk
    ensures QueueWrites(c, [Chunk(first, index, true), Chunk(second, index, false)], disk)
            == FileWrites(index, 0, Padded(disk[first]) + disk[second])
  {
    var a, b := Chunk(first, index, true), Chunk(second, index, false);
    assert [a, b] == [a] + [b];
    QueueIsFifo(c, [a], [b], disk);
    OneChunk(c, a, disk);
    OneChunk(After(c, a, disk), b, disk);
    WritesJoin(index, 0, disk[first], disk[second]);
  }

  /** The second file continues behind the first exactly when the index fits
      the 8-bit pin; a wider index never matches the pin again, so the address
      starts over (for an empty first file both are zero). */
  lemma ContinuesIff(c: Cursor, index: int, first: string, second: string, disk: Disk)
    requires first in disk && disk[first] != []
    ensures StartOf(After(c, Chunk(first, index, true), disk), Chunk(second, index, false)) == Rounded(|disk[first]|)
            <==> 0 <= index < 256
  {
    var n := |disk[first]|;
    assert Rounded(n) > 0;
  }

  // ---- what does not hold --------------------------------------------------------------------

  /** The chunk the two-argument constructor builds: it initialises a temporary
      instead of itself, so the name is empty and the other two fields are
      whatever memory held. */
  function TwoArgumentChunk(name: string, index: int, leftIndex: int, leftRestart: bool): Chunk {
    Chunk("", leftIndex, leftRestart)
  }

  /** A download queued with the two-argument form sends no word of its file. */
  lemma TwoArgumentFormSendsNothing(s: Bus, disk: Disk, name: string, index: int, leftIndex: int, leftRestart: bool, waits: seq<bool>)
    requires Inv(s) && s.file == None && s.queue == [TwoArgumentChunk(name, index, leftIndex, leftRestart)]
    requires "" !in disk
    ensures Log(s, disk, waits) == []
  {
    assert Rest(s) == [] && FileWrites(s.index, s.next, []) == [];
    OneChunk(Here(s), s.queue[0], disk);
    assert Pending(s, disk) == [];
    hide Pending, Work, End;
    LogConserved(s, disk, waits);
  }
}
