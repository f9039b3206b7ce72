/** Printed B-tree files and records, and what reading them back gives. */
module HfsPrint {
  import opened Basics
  import opened HfsFork
  import opened HfsContent
  import opened HfsTree

  // ---- records ------------------------------------------------------------------------

  function Put16(v: int): (r: seq<byte>)
    requires 0 <= v < 0x1_0000
    ensures |r| == 2
  {
    [v / 256, v % 256]
  }

  function Put32(v: int): (r: seq<byte>)
    requires 0 <= v < 0x1_0000_0000
    ensures |r| == 4
  {
    [v / 0x100_0000, v / 0x1_0000 % 256, v / 256 % 256, v % 256]
  }

  predicate Narrow(e: Extent) { e.start < 0x1_0000 && e.count < 0x1_0000 }

  predicate Printable(k: Key, exts: ExtentRecord) {
    0 <= k.fork < 256 && 0 <= k.fileId < 0x1_0000_0000 && 0 <= k.start < 0x1_0000
    && Narrow(exts[0]) && Narrow(exts[1]) && Narrow(exts[2])
  }

  function PutExtent(e: Extent): (r: seq<byte>)
    requires Narrow(e)
    ensures |r| == 4
  {
    Put16(e.start) + Put16(e.count)
  }

  /** An extents-overflow leaf record: key length, fork, file id, start block, three extents. */
  function PrintRecord(k: Key, exts: ExtentRecord): (r: Record)
    requires Printable(k, exts)
    ensures |r| == 20
  {
    [7, k.fork] + Put32(k.fileId) + Put16(k.start) + (PutExtent(exts[0]) + PutExtent(exts[1]) + PutExtent(exts[2]))
  }

  lemma Read16(a: seq<byte>, v: int, c: seq<byte>)
    requires 0 <= v < 0x1_0000
    ensures Be16(a + Put16(v) + c, |a|) == Some(v)
  {
    var b := a + Put16(v) + c;
    assert b[|a|] == v / 256 && b[|a| + 1] == v % 256;
  }

  lemma Read32(a: seq<byte>, v: int, c: seq<byte>)
    requires 0 <= v < 0x1_0000_0000
    ensures Be32(a + Put32(v) + c, |a|) == Some(v)
  {
    var b := a + Put32(v) + c;
    assert b[|a|] == v / 0x100_0000 && b[|a| + 1] == v / 0x1_0000 % 256 && b[|a| + 2] == v / 256 % 256 && b[|a| + 3] == v % 256;
    var h := v / 256;
    assert v / 0x1_0000 == h / 256 && v / 0x100_0000 == h / 256 / 256;
  }

  lemma ExtentsRoundTrip(exts: ExtentRecord)
    requires Narrow(exts[0]) && Narrow(exts[1]) && Narrow(exts[2])
    ensures ReadExtents(PutExtent(exts[0]) + PutExtent(exts[1]) + PutExtent(exts[2])) == exts
  {
    var b := PutExtent(exts[0]) + PutExtent(exts[1]) + PutExtent(exts[2]);
    forall i | 0 <= i < 3 ensures Be16(b, 4 * i) == Some(exts[i].start) && Be16(b, 4 * i + 2) == Some(exts[i].count) {
      var x := PutExtent(exts[i]);
      assert b[4 * i..4 * i + 4] == x;
      assert b == b[..4 * i] + Put16(exts[i].start) + (Put16(exts[i].count) + b[4 * i + 4..]);
      Read16(b[..4 * i], exts[i].start, Put16(exts[i].count) + b[4 * i + 4..]);
      assert b == b[..4 * i + 2] + Put16(exts[i].count) + b[4 * i + 4..];
      Read16(b[..4 * i + 2], exts[i].count, b[4 * i + 4..]);
    }
    assert Be16(b, 4 * 0).Some? && Be16(b, 4 * 1).Some? && Be16(b, 4 * 2).Some?;
    assert ReadExtents(b)[0] == exts[0] && ReadExtents(b)[1] == exts[1] && ReadExtents(b)[2] == exts[2];
  }

  lemma RecordRoundTrip(k: Key, exts: ExtentRecord)
    requires Printable(k, exts)
    ensures ParseRecord(PrintRecord(k, exts)) == Some((Entry(k, exts), []))
  {
    var rec := PrintRecord(k, exts);
    var data := PutExtent(exts[0]) + PutExtent(exts[1]) + PutExtent(exts[2]);
    assert rec == [7, k.fork] + Put32(k.fileId) + (Put16(k.start) + data);
    Read32([7, k.fork], k.fileId, Put16(k.start) + data);
    Read16([7, k.fork] + Put32(k.fileId), k.start, data);
    assert rec[8..] == data;
    ExtentsRoundTrip(exts);
  }

  /** One overflow record and the key it is filed under. */
  datatype Filing = Filing(key: Key, exts: ExtentRecord)

  ghost predicate AllPrintable(fs: seq<Filing>) { forall k :: 0 <= k < |fs| ==> Printable(fs[k].key, fs[k].exts) }

  ghost function PrintAll(fs: seq<Filing>): (r: seq<Record>)
    requires AllPrintable(fs)
    ensures |r| == |fs|
  {
    if fs == [] then [] else [PrintRecord(fs[0].key, fs[0].exts)] + PrintAll(fs[1..])
  }

  /** The overflow map after filing in order; a later record for a key replaces an earlier one. */
  function Filed(fs: seq<Filing>, ov: Overflow): Overflow
    decreases |fs|
  {
    if fs == [] then ov else Filed(fs[1..], ov[fs[0].key := fs[0].exts])
  }

  lemma LoadOne(k: Key, exts: ExtentRecord, recs: seq<Record>, ov: Overflow)
    requires Printable(k, exts)
    ensures LoadRecords([PrintRecord(k, exts)] + recs, ov) == LoadRecords(recs, ov[k := exts])
  {
    RecordRoundTrip(k, exts);
    var all := [PrintRecord(k, exts)] + recs;
    assert all[1..] == recs;
    var rest := LoadRecords(recs, ov[k := exts]);
    if rest.Some? { assert [] + rest.value.1 == rest.value.1; }
  }

  /** Loading printed records, of any forks in any order, files each one under its key. */
  lemma {:induction false} LoadPrinted(fs: seq<Filing>, ov: Overflow)
    requires AllPrintable(fs)
    ensures LoadRecords(PrintAll(fs), ov) == Some((Filed(fs, ov), []))
    decreases |fs|
  {
    if fs != [] {
      hide LoadRecords, PrintRecord;
      LoadOne(fs[0].key, fs[0].exts, PrintAll(fs[1..]), ov);
      LoadPrinted(fs[1..], ov[fs[0].key := fs[0].exts]);
    }
  }

  lemma {:induction false} FiledAppend(a: seq<Filing>, b: seq<Filing>, ov: Overflow)
    ensures Filed(a + b, ov) == Filed(b, Filed(a, ov))
    decreases |a|
  {
    if a == [] {
      assert a + b == b;
    } else {
      assert (a + b)[1..] == a[1..] + b;
      FiledAppend(a[1..], b, ov[a[0].key := a[0].exts]);
    }
  }

  /** Filing under other keys keeps what is there. */
  lemma {:induction false} FiledKeeps(fs: seq<Filing>, ov: Overflow, part: Overflow)
    requires Holds(ov, part) && forall k :: 0 <= k < |fs| ==> fs[k].key !in part
    ensures Holds(Filed(fs, ov), part)
    decreases |fs|
  {
    if fs != [] {
      FiledKeeps(fs[1..], ov[fs[0].key := fs[0].exts], part);
    }
  }

  /** The records a fork's extent records are filed as, in key order. */
  function ChainFilings(fork: int, id: int, recs: seq<ExtentRecord>, before: nat): seq<Filing>
    decreases |recs|
  {
    if |recs| <= 1 then []
    else
      var at := before + Total(recs[0]);
      [Filing(Key(fork, id, at), recs[1])] + ChainFilings(fork, id, recs[1..], at)
  }

  lemma {:induction false} ChainIsFiled(fork: int, id: int, recs: seq<ExtentRecord>, before: nat, ov: Overflow)
    requires recs != [] && NonEmptyTail(recs) && Total(recs[0]) > 0
    ensures Filed(ChainFilings(fork, id, recs, before), ov) == ov + OverflowOf(fork, id, recs, before)
    decreases |recs|
  {
    if |recs| > 1 {
      var at, rest := before + Total(recs[0]), recs[1..];
      var key := Key(fork, id, at);
      assert Total(recs[1]) > 0;
      forall k | 1 <= k < |rest| ensures Total(rest[k]) > 0 { assert rest[k] == recs[k + 1]; }
      ChainIsFiled(fork, id, rest, at, ov[key := recs[1]]);
      LaterKeys(fork, id, rest, at);
      MergeEarlier(ov, key, recs[1], OverflowOf(fork, id, rest, at));
      assert ChainFilings(fork, id, recs, before)[1..] == ChainFilings(fork, id, rest, at);
    } else {
      assert ov + map[] == ov;
    }
  }

  lemma MergeEarlier(ov: Overflow, key: Key, exts: ExtentRecord, inner: Overflow)
    requires key !in inner
    ensures ov[key := exts] + inner == ov + inner[key := exts]
  {
  }

  /** A fork's records among those of others: whatever is filed before, and
      under other keys after, the map holds all of them. */
  lemma FiledAmongOthers(a: seq<Filing>, fork: int, id: int, exts: seq<Extent>, b: seq<Filing>)
    requires exts != [] && forall k :: 0 <= k < |exts| ==> exts[k].count > 0
    requires forall k :: 0 <= k < |b| ==> b[k].key !in OverflowOf(fork, id, Cut(exts), 0)
    ensures Holds(Filed(a + (ChainFilings(fork, id, Cut(exts), 0) + b), map[]), OverflowOf(fork, id, Cut(exts), 0))
  {
    var c := ChainFilings(fork, id, Cut(exts), 0);
    CutNonEmpty(exts);
    FiledAppend(a, c + b, map[]);
    FiledAppend(c, b, Filed(a, map[]));
    ChainIsFiled(fork, id, Cut(exts), 0, Filed(a, map[]));
    FiledKeeps(b, Filed(c, Filed(a, map[])), OverflowOf(fork, id, Cut(exts), 0));
  }

  /** A fork of fewer than 65536 blocks, all numbers in range, can be printed. */
  lemma {:induction false} ChainPrintable(fork: int, id: int, recs: seq<ExtentRecord>, before: nat)
    requires 0 <= fork < 256 && 0 <= id < 0x1_0000_0000 && before + |AllBlocks(recs)| < 0x1_0000
    requires forall k :: 0 <= k < |recs| ==> Narrow(recs[k][0]) && Narrow(recs[k][1]) && Narrow(recs[k][2])
    ensures AllPrintable(ChainFilings(fork, id, recs, before))
    decreases |recs|
  {
    if |recs| > 1 {
      var at, rest := before + Total(recs[0]), recs[1..];
      assert recs == [recs[0]] + rest;
      FlatCons(recs[0], rest);
      assert forall k :: 0 <= k < |rest| ==> rest[k] == recs[k + 1];
      ChainPrintable(fork, id, rest, at);
      var all, tail := ChainFilings(fork, id, recs, before), ChainFilings(fork, id, rest, at);
      assert all == [Filing(Key(fork, id, at), recs[1])] + tail;
      forall k | 0 <= k < |all| ensures Printable(all[k].key, all[k].exts) {
        if k > 0 { assert all[k] == tail[k - 1]; }
      }
    }
  }

  lemma CutPrintable(fork: int, id: int, exts: seq<Extent>)
    requires 0 <= fork < 256 && 0 <= id < 0x1_0000_0000
    requires (forall k :: 0 <= k < |exts| ==> Narrow(exts[k])) && Total(exts) < 0x1_0000
    ensures AllPrintable(ChainFilings(fork, id, Cut(exts), 0))
  {
    CutKeepsBlocks(exts);
    BlocksCounted(exts);
    CutNarrow(exts);
    ChainPrintable(fork, id, Cut(exts), 0);
  }

  lemma {:induction false} CutNarrow(exts: seq<Extent>)
    requires forall k :: 0 <= k < |exts| ==> Narrow(exts[k])
    ensures forall k :: 0 <= k < |Cut(exts)| ==> Narrow(Cut(exts)[k][0]) && Narrow(Cut(exts)[k][1]) && Narrow(Cut(exts)[k][2])
    decreases |exts|
  {
    if |exts| > 3 {
      CutNarrow(exts[3..]);
      var rest := Cut(exts[3..]);
      assert Cut(exts) == [exts[..3]] + rest;
    }
  }

  // ---- leaf nodes --------------------------------------------------------------------

  const LEAF_HEAD := 14

  function Joined(parts: seq<seq<byte>>): seq<byte> { if parts == [] then [] else parts[0] + Joined(parts[1..]) }

  lemma {:induction false} JoinedAppend(a: seq<Record>, b: seq<Record>)
    ensures Joined(a + b) == Joined(a) + Joined(b)
    decreases a
  {
    if a == [] {
      assert a + b == b;
    } else {
      assert (a + b)[1..] == a[1..] + b;
      JoinedAppend(a[1..], b);
    }
  }

  /** Where record i starts in its node. */
  function OffsetOf(recs: seq<Record>, i: nat): nat
    requires i <= |recs|
  {
    LEAF_HEAD + |Joined(recs[..i])|
  }

  /** The offset table from its low end: the offsets in reverse order. */
  function Table(recs: seq<Record>, n: nat): (t: seq<byte>)
    requires n <= |recs| + 1 && LEAF_HEAD + |Joined(recs)| < 0x1_0000
    ensures |t| == 2 * n
  {
    if n == 0 then [] else
      OffsetInside(recs, n - 1);
      Put16(OffsetOf(recs, n - 1)) + Table(recs, n - 1)
  }

  lemma OffsetInside(recs: seq<Record>, i: nat)
    requires i <= |recs|
    ensures OffsetOf(recs, i) <= LEAF_HEAD + |Joined(recs)|
  {
    assert recs == recs[..i] + recs[i..];
    JoinedAppend(recs[..i], recs[i..]);
  }

  /** What a leaf node holds besides its records: the link to the next leaf,
      fields the walk does not read, and the unused space. */
  datatype Frame = Frame(link: int, kind: seq<byte>, spare: seq<byte>, free: seq<byte>)

  predicate FitsNode(recs: seq<Record>, f: Frame) {
    && 0 <= f.link < 0x1_0000_0000 && |f.kind| == 6 && |f.spare| == 2 && |recs| < 0x1_0000
    && LEAF_HEAD + |Joined(recs)| + |f.free| + 2 * (|recs| + 1) == NODE_SIZE
  }

  function LeafNode(recs: seq<Record>, f: Frame): (n: Node)
    requires FitsNode(recs, f)
    ensures |n| == NODE_SIZE
  {
    Put32(f.link) + f.kind + Put16(|recs|) + f.spare + Joined(recs) + f.free + Table(recs, |recs| + 1)
  }

  lemma BehindTwo(head: seq<byte>, rest: seq<byte>, k: nat)
    requires |head| == 2 && k + 2 <= |rest|
    ensures (head + rest)[2 + k..4 + k] == rest[k..k + 2]
  {
  }

  /** Entry i of the table, counted from its high end. */
  lemma {:induction false} TableEntry(recs: seq<Record>, n: nat, i: nat)
    requires i < n <= |recs| + 1 && LEAF_HEAD + |Joined(recs)| < 0x1_0000
    ensures OffsetOf(recs, i) < 0x1_0000
    ensures var t := Table(recs, n); t[2 * (n - 1 - i)..2 * (n - i)] == Put16(OffsetOf(recs, i))
    decreases n
  {
    OffsetInside(recs, i);
    var t := Table(recs, n);
    if i < n - 1 {
      TableEntry(recs, n - 1, i);
      OffsetInside(recs, n - 1);
      var head, rest := Put16(OffsetOf(recs, n - 1)), Table(recs, n - 1);
      assert t == head + rest;
      hide Table;
      BehindTwo(head, rest, 2 * (n - 2 - i));
    }
  }

  lemma ReadAt16(b: seq<byte>, o: nat, v: int)
    requires 0 <= v < 0x1_0000 && o + 2 <= |b| && b[o..o + 2] == Put16(v)
    ensures Be16(b, o) == Some(v)
  {
    assert b == b[..o] + Put16(v) + b[o + 2..];
    Read16(b[..o], v, b[o + 2..]);
  }

  lemma OffsetRead(recs: seq<Record>, f: Frame, i: nat)
    requires FitsNode(recs, f) && i <= |recs|
    ensures Be16(LeafNode(recs, f), NODE_SIZE - 2 * (i + 1)) == Some(OffsetOf(recs, i))
  {
    var node, n := LeafNode(recs, f), |recs| + 1;
    var t := Table(recs, n);
    var at := NODE_SIZE - 2 * n;
    assert node[at..] == t;
    TableEntry(recs, n, i);
    assert node[at + 2 * (n - 1 - i)..at + 2 * (n - i)] == t[2 * (n - 1 - i)..2 * (n - i)];
    ReadAt16(node, at + 2 * (n - 1 - i), OffsetOf(recs, i));
  }

  /** All offsets up to entry n - 1. */
  function AllOffsets(recs: seq<Record>, n: nat): seq<nat>
    requires n <= |recs| + 1
  {
    if n == 0 then [] else AllOffsets(recs, n - 1) + [OffsetOf(recs, n - 1)]
  }

  lemma {:induction false} OffsetsRead(recs: seq<Record>, f: Frame, n: nat)
    requires FitsNode(recs, f) && n <= |recs| + 1
    ensures Offsets(LeafNode(recs, f), n) == Some(AllOffsets(recs, n))
    decreases n
  {
    hide LeafNode, Table, FitsNode;
    if n > 0 {
      OffsetsRead(recs, f, n - 1);
      OffsetRead(recs, f, n - 1);
    }
  }

  lemma {:induction false} OffsetsAt(recs: seq<Record>, n: nat, i: nat)
    requires i < n <= |recs| + 1
    ensures |AllOffsets(recs, n)| == n && AllOffsets(recs, n)[i] == OffsetOf(recs, i)
    decreases n
  {
    if n > 1 { OffsetsAt(recs, n - 1, if i < n - 1 then i else 0); }
  }

  /** The bytes between two offsets are the record. */
  lemma RecordCut(recs: seq<Record>, f: Frame, i: nat)
    requires FitsNode(recs, f) && i < |recs|
    ensures Slice(LeafNode(recs, f), OffsetOf(recs, i), OffsetOf(recs, i + 1)) == recs[i]
  {
    var node, body := LeafNode(recs, f), Joined(recs);
    BodyCut(recs, i);
    var lo := |Joined(recs[..i])|;
    hide Joined;
    assert node[LEAF_HEAD..LEAF_HEAD + |body|] == body;
    assert node[LEAF_HEAD + lo..LEAF_HEAD + lo + |recs[i]|] == body[lo..lo + |recs[i]|];
  }

  lemma BodyCut(recs: seq<Record>, i: nat)
    requires i < |recs|
    ensures var lo, body := |Joined(recs[..i])|, Joined(recs);
            lo + |recs[i]| <= |body| && body[lo..lo + |recs[i]|] == recs[i] && |Joined(recs[..i + 1])| == lo + |recs[i]|
  {
    var body := Joined(recs);
    assert recs == recs[..i] + ([recs[i]] + recs[i + 1..]);
    JoinedAppend(recs[..i], [recs[i]] + recs[i + 1..]);
    assert ([recs[i]] + recs[i + 1..])[1..] == recs[i + 1..];
    assert body == Joined(recs[..i]) + (recs[i] + Joined(recs[i + 1..]));
    assert recs[..i + 1] == recs[..i] + [recs[i]];
    JoinedAppend(recs[..i], [recs[i]]);
    var one := [recs[i]];
    assert one[1..] == [] && Joined(one) == recs[i] + [];
    Middle(Joined(recs[..i]), recs[i], Joined(recs[i + 1..]));
  }

  lemma Middle(a: seq<byte>, b: seq<byte>, c: seq<byte>)
    ensures (a + (b + c))[|a|..|a| + |b|] == b
  {
  }

  lemma {:induction false} CutsFrom(recs: seq<Record>, f: Frame, i: nat)
    requires FitsNode(recs, f) && i <= |recs|
    ensures |AllOffsets(recs, |recs| + 1)| == |recs| + 1
    ensures Cuts(LeafNode(recs, f), AllOffsets(recs, |recs| + 1)[i..]) == recs[i..]
    decreases |recs| - i
  {
    hide LeafNode, FitsNode, AllOffsets, OffsetOf, Slice;
    var all := AllOffsets(recs, |recs| + 1);
    OffsetsAt(recs, |recs| + 1, i);
    if i < |recs| {
      OffsetsAt(recs, |recs| + 1, i + 1);
      RecordCut(recs, f, i);
      CutsFrom(recs, f, i + 1);
      var offs := all[i..];
      assert offs[0] == all[i] && offs[1] == all[i + 1] && offs[1..] == all[i + 1..];
      assert recs[i..] == [recs[i]] + recs[i + 1..];
    }
  }

  /** A printed leaf node reads back as its records and its link. */
  lemma LeafRoundTrip(recs: seq<Record>, f: Frame)
    requires FitsNode(recs, f)
    ensures NodeRecords(LeafNode(recs, f)) == Some(recs) && Link(LeafNode(recs, f)) == Some(f.link)
  {
    LeafFields(recs, f);
    hide LeafNode, AllOffsets;
    OffsetsRead(recs, f, |recs| + 1);
    CutsFrom(recs, f, 0);
    var all := AllOffsets(recs, |recs| + 1);
    assert all[0..] == all && recs[0..] == recs;
  }

  lemma LeafFields(recs: seq<Record>, f: Frame)
    requires FitsNode(recs, f)
    ensures Be16(LeafNode(recs, f), 10) == Some(|recs|) && Be32(LeafNode(recs, f), 0) == Some(f.link)
  {
    var node := LeafNode(recs, f);
    assert node[10..12] == Put16(|recs|);
    ReadAt16(node, 10, |recs|);
    assert node == [] + Put32(f.link) + node[4..];
    Read32([], f.link, node[4..]);
  }

  // ---- the header node and the tree file -------------------------------------------------

  /** The header node around its two fields: 24 bytes before the first leaf, 4 between, the rest. */
  datatype HeaderFrame = HeaderFrame(before: seq<byte>, between: seq<byte>, after: seq<byte>)

  predicate FitsHeader(first: int, h: HeaderFrame) {
    0 <= first < 0x1_0000_0000 && |h.before| == 24 && h.before[8] == 1 && |h.between| == 4 && |h.after| == NODE_SIZE - 34
  }

  function HeaderNode(first: int, h: HeaderFrame): (n: Node)
    requires FitsHeader(first, h)
    ensures |n| == NODE_SIZE
  {
    h.before + Put32(first) + h.between + Put16(NODE_SIZE) + h.after
  }

  lemma HeaderReads(first: int, h: HeaderFrame, nodes: seq<Node>, name: string)
    requires FitsHeader(first, h) && nodes != [] && nodes[0] == HeaderNode(first, h)
    ensures ReadHeader(nodes, name) == Header(first)
  {
    var node := nodes[0];
    assert node[8] == h.before[8];
    assert node[32..34] == Put16(NODE_SIZE);
    ReadAt16(node, 32, NODE_SIZE);
    assert node == h.before + Put32(first) + node[28..];
    Read32(h.before, first, node[28..]);
  }

  /** A leaf of a tree file: the node number it lies at, its records, and the rest of the node. */
  datatype Leaf = Leaf(place: nat, filings: seq<Filing>, frame: Frame)

  ghost predicate LeafAt(nodes: seq<Node>, x: Leaf, next: nat) {
    && 0 < x.place < |nodes| && AllPrintable(x.filings) && x.frame.link == next
    && FitsNode(PrintAll(x.filings), x.frame) && nodes[x.place] == LeafNode(PrintAll(x.filings), x.frame)
  }

  function FirstPlace(leaves: seq<Leaf>): nat { if leaves == [] then 0 else leaves[0].place }

  /** The leaves lie at different node numbers, in any order, each linked to the next. */
  ghost predicate LeafChain(nodes: seq<Node>, leaves: seq<Leaf>) {
    leaves != [] ==>
      && LeafAt(nodes, leaves[0], FirstPlace(leaves[1..])) && LeafChain(nodes, leaves[1..])
      && forall k :: 1 <= k < |leaves| ==> leaves[k].place != leaves[0].place
  }

  function AllFilings(leaves: seq<Leaf>): seq<Filing> {
    if leaves == [] then [] else leaves[0].filings + AllFilings(leaves[1..])
  }

  lemma {:induction false} PrintAllAppend(a: seq<Filing>, b: seq<Filing>)
    requires AllPrintable(a) && AllPrintable(b)
    ensures AllPrintable(a + b) && PrintAll(a + b) == PrintAll(a) + PrintAll(b)
    decreases |a|
  {
    if a == [] {
      assert a + b == b;
    } else {
      hide PrintRecord, Printable;
      assert (a + b)[1..] == a[1..] + b;
      PrintAllAppend(a[1..], b);
    }
  }

  /** Following the links of printed leaves yields their records in order. */
  lemma {:induction false} FollowPrinted(nodes: seq<Node>, leaves: seq<Leaf>, seen: set<nat>)
    requires LeafChain(nodes, leaves) && forall k :: 0 <= k < |leaves| ==> leaves[k].place !in seen
    ensures AllPrintable(AllFilings(leaves))
    ensures var w := Follow(nodes, FirstPlace(leaves), seen); w.end == Clean && w.records == PrintAll(AllFilings(leaves))
    decreases |leaves|
  {
    if leaves != [] {
      hide LeafNode, NodeRecords, Link, PrintAll, FitsNode, AllPrintable;
      var x, rest := leaves[0], leaves[1..];
      LeafRoundTrip(PrintAll(x.filings), x.frame);
      SeenShrinks(|nodes|, seen, x.place);
      assert forall k :: 0 <= k < |rest| ==> rest[k] == leaves[k + 1];
      FollowPrinted(nodes, rest, seen + {x.place});
      PrintAllAppend(x.filings, AllFilings(rest));
    }
  }

  lemma {:induction false} NodesOfJoined(nodes: seq<Node>)
    requires forall k :: 0 <= k < |nodes| ==> |nodes[k]| == NODE_SIZE
    ensures Nodes(Joined(nodes)) == nodes
    decreases |nodes|
  {
    if nodes != [] {
      var rest := nodes[1..];
      NodesOfJoined(rest);
      var raw := Joined(nodes);
      assert raw[..NODE_SIZE] == nodes[0] && raw[NODE_SIZE..] == Joined(rest);
    }
  }

  /** A tree file: whole nodes, the header first, its leaves chained; index and free nodes hold anything. */
  ghost predicate TreeFile(nodes: seq<Node>, h: HeaderFrame, leaves: seq<Leaf>) {
    && nodes != [] && (forall k :: 0 <= k < |nodes| ==> |nodes[k]| == NODE_SIZE)
    && FitsHeader(FirstPlace(leaves), h) && nodes[0] == HeaderNode(FirstPlace(leaves), h)
    && LeafChain(nodes, leaves)
  }

  /** Loading a printed tree file files exactly its leaves' records and reports nothing. */
  lemma LoadPrintedTree(nodes: seq<Node>, h: HeaderFrame, leaves: seq<Leaf>, name: string)
    requires TreeFile(nodes, h, leaves)
    ensures LoadTree(Joined(nodes), name) == Loaded(Filed(AllFilings(leaves), map[]), [])
  {
    hide Follow, LoadRecords, Nodes, ReadHeader, LeafChain, HeaderNode, FitsHeader;
    NodesOfJoined(nodes);
    HeaderReads(FirstPlace(leaves), h, nodes, name);
    FollowPrinted(nodes, leaves, {});
    LoadPrinted(AllFilings(leaves), map[]);
  }

  lemma {:induction false} RecordsLength(fs: seq<Filing>)
    requires AllPrintable(fs)
    ensures |Joined(PrintAll(fs))| == 20 * |fs|
    decreases |fs|
  {
    if fs != [] {
      RecordsLength(fs[1..]);
      assert PrintAll(fs)[1..] == PrintAll(fs[1..]);
    }
  }

  function Filler(n: nat): seq<byte> { seq(n, i => 0) }

  /** One leaf has room for 22 extent records, so such trees exist. */
  lemma OneLeafTree(fs: seq<Filing>) returns (nodes: seq<Node>, h: HeaderFrame, leaves: seq<Leaf>)
    requires AllPrintable(fs) && |fs| <= 22
    ensures TreeFile(nodes, h, leaves) && AllFilings(leaves) == fs
  {
    RecordsLength(fs);
    h := HeaderFrame(Filler(24)[8 := 1], Filler(4), Filler(NODE_SIZE - 34));
    var frame := Frame(0, Filler(6), Filler(2), Filler(NODE_SIZE - LEAF_HEAD - 20 * |fs| - 2 * (|fs| + 1)));
    leaves := [Leaf(1, fs, frame)];
    nodes := [HeaderNode(1, h), LeafNode(PrintAll(fs), frame)];
    assert leaves[1..] == [] && fs + AllFilings([]) == fs;
  }

  /** End to end: a file's extents are cut into an inline record and overflow
      records, the overflow records are printed into the leaves of an extents tree
      among those of other files, the tree file is loaded, and the fork is read
      through the loaded map: the bytes are the file's content. */
  lemma StoredForkIsContent(v: Volume, nodes: seq<Node>, h: HeaderFrame, leaves: seq<Leaf>, name: string,
                            fork: int, id: int, exts: seq<Extent>, pylen: nat)
    requires v.Valid() && v.Fits() && TreeFile(nodes, h, leaves)
    requires forall k :: 0 <= k < |exts| ==> exts[k].count > 0
    requires InRange(v, BlocksOf(exts)) && Needed(v, pylen) <= Total(exts)
    requires Holds(Filed(AllFilings(leaves), map[]), OverflowOf(fork, id, Cut(exts), 0))
    ensures var l := LoadTree(Joined(nodes), name);
            && l.Loaded? && l.problems == []
            && var f := ForkBytes(v, l.overflow, Cut(exts)[0], pylen, id, fork);
               f.Done? && IsContent(v, BlocksOf(exts), pylen, f.bytes)
  {
    hide TreeFile, LoadTree, ForkBytes, IsContent, Filed;
    LoadPrintedTree(nodes, h, leaves, name);
    CutForkIsContent(v, Filed(AllFilings(leaves), map[]), fork, id, exts, pylen);
  }
}
