/** Reassembling an HFS fork from inline extents and the extents-overflow map. */
module HfsFork {
  import opened Basics

  datatype Extent = Extent(start: nat, count: nat)

  /** Three extent slots, as in a catalog record or an overflow record. */
  type ExtentRecord = r: seq<Extent> | |r| == 3 witness [Extent(0, 0), Extent(0, 0), Extent(0, 0)]

  /** Overflow records keyed by fork, file id and blocks so far. */
  datatype Key = Key(fork: int, fileId: int, start: int)
  type Overflow = map<Key, ExtentRecord>

  /** The volume's image and geometry from the MDB. */
  datatype Volume = Volume(img: seq<byte>, blocks: nat, blockSize: nat, firstSector: nat) {
    predicate Valid() { blockSize > 0 }

    /** The MDB's span fits the image. */
    predicate Fits() { firstSector * 512 + blocks * blockSize <= |img| }
  }

  /** A Python slice with non-negative bounds. */
  function Slice(s: seq<byte>, lo: nat, hi: nat): seq<byte> {
    if hi <= lo || |s| <= lo then [] else s[lo..Min(hi, |s|)]
  }

  function Block(v: Volume, a: nat): seq<byte> {
    var off := v.firstSector * 512 + a * v.blockSize;
    Slice(v.img, off, off + v.blockSize)
  }

  // ---- records as block lists ------------------------------------------------

  function Range(start: nat, count: nat): (r: seq<nat>)
    ensures |r| == count
  {
    seq(count, k requires 0 <= k => start + k)
  }

  function BlocksOf(exts: seq<Extent>): seq<nat> {
    if exts == [] then [] else Range(exts[0].start, exts[0].count) + BlocksOf(exts[1..])
  }

  function Total(exts: seq<Extent>): nat {
    if exts == [] then 0 else exts[0].count + Total(exts[1..])
  }

  lemma {:induction false} BlocksCounted(exts: seq<Extent>)
    ensures |BlocksOf(exts)| == Total(exts)
  {
    if exts != [] { BlocksCounted(exts[1..]); }
  }

  /** The bytes of a list of blocks. */
  function Bytes(v: Volume, blocks: seq<nat>): seq<byte> {
    if blocks == [] then [] else Block(v, blocks[0]) + Bytes(v, blocks[1..])
  }

  lemma {:induction false} BytesAppend(v: Volume, a: seq<nat>, b: seq<nat>)
    ensures Bytes(v, a + b) == Bytes(v, a) + Bytes(v, b)
  {
    if a == [] {
      assert a + b == b;
    } else {
      assert (a + b)[1..] == a[1..] + b;
      BytesAppend(v, a[1..], b);
    }
  }

  predicate InRange(v: Volume, blocks: seq<nat>) {
    forall k :: 0 <= k < |blocks| ==> blocks[k] < v.blocks
  }

  /** The first block outside the volume. */
  function FirstBad(v: Volume, blocks: seq<nat>): nat
    requires !InRange(v, blocks)
  {
    if blocks[0] >= v.blocks then blocks[0] else FirstBad(v, blocks[1..])
  }

  // ---- the walk ----------------------------------------------------------------

  datatype Outcome = Done(bytes: seq<byte>) | BlockOutOfRange(block: nat) | Missing(got: nat) | EmptyLoop

  function Needed(v: Volume, pylen: nat): nat
    requires v.Valid()
  {
    (pylen + v.blockSize - 1) / v.blockSize
  }

  /** From `got` blocks read into `out`, with `exts` the record at hand. The
      measure: blocks still needed, then whether the record at hand is empty. */
  function Walk(v: Volume, ov: Overflow, fork: int, id: int, need: nat, got: nat, out: seq<byte>, exts: ExtentRecord): Outcome
    decreases if got < need then need - got else 0, if Total(exts) == 0 then 1 else 0
  {
    if got >= need then Done(out)
    else if !InRange(v, BlocksOf(exts)) then BlockOutOfRange(FirstBad(v, BlocksOf(exts)))
    else
      var got' := got + Total(exts);
      var out' := out + Bytes(v, BlocksOf(exts));
      var key := Key(fork, id, got');
      if got' >= need then Done(out')
      else if key !in ov then Missing(got')
      else if Total(exts) == 0 && Total(ov[key]) == 0 then EmptyLoop
      else Walk(v, ov, fork, id, need, got', out', ov[key])
  }

  function Take(s: seq<byte>, n: nat): seq<byte> { s[..Min(n, |s|)] }

  function ForkBytes(v: Volume, ov: Overflow, ext3: ExtentRecord, pylen: nat, id: int, fork: int): Outcome
    requires v.Valid()
  {
    var w := Walk(v, ov, fork, id, Needed(v, pylen), 0, [], ext3);
    if w.Done? then Done(Take(w.bytes, pylen)) else w
  }

  // ---- the checker object -------------------------------------------------------

  datatype Problem =
    | ForkProblem(what: string, why: Outcome)
    | NotHeader(name: string, nodeType: int)
    | BadNodeSize(name: string, size: int)
    | BadLink(name: string, node: nat)
    | BadKeyLength(length: int)
    | TruncatedRecord(fileId: int)

  class Checker {
    const volume: Volume
    var overflow: Overflow
    var problems: seq<Problem>

    constructor (v: Volume)
      ensures volume == v && overflow == map[] && problems == []
    {
      volume := v;
      overflow := map[];
      problems := [];
    }

    /** One extent: append its blocks, or stop at the first one out of range. */
    method ReadExtent(e: Extent, out: seq<byte>, what: string) returns (ok: bool, out': seq<byte>)
      modifies this`problems
      ensures ok == InRange(volume, Range(e.start, e.count))
      ensures ok ==> out' == out + Bytes(volume, Range(e.start, e.count)) && problems == old(problems)
      ensures !ok ==> problems == old(problems) + [ForkProblem(what, BlockOutOfRange(FirstBad(volume, Range(e.start, e.count))))]
    {
      out' := out;
      ghost var blocks := Range(e.start, e.count);
      var a := e.start;
      while a < e.start + e.count
        invariant e.start <= a <= e.start + e.count
        invariant InRange(volume, blocks[..a - e.start])
        invariant out' == out + Bytes(volume, blocks[..a - e.start]) && problems == old(problems)
      {
        ghost var k := a - e.start;
        assert blocks[..k + 1] == blocks[..k] + [a];
        if a >= volume.blocks {
          FirstBadAt(volume, blocks, k);
          problems := problems + [ForkProblem(what, BlockOutOfRange(a))];
          return false, out';
        }
        OneMoreBlock(volume, out, blocks[..k], a);
        out' := out' + Block(volume, a);
        a := a + 1;
      }
      assert blocks[..e.count] == blocks;
      ok := true;
    }

    /** The three slots of one record, empty ones skipped. */
    method ReadRecord(exts: ExtentRecord, out: seq<byte>, got: nat, what: string)
      returns (ok: bool, out': seq<byte>, got': nat, progressed: bool)
      modifies this`problems
      ensures ok == InRange(volume, BlocksOf(exts))
      ensures ok ==> out' == out + Bytes(volume, BlocksOf(exts)) && got' == got + Total(exts) && problems == old(problems)
      ensures ok ==> progressed == (Total(exts) > 0)
      ensures !ok ==> problems == old(problems) + [ForkProblem(what, BlockOutOfRange(FirstBad(volume, BlocksOf(exts))))]
    {
      out', got', progressed := out, got, false;
      var i := 0;
      while i < 3
        invariant 0 <= i <= 3 && problems == old(problems)
        invariant InRange(volume, BlocksOf(exts[..i]))
        invariant out' == out + Bytes(volume, BlocksOf(exts[..i]))
        invariant got' == got + Total(exts[..i]) && progressed == (Total(exts[..i]) > 0)
      {
        var e := exts[i];
        ExtentAppend(volume, exts[..i], e);
        assert exts[..i + 1] == exts[..i] + [e];
        if e.count != 0 {
          ok, out' := ReadExtent(e, out', what);
          if !ok {
            BadExtent(volume, exts, i);
            return;
          }
          got' := got' + e.count;
          progressed := true;
        }
        i := i + 1;
      }
      assert exts[..3] == exts;
      ok := true;
    }

    /** fork_bytes: every failing return adds exactly one problem, success adds none. */
    method ReadFork(ext3: ExtentRecord, pylen: nat, fileId: int, fork: int, what: string) returns (r: Option<seq<byte>>)
      requires volume.Valid()
      modifies this`problems
      ensures var f := ForkBytes(volume, overflow, ext3, pylen, fileId, fork);
              if f.Done? then r == Some(f.bytes) && problems == old(problems)
              else r == None && problems == old(problems) + [ForkProblem(what, f)]
    {
      var need := (pylen + volume.blockSize - 1) / volume.blockSize;
      var out: seq<byte>, got := [], 0;
      var exts := ext3;
      ghost var goal := Walk(volume, overflow, fork, fileId, need, 0, [], ext3);
      while got < need
        invariant goal == Walk(volume, overflow, fork, fileId, need, got, out, exts)
        invariant problems == old(problems)
        decreases if got < need then need - got else 0, if Total(exts) == 0 then 1 else 0
      {
        var ok, progressed;
        ok, out, got, progressed := ReadRecord(exts, out, got, what);
        if !ok { return None; }
        if got >= need { break; }
        var key := Key(fork, fileId, got);
        if key !in overflow {
          problems := problems + [ForkProblem(what, Missing(got))];
          return None;
        }
        exts := overflow[key];
        TotalOfThree(exts);
        if !progressed && !(exists k :: 0 <= k < 3 && exts[k].count != 0) {
          problems := problems + [ForkProblem(what, EmptyLoop)];
          return None;
        }
      }
      r := Some(Take(out, pylen));
    }
  }

  lemma TotalOfThree(exts: ExtentRecord)
    ensures Total(exts) == exts[0].count + exts[1].count + exts[2].count
  {
    assert Total(exts[1..]) == exts[1].count + Total(exts[1..][1..]);
    assert exts[1..][1..] == [exts[2]];
    assert Total([exts[2]]) == exts[2].count + Total([]);
  }

  lemma OneMoreBlock(v: Volume, out: seq<byte>, blocks: seq<nat>, a: nat)
    ensures out + Bytes(v, blocks) + Block(v, a) == out + Bytes(v, blocks + [a])
  {
    hide Block;
    BytesAppend(v, blocks, [a]);
    assert [a][1..] == [] && Bytes(v, [a]) == Block(v, a) + [];
    var x, y := Bytes(v, blocks), Block(v, a);
    assert out + x + y == out + (x + y);
  }

  lemma {:induction false} FirstBadAt(v: Volume, blocks: seq<nat>, k: nat)
    requires k < |blocks| && InRange(v, blocks[..k]) && blocks[k] >= v.blocks
    ensures !InRange(v, blocks) && FirstBad(v, blocks) == blocks[k]
  {
    if k > 0 {
      assert blocks[..k][0] == blocks[0];
      var head, tail := blocks[..k], blocks[1..][..k - 1];
      forall j | 0 <= j < |tail| ensures tail[j] < v.blocks {
        assert tail[j] == head[j + 1];
      }
      FirstBadAt(v, blocks[1..], k - 1);
    }
  }

  lemma {:induction false} BlocksAppend(a: seq<Extent>, b: seq<Extent>)
    ensures BlocksOf(a + b) == BlocksOf(a) + BlocksOf(b) && Total(a + b) == Total(a) + Total(b)
  {
    if a == [] {
      assert a + b == b;
    } else {
      assert (a + b)[1..] == a[1..] + b;
      BlocksAppend(a[1..], b);
    }
  }

  /** One more extent at the end. */
  lemma ExtentAppend(v: Volume, a: seq<Extent>, e: Extent)
    ensures BlocksOf(a + [e]) == BlocksOf(a) + Range(e.start, e.count) && Total(a + [e]) == Total(a) + e.count
    ensures Bytes(v, BlocksOf(a + [e])) == Bytes(v, BlocksOf(a)) + Bytes(v, Range(e.start, e.count))
    ensures InRange(v, BlocksOf(a)) && InRange(v, Range(e.start, e.count)) ==> InRange(v, BlocksOf(a + [e]))
  {
    BlocksAppend(a, [e]);
    assert BlocksOf([e]) == Range(e.start, e.count) + BlocksOf([]) == Range(e.start, e.count);
    BytesAppend(v, BlocksOf(a), Range(e.start, e.count));
  }

  /** A bad extent makes the record bad, at the same block. */
  lemma BadExtent(v: Volume, exts: seq<Extent>, i: nat)
    requires i < |exts| && InRange(v, BlocksOf(exts[..i])) && !InRange(v, Range(exts[i].start, exts[i].count))
    ensures !InRange(v, BlocksOf(exts))
    ensures FirstBad(v, BlocksOf(exts)) == FirstBad(v, Range(exts[i].start, exts[i].count))
  {
    var a, r, b := BlocksOf(exts[..i]), Range(exts[i].start, exts[i].count), BlocksOf(exts[i + 1..]);
    assert exts == exts[..i] + ([exts[i]] + exts[i + 1..]);
    BlocksAppend(exts[..i], [exts[i]] + exts[i + 1..]);
    assert ([exts[i]] + exts[i + 1..])[1..] == exts[i + 1..];
    assert BlocksOf(exts) == a + (r + b);
    var k := FirstBadIndex(v, r);
    assert (a + (r + b))[|a| + k] == r[k];
    assert (a + (r + b))[..|a| + k] == a + r[..k];
    FirstBadAt(v, a + (r + b), |a| + k);
  }

  lemma {:induction false} FirstBadIndex(v: Volume, blocks: seq<nat>) returns (k: nat)
    requires !InRange(v, blocks)
    ensures k < |blocks| && InRange(v, blocks[..k]) && blocks[k] >= v.blocks && FirstBad(v, blocks) == blocks[k]
  {
    if blocks[0] >= v.blocks {
      k := 0;
    } else {
      assert !InRange(v, blocks[1..]);
      var j := FirstBadIndex(v, blocks[1..]);
      k := j + 1;
      assert blocks[..k] == [blocks[0]] + blocks[1..][..j];
    }
  }

  // ---- what is reassembled ----------------------------------------------------------

  /** Records chained through the overflow map: each later record is the one
      filed under the number of blocks before it. */
  ghost predicate Chained(ov: Overflow, fork: int, id: int, recs: seq<ExtentRecord>, before: nat)
    decreases |recs|
  {
    |recs| <= 1 ||
    var key := Key(fork, id, before + Total(recs[0]));
    key in ov && ov[key] == recs[1] && Chained(ov, fork, id, recs[1..], before + Total(recs[0]))
  }

  function Flat(recs: seq<ExtentRecord>): seq<Extent> {
    if recs == [] then [] else recs[0] + Flat(recs[1..])
  }

  function AllBlocks(recs: seq<ExtentRecord>): seq<nat> { BlocksOf(Flat(recs)) }

  /** Records after the first hold something. */
  ghost predicate NonEmptyTail(recs: seq<ExtentRecord>) {
    forall k :: 1 <= k < |recs| ==> Total(recs[k]) > 0
  }

  /** How many records the walk reads: it stops once the need is met. */
  function Used(recs: seq<ExtentRecord>, need: int): nat
    ensures Used(recs, need) <= |recs|
    decreases |recs|
  {
    if recs == [] || need <= 0 then 0 else 1 + Used(recs[1..], need - Total(recs[0]))
  }

  lemma FlatCons(r: ExtentRecord, rest: seq<ExtentRecord>)
    ensures AllBlocks([r] + rest) == BlocksOf(r) + AllBlocks(rest)
    ensures |AllBlocks([r] + rest)| == Total(r) + |AllBlocks(rest)|
  {
    assert ([r] + rest)[1..] == rest;
    BlocksAppend(r, Flat(rest));
    BlocksCounted(r);
  }

  lemma InRangeParts(v: Volume, a: seq<nat>, b: seq<nat>)
    ensures InRange(v, a + b) <==> InRange(v, a) && InRange(v, b)
  {
    if InRange(v, a + b) {
      forall k | 0 <= k < |a| ensures a[k] < v.blocks { assert (a + b)[k] == a[k]; }
      forall k | 0 <= k < |b| ensures b[k] < v.blocks { assert (a + b)[|a| + k] == b[k]; }
    }
  }

  lemma TailNonEmpty(recs: seq<ExtentRecord>)
    requires |recs| > 1 && NonEmptyTail(recs)
    ensures NonEmptyTail(recs[1..]) && Total(recs[1]) > 0
  {
    forall k | 1 <= k < |recs[1..]| ensures Total(recs[1..][k]) > 0 { assert recs[1..][k] == recs[k + 1]; }
  }

  lemma UsedStep(v: Volume, recs: seq<ExtentRecord>, need: int)
    requires recs != [] && need > 0
    ensures var n := Used(recs[1..], need - Total(recs[0]));
            Bytes(v, AllBlocks(recs[..Used(recs, need)])) == Bytes(v, BlocksOf(recs[0])) + Bytes(v, AllBlocks(recs[1..][..n]))
  {
    var r, rest, n := recs[0], recs[1..], Used(recs[1..], need - Total(recs[0]));
    assert recs[..1 + n] == [r] + rest[..n];
    FlatCons(r, rest[..n]);
    BytesAppend(v, BlocksOf(r), AllBlocks(rest[..n]));
  }

  /** The walk over a chain that covers the need returns the bytes of the
      records it uses, in order. */
  lemma {:induction false} WalkOfChain(v: Volume, ov: Overflow, fork: int, id: int, need: nat, got: nat, out: seq<byte>, recs: seq<ExtentRecord>)
    requires recs != [] && Chained(ov, fork, id, recs, got) && NonEmptyTail(recs)
    requires InRange(v, AllBlocks(recs)) && got + |AllBlocks(recs)| >= need
    ensures Walk(v, ov, fork, id, need, got, out, recs[0]) == Done(out + Bytes(v, AllBlocks(recs[..Used(recs, need - got)])))
    decreases |recs|
  {
    hide Block;
    var r, rest := recs[0], recs[1..];
    if got < need {
      assert recs == [r] + rest;
      FlatCons(r, rest);
      InRangeParts(v, BlocksOf(r), AllBlocks(rest));
      UsedStep(v, recs, need - got);
      var got', out' := got + Total(r), out + Bytes(v, BlocksOf(r));
      var later := Bytes(v, AllBlocks(rest[..Used(rest, need - got')]));
      assert out + (Bytes(v, BlocksOf(r)) + later) == out' + later;
      if got' < need {
        TailNonEmpty(recs);
        WalkOfChain(v, ov, fork, id, need, got', out', rest);
      } else {
        assert rest[..0] == [] && later == [];
      }
    } else {
      assert recs[..0] == [];
      assert out + [] == out;
    }
  }
}
