/** fork_bytes refines the file's content: byte i of the fork is a fixed byte
    of the image, for every way of cutting the extents into records. */
module HfsContent {
  import opened Basics
  import opened HfsFork

  /** Where byte i of a fork with the given blocks lies in the image. */
  function FileOffset(v: Volume, blocks: seq<nat>, i: nat): int
    requires v.Valid() && i / v.blockSize < |blocks|
  {
    Base(v, blocks[i / v.blockSize]) + i % v.blockSize
  }

  /** Where allocation block a starts. */
  function Base(v: Volume, a: nat): nat { v.firstSector * 512 + a * v.blockSize }

  lemma BlockInside(v: Volume, a: nat)
    requires v.Fits() && a < v.blocks
    ensures Base(v, a) + v.blockSize <= |v.img|
  {
    MulMonotone(a + 1, v.blocks, v.blockSize);
    assert (a + 1) * v.blockSize == a * v.blockSize + v.blockSize;
  }

  lemma SliceInside(s: seq<byte>, lo: nat, len: nat)
    requires lo + len <= |s|
    ensures Slice(s, lo, lo + len) == s[lo..lo + len]
  {
  }

  lemma FullBlock(v: Volume, a: nat)
    requires v.Valid() && v.Fits() && a < v.blocks
    ensures Base(v, a) + v.blockSize <= |v.img| && |Block(v, a)| == v.blockSize
    ensures Block(v, a) == v.img[Base(v, a)..Base(v, a) + v.blockSize]
  {
    BlockInside(v, a);
    SliceInside(v.img, Base(v, a), v.blockSize);
    assert Block(v, a) == Slice(v.img, Base(v, a), Base(v, a) + v.blockSize);
  }

  lemma {:induction false} BytesLength(v: Volume, blocks: seq<nat>)
    requires v.Valid() && v.Fits() && InRange(v, blocks)
    ensures |Bytes(v, blocks)| == |blocks| * v.blockSize
  {
    if blocks != [] {
      FullBlock(v, blocks[0]);
      BytesLength(v, blocks[1..]);
      assert |blocks| * v.blockSize == (|blocks| - 1) * v.blockSize + v.blockSize;
    }
  }

  lemma DivStep(i: nat, b: nat)
    requires 0 < b <= i
    ensures i / b == (i - b) / b + 1 && i % b == (i - b) % b
  {
    var q, r := (i - b) / b, (i - b) % b;
    assert i == (q + 1) * b + r;
    DivUnique(i, b, q + 1, r);
  }

  lemma MulMonotone(x: nat, y: nat, b: nat)
    requires x <= y
    ensures x * b <= y * b
  {
  }

  lemma LessByMul(x: nat, y: nat, b: nat)
    requires x * b < y * b
    ensures x < y
  {
    if y <= x { MulMonotone(y, x, b); }
  }

  lemma DivUnique(i: nat, b: nat, q: nat, r: nat)
    requires 0 < b && r < b && i == q * b + r
    ensures i / b == q && i % b == r
  {
    var q', r' := i / b, i % b;
    assert (q + 1) * b == q * b + b && (q' + 1) * b == q' * b + b;
    LessByMul(q', q + 1, b);
    LessByMul(q, q' + 1, b);
  }

  lemma DivBelow(i: nat, b: nat, n: nat)
    requires 0 < b && i < n * b
    ensures i / b < n
  {
    assert i / b * b <= i;
    LessByMul(i / b, n, b);
  }

  lemma {:induction false} ByteAt(v: Volume, blocks: seq<nat>, i: nat)
    requires v.Valid() && v.Fits() && InRange(v, blocks) && i < |Bytes(v, blocks)|
    ensures i / v.blockSize < |blocks|
    ensures 0 <= FileOffset(v, blocks, i) < |v.img| && Bytes(v, blocks)[i] == v.img[FileOffset(v, blocks, i)]
    decreases |blocks|
  {
    hide Base, Block;
    var a, rest := blocks[0], blocks[1..];
    FullBlock(v, a);
    if i < v.blockSize {
      DivUnique(i, v.blockSize, 0, i);
      assert Bytes(v, blocks)[i] == Block(v, a)[i];
    } else {
      var j := i - v.blockSize;
      assert Bytes(v, blocks)[i] == Bytes(v, rest)[j];
      ByteAt(v, rest, j);
      DivStep(i, v.blockSize);
      assert blocks[i / v.blockSize] == rest[j / v.blockSize];
    }
  }

  /** `need` blocks hold `pylen` bytes, and no fewer do. */
  lemma NeedCovers(v: Volume, pylen: nat)
    requires v.Valid()
    ensures Needed(v, pylen) >= 0
    ensures pylen <= Needed(v, pylen) * v.blockSize < pylen + v.blockSize
    ensures forall i :: 0 <= i < pylen ==> i / v.blockSize < Needed(v, pylen)
  {
    var b, n := v.blockSize, Needed(v, pylen);
    var r := (pylen + b - 1) % b;
    assert pylen + b - 1 == n * b + r;
    forall i | 0 <= i < pylen ensures i / b < n {
      DivBelow(i, b, n);
    }
  }

  // ---- chains of records --------------------------------------------------------

  /** A chain of records that holds enough in-range blocks. */
  ghost predicate Covers(v: Volume, ov: Overflow, fork: int, id: int, recs: seq<ExtentRecord>, need: nat) {
    recs != [] && Chained(ov, fork, id, recs, 0) && NonEmptyTail(recs) && InRange(v, AllBlocks(recs)) && |AllBlocks(recs)| >= need
  }

  lemma {:induction false} UsedPrefix(recs: seq<ExtentRecord>, need: int)
    requires |AllBlocks(recs)| >= need
    ensures |AllBlocks(recs[..Used(recs, need)])| >= need
    ensures AllBlocks(recs[..Used(recs, need)]) <= AllBlocks(recs)
    decreases |recs|
  {
    if recs == [] || need <= 0 {
      assert recs[..0] == [];
    } else {
      var rest, n := recs[1..], Used(recs[1..], need - Total(recs[0]));
      assert recs == [recs[0]] + rest && recs[..1 + n] == [recs[0]] + rest[..n];
      FlatCons(recs[0], rest);
      FlatCons(recs[0], rest[..n]);
      UsedPrefix(rest, need - Total(recs[0]));
    }
  }

  /** The content of a fork: every byte up to pylen, from its own block. */
  ghost predicate IsContent(v: Volume, blocks: seq<nat>, pylen: nat, r: seq<byte>)
    requires v.Valid()
  {
    |r| == pylen && forall i :: 0 <= i < pylen ==> ContentAt(v, blocks, i, r)
  }

  ghost predicate ContentAt(v: Volume, blocks: seq<nat>, i: nat, r: seq<byte>)
    requires v.Valid() && i < |r|
  {
    i / v.blockSize < |blocks| && 0 <= FileOffset(v, blocks, i) < |v.img| && r[i] == v.img[FileOffset(v, blocks, i)]
  }

  /** The bytes of enough blocks, cut to pylen, are the content of any longer block list. */
  lemma PrefixIsContent(v: Volume, used: seq<nat>, all: seq<nat>, pylen: nat)
    requires v.Valid() && v.Fits() && InRange(v, used) && used <= all && |used| >= Needed(v, pylen)
    ensures IsContent(v, all, pylen, Take(Bytes(v, used), pylen))
  {
    NeedCovers(v, pylen);
    BytesLength(v, used);
    MulMonotone(Needed(v, pylen), |used|, v.blockSize);
    var r := Take(Bytes(v, used), pylen);
    assert pylen <= |Bytes(v, used)|;
    hide *;
    forall i | 0 <= i < pylen ensures ContentAt(v, all, i, r) {
      ByteFromLonger(v, used, all, i);
    }
  }

  lemma ByteFromLonger(v: Volume, used: seq<nat>, all: seq<nat>, i: nat)
    requires v.Valid() && v.Fits() && InRange(v, used) && used <= all && i < |Bytes(v, used)|
    ensures ContentAt(v, all, i, Bytes(v, used))
  {
    hide Base, Bytes;
    ByteAt(v, used, i);
    assert used[i / v.blockSize] == all[i / v.blockSize];
  }

  /** A fork whose records cover it is read in full, each byte from its block. */
  lemma ForkIsContent(v: Volume, ov: Overflow, fork: int, id: int, recs: seq<ExtentRecord>, pylen: nat)
    requires v.Valid() && v.Fits() && Covers(v, ov, fork, id, recs, Needed(v, pylen))
    ensures var f := ForkBytes(v, ov, recs[0], pylen, id, fork);
            f.Done? && IsContent(v, AllBlocks(recs), pylen, f.bytes)
  {
    var need := Needed(v, pylen);
    var all := AllBlocks(recs);
    var used := AllBlocks(recs[..Used(recs, need)]);
    NeedCovers(v, pylen);
    WalkOfChain(v, ov, fork, id, need, 0, [], recs);
    UsedPrefix(recs, need);
    assert [] + Bytes(v, used) == Bytes(v, used);
    assert InRange(v, used) by {
      forall k | 0 <= k < |used| ensures used[k] < v.blocks { assert used[k] == all[k]; }
    }
    PrefixIsContent(v, used, all, pylen);
  }

  /** Conversely, a successful walk has read a covering chain. */
  lemma {:induction false} WalkSound(v: Volume, ov: Overflow, fork: int, id: int, need: nat, got: nat, out: seq<byte>, exts: ExtentRecord)
    returns (recs: seq<ExtentRecord>)
    requires got < need && Walk(v, ov, fork, id, need, got, out, exts).Done?
    ensures recs != [] && recs[0] == exts && Chained(ov, fork, id, recs, got) && NonEmptyTail(recs)
    ensures InRange(v, AllBlocks(recs)) && got + |AllBlocks(recs)| >= need
    decreases need - got, if Total(exts) == 0 then 1 else 0
  {
    var got', out' := got + Total(exts), out + Bytes(v, BlocksOf(exts));
    var key := Key(fork, id, got');
    FlatCons(exts, []);
    assert [exts] + [] == [exts];
    assert AllBlocks([]) == [] && BlocksOf(exts) + [] == BlocksOf(exts);
    recs := [exts];
    if got' < need {
      if Total(ov[key]) == 0 { EmptyRecordFails(v, ov, fork, id, need, got', out', ov[key]); }
      var rest := WalkSound(v, ov, fork, id, need, got', out', ov[key]);
      recs := [exts] + rest;
      FlatCons(exts, rest);
      assert recs[1..] == rest;
      forall k | 1 <= k < |recs| ensures Total(recs[k]) > 0 { assert recs[k] == rest[k - 1]; }
    }
  }

  /** An overflow record without blocks is filed under its own successor: the walk gives up. */
  lemma EmptyRecordFails(v: Volume, ov: Overflow, fork: int, id: int, need: nat, got: nat, out: seq<byte>, exts: ExtentRecord)
    requires got < need && Key(fork, id, got) in ov && exts == ov[Key(fork, id, got)] && Total(exts) == 0
    ensures !Walk(v, ov, fork, id, need, got, out, exts).Done?
  {
  }

  /** Block b is the first one out of range. */
  ghost predicate FirstOutside(v: Volume, blocks: seq<nat>, b: nat) {
    exists i :: 0 <= i < |blocks| && blocks[i] == b >= v.blocks && forall j :: 0 <= j < i ==> blocks[j] < v.blocks
  }

  lemma FirstBadIsFirst(v: Volume, blocks: seq<nat>)
    requires !InRange(v, blocks)
    ensures FirstOutside(v, blocks, FirstBad(v, blocks))
  {
    var k := FirstBadIndex(v, blocks);
    forall j | 0 <= j < k ensures blocks[j] < v.blocks { assert blocks[..k][j] == blocks[j]; }
  }

  /** Why a walk ended where it did: `recs` are the records read, `rest` the last
      of them, `got` the blocks before the first. */
  ghost predicate EndsBecause(v: Volume, ov: Overflow, fork: int, id: int, need: nat, got: nat, recs: seq<ExtentRecord>, r: Outcome)
    requires recs != []
  {
    var before, rest := AllBlocks(recs[..|recs| - 1]), recs[|recs| - 1];
    var at := got + |before| + Total(rest);
    && Chained(ov, fork, id, recs, got) && InRange(v, before) && got + |before| < need
    && match r
       case Done(_) => InRange(v, BlocksOf(rest)) && at >= need
       case BlockOutOfRange(b) => FirstOutside(v, BlocksOf(rest), b)
       case Missing(n) => InRange(v, BlocksOf(rest)) && n == at < need && Key(fork, id, n) !in ov
       case EmptyLoop => Total(rest) == 0 && at < need && Key(fork, id, at) in ov && Total(ov[Key(fork, id, at)]) == 0
  }

  lemma OneRecordEnds(v: Volume, ov: Overflow, fork: int, id: int, need: nat, got: nat, exts: ExtentRecord, r: Outcome)
    requires got < need
    requires match r
             case Done(_) => InRange(v, BlocksOf(exts)) && got + Total(exts) >= need
             case BlockOutOfRange(b) => FirstOutside(v, BlocksOf(exts), b)
             case Missing(n) => InRange(v, BlocksOf(exts)) && n == got + Total(exts) < need && Key(fork, id, n) !in ov
             case EmptyLoop => Total(exts) == 0 && Key(fork, id, got) in ov && Total(ov[Key(fork, id, got)]) == 0
    ensures EndsBecause(v, ov, fork, id, need, got, [exts], r)
  {
    assert [exts][..0] == [];
  }

  lemma EndsLater(v: Volume, ov: Overflow, fork: int, id: int, need: nat, got: nat, exts: ExtentRecord, rest: seq<ExtentRecord>, r: Outcome)
    requires rest != [] && InRange(v, BlocksOf(exts))
    requires var key := Key(fork, id, got + Total(exts)); key in ov && ov[key] == rest[0]
    requires EndsBecause(v, ov, fork, id, need, got + Total(exts), rest, r)
    ensures EndsBecause(v, ov, fork, id, need, got, [exts] + rest, r)
  {
    var recs := [exts] + rest;
    var n := |rest| - 1;
    assert recs[1..] == rest && recs[..|recs| - 1] == [exts] + rest[..n];
    FlatCons(exts, rest[..n]);
    InRangeParts(v, BlocksOf(exts), AllBlocks(rest[..n]));
    hide FirstOutside, AllBlocks;
  }

  /** Every outcome names its true reason: the first block outside the volume on
      the chain, the number of blocks at which no record is filed, or an empty
      record whose successor is empty too. */
  lemma {:induction false} WalkEndsBecause(v: Volume, ov: Overflow, fork: int, id: int, need: nat, got: nat, out: seq<byte>, exts: ExtentRecord)
    returns (recs: seq<ExtentRecord>)
    requires got < need
    ensures recs != [] && recs[0] == exts && EndsBecause(v, ov, fork, id, need, got, recs, Walk(v, ov, fork, id, need, got, out, exts))
    decreases need - got, if Total(exts) == 0 then 1 else 0
  {
    hide EndsBecause;
    var got', out' := got + Total(exts), out + Bytes(v, BlocksOf(exts));
    var key := Key(fork, id, got');
    var r := Walk(v, ov, fork, id, need, got, out, exts);
    recs := [exts];
    if !InRange(v, BlocksOf(exts)) {
      FirstBadIsFirst(v, BlocksOf(exts));
      OneRecordEnds(v, ov, fork, id, need, got, exts, r);
    } else if got' >= need || key !in ov || (Total(exts) == 0 && Total(ov[key]) == 0) {
      OneRecordEnds(v, ov, fork, id, need, got, exts, r);
    } else {
      var rest := WalkEndsBecause(v, ov, fork, id, need, got', out', ov[key]);
      EndsLater(v, ov, fork, id, need, got, exts, rest, r);
      recs := [exts] + rest;
    }
  }

  /** fork_bytes succeeds exactly when some chain of records covers the fork. */
  lemma ForkSucceedsIff(v: Volume, ov: Overflow, ext3: ExtentRecord, pylen: nat, id: int, fork: int)
    requires v.Valid() && pylen > 0
    ensures ForkBytes(v, ov, ext3, pylen, id, fork).Done?
            <==> exists recs :: Covers(v, ov, fork, id, recs, Needed(v, pylen)) && recs[0] == ext3
  {
    var need := Needed(v, pylen);
    NeedCovers(v, pylen);
    LessByMul(0, need, v.blockSize);
    if ForkBytes(v, ov, ext3, pylen, id, fork).Done? {
      var recs := WalkSound(v, ov, fork, id, need, 0, [], ext3);
      assert Covers(v, ov, fork, id, recs, need);
    }
    if recs :| Covers(v, ov, fork, id, recs, need) && recs[0] == ext3 {
      WalkOfChain(v, ov, fork, id, need, 0, [], recs);
    }
  }

  // ---- cutting an extent list into records ------------------------------------------

  const NO_EXTENT := Extent(0, 0)

  /** Three slots a record; the last record padded with empty ones. */
  function Cut(exts: seq<Extent>): (r: seq<ExtentRecord>)
    ensures r != []
  {
    if |exts| > 3 then [exts[..3]] + Cut(exts[3..])
    else if |exts| == 3 then [exts]
    else if |exts| == 2 then [exts + [NO_EXTENT]]
    else if |exts| == 1 then [exts + [NO_EXTENT, NO_EXTENT]]
    else [[NO_EXTENT, NO_EXTENT, NO_EXTENT]]
  }

  lemma BlocksOfPadded(exts: seq<Extent>, pad: seq<Extent>)
    requires forall k :: 0 <= k < |pad| ==> pad[k] == NO_EXTENT
    ensures BlocksOf(exts + pad) == BlocksOf(exts)
    decreases |pad|
  {
    if pad == [] {
      assert exts + pad == exts;
    } else {
      assert exts + pad == exts + [NO_EXTENT] + pad[1..];
      BlocksOfPadded(exts + [NO_EXTENT], pad[1..]);
      BlocksAppend(exts, [NO_EXTENT]);
      assert BlocksOf([NO_EXTENT]) == Range(0, 0) + BlocksOf([]) == [];
    }
  }

  /** Cutting loses and reorders nothing. */
  lemma {:induction false} CutKeepsBlocks(exts: seq<Extent>)
    ensures AllBlocks(Cut(exts)) == BlocksOf(exts)
    decreases |exts|
  {
    if |exts| > 3 {
      CutKeepsBlocks(exts[3..]);
      FlatCons(exts[..3], Cut(exts[3..]));
      assert exts == exts[..3] + exts[3..];
      BlocksAppend(exts[..3], exts[3..]);
    } else {
      var r := Cut(exts)[0];
      assert Cut(exts) == [r] + [];
      FlatCons(r, []);
      assert AllBlocks([]) == [];
      BlocksOfPadded(exts, r[|exts|..]);
      assert r == exts + r[|exts|..];
    }
  }

  lemma {:induction false} CutNonEmpty(exts: seq<Extent>)
    requires forall k :: 0 <= k < |exts| ==> exts[k].count > 0
    ensures exts != [] ==> Total(Cut(exts)[0]) > 0
    ensures NonEmptyTail(Cut(exts))
    decreases |exts|
  {
    TotalOfThree(Cut(exts)[0]);
    if |exts| > 3 {
      var rest := Cut(exts[3..]);
      CutNonEmpty(exts[3..]);
      forall k | 1 <= k < |Cut(exts)| ensures Total(Cut(exts)[k]) > 0 { assert Cut(exts)[k] == rest[k - 1]; }
    }
  }

  /** The overflow records for a chain, filed under blocks so far. */
  function OverflowOf(fork: int, id: int, recs: seq<ExtentRecord>, before: nat): Overflow
    decreases |recs|
  {
    if |recs| <= 1 then map[]
    else
      var at := before + Total(recs[0]);
      OverflowOf(fork, id, recs[1..], at)[Key(fork, id, at) := recs[1]]
  }

  ghost predicate Holds(ov: Overflow, part: Overflow) {
    forall k :: k in part ==> k in ov && ov[k] == part[k]
  }

  lemma {:induction false} LaterKeys(fork: int, id: int, recs: seq<ExtentRecord>, before: nat)
    requires recs != [] && Total(recs[0]) > 0 && NonEmptyTail(recs)
    ensures forall k :: k in OverflowOf(fork, id, recs, before) ==> k.start > before
    decreases |recs|
  {
    if |recs| > 1 {
      var rest := recs[1..];
      assert Total(rest[0]) == Total(recs[1]) > 0;
      forall k | 1 <= k < |rest| ensures Total(rest[k]) > 0 { assert rest[k] == recs[k + 1]; }
      LaterKeys(fork, id, rest, before + Total(recs[0]));
    }
  }

  lemma {:induction false} FiledIsChained(ov: Overflow, fork: int, id: int, recs: seq<ExtentRecord>, before: nat)
    requires NonEmptyTail(recs) && Holds(ov, OverflowOf(fork, id, recs, before))
    ensures Chained(ov, fork, id, recs, before)
    decreases |recs|
  {
    if |recs| > 1 {
      var at, rest := before + Total(recs[0]), recs[1..];
      assert Total(rest[0]) == Total(recs[1]) > 0;
      forall k | 1 <= k < |rest| ensures Total(rest[k]) > 0 { assert rest[k] == recs[k + 1]; }
      LaterKeys(fork, id, rest, at);
      var inner := OverflowOf(fork, id, rest, at);
      assert Key(fork, id, at) in OverflowOf(fork, id, recs, before);
      assert Holds(ov, inner) by {
        forall k | k in inner ensures k in ov && ov[k] == inner[k] {
          assert k in OverflowOf(fork, id, recs, before);
        }
      }
      FiledIsChained(ov, fork, id, rest, at);
    }
  }

  /** Any list of non-empty extents in the volume, cut into the inline record
      and overflow records, is reassembled to the file's first pylen bytes. */
  lemma CutForkIsContent(v: Volume, ov: Overflow, fork: int, id: int, exts: seq<Extent>, pylen: nat)
    requires v.Valid() && v.Fits()
    requires forall k :: 0 <= k < |exts| ==> exts[k].count > 0
    requires InRange(v, BlocksOf(exts)) && Total(exts) >= Needed(v, pylen)
    requires Holds(ov, OverflowOf(fork, id, Cut(exts), 0))
    ensures var f := ForkBytes(v, ov, Cut(exts)[0], pylen, id, fork);
            f.Done? && IsContent(v, BlocksOf(exts), pylen, f.bytes)
  {
    CutKeepsBlocks(exts);
    CutNonEmpty(exts);
    FiledIsChained(ov, fork, id, Cut(exts), 0);
    BlocksCounted(exts);
    NeedCovers(v, pylen);
    ForkIsContent(v, ov, fork, id, Cut(exts), pylen);
  }
}
