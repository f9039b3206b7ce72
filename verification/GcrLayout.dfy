/** Where the standard 800K layout puts each sector, and the self-addressing
    block the test image holds there. */
module GcrLayout {
  import opened Basics

  const TRACKS := 80
  const BLOCKS := 1600

  /** Sectors per track: 12 down to 8, by zones of sixteen tracks. */
  function SectorsPerTrack(t: nat): (n: nat)
    ensures 8 <= n <= 12
  {
    var zone := if t / 16 <= 4 then t / 16 else 4;
    12 - zone
  }

  /** Sectors on one side of all tracks before t; there are none past track 79. */
  function SectorsBefore(t: nat): nat {
    if t == 0 then 0 else SectorsBefore(t - 1) + if t - 1 < TRACKS then SectorsPerTrack(t - 1) else 0
  }

  lemma NoSectors()
    ensures SectorsBefore(0) == 0
  {
  }

  lemma OneMore(c: nat, x: nat)
    ensures c * (x + 1) == c * x + c
  {
  }

  lemma SectorsStep(zone: nat, t: nat)
    requires zone < 5 && 16 * zone < t <= 16 * zone + 16
    ensures SectorsBefore(t) == SectorsBefore(t - 1) + (12 - zone)
  {
    assert (t - 1) / 16 == zone;
  }

  /** Within one zone the sum is a product. */
  lemma {:induction false} ZoneSum(zone: nat, t: nat)
    requires zone < 5 && 16 * zone <= t <= 16 * zone + 16
    ensures SectorsBefore(t) == SectorsBefore(16 * zone) + (12 - zone) * (t - 16 * zone)
    decreases t
  {
    hide *;
    if t > 16 * zone {
      ZoneSum(zone, t - 1);
      SectorsStep(zone, t);
      OneMore(12 - zone, t - 1 - 16 * zone);
    } else {
      assert t - 16 * zone == 0;
    }
  }

  lemma {:induction false} NothingPastLastTrack(t: nat)
    requires t >= TRACKS
    ensures SectorsBefore(t) == SectorsBefore(TRACKS)
  {
    if t > TRACKS { NothingPastLastTrack(t - 1); }
  }

  /** One turn of the zone loop. */
  lemma ZoneStep(zone: nat, t: nat)
    requires zone < 5 && 16 * zone < t
    ensures SectorsBefore(Min(t, 16 * (zone + 1)))
         == SectorsBefore(Min(t, 16 * zone)) + (12 - zone) * (Min(t, 16 * zone + 16) - 16 * zone)
  {
    hide SectorsBefore;
    ZoneSum(zone, Min(t, 16 * zone + 16));
  }

  lemma AllZones(t: nat)
    ensures SectorsBefore(t) == SectorsBefore(Min(t, 16 * 5))
  {
    hide SectorsBefore;
    if t > TRACKS { NothingPastLastTrack(t); }
  }

  /** The zone loop of soff_of, for every track number. */
  method SectorOffset(t: nat) returns (s: nat)
    ensures s == SectorsBefore(t)
  {
    hide SectorsBefore;
    var sizes := [12, 11, 10, 9, 8];
    NoSectors();
    s := 0;
    var zone := 0;
    while zone < 5
      invariant 0 <= zone <= 5
      invariant s == SectorsBefore(Min(t, 16 * zone))
    {
      var lo, hi := zone * 16, zone * 16 + 16;
      if t <= lo { break; }
      var n := sizes[zone];
      assert n == 12 - zone;
      s := s + n * (Min(t, hi) - lo);
      ZoneStep(zone, t);
      zone := zone + 1;
    }
    AllZones(t);
  }

  /** The image block a sector holds. */
  function ExpectedBlock(track: nat, side: nat, sector: nat, doubleSided: bool): nat {
    if doubleSided then 2 * SectorsBefore(track) + side * SectorsPerTrack(track) + sector
    else SectorsBefore(track) + sector
  }

  predicate IsSector(track: nat, side: nat, sector: nat) {
    track < TRACKS && side < 2 && sector < SectorsPerTrack(track)
  }

  lemma {:induction false} SectorsBeforeMonotone(a: nat, b: nat)
    requires a <= b
    ensures SectorsBefore(a) <= SectorsBefore(b)
    decreases b
  {
    if a < b { SectorsBeforeMonotone(a, b - 1); }
  }

  lemma TotalSectors()
    ensures SectorsBefore(TRACKS) == 800
  {
    hide SectorsBefore;
    NoSectors();
    ZoneSum(0, 16);
    ZoneSum(1, 32);
    ZoneSum(2, 48);
    ZoneSum(3, 64);
    ZoneSum(4, 80);
  }

  /** A sector's block lies in its own track's range. */
  lemma BlockInTrack(track: nat, side: nat, sector: nat)
    requires IsSector(track, side, sector)
    ensures 2 * SectorsBefore(track) <= ExpectedBlock(track, side, sector, true) < 2 * SectorsBefore(track + 1)
    ensures ExpectedBlock(track, side, sector, true) < BLOCKS
  {
    SectorsBeforeMonotone(track + 1, TRACKS);
    TotalSectors();
  }

  /** Different sectors hold different blocks. */
  lemma BlockInjective(t: nat, h: nat, s: nat, t': nat, h': nat, s': nat)
    requires IsSector(t, h, s) && IsSector(t', h', s')
    requires ExpectedBlock(t, h, s, true) == ExpectedBlock(t', h', s', true)
    ensures t == t' && h == h' && s == s'
  {
    BlockInTrack(t, h, s);
    BlockInTrack(t', h', s');
    if t < t' { SectorsBeforeMonotone(t + 1, t'); }
    if t' < t { SectorsBeforeMonotone(t' + 1, t); }
    assert t == t';
    var n := SectorsPerTrack(t);
    assert h * n == (if h == 1 then n else 0) && h' * n == (if h' == 1 then n else 0);
  }

  lemma {:induction false} TrackOfBlock(b: nat, t: nat) returns (track: nat)
    requires t <= TRACKS && b < 2 * SectorsBefore(t)
    ensures track < t && 2 * SectorsBefore(track) <= b < 2 * SectorsBefore(track + 1)
  {
    if 2 * SectorsBefore(t - 1) <= b {
      track := t - 1;
    } else {
      track := TrackOfBlock(b, t - 1);
    }
  }

  /** Every block of the 800K image is held by some sector. */
  lemma BlockSurjective(b: nat) returns (track: nat, side: nat, sector: nat)
    requires b < BLOCKS
    ensures IsSector(track, side, sector) && ExpectedBlock(track, side, sector, true) == b
  {
    TotalSectors();
    track := TrackOfBlock(b, TRACKS);
    var r, n := b - 2 * SectorsBefore(track), SectorsPerTrack(track);
    side, sector := if r < n then 0 else 1, if r < n then r else r - n;
  }

  /** The layout as a numbering: block 0 is the first sector, and each sector
      holds the block after the one before it, with both sides of a track before
      the next track on a two-sided disk, and one side only on a one-sided one. */
  lemma BlocksInOrder(track: nat, side: nat, sector: nat)
    requires IsSector(track, side, sector)
    ensures ExpectedBlock(0, 0, 0, true) == 0 == ExpectedBlock(0, 0, 0, false)
    ensures var last := 11 - track / 16;
            var (next, nextOneSided) := if sector < last then (ExpectedBlock(track, side, sector + 1, true), ExpectedBlock(track, side, sector + 1, false))
                                        else (if side == 0 then ExpectedBlock(track, 1, 0, true) else ExpectedBlock(track + 1, 0, 0, true),
                                              ExpectedBlock(track + 1, side, 0, false));
            && sector <= last
            && next == ExpectedBlock(track, side, sector, true) + 1
            && nextOneSided == ExpectedBlock(track, side, sector, false) + 1
  {
    assert SectorsBefore(track + 1) == SectorsBefore(track) + SectorsPerTrack(track);
    hide SectorsBefore;
    NoSectors();
    assert side * SectorsPerTrack(track) == if side == 1 then SectorsPerTrack(track) else 0;
  }

  // ---- the self-addressing block ------------------------------------------------

  function PatternByte(b: nat, j: nat): bv8 {
    if j == 0 then (b % 256) as bv8
    else if j == 1 then (b / 256 % 256) as bv8
    else ((b + j) % 256) as bv8
  }

  function PatternBlock(b: nat): (r: seq<bv8>)
    ensures |r| == 512
  {
    seq(512, j requires 0 <= j => PatternByte(b, j))
  }

  /** pattern_block: a zeroed buffer overwritten in place. */
  method BuildPattern(b: nat) returns (out: array<bv8>)
    ensures fresh(out) && out[..] == PatternBlock(b)
    ensures Num(out[0]) == b % 256 && Num(out[1]) == b / 256 % 256
    ensures forall j :: 2 <= j < 512 ==> Num(out[j]) == (b + j) % 256
  {
    out := new bv8[512](_ => 0);
    out[0] := (b % 256) as bv8;
    out[1] := (b / 256 % 256) as bv8;
    for j := 2 to 512
      invariant forall k :: 0 <= k < j ==> out[k] == PatternByte(b, k)
    {
      out[j] := ((b + j) % 256) as bv8;
    }
    forall j | 0 <= j < 512 ensures out[j] == PatternByte(b, j) && Num(out[j]) == NumberAt(b, j) {
      PatternIs(b, j);
    }
    hide PatternByte, Num;
    NumbersAre(b);
  }

  /** The byte at place j, as a number. */
  function NumberAt(b: nat, j: nat): byte {
    if j == 0 then b % 256 else if j == 1 then b / 256 % 256 else (b + j) % 256
  }

  lemma PatternIs(b: nat, j: nat)
    ensures Num(PatternByte(b, j)) == NumberAt(b, j)
  {
    ByteAsBits(NumberAt(b, j));
  }

  lemma NumbersAre(b: nat)
    ensures NumberAt(b, 0) == b % 256 && NumberAt(b, 1) == b / 256 % 256
    ensures forall j :: 2 <= j < 512 ==> NumberAt(b, j) == (b + j) % 256
  {
  }

  lemma ByteInjective(x: nat, y: nat)
    requires x < 256 && y < 256 && x as bv8 == y as bv8
    ensures x == y
  {
    ByteAsBits(x);
    ByteAsBits(y);
  }

  lemma LowSixteen(a: nat)
    ensures a % 0x1_0000 == a % 256 + 256 * (a / 256 % 256)
  {
    assert a / 256 / 256 == a / 0x1_0000;
  }

  lemma SamePatternSameBlock(a: nat, b: nat)
    requires PatternBlock(a) == PatternBlock(b)
    ensures a % 0x1_0000 == b % 0x1_0000
  {
    assert PatternBlock(a)[0] == PatternBlock(b)[0] && PatternBlock(a)[1] == PatternBlock(b)[1];
    ByteInjective(a % 256, b % 256);
    ByteInjective(a / 256 % 256, b / 256 % 256);
    LowSixteen(a);
    LowSixteen(b);
  }

  lemma SameLowByte(a: nat, b: nat, j: nat)
    requires a % 256 == b % 256
    ensures (a + j) % 256 == (b + j) % 256
  {
    assert a == 256 * (a / 256) + a % 256 && b == 256 * (b / 256) + b % 256;
    AddMultiple(a % 256 + j, a / 256);
    AddMultiple(b % 256 + j, b / 256);
  }

  lemma AddMultiple(x: nat, k: nat)
    ensures (256 * k + x) % 256 == x % 256
  {
  }

  lemma SameBlockSamePattern(a: nat, b: nat)
    requires a % 0x1_0000 == b % 0x1_0000
    ensures PatternBlock(a) == PatternBlock(b)
  {
    LowSixteen(a);
    LowSixteen(b);
    assert a % 256 == b % 256 && a / 256 % 256 == b / 256 % 256;
    forall j | 0 <= j < 512 ensures PatternByte(a, j) == PatternByte(b, j) {
      SameLowByte(a, b, j);
    }
  }

  /** The pattern identifies its block, up to the sixteen bits it records. */
  lemma PatternIdentifies(a: nat, b: nat)
    ensures PatternBlock(a) == PatternBlock(b) <==> a % 0x1_0000 == b % 0x1_0000
  {
    if PatternBlock(a) == PatternBlock(b) { SamePatternSameBlock(a, b); }
    if a % 0x1_0000 == b % 0x1_0000 { SameBlockSamePattern(a, b); }
  }

  lemma SmallBlocks(x: nat, y: nat)
    requires x < BLOCKS && y < BLOCKS && PatternBlock(x) == PatternBlock(y)
    ensures x == y
  {
    SamePatternSameBlock(x, y);
  }

  /** So on the two-sided image the content of a sector tells exactly which sector it is. */
  lemma ContentIdentifiesSector(t: nat, h: nat, s: nat, t': nat, h': nat, s': nat)
    requires IsSector(t, h, s) && IsSector(t', h', s')
    requires PatternBlock(ExpectedBlock(t, h, s, true)) == PatternBlock(ExpectedBlock(t', h', s', true))
    ensures t == t' && h == h' && s == s'
  {
    BlockInTrack(t, h, s);
    BlockInTrack(t', h', s');
    var x, y := ExpectedBlock(t, h, s, true), ExpectedBlock(t', h', s', true);
    SmallBlocks(x, y);
    BlockInjective(t, h, s, t', h', s');
  }
}
