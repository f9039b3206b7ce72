/** What the rolling checksums are, in integers: the three sums are one 24-bit
    number, and a group of three bytes is one rotation and one addition. */
module GcrSums {
  import opened Basics
  import opened GcrCodec

  // ---- bytes as integers -----------------------------------------------------

  lemma CarryBit(c: bv8)
    requires c <= 1
    ensures Num(c) == if c == 0 then 0 else 1
  {
  }

  lemma AddIs(a: bv8, b: bv8, c: bv8)
    ensures Num(Add(a, b, c)) == (Num(a) + Num(b) + Num(c)) % 0x100
  {
    ByteAsBits((Num(a) + Num(b) + Num(c)) % 0x100);
    hide Num;
  }

  lemma CarryIs(a: bv8, b: bv8, c: bv8)
    ensures AddCarry(a, b, c) <= 1
    ensures Num(AddCarry(a, b, c)) == if Num(a) + Num(b) + Num(c) >= 0x100 then 1 else 0
  {
    CarryBit(AddCarry(a, b, c));
    hide Num;
  }

  /** Sum and carry of two bytes and a carry bit. */
  lemma AddWithCarry(a: bv8, b: bv8, c: bv8)
    requires c <= 1
    ensures AddCarry(a, b, c) <= 1
    ensures Num(Add(a, b, c)) + 0x100 * Num(AddCarry(a, b, c)) == Num(a) + Num(b) + Num(c)
  {
    hide *;
    CarryBit(c);
    AddIs(a, b, c);
    CarryIs(a, b, c);
  }

  lemma RotateByte(a: bv8)
    ensures Num(RotateLeft(a)) == 2 * Num(a) % 0x100 + Num(a) / 0x80
    ensures a >> 7 <= 1 && Num(a >> 7) == Num(a) / 0x80
  {
  }

  // ---- the checksum of a run of bytes --------------------------------------------

  /** Three sums as one number, c1 on top. */
  function Three(c1: byte, c2: byte, c3: byte): (v: nat)
    ensures v < 0x100_0000
  {
    0x1_0000 * c1 + 0x100 * c2 + c3
  }

  function LittleEndian(g: seq<bv8>): nat { if g == [] then 0 else Num(g[0]) + 0x100 * LittleEndian(g[1..]) }

  /** The top byte rotated left by one bit, the lower two as they are. */
  function Rotated(v: nat): nat { 0x1_0000 * (2 * (v / 0x1_0000) % 0x100 + v / 0x80_0000) + v % 0x1_0000 }

  function Room(n: nat): nat { if n == 1 then 0x100 else if n == 2 then 0x1_0000 else 0x100_0000 }

  /** One group of one to three bytes: rotate, then add the bytes and the bit
      rotated out, as one number, in the lowest one to three bytes. */
  function GroupSum(v: nat, g: seq<bv8>): (w: nat)
    requires v < 0x100_0000 && 1 <= |g| <= 3
    ensures w < 0x100_0000
  {
    AddGroup(v, |g|, LittleEndian(g))
  }

  function AddGroup(v: nat, n: nat, group: nat): (w: nat)
    requires v < 0x100_0000 && 1 <= n <= 3
    ensures w < 0x100_0000
  {
    var r, room := Rotated(v), Room(n);
    var low := (r + group + v / 0x80_0000) % room;
    RotatedBelow(v);
    RoomInside(r, room, low);
    r - r % room + low
  }

  lemma RotatedBelow(v: nat)
    requires v < 0x100_0000
    ensures Rotated(v) < 0x100_0000
  {
  }

  lemma RoomInside(r: nat, room: nat, low: nat)
    requires r < 0x100_0000 && low < room && (room == 0x100 || room == 0x1_0000 || room == 0x100_0000)
    ensures 0 <= r - r % room + low < 0x100_0000
  {
  }

  /** How many bytes the last group of a run holds. */
  function LastGroup(n: nat): (m: nat)
    requires n > 0
    ensures 1 <= m <= 3 && m <= n && (n - m) % 3 == 0
  {
    if n % 3 == 0 then 3 else n % 3
  }

  /** c1, c2, c3 after a run of payload bytes, group by group. */
  function Checksum(bytes: seq<bv8>): (v: nat)
    ensures v < 0x100_0000
    decreases |bytes|
  {
    if bytes == [] then 0
    else
      var n := |bytes| - LastGroup(|bytes|);
      GroupSum(Checksum(bytes[..n]), bytes[n..])
  }

  /** The number the byte after a run is combined with: the rotated top byte,
      then the new low byte, then the new middle byte. */
  function KeyAfter(bytes: seq<bv8>): byte {
    var v := Checksum(bytes);
    RotatedBelow(v);
    if |bytes| % 3 == 0 then Rotated(v) / 0x1_0000
    else if |bytes| % 3 == 1 then v % 0x100
    else v / 0x100 % 0x100
  }

  function TopBit(c1: byte): (b: nat)
    ensures b <= 1
  {
    c1 / 0x80
  }

  function RotatedByte(c1: byte): byte { 2 * c1 % 0x100 + c1 / 0x80 }

  ghost predicate CarryOk(s: Sums) { s.carry <= 1 && s.k <= 2 && (s.k == 0 ==> s.carry == 0) }

  lemma FirstAdds(s: Sums, b: bv8)
    requires s.k == 0
    ensures var t := Next(s, b);
            && t.k == 1 && CarryOk(t) && t.c2 == s.c2
            && Num(t.c1) == RotatedByte(Num(s.c1))
            && Num(t.c3) + 0x100 * Num(t.carry) == Num(s.c3) + Num(b) + TopBit(Num(s.c1))
  {
    hide Add, AddCarry, RotateLeft, Num;
    RotateByte(s.c1);
    AddWithCarry(s.c3, b, s.c1 >> 7);
  }

  lemma SecondAdds(s: Sums, b: bv8)
    requires s.k == 1 && CarryOk(s)
    ensures var t := Next(s, b);
            && t.k == 2 && CarryOk(t) && t.c1 == s.c1 && t.c3 == s.c3
            && Num(t.c2) + 0x100 * Num(t.carry) == Num(s.c2) + Num(b) + Num(s.carry)
  {
    hide Add, AddCarry, Num;
    AddWithCarry(s.c2, b, s.carry);
  }

  lemma ThirdAdds(s: Sums, b: bv8)
    requires s.k == 2 && CarryOk(s)
    ensures var t := Next(s, b);
            && t.k == 0 && CarryOk(t) && t.c2 == s.c2 && t.c3 == s.c3
            && Num(t.c1) == (Num(s.c1) + Num(b) + Num(s.carry)) % 0x100
  {
    hide Add, AddCarry, Num;
    AddIs(s.c1, b, s.carry);
  }

  // ---- a group is one addition -------------------------------------------------------

  lemma ThreeParts(c1: byte, c2: byte, c3: byte)
    ensures var v := Three(c1, c2, c3);
            v / 0x1_0000 == c1 && v / 0x100 % 0x100 == c2 && v % 0x100 == c3 && v % 0x1_0000 == 0x100 * c2 + c3
  {
    assert Three(c1, c2, c3) / 0x100 == 0x100 * c1 + c2;
  }

  lemma ThreeTop(c1: byte, c2: byte, c3: byte)
    ensures Three(c1, c2, c3) / 0x80_0000 == c1 / 0x80
  {
    var q, r := c1 / 0x80, c1 % 0x80;
    assert c1 == 0x80 * q + r;
    assert Three(c1, c2, c3) == 0x80_0000 * q + (0x1_0000 * r + 0x100 * c2 + c3);
  }

  lemma RotatedThree(c1: byte, c2: byte, c3: byte)
    ensures Rotated(Three(c1, c2, c3)) == Three(RotatedByte(c1), c2, c3)
  {
    ThreeParts(c1, c2, c3);
    ThreeTop(c1, c2, c3);
    hide Three;
    assert Three(RotatedByte(c1), c2, c3) == 0x1_0000 * RotatedByte(c1) + (0x100 * c2 + c3) by { RotatedIs(c1, c2, c3); }
  }

  lemma RotatedIs(c1: byte, c2: byte, c3: byte)
    ensures Three(c1, c2, c3) == 0x1_0000 * c1 + (0x100 * c2 + c3)
    ensures Three(RotatedByte(c1), c2, c3) == 0x1_0000 * RotatedByte(c1) + (0x100 * c2 + c3)
  {
  }

  /** Adding below a bound leaves what is above it. */
  lemma AddBelow(q: nat, low: nat, add: nat, carry: nat, low': nat, room: nat)
    requires room == 0x100 || room == 0x1_0000 || room == 0x100_0000
    requires low < room && low' < room && low + add == low' + room * carry
    ensures var r := room * q + low;
            r - r % room == room * q && (r + add) % room == low'
  {
    var r := room * q + low;
    assert r + add == room * (q + carry) + low';
    if room == 0x100 {
    } else if room == 0x1_0000 {
    } else {
    }
  }

  lemma GroupAdds(v: nat, n: nat, group: nat, q: nat, low: nat, carry: nat, low': nat)
    requires v < 0x100_0000 && 1 <= n <= 3 && Rotated(v) == Room(n) * q + low
    requires low < Room(n) && low' < Room(n) && low + (group + v / 0x80_0000) == low' + Room(n) * carry
    ensures AddGroup(v, n, group) == Room(n) * q + low'
  {
    hide Rotated;
    AddBelow(q, low, group + v / 0x80_0000, carry, low', Room(n));
  }

  lemma GroupOfOne(c1: byte, c2: byte, c3: byte, b: byte, x: nat, c3': byte)
    requires c3' + 0x100 * x == c3 + b + TopBit(c1)
    ensures AddGroup(Three(c1, c2, c3), 1, b) == Three(RotatedByte(c1), c2, c3')
  {
    hide RotatedByte, AddGroup, Rotated;
    RotatedThree(c1, c2, c3);
    ThreeTop(c1, c2, c3);
    GroupAdds(Three(c1, c2, c3), 1, b, 0x100 * RotatedByte(c1) + c2, c3, x, c3');
  }

  lemma GroupOfTwo(c1: byte, c2: byte, c3: byte, b0: byte, b1: byte, x: nat, y: nat, c2': byte, c3': byte)
    requires c3' + 0x100 * x == c3 + b0 + TopBit(c1) && c2' + 0x100 * y == c2 + b1 + x
    ensures AddGroup(Three(c1, c2, c3), 2, b0 + 0x100 * b1) == Three(RotatedByte(c1), c2', c3')
  {
    hide RotatedByte, AddGroup, Rotated;
    RotatedThree(c1, c2, c3);
    ThreeTop(c1, c2, c3);
    GroupAdds(Three(c1, c2, c3), 2, b0 + 0x100 * b1, RotatedByte(c1), 0x100 * c2 + c3, y, 0x100 * c2' + c3');
  }

  lemma GroupOfThree(c1: byte, c2: byte, c3: byte, b0: byte, b1: byte, b2: byte, x: nat, y: nat, z: nat, c1': byte, c2': byte, c3': byte)
    requires c3' + 0x100 * x == c3 + b0 + TopBit(c1) && c2' + 0x100 * y == c2 + b1 + x && c1' + 0x100 * z == RotatedByte(c1) + b2 + y
    ensures AddGroup(Three(c1, c2, c3), 3, b0 + 0x100 * (b1 + 0x100 * b2)) == Three(c1', c2', c3')
  {
    hide RotatedByte, AddGroup, Rotated;
    RotatedThree(c1, c2, c3);
    ThreeTop(c1, c2, c3);
    GroupAdds(Three(c1, c2, c3), 3, b0 + 0x100 * (b1 + 0x100 * b2), 0, Three(RotatedByte(c1), c2, c3), z, Three(c1', c2', c3'));
  }

  function Sum24(s: Sums): (v: nat)
    ensures v < 0x100_0000
  {
    Three(Num(s.c1), Num(s.c2), Num(s.c3))
  }

  lemma OneByte(s: Sums, b: bv8)
    requires s.k == 0
    ensures Sum24(Next(s, b)) == GroupSum(Sum24(s), [b]) && Next(s, b).k == 1 && CarryOk(Next(s, b))
  {
    hide *;
    var t := Next(s, b);
    FirstAdds(s, b);
    Sum24Is(s);
    Sum24Is(t);
    GroupOfOne(Num(s.c1), Num(s.c2), Num(s.c3), Num(b), Num(t.carry), Num(t.c3));
    GroupSumOne(Sum24(s), b);
  }

  lemma GroupSumOne(v: nat, b: bv8)
    requires v < 0x100_0000
    ensures GroupSum(v, [b]) == AddGroup(v, 1, Num(b))
  {
    hide AddGroup, Num;
    assert [b][1..] == [] && LittleEndian([b]) == Num(b);
  }

  lemma Sum24Is(s: Sums)
    ensures Sum24(s) == Three(Num(s.c1), Num(s.c2), Num(s.c3))
  {
  }

  lemma TwoLittle(b0: bv8, b1: bv8)
    ensures LittleEndian([b0, b1]) == Num(b0) + 0x100 * Num(b1)
  {
    hide Num;
    assert [b0, b1][1..] == [b1] && [b1][1..] == [];
    assert LittleEndian([b1]) == Num(b1) + 0x100 * LittleEndian([]);
  }

  lemma GroupSumTwo(v: nat, b0: bv8, b1: bv8)
    requires v < 0x100_0000
    ensures GroupSum(v, [b0, b1]) == AddGroup(v, 2, Num(b0) + 0x100 * Num(b1))
  {
    hide AddGroup, LittleEndian;
    TwoLittle(b0, b1);
  }

  lemma TwoBytes(s: Sums, b0: bv8, b1: bv8)
    requires s.k == 0
    ensures var t := Next(Next(s, b0), b1); Sum24(t) == GroupSum(Sum24(s), [b0, b1]) && t.k == 2 && CarryOk(t)
  {
    hide *;
    var t := Next(s, b0);
    var u := Next(t, b1);
    FirstAdds(s, b0);
    SecondAdds(t, b1);
    Sum24Is(s);
    Sum24Is(u);
    GroupOfTwo(Num(s.c1), Num(s.c2), Num(s.c3), Num(b0), Num(b1), Num(t.carry), Num(u.carry), Num(u.c2), Num(u.c3));
    GroupSumTwo(Sum24(s), b0, b1);
  }

  lemma RotatedByteIs(c1: byte)
    ensures RotatedByte(c1) == 2 * c1 % 0x100 + c1 / 0x80
  {
  }

  lemma GroupSumThree(v: nat, b0: bv8, b1: bv8, b2: bv8)
    requires v < 0x100_0000
    ensures GroupSum(v, [b0, b1, b2]) == AddGroup(v, 3, Num(b0) + 0x100 * (Num(b1) + 0x100 * Num(b2)))
  {
    hide AddGroup, Num;
    TwoLittle(b1, b2);
    assert [b0, b1, b2][1..] == [b1, b2];
  }

  lemma CarryOut(x: nat) returns (z: nat)
    ensures x % 0x100 + 0x100 * z == x
  {
    z := x / 0x100;
  }

  lemma ThreeBytes(s: Sums, b0: bv8, b1: bv8, b2: bv8)
    requires s.k == 0
    ensures var t := Next(Next(Next(s, b0), b1), b2); Sum24(t) == GroupSum(Sum24(s), [b0, b1, b2]) && t.k == 0 && CarryOk(t)
  {
    hide *;
    var t := Next(s, b0);
    var u := Next(t, b1);
    var w := Next(u, b2);
    FirstAdds(s, b0);
    SecondAdds(t, b1);
    ThirdAdds(u, b2);
    Sum24Is(s);
    Sum24Is(w);
    var z := CarryOut(Num(u.c1) + Num(b2) + Num(u.carry));
    GroupOfThree(Num(s.c1), Num(s.c2), Num(s.c3), Num(b0), Num(b1), Num(b2), Num(t.carry), Num(u.carry), z, Num(w.c1), Num(w.c2), Num(w.c3));
    GroupSumThree(Sum24(s), b0, b1, b2);
  }

  /** A whole group as the source's three branches leave it: one 24-bit addition
      to the rotated sums, and the numbers its three bytes are combined with. */
  lemma GroupIsOneAddition(s: Sums, b0: bv8, b1: bv8, b2: bv8)
    requires s.k == 0
    ensures var s1 := Next(s, b0);
            var s2 := Next(s1, b1);
            var t := Next(s2, b2);
            var top := Num(s.c1) / 128;
            var rot := 2 * Num(s.c1) % 256 + top;
            && 65536 * Num(t.c1) + 256 * Num(t.c2) + Num(t.c3)
               == (65536 * rot + 256 * Num(s.c2) + Num(s.c3) + 65536 * Num(b2) + 256 * Num(b1) + Num(b0) + top) % 0x100_0000
            && t.k == 0 && Num(Key(s)) == rot && Key(s1) == t.c3 && Key(s2) == t.c2
  {
    hide *;
    ThreeBytes(s, b0, b1, b2);
    KeysInGroup(s, b0, b1, b2);
    Sum24Is(s);
    Sum24Is(Next(Next(Next(s, b0), b1), b2));
    RotatedByteIs(Num(s.c1));
    RotatedThree(Num(s.c1), Num(s.c2), Num(s.c3));
    ThreeTop(Num(s.c1), Num(s.c2), Num(s.c3));
    GroupSumThree(Sum24(s), b0, b1, b2);
    WholeGroup(Sum24(s), Num(b0) + 0x100 * (Num(b1) + 0x100 * Num(b2)));
    ThreeIs(RotatedByte(Num(s.c1)), Num(s.c2), Num(s.c3));
    var t := Next(Next(Next(s, b0), b1), b2);
    ThreeIs(Num(t.c1), Num(t.c2), Num(t.c3));
  }

  lemma ThreeIs(c1: byte, c2: byte, c3: byte)
    ensures Three(c1, c2, c3) == 65536 * c1 + 256 * c2 + c3
  {
  }

  lemma KeysInGroup(s: Sums, b0: bv8, b1: bv8, b2: bv8)
    requires s.k == 0
    ensures var s1 := Next(s, b0);
            var s2 := Next(s1, b1);
            var t := Next(s2, b2);
            Num(Key(s)) == RotatedByte(Num(s.c1)) && Key(s1) == t.c3 && Key(s2) == t.c2
  {
    hide Num, Add, AddCarry, RotateLeft;
    RotateByte(s.c1);
  }

  lemma WholeGroup(v: nat, group: nat)
    requires v < 0x100_0000
    ensures AddGroup(v, 3, group) == (Rotated(v) + group + v / 0x80_0000) % 0x100_0000
  {
    hide Rotated;
    RotatedBelow(v);
    BelowRoom(Rotated(v));
  }

  lemma BelowRoom(r: nat)
    requires r < 0x100_0000
    ensures r % 0x100_0000 == r
  {
  }

  // ---- whole runs ------------------------------------------------------------------------

  lemma LastBytes(bytes: seq<bv8>, n: nat)
    requires n < |bytes| <= n + 3
    ensures var t := Total(ZERO, bytes[..n]);
            Total(ZERO, bytes) == if |bytes| == n + 1 then Next(t, bytes[n])
                                  else if |bytes| == n + 2 then Next(Next(t, bytes[n]), bytes[n + 1])
                                  else Next(Next(Next(t, bytes[n]), bytes[n + 1]), bytes[n + 2])
  {
    hide Next;
    assert bytes[..n + 1] == bytes[..n] + [bytes[n]];
    RunAppend(Next, ZERO, bytes[..n], bytes[n]);
    if |bytes| > n + 1 {
      assert bytes[..n + 2] == bytes[..n + 1] + [bytes[n + 1]];
      RunAppend(Next, ZERO, bytes[..n + 1], bytes[n + 1]);
    }
    if |bytes| > n + 2 {
      assert bytes == bytes[..n + 2] + [bytes[n + 2]];
      RunAppend(Next, ZERO, bytes[..n + 2], bytes[n + 2]);
    }
    assert bytes[..|bytes|] == bytes;
  }

  /** The sums the decoder and the encoder keep are the checksum. */
  lemma {:induction false} TotalIsChecksum(bytes: seq<bv8>)
    ensures var t := Total(ZERO, bytes); t.k == |bytes| % 3 && CarryOk(t) && Sum24(t) == Checksum(bytes)
    decreases |bytes|
  {
    if bytes == [] {
      assert Total(ZERO, []) == ZERO;
    } else {
      var n := |bytes| - LastGroup(|bytes|);
      var s, g := Total(ZERO, bytes[..n]), bytes[n..];
      TotalIsChecksum(bytes[..n]);
      LastBytes(bytes, n);
      hide Next, Sum24, GroupSum, Num, Run;
      if |g| == 1 {
        assert g == [bytes[n]];
        OneByte(s, bytes[n]);
      } else if |g| == 2 {
        assert g == [bytes[n], bytes[n + 1]];
        TwoBytes(s, bytes[n], bytes[n + 1]);
      } else {
        assert g == [bytes[n], bytes[n + 1], bytes[n + 2]];
        ThreeBytes(s, bytes[n], bytes[n + 1], bytes[n + 2]);
      }
    }
  }

  lemma KeyIs(bytes: seq<bv8>)
    ensures Num(Key(Total(ZERO, bytes))) == KeyAfter(bytes)
  {
    var s := Total(ZERO, bytes);
    TotalIsChecksum(bytes);
    RotateByte(s.c1);
    hide Num, RotateLeft, Run, Checksum, Rotated;
    ThreeParts(Num(s.c1), Num(s.c2), Num(s.c3));
    RotatedThree(Num(s.c1), Num(s.c2), Num(s.c3));
    ThreeParts(RotatedByte(Num(s.c1)), Num(s.c2), Num(s.c3));
  }

  /** The number six bits stand for. */
  function Six(v: bv6): (n: nat)
    ensures n < 64
  {
    v as int
  }

  /** The byte the symbols hold before it is combined: a symbol of its own gives
      the low six bits, and the group's first symbol two top bits for each byte,
      the first byte's highest. */
  function Stored(six: seq<bv6>, j: nat): (b: byte)
    requires 4 * (j / 3) + 1 + j % 3 < |six|
  {
    var tops := Six(six[4 * (j / 3)]);
    Six(six[4 * (j / 3) + 1 + j % 3]) + 64 * (if j % 3 == 0 then tops / 16 else if j % 3 == 1 then tops / 4 % 4 else tops % 4)
  }

  lemma OrTop(a: bv8, p: bv8)
    requires a < 64 && p < 4
    ensures Num(a | (p << 6)) == Num(a) + 64 * Num(p)
  {
  }

  lemma Widened(v: bv6)
    ensures v as bv8 < 64 && Num(v as bv8) == Six(v)
  {
  }

  lemma PairBelow(tops: bv6, k: int)
    ensures PairOf(tops, k) as bv8 < 4
  {
  }

  lemma PairIs(tops: bv6)
    ensures Six(PairOf(tops, 0)) == Six(tops) / 16
    ensures Six(PairOf(tops, 1)) == Six(tops) / 4 % 4
    ensures Six(PairOf(tops, 2)) == Six(tops) % 4
  {
  }

  lemma JoinIs(tops: bv6, low: bv6, k: int)
    ensures Num(Join(tops, low, k)) == Six(low) + 64 * Six(PairOf(tops, k))
  {
    hide Num, Six, PairOf;
    Widened(low);
    Widened(PairOf(tops, k));
    PairBelow(tops, k);
    OrTop(low as bv8, PairOf(tops, k) as bv8);
  }

  lemma UnpackedIs(six: seq<bv6>, j: nat)
    requires j < Carried(|six|)
    ensures 4 * (j / 3) + 1 + j % 3 < |six| && Num(UnpackedAt(six, j)) == Stored(six, j)
  {
    hide Num, Six, PairOf, Join;
    PairIs(six[4 * (j / 3)]);
    JoinIs(six[4 * (j / 3)], six[4 * (j / 3) + 1 + j % 3], j % 3);
  }

  /** The checksum four symbols hold: the tops of c3, c2, c1 in that order, then the three low parts. */
  function StoredSum(csum: seq<bv6>): (v: nat)
    requires |csum| == 4
    ensures v < 0x100_0000
  {
    var tops := Six(csum[0]);
    Three(Six(csum[3]) + 64 * (tops % 4), Six(csum[2]) + 64 * (tops / 4 % 4), Six(csum[1]) + 64 * (tops / 16))
  }

  lemma UnpackedSums(csum: seq<bv6>)
    requires |csum| == 4
    ensures var w := UnpackSums(csum); Three(Num(w.0), Num(w.1), Num(w.2)) == StoredSum(csum)
  {
    hide Num, Six, PairOf, Join, Three;
    PairIs(csum[0]);
    JoinIs(csum[0], csum[1], 0);
    JoinIs(csum[0], csum[2], 1);
    JoinIs(csum[0], csum[3], 2);
  }

  lemma ThreeInjective(a: bv8, b: bv8, c: bv8, x: bv8, y: bv8, z: bv8)
    ensures Three(Num(a), Num(b), Num(c)) == Three(Num(x), Num(y), Num(z)) <==> a == x && b == y && c == z
  {
    ThreeParts(Num(a), Num(b), Num(c));
    ThreeParts(Num(x), Num(y), Num(z));
    FromNum(a);
    FromNum(b);
    FromNum(c);
    FromNum(x);
    FromNum(y);
    FromNum(z);
    hide Num, Three;
  }

  /** The scanner's comparison of three bytes is the comparison of the stored and the computed checksum. */
  lemma SumsCompare(csum: seq<bv6>, bytes: seq<bv8>)
    requires |csum| == 4
    ensures var t := Total(ZERO, bytes); UnpackSums(csum) == (t.c1, t.c2, t.c3) <==> StoredSum(csum) == Checksum(bytes)
  {
    hide *;
    var t, w := Total(ZERO, bytes), UnpackSums(csum);
    TotalIsChecksum(bytes);
    Sum24Is(t);
    UnpackedSums(csum);
    ThreeInjective(w.0, w.1, w.2, t.c1, t.c2, t.c3);
  }

  // ---- what a decoder has to return --------------------------------------------------------

  lemma FromNum(b: bv8)
    ensures Num(b) as bv8 == b
  {
  }

  /** Byte j of a decoded run: the stored byte combined with the number the bytes before it leave. */
  ghost predicate PlainAt(six: seq<bv6>, out: seq<bv8>, j: nat)
    requires j < |out|
  {
    4 * (j / 3) + 1 + j % 3 < |six| && out[j] == (Stored(six, j) as bv8) ^ (KeyAfter(out[..j]) as bv8)
  }

  lemma {:induction false} UnwhitenAt<S>(key: S -> bv8, next: (S, bv8) -> S, s: S, xs: seq<bv8>, j: nat)
    requires j < |xs|
    ensures var out := Unwhiten(key, next, s, xs); out[j] == xs[j] ^ key(Run(next, s, out[..j]))
    decreases j
  {
    var out := Unwhiten(key, next, s, xs);
    if j == 0 {
      assert out[..0] == [];
    } else {
      var b := xs[0] ^ key(s);
      UnwhitenAt(key, next, next(s, b), xs[1..], j - 1);
      assert out[..j][0] == b && out[..j][1..] == Unwhiten(key, next, next(s, b), xs[1..])[..j - 1];
    }
  }

  lemma DecodedPlain(six: seq<bv6>, j: nat)
    requires j < |Decode(ZERO, six, PAYLOAD_BYTES)|
    ensures PlainAt(six, Decode(ZERO, six, PAYLOAD_BYTES), j)
  {
    var xs, out := Unpack(six, PAYLOAD_BYTES), Decode(ZERO, six, PAYLOAD_BYTES);
    UnwhitenAt(Key, Next, ZERO, xs, j);
    UnpackedIs(six, j);
    KeyIs(out[..j]);
    FromNum(xs[j]);
    FromNum(Key(Total(ZERO, out[..j])));
    hide Num, Key, Next, Run, Unwhiten, KeyAfter, Stored;
  }
}
