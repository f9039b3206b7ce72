/** Apple 6-and-2 GCR: the disk-byte alphabet, the three-byte rolling checksum
    nibbler of the track encoder, and the decoder that mirrors it. */
module GcrCodec {
  import opened Basics

  const PAYLOAD_SIX := 699
  const PAYLOAD_BYTES := 524

  // ---- disk bytes ------------------------------------------------------------

  function Pick(k: bv6, b0: bv8, b1: bv8, b2: bv8, b3: bv8, b4: bv8, b5: bv8, b6: bv8, b7: bv8): bv8 {
    if k == 0 then b0 else if k == 1 then b1 else if k == 2 then b2 else if k == 3 then b3
    else if k == 4 then b4 else if k == 5 then b5 else if k == 6 then b6 else b7
  }

  /** Six-bit value to disk byte: the 64-entry alphabet, one row of eight a line. */
  function Nibble(v: bv6): bv8 {
    if v < 8 then Pick(v & 7, 0x96, 0x97, 0x9A, 0x9B, 0x9D, 0x9E, 0x9F, 0xA6)
    else if v < 16 then Pick(v & 7, 0xA7, 0xAB, 0xAC, 0xAD, 0xAE, 0xAF, 0xB2, 0xB3)
    else if v < 24 then Pick(v & 7, 0xB4, 0xB5, 0xB6, 0xB7, 0xB9, 0xBA, 0xBB, 0xBC)
    else if v < 32 then Pick(v & 7, 0xBD, 0xBE, 0xBF, 0xCB, 0xCD, 0xCE, 0xCF, 0xD3)
    else if v < 40 then Pick(v & 7, 0xD6, 0xD7, 0xD9, 0xDA, 0xDB, 0xDC, 0xDD, 0xDE)
    else if v < 48 then Pick(v & 7, 0xDF, 0xE5, 0xE6, 0xE7, 0xE9, 0xEA, 0xEB, 0xEC)
    else if v < 56 then Pick(v & 7, 0xED, 0xEE, 0xEF, 0xF2, 0xF3, 0xF4, 0xF5, 0xF6)
    else Pick(v & 7, 0xF7, 0xF9, 0xFA, 0xFB, 0xFC, 0xFD, 0xFE, 0xFF)
  }

  const OUTSIDE: bv8 := 64

  function Find(b: bv8, from: bv8, b0: bv8, b1: bv8, b2: bv8, b3: bv8, b4: bv8, b5: bv8, b6: bv8, b7: bv8): bv8 {
    if b == b0 then from else if b == b1 then from + 1 else if b == b2 then from + 2 else if b == b3 then from + 3
    else if b == b4 then from + 4 else if b == b5 then from + 5 else if b == b6 then from + 6
    else if b == b7 then from + 7 else OUTSIDE
  }

  /** Position of a byte in the alphabet, which is in ascending order. */
  function Position(b: bv8): (r: bv8)
    ensures r <= OUTSIDE
  {
    if b <= 0xA6 then Find(b, 0, 0x96, 0x97, 0x9A, 0x9B, 0x9D, 0x9E, 0x9F, 0xA6)
    else if b <= 0xB3 then Find(b, 8, 0xA7, 0xAB, 0xAC, 0xAD, 0xAE, 0xAF, 0xB2, 0xB3)
    else if b <= 0xBC then Find(b, 16, 0xB4, 0xB5, 0xB6, 0xB7, 0xB9, 0xBA, 0xBB, 0xBC)
    else if b <= 0xD3 then Find(b, 24, 0xBD, 0xBE, 0xBF, 0xCB, 0xCD, 0xCE, 0xCF, 0xD3)
    else if b <= 0xDE then Find(b, 32, 0xD6, 0xD7, 0xD9, 0xDA, 0xDB, 0xDC, 0xDD, 0xDE)
    else if b <= 0xEC then Find(b, 40, 0xDF, 0xE5, 0xE6, 0xE7, 0xE9, 0xEA, 0xEB, 0xEC)
    else if b <= 0xF6 then Find(b, 48, 0xED, 0xEE, 0xEF, 0xF2, 0xF3, 0xF4, 0xF5, 0xF6)
    else Find(b, 56, 0xF7, 0xF9, 0xFA, 0xFB, 0xFC, 0xFD, 0xFE, 0xFF)
  }

  /** Disk byte to six-bit value; None outside the alphabet. */
  function Dec(b: bv8): Option<bv6> {
    if Position(b) == OUTSIDE then None else Some(Position(b) as bv6)
  }

  lemma DecNibble(v: bv6)
    ensures Dec(Nibble(v)) == Some(v)
  {
    if v < 16 {
      assert Nibble(v) <= 0xB3;
    } else if v < 32 {
      assert 0xB4 <= Nibble(v) <= 0xD3;
    } else if v < 48 {
      assert 0xD6 <= Nibble(v) <= 0xEC;
    } else {
      assert 0xED <= Nibble(v);
    }
  }

  lemma NibbleDec(b: bv8)
    ensures Dec(b).Some? ==> Nibble(Dec(b).value) == b
  {
  }

  /** `Dec` is exactly the inverse relation of `Nibble`. */
  lemma DecInvertsNibble(b: bv8, v: bv6)
    ensures Dec(b) == Some(v) <==> b == Nibble(v)
  {
    DecNibble(v);
    NibbleDec(b);
  }

  /** The mark bytes D5 and AA are not disk bytes; the other mark and trailer bytes are. */
  lemma MarksOutsideAlphabet()
    ensures Dec(0xD5).None? && Dec(0xAA).None?
    ensures Dec(0x96).Some? && Dec(0xAD).Some? && Dec(0xDE).Some?
  {
  }

  /** The rule behind the table: the top bit set, two adjacent ones below it, and
      at most one pair of adjacent zeros. */
  predicate DiskByte(b: bv8) {
    var zeros := !b & (!b >> 1);
    b & 0x80 != 0 && (b & (b >> 1)) & 0x3F != 0 && zeros & (zeros - 1) == 0
  }

  lemma DiskByteHasPlace(b: bv8)
    ensures DiskByte(b) <==> Position(b) != OUTSIDE
  {
  }

  lemma NibblesAscend(v: bv6)
    requires v != 63
    ensures Nibble(v) < Nibble(v + 1)
  {
    if v < 8 {
      assert Nibble(v) < Nibble(v + 1);
    } else if v < 16 {
      assert Nibble(v) < Nibble(v + 1);
    } else if v < 24 {
      assert Nibble(v) < Nibble(v + 1);
    } else if v < 32 {
      assert Nibble(v) < Nibble(v + 1);
    } else if v < 40 {
      assert Nibble(v) < Nibble(v + 1);
    } else if v < 48 {
      assert Nibble(v) < Nibble(v + 1);
    } else if v < 56 {
      assert Nibble(v) < Nibble(v + 1);
    } else {
      assert Nibble(v) < Nibble(v + 1);
    }
  }

  /** The alphabet is the bytes that meet the rule, in ascending order. */
  lemma AlphabetIsRule(b: bv8)
    ensures Dec(b).Some? <==> DiskByte(b)
  {
    DiskByteHasPlace(b);
    hide Position, DiskByte;
  }

  // ---- rolling checksum ---------------------------------------------------------

  /** The three sums, the carry between the bytes of a group, and the position in the group. */
  datatype Sums = Sums(c1: bv8, c2: bv8, c3: bv8, carry: bv8, k: nat)

  const ZERO := Sums(0, 0, 0, 0, 0)

  /** The sum of two bytes and a carry, and its carry out. */
  function Add(a: bv8, b: bv8, carry: bv8): bv8 { ((Num(a) + Num(b) + Num(carry)) % 0x100) as bv8 }

  function AddCarry(a: bv8, b: bv8, carry: bv8): bv8 { if Num(a) + Num(b) + Num(carry) >= 0x100 then 1 else 0 }

  function RotateLeft(a: bv8): bv8 { (a << 1) | (a >> 7) }

  /** The byte each payload byte is combined with. */
  function Key(s: Sums): bv8 {
    if s.k == 0 then RotateLeft(s.c1) else if s.k == 1 then s.c3 else s.c2
  }

  /** The sums after the first, second and third payload byte of a group. */
  function First(s: Sums, b: bv8): Sums {
    Sums(RotateLeft(s.c1), s.c2, Add(s.c3, b, s.c1 >> 7), AddCarry(s.c3, b, s.c1 >> 7), 1)
  }

  function Second(s: Sums, b: bv8): Sums {
    Sums(s.c1, Add(s.c2, b, s.carry), s.c3, AddCarry(s.c2, b, s.carry), 2)
  }

  function Third(s: Sums, b: bv8): Sums {
    Sums(Add(s.c1, b, s.carry), s.c2, s.c3, 0, 0)
  }

  function Next(s: Sums, b: bv8): Sums {
    if s.k == 0 then First(s, b) else if s.k == 1 then Second(s, b) else Third(s, b)
  }

  /** What the encoder's nibbler leaves in its xor registers, byte by byte. */
  function Whiten<S>(key: S -> bv8, next: (S, bv8) -> S, s: S, bytes: seq<bv8>): (r: seq<bv8>)
    ensures |r| == |bytes|
    decreases |bytes|
  {
    if bytes == [] then [] else [bytes[0] ^ key(s)] + Whiten(key, next, next(s, bytes[0]), bytes[1..])
  }

  function Unwhiten<S>(key: S -> bv8, next: (S, bv8) -> S, s: S, xs: seq<bv8>): (r: seq<bv8>)
    ensures |r| == |xs|
    decreases |xs|
  {
    if xs == [] then [] else
    var b := xs[0] ^ key(s);
    [b] + Unwhiten(key, next, next(s, b), xs[1..])
  }

  /** The sums after a whole run of payload bytes. */
  function Run<S>(next: (S, bv8) -> S, s: S, bytes: seq<bv8>): S
    decreases |bytes|
  {
    if bytes == [] then s else Run(next, next(s, bytes[0]), bytes[1..])
  }

  function Total(s: Sums, bytes: seq<bv8>): Sums { Run(Next, s, bytes) }

  lemma XorTwice(b: bv8, k: bv8)
    ensures (b ^ k) ^ k == b
  {
  }

  lemma {:induction false} UnwhitenWhiten<S>(key: S -> bv8, next: (S, bv8) -> S, s: S, bytes: seq<bv8>)
    ensures Unwhiten(key, next, s, Whiten(key, next, s, bytes)) == bytes
    decreases |bytes|
  {
    if bytes != [] {
      XorTwice(bytes[0], key(s));
      UnwhitenWhiten(key, next, next(s, bytes[0]), bytes[1..]);
      assert Whiten(key, next, s, bytes)[1..] == Whiten(key, next, next(s, bytes[0]), bytes[1..]);
    }
  }

  lemma {:induction false} WhitenUnwhiten<S>(key: S -> bv8, next: (S, bv8) -> S, s: S, xs: seq<bv8>)
    ensures Whiten(key, next, s, Unwhiten(key, next, s, xs)) == xs
    decreases |xs|
  {
    if xs != [] {
      var b := xs[0] ^ key(s);
      XorTwice(xs[0], key(s));
      WhitenUnwhiten(key, next, next(s, b), xs[1..]);
      assert Unwhiten(key, next, s, xs)[1..] == Unwhiten(key, next, next(s, b), xs[1..]);
    }
  }

  lemma {:induction false} WhitenPrefix<S>(key: S -> bv8, next: (S, bv8) -> S, s: S, bytes: seq<bv8>, n: nat)
    requires n <= |bytes|
    ensures Whiten(key, next, s, bytes[..n]) == Whiten(key, next, s, bytes)[..n]
    decreases n
  {
    if n > 0 {
      WhitenPrefix(key, next, next(s, bytes[0]), bytes[1..], n - 1);
      assert bytes[..n][1..] == bytes[1..][..n - 1];
    }
  }

  lemma {:induction false} RunAppend<S>(next: (S, bv8) -> S, s: S, had: seq<bv8>, b: bv8)
    ensures Run(next, s, had + [b]) == next(Run(next, s, had), b)
    decreases |had|
  {
    if had != [] {
      assert (had + [b])[1..] == had[1..] + [b];
      RunAppend(next, next(s, had[0]), had[1..], b);
    } else {
      assert (had + [b])[1..] == [];
    }
  }

  /** One byte further with the decoder. */
  lemma UnwhitenStep<S>(key: S -> bv8, next: (S, bv8) -> S, s0: S, s: S, xs: seq<bv8>, had: seq<bv8>, b: bv8)
    requires |had| < |xs| && b == xs[|had|] ^ key(s)
    requires Unwhiten(key, next, s0, xs) == had + Unwhiten(key, next, s, xs[|had|..]) && Run(next, s0, had) == s
    ensures Unwhiten(key, next, s0, xs) == had + [b] + Unwhiten(key, next, next(s, b), xs[|had| + 1..])
    ensures Run(next, s0, had + [b]) == next(s, b)
  {
    assert xs[|had|..][1..] == xs[|had| + 1..];
    var rest := Unwhiten(key, next, next(s, b), xs[|had| + 1..]);
    assert Unwhiten(key, next, s, xs[|had|..]) == [b] + rest;
    Reassociate(had, [b], rest);
    RunAppend(next, s0, had, b);
  }

  lemma Reassociate(x: seq<bv8>, y: seq<bv8>, z: seq<bv8>)
    ensures x + (y + z) == x + y + z
  {
  }

  // ---- six-bit packing ---------------------------------------------------------------

  function Low(x: bv8): bv6 { (x & 0x3F) as bv6 }

  function Tops(x0: bv8, x1: bv8, x2: bv8): bv6 {
    (((x0 >> 6) << 4) | ((x1 >> 6) << 2) | (x2 >> 6)) as bv6
  }

  /** The byte with low bits `six` and as top bits the k-th pair of `tops`. */
  function Join(tops: bv6, six: bv6, k: int): bv8 {
    (six as bv8) | (((PairOf(tops, k)) as bv8) << 6)
  }

  function PairOf(tops: bv6, k: int): bv6 {
    (if k == 0 then tops >> 4 else if k == 1 then tops >> 2 else tops) & 3
  }

  function At(xs: seq<bv8>, j: nat): bv8 {
    if j < |xs| then xs[j] else 0
  }

  /** Three bytes become a tops value and three low values; a last partial group is filled up with zeros. */
  function PackedAt(xs: seq<bv8>, i: nat): bv6 {
    var g := i / 4;
    if i % 4 == 0 then Tops(At(xs, 3 * g), At(xs, 3 * g + 1), At(xs, 3 * g + 2))
    else Low(At(xs, 3 * g + i % 4 - 1))
  }

  function Pack(xs: seq<bv8>): seq<bv6> {
    seq(|xs| + (|xs| + 2) / 3, i requires 0 <= i => PackedAt(xs, i))
  }

  /** How many bytes `n` six-bit values carry. */
  function Carried(n: nat): nat {
    n / 4 * 3 + if n % 4 == 0 then 0 else n % 4 - 1
  }

  function UnpackedAt(six: seq<bv6>, j: nat): bv8
    requires j < Carried(|six|)
  {
    Join(six[4 * (j / 3)], six[4 * (j / 3) + 1 + j % 3], j % 3)
  }

  function Unpack(six: seq<bv6>, room: nat): seq<bv8> {
    seq(Min(room, Carried(|six|)), j requires 0 <= j < Carried(|six|) => UnpackedAt(six, j))
  }

  lemma JoinTops(x0: bv8, x1: bv8, x2: bv8)
    ensures Join(Tops(x0, x1, x2), Low(x0), 0) == x0
    ensures Join(Tops(x0, x1, x2), Low(x1), 1) == x1
    ensures Join(Tops(x0, x1, x2), Low(x2), 2) == x2
  {
  }

  lemma TopsJoin(tops: bv6, l0: bv6, l1: bv6, l2: bv6)
    ensures Low(Join(tops, l0, 0)) == l0 && Low(Join(tops, l1, 1)) == l1 && Low(Join(tops, l2, 2)) == l2
    ensures Tops(Join(tops, l0, 0), Join(tops, l1, 1), Join(tops, l2, 2)) == tops
    ensures Tops(Join(tops, l0, 0), Join(tops, l1, 1), 0) == tops & 0x3C
  {
  }

  lemma UnpackPack(xs: seq<bv8>)
    ensures Unpack(Pack(xs), |xs|) == xs
  {
    var six := Pack(xs);
    assert Carried(|six|) == |xs|;
    forall j | 0 <= j < |xs| ensures UnpackedAt(six, j) == xs[j] {
      var g := j / 3;
      JoinTops(At(xs, 3 * g), At(xs, 3 * g + 1), At(xs, 3 * g + 2));
      assert six[4 * g] == PackedAt(xs, 4 * g) && six[4 * g + 1 + j % 3] == PackedAt(xs, 4 * g + 1 + j % 3);
    }
  }

  /** `six` with the two bits of the last tops value that no byte uses cleared. */
  function Canonical(six: seq<bv6>): seq<bv6>
    requires |six| == PAYLOAD_SIX
  {
    six[696 := six[696] & 0x3C]
  }

  lemma PackUnpack(six: seq<bv6>)
    requires |six| == PAYLOAD_SIX
    ensures |Unpack(six, PAYLOAD_BYTES)| == PAYLOAD_BYTES
    ensures Pack(Unpack(six, PAYLOAD_BYTES)) == Canonical(six)
  {
    var xs := Unpack(six, PAYLOAD_BYTES);
    forall i | 0 <= i < PAYLOAD_SIX ensures PackedAt(xs, i) == Canonical(six)[i] {
      var g := i / 4;
      TopsJoin(six[4 * g], six[4 * g + 1], six[4 * g + 2], if g < 174 then six[4 * g + 3] else 0);
      assert xs[3 * g] == Join(six[4 * g], six[4 * g + 1], 0);
      assert xs[3 * g + 1] == Join(six[4 * g], six[4 * g + 2], 1);
      if g < 174 { assert xs[3 * g + 2] == Join(six[4 * g], six[4 * g + 3], 2); }
    }
  }

  // ---- encoder and decoder ---------------------------------------------------------------

  function Encode(s: Sums, bytes: seq<bv8>): seq<bv6> {
    Pack(Whiten(Key, Next, s, bytes))
  }

  function Decode(s: Sums, six: seq<bv6>, room: nat): (r: seq<bv8>)
    ensures |r| == Min(room, Carried(|six|))
  {
    Unwhiten(Key, Next, s, Unpack(six, room))
  }

  /** The decoder gives back every payload from any common starting sums, so
      that its own sums, being those of what it decoded, equal the encoder's. */
  lemma DecodeEncode(s: Sums, bytes: seq<bv8>)
    ensures |Encode(s, bytes)| == |bytes| + (|bytes| + 2) / 3
    ensures Decode(s, Encode(s, bytes), |bytes|) == bytes
  {
    UnwhitenWhiten(Key, Next, s, bytes);
    UnpackPack(Whiten(Key, Next, s, bytes));
  }

  lemma PackedFrom(xs: seq<bv8>, ys: seq<bv8>, i: nat)
    requires var g := i / 4; At(xs, 3 * g) == At(ys, 3 * g) && At(xs, 3 * g + 1) == At(ys, 3 * g + 1) && At(xs, 3 * g + 2) == At(ys, 3 * g + 2)
    ensures PackedAt(xs, i) == PackedAt(ys, i)
  {
    hide At, Tops, Low;
  }

  /** After every whole number k of groups: the first 4k values carry exactly
      the first 3k bytes, and decoder and encoder sums agree there. */
  lemma SumsAgreeAfterEveryGroup(s: Sums, bytes: seq<bv8>, k: nat)
    requires 3 * k <= |bytes|
    ensures 4 * k <= |Encode(s, bytes)|
    ensures Encode(s, bytes)[..4 * k] == Encode(s, bytes[..3 * k])
    ensures Total(s, Decode(s, Encode(s, bytes)[..4 * k], 3 * k)) == Total(s, bytes[..3 * k])
  {
    hide Key, Next, Run, Decode, PackedAt, Whiten, Unwhiten;
    var xs, ys := Whiten(Key, Next, s, bytes), Whiten(Key, Next, s, bytes[..3 * k]);
    WhitenPrefix(Key, Next, s, bytes, 3 * k);
    forall i | 0 <= i < 4 * k ensures PackedAt(xs, i) == PackedAt(ys, i) {
      var g := i / 4;
      assert At(xs, 3 * g) == At(ys, 3 * g) && At(xs, 3 * g + 1) == At(ys, 3 * g + 1) && At(xs, 3 * g + 2) == At(ys, 3 * g + 2);
      PackedFrom(xs, ys, i);
    }
    DecodeEncode(s, bytes[..3 * k]);
  }

  /** Every 524-byte payload becomes 699 values and comes back unchanged, with equal checksums. */
  lemma PayloadRoundTrip(bytes: seq<bv8>)
    requires |bytes| == PAYLOAD_BYTES
    ensures |Encode(ZERO, bytes)| == PAYLOAD_SIX
    ensures Decode(ZERO, Encode(ZERO, bytes), PAYLOAD_BYTES) == bytes
  {
    DecodeEncode(ZERO, bytes);
  }

  lemma EncodeDecode(six: seq<bv6>)
    requires |six| == PAYLOAD_SIX
    ensures |Decode(ZERO, six, PAYLOAD_BYTES)| == PAYLOAD_BYTES
    ensures Encode(ZERO, Decode(ZERO, six, PAYLOAD_BYTES)) == Canonical(six)
  {
    PackUnpack(six);
    WhitenUnwhiten(Key, Next, ZERO, Unpack(six, PAYLOAD_BYTES));
  }

  /** Two data fields decode to the same payload exactly when they agree up to
      the two spare bits of the last tops value. */
  lemma DecodeInjective(x: seq<bv6>, y: seq<bv6>)
    requires |x| == |y| == PAYLOAD_SIX
    ensures Decode(ZERO, x, PAYLOAD_BYTES) == Decode(ZERO, y, PAYLOAD_BYTES) <==> Canonical(x) == Canonical(y)
  {
    EncodeDecode(x);
    EncodeDecode(y);
    DecodeOfCanonical(x);
    DecodeOfCanonical(y);
  }

  /** Decoding does not look at the spare bits. */
  lemma DecodeOfCanonical(x: seq<bv6>)
    requires |x| == PAYLOAD_SIX
    ensures Decode(ZERO, Canonical(x), PAYLOAD_BYTES) == Decode(ZERO, x, PAYLOAD_BYTES)
  {
    EncodeDecode(x);
    DecodeEncode(ZERO, Decode(ZERO, x, PAYLOAD_BYTES));
  }

  // ---- the four checksum symbols ---------------------------------------------------

  function PackSums(c1: bv8, c2: bv8, c3: bv8): seq<bv6> {
    [Tops(c3, c2, c1), Low(c3), Low(c2), Low(c1)]
  }

  /** The bytes (c1, c2, c3) carried by four symbols. */
  function UnpackSums(csum: seq<bv6>): (bv8, bv8, bv8)
    requires |csum| == 4
  {
    (Join(csum[0], csum[3], 2), Join(csum[0], csum[2], 1), Join(csum[0], csum[1], 0))
  }

  /** Packing is a bijection between three bytes and four symbols. */
  lemma PackSumsBijective(c1: bv8, c2: bv8, c3: bv8, csum: seq<bv6>)
    requires |csum| == 4
    ensures UnpackSums(PackSums(c1, c2, c3)) == (c1, c2, c3)
    ensures PackSums(UnpackSums(csum).0, UnpackSums(csum).1, UnpackSums(csum).2) == csum
  {
    JoinTops(c3, c2, c1);
    TopsJoin(csum[0], csum[1], csum[2], csum[3]);
  }
}
