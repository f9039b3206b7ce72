/** The decoder as written: two nested loops over three mutable sums. */
module GcrDecoder {
  import opened Basics
  import opened GcrCodec
  import opened GcrSums

  /** The sums as the loop keeps them; carry matters only inside a group. */
  ghost predicate Tracks(s: Sums, c1: bv8, c2: bv8, c3: bv8, carry: bv8) {
    s.c1 == c1 && s.c2 == c2 && s.c3 == c3 && (s.k != 0 ==> s.carry == carry)
  }

  /** `out` is what the decoder must produce so far, `s` its sums. */
  ghost predicate Decoded<S>(key: S -> bv8, next: (S, bv8) -> S, s0: S, xs: seq<bv8>, out: seq<bv8>, s: S) {
    && |out| <= |xs| && Run(next, s0, out) == s
    && Unwhiten(key, next, s0, xs) == out + Unwhiten(key, next, s, xs[|out|..])
  }

  lemma DecodedStart<S>(key: S -> bv8, next: (S, bv8) -> S, s0: S, xs: seq<bv8>)
    ensures Decoded(key, next, s0, xs, [], s0)
  {
    assert xs[0..] == xs;
  }

  lemma DecodedStep<S>(key: S -> bv8, next: (S, bv8) -> S, s0: S, xs: seq<bv8>, out: seq<bv8>, s: S, b: bv8)
    requires Decoded(key, next, s0, xs, out, s) && |out| < |xs| && b == xs[|out|] ^ key(s)
    ensures Decoded(key, next, s0, xs, out + [b], next(s, b))
  {
    UnwhitenStep(key, next, s0, s, xs, out, b);
  }

  lemma DecodedEnd<S>(key: S -> bv8, next: (S, bv8) -> S, s0: S, xs: seq<bv8>, out: seq<bv8>, s: S)
    requires Decoded(key, next, s0, xs, out, s) && |out| == |xs|
    ensures out == Unwhiten(key, next, s0, xs)
  {
  }

  lemma NextByte(six: seq<bv6>, n: nat, k: nat)
    requires n % 3 == 0 && k < 3 && n + k < PAYLOAD_BYTES && 4 * (n / 3) + 1 + k < |six|
    ensures n + k < |Unpack(six, PAYLOAD_BYTES)|
    ensures Unpack(six, PAYLOAD_BYTES)[n + k] == Join(six[4 * (n / 3)], six[4 * (n / 3) + 1 + k], k)
  {
    var i := 4 * (n / 3) + 1 + k;
    assert (n + k) / 3 == n / 3 && (n + k) % 3 == k;
    assert n + k < Carried(|six|);
    assert Unpack(six, PAYLOAD_BYTES)[n + k] == UnpackedAt(six, n + k);
  }

  /** The six-bit position of the group that starts with byte n, when n bytes are out. */
  ghost predicate GroupStart(six: seq<bv6>, n: nat, i: nat) {
    i == 4 * (n / 3) && n % 3 == 0 && i < |six| && n < PAYLOAD_BYTES
  }

  lemma NextInGroup(six: seq<bv6>, n: nat, i: nat, k: nat)
    requires GroupStart(six, n, i) && k < 3 && n + k < PAYLOAD_BYTES && i + 1 + k < |six|
    ensures n + k < |Unpack(six, PAYLOAD_BYTES)|
    ensures Unpack(six, PAYLOAD_BYTES)[n + k] == Join(six[i], six[i + 1 + k], k)
  {
    NextByte(six, n, k);
  }

  ghost predicate Finished(six: seq<bv6>, n: nat, i: nat) {
    (i == |six| || n == PAYLOAD_BYTES) && n == |Unpack(six, PAYLOAD_BYTES)|
  }

  /** After k bytes of a group that ran to its end, or out of room, or out of values. */
  lemma GroupDone(six: seq<bv6>, n: nat, i: nat, k: nat)
    requires GroupStart(six, n, i) && k <= 3 && n + k <= PAYLOAD_BYTES && i + 1 + k <= |six|
    requires k == 3 || n + k == PAYLOAD_BYTES || i + 1 + k == |six|
    ensures (GroupStart(six, n + k, i + 1 + k) && k == 3) || Finished(six, n + k, i + 1 + k)
  {
  }

  /** `out` has been decoded and the three sums are those of it. */
  ghost predicate Decoding(six: seq<bv6>, out: seq<bv8>, s: Sums, c1: bv8, c2: bv8, c3: bv8) {
    Decoded(Key, Next, ZERO, Unpack(six, PAYLOAD_BYTES), out, s) && s.c1 == c1 && s.c2 == c2 && s.c3 == c3
  }

  /** The same inside a group, where the carry matters too. */
  ghost predicate InGroup(six: seq<bv6>, out: seq<bv8>, s: Sums, c1: bv8, c2: bv8, c3: bv8, carry: bv8) {
    Decoded(Key, Next, ZERO, Unpack(six, PAYLOAD_BYTES), out, s) && Tracks(s, c1, c2, c3, carry)
  }

  lemma DecodingStart(six: seq<bv6>)
    ensures Decoding(six, [], ZERO, 0, 0, 0) && ZERO.k == 0
  {
    DecodedStart(Key, Next, ZERO, Unpack(six, PAYLOAD_BYTES));
  }

  lemma GroupBegins(six: seq<bv6>, out: seq<bv8>, s: Sums, c1: bv8, c2: bv8, c3: bv8)
    requires Decoding(six, out, s, c1, c2, c3) && s.k == 0
    ensures InGroup(six, out, s, c1, c2, c3, 0)
  {
    hide Decoded;
  }

  lemma GroupEnds(six: seq<bv6>, out: seq<bv8>, s: Sums, c1: bv8, c2: bv8, c3: bv8, carry: bv8)
    requires InGroup(six, out, s, c1, c2, c3, carry)
    ensures Decoding(six, out, s, c1, c2, c3)
  {
    hide Decoded;
  }

  lemma DecodingEnd(six: seq<bv6>, out: seq<bv8>, i: nat, s: Sums, c1: bv8, c2: bv8, c3: bv8)
    requires Decoding(six, out, s, c1, c2, c3) && Finished(six, |out|, i)
    ensures out == Decode(ZERO, six, PAYLOAD_BYTES)
    ensures var t := Total(ZERO, out); c1 == t.c1 && c2 == t.c2 && c3 == t.c3
  {
    DecodedEnd(Key, Next, ZERO, Unpack(six, PAYLOAD_BYTES), out, s);
  }

  lemma NothingToDecode(six: seq<bv6>)
    ensures 0 <= PAYLOAD_BYTES && (GroupStart(six, 0, 0) || Finished(six, 0, 0))
  {
  }

  lemma GroupInside(six: seq<bv6>, n: nat, i: nat)
    requires GroupStart(six, n, i)
    ensures i < |six| && n < PAYLOAD_BYTES
  {
  }

  lemma FinishedOutside(six: seq<bv6>, n: nat, i: nat)
    requires Finished(six, n, i)
    ensures i == |six| || n == PAYLOAD_BYTES
  {
  }

  /** In integers: every byte is the stored byte combined with the checksum of
      those before it, and the three sums are the checksum of them all. */
  lemma DecodedInIntegers(six: seq<bv6>, out: seq<bv8>, c1: bv8, c2: bv8, c3: bv8)
    requires out == Decode(ZERO, six, PAYLOAD_BYTES) && var t := Total(ZERO, out); c1 == t.c1 && c2 == t.c2 && c3 == t.c3
    ensures |out| == Min(524, |six| / 4 * 3 + if |six| % 4 == 0 then 0 else |six| % 4 - 1)
    ensures forall j :: 0 <= j < |out| ==> PlainAt(six, out, j)
    ensures 65536 * Num(c1) + 256 * Num(c2) + Num(c3) == Checksum(out)
  {
    TotalIsChecksum(out);
    hide PlainAt, Checksum, Run;
    forall j | 0 <= j < |out| ensures PlainAt(six, out, j) {
      DecodedPlain(six, j);
    }
  }

  /** The outer loop: one tops value and its group a turn. */
  method SonyDecode(six: seq<bv6>) returns (out: seq<bv8>, c1: bv8, c2: bv8, c3: bv8)
    ensures out == Decode(ZERO, six, PAYLOAD_BYTES)
    ensures var t := Total(ZERO, out); c1 == t.c1 && c2 == t.c2 && c3 == t.c3
    ensures |out| == Min(524, |six| / 4 * 3 + if |six| % 4 == 0 then 0 else |six| % 4 - 1)
    ensures forall j :: 0 <= j < |out| ==> PlainAt(six, out, j)
    ensures 65536 * Num(c1) + 256 * Num(c2) + Num(c3) == Checksum(out)
  {
    hide *;
    ghost var s := ZERO;
    c1, c2, c3, out := 0, 0, 0, [];
    var i := 0;
    DecodingStart(six);
    NothingToDecode(six);
    while |out| < PAYLOAD_BYTES && i < |six|
      invariant i <= |six| && |out| <= PAYLOAD_BYTES && Decoding(six, out, s, c1, c2, c3)
      invariant (GroupStart(six, |out|, i) && s.k == 0) || Finished(six, |out|, i)
      decreases |six| - i
    {
      if Finished(six, |out|, i) { FinishedOutside(six, |out|, i); }
      i, out, c1, c2, c3, s := DecodeGroup(six, i, out, c1, c2, c3, s);
    }
    if !Finished(six, |out|, i) { GroupInside(six, |out|, i); }
    DecodingEnd(six, out, i, s, c1, c2, c3);
    DecodedInIntegers(six, out, c1, c2, c3);
  }

  /** The inner loop: up to three bytes of one group. */
  method DecodeGroup(six: seq<bv6>, i: nat, out: seq<bv8>, c1: bv8, c2: bv8, c3: bv8, ghost s: Sums)
    returns (i': nat, out': seq<bv8>, c1': bv8, c2': bv8, c3': bv8, ghost s': Sums)
    requires GroupStart(six, |out|, i) && Decoding(six, out, s, c1, c2, c3) && s.k == 0
    ensures i < i' <= |six| && |out'| <= PAYLOAD_BYTES && Decoding(six, out', s', c1', c2', c3')
    ensures (GroupStart(six, |out'|, i') && s'.k == 0) || Finished(six, |out'|, i')
  {
    hide *;
    GroupInside(six, |out|, i);
    GroupBegins(six, out, s, c1, c2, c3);
    c1', c2', c3', out', s' := c1, c2, c3, out, s;
    var tops := six[i];
    i' := i + 1;
    var carry: bv8 := 0;
    var k := 0;
    while k < 3 && |out'| < PAYLOAD_BYTES && i' < |six|
      invariant 0 <= k <= 3 && |out'| == |out| + k <= PAYLOAD_BYTES && i' == i + 1 + k <= |six|
      invariant InGroup(six, out', s', c1', c2', c3', carry) && s'.k == k % 3
    {
      var b;
      b, c1', c2', c3', carry, s' := EmitByte(six, i, |out|, k, tops, out', c1', c2', c3', carry, s');
      i' := i' + 1;
      out' := out' + [b];
      k := k + 1;
    }
    GroupDone(six, |out|, i, k);
    GroupEnds(six, out', s', c1', c2', c3', carry);
  }

  /** The body of the inner loop: byte k of the group that starts at `i`, where n bytes were out. */
  method EmitByte(six: seq<bv6>, i: nat, n: nat, k: nat, tops: bv6, out: seq<bv8>,
                  c1: bv8, c2: bv8, c3: bv8, carry: bv8, ghost s: Sums)
    returns (b: bv8, c1': bv8, c2': bv8, c3': bv8, carry': bv8, ghost s': Sums)
    requires GroupStart(six, n, i) && k < 3 && |out| == n + k < PAYLOAD_BYTES && i + 1 + k < |six| && tops == six[i]
    requires InGroup(six, out, s, c1, c2, c3, carry) && s.k == k
    ensures InGroup(six, out + [b], s', c1', c2', c3', carry') && s'.k == (k + 1) % 3
  {
    hide Join, Decoded, Unpack, Next, Key, GroupStart;
    assert GroupStart(six, n, i);
    NextInGroup(six, n, i, k);
    var x := Join(tops, six[i + 1 + k], k);
    b, c1', c2', c3', carry' := DecodeByte(k, x, c1, c2, c3, carry, s);
    DecodedStep(Key, Next, ZERO, Unpack(six, PAYLOAD_BYTES), out, s, b);
    s' := Next(s, b);
  }

  /** The byte and the new sums. */
  method DecodeByte(k: nat, x: bv8, c1: bv8, c2: bv8, c3: bv8, carry: bv8, ghost s: Sums)
    returns (b: bv8, c1': bv8, c2': bv8, c3': bv8, carry': bv8)
    requires k < 3 && s.k == k && Tracks(s, c1, c2, c3, carry)
    ensures b == x ^ Key(s) && Tracks(Next(s, b), c1', c2', c3', carry') && Next(s, b).k == (k + 1) % 3
  {
    c1', c2', c3', carry' := c1, c2, c3, carry;
    if k == 0 {
      b, c1', c3', carry' := DecodeFirst(x, c1, c3, s);
    } else if k == 1 {
      b, c2', carry' := DecodeSecond(x, c2, c3, carry, s);
    } else {
      b, c1' := DecodeThird(x, c1, c2, carry, s);
    }
  }

  lemma RotateByHand(c: bv8)
    ensures (c >> 7) & 1 == c >> 7 && (c << 1) | ((c >> 7) & 1) == RotateLeft(c)
  {
  }

  /** Its three branches; carry is c3x after the first byte, c2x after the second. */
  method DecodeFirst(x: bv8, c1: bv8, c3: bv8, ghost s: Sums) returns (b: bv8, c1': bv8, c3': bv8, carry: bv8)
    requires s.k == 0 && s.c1 == c1 && s.c3 == c3
    ensures b == x ^ Key(s) && Next(s, b) == Sums(c1', s.c2, c3', carry, 1)
  {
    RotateByHand(c1);
    assert Key(s) == RotateLeft(c1);
    var top := (c1 >> 7) & 1;
    c1' := (c1 << 1) | top;
    b := x ^ c1';
    assert Next(s, b) == First(s, b);
    c3', carry := Add(c3, b, top), AddCarry(c3, b, top);
  }

  method DecodeSecond(x: bv8, c2: bv8, c3: bv8, c3x: bv8, ghost s: Sums) returns (b: bv8, c2': bv8, carry: bv8)
    requires s.k == 1 && s.c2 == c2 && s.c3 == c3 && s.carry == c3x
    ensures b == x ^ Key(s) && Next(s, b) == Sums(s.c1, c2', s.c3, carry, 2)
  {
    assert Key(s) == c3;
    b := x ^ c3;
    assert Next(s, b) == Second(s, b);
    c2', carry := Add(c2, b, c3x), AddCarry(c2, b, c3x);
  }

  method DecodeThird(x: bv8, c1: bv8, c2: bv8, c2x: bv8, ghost s: Sums) returns (b: bv8, c1': bv8)
    requires s.k == 2 && s.c1 == c1 && s.c2 == c2 && s.carry == c2x
    ensures b == x ^ Key(s) && Next(s, b) == Sums(c1', s.c2, s.c3, 0, 0)
  {
    assert Key(s) == c2;
    b := x ^ c2;
    assert Next(s, b) == Third(s, b);
    c1' := Add(c1, b, c2x);
  }
}
