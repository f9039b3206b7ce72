/** The address-field scanner: it tells fields damaged in transit from intact ones. */
module GcrAddressCensus {
  import opened Basics
  import opened GcrCodec
  import opened GcrCensus

  datatype Kind = NoField | Intact | Damaged | Undecodable

  datatype Tally = Tally(fields: nat, good: nat, bad: nat, undec: nat) {
    function Plus(k: Kind): Tally {
      Tally(fields + 1, if k.Intact? then good + 1 else good, if k.Damaged? then bad + 1 else bad,
            if k.Undecodable? then undec + 1 else undec)
    }
  }

  /** How what starts here is counted; at least ten bytes remain. */
  function KindOf(s: seq<bv8>): Kind {
    if !Mark(s, 0x96) then NoField
    else if |s| < ADDR_LEN || !AllDisk(s[3..8]) then Undecodable
    else if ReadAddress(s).Some? then Intact
    else Damaged
  }

  /** Scanning the rest of a stream: past an undecodable field only its mark is skipped. */
  function Sweep(kind: seq<bv8> -> Kind, s: seq<bv8>, t: Tally): Tally
    decreases |s|
  {
    if |s| <= 9 then t else
    var k := kind(s);
    if k.NoField? then Sweep(kind, s[1..], t)
    else Sweep(kind, s[if k.Undecodable? then 3 else ADDR_LEN..], t.Plus(k))
  }

  /** census(path), on the bytes of the capture. */
  method RunAddressCensus(s: seq<bv8>) returns (fields: nat, good: nat, bad: nat, undec: nat)
    ensures Tally(fields, good, bad, undec) == Sweep(KindOf, s, Tally(0, 0, 0, 0))
  {
    fields, good, bad, undec := RunSweep(KindOf, s);
  }

  method RunSweep(kind: seq<bv8> -> Kind, s: seq<bv8>) returns (fields: nat, good: nat, bad: nat, undec: nat)
    ensures Tally(fields, good, bad, undec) == Sweep(kind, s, Tally(0, 0, 0, 0))
  {
    fields, good, bad, undec := 0, 0, 0, 0;
    var i := 0;
    assert s[0..] == s;
    while i < |s| - 9
      invariant 0 <= i <= |s|
      invariant Sweep(kind, s, Tally(0, 0, 0, 0)) == Sweep(kind, s[i..], Tally(fields, good, bad, undec))
      decreases |s| - i
    {
      var k := kind(s[i..]);
      if !k.NoField? {
        fields := fields + 1;
        if k.Undecodable? {
          undec := undec + 1;
          Advance(s, i, 3);
          i := i + 3;
          continue;
        }
        if k.Intact? { good := good + 1; } else { bad := bad + 1; }
        Advance(s, i, ADDR_LEN);
        i := i + ADDR_LEN;
      } else {
        Advance(s, i, 1);
        i := i + 1;
      }
    }
  }

  /** The counts partition the fields, on every stream. */
  lemma {:induction false} CountsPartition(kind: seq<bv8> -> Kind, s: seq<bv8>, t: Tally)
    requires t.fields == t.good + t.bad + t.undec
    ensures var r := Sweep(kind, s, t); r.fields == r.good + r.bad + r.undec
    decreases |s|
  {
    if |s| > 9 {
      var k := kind(s);
      if k.NoField? {
        CountsPartition(kind, s[1..], t);
      } else {
        CountsPartition(kind, s[if k.Undecodable? then 3 else ADDR_LEN..], t.Plus(k));
      }
    }
  }

  // ---- captures ------------------------------------------------------------------

  datatype Field = Field(gap: seq<bv8>, trkLo: bv6, sector: bv6, trkHi: bv6, fmt: bv6) {
    function Symbols5(): (r: seq<bv6>)
      ensures |r| == 5
    {
      [trkLo, sector, trkHi, fmt, Xor4(trkLo, sector, trkHi, fmt)]
    }

    function Bytes(): seq<bv8> { gap + AddressField(trkLo, sector, trkHi, fmt) }

    /** The ten bytes of the field. */
    function Printed(): (r: seq<bv8>)
      ensures |r| == ADDR_LEN
    {
      AddressField(trkLo, sector, trkHi, fmt)
    }

    /** The same with symbol k, or trailer byte k - 5, replaced by byte b. */
    function Hit(k: nat, b: bv8): seq<bv8>
      requires k < 7
    {
      gap + AddressField(trkLo, sector, trkHi, fmt)[3 + k := b]
    }
  }

  function Capture(fs: seq<Field>, tail: seq<bv8>): seq<bv8> {
    if fs == [] then tail else fs[0].Bytes() + Capture(fs[1..], tail)
  }

  predicate AllGaps(fs: seq<Field>) { forall k :: 0 <= k < |fs| ==> IsGap(fs[k].gap) }

  /** No mark starts in x, whatever follows it. */
  predicate Markless(x: seq<bv8>) {
    forall p :: 0 <= p < |x| ==> !MarkCanStart(x, p)
  }

  predicate MarkCanStart(x: seq<bv8>, p: nat)
    requires p < |x|
  {
    x[p] == 0xD5 && (p + 1 == |x| || x[p + 1] == 0xAA)
  }

  ghost predicate NeedsMark(kind: seq<bv8> -> Kind) {
    forall s :: kind(s).NoField? <==> !Mark(s, 0x96)
  }

  lemma KindOfNeedsMark()
    ensures NeedsMark(KindOf)
  {
  }

  lemma {:induction false} MarklessSkipped(kind: seq<bv8> -> Kind, x: seq<bv8>, rest: seq<bv8>, t: Tally)
    requires NeedsMark(kind) && Markless(x)
    ensures Sweep(kind, x + rest, t) == Sweep(kind, rest, t)
    decreases |x|
  {
    if x == [] {
      assert x + rest == rest;
    } else {
      var s := x + rest;
      assert s[1..] == x[1..] + rest;
      assert Markless(x[1..]) by {
        forall p | 0 <= p < |x[1..]| ensures !MarkCanStart(x[1..], p) {
          assert !MarkCanStart(x, p + 1);
        }
      }
      assert !MarkCanStart(x, 0);
      assert s[0] == x[0] && (|x| > 1 ==> s[1] == x[1]);
      assert !Mark(s, 0x96);
      MarklessSkipped(kind, x[1..], rest, t);
    }
  }

  lemma IntactKind(f: Field, rest: seq<bv8>)
    ensures KindOf(AddressField(f.trkLo, f.sector, f.trkHi, f.fmt) + rest) == Intact
  {
    ReadBack(f.trkLo, f.sector, f.trkHi, f.fmt, rest);
    IntactFrom(AddressField(f.trkLo, f.sector, f.trkHi, f.fmt) + rest);
  }

  lemma IntactFrom(s: seq<bv8>)
    requires Mark(s, 0x96) && ReadAddress(s).Some?
    ensures KindOf(s) == Intact
  {
  }

  lemma FieldCounted(kind: seq<bv8> -> Kind, field: seq<bv8>, rest: seq<bv8>, t: Tally)
    requires |field| == ADDR_LEN && (kind(field + rest).Intact? || kind(field + rest).Damaged?)
    ensures Sweep(kind, field + rest, t) == Sweep(kind, rest, t.Plus(kind(field + rest)))
  {
    assert (field + rest)[ADDR_LEN..] == rest;
  }

  ghost predicate ReadsIntact(kind: seq<bv8> -> Kind) {
    && NeedsMark(kind)
    && forall f: Field, rest :: kind(AddressField(f.trkLo, f.sector, f.trkHi, f.fmt) + rest) == Intact
  }

  lemma KindOfReadsIntact()
    ensures ReadsIntact(KindOf)
  {
    KindOfNeedsMark();
    forall f: Field, rest ensures KindOf(AddressField(f.trkLo, f.sector, f.trkHi, f.fmt) + rest) == Intact {
      IntactKind(f, rest);
    }
  }

  lemma OneIntact(kind: seq<bv8> -> Kind, f: Field, rest: seq<bv8>, t: Tally)
    requires ReadsIntact(kind) && IsGap(f.gap)
    ensures Sweep(kind, f.Bytes() + rest, t) == Sweep(kind, rest, t.Plus(Intact))
  {
    var field := AddressField(f.trkLo, f.sector, f.trkHi, f.fmt);
    assert f.Bytes() + rest == f.gap + (field + rest);
    MarklessSkipped(kind, f.gap, field + rest, t);
    FieldCounted(kind, field, rest, t);
  }

  lemma {:induction false} AllIntact(kind: seq<bv8> -> Kind, fs: seq<Field>, rest: seq<bv8>, t: Tally)
    requires ReadsIntact(kind) && AllGaps(fs)
    ensures Sweep(kind, Capture(fs, rest), t)
         == Sweep(kind, rest, Tally(t.fields + |fs|, t.good + |fs|, t.bad, t.undec))
    decreases |fs|
  {
    if fs != [] {
      OneIntact(kind, fs[0], Capture(fs[1..], rest), t);
      AllIntact(kind, fs[1..], rest, t.Plus(Intact));
    }
  }

  /** The end of a capture: a gap, then at most nine bytes, which are not read. */
  ghost predicate Short(tail: seq<bv8>) {
    exists n :: 0 <= n <= |tail| && IsGap(tail[..n]) && |tail| - n <= 9
  }

  lemma ShortTail(kind: seq<bv8> -> Kind, tail: seq<bv8>, t: Tally)
    requires NeedsMark(kind) && Short(tail)
    ensures Sweep(kind, tail, t) == t
  {
    var n :| 0 <= n <= |tail| && IsGap(tail[..n]) && |tail| - n <= 9;
    assert tail == tail[..n] + tail[n..];
    MarklessSkipped(kind, tail[..n], tail[n..], t);
  }

  lemma IntactToEnd(kind: seq<bv8> -> Kind, fs: seq<Field>, tail: seq<bv8>, t: Tally)
    requires ReadsIntact(kind) && AllGaps(fs) && Short(tail)
    ensures Sweep(kind, Capture(fs, tail), t) == Tally(t.fields + |fs|, t.good + |fs|, t.bad, t.undec)
  {
    AllIntact(kind, fs, tail, t);
    ShortTail(kind, tail, Tally(t.fields + |fs|, t.good + |fs|, t.bad, t.undec));
  }

  /** One field of a capture counted as `k`, the rest intact. */
  lemma Surrounded(kind: seq<bv8> -> Kind, s: seq<bv8>, s1: seq<bv8>, s2: seq<bv8>, n: nat, k: Kind, m: nat)
    requires Sweep(kind, s, Tally(0, 0, 0, 0)) == Sweep(kind, s1, Tally(n, n, 0, 0))
    requires Sweep(kind, s1, Tally(n, n, 0, 0)) == Sweep(kind, s2, Tally(n, n, 0, 0).Plus(k))
    requires var u := Tally(n, n, 0, 0).Plus(k); Sweep(kind, s2, u) == Tally(u.fields + m, u.good + m, u.bad, u.undec)
    ensures var u := Tally(n, n, 0, 0).Plus(k); Sweep(kind, s, Tally(0, 0, 0, 0)) == Tally(u.fields + m, u.good + m, u.bad, u.undec)
  {
  }

  // ---- one changed symbol ---------------------------------------------------------

  lemma XorInjective(p: bv6, q: bv6, r: bv6)
    ensures p != q ==> p ^ r != q ^ r && r ^ p != r ^ q
  {
  }

  /** Changing one of four checksummed values changes the checksum. */
  lemma FirstChanged(a: bv6, b: bv6, c: bv6, d: bv6, x: bv6)
    requires x != a
    ensures Xor4(a, b, c, d) != Xor4(x, b, c, d)
  {
    XorInjective(a, x, b);
    XorInjective(a ^ b, x ^ b, c);
    XorInjective(a ^ b ^ c, x ^ b ^ c, d);
  }

  lemma SecondChanged(a: bv6, b: bv6, c: bv6, d: bv6, x: bv6)
    requires x != b
    ensures Xor4(a, b, c, d) != Xor4(a, x, c, d)
  {
    XorInjective(b, x, a);
    XorInjective(a ^ b, a ^ x, c);
    XorInjective(a ^ b ^ c, a ^ x ^ c, d);
  }

  lemma ThirdChanged(a: bv6, b: bv6, c: bv6, d: bv6, x: bv6)
    requires x != c
    ensures Xor4(a, b, c, d) != Xor4(a, b, x, d)
  {
    XorInjective(c, x, a ^ b);
    XorInjective(a ^ b ^ c, a ^ b ^ x, d);
  }

  lemma FourthChanged(a: bv6, b: bv6, c: bv6, d: bv6, x: bv6)
    requires x != d
    ensures Xor4(a, b, c, d) != Xor4(a, b, c, x)
  {
    XorInjective(d, x, a ^ b ^ c);
  }

  lemma SumOf(a: bv6, b: bv6, c: bv6, d: bv6, e: bv6)
    ensures SumOk([a, b, c, d, e]) <==> e == Xor4(a, b, c, d)
  {
  }

  lemma WrongEarly(a: bv6, b: bv6, c: bv6, d: bv6, e: bv6, k: nat, x: bv6)
    requires k < 2 && e == Xor4(a, b, c, d) && x != [a, b][k]
    ensures !SumOk([a, b, c, d, e][k := x])
  {
    hide Xor4, SumOk;
    if k == 0 {
      FirstChanged(a, b, c, d, x);
      SumOf(x, b, c, d, e);
      assert [a, b, c, d, e][k := x] == [x, b, c, d, e];
    } else {
      SecondChanged(a, b, c, d, x);
      SumOf(a, x, c, d, e);
      assert [a, b, c, d, e][k := x] == [a, x, c, d, e];
    }
  }

  lemma WrongLate(a: bv6, b: bv6, c: bv6, d: bv6, e: bv6, k: nat, x: bv6)
    requires 2 <= k < 5 && e == Xor4(a, b, c, d) && x != [a, b, c, d, e][k]
    ensures !SumOk([a, b, c, d, e][k := x])
  {
    hide Xor4, SumOk;
    if k == 2 {
      ThirdChanged(a, b, c, d, x);
      SumOf(a, b, x, d, e);
      assert [a, b, c, d, e][k := x] == [a, b, x, d, e];
    } else if k == 3 {
      FourthChanged(a, b, c, d, x);
      SumOf(a, b, c, x, e);
      assert [a, b, c, d, e][k := x] == [a, b, c, x, e];
    } else {
      SumOf(a, b, c, d, x);
      assert [a, b, c, d, e][k := x] == [a, b, c, d, x];
    }
  }

  /** A five-symbol field whose k-th value is changed to x. */
  lemma WrongChecksum(f: Field, k: nat, x: bv6)
    requires k < 5 && x != f.Symbols5()[k]
    ensures !SumOk(f.Symbols5()[k := x])
  {
    var a, b, c, d := f.trkLo, f.sector, f.trkHi, f.fmt;
    assert f.Symbols5() == [a, b, c, d, Xor4(a, b, c, d)];
    hide SumOk, Xor4;
    if k < 2 {
      WrongEarly(a, b, c, d, Xor4(a, b, c, d), k, x);
    } else {
      WrongLate(a, b, c, d, Xor4(a, b, c, d), k, x);
    }
  }

  lemma ReplaceInside(mark: seq<bv8>, body: seq<bv8>, trailer: seq<bv8>, k: nat, b: bv8)
    requires |mark| == 3 && k < |body|
    ensures (mark + body + trailer)[3 + k := b] == mark + body[k := b] + trailer
  {
  }

  /** The five symbol bytes of a hit field. */
  lemma HitBody(f: Field, k: nat, b: bv8, rest: seq<bv8>)
    requires k < 5
    ensures var s := AddressField(f.trkLo, f.sector, f.trkHi, f.fmt)[3 + k := b] + rest;
            && s[3..8] == Nibbles(f.Symbols5())[k := b] && s[8] == 0xDE && s[9] == 0xAA && Mark(s, 0x96)
            && s[3..] == Nibbles(f.Symbols5())[k := b] + [0xDE, 0xAA] + rest && s[ADDR_LEN..] == rest
  {
    var body := Nibbles(f.Symbols5());
    ReplaceInside([0xD5, 0xAA, 0x96], body, [0xDE, 0xAA], k, b);
    MarkedBody(body[k := b], rest);
  }

  lemma MarkedBody(body: seq<bv8>, rest: seq<bv8>)
    requires |body| == 5
    ensures var s := [0xD5, 0xAA, 0x96] + body + [0xDE, 0xAA] + rest;
            && s[3..8] == body && s[8] == 0xDE && s[9] == 0xAA && Mark(s, 0x96)
            && s[3..] == body + [0xDE, 0xAA] + rest && s[ADDR_LEN..] == rest
  {
  }

  lemma HitKind(f: Field, k: nat, b: bv8, rest: seq<bv8>)
    requires k < 5 && b != Nibble(f.Symbols5()[k])
    ensures var s := AddressField(f.trkLo, f.sector, f.trkHi, f.fmt)[3 + k := b] + rest;
            KindOf(s) == if Dec(b).None? then Undecodable else Damaged
  {
    var s := AddressField(f.trkLo, f.sector, f.trkHi, f.fmt)[3 + k := b] + rest;
    var six := f.Symbols5();
    HitBody(f, k, b, rest);
    if Dec(b).None? {
      BrokenAlphabet(six, k, b);
      UndecodableFrom(s);
    } else {
      var x := Dec(b).value;
      NibbleDec(b);
      HitSymbols(six, k, b, x);
      WrongChecksum(f, k, x);
      DamagedFrom(s, six[k := x]);
    }
  }

  lemma UndecodableFrom(s: seq<bv8>)
    requires Mark(s, 0x96) && |s| >= ADDR_LEN && !AllDisk(s[3..8])
    ensures KindOf(s) == Undecodable
  {
  }

  lemma DamagedFrom(s: seq<bv8>, v: seq<bv6>)
    requires Mark(s, 0x96) && |s| >= ADDR_LEN && AllDisk(s[3..8]) && Symbols(s[3..8]) == v && |v| == 5 && !SumOk(v)
    ensures KindOf(s) == Damaged
  {
  }

  lemma BrokenAlphabet(six: seq<bv6>, k: nat, b: bv8)
    requires k < |six| && Dec(b).None?
    ensures !AllDisk(Nibbles(six)[k := b])
  {
    assert Nibbles(six)[k := b][k] == b;
  }

  lemma HitSymbols(six: seq<bv6>, k: nat, b: bv8, x: bv6)
    requires k < |six| && Dec(b) == Some(x)
    ensures AllDisk(Nibbles(six)[k := b]) && Symbols(Nibbles(six)[k := b]) == six[k := x]
  {
    var body := Nibbles(six)[k := b];
    forall j | 0 <= j < |six| ensures Dec(body[j]) == Some(six[k := x][j]) {
      if j != k { DecNibble(six[j]); }
    }
  }

  /** No mark can start in what is rescanned: D5 and AA are not disk bytes. */
  lemma HitIsMarkless(six: seq<bv6>, k: nat, b: bv8)
    requires k < |six|
    ensures Markless(Nibbles(six)[k := b] + [0xDE, 0xAA])
  {
    var x := Nibbles(six)[k := b] + [0xDE, 0xAA];
    MarksOutsideAlphabet();
    forall p | 0 <= p < |x| ensures !MarkCanStart(x, p) {
      if p < |six| && p != k { DecNibble(six[p]); }
      if p + 1 < |six| && p + 1 != k { DecNibble(six[p + 1]); }
    }
  }

  lemma PrintedBytes(f: Field)
    ensures var p := f.Printed();
            && (forall k :: 0 <= k < 5 ==> p[3 + k] == Nibble(f.Symbols5()[k])) && p[8] == 0xDE && p[9] == 0xAA
            && Mark(p, 0x96) && p[3..8] == Nibbles(f.Symbols5())
  {
    Between([0xD5, 0xAA, 0x96], Nibbles(f.Symbols5()), []);
    var p := f.Printed();
    assert p == [0xD5, 0xAA, 0x96] + Nibbles(f.Symbols5()) + [0xDE, 0xAA] + [];
    hide Nibble, Xor4;
    forall k | 0 <= k < 5 ensures p[3 + k] == Nibble(f.Symbols5()[k]) { assert p[3 + k] == p[3..8][k]; }
  }

  /** A wrong trailer byte spoils the field. */
  lemma TrailerKind(f: Field, k: nat, b: bv8, rest: seq<bv8>)
    requires 5 <= k < 7 && b != f.Printed()[3 + k]
    ensures KindOf(f.Printed()[3 + k := b] + rest) == Damaged
  {
    var s := f.Printed()[3 + k := b] + rest;
    PrintedBytes(f);
    AllNibbles(f.Symbols5());
    hide Nibble, Xor4;
    assert s[3..8] == f.Printed()[3..8] && Mark(s, 0x96);
    assert s[3 + k] == b;
  }

  lemma OneTrailerHit(f: Field, k: nat, b: bv8, rest: seq<bv8>, t: Tally)
    requires IsGap(f.gap) && 5 <= k < 7 && b != f.Printed()[3 + k]
    ensures Sweep(KindOf, f.Hit(k, b) + rest, t) == Sweep(KindOf, rest, t.Plus(Damaged))
  {
    var field := f.Printed()[3 + k := b];
    KindOfNeedsMark();
    assert f.Hit(k, b) + rest == f.gap + (field + rest);
    TrailerKind(f, k, b, rest);
    hide KindOf, Nibbles;
    MarklessSkipped(KindOf, f.gap, field + rest, t);
    FieldCounted(KindOf, field, rest, t);
  }

  /** What a hit on byte 3 + k of a field makes of it. */
  function HitKindOf(k: nat, b: bv8): Kind { if k < 5 && Dec(b).None? then Undecodable else Damaged }

  lemma AnyHit(f: Field, k: nat, b: bv8, rest: seq<bv8>, t: Tally)
    requires IsGap(f.gap) && k < 7 && b != f.Printed()[3 + k]
    ensures Sweep(KindOf, f.Hit(k, b) + rest, t) == Sweep(KindOf, rest, t.Plus(HitKindOf(k, b)))
  {
    hide Sweep, KindOf, Nibbles, Nibble, Xor4, Dec;
    if k < 5 {
      PrintedBytes(f);
      OneHit(f, k, b, rest, t);
    } else {
      OneTrailerHit(f, k, b, rest, t);
    }
  }

  lemma OneHit(f: Field, k: nat, b: bv8, rest: seq<bv8>, t: Tally)
    requires IsGap(f.gap) && k < 5 && b != Nibble(f.Symbols5()[k])
    ensures Sweep(KindOf, f.Hit(k, b) + rest, t)
         == Sweep(KindOf, rest, t.Plus(if Dec(b).None? then Undecodable else Damaged))
  {
    var field := AddressField(f.trkLo, f.sector, f.trkHi, f.fmt)[3 + k := b];
    KindOfNeedsMark();
    assert f.Hit(k, b) + rest == f.gap + (field + rest);
    MarklessSkipped(KindOf, f.gap, field + rest, t);
    HitBody(f, k, b, rest);
    HitKind(f, k, b, rest);
    if Dec(b).None? {
      var again := Nibbles(f.Symbols5())[k := b] + [0xDE, 0xAA];
      HitIsMarkless(f.Symbols5(), k, b);
      UndecodableResumes(KindOf, field + rest, t);
      MarklessSkipped(KindOf, again, rest, t.Plus(Undecodable));
    } else {
      FieldCounted(KindOf, field, rest, t);
    }
  }

  lemma UndecodableResumes(kind: seq<bv8> -> Kind, s: seq<bv8>, t: Tally)
    requires |s| >= ADDR_LEN && kind(s).Undecodable?
    ensures Sweep(kind, s, t) == Sweep(kind, s[3..], t.Plus(Undecodable))
  {
  }

  /** One stretch of a capture counted as one field of a kind, the rest intact. */
  lemma OneAmongIntact(before: seq<Field>, hit: seq<bv8>, kind: Kind, after: seq<Field>, tail: seq<bv8>)
    requires AllGaps(before) && AllGaps(after) && Short(tail)
    requires var t := Tally(|before|, |before|, 0, 0);
             Sweep(KindOf, hit + Capture(after, tail), t) == Sweep(KindOf, Capture(after, tail), t.Plus(kind))
    ensures var u := Tally(|before|, |before|, 0, 0).Plus(kind);
            Sweep(KindOf, Capture(before, hit + Capture(after, tail)), Tally(0, 0, 0, 0))
            == Tally(u.fields + |after|, u.good + |after|, u.bad, u.undec)
  {
    hide *;
    var t := Tally(|before|, |before|, 0, 0);
    KindOfReadsIntact();
    AllIntact(KindOf, before, hit + Capture(after, tail), Tally(0, 0, 0, 0));
    IntactToEnd(KindOf, after, tail, t.Plus(kind));
    Surrounded(KindOf, Capture(before, hit + Capture(after, tail)), hit + Capture(after, tail), Capture(after, tail), |before|, kind, |after|);
  }

  lemma PlusOne(n: nat, m: nat, kind: Kind)
    requires kind.Undecodable? || kind.Damaged?
    ensures var u := Tally(n, n, 0, 0).Plus(kind);
            Tally(u.fields + m, u.good + m, u.bad, u.undec)
            == if kind.Undecodable? then Tally(n + m + 1, n + m, 0, 1) else Tally(n + m + 1, n + m, 1, 0)
  {
  }

  /** In a capture of well-formed fields, changing any one symbol or trailer
      byte of any one field to any other byte leaves every other field counted
      good and that field counted bad or undecodable, never good. */
  lemma OneChangeDetected(before: seq<Field>, f: Field, k: nat, b: bv8, after: seq<Field>, tail: seq<bv8>)
    requires AllGaps(before) && AllGaps(after) && IsGap(f.gap) && Short(tail)
    requires k < 7 && b != f.Printed()[3 + k]
    ensures var n := |before| + |after|;
            Sweep(KindOf, Capture(before, f.Hit(k, b) + Capture(after, tail)), Tally(0, 0, 0, 0))
            == if k < 5 && Dec(b).None? then Tally(n + 1, n, 0, 1) else Tally(n + 1, n, 1, 0)
  {
    hide *;
    var kind := HitKindOf(k, b);
    HitKindIs(k, b);
    AnyHit(f, k, b, Capture(after, tail), Tally(|before|, |before|, 0, 0));
    OneAmongIntact(before, f.Hit(k, b), kind, after, tail);
    PlusOne(|before|, |after|, kind);
  }

  lemma HitKindIs(k: nat, b: bv8)
    ensures HitKindOf(k, b) == if k < 5 && Dec(b).None? then Undecodable else Damaged
  {
  }

  /** And without a change all are good. */
  lemma CleanCapture(fs: seq<Field>, tail: seq<bv8>)
    requires AllGaps(fs) && Short(tail)
    ensures Sweep(KindOf, Capture(fs, tail), Tally(0, 0, 0, 0)) == Tally(|fs|, |fs|, 0, 0)
  {
    KindOfReadsIntact();
    IntactToEnd(KindOf, fs, tail, Tally(0, 0, 0, 0));
  }

  /** On any bytes at all: a field is good exactly when it is the printed one of
      some four values, and undecodable exactly when one of its five symbols is
      no disk byte. */
  lemma KindsAre(s: seq<bv8>)
    requires |s| >= 10
    ensures KindOf(s).Intact? <==> exists a: bv6, b: bv6, c: bv6, d: bv6 :: s[..10] == [0xD5, 0xAA, 0x96] + Behind(a, b, c, d)
    ensures KindOf(s).Undecodable? <==> s[..3] == [0xD5, 0xAA, 0x96] && exists k :: 3 <= k < 8 && Dec(s[k]).None?
    ensures KindOf(s).NoField? <==> s[..3] != [0xD5, 0xAA, 0x96]
  {
    MarkIs(s);
    DiskFrom(s);
    assert s[..10] == s[..3] + s[3..10];
    if KindOf(s).Intact? {
      AcceptedIff(s);
      hide ReadAddress, Behind;
      var a: bv6, b: bv6, c: bv6, d: bv6 :| s[3..10] == Behind(a, b, c, d);
      assert s[..10] == [0xD5, 0xAA, 0x96] + Behind(a, b, c, d);
    }
    forall a: bv6, b: bv6, c: bv6, d: bv6 | s[..10] == [0xD5, 0xAA, 0x96] + Behind(a, b, c, d) ensures KindOf(s).Intact? {
      MarkThen(s, Behind(a, b, c, d));
      PrintedAccepted(s, a, b, c, d);
    }
  }

  lemma MarkThen(s: seq<bv8>, behind: seq<bv8>)
    requires |s| >= 10 && s[..10] == [0xD5, 0xAA, 0x96] + behind && |behind| == 7
    ensures s[..3] == [0xD5, 0xAA, 0x96] && s[3..10] == behind
  {
    assert s[..3] == s[..10][..3] && s[3..10] == s[..10][3..10];
  }

  lemma MarkIs(s: seq<bv8>)
    requires |s| >= 10
    ensures Mark(s, 0x96) <==> s[..3] == [0xD5, 0xAA, 0x96]
  {
    assert s[..3] == [s[0], s[1], s[2]];
  }

  lemma DiskFrom(s: seq<bv8>)
    requires |s| >= 10
    ensures AllDisk(s[3..8]) <==> forall k :: 3 <= k < 8 ==> Dec(s[k]).Some?
  {
    hide Dec;
    forall k | 3 <= k < 8 ensures s[k] == s[3..8][k - 3] {}
  }
}
