/** The scanner over a captured track: address fields, data fields, and the
    verdict on the content of each data field. */
module GcrCensus {
  import opened Basics
  import opened GcrCodec
  import opened GcrLayout
  import opened GcrSums

  const ADDR_LEN := 10
  const DATA_LEN := 709   // mark 3, sector 1, payload 699, checksum 4, trailer 2

  datatype Address = Address(track: nat, side: nat, sector: nat, doubleSided: bool)

  datatype Verdict = Good | Orphan | SectorMismatch | BadChecksum | TagsNonzero | WrongContent | NonAlphabet

  /** A field the scanner stops at, `left` bytes before the end of the capture. */
  datatype Found = FoundAddress(left: nat, address: Address) | FoundData(left: nat, verdict: Verdict)

  /** The scanner's variables: `naddr` counts accepted address fields, the
      verdicts are one per data field, `ok` is the overall flag; and, for the
      specification, every accepted address and every data field in order. */
  datatype Census = Census(ok: bool, naddr: nat, last: Option<Address>, verdicts: seq<Verdict>, found: seq<Found>)

  const START := Census(true, 0, None, [], [])

  function Count(vs: seq<Verdict>, v: Verdict): nat {
    if vs == [] then 0 else (if vs[0] == v then 1 else 0) + Count(vs[1..], v)
  }

  // ---- address fields --------------------------------------------------------

  predicate AllDisk(bytes: seq<bv8>) {
    forall k :: 0 <= k < |bytes| ==> Dec(bytes[k]).Some?
  }

  function Symbols(bytes: seq<bv8>): seq<bv6>
    requires AllDisk(bytes)
  {
    seq(|bytes|, k requires 0 <= k < |bytes| => Dec(bytes[k]).value)
  }

  function Nibbles(six: seq<bv6>): seq<bv8> {
    seq(|six|, k requires 0 <= k < |six| => Nibble(six[k]))
  }

  function TrackOf(trkLo: bv6, trkHi: bv6): nat {
    ((trkLo as bv8) | (((trkHi & 1) as bv8) << 6)) as nat
  }

  function AddressOf(trkLo: bv6, sector: bv6, trkHi: bv6, fmt: bv6): Address {
    Address(TrackOf(trkLo, trkHi), ((trkHi >> 5) & 1) as nat, Six(sector), fmt & 0x20 != 0)
  }

  /** The checksum and trailer test on the five decoded symbols. */
  function CheckAddress(v: seq<bv6>, trailerOk: bool): Option<Address>
    requires |v| == 5
  {
    if SumOk(v) && trailerOk then Some(AddressOf(v[0], v[1], v[2], v[3])) else None
  }

  function Xor4(a: bv6, b: bv6, c: bv6, d: bv6): bv6 { a ^ b ^ c ^ d }

  predicate SumOk(v: seq<bv6>)
    requires |v| == 5
  {
    v[4] == Xor4(v[0], v[1], v[2], v[3])
  }

  /** A ten-byte address field with alphabet symbols, right checksum and trailer. */
  function ReadAddress(s: seq<bv8>): Option<Address> {
    if |s| < ADDR_LEN || !AllDisk(s[3..8]) then None
    else CheckAddress(Symbols(s[3..8]), s[8] == 0xDE && s[9] == 0xAA)
  }

  predicate Wanted(want: Option<(int, int)>, a: Address) {
    want.None? || want.value == (a.track, a.side)
  }

  // ---- data fields -------------------------------------------------------------

  /** The verdict on the 704 decoded symbols of a data field. */
  function JudgeSymbols(v: seq<bv6>, trailerOk: bool, last: Option<Address>): Verdict
    requires |v| == 704
  {
    var payload := Decode(ZERO, v[1..700], PAYLOAD_BYTES);
    var sums := Total(ZERO, payload);
    var sumsOk := UnpackSums(v[700..704]) == (sums.c1, sums.c2, sums.c3);
    if last.None? then Orphan
    else if Six(v[0]) != last.value.sector then SectorMismatch
    else if !sumsOk || !trailerOk then BadChecksum
    else if exists k :: 0 <= k < 12 && payload[k] != 0 then TagsNonzero
    else if payload[12..] != ContentFor(last.value, Six(v[0])) then WrongContent
    else Good
  }

  /** The verdict on a whole data field. */
  function Judge(s: seq<bv8>, last: Option<Address>): Verdict {
    if |s| < DATA_LEN || !AllDisk(s[3..707]) then NonAlphabet
    else JudgeSymbols(Symbols(s[3..707]), s[707] == 0xDE && s[708] == 0xAA, last)
  }

  /** The block the layout puts at an address. */
  function ContentFor(a: Address, sector: nat): seq<bv8> {
    PatternBlock(ExpectedBlock(a.track, a.side, sector, a.doubleSided))
  }

  /** Every verdict but Good and Orphan clears the overall flag. */
  predicate Harmless(v: Verdict) { v == Good || v == Orphan }

  function WithVerdict(c: Census, v: Verdict, left: nat): Census {
    c.(ok := c.ok && Harmless(v), verdicts := c.verdicts + [v], found := c.found + [FoundData(left, v)])
  }

  // ---- the scan ------------------------------------------------------------------

  predicate Mark(s: seq<bv8>, third: bv8) {
    |s| >= 3 && s[0] == 0xD5 && s[1] == 0xAA && s[2] == third
  }

  /** How fields are read; the scan itself only moves over the stream. */
  datatype Reader = Reader(address: seq<bv8> -> Option<Address>, judge: (seq<bv8>, Option<Address>) -> Verdict)

  const SONY := Reader(ReadAddress, Judge)

  function WithAddress(c: Census, a: Option<Address>, want: Option<(int, int)>, left: nat): Census {
    if a.None? then c
    else c.(ok := c.ok && Wanted(want, a.value), naddr := c.naddr + 1, last := a, found := c.found + [FoundAddress(left, a.value)])
  }

  /** Scanning the rest `s` of a stream from state `c`. */
  function Scan(r: Reader, s: seq<bv8>, want: Option<(int, int)>, c: Census): Census
    decreases |s|
  {
    if |s| <= 10 then c
    else if Mark(s, 0x96) then Scan(r, s[ADDR_LEN..], want, WithAddress(c, r.address(s), want, |s|))
    else if Mark(s, 0xAD) then
      if |s| < DATA_LEN then c
      else
        var v := r.judge(s, c.last);
        Scan(r, s[if v == NonAlphabet then 3 else DATA_LEN..], want, WithVerdict(c, v, |s|))
    else Scan(r, s[1..], want, c)
  }

  /** The scan as written: an index moved over the stream. */
  method RunScan(r: Reader, s: seq<bv8>, want: Option<(int, int)>) returns (ok: bool, naddr: nat, ndata: nat, ngood: nat, verdicts: seq<Verdict>)
    ensures var c := Scan(r, s, want, START);
            && naddr == c.naddr && verdicts == c.verdicts && ndata == |verdicts| && ngood == Count(verdicts, Good)
            && ok == (c.ok && ndata != 0)
  {
    ok, naddr, ndata, ngood, verdicts := true, 0, 0, 0, [];
    var last: Option<Address> := None;
    var i := 0;
    ghost var found: seq<Found> := [];
    ghost var goal := Scan(r, s, want, START);
    assert s[0..] == s;
    while i < |s| - 10
      invariant 0 <= i <= |s|
      invariant goal == Scan(r, s[i..], want, Census(ok, naddr, last, verdicts, found))
      invariant ndata == |verdicts| && ngood == Count(verdicts, Good)
      decreases |s| - i
    {
      var f := s[i..];
      if s[i] == 0xD5 && s[i + 1] == 0xAA && s[i + 2] == 0x96 {
        var a := r.address(f);
        if a.Some? {
          naddr := naddr + 1;
          last := a;
          found := found + [FoundAddress(|f|, a.value)];
          if !Wanted(want, a.value) { ok := false; }
        }
        Advance(s, i, ADDR_LEN);
        i := i + ADDR_LEN;
        continue;
      }
      if s[i] == 0xD5 && s[i + 1] == 0xAA && s[i + 2] == 0xAD {
        if i + DATA_LEN > |s| { break; }
        ndata := ndata + 1;
        var v := r.judge(f, last);
        if !Harmless(v) { ok := false; }
        if v == Good { ngood := ngood + 1; }
        CountLast(verdicts, v, Good);
        verdicts := verdicts + [v];
        found := found + [FoundData(|f|, v)];
        var skip := if v == NonAlphabet then 3 else DATA_LEN;
        Advance(s, i, skip);
        i := i + skip;
        continue;
      }
      Advance(s, i, 1);
      i := i + 1;
    }
    if ndata == 0 { ok := false; }
  }

  /** census(path), on the bytes and the requested track and side of the capture. */
  method RunCensus(s: seq<bv8>, want: Option<(int, int)>) returns (ok: bool, naddr: nat, ndata: nat, ngood: nat, verdicts: seq<Verdict>)
    ensures var c := Scan(SONY, s, want, START);
            && naddr == c.naddr && verdicts == c.verdicts && ndata == |verdicts| && ngood == Count(verdicts, Good)
            && ok == (c.ok && ndata != 0)
  {
    ok, naddr, ndata, ngood, verdicts := RunScan(SONY, s, want);
  }

  lemma Advance(s: seq<bv8>, i: nat, n: nat)
    requires i + n <= |s|
    ensures s[i..][n..] == s[i + n..]
  {
  }

  lemma {:induction false} CountLast(vs: seq<Verdict>, v: Verdict, w: Verdict)
    ensures Count(vs + [v], w) == Count(vs, w) + if v == w then 1 else 0
  {
    if vs == [] {
      assert ([] + [v])[1..] == [];
    } else {
      assert (vs + [v])[1..] == vs[1..] + [v];
      CountLast(vs[1..], v, w);
    }
  }

  // ---- what a well-formed capture looks like -------------------------------------------

  function AddressField(trkLo: bv6, sector: bv6, trkHi: bv6, fmt: bv6): (r: seq<bv8>)
    ensures |r| == ADDR_LEN
  {
    [0xD5, 0xAA, 0x96] + Nibbles([trkLo, sector, trkHi, fmt, Xor4(trkLo, sector, trkHi, fmt)]) + [0xDE, 0xAA]
  }

  /** The 704 symbols the encoder emits for a payload. */
  function DataSymbols(sector: bv6, payload: seq<bv8>): (r: seq<bv6>)
    requires |payload| == PAYLOAD_BYTES
    ensures |r| == 704
  {
    var t := Total(ZERO, payload);
    PayloadRoundTrip(payload);
    [sector] + Encode(ZERO, payload) + PackSums(t.c1, t.c2, t.c3)
  }

  function DataField(sector: bv6, payload: seq<bv8>): (r: seq<bv8>)
    requires |payload| == PAYLOAD_BYTES
    ensures |r| == DATA_LEN
  {
    [0xD5, 0xAA, 0xAD] + Nibbles(DataSymbols(sector, payload)) + [0xDE, 0xAA]
  }

  function ZeroTags(): (r: seq<bv8>)
    ensures |r| == 12 && forall k :: 0 <= k < 12 ==> r[k] == 0
  {
    [0, 0, 0, 0, 0, 0, 0, 0, 0, 0, 0, 0]
  }

  /** The payload of a sector of the test image: empty tags, then its own block. */
  function PayloadAt(track: nat, side: nat, sector: nat, doubleSided: bool): (r: seq<bv8>)
    ensures |r| == PAYLOAD_BYTES
  {
    ZeroTags() + PatternBlock(ExpectedBlock(track, side, sector, doubleSided))
  }

  function Symbol(n: nat): bv6 { (n % 64) as bv6 }

  /** One sector of a capture, by its numbers: gap, address field, gap, data field. */
  datatype Sector = Sector(gap: seq<bv8>, track: nat, side: nat, sector: nat, doubleSided: bool, gap2: seq<bv8>) {
    predicate Valid() { track < 128 && side < 2 && sector < 64 && IsGap(gap) && IsGap(gap2) }

    function Where(): Address { Address(track, side, sector, doubleSided) }

    /** The low six track bits, the sector, the side bit with the high track bit, and the format. */
    function Front(): (r: seq<bv8>)
      ensures |r| == ADDR_LEN
    {
      AddressField(Symbol(track % 64), Symbol(sector), Symbol(32 * side + track / 64), if doubleSided then 0x22 else 0x02)
    }

    function Data(): (r: seq<bv8>)
      ensures |r| == DATA_LEN
    {
      DataField(Symbol(sector), PayloadAt(track, side, sector, doubleSided))
    }

    function Bytes(): seq<bv8> { gap + (Front() + (gap2 + Data())) }
  }

  predicate IsGap(g: seq<bv8>) { forall k :: 0 <= k < |g| ==> g[k] != 0xD5 }

  function Stream(sectors: seq<Sector>, tail: seq<bv8>): seq<bv8> {
    if sectors == [] then tail else sectors[0].Bytes() + Stream(sectors[1..], tail)
  }

  lemma StreamCons(sectors: seq<Sector>, tail: seq<bv8>)
    requires sectors != []
    ensures Stream(sectors, tail) == sectors[0].Bytes() + Stream(sectors[1..], tail)
    ensures |Stream(sectors, tail)| >= |sectors[0].Bytes()|
  {
  }

  lemma AllNibbles(six: seq<bv6>)
    ensures AllDisk(Nibbles(six)) && Symbols(Nibbles(six)) == six
  {
    forall k | 0 <= k < |six| ensures Dec(Nibbles(six)[k]) == Some(six[k]) {
      DecNibble(six[k]);
    }
  }

  /** A body between a three-byte mark and a trailer. */
  lemma Between(mark: seq<bv8>, body: seq<bv8>, rest: seq<bv8>)
    requires |mark| == 3
    ensures var s := mark + body + [0xDE, 0xAA] + rest;
            && s[3..3 + |body|] == body && s[3 + |body|] == 0xDE && s[4 + |body|] == 0xAA
            && s[..3] == mark && s[5 + |body|..] == rest
  {
  }

  lemma ReadBack(trkLo: bv6, sector: bv6, trkHi: bv6, fmt: bv6, rest: seq<bv8>)
    ensures ReadAddress(AddressField(trkLo, sector, trkHi, fmt) + rest) == Some(AddressOf(trkLo, sector, trkHi, fmt))
  {
    var six := [trkLo, sector, trkHi, fmt, Xor4(trkLo, sector, trkHi, fmt)];
    AllNibbles(six);
    Between([0xD5, 0xAA, 0x96], Nibbles(six), rest);
    ReadFields(AddressField(trkLo, sector, trkHi, fmt) + rest, Nibbles(six), six);
  }

  lemma SymbolsBack(body: seq<bv8>)
    requires AllDisk(body)
    ensures Nibbles(Symbols(body)) == body
  {
    forall k | 0 <= k < |body| ensures Nibble(Dec(body[k]).value) == body[k] {
      NibbleDec(body[k]);
    }
  }

  /** The seven bytes behind the mark: four symbols, their exclusive or, the trailer. */
  function Behind(a: bv6, b: bv6, c: bv6, d: bv6): (r: seq<bv8>)
    ensures |r| == 7
  {
    Nibbles([a, b, c, d, a ^ b ^ c ^ d]) + [0xDE, 0xAA]
  }

  /** An address is accepted exactly when its symbols and trailer are those
      printed for some four values: no other checksum, symbol or trailer passes. */
  lemma AcceptedIff(s: seq<bv8>)
    ensures ReadAddress(s).Some? <==> |s| >= ADDR_LEN && exists a: bv6, b: bv6, c: bv6, d: bv6 :: s[3..10] == Behind(a, b, c, d)
  {
    hide Behind, ReadAddress;
    if ReadAddress(s).Some? {
      var a, b, c, d := AcceptedPrinted(s);
      assert s[3..10] == Behind(a, b, c, d);
    }
    if |s| >= ADDR_LEN {
      forall a: bv6, b: bv6, c: bv6, d: bv6 | s[3..10] == Behind(a, b, c, d) ensures ReadAddress(s).Some? {
        PrintedAccepted(s, a, b, c, d);
      }
    }
  }

  lemma AcceptedPrinted(s: seq<bv8>) returns (a: bv6, b: bv6, c: bv6, d: bv6)
    requires ReadAddress(s).Some?
    ensures |s| >= ADDR_LEN && s[3..10] == Behind(a, b, c, d)
  {
    hide Nibble, Dec, SumOk, Behind, Nibbles;
    var v := Symbols(s[3..8]);
    SymbolsBack(s[3..8]);
    FiveSymbols(v);
    a, b, c, d := v[0], v[1], v[2], v[3];
    BehindIs(a, b, c, d, v);
    assert s[3..10] == s[3..8] + [s[8], s[9]];
  }

  lemma FiveSymbols(v: seq<bv6>)
    requires |v| == 5 && SumOk(v)
    ensures v == [v[0], v[1], v[2], v[3], v[0] ^ v[1] ^ v[2] ^ v[3]]
  {
  }

  lemma BehindIs(a: bv6, b: bv6, c: bv6, d: bv6, v: seq<bv6>)
    requires v == [a, b, c, d, a ^ b ^ c ^ d]
    ensures Behind(a, b, c, d) == Nibbles(v) + [0xDE, 0xAA]
  {
  }

  lemma PrintedAccepted(s: seq<bv8>, a: bv6, b: bv6, c: bv6, d: bv6)
    requires |s| >= ADDR_LEN && s[3..10] == Behind(a, b, c, d)
    ensures ReadAddress(s) == Some(AddressOf(a, b, c, d))
  {
    var six := [a, b, c, d, a ^ b ^ c ^ d];
    AllNibbles(six);
    hide Nibble;
    assert s[3..8] == s[3..10][..5] == Nibbles(six);
    assert s[8] == s[3..10][5] && s[9] == s[3..10][6];
    ReadFields(s, Nibbles(six), six);
  }

  // ---- what the symbols of an address mean ---------------------------------------------

  lemma TrackIs(trkLo: bv6, trkHi: bv6)
    ensures TrackOf(trkLo, trkHi) == Six(trkLo) + 64 * (Six(trkHi) % 2)
  {
    var low, high := trkLo as bv8, (trkHi & 1) as bv8;
    LowBit(trkHi);
    Widened(trkLo);
    OrTop(low, high);
    assert TrackOf(trkLo, trkHi) == Num(low | (high << 6));
    hide Num, Six;
  }

  lemma LowBit(v: bv6)
    ensures (v & 1) as bv8 < 2 && Num((v & 1) as bv8) == Six(v) % 2
  {
  }

  lemma HighBit(v: bv6)
    ensures ((v >> 5) & 1) as nat == Six(v) / 32
    ensures v & 0x20 != 0 <==> Six(v) / 32 == 1
  {
  }

  /** In numbers, for any four symbols. */
  lemma AddressMeans(trkLo: bv6, sector: bv6, trkHi: bv6, fmt: bv6)
    ensures AddressOf(trkLo, sector, trkHi, fmt)
         == Address(Six(trkLo) + 64 * (Six(trkHi) % 2), Six(trkHi) / 32, Six(sector), Six(fmt) / 32 == 1)
  {
    hide Six, TrackOf;
    TrackIs(trkLo, trkHi);
    HighBit(trkHi);
    HighBit(fmt);
  }

  lemma SymbolIs(n: nat)
    ensures Six(Symbol(n)) == n % 64
  {
  }

  /** Every track below 128, side, sector and format reads back from its symbols. */
  lemma AddressFromNumbers(track: nat, side: nat, sector: nat, doubleSided: bool)
    requires track < 128 && side < 2 && sector < 64
    ensures AddressOf(Symbol(track % 64), Symbol(sector), Symbol(32 * side + track / 64), if doubleSided then 0x22 else 0x02)
         == Address(track, side, sector, doubleSided)
  {
    hide *;
    var fmt: bv6 := if doubleSided then 0x22 else 0x02;
    FormatIs(doubleSided);
    SymbolIs(track % 64);
    SymbolIs(sector);
    SymbolIs(32 * side + track / 64);
    TrackAndSide(track, side);
    AddressMeans(Symbol(track % 64), Symbol(sector), Symbol(32 * side + track / 64), fmt);
  }

  lemma FormatIs(doubleSided: bool)
    ensures Six(if doubleSided then 0x22 else 0x02) / 32 == if doubleSided then 1 else 0
  {
  }

  lemma TrackAndSide(track: nat, side: nat)
    requires track < 128 && side < 2
    ensures track % 64 % 64 + 64 * ((32 * side + track / 64) % 64 % 2) == track
    ensures (32 * side + track / 64) % 64 / 32 == side
  {
  }

  lemma ReadFields(s: seq<bv8>, body: seq<bv8>, six: seq<bv6>)
    requires |s| >= ADDR_LEN && s[3..8] == body && AllDisk(body) && Symbols(body) == six && |six| == 5
    requires s[8] == 0xDE && s[9] == 0xAA
    ensures ReadAddress(s) == CheckAddress(six, true)
  {
  }

  // ---- what a Good verdict means ------------------------------------------------------

  lemma TagsAndData(payload: seq<bv8>, data: seq<bv8>)
    requires |payload| == PAYLOAD_BYTES && |data| == 512
    ensures !(exists k :: 0 <= k < 12 && payload[k] != 0) && payload[12..] == data <==> payload == ZeroTags() + data
  {
    if !(exists k :: 0 <= k < 12 && payload[k] != 0) && payload[12..] == data {
      assert payload == payload[..12] + payload[12..];
      assert payload[..12] == ZeroTags();
    }
    if payload == ZeroTags() + data {
      assert payload[12..] == data;
      forall k | 0 <= k < 12 ensures payload[k] == 0 { assert payload[k] == ZeroTags()[k]; }
    }
  }

  lemma SumsMatch(csum: seq<bv6>, t: Sums)
    requires |csum| == 4
    ensures UnpackSums(csum) == (t.c1, t.c2, t.c3) <==> csum == PackSums(t.c1, t.c2, t.c3)
  {
    PackSumsBijective(t.c1, t.c2, t.c3, csum);
  }

  /** A data field is counted good exactly when its symbols are those the
      encoder emits for the right block of the layout, up to the two spare bits. */
  lemma GoodMeansEncoded(v: seq<bv6>, trailerOk: bool, a: Address)
    requires |v| == 704
    ensures JudgeSymbols(v, trailerOk, Some(a)) == Good
            <==> trailerOk && Six(v[0]) == a.sector
                 && [v[0]] + Canonical(v[1..700]) + v[700..704] == DataSymbols(v[0], PayloadAt(a.track, a.side, a.sector, a.doubleSided))
  {
    var six, csum, p := v[1..700], v[700..704], PayloadAt(a.track, a.side, Six(v[0]), a.doubleSided);
    var payload := Decode(ZERO, six, PAYLOAD_BYTES);
    EncodeDecode(six);
    PayloadRoundTrip(p);
    DecodeOfCanonical(six);
    TagsAndData(payload, ContentFor(a, Six(v[0])));
    SumsMatch(csum, Total(ZERO, payload));
    var t := Total(ZERO, p);
    assert payload == p <==> Canonical(six) == Encode(ZERO, p);
    SplitSymbols(v[0], Canonical(six), csum, Encode(ZERO, p), PackSums(t.c1, t.c2, t.c3));
  }

  /** Which check fails first, in integers: the scanner tells its findings apart. */
  lemma VerdictMeans(v: seq<bv6>, trailerOk: bool, a: Address)
    requires |v| == 704
    ensures var r, payload := JudgeSymbols(v, trailerOk, Some(a)), Decode(ZERO, v[1..700], PAYLOAD_BYTES);
            var named, intact := Six(v[0]) == a.sector, StoredSum(v[700..704]) == Checksum(payload) && trailerOk;
            var tagless := forall k :: 0 <= k < 12 ==> payload[k] == 0;
            && r != Orphan && r != NonAlphabet
            && (r == SectorMismatch <==> !named) && (r == BadChecksum <==> named && !intact)
            && (r == TagsNonzero <==> named && intact && !tagless)
            && (r == WrongContent <==> named && intact && tagless
                                       && payload[12..] != PatternBlock(ExpectedBlock(a.track, a.side, a.sector, a.doubleSided)))
  {
    SumsCompare(v[700..704], Decode(ZERO, v[1..700], PAYLOAD_BYTES));
    hide Decode, Run, UnpackSums, StoredSum, Checksum, PatternBlock, ExpectedBlock, Six;
  }

  lemma SplitSymbols(x: bv6, a: seq<bv6>, b: seq<bv6>, a': seq<bv6>, b': seq<bv6>)
    requires |a| == |a'|
    ensures [x] + a + b == [x] + a' + b' <==> a == a' && b == b'
  {
    if [x] + a + b == [x] + a' + b' {
      assert ([x] + a + b)[1..1 + |a|] == a && ([x] + a' + b')[1..1 + |a|] == a';
      assert ([x] + a + b)[1 + |a|..] == b && ([x] + a' + b')[1 + |a|..] == b';
    }
  }

  lemma EmittedIsCanonical(payload: seq<bv8>)
    requires |payload| == PAYLOAD_BYTES
    ensures |Encode(ZERO, payload)| == PAYLOAD_SIX && Canonical(Encode(ZERO, payload)) == Encode(ZERO, payload)
  {
    PayloadRoundTrip(payload);
    EncodeDecode(Encode(ZERO, payload));
  }

  /** The emitted field of the right block is judged good. */
  lemma EmittedIsGood(a: Address, rest: seq<bv8>)
    requires a.sector < 64
    ensures Judge(DataField(Symbol(a.sector), PayloadAt(a.track, a.side, a.sector, a.doubleSided)) + rest, Some(a)) == Good
  {
    var x, p := Symbol(a.sector), PayloadAt(a.track, a.side, a.sector, a.doubleSided);
    var v := DataSymbols(x, p);
    var t := Total(ZERO, p);
    SymbolIs(a.sector);
    hide Six, Symbol, PayloadAt, Run;
    EmittedIsCanonical(p);
    assert v[1..700] == Encode(ZERO, p) && v[700..704] == PackSums(t.c1, t.c2, t.c3);
    GoodMeansEncoded(v, true, a);
    AllNibbles(v);
    Between([0xD5, 0xAA, 0xAD], Nibbles(v), rest);
    JudgeFields(DataField(x, p) + rest, Nibbles(v), v, Some(a));
  }

  lemma JudgeFields(s: seq<bv8>, body: seq<bv8>, v: seq<bv6>, last: Option<Address>)
    requires |s| >= DATA_LEN && s[3..707] == body && AllDisk(body) && Symbols(body) == v && |v| == 704
    requires s[707] == 0xDE && s[708] == 0xAA
    ensures Judge(s, last) == JudgeSymbols(v, true, last)
  {
  }

  // ---- parse of print ------------------------------------------------------------------

  lemma {:induction false} GapSkipped(r: Reader, g: seq<bv8>, rest: seq<bv8>, want: Option<(int, int)>, c: Census)
    requires IsGap(g) && |rest| > 10
    ensures Scan(r, g + rest, want, c) == Scan(r, rest, want, c)
  {
    if g == [] {
      assert g + rest == rest;
    } else {
      assert (g + rest)[0] == g[0] && (g + rest)[1..] == g[1..] + rest;
      GapSkipped(r, g[1..], rest, want, c);
    }
  }

  /** Nothing is read here: at most ten bytes are left, or a data field is cut off. */
  predicate CutOff(s: seq<bv8>) { |s| <= 10 || (Mark(s, 0xAD) && |s| < 709) }

  /** The end of a capture: a gap, then what the end cuts off. */
  ghost predicate Unread(tail: seq<bv8>) {
    exists n :: 0 <= n <= |tail| && IsGap(tail[..n]) && CutOff(tail[n..])
  }

  lemma {:induction false} CutOffSkipped(r: Reader, g: seq<bv8>, e: seq<bv8>, want: Option<(int, int)>, c: Census)
    requires IsGap(g) && CutOff(e)
    ensures Scan(r, g + e, want, c) == c
    decreases |g|
  {
    if g == [] {
      assert g + e == e;
    } else if |g + e| > 10 {
      assert (g + e)[0] == g[0] && (g + e)[1..] == g[1..] + e;
      CutOffSkipped(r, g[1..], e, want, c);
    }
  }

  lemma TailSkipped(r: Reader, tail: seq<bv8>, want: Option<(int, int)>, c: Census)
    requires Unread(tail)
    ensures Scan(r, tail, want, c) == c
  {
    var n :| 0 <= n <= |tail| && IsGap(tail[..n]) && CutOff(tail[n..]);
    assert tail == tail[..n] + tail[n..];
    hide Scan;
    CutOffSkipped(r, tail[..n], tail[n..], want, c);
  }

  lemma AddressScanned(r: Reader, field: seq<bv8>, rest: seq<bv8>, want: Option<(int, int)>, c: Census)
    requires |field| == ADDR_LEN && Mark(field, 0x96) && rest != []
    ensures Scan(r, field + rest, want, c) == Scan(r, rest, want, WithAddress(c, r.address(field + rest), want, |field + rest|))
  {
    assert (field + rest)[ADDR_LEN..] == rest;
  }

  lemma DataScanned(r: Reader, field: seq<bv8>, rest: seq<bv8>, want: Option<(int, int)>, c: Census)
    requires |field| == DATA_LEN && Mark(field, 0xAD) && r.judge(field + rest, c.last) != NonAlphabet
    ensures Scan(r, field + rest, want, c) == Scan(r, rest, want, WithVerdict(c, r.judge(field + rest, c.last), |field + rest|))
  {
    assert (field + rest)[DATA_LEN..] == rest;
  }

  /** The scanner's state after a well-formed sector that starts `left` bytes before the end. */
  function AfterSector(x: Sector, want: Option<(int, int)>, c: Census, left: nat): Census
    requires left >= |x.Bytes()|
  {
    var at := left - |x.gap|;
    WithVerdict(WithAddress(c, Some(x.Where()), want, at), Good, at - ADDR_LEN - |x.gap2|)
  }

  /** ... and after all sectors of a capture. */
  function After(sectors: seq<Sector>, tail: seq<bv8>, want: Option<(int, int)>, c: Census): Census
    decreases |sectors|
  {
    if sectors == [] then c
    else After(sectors[1..], tail, want, AfterSector(sectors[0], want, c, |Stream(sectors, tail)|))
  }

  lemma SectorScanned(x: Sector, rest: seq<bv8>, want: Option<(int, int)>, c: Census)
    requires x.Valid()
    ensures Scan(SONY, x.Bytes() + rest, want, c) == Scan(SONY, rest, want, AfterSector(x, want, c, |x.Bytes() + rest|))
  {
    hide *;
    var body, at := x.gap2 + (x.Data() + rest), |x.Bytes() + rest| - |x.gap|;
    var c1 := WithAddress(c, Some(x.Where()), want, |x.Front() + body|);
    SectorParts(x, rest);
    GapSkipped(SONY, x.gap, x.Front() + body, want, c);
    AddressRead(x, body, want, c);
    GapSkipped(SONY, x.gap2, x.Data() + rest, want, c1);
    AfterSectorIs(x, want, c, |x.Bytes() + rest|);
    DataRead(x, rest, want, c1);
  }

  lemma SectorParts(x: Sector, rest: seq<bv8>)
    requires x.Valid()
    ensures IsGap(x.gap) && IsGap(x.gap2)
    ensures x.Bytes() + rest == x.gap + (x.Front() + (x.gap2 + (x.Data() + rest)))
    ensures |x.Front() + (x.gap2 + (x.Data() + rest))| == |x.Bytes() + rest| - |x.gap|
    ensures |x.Data() + rest| == |x.Bytes() + rest| - |x.gap| - ADDR_LEN - |x.gap2|
    ensures |x.Front() + (x.gap2 + (x.Data() + rest))| > 10 && |x.Data() + rest| > 10
    ensures |x.Bytes() + rest| >= |x.Bytes()| && x.gap2 + (x.Data() + rest) != []
  {
    hide AddressField, DataField;
    Arrange(x.gap, x.Front(), x.gap2, x.Data(), rest);
  }

  lemma AfterSectorIs(x: Sector, want: Option<(int, int)>, c: Census, left: nat)
    requires left >= |x.Bytes()|
    ensures left - |x.gap| >= ADDR_LEN + |x.gap2|
    ensures AfterSector(x, want, c, left)
         == WithVerdict(WithAddress(c, Some(x.Where()), want, left - |x.gap|), Good, left - |x.gap| - ADDR_LEN - |x.gap2|)
    ensures WithAddress(c, Some(x.Where()), want, left - |x.gap|).last == Some(x.Where())
  {
    hide AddressField, DataField;
  }

  lemma FrontRead(x: Sector, rest: seq<bv8>)
    requires x.Valid()
    ensures |x.Front()| == ADDR_LEN && Mark(x.Front(), 0x96) && SONY.address(x.Front() + rest) == Some(x.Where())
  {
    hide AddressOf, Symbol, ReadAddress, Nibbles;
    AddressFromNumbers(x.track, x.side, x.sector, x.doubleSided);
    ReadBack(Symbol(x.track % 64), Symbol(x.sector), Symbol(32 * x.side + x.track / 64), if x.doubleSided then 0x22 else 0x02, rest);
  }

  lemma AddressRead(x: Sector, rest: seq<bv8>, want: Option<(int, int)>, c: Census)
    requires x.Valid() && rest != []
    ensures Scan(SONY, x.Front() + rest, want, c) == Scan(SONY, rest, want, WithAddress(c, Some(x.Where()), want, |x.Front() + rest|))
  {
    hide *;
    FrontRead(x, rest);
    AddressScanned(SONY, x.Front(), rest, want, c);
  }

  lemma DataRead(x: Sector, rest: seq<bv8>, want: Option<(int, int)>, c: Census)
    requires x.Valid() && c.last == Some(x.Where())
    ensures Scan(SONY, x.Data() + rest, want, c) == Scan(SONY, rest, want, WithVerdict(c, Good, |x.Data() + rest|))
  {
    EmittedIsGood(x.Where(), rest);
    DataScanned(SONY, x.Data(), rest, want, c);
  }

  lemma Arrange(g: seq<bv8>, a: seq<bv8>, h: seq<bv8>, d: seq<bv8>, rest: seq<bv8>)
    ensures g + (a + (h + d)) + rest == g + (a + (h + (d + rest)))
  {
  }

  /** Scanning sectors and whatever follows them. */
  lemma {:induction false} StreamScanned(sectors: seq<Sector>, rest: seq<bv8>, want: Option<(int, int)>, c: Census)
    requires forall k :: 0 <= k < |sectors| ==> sectors[k].Valid()
    ensures Scan(SONY, Stream(sectors, rest), want, c) == Scan(SONY, rest, want, After(sectors, rest, want, c))
    decreases |sectors|
  {
    if sectors != [] {
      var x, more := sectors[0], Stream(sectors[1..], rest);
      hide Scan, AfterSector;
      SectorScanned(x, more, want, c);
      StreamScanned(sectors[1..], rest, want, AfterSector(x, want, c, |x.Bytes() + more|));
    }
  }

  /** The fields of a printed capture, in order, each with its place and content. */
  function Printed(sectors: seq<Sector>, tail: seq<bv8>): seq<Found> {
    if sectors == [] then []
    else
      var x, at := sectors[0], |Stream(sectors, tail)| - |sectors[0].gap|;
      [FoundAddress(at, x.Where()), FoundData(at - ADDR_LEN - |x.gap2|, Good)] + Printed(sectors[1..], tail)
  }

  function AllGood(n: nat): seq<Verdict> { seq(n, k => Good) }

  lemma AfterSectorCounts(x: Sector, want: Option<(int, int)>, c: Census, left: nat)
    requires left >= |x.Bytes()|
    ensures var d, at := AfterSector(x, want, c, left), left - |x.gap|;
            && d.naddr == c.naddr + 1 && d.verdicts == c.verdicts + [Good]
            && d.found == c.found + [FoundAddress(at, x.Where()), FoundData(at - ADDR_LEN - |x.gap2|, Good)]
            && (d.ok <==> c.ok && Wanted(want, x.Where()))
  {
    hide AddressField, DataField;
  }

  lemma Reassociate<T>(a: seq<T>, b: seq<T>, c: seq<T>)
    ensures (a + b) + c == a + (b + c)
  {
  }

  lemma AllGoodCons(n: nat)
    requires n > 0
    ensures AllGood(n) == [Good] + AllGood(n - 1)
  {
  }

  /** Every sector lies on the requested track and side, if one was requested. */
  predicate AllRequested(want: Option<(int, int)>, sectors: seq<Sector>) {
    want.Some? ==> forall k :: 0 <= k < |sectors| ==> sectors[k].track == want.value.0 && sectors[k].side == want.value.1
  }

  lemma AllRequestedCons(want: Option<(int, int)>, sectors: seq<Sector>)
    requires sectors != []
    ensures AllRequested(want, sectors) <==> Wanted(want, sectors[0].Where()) && AllRequested(want, sectors[1..])
  {
    var rest := sectors[1..];
    assert forall k :: 0 < k < |sectors| ==> sectors[k] == rest[k - 1];
  }

  lemma {:induction false} AfterCounts(sectors: seq<Sector>, tail: seq<bv8>, want: Option<(int, int)>, c: Census)
    ensures var d := After(sectors, tail, want, c);
            && d.naddr == c.naddr + |sectors| && d.verdicts == c.verdicts + AllGood(|sectors|)
            && d.found == c.found + Printed(sectors, tail)
            && (d.ok <==> c.ok && AllRequested(want, sectors))
    decreases |sectors|
  {
    if sectors != [] {
      hide AfterSector, AllGood, AllRequested, Wanted, Stream, IsGap, AddressField, DataField;
      var x, rest, left := sectors[0], sectors[1..], |Stream(sectors, tail)|;
      StreamCons(sectors, tail);
      AfterSectorCounts(x, want, c, left);
      AfterCounts(rest, tail, want, AfterSector(x, want, c, left));
      AllGoodCons(|sectors|);
      Reassociate(c.verdicts, [Good], AllGood(|rest|));
      var at := left - |x.gap|;
      Reassociate(c.found, [FoundAddress(at, x.Where()), FoundData(at - ADDR_LEN - |x.gap2|, Good)], Printed(rest, tail));
      AllRequestedCons(want, sectors);
    }
  }

  lemma {:induction false} CountAll(n: nat)
    ensures Count(AllGood(n), Good) == n
  {
    if n > 0 {
      assert AllGood(n)[1..] == AllGood(n - 1);
      CountAll(n - 1);
    }
  }

  /** Scanning a printed capture finds exactly its fields, in order and in
      place, every address with what it names and every data field
      content-correct; the run is reported clean exactly when it is not empty and
      every address names the requested track and side. */
  lemma ScanOfPrint(sectors: seq<Sector>, tail: seq<bv8>, want: Option<(int, int)>)
    requires (forall k :: 0 <= k < |sectors| ==> sectors[k].Valid()) && Unread(tail)
    ensures var c := Scan(SONY, Stream(sectors, tail), want, START);
            && c.found == Printed(sectors, tail)
            && c.naddr == |c.verdicts| == Count(c.verdicts, Good) == |sectors|
            && (c.ok <==> AllRequested(want, sectors))
  {
    hide Scan, Unread;
    StreamScanned(sectors, tail, want, START);
    TailSkipped(SONY, tail, want, After(sectors, tail, want, START));
    AfterCounts(sectors, tail, want, START);
    assert [] + AllGood(|sectors|) == AllGood(|sectors|) && [] + Printed(sectors, tail) == Printed(sectors, tail);
    CountAll(|sectors|);
  }

  // ---- a damaged data field -----------------------------------------------------------

  /** A data mark, then bytes of which one of the first 704 is no disk byte. */
  ghost predicate Damaged(x: seq<bv8>) {
    IsGap(x) && exists k :: 0 <= k < 704 && k < |x| && Dec(x[k]).None?
  }

  function Marked(s: seq<bv8>): seq<bv8> { [0xD5, 0xAA, 0xAD] + s }

  lemma DamagedJudged(x: seq<bv8>, rest: seq<bv8>, last: Option<Address>)
    requires Damaged(x) && |x + rest| >= 706
    ensures Judge(Marked(x + rest), last) == NonAlphabet
  {
    var s := Marked(x + rest);
    var k :| 0 <= k < 704 && k < |x| && Dec(x[k]).None?;
    assert s[3..707][k] == x[k];
  }

  lemma DamagedScanned(x: seq<bv8>, rest: seq<bv8>, want: Option<(int, int)>, c: Census)
    requires Damaged(x) && |x + rest| >= 706
    ensures Scan(SONY, Marked(x + rest), want, c) == Scan(SONY, x + rest, want, WithVerdict(c, NonAlphabet, |x + rest| + 3))
  {
    var s := Marked(x + rest);
    DamagedJudged(x, rest, c.last);
    hide Judge;
    assert s[3..] == x + rest && |s| == |x + rest| + 3;
  }

  lemma GapThen(g: seq<bv8>, rest: seq<bv8>, want: Option<(int, int)>, c: Census)
    requires IsGap(g) && (|rest| > 10 || Unread(rest))
    ensures Scan(SONY, g + rest, want, c) == Scan(SONY, rest, want, c)
  {
    hide Scan;
    if |rest| > 10 {
      GapSkipped(SONY, g, rest, want, c);
    } else {
      var n :| 0 <= n <= |rest| && IsGap(rest[..n]) && CutOff(rest[n..]);
      assert (g + rest)[..|g| + n] == g + rest[..n] && (g + rest)[|g| + n..] == rest[n..];
      assert IsGap((g + rest)[..|g| + n]);
      TailSkipped(SONY, g + rest, want, c);
      TailSkipped(SONY, rest, want, c);
    }
  }

  lemma LongOrUnread(sectors: seq<Sector>, tail: seq<bv8>)
    requires Unread(tail)
    ensures |Stream(sectors, tail)| > 10 || Unread(Stream(sectors, tail))
  {
    hide Unread;
    if sectors != [] { StreamCons(sectors, tail); }
  }

  /** After a damaged data field of any length the scanner picks up the very
      next field: every sector before and after is still found and good, the
      damaged field is reported, and the run is not clean. */
  lemma DamageIsLocal(before: seq<Sector>, g: seq<bv8>, x: seq<bv8>, after: seq<Sector>, tail: seq<bv8>, want: Option<(int, int)>)
    requires (forall k :: 0 <= k < |before| ==> before[k].Valid()) && (forall k :: 0 <= k < |after| ==> after[k].Valid())
    requires IsGap(g) && Damaged(x) && Unread(tail) && |x + Stream(after, tail)| >= 706
    ensures var field := Marked(x + Stream(after, tail));
            var c := Scan(SONY, Stream(before, g + field), want, START);
            && c.found == Printed(before, g + field) + ([FoundData(|field|, NonAlphabet)] + Printed(after, tail))
            && c.naddr == |before| + |after| && c.verdicts == AllGood(|before|) + ([NonAlphabet] + AllGood(|after|)) && !c.ok
  {
    hide *;
    var field := Marked(x + Stream(after, tail));
    var c1 := After(before, g + field, want, START);
    DamageScanned(before, g, x, after, tail, want);
    DamageCounts(c1, after, tail, want, |field|);
    AfterCounts(before, g + field, want, START);
    StartsEmpty(Printed(before, g + field), AllGood(|before|));
  }

  lemma MarkedLength(x: seq<bv8>, rest: seq<bv8>)
    requires Damaged(x)
    ensures |Marked(x + rest)| == |x + rest| + 3 && IsGap(x)
  {
  }

  lemma DamageScanned(before: seq<Sector>, g: seq<bv8>, x: seq<bv8>, after: seq<Sector>, tail: seq<bv8>, want: Option<(int, int)>)
    requires (forall k :: 0 <= k < |before| ==> before[k].Valid()) && (forall k :: 0 <= k < |after| ==> after[k].Valid())
    requires IsGap(g) && Damaged(x) && Unread(tail) && |x + Stream(after, tail)| >= 706
    ensures var field := Marked(x + Stream(after, tail));
            Scan(SONY, Stream(before, g + field), want, START)
            == After(after, tail, want, WithVerdict(After(before, g + field, want, START), NonAlphabet, |field|))
  {
    hide *;
    var rest := Stream(after, tail);
    var field := Marked(x + rest);
    MarkedLength(x, rest);
    var c1 := After(before, g + field, want, START);
    var c2 := WithVerdict(c1, NonAlphabet, |field|);
    StreamScanned(before, g + field, want, START);
    GapSkipped(SONY, g, field, want, c1);
    DamagedScanned(x, rest, want, c1);
    LongOrUnread(after, tail);
    GapThen(x, rest, want, c2);
    StreamScanned(after, tail, want, c2);
    TailSkipped(SONY, tail, want, After(after, tail, want, c2));
  }

  lemma DamageCounts(c: Census, after: seq<Sector>, tail: seq<bv8>, want: Option<(int, int)>, left: nat)
    ensures var d := After(after, tail, want, WithVerdict(c, NonAlphabet, left));
            && d.found == c.found + ([FoundData(left, NonAlphabet)] + Printed(after, tail))
            && d.naddr == c.naddr + |after| && d.verdicts == c.verdicts + ([NonAlphabet] + AllGood(|after|)) && !d.ok
  {
    hide *;
    AfterCounts(after, tail, want, WithVerdict(c, NonAlphabet, left));
    VerdictAdds(c, NonAlphabet, left);
    Reassociate(c.found, [FoundData(left, NonAlphabet)], Printed(after, tail));
    Reassociate(c.verdicts, [NonAlphabet], AllGood(|after|));
  }

  lemma VerdictAdds(c: Census, v: Verdict, left: nat)
    ensures var d := WithVerdict(c, v, left);
            d.naddr == c.naddr && d.verdicts == c.verdicts + [v] && d.found == c.found + [FoundData(left, v)]
            && (v == NonAlphabet ==> !d.ok)
  {
  }

  lemma StartsEmpty(found: seq<Found>, verdicts: seq<Verdict>)
    ensures START.found + found == found && START.verdicts + verdicts == verdicts && START.naddr == 0
  {
  }

  // ---- what the exit status means on any stream at all ---------------------------------

  /** The verdicts the scan adds, and what a set flag says about them. */
  lemma {:induction false} FlagMeansHarmless(r: Reader, s: seq<bv8>, want: Option<(int, int)>, c: Census)
    ensures var d := Scan(r, s, want, c);
            && |c.verdicts| <= |d.verdicts| && d.verdicts[..|c.verdicts|] == c.verdicts
            && (d.ok ==> c.ok && forall k :: |c.verdicts| <= k < |d.verdicts| ==> Harmless(d.verdicts[k]))
    decreases |s|
  {
    if |s| > 10 {
      if Mark(s, 0x96) {
        FlagMeansHarmless(r, s[ADDR_LEN..], want, WithAddress(c, r.address(s), want, |s|));
      } else if Mark(s, 0xAD) {
        if |s| >= DATA_LEN {
          var v := r.judge(s, c.last);
          FlagMeansHarmless(r, s[if v == NonAlphabet then 3 else DATA_LEN..], want, WithVerdict(c, v, |s|));
        }
      } else {
        FlagMeansHarmless(r, s[1..], want, c);
      }
    }
  }

  ghost predicate OrphanRule(r: Reader) {
    forall s, last :: (r.judge(s, last) == Orphan ==> last.None?) && (last.None? ==> !(r.judge(s, last) == Good))
  }

  lemma JudgeOrphan()
    ensures OrphanRule(SONY)
  {
  }

  /** Once an address has been accepted no data field is an orphan. */
  lemma {:induction false} NoOrphanAfterAddress(r: Reader, s: seq<bv8>, want: Option<(int, int)>, c: Census)
    requires OrphanRule(r) && c.last.Some?
    ensures var d := Scan(r, s, want, c);
            |c.verdicts| <= |d.verdicts| && forall k :: |c.verdicts| <= k < |d.verdicts| ==> d.verdicts[k] != Orphan
    decreases |s|
  {
    if |s| > 10 {
      if Mark(s, 0x96) {
        NoOrphanAfterAddress(r, s[ADDR_LEN..], want, WithAddress(c, r.address(s), want, |s|));
      } else if Mark(s, 0xAD) {
        if |s| >= DATA_LEN {
          var v := r.judge(s, c.last);
          var n := if v == NonAlphabet then 3 else DATA_LEN;
          FlagMeansHarmless(r, s[n..], want, WithVerdict(c, v, |s|));
          NoOrphanAfterAddress(r, s[n..], want, WithVerdict(c, v, |s|));
        }
      } else {
        NoOrphanAfterAddress(r, s[1..], want, c);
      }
    }
  }

  /** On the bytes of the capture: scanning from the front, an acceptable
      address field comes before the first data mark. */
  predicate AddressFirst(r: Reader, s: seq<bv8>)
    decreases |s|
  {
    |s| > 10
    && if Mark(s, 0x96) then r.address(s).Some? || AddressFirst(r, s[ADDR_LEN..])
       else !Mark(s, 0xAD) && AddressFirst(r, s[1..])
  }

  /** The flag promises content only when an address comes first: given a set
      flag, all fields were verified exactly when that holds of the stream. */
  lemma {:induction false} FirstFieldDecides(r: Reader, s: seq<bv8>, want: Option<(int, int)>, c: Census)
    requires OrphanRule(r) && c.verdicts == [] && Scan(r, s, want, c).ok && Scan(r, s, want, c).verdicts != []
    ensures var vs := Scan(r, s, want, c).verdicts;
            (forall k :: 0 <= k < |vs| ==> vs[k] == Good) <==> c.last.Some? || AddressFirst(r, s)
    decreases |s|
  {
    FlagMeansHarmless(r, s, want, c);
    var vs := Scan(r, s, want, c).verdicts;
    if c.last.Some? {
      NoOrphanAfterAddress(r, s, want, c);
    } else if Mark(s, 0x96) {
      FirstFieldDecides(r, s[ADDR_LEN..], want, WithAddress(c, r.address(s), want, |s|));
    } else if Mark(s, 0xAD) {
      var v := r.judge(s, c.last);
      FlagMeansHarmless(r, s[if v == NonAlphabet then 3 else DATA_LEN..], want, WithVerdict(c, v, |s|));
      assert vs[0] == v;
    } else {
      FirstFieldDecides(r, s[1..], want, c);
    }
  }

  lemma {:induction false} CountIsAll(vs: seq<Verdict>)
    ensures Count(vs, Good) <= |vs|
    ensures Count(vs, Good) == |vs| <==> forall k :: 0 <= k < |vs| ==> vs[k] == Good
  {
    if vs != [] {
      CountIsAll(vs[1..]);
      assert forall k :: 0 < k < |vs| ==> vs[k] == vs[1..][k - 1];
    }
  }

  /** When census reports success, every data field was content-verified if and
      only if the stream has an acceptable address field before its first data mark. */
  lemma SuccessMeansVerified(s: seq<bv8>, want: Option<(int, int)>)
    requires var c := Scan(SONY, s, want, START); c.ok && c.verdicts != []
    ensures var vs := Scan(SONY, s, want, START).verdicts; Count(vs, Good) == |vs| <==> AddressFirst(SONY, s)
  {
    JudgeOrphan();
    FirstFieldDecides(SONY, s, want, START);
    CountIsAll(Scan(SONY, s, want, START).verdicts);
  }

  /** The other case does occur: a lone data field with any content at all is
      reported as success although nothing was verified. */
  lemma OrphanReportedClean(sector: bv6, payload: seq<bv8>, want: Option<(int, int)>)
    requires |payload| == PAYLOAD_BYTES
    ensures Scan(SONY, DataField(sector, payload), want, START) == Census(true, 0, None, [Orphan], [FoundData(DATA_LEN, Orphan)])
  {
    var f, v := DataField(sector, payload), DataSymbols(sector, payload);
    AllNibbles(v);
    Between([0xD5, 0xAA, 0xAD], Nibbles(v), []);
    assert f + [] == f;
    JudgeFields(f, Nibbles(v), v, None);
    DataScanned(SONY, f, [], want, START);
  }
}
