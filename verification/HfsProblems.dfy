/** What loading an extents tree reports and files, on any bytes at all. */
module HfsProblems {
  import opened Basics
  import opened HfsFork
  import opened HfsTree

  // ---- records ------------------------------------------------------------------

  /** A record the loader can read at all: a key length, and the key when it says seven. */
  predicate KeyReadable(rec: Record) { |rec| >= 1 && (rec[0] == 7 ==> |rec| >= 8) }

  function FileIdOf(rec: Record): nat
    requires |rec| >= 8
  {
    var b0: int, b1: int, b2: int, b3: int := rec[2], rec[3], rec[4], rec[5];
    ((b0 * 256 + b1) * 256 + b2) * 256 + b3
  }

  /** What one record adds to the report: a key length other than seven, or fewer
      than twelve bytes behind the key. */
  function Report(rec: Record): seq<Problem>
    requires KeyReadable(rec)
  {
    if rec[0] != 7 then [BadKeyLength(rec[0])] else if |rec| < 20 then [TruncatedRecord(FileIdOf(rec))] else []
  }

  ghost predicate AllKeysReadable(recs: seq<Record>) { forall i :: 0 <= i < |recs| ==> KeyReadable(recs[i]) }

  /** The reports of a list of records, in order. */
  ghost function Reports(recs: seq<Record>): seq<Problem>
    requires AllKeysReadable(recs)
    decreases |recs|
  {
    if recs == [] then [] else Report(recs[0]) + Reports(recs[1..])
  }

  /** The record is complete and filed under this key. */
  predicate Names(rec: Record, k: Key) {
    |rec| >= 20 && rec[0] == 7 && k.fork == rec[1] && k.fileId == FileIdOf(rec) && k.start == WordAt(rec, 6)
  }

  function WordAt(rec: Record, o: nat): nat
    requires o + 2 <= |rec|
  {
    var hi: int, lo: int := rec[o], rec[o + 1];
    hi * 256 + lo
  }

  function ExtentAt(rec: Record, o: nat): Extent
    requires o + 4 <= |rec|
  {
    Extent(WordAt(rec, o), WordAt(rec, o + 2))
  }

  /** The three extents behind the key. */
  function ExtentsOf(rec: Record): ExtentRecord
    requires |rec| >= 20
  {
    [ExtentAt(rec, 8), ExtentAt(rec, 12), ExtentAt(rec, 16)]
  }

  lemma FieldsRead(rec: Record)
    requires |rec| >= 8
    ensures Be32(rec, 2) == Some(FileIdOf(rec)) && Be16(rec, 6) == Some(WordAt(rec, 6))
  {
  }

  lemma ExtentsRead(rec: Record)
    requires |rec| >= 20
    ensures ReadExtents(rec[8..]) == ExtentsOf(rec)
  {
    var b := rec[8..];
    assert forall i :: 0 <= i < 12 ==> b[i] == rec[8 + i];
  }

  /** One record: an exception, a report, or an entry. */
  lemma RecordRead(rec: Record)
    ensures ParseRecord(rec).Some? <==> KeyReadable(rec)
    ensures KeyReadable(rec) ==> ParseRecord(rec).value.1 == Report(rec)
    ensures KeyReadable(rec) ==> var e := ParseRecord(rec).value.0;
              if |rec| >= 20 && rec[0] == 7 then e.Entry? && Names(rec, e.key) && e.exts == ExtentsOf(rec) else e == NoEntry
  {
    if |rec| >= 8 { FieldsRead(rec); }
    if |rec| >= 20 { ExtentsRead(rec); }
    hide Be32, Be16, ReadExtents, ExtentsOf, FileIdOf, WordAt;
  }

  ghost predicate Named(recs: seq<Record>, k: Key) { exists i :: 0 <= i < |recs| && Names(recs[i], k) }

  ghost predicate LastNaming(recs: seq<Record>, k: Key, i: nat) {
    i < |recs| && Names(recs[i], k) && forall j :: i < j < |recs| ==> !Names(recs[j], k)
  }

  /** The map holds exactly the keys some record names, each with the extents of the last one, over what was there. */
  ghost predicate FiledUnder(recs: seq<Record>, k: Key, was: Overflow, ov: Overflow) {
    && (k in ov <==> k in was || Named(recs, k)) && (k in was && !Named(recs, k) ==> ov[k] == was[k])
    && forall i: nat :: LastNaming(recs, k, i) ==> ov[k] == ExtentsOf(recs[i])
  }

  lemma NamedCons(recs: seq<Record>, k: Key)
    requires recs != []
    ensures Named(recs, k) <==> Names(recs[0], k) || Named(recs[1..], k)
    ensures LastNaming(recs, k, 0) <==> Names(recs[0], k) && !Named(recs[1..], k)
    ensures forall i: nat :: i > 0 ==> (LastNaming(recs, k, i) <==> LastNaming(recs[1..], k, i - 1))
  {
    hide Names;
    var rest := recs[1..];
    assert forall j :: 0 < j < |recs| ==> recs[j] == rest[j - 1];
  }

  lemma FiledCons(recs: seq<Record>, k: Key, was: Overflow, mid: Overflow, ov: Overflow)
    requires recs != [] && FiledUnder(recs[1..], k, mid, ov)
    requires if Names(recs[0], k) then k in mid && mid[k] == ExtentsOf(recs[0]) else (k in mid <==> k in was) && (k in was ==> mid[k] == was[k])
    ensures FiledUnder(recs, k, was, ov)
  {
    NamedCons(recs, k);
    hide Names, LastNaming, Named, ExtentsOf;
    forall i: nat | LastNaming(recs, k, i) ensures i < |recs| && ov[k] == ExtentsOf(recs[i]) {
      LastIsNamed(recs, k, i);
      if i > 0 {
        assert LastNaming(recs[1..], k, i - 1);
      }
    }
  }

  lemma LastIsNamed(recs: seq<Record>, k: Key, i: nat)
    requires LastNaming(recs, k, i)
    ensures i < |recs| && Names(recs[i], k)
  {
  }

  /** Loading fails exactly when some record cannot be read; otherwise it reports
      the bad records in order and files the good ones. */
  lemma {:induction false} RecordsRead(recs: seq<Record>, was: Overflow)
    ensures LoadRecords(recs, was).Some? <==> AllKeysReadable(recs)
    ensures AllKeysReadable(recs) ==> LoadRecords(recs, was).value.1 == Reports(recs)
    ensures AllKeysReadable(recs) ==> forall k :: FiledUnder(recs, k, was, LoadRecords(recs, was).value.0)
    decreases |recs|
  {
    if recs != [] {
      var rec, rest := recs[0], recs[1..];
      RecordRead(rec);
      assert AllKeysReadable(recs) <==> KeyReadable(rec) && AllKeysReadable(rest) by {
        assert forall i :: 0 < i < |recs| ==> recs[i] == rest[i - 1];
      }
      if KeyReadable(rec) {
        var e := ParseRecord(rec).value.0;
        var mid := if e.Entry? then was[e.key := e.exts] else was;
        RecordsRead(rest, mid);
        OneNamed(rec);
        if AllKeysReadable(rest) {
          hide ParseRecord, FiledUnder, Names, ExtentsOf, Report, Reports;
          forall k ensures FiledUnder(recs, k, was, LoadRecords(recs, was).value.0) {
            FiledCons(recs, k, was, mid, LoadRecords(recs, was).value.0);
          }
        }
      }
    }
  }

  lemma OneNamed(rec: Record)
    requires KeyReadable(rec)
    ensures var e := ParseRecord(rec).value.0;
            if e.Entry? then e.exts == ReadExtents(rec[8..]) && |rec| >= 20 && e.exts == ExtentsOf(rec) && forall k :: Names(rec, k) <==> k == e.key
            else forall k :: !Names(rec, k)
  {
    RecordRead(rec);
  }

  // ---- the header -----------------------------------------------------------------------

  function LongAt(b: seq<byte>, o: nat): nat
    requires o + 4 <= |b|
  {
    WordAt(b, o) * 0x1_0000 + WordAt(b, o + 2)
  }

  lemma FirstNode(raw: seq<byte>)
    ensures if raw == [] then Nodes(raw) == [] else Nodes(raw) != [] && Nodes(raw)[0] == raw[..Min(512, |raw|)]
  {
  }

  /** The header's fields on the bytes of the file: its type, its node size, the first leaf. */
  lemma HeaderMeans(raw: seq<byte>, name: string)
    ensures ReadHeader(Nodes(raw), name)
         == if |raw| < 9 then HeaderCrash
            else if raw[8] != 1 then HeaderProblem(NotHeader(name, raw[8]))
            else if |raw| < 40 then HeaderCrash
            else if WordAt(raw, 32) != 512 then HeaderProblem(BadNodeSize(name, WordAt(raw, 32)))
            else Header(LongAt(raw, 24))
    ensures match ReadHeader(Nodes(raw), name)
            case HeaderCrash => LoadTree(raw, name) == LoadCrash
            case HeaderProblem(p) => LoadTree(raw, name) == Loaded(map[], [p])
            case Header(_) => true
  {
    FirstNode(raw);
    var nodes := Nodes(raw);
    hide Nodes;
    if |raw| >= 40 {
      assert forall i :: 0 <= i < 40 ==> nodes[0][i] == raw[i];
    }
  }

  // ---- the chain ------------------------------------------------------------------------

  /** The readable nodes the links lead through from `first`, in order, before
      the first repetition; `last` is where they lead next. */
  ghost predicate Chain(nodes: seq<Node>, first: nat, visited: seq<nat>, last: nat) {
    && (forall k :: 0 <= k < |visited| ==> visited[k] == Hop(nodes, first, k) && Links(nodes, visited[k]))
    && (forall j, k :: 0 <= j < k < |visited| ==> visited[j] != visited[k])
    && last == Hop(nodes, first, |visited|) && (last in visited || !Links(nodes, last))
  }

  /** The node after the chain cannot be read. */
  ghost predicate Unreadable(nodes: seq<Node>, n: nat) { 0 < n < |nodes| && !Readable(nodes[n]) }

  lemma VisitedLinks(nodes: seq<Node>, first: nat, visited: seq<nat>, end: End, k: nat)
    requires IsTrace(nodes, first, {}, visited, end) && k < |visited| && (k + 1 < |visited| || end != Crash)
    ensures Links(nodes, visited[k])
  {
    hide Readable;
    var m := |visited|;
    if !Links(nodes, visited[k]) {
      StaysPut(nodes, first, k, m);
    }
  }

  lemma ChainOf(nodes: seq<Node>, first: nat) returns (visited: seq<nat>, last: nat)
    ensures Chain(nodes, first, visited, last)
    ensures var w := Follow(nodes, first, {});
            && (w.end == Crash <==> Unreadable(nodes, last))
            && (w.end != Crash ==> w.records == RecordsOf(nodes, visited) && w.end == if last == 0 then Clean else Bad(last))
  {
    var w := Follow(nodes, first, {});
    FollowsChain(nodes, first, {});
    hide Follow, Readable, RecordsOf;
    var m := |w.visited|;
    forall k | 0 <= k < m && (k + 1 < m || w.end != Crash) ensures Links(nodes, w.visited[k]) {
      VisitedLinks(nodes, first, w.visited, w.end, k);
    }
    if w.end == Crash {
      visited, last := w.visited[..m - 1], w.visited[m - 1];
    } else {
      visited, last := w.visited, Hop(nodes, first, m);
    }
  }

  // ---- the whole tree --------------------------------------------------------------------

  /** What a load that gets through reports: the bad records of the chain's
      leaves in chain order and, last, the node at which the chain repeats or
      leaves the array, exactly when following links never reaches 0. */
  ghost predicate Reported(nodes: seq<Node>, name: string, first: nat, visited: seq<nat>, last: nat, l: Loaded)
    requires l.Loaded? && AllKeysReadable(RecordsOf(nodes, visited))
  {
    && l.problems == Reports(RecordsOf(nodes, visited)) + (if last == 0 then [] else [BadLink(name, last)])
    && (last == 0 <==> ReachesZero(nodes, first))
    && forall k :: FiledUnder(RecordsOf(nodes, visited), k, map[], l.overflow)
  }

  /** On every file with a proper header: loading gets through exactly when every
      node and every record reached can be read, and then reports and files just that. */
  lemma TreeReport(raw: seq<byte>, name: string) returns (visited: seq<nat>, last: nat)
    requires ReadHeader(Nodes(raw), name).Header?
    ensures var nodes, first, l := Nodes(raw), ReadHeader(Nodes(raw), name).first, LoadTree(raw, name);
            && Chain(nodes, first, visited, last)
            && (l.Loaded? <==> !Unreadable(nodes, last) && AllKeysReadable(RecordsOf(nodes, visited)))
            && (l.Loaded? ==> Reported(nodes, name, first, visited, last, l))
  {
    var nodes, first := Nodes(raw), ReadHeader(Nodes(raw), name).first;
    hide Nodes, ReadHeader, Follow, LoadRecords, Readable, RecordsOf, Reports, FiledUnder, Chain, AllKeysReadable, ReachesZero;
    visited, last := ChainOf(nodes, first);
    CleanIffReachesZero(nodes, first);
    var recs, w, l := RecordsOf(nodes, visited), Follow(nodes, first, {}), LoadTree(raw, name);
    RecordsRead(recs, map[]);
    if l.Loaded? {
      assert w.records == recs && l.overflow == LoadRecords(recs, map[]).value.0;
      assert l.problems == Reports(recs) + (if last == 0 then [] else [BadLink(name, last)]);
    }
  }

  /** A BadLink problem is reported once, as the last problem, or not at all. */
  lemma ReportsNoLinks(recs: seq<Record>, name: string, n: nat)
    requires AllKeysReadable(recs)
    ensures BadLink(name, n) !in Reports(recs)
    decreases |recs|
  {
    if recs != [] {
      assert forall i :: 0 < i < |recs| ==> recs[i] == recs[1..][i - 1];
      ReportsNoLinks(recs[1..], name, n);
    }
  }

  /** So a bad leaf chain is reported exactly when the links never reach 0. */
  lemma BadChainReportedIff(raw: seq<byte>, name: string)
    requires ReadHeader(Nodes(raw), name).Header? && LoadTree(raw, name).Loaded?
    ensures var nodes, first, ps := Nodes(raw), ReadHeader(Nodes(raw), name).first, LoadTree(raw, name).problems;
            (exists n: nat :: BadLink(name, n) in ps) <==> !ReachesZero(nodes, first)
  {
    var visited, last := TreeReport(raw, name);
    hide LoadTree, Nodes, ReadHeader, ReachesZero, RecordsOf, Chain;
    var ps := LoadTree(raw, name).problems;
    var recs := RecordsOf(Nodes(raw), visited);
    forall n: nat ensures BadLink(name, n) in ps <==> last != 0 && n == last {
      ReportsNoLinks(recs, name, n);
    }
    if last != 0 { assert BadLink(name, last) in ps; }
  }
}
