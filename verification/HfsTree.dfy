/** The B-tree side: following leaf links, and loading the overflow map from
    the records found there. A Python exception is modelled as a crash. */
module HfsTree {
  import opened Basics
  import opened HfsFork
  import opened HfsContent

  const NODE_SIZE := 512

  /** struct.unpack_from('>H', b, o): negative offsets count from the end. */
  function Be16(b: seq<byte>, o: int): Option<int> {
    var at := if o < 0 then o + |b| else o;
    if at < 0 || at + 2 > |b| then None
    else
      var hi: int, lo: int := b[at], b[at + 1];
      Some(hi * 256 + lo)
  }

  function Be32(b: seq<byte>, o: int): Option<int> {
    var at := if o < 0 then o + |b| else o;
    if at < 0 || at + 4 > |b| then None
    else
      var b0: int, b1: int, b2: int, b3: int := b[at], b[at + 1], b[at + 2], b[at + 3];
      Some(b0 * 0x100_0000 + b1 * 0x1_0000 + b2 * 256 + b3)
  }

  lemma Be32Range(b: seq<byte>, o: int)
    ensures Be32(b, o).Some? ==> 0 <= Be32(b, o).value < 0x1_0000_0000
    ensures Be16(b, o).Some? ==> 0 <= Be16(b, o).value < 0x1_0000
  {
  }

  /** The raw tree file in node-sized pieces. */
  function Nodes(raw: seq<byte>): seq<seq<byte>> {
    if raw == [] then [] else [raw[..Min(NODE_SIZE, |raw|)]] + Nodes(raw[Min(NODE_SIZE, |raw|)..])
  }

  type Node = seq<byte>
  type Record = seq<byte>

  /** The record offset table, first k + 1 entries counted from the end of the node. */
  function Offsets(node: Node, n: nat): Option<seq<nat>> {
    if n == 0 then Some([])
    else
      var head, last := Offsets(node, n - 1), Be16(node, 512 - 2 * n);
      Be32Range(node, 512 - 2 * n);
      if head.None? || last.None? then None else Some(head.value + [last.value])
  }

  function Cuts(node: Node, offs: seq<nat>): seq<Record> {
    if |offs| < 2 then [] else [Slice(node, offs[0], offs[1])] + Cuts(node, offs[1..])
  }

  /** The records of a leaf; None when a read falls outside the node. */
  function NodeRecords(node: Node): Option<seq<Record>> {
    var cnt := Be16(node, 10);
    if cnt.None? then None else
    Be32Range(node, 10);
    var offs := Offsets(node, cnt.value + 1);
    if offs.None? then None else Some(Cuts(node, offs.value))
  }

  function Link(node: Node): Option<nat> {
    Be32Range(node, 0);
    if Be32(node, 0).None? then None else Some(Be32(node, 0).value)
  }

  lemma {:induction false} OffsetsReadable(node: Node, n: nat)
    requires |node| == NODE_SIZE
    ensures Offsets(node, n).Some? <==> n <= 512
  {
    if n > 0 { OffsetsReadable(node, n - 1); }
  }

  /** A node of full size can be read exactly when it claims at most 511
      records: past 255 the offset table is read from the node's end again. */
  lemma FullNodeReadableIff(node: Node)
    requires |node| == NODE_SIZE
    ensures NodeRecords(node).Some? && Link(node).Some? <==> node[10] < 2
    ensures forall n :: 256 < n <= 512 ==> Be16(node, 512 - 2 * n) == Be16(node, 1024 - 2 * n)
  {
    OffsetsReadable(node, Be16(node, 10).value + 1);
  }

  // ---- following the chain ------------------------------------------------------

  datatype End = Clean | Bad(node: nat) | Crash
  datatype Walked = Walked(visited: seq<nat>, records: seq<Record>, end: End)

  function UpTo(count: nat): (r: set<nat>)
    ensures forall k: nat :: k in r <==> k < count
  {
    if count == 0 then {} else UpTo(count - 1) + {count - 1}
  }

  function Unseen(count: nat, seen: set<nat>): set<nat> { UpTo(count) - seen }

  /** walk_leaves from node n, with the nodes already visited in `seen`. */
  function Follow(nodes: seq<Node>, n: nat, seen: set<nat>): Walked
    decreases |Unseen(|nodes|, seen)|
  {
    if n == 0 then Walked([], [], Clean)
    else if n in seen || n >= |nodes| then Walked([], [], Bad(n))
    else
      var recs, next := NodeRecords(nodes[n]), Link(nodes[n]);
      if recs.None? || next.None? then Walked([n], [], Crash)
      else
        SeenShrinks(|nodes|, seen, n);
        var w := Follow(nodes, next.value, seen + {n});
        Walked([n] + w.visited, recs.value + w.records, w.end)
  }

  lemma SeenShrinks(count: nat, seen: set<nat>, n: nat)
    requires n < count && n !in seen
    ensures |Unseen(count, seen + {n})| < |Unseen(count, seen)|
  {
    assert Unseen(count, seen + {n}) == Unseen(count, seen) - {n};
  }

  /** A node whose count, offsets and link can all be read; the source raises an exception on others. */
  predicate Readable(node: Node) { NodeRecords(node).Some? && Link(node).Some? }

  /** The chain goes on from n. */
  predicate Links(nodes: seq<Node>, n: nat) { 0 < n < |nodes| && Readable(nodes[n]) }

  /** The node reached after k links, standing still at 0, outside the array
      and at a node that cannot be read. */
  function Hop(nodes: seq<Node>, n: nat, k: nat): nat
    decreases k
  {
    if k == 0 || !Links(nodes, n) then n else Hop(nodes, Link(nodes[n]).value, k - 1)
  }

  function RecordsOf(nodes: seq<Node>, visited: seq<nat>): seq<Record> {
    if visited == [] then [] else
    var n := visited[0];
    (if Links(nodes, n) then NodeRecords(nodes[n]).value else []) + RecordsOf(nodes, visited[1..])
  }

  /** What was visited is the link chain, without repetition; the walk ends
      where the chain leaves the unvisited readable nodes. */
  ghost predicate IsTrace(nodes: seq<Node>, n: nat, seen: set<nat>, visited: seq<nat>, end: End) {
    var last := Hop(nodes, n, |visited|);
    && (forall k :: 0 <= k < |visited| ==> visited[k] == Hop(nodes, n, k) && 0 < visited[k] < |nodes| && visited[k] !in seen)
    && (forall j, k :: 0 <= j < k < |visited| ==> visited[j] != visited[k])
    && match end
       case Clean => last == 0
       case Bad(m) => m == last && last != 0 && (last >= |nodes| || last in seen || last in visited)
                      && (last in visited ==> Links(nodes, last))
       case Crash => visited != [] && last == visited[|visited| - 1] && !Links(nodes, last)
  }

  lemma TraceStep(nodes: seq<Node>, n: nat, seen: set<nat>, rest: seq<nat>, end: End)
    requires Links(nodes, n) && n !in seen
    requires IsTrace(nodes, Link(nodes[n]).value, seen + {n}, rest, end)
    ensures IsTrace(nodes, n, seen, [n] + rest, end)
  {
    hide Link, NodeRecords;
    var visited, next := [n] + rest, Link(nodes[n]).value;
    assert Hop(nodes, n, |visited|) == Hop(nodes, next, |rest|);
    forall k | 0 <= k < |visited|
      ensures visited[k] == Hop(nodes, n, k) && 0 < visited[k] < |nodes| && visited[k] !in seen
    {
      if k > 0 { assert visited[k] == rest[k - 1]; }
    }
    forall j, k | 0 <= j < k < |visited| ensures visited[j] != visited[k] {
      assert visited[k] == rest[k - 1] && rest[k - 1] !in seen + {n};
      if j > 0 { assert visited[j] == rest[j - 1]; }
    }
  }

  /** The walk is a trace of the chain, and yields its records in chain order. */
  lemma {:induction false} FollowsChain(nodes: seq<Node>, n: nat, seen: set<nat>)
    ensures var w := Follow(nodes, n, seen);
            IsTrace(nodes, n, seen, w.visited, w.end) && w.records == RecordsOf(nodes, w.visited)
    decreases |Unseen(|nodes|, seen)|
  {
    hide NodeRecords, Link;
    if Links(nodes, n) && n !in seen {
      var next := Link(nodes[n]).value;
      SeenShrinks(|nodes|, seen, n);
      FollowsChain(nodes, next, seen + {n});
      var w, v := Follow(nodes, n, seen), Follow(nodes, next, seen + {n});
      TraceStep(nodes, n, seen, v.visited, v.end);
      assert w.visited == [n] + v.visited && w.visited[1..] == v.visited;
    } else if 0 < n < |nodes| && n !in seen {
      assert Follow(nodes, n, seen) == Walked([n], [], Crash);
      assert Hop(nodes, n, 1) == n && [n][1..] == [];
    }
  }

  lemma {:induction false} HopAdd(nodes: seq<Node>, n: nat, j: nat, k: nat)
    ensures Hop(nodes, n, j + k) == Hop(nodes, Hop(nodes, n, j), k)
    decreases j
  {
    hide Link, NodeRecords;
    if j > 0 && Links(nodes, n) {
      HopAdd(nodes, Link(nodes[n]).value, j - 1, k);
    }
  }

  /** A chain that returns to an earlier node never reaches 0. */
  lemma {:induction false} CycleNeverEnds(nodes: seq<Node>, n: nat, j: nat, m: nat, k: nat)
    requires j < m && Hop(nodes, n, j) == Hop(nodes, n, m)
    requires forall i :: 0 <= i < m ==> Hop(nodes, n, i) != 0
    ensures Hop(nodes, n, k) != 0
    decreases k
  {
    if k >= m {
      HopAdd(nodes, n, m, k - m);
      HopAdd(nodes, n, j, k - m);
      CycleNeverEnds(nodes, n, j, m, j + (k - m));
    }
  }

  /** Where a chain stands still it stays. */
  lemma StaysPut(nodes: seq<Node>, n: nat, m: nat, k: nat)
    requires !Links(nodes, Hop(nodes, n, m)) && k >= m
    ensures Hop(nodes, n, k) == Hop(nodes, n, m)
  {
    HopAdd(nodes, n, m, k - m);
  }

  /** Some number of links leads to 0. */
  ghost predicate ReachesZero(nodes: seq<Node>, first: nat) { exists k: nat :: Hop(nodes, first, k) == 0 }

  /** Whatever the nodes hold, the walk is clean exactly when the chain reaches 0. */
  lemma CleanIffReachesZero(nodes: seq<Node>, first: nat)
    ensures Follow(nodes, first, {}).end == Clean <==> ReachesZero(nodes, first)
  {
    hide Links;
    var w := Follow(nodes, first, {});
    FollowsChain(nodes, first, {});
    assert w.end == Clean ==> Hop(nodes, first, |w.visited|) == 0;
    if w.end != Clean {
      forall k: nat ensures Hop(nodes, first, k) != 0 {
        NotZero(nodes, first, w.visited, w.end, k);
      }
    }
  }

  lemma NotZero(nodes: seq<Node>, first: nat, visited: seq<nat>, end: End, k: nat)
    requires IsTrace(nodes, first, {}, visited, end) && end != Clean
    ensures Hop(nodes, first, k) != 0
  {
    var m := |visited|;
    var last := Hop(nodes, first, m);
    if k < m {
      assert visited[k] == Hop(nodes, first, k);
    } else if Links(nodes, last) {
      var j :| 0 <= j < m && visited[j] == last;
      CycleNeverEnds(nodes, first, j, m, k);
    } else {
      StaysPut(nodes, first, m, k);
    }
  }

  /** It ends in an exception exactly when the chain reaches a node that cannot be read. */
  lemma CrashIffUnreadable(nodes: seq<Node>, first: nat)
    ensures Follow(nodes, first, {}).end == Crash
            <==> exists k: nat :: 0 < Hop(nodes, first, k) < |nodes| && !Readable(nodes[Hop(nodes, first, k)])
  {
    hide Readable;
    var w := Follow(nodes, first, {});
    FollowsChain(nodes, first, {});
    var m := |w.visited|;
    if w.end == Crash {
      assert w.visited[m - 1] == Hop(nodes, first, m - 1);
    } else {
      forall k: nat | 0 < Hop(nodes, first, k) < |nodes| ensures Readable(nodes[Hop(nodes, first, k)]) {
        AllReadable(nodes, first, w.visited, w.end, k);
      }
    }
  }

  lemma {:induction false} AllReadable(nodes: seq<Node>, first: nat, visited: seq<nat>, end: End, k: nat)
    requires IsTrace(nodes, first, {}, visited, end) && end != Crash && 0 < Hop(nodes, first, k) < |nodes|
    ensures Readable(nodes[Hop(nodes, first, k)])
    decreases k
  {
    hide Readable;
    var m := |visited|;
    var last := Hop(nodes, first, m);
    assert k < m ==> visited[k] == Hop(nodes, first, k);
    if !Links(nodes, Hop(nodes, first, k)) {
      if k < m {
        StaysPut(nodes, first, k, m);
      } else if Links(nodes, last) {
        var j :| 0 <= j < m && visited[j] == last;
        HopAdd(nodes, first, m, k - m);
        HopAdd(nodes, first, j, k - m);
        AllReadable(nodes, first, visited, end, j + (k - m));
      } else {
        StaysPut(nodes, first, m, k);
      }
    }
  }

  // ---- overflow records -------------------------------------------------------------

  datatype Entry = NoEntry | Entry(key: Key, exts: ExtentRecord)

  /** One record of the extents tree; None is an exception. The problem, if any, comes with it. */
  function ParseRecord(rec: Record): Option<(Entry, seq<Problem>)> {
    if |rec| < 1 then None
    else if rec[0] != 7 then Some((NoEntry, [BadKeyLength(rec[0])]))
    else if |rec| < 8 then None
    else
      var id, start := Be32(rec, 2).value, Be16(rec, 6).value;
      if |rec| - 8 < 12 then Some((NoEntry, [TruncatedRecord(id)]))
      else Some((Entry(Key(rec[1], id, start), ReadExtents(rec[8..])), []))
  }

  function ReadExtents(b: seq<byte>): ExtentRecord
    requires |b| >= 12
  {
    Be32Range(b, 0); Be32Range(b, 2); Be32Range(b, 4); Be32Range(b, 6); Be32Range(b, 8); Be32Range(b, 10);
    [Extent(Be16(b, 0).value, Be16(b, 2).value), Extent(Be16(b, 4).value, Be16(b, 6).value), Extent(Be16(b, 8).value, Be16(b, 10).value)]
  }

  /** Later records for a key replace earlier ones. */
  function LoadRecords(recs: seq<Record>, ov: Overflow): Option<(Overflow, seq<Problem>)>
    decreases |recs|
  {
    if recs == [] then Some((ov, []))
    else
      var p := ParseRecord(recs[0]);
      if p.None? then None
      else
        var rest := LoadRecords(recs[1..], if p.value.0.Entry? then ov[p.value.0.key := p.value.0.exts] else ov);
        if rest.None? then None else Some((rest.value.0, p.value.1 + rest.value.1))
  }

  datatype Header = Header(first: nat) | HeaderProblem(p: Problem) | HeaderCrash

  /** The header node's fields, read in the order of the checks. */
  function ReadHeader(nodes: seq<Node>, name: string): Header {
    if |nodes| == 0 || |nodes[0]| < 9 then HeaderCrash
    else if nodes[0][8] != 1 then HeaderProblem(NotHeader(name, nodes[0][8]))
    else if |nodes[0]| < 40 then HeaderCrash
    else if Be16(nodes[0], 32).value != NODE_SIZE then HeaderProblem(BadNodeSize(name, Be16(nodes[0], 32).value))
    else (Be32Range(nodes[0], 24); Header(Be32(nodes[0], 24).value))
  }

  datatype Loaded = Loaded(overflow: Overflow, problems: seq<Problem>) | LoadCrash

  function EndProblems(name: string, e: End): seq<Problem> {
    if e.Bad? then [BadLink(name, e.node)] else []
  }

  /** load_overflow on the bytes of the extents tree. */
  function LoadTree(raw: seq<byte>, name: string): Loaded {
    var nodes := Nodes(raw);
    match ReadHeader(nodes, name)
    case HeaderCrash => LoadCrash
    case HeaderProblem(p) => Loaded(map[], [p])
    case Header(first) =>
      var w := Follow(nodes, first, {});
      var l := LoadRecords(w.records, map[]);
      if w.end.Crash? || l.None? then LoadCrash
      else Loaded(l.value.0, l.value.1 + EndProblems(name, w.end))
  }

  /** The walk as written: a `seen` set, a current node, records collected in order. */
  method WalkLeaves(nodes: seq<Node>, first: nat) returns (records: seq<Record>, end: End)
    ensures end == Follow(nodes, first, {}).end
    ensures end != Crash ==> records == Follow(nodes, first, {}).records
  {
    hide NodeRecords, Link, Unseen;
    var seen: set<nat> := {};
    var n: nat := first;
    records := [];
    ghost var goal := Follow(nodes, first, {});
    while n != 0
      invariant goal.end == Follow(nodes, n, seen).end
      invariant goal.end != Crash ==> goal.records == records + Follow(nodes, n, seen).records
      decreases |Unseen(|nodes|, seen)|
    {
      if n in seen || n >= |nodes| {
        return records, Bad(n);
      }
      SeenShrinks(|nodes|, seen, n);
      seen := seen + {n};
      var recs := NodeRecords(nodes[n]);
      var next := Link(nodes[n]);
      if recs.None? || next.None? {
        return records, Crash;
      }
      ghost var rest := Follow(nodes, next.value, seen).records;
      assert records + (recs.value + rest) == records + recs.value + rest;
      records := records + recs.value;
      n := next.value;
    }
    end := Clean;
  }

  /** The consumer loop of load_overflow. */
  method CollectOverflow(recs: seq<Record>) returns (ok: bool, ov: Overflow, problems: seq<Problem>)
    ensures ok == LoadRecords(recs, map[]).Some?
    ensures ok ==> LoadRecords(recs, map[]).value == (ov, problems)
  {
    ov, problems := map[], [];
    var i := 0;
    ghost var goal := LoadRecords(recs, map[]);
    assert recs[0..] == recs;
    while i < |recs|
      invariant 0 <= i <= |recs|
      invariant goal.Some? == LoadRecords(recs[i..], ov).Some?
      invariant goal.Some? ==> goal.value.0 == LoadRecords(recs[i..], ov).value.0
      invariant goal.Some? ==> goal.value.1 == problems + LoadRecords(recs[i..], ov).value.1
    {
      assert recs[i..][0] == recs[i] && recs[i..][1..] == recs[i + 1..];
      var p := ParseRecord(recs[i]);
      if p.None? { return false, ov, problems; }
      problems := problems + p.value.1;
      if p.value.0.Entry? { ov := ov[p.value.0.key := p.value.0.exts]; }
      i := i + 1;
    }
    assert recs[i..] == [] && problems + [] == problems;
    ok := true;
  }

  /** load_overflow: reads the extents tree through an overflow map that is
      still empty, then files its records. False is an exception. */
  method LoadOverflow(c: Checker, ext3: ExtentRecord, size: nat) returns (ok: bool)
    requires c.volume.Valid() && c.overflow == map[]
    modifies c
    ensures var f := ForkBytes(c.volume, map[], ext3, size, 3, 0);
            if !f.Done? then ok && c.overflow == map[] && c.problems == old(c.problems) + [ForkProblem("extents B-tree file", f)]
            else match LoadTree(f.bytes, "extents")
                 case LoadCrash => !ok
                 case Loaded(ov, ps) => ok && c.overflow == ov && c.problems == old(c.problems) + ps
  {
    hide ForkBytes, Nodes, ReadHeader, Follow, LoadRecords;
    var raw := c.ReadFork(ext3, size, 3, 0, "extents B-tree file");
    if raw.None? { return true; }
    var nodes := Nodes(raw.value);
    match ReadHeader(nodes, "extents")
    case HeaderCrash => ok := false;
    case HeaderProblem(p) =>
      c.problems := c.problems + [p];
      ok := true;
    case Header(first) =>
      var records, end := WalkLeaves(nodes, first);
      if end == Crash { return false; }
      var loaded, ov, ps := CollectOverflow(records);
      if !loaded { return false; }
      c.overflow := ov;
      c.problems := c.problems + (ps + EndProblems("extents", end));
      ok := true;
  }
}
