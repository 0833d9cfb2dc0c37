/** Live ranges of a whole function: the scan of every block, then compression. */
module LiveRanges {
  import opened LiveRange
  import opened LiveScan
  import opened PointCompression

  // ----- all blocks -----

  /** Everything the scan of the first `n` blocks of `order` established. */
  ghost predicate Scanned(st: Scan, blocks: seq<Block>, order: seq<nat>, n: nat, physical: nat, crossed: set<nat>,
                          kills: map<nat, set<nat>>, visits: set<Visit>)
    requires n <= |order| && forall k :: 0 <= k < |order| ==> order[k] < |blocks|
  {
    && Scanning(st, {}) && st.living == {} && Crosses(st, visits)
    && (forall j :: 0 <= j < n && !Skipped(blocks[order[j]]) ==> BlockDone(st, blocks[order[j]], order[j], physical, crossed, kills))
    && (forall v :: v in visits ==> VisitOf(blocks, order[..n], v))
    && (forall r :: r in crossed ==> CrossesSome(blocks, order[..n], physical, r))
    && (forall q: nat :: q < st.point ==> SomePoint(st, q, blocks, order, n))
  }

  /** The point is one of the first `n` blocks'. */
  ghost predicate SomePoint(st: Scan, q: nat, blocks: seq<Block>, order: seq<nat>, n: nat)
    requires n <= |order| && forall k :: 0 <= k < |order| ==> order[k] < |blocks|
  {
    exists j :: 0 <= j < n && !Skipped(blocks[order[j]]) && BlockPoint(st, q, blocks[order[j]])
  }

  lemma MorePoints(st: Scan, st': Scan, blocks: seq<Block>, order: seq<nat>, n: nat, next: nat)
    requires n < next == n + 1 <= |order| && forall k :: 0 <= k < |order| ==> order[k] < |blocks|
    requires Keeps(st, st', NOWHERE) && forall q: nat :: q < st.point ==> SomePoint(st, q, blocks, order, n)
    requires forall q: nat :: st.point <= q < st'.point ==> !Skipped(blocks[order[n]]) && BlockPoint(st', q, blocks[order[n]])
    ensures forall q: nat :: q < st'.point ==> SomePoint(st', q, blocks, order, next)
  {
    hide Keeps, BlockPoint, Skipped;
    forall q: nat | q < st'.point
      ensures SomePoint(st', q, blocks, order, next)
    {
      if q < st.point {
        assert SomePoint(st, q, blocks, order, n);
        var j :| 0 <= j < n && !Skipped(blocks[order[j]]) && BlockPoint(st, q, blocks[order[j]]);
        KeepsBlockPoint(st, st', q, blocks[order[j]], NOWHERE);
      } else {
        assert BlockPoint(st', q, blocks[order[n]]);
      }
    }
  }

  ghost predicate BlockDone(st: Scan, b: Block, id: nat, physical: nat, crossed: set<nat>, kills: map<nat, set<nat>>)
  {
    && BodyShares(st, b.body, b.out, 0, id) && Shares(st, b.out, id) && Shares(st, b.live, id)
    && LiveAt(b.body, 0, b.out) == b.live && Crossed(st, b, id)
    && CrossedFrom(b.body, 0, b.out, physical) <= crossed
    && id in kills && kills[id] == Virtuals(ReferencedFrom(b.body, 0), physical)
  }

  /** What lives through the block without a reference has a whole-block range for it. */
  ghost predicate Crossed(st: Scan, b: Block, id: nat)
  {
    forall r :: r in b.live * b.out && r !in ReferencedFrom(b.body, 0) ==> MarkedWith(st, r, id)
  }

  ghost predicate MarkedWith(st: Scan, r: nat, id: nat)
  {
    r < |st.ranges| && exists k :: 0 <= k < |st.ranges[r]| && st.ranges[r][k].blocks == [id]
  }

  lemma MarkStays(st: Scan, st': Scan, r: nat, id: nat)
    requires Keeps(st, st', NOWHERE) && MarkedWith(st, r, id)
    ensures MarkedWith(st', r, id)
  {
    var k :| 0 <= k < |st.ranges[r]| && st.ranges[r][k].blocks == [id];
    assert Grows(st.ranges[r], r in st.living, st.point, st'.ranges[r], r in st'.living, NOWHERE);
    assert st'.ranges[r][k].blocks == [id];
  }

  lemma VisitedCrossed(st: Scan, b: Block, v: Visit)
    requires Visited(st, b, v)
    ensures Crossed(st, b, v.block)
  {
    hide ReferencedFrom;
    forall r | r in b.live * b.out && r !in ReferencedFrom(b.body, 0)
      ensures MarkedWith(st, r, v.block)
    {
      assert CrossedIn(st, r, Raw(v.begin, v.finish, [v.block]));
    }
  }

  ghost predicate VisitOf(blocks: seq<Block>, done: seq<nat>, v: Visit)
  {
    && v.block in done && v.block < |blocks| && !Skipped(blocks[v.block])
    && v.referenced == ReferencedFrom(blocks[v.block].body, 0)
    && v.through == blocks[v.block].live * blocks[v.block].out
  }

  ghost predicate CrossesSome(blocks: seq<Block>, done: seq<nat>, physical: nat, r: nat)
  {
    exists b :: b in done && b < |blocks| && r in CrossedFrom(blocks[b].body, 0, blocks[b].out, physical)
  }

  lemma BlockStays(st: Scan, st': Scan, b: Block, id: nat, physical: nat, crossed: set<nat>, crossed': set<nat>,
                   kills: map<nat, set<nat>>, other: nat, kill: set<nat>)
    requires BlockDone(st, b, id, physical, crossed, kills) && Keeps(st, st', NOWHERE) && crossed <= crossed' && id != other
    ensures BlockDone(st', b, id, physical, crossed', kills[other := kill])
  {
    hide BodyShares, Shares, MarkedWith, Keeps, ReferencedFrom, CrossedFrom, LiveAt;
    KeepsBody(st, st', b.body, b.out, 0, NOWHERE, id);
    KeepsShares(st, st', b.out, NOWHERE, id);
    KeepsShares(st, st', b.live, NOWHERE, id);
    forall r | r in b.live * b.out && r !in ReferencedFrom(b.body, 0)
      ensures MarkedWith(st', r, id)
    {
      MarkStays(st, st', r, id);
    }
  }

  /** New points of the first `n` blocks. */
  function OrderTicks(blocks: seq<Block>, order: seq<nat>, n: nat): nat
    requires n <= |order| && forall k :: 0 <= k < |order| ==> order[k] < |blocks|
  {
    if n == 0 then 0
    else OrderTicks(blocks, order, n - 1) + if Skipped(blocks[order[n - 1]]) then 0 else BlockTicks(blocks[order[n - 1]])
  }

  lemma {:induction false} OrderTicksGrow(blocks: seq<Block>, order: seq<nat>, n: nat, m: nat)
    requires n <= m <= |order| && forall k :: 0 <= k < |order| ==> order[k] < |blocks|
    ensures OrderTicks(blocks, order, n) <= OrderTicks(blocks, order, m)
    decreases m
  {
    if n < m {
      OrderTicksGrow(blocks, order, n, m - 1);
    }
  }

  /** The live-in sets agree with the instructions, and the points suffice. */
  ghost predicate Scannable(blocks: seq<Block>, order: seq<nat>)
    requires forall k :: 0 <= k < |order| ==> order[k] < |blocks|
  {
    && (forall j :: 0 <= j < |order| && !Skipped(blocks[order[j]]) ==>
          LiveAt(blocks[order[j]].body, 0, blocks[order[j]].out) == blocks[order[j]].live)
    && OrderTicks(blocks, order, |order|) <= POINT_LIMIT
  }

  method ScanBlocks(registers: nat, physical: nat, blocks: seq<Block>, order: seq<nat>)
      returns (ok: bool, st: Scan, crossed: set<nat>, kills: map<nat, set<nat>>, ghost visits: set<Visit>)
    requires forall k :: 0 <= k < |order| ==> order[k] < |blocks|
    requires forall j, k :: 0 <= j < k < |order| ==> order[j] != order[k]
    requires forall b :: 0 <= b < |blocks| ==> ValidBlock(blocks[b], registers)
    ensures ok <==> Scannable(blocks, order)
    ensures ok ==> |st.ranges| == registers && Scanned(st, blocks, order, |order|, physical, crossed, kills, visits)
    ensures ok ==> st.point <= POINT_LIMIT
  {
    hide Shares, Crossed, Visited, BlockTicks, Skipped, BlockPoint, SomePoint, Scanning, Crosses, BlockDone, VisitOf, CrossesSome, ValidBlock, Keeps, BodyShares, LiveAt, CrossedFrom, ReferencedFrom;
    ok, st, crossed, kills, visits := true, Scan(seq(registers, _ => []), {}, {}, 0), {}, map[], {};
    StartScan(registers, blocks, order, physical);
    for n := 0 to |order|
      invariant ok && |st.ranges| == registers && st.point == OrderTicks(blocks, order, n) <= POINT_LIMIT
      invariant forall j :: 0 <= j < n && !Skipped(blocks[order[j]]) ==>
                  LiveAt(blocks[order[j]].body, 0, blocks[order[j]].out) == blocks[order[j]].live
      invariant Scanned(st, blocks, order, n, physical, crossed, kills, visits)
    {
      var b := order[n];
      ghost var before, crossedBefore, killsBefore, visitsBefore := st, crossed, kills, visits;
      if !Skipped(blocks[b]) {
        var kill;
        ghost var visit;
        ok, st, crossed, kill, visit := ScanBlock(st, blocks[b], b, physical, crossed, visits);
        OrderTicksGrow(blocks, order, n + 1, |order|);
        if !ok {
          return;
        }
        kills := kills[b := kill];
        visits := visits + {visit};
        VisitedCrossed(st, blocks[b], visit);
        VisitedFields(st, blocks[b], visit);
        KeepsSizes(before, st);
        NextScanned(before, st, blocks, order, n, physical, crossedBefore, crossed, killsBefore, kill, visitsBefore, visits);
      } else {
        PassedOver(st, blocks, order, n, physical, crossed, kills, visits);
      }
    }
  }

  lemma VisitedFields(st: Scan, b: Block, v: Visit)
    requires Visited(st, b, v)
    ensures v.referenced == ReferencedFrom(b.body, 0) && v.through == b.live * b.out
  {
  }

  lemma KeepsSizes(st: Scan, st': Scan)
    requires Keeps(st, st', NOWHERE)
    ensures |st'.ranges| == |st.ranges|
  {
  }

  lemma StartScan(registers: nat, blocks: seq<Block>, order: seq<nat>, physical: nat)
    requires forall k :: 0 <= k < |order| ==> order[k] < |blocks|
    ensures Scanned(Scan(seq(registers, _ => []), {}, {}, 0), blocks, order, 0, physical, {}, map[], {})
  {
  }

  lemma PassedOver(st: Scan, blocks: seq<Block>, order: seq<nat>, n: nat, physical: nat, crossed: set<nat>,
                   kills: map<nat, set<nat>>, visits: set<Visit>)
    requires n < |order| && forall k :: 0 <= k < |order| ==> order[k] < |blocks|
    requires Scanned(st, blocks, order, n, physical, crossed, kills, visits) && Skipped(blocks[order[n]])
    ensures Scanned(st, blocks, order, n + 1, physical, crossed, kills, visits)
  {
    hide Scanning, Crosses, BlockDone, LiveAt, CrossedFrom, ReferencedFrom, Skipped, Keeps, BlockPoint, SomePoint;
    assert order[..n + 1] == order[..n] + [order[n]];
    assert Keeps(st, st, NOWHERE) by { FollowsSelf(st); FollowsParts(st, st); }
    MorePoints(st, st, blocks, order, n, n + 1);
  }

  lemma NextScanned(st: Scan, st': Scan, blocks: seq<Block>, order: seq<nat>, n: nat, physical: nat, crossed: set<nat>,
                    crossed': set<nat>, kills: map<nat, set<nat>>, kill: set<nat>, visits: set<Visit>, visits': set<Visit>)
    requires n < |order| && forall k :: 0 <= k < |order| ==> order[k] < |blocks|
    requires forall j, k :: 0 <= j < k < |order| ==> order[j] != order[k]
    requires Scanned(st, blocks, order, n, physical, crossed, kills, visits)
    requires Scanning(st', {}) && st'.living == {} && Keeps(st, st', NOWHERE) && Crosses(st', visits')
    requires var b := blocks[order[n]];
             && !Skipped(b)
             && BodyShares(st', b.body, b.out, 0, order[n]) && Shares(st', b.out, order[n]) && Shares(st', b.live, order[n])
             && LiveAt(b.body, 0, b.out) == b.live && Crossed(st', b, order[n])
             && crossed' == crossed + CrossedFrom(b.body, 0, b.out, physical)
             && kill == Virtuals(ReferencedFrom(b.body, 0), physical)
             && exists begin: nat, finish: nat ::
                  visits' == visits + {Visit(order[n], begin, finish, ReferencedFrom(b.body, 0), b.live * b.out)}
    requires forall q: nat :: st.point <= q < st'.point ==> BlockPoint(st', q, blocks[order[n]])
    ensures Scanned(st', blocks, order, n + 1, physical, crossed', kills[order[n] := kill], visits')
  {
    hide Shares, Crossed, Scanning, Crosses, Keeps, BodyShares, LiveAt, CrossedFrom, ReferencedFrom, Skipped, BlockPoint, SomePoint;
    MorePoints(st, st', blocks, order, n, n + 1);
    assert order[..n + 1] == order[..n] + [order[n]];
    forall j | 0 <= j < n + 1 && !Skipped(blocks[order[j]])
      ensures BlockDone(st', blocks[order[j]], order[j], physical, crossed', kills[order[n] := kill])
    {
      if j < n {
        BlockStays(st, st', blocks[order[j]], order[j], physical, crossed, crossed', kills, order[n], kill);
      }
    }
    forall r | r in crossed'
      ensures CrossesSome(blocks, order[..n + 1], physical, r)
    {
      if r in crossed {
        assert CrossesSome(blocks, order[..n], physical, r);
      } else {
        assert order[n] in order[..n + 1];
      }
    }
  }

  // ----- the finished ranges -----

  function Finished(r: Raw): Range
    requires 0 <= r.finish
  {
    Range(r.start, r.finish, r.blocks)
  }

  /** Last range first. */
  ghost predicate Reverses(rs: seq<Raw>, ranges: seq<Range>)
  {
    && |ranges| == |rs|
    && forall k :: 0 <= k < |rs| ==> 0 <= rs[|rs| - 1 - k].finish && ranges[k] == Finished(rs[|rs| - 1 - k])
  }

  method Reverse(rs: seq<Raw>, ghost point: nat) returns (ranges: seq<Range>)
    requires RangesOk(rs, false, point)
    ensures Reverses(rs, ranges) && Descending(ranges, point + 1)
  {
    ranges := [];
    var k := |rs|;
    while 0 < k
      invariant 0 <= k <= |rs| && |ranges| == |rs| - k
      invariant forall j :: 0 <= j < |ranges| ==> 0 <= rs[|rs| - 1 - j].finish && ranges[j] == Finished(rs[|rs| - 1 - j])
    {
      k := k - 1;
      ranges := ranges + [Finished(rs[k])];
    }
  }

  method FinishAll(st: Scan) returns (storage: seq<seq<Range>>)
    requires Good(st) && st.living == {}
    ensures |storage| == |st.ranges| && AllDescending(storage, st.point + 1)
    ensures forall r :: 0 <= r < |storage| ==> Reverses(st.ranges[r], storage[r])
  {
    hide RangesOk, Reverses, Descending;
    storage := [];
    for r := 0 to |st.ranges|
      invariant |storage| == r
      invariant forall c :: 0 <= c < r ==> Reverses(st.ranges[c], storage[c]) && Descending(storage[c], st.point + 1)
    {
      assert RangesOk(st.ranges[r], false, st.point);
      var ranges := Reverse(st.ranges[r], st.point);
      storage := storage + [ranges];
    }
  }

  /** A range of `r` holds `q`; if it crosses blocks, `mark` is one of them. */
  ghost predicate CoveredAt(ranges: seq<seq<Range>>, r: nat, q: nat, mark: nat)
  {
    r < |ranges| && exists k :: 0 <= k < |ranges[r]| && Holds(ranges[r][k], q, mark)
  }

  ghost predicate Holds(range: Range, q: nat, mark: nat)
  {
    Covers(range, q) && (range.blocks == [] || mark in range.blocks)
  }

  /** All registers of `s` have such ranges over one point. */
  ghost predicate Together(ranges: seq<seq<Range>>, s: set<nat>, mark: nat)
  {
    exists q: nat :: TogetherAt(ranges, s, q, mark)
  }

  ghost predicate TogetherAt(ranges: seq<seq<Range>>, s: set<nat>, q: nat, mark: nat)
  {
    forall r :: r in s ==> CoveredAt(ranges, r, q, mark)
  }

  lemma SharesTogether(st: Scan, storage: seq<seq<Range>>, s: set<nat>, mark: nat)
    requires Good(st) && st.living == {} && |storage| == |st.ranges|
    requires forall r :: 0 <= r < |storage| ==> Reverses(st.ranges[r], storage[r])
    requires Shares(st, s, mark)
    ensures Together(storage, s, mark)
  {
    var q: nat :| CommonPoint(st, s, q, mark);
    forall r | r in s
      ensures CoveredAt(storage, r, q, mark)
    {
      assert Cov(st, r, q, mark);
      var rs := st.ranges[r];
      var k :| 0 <= k < |rs| && RangeHas(rs, r in st.living, st.point, k, q) && (rs[k].blocks == [] || rs[k].blocks == [mark]);
      var j := |rs| - 1 - k;
      assert storage[r][j] == Finished(rs[k]);
      assert Holds(storage[r][j], q, mark);
    }
    assert TogetherAt(storage, s, q, mark);
  }

  ghost predicate CoversStretch(ranges: seq<Range>, from: nat, to: nat, mark: nat)
  {
    exists k :: 0 <= k < |ranges| && from <= to && Holds(ranges[k], from, mark) && Holds(ranges[k], to, mark)
  }

  /** A point shared by registers can be moved down to where one of them begins. */
  lemma SharedBirth(storage: seq<seq<Range>>, s: set<nat>, q: nat, mark: nat) returns (e: nat)
    requires s != {} && TogetherAt(storage, s, q, mark)
    ensures Birth(storage, e) && TogetherAt(storage, s, e, mark)
  {
    var todo := s;
    e := 0;
    while todo != {}
      invariant todo <= s && e <= q
      invariant todo == s || Birth(storage, e)
      invariant forall r :: r in s - todo ==> r < |storage| && CoversStretch(storage[r], e, q, mark)
      decreases todo
    {
      var r :| r in todo;
      assert CoveredAt(storage, r, q, mark);
      var k :| 0 <= k < |storage[r]| && Holds(storage[r][k], q, mark);
      assert Birth(storage, storage[r][k].start);
      var e' := if todo == s || e <= storage[r][k].start then storage[r][k].start else e;
      forall c | c in s - (todo - {r})
        ensures c < |storage| && CoversStretch(storage[c], e', q, mark)
      {
        if c == r {
          assert Holds(storage[r][k], e', mark);
        } else {
          var j :| 0 <= j < |storage[c]| && Holds(storage[c][j], e, mark) && Holds(storage[c][j], q, mark);
          assert Holds(storage[c][j], e', mark);
        }
      }
      e := e';
      todo := todo - {r};
    }
    assert forall r :: r in s ==> r in s - todo;
  }

  // ----- what the ranges promise -----

  /** Registers written, clobbered or read share a live point with everything that is
      live beside them. */
  ghost predicate InstTogether(ranges: seq<seq<Range>>, i: Inst, after: set<nat>, block: nat)
  {
    && Together(ranges, after + Regs(i.defs), block)
    && (i.call ==> Together(ranges, AroundCall(i, after), block))
    && Together(ranges, AtCall(i, after) + Regs(i.uses) + Regs(i.early), block)
  }

  lemma TogetherLess(ranges: seq<seq<Range>>, s: set<nat>, t: set<nat>, mark: nat)
    requires Together(ranges, s, mark) && t <= s
    ensures Together(ranges, t, mark)
  {
    hide CoveredAt;
    var q: nat :| TogetherAt(ranges, s, q, mark);
    assert TogetherAt(ranges, t, q, mark);
  }

  ghost predicate BlockTogether(ranges: seq<seq<Range>>, b: Block, block: nat)
  {
    && LiveAt(b.body, 0, b.out) == b.live
    && Together(ranges, b.live, block) && Together(ranges, b.out, block)
    && forall k :: 0 <= k < |b.body| ==> InstTogether(ranges, b.body[k], LiveAt(b.body, k + 1, b.out), block)
  }

  // ----- and no more -----

  /** Both registers are touched or alive at one step of the instruction: where its results
      are written, where it calls, or where its operands are read and early clobbers
      written. */
  ghost predicate InstClash(i: Inst, after: set<nat>, r: nat, c: nat)
  {
    || {r, c} <= after + Regs(i.defs)
    || (i.call && {r, c} <= AroundCall(i, after))
    || {r, c} <= AtCall(i, after) + Regs(i.uses) + Regs(i.early)
  }

  ghost predicate BlockClash(b: Block, r: nat, c: nat)
  {
    || {r, c} <= b.live || {r, c} <= b.out
    || exists k :: 0 <= k < |b.body| && InstClash(b.body[k], LiveAt(b.body, k + 1, b.out), r, c)
  }

  ghost predicate Clash(blocks: seq<Block>, order: seq<nat>, r: nat, c: nat)
    requires forall k :: 0 <= k < |order| ==> order[k] < |blocks|
  {
    exists j :: 0 <= j < |order| && (blocks[order[j]].body != [] || blocks[order[j]].labelled) && BlockClash(blocks[order[j]], r, c)
  }

  /** Ranges of two registers meet exactly when both are live, or one is written while the
      other is live, somewhere in the function. */
  ghost predicate Exact(registers: nat, blocks: seq<Block>, order: seq<nat>, ranges: seq<seq<Range>>)
    requires forall k :: 0 <= k < |order| ==> order[k] < |blocks|
  {
    |ranges| == registers &&
    forall r: nat, c: nat :: r < registers && c < registers ==> (Interfere(ranges[r], ranges[c]) <==> Clash(blocks, order, r, c))
  }

  /** Registers together over a point belong to one step. */
  lemma PointClash(st: Scan, q: nat, b: Block, r: nat, c: nat)
    requires BlockPoint(st, q, b) && r < |st.ranges| && c < |st.ranges|
    requires Spans(st.ranges[r], r in st.living, st.point, q) && Spans(st.ranges[c], c in st.living, st.point, q)
    ensures BlockClash(b, r, c)
  {
    hide Spans, LiveAt, AroundCall, AtCall;
    if BodyPoint(st, q, b.body, b.out, 0) {
      var k :| 0 <= k < |b.body| && InstPoint(st, q, b.body[k], LiveAt(b.body, k + 1, b.out));
      assert InstClash(b.body[k], LiveAt(b.body, k + 1, b.out), r, c);
    }
  }

  lemma FinishedSpans(st: Scan, storage: seq<seq<Range>>, r: nat, k: nat, q: nat)
    requires st.living == {} && |storage| == |st.ranges| && r < |storage| && Reverses(st.ranges[r], storage[r])
    requires k < |storage[r]| && Covers(storage[r][k], q)
    ensures Spans(st.ranges[r], r in st.living, st.point, q)
  {
    var n := |st.ranges[r]| - 1 - k;
    assert storage[r][|st.ranges[r]| - 1 - n] == Finished(st.ranges[r][n]);
    assert RangeHas(st.ranges[r], false, st.point, n, q);
  }

  lemma MeetingClash(st: Scan, storage: seq<seq<Range>>, blocks: seq<Block>, order: seq<nat>, physical: nat, crossed: set<nat>,
                     kills: map<nat, set<nat>>, visits: set<Visit>, r: nat, c: nat)
    requires forall k :: 0 <= k < |order| ==> order[k] < |blocks|
    requires Scanned(st, blocks, order, |order|, physical, crossed, kills, visits)
    requires |storage| == |st.ranges| && AllDescending(storage, st.point) && r < |storage| && c < |storage|
    requires Reverses(st.ranges[r], storage[r]) && Reverses(st.ranges[c], storage[c])
    requires Interfere(storage[r], storage[c])
    ensures Clash(blocks, order, r, c)
  {
    hide Scanning, Crosses, BlockDone, VisitOf, CrossesSome, BlockPoint, Reverses, BlockClash, Spans;
    var k, m :| 0 <= k < |storage[r]| && 0 <= m < |storage[c]| && Meet(storage[r][k], storage[c][m]);
    assert Descending(storage[r], st.point) && Descending(storage[c], st.point);
    var q := if storage[r][k].start <= storage[c][m].start then storage[c][m].start else storage[r][k].start;
    FinishedSpans(st, storage, r, k, q);
    FinishedSpans(st, storage, c, m, q);
    assert SomePoint(st, q, blocks, order, |order|);
    var j :| 0 <= j < |order| && !Skipped(blocks[order[j]]) && BlockPoint(st, q, blocks[order[j]]);
    PointClash(st, q, blocks[order[j]], r, c);
  }

  lemma TogetherMeet(ranges: seq<seq<Range>>, s: set<nat>, mark: nat, r: nat, c: nat)
    requires Together(ranges, s, mark) && {r, c} <= s
    ensures r < |ranges| && c < |ranges| && Interfere(ranges[r], ranges[c])
  {
    var q: nat :| TogetherAt(ranges, s, q, mark);
    assert r in s && c in s;
    assert CoveredAt(ranges, r, q, mark) && CoveredAt(ranges, c, q, mark);
    var k :| 0 <= k < |ranges[r]| && Holds(ranges[r][k], q, mark);
    var m :| 0 <= m < |ranges[c]| && Holds(ranges[c][m], q, mark);
    assert Meet(ranges[r][k], ranges[c][m]);
  }

  lemma ClashMeets(ranges: seq<seq<Range>>, b: Block, block: nat, r: nat, c: nat)
    requires BlockTogether(ranges, b, block) && BlockClash(b, r, c)
    ensures r < |ranges| && c < |ranges| && Interfere(ranges[r], ranges[c])
  {
    hide Together, LiveAt, AroundCall, AtCall, Interfere;
    if {r, c} <= b.live {
      TogetherMeet(ranges, b.live, block, r, c);
    } else if {r, c} <= b.out {
      TogetherMeet(ranges, b.out, block, r, c);
    } else {
      var k :| 0 <= k < |b.body| && InstClash(b.body[k], LiveAt(b.body, k + 1, b.out), r, c);
      var i, after := b.body[k], LiveAt(b.body, k + 1, b.out);
      assert InstTogether(ranges, i, after, block);
      if {r, c} <= after + Regs(i.defs) {
        TogetherMeet(ranges, after + Regs(i.defs), block, r, c);
      } else if i.call && {r, c} <= AroundCall(i, after) {
        TogetherMeet(ranges, AroundCall(i, after), block, r, c);
      } else {
        TogetherMeet(ranges, AtCall(i, after) + Regs(i.uses) + Regs(i.early), block, r, c);
      }
    }
  }

  lemma SomeClashMeets(ranges: seq<seq<Range>>, blocks: seq<Block>, order: seq<nat>, r: nat, c: nat)
    requires forall k :: 0 <= k < |order| ==> order[k] < |blocks|
    requires forall j :: 0 <= j < |order| && !Skipped(blocks[order[j]]) ==> BlockTogether(ranges, blocks[order[j]], order[j])
    requires r < |ranges| && c < |ranges| && Clash(blocks, order, r, c)
    ensures Interfere(ranges[r], ranges[c])
  {
    hide BlockTogether, BlockClash, Interfere;
    var j :| 0 <= j < |order| && (blocks[order[j]].body != [] || blocks[order[j]].labelled) && BlockClash(blocks[order[j]], r, c);
    assert !Skipped(blocks[order[j]]);
    ClashMeets(ranges, blocks[order[j]], order[j], r, c);
  }

  /** A register lives through a block and no instruction there refers to it. */
  ghost predicate OnlyCrosses(blocks: seq<Block>, order: seq<nat>, r: nat, b: nat)
  {
    && b in order && b < |blocks| && !Skipped(blocks[b])
    && r in blocks[b].live * blocks[b].out && r !in ReferencedFrom(blocks[b].body, 0)
  }

  ghost predicate RangesFor(registers: nat, physical: nat, blocks: seq<Block>, order: seq<nat>, ranges: seq<seq<Range>>,
                            count: nat, crossed: set<nat>)
    requires forall k :: 0 <= k < |order| ==> order[k] < |blocks|
  {
    && |ranges| == registers && AllDescending(ranges, count)
    && (forall j :: 0 <= j < |order| && !Skipped(blocks[order[j]]) ==> BlockTogether(ranges, blocks[order[j]], order[j]))
    && (forall r: nat, b: nat :: r < registers ==> (Mentions(ranges[r], b) <==> OnlyCrosses(blocks, order, r, b)))
    && (forall r :: r in crossed <==> CrossesSome(blocks, order, physical, r))
  }

  /** Compression takes every event, with what covers it, to its new point. */
  ghost predicate EventsKept(storage: seq<seq<Range>>, ranges: seq<seq<Range>>, map_: seq<nat>)
  {
    && |ranges| == |storage|
    && forall r: nat, k: nat, q: nat :: EventOn(storage, r, k, q) ==> q < |map_| && HasPart(ranges[r], storage[r][k], map_[q])
  }

  lemma TogetherKept(storage: seq<seq<Range>>, ranges: seq<seq<Range>>, map_: seq<nat>, s: set<nat>, mark: nat)
    requires Together(storage, s, mark) && EventsKept(storage, ranges, map_)
    ensures Together(ranges, s, mark)
  {
    hide Birth, Death, HoldsPart;
    if s != {} {
      var q: nat :| TogetherAt(storage, s, q, mark);
      var e := SharedBirth(storage, s, q, mark);
      var r :| r in s;
      assert CoveredAt(storage, r, e, mark);
      var k :| 0 <= k < |storage[r]| && Holds(storage[r][k], e, mark);
      assert EventOn(storage, r, k, e);
      forall r | r in s
        ensures CoveredAt(ranges, r, map_[e], mark)
      {
        PartHolds(storage, ranges, map_, r, e, mark);
      }
      assert TogetherAt(ranges, s, map_[e], mark);
    } else {
      assert TogetherAt(ranges, s, 0, mark);
    }
  }

  lemma PartHolds(storage: seq<seq<Range>>, ranges: seq<seq<Range>>, map_: seq<nat>, r: nat, e: nat, mark: nat)
    requires EventsKept(storage, ranges, map_) && Birth(storage, e) && CoveredAt(storage, r, e, mark)
    ensures e < |map_| && CoveredAt(ranges, r, map_[e], mark)
  {
    hide Birth, Death;
    var k :| 0 <= k < |storage[r]| && Holds(storage[r][k], e, mark);
    assert EventOn(storage, r, k, e);
    var j :| 0 <= j < |ranges[r]| && HoldsPart(ranges[r][j], storage[r][k], map_[e]);
    assert Holds(ranges[r][j], map_[e], mark);
  }

  lemma InstKept(st: Scan, storage: seq<seq<Range>>, ranges: seq<seq<Range>>, map_: seq<nat>, i: Inst, after: set<nat>, block: nat)
    requires Good(st) && st.living == {} && |storage| == |st.ranges|
    requires forall r :: 0 <= r < |storage| ==> Reverses(st.ranges[r], storage[r])
    requires EventsKept(storage, ranges, map_) && InstShares(st, i, after, block)
    ensures InstTogether(ranges, i, after, block)
  {
    hide Good, Shares, Together, EventsKept, Reverses, AtCall, AfterDefs, AroundCall;
    SharesTogether(st, storage, after + Regs(i.defs), block);
    TogetherKept(storage, ranges, map_, after + Regs(i.defs), block);
    if i.call {
      SharesTogether(st, storage, AroundCall(i, after), block);
      TogetherKept(storage, ranges, map_, AroundCall(i, after), block);
    }
    SharesTogether(st, storage, AtCall(i, after) + Regs(i.uses) + Regs(i.early), block);
    TogetherKept(storage, ranges, map_, AtCall(i, after) + Regs(i.uses) + Regs(i.early), block);
  }

  lemma BlockKept(st: Scan, storage: seq<seq<Range>>, ranges: seq<seq<Range>>, map_: seq<nat>, b: Block, block: nat)
    requires Good(st) && st.living == {} && |storage| == |st.ranges|
    requires forall r :: 0 <= r < |storage| ==> Reverses(st.ranges[r], storage[r])
    requires EventsKept(storage, ranges, map_)
    requires BodyShares(st, b.body, b.out, 0, block) && LiveAt(b.body, 0, b.out) == b.live
    requires Shares(st, b.live, block) && Shares(st, b.out, block)
    ensures BlockTogether(ranges, b, block)
  {
    hide Together, Shares, Good, InstShares, InstTogether, LiveAt, EventsKept, Reverses;
    forall k | 0 <= k < |b.body|
      ensures InstTogether(ranges, b.body[k], LiveAt(b.body, k + 1, b.out), block)
    {
      InstKept(st, storage, ranges, map_, b.body[k], LiveAt(b.body, k + 1, b.out), block);
    }
    SharesTogether(st, storage, b.live, block);
    TogetherKept(storage, ranges, map_, b.live, block);
    SharesTogether(st, storage, b.out, block);
    TogetherKept(storage, ranges, map_, b.out, block);
  }

  lemma MentionsCrossed(st: Scan, storage: seq<seq<Range>>, blocks: seq<Block>, order: seq<nat>, visits: set<Visit>, r: nat, b: nat)
    requires |storage| == |st.ranges| && r < |storage| && Reverses(st.ranges[r], storage[r])
    requires Crosses(st, visits) && forall v :: v in visits ==> VisitOf(blocks, order, v)
    requires Mentions(storage[r], b)
    ensures OnlyCrosses(blocks, order, r, b)
  {
    hide ReferencedFrom;
    var k :| 0 <= k < |storage[r]| && b in storage[r][k].blocks;
    var j := |st.ranges[r]| - 1 - k;
    assert storage[r][k] == Finished(st.ranges[r][j]);
    var v :| v in visits && CrossesIn(r, st.ranges[r][j], v);
    assert VisitOf(blocks, order, v);
  }

  lemma CrossedMentions(st: Scan, storage: seq<seq<Range>>, blocks: seq<Block>, order: seq<nat>, physical: nat, crossed: set<nat>,
                        kills: map<nat, set<nat>>, visits: set<Visit>, r: nat, b: nat)
    requires |storage| == |st.ranges| && r < |storage| && Reverses(st.ranges[r], storage[r])
    requires forall k :: 0 <= k < |order| ==> order[k] < |blocks|
    requires Scanned(st, blocks, order, |order|, physical, crossed, kills, visits)
    requires OnlyCrosses(blocks, order, r, b)
    ensures Mentions(storage[r], b)
  {
    hide Scanning, Crosses, BodyShares, Shares, LiveAt, CrossedFrom, ReferencedFrom, Skipped;
    var j :| 0 <= j < |order| && order[j] == b;
    assert BlockDone(st, blocks[order[j]], order[j], physical, crossed, kills);
    assert MarkedWith(st, r, b);
    var k :| 0 <= k < |st.ranges[r]| && st.ranges[r][k].blocks == [b];
    var m := |st.ranges[r]| - 1 - k;
    var range := storage[r][m];
    assert range.blocks == [b];
  }

  lemma CrossedExactly(st: Scan, blocks: seq<Block>, order: seq<nat>, physical: nat, crossed: set<nat>,
                       kills: map<nat, set<nat>>, visits: set<Visit>, r: nat)
    requires forall k :: 0 <= k < |order| ==> order[k] < |blocks|
    requires Scanned(st, blocks, order, |order|, physical, crossed, kills, visits)
    ensures r in crossed <==> CrossesSome(blocks, order, physical, r)
  {
    hide Scanning, Crosses, BodyShares, LiveAt, ReferencedFrom;
    assert order[..|order|] == order;
    if CrossesSome(blocks, order, physical, r) {
      var b :| b in order && b < |blocks| && r in CrossedFrom(blocks[b].body, 0, blocks[b].out, physical);
      var j :| 0 <= j < |order| && order[j] == b;
      assert !Skipped(blocks[order[j]]);
      assert BlockDone(st, blocks[order[j]], order[j], physical, crossed, kills);
    }
  }

  /** Some call finds the register alive, or is given it. */
  ghost predicate LiveAtCall(blocks: seq<Block>, order: seq<nat>, r: nat)
  {
    exists b, k :: b in order && b < |blocks| && 0 <= k < |blocks[b].body| && CallSees(blocks[b], k, r)
  }

  ghost predicate CallSees(b: Block, k: nat, r: nat)
    requires k < |b.body|
  {
    b.body[k].call && r in AtCall(b.body[k], LiveAt(b.body, k + 1, b.out))
  }

  lemma {:induction false} CrossedFromCalls(b: Block, from: nat, physical: nat, r: nat)
    requires from <= |b.body|
    ensures r in CrossedFrom(b.body, from, b.out, physical) <==> r >= physical && exists k :: from <= k < |b.body| && CallSees(b, k, r)
    decreases |b.body| - from
  {
    hide AtCall, LiveAt;
    if from < |b.body| {
      var next := from + 1;
      CrossedFromCalls(b, next, physical, r);
      assert CallSees(b, from, r) <==> b.body[from].call && r in AtCall(b.body[from], LiveAt(b.body, next, b.out));
      assert r in CrossedFrom(b.body, from, b.out, physical) <==> r in CrossedFrom(b.body, next, b.out, physical) || (r >= physical && CallSees(b, from, r));
      if r >= physical && exists k :: from <= k < |b.body| && CallSees(b, k, r) {
        var k :| from <= k < |b.body| && CallSees(b, k, r);
        assert k == from || from + 1 <= k;
      }
    }
  }

  lemma CrossesCall(blocks: seq<Block>, order: seq<nat>, physical: nat, r: nat)
    ensures CrossesSome(blocks, order, physical, r) <==> r >= physical && LiveAtCall(blocks, order, r)
  {
    hide CrossedFrom, CallSees;
    if CrossesSome(blocks, order, physical, r) {
      var b :| b in order && b < |blocks| && r in CrossedFrom(blocks[b].body, 0, blocks[b].out, physical);
      CrossedFromCalls(blocks[b], 0, physical, r);
    }
    if r >= physical && LiveAtCall(blocks, order, r) {
      var b, k :| b in order && b < |blocks| && 0 <= k < |blocks[b].body| && CallSees(blocks[b], k, r);
      CrossedFromCalls(blocks[b], 0, physical, r);
    }
  }

  /** Some instruction touches the register. */
  ghost predicate Mentioned(body: seq<Inst>, r: nat)
  {
    exists k :: 0 <= k < |body| && Touches(body[k], r)
  }

  predicate Touches(i: Inst, r: nat)
  {
    r in i.defs || r in i.clobbers || r in i.arguments || r in i.uses || r in i.early
  }

  lemma {:induction false} ReferencedTouched(body: seq<Inst>, from: nat, r: nat)
    requires from <= |body|
    ensures r in ReferencedFrom(body, from) <==> exists k :: from <= k < |body| && Touches(body[k], r)
    decreases |body| - from
  {
    if from < |body| {
      ReferencedTouched(body, from + 1, r);
      hide ReferencedFrom;
      if exists k :: from <= k < |body| && Touches(body[k], r) {
        var k :| from <= k < |body| && Touches(body[k], r);
        assert k == from || from + 1 <= k;
      }
    }
  }

  /** Exactly the virtual registers that the instructions touch. */
  ghost predicate KillIs(body: seq<Inst>, physical: nat, kill: set<nat>)
  {
    forall r: nat :: r in kill <==> r >= physical && Mentioned(body, r)
  }

  lemma KilledMentioned(body: seq<Inst>, physical: nat)
    ensures KillIs(body, physical, Virtuals(ReferencedFrom(body, 0), physical))
  {
    hide ReferencedFrom, Touches;
    forall r: nat
      ensures r in Virtuals(ReferencedFrom(body, 0), physical) <==> r >= physical && Mentioned(body, r)
    {
      ReferencedTouched(body, 0, r);
    }
  }

  /** Live ranges: those of two registers meet exactly where the instructions need them to,
      they are exact in what they mark as crossing, and compressed. The live-in check and the points of the scan decide success; after
      compression points cannot run out any more. */
  method BuildRanges(registers: nat, physical: nat, blocks: seq<Block>, order: seq<nat>)
      returns (ok: bool, ranges: seq<seq<Range>>, count: nat, crossed: set<nat>, kills: map<nat, set<nat>>)
    requires forall k :: 0 <= k < |order| ==> order[k] < |blocks|
    requires forall j, k :: 0 <= j < k < |order| ==> order[j] != order[k]
    requires forall b :: 0 <= b < |blocks| ==> ValidBlock(blocks[b], registers)
    ensures ok <==> Scannable(blocks, order)
    ensures ok ==> RangesFor(registers, physical, blocks, order, ranges, count, crossed) && count <= POINT_LIMIT
    ensures ok ==> forall j :: 0 <= j < |order| && !Skipped(blocks[order[j]]) ==>
              order[j] in kills && kills[order[j]] == Virtuals(ReferencedFrom(blocks[order[j]].body, 0), physical)
    ensures ok ==> Exact(registers, blocks, order, ranges)
    ensures ok ==> forall r: nat :: r in crossed <==> r >= physical && LiveAtCall(blocks, order, r)
    ensures ok ==> forall j :: 0 <= j < |order| && !Skipped(blocks[order[j]]) ==>
              KillIs(blocks[order[j]].body, physical, kills[order[j]])
  {
    hide Clash, LiveAtCall, KillIs, Scannable, Scanned, ValidBlock, Skipped, AllDescending, Reverses, Good, ReferencedFrom, BlockTogether, OnlyCrosses, Mentions,
         CrossesSome, Interfere, Compressed, Separate, EventOn, HasPart;
    var st;
    ghost var visits;
    ok, st, crossed, kills, visits := ScanBlocks(registers, physical, blocks, order);
    ranges, count := [], 0;
    if ok {
      ScannedGood(st, blocks, order, physical, crossed, kills, visits);
      var storage := FinishAll(st);
      var map_;
      ranges, count, map_ := Compress(storage, st.point + 1);
      CompressedSize(storage, ranges, count, st.point + 1, map_);
      EndedBelow(st, storage, blocks, order, physical, crossed, kills, visits);
      forall j | 0 <= j < |order| && !Skipped(blocks[order[j]])
        ensures BlockTogether(ranges, blocks[order[j]], order[j])
        ensures order[j] in kills && kills[order[j]] == Virtuals(ReferencedFrom(blocks[order[j]].body, 0), physical)
      {
        DoneOf(st, blocks, order, physical, crossed, kills, visits, j);
        BlockKept(st, storage, ranges, map_, blocks[order[j]], order[j]);
      }
      forall r: nat, b: nat | r < registers
        ensures Mentions(ranges[r], b) <==> OnlyCrosses(blocks, order, r, b)
      {
        if Mentions(storage[r], b) {
          MentionsCrossed(st, storage, blocks, order, visits, r, b);
        }
        if OnlyCrosses(blocks, order, r, b) {
          CrossedMentions(st, storage, blocks, order, physical, crossed, kills, visits, r, b);
        }
      }
      forall r: nat
        ensures r in crossed <==> CrossesSome(blocks, order, physical, r)
        ensures r in crossed <==> r >= physical && LiveAtCall(blocks, order, r)
      {
        CrossedExactly(st, blocks, order, physical, crossed, kills, visits, r);
        CrossesCall(blocks, order, physical, r);
      }
      forall j | 0 <= j < |order| && !Skipped(blocks[order[j]])
        ensures KillIs(blocks[order[j]].body, physical, kills[order[j]])
      {
        KilledMentioned(blocks[order[j]].body, physical);
      }
      forall r: nat, c: nat | r < registers && c < registers
        ensures Interfere(ranges[r], ranges[c]) <==> Clash(blocks, order, r, c)
      {
        if Interfere(storage[r], storage[c]) {
          MeetingClash(st, storage, blocks, order, physical, crossed, kills, visits, r, c);
        }
        if Clash(blocks, order, r, c) {
          SomeClashMeets(ranges, blocks, order, r, c);
        }
      }
    }
  }

  /** At the end every range has ended before the current point. */
  lemma EndedBelow(st: Scan, storage: seq<seq<Range>>, blocks: seq<Block>, order: seq<nat>, physical: nat, crossed: set<nat>,
                   kills: map<nat, set<nat>>, visits: set<Visit>)
    requires forall k :: 0 <= k < |order| ==> order[k] < |blocks|
    requires Scanned(st, blocks, order, |order|, physical, crossed, kills, visits)
    requires |storage| == |st.ranges| && AllDescending(storage, st.point + 1)
    requires forall r :: 0 <= r < |storage| ==> Reverses(st.ranges[r], storage[r])
    ensures AllDescending(storage, st.point)
  {
    hide Scanning, Crosses, BlockDone, VisitOf, CrossesSome;
    forall r | 0 <= r < |storage|
      ensures Descending(storage[r], st.point)
    {
      assert Descending(storage[r], st.point + 1) && Reverses(st.ranges[r], storage[r]);
      forall k | 0 <= k < |storage[r]|
        ensures storage[r][k].finish < st.point
      {
        AllEnded(st, r, |st.ranges[r]| - 1 - k);
      }
    }
  }

  lemma CompressedSize(storage: seq<seq<Range>>, ranges: seq<seq<Range>>, count: nat, points: nat, map_: seq<nat>)
    requires Compressed(storage, ranges, count, points, map_)
    ensures |ranges| == |storage| && AllDescending(ranges, count)
  {
  }

  lemma ScannedGood(st: Scan, blocks: seq<Block>, order: seq<nat>, physical: nat, crossed: set<nat>,
                    kills: map<nat, set<nat>>, visits: set<Visit>)
    requires forall k :: 0 <= k < |order| ==> order[k] < |blocks|
    requires Scanned(st, blocks, order, |order|, physical, crossed, kills, visits)
    ensures Good(st) && st.living == {} && Crosses(st, visits) && forall v :: v in visits ==> VisitOf(blocks, order, v)
  {
    hide Good, Crosses;
    assert order[..|order|] == order;
    assert Good(st) by { ScanningGood(st, {}); }
  }

  lemma DoneOf(st: Scan, blocks: seq<Block>, order: seq<nat>, physical: nat, crossed: set<nat>,
               kills: map<nat, set<nat>>, visits: set<Visit>, j: nat)
    requires forall k :: 0 <= k < |order| ==> order[k] < |blocks|
    requires Scanned(st, blocks, order, |order|, physical, crossed, kills, visits)
    requires j < |order| && !Skipped(blocks[order[j]])
    ensures var b := blocks[order[j]];
            && BodyShares(st, b.body, b.out, 0, order[j]) && LiveAt(b.body, 0, b.out) == b.live
            && Shares(st, b.out, order[j]) && Shares(st, b.live, order[j])
            && order[j] in kills && kills[order[j]] == Virtuals(ReferencedFrom(b.body, 0), physical)
  {
    hide Scanning, Crosses, BodyShares, LiveAt, ReferencedFrom;
  }
}
