/** Renumbering of live points: points are merged as long as no range ends before
    another begins, and ranges of one register that then touch are joined. */
module PointCompression {
  import opened LiveRange

  /** Ranges as the scan leaves them, last first: apart, ordered and within points. */
  ghost predicate Descending(ranges: seq<Range>, points: nat)
  {
    && (forall k :: 0 <= k < |ranges| ==> ranges[k].start <= ranges[k].finish < points)
    && (forall j, k :: 0 <= j < k < |ranges| ==> ranges[k].finish < ranges[j].start)
  }

  ghost predicate AllDescending(storage: seq<seq<Range>>, points: nat)
  {
    forall r :: 0 <= r < |storage| ==> Descending(storage[r], points)
  }

  ghost predicate Birth(storage: seq<seq<Range>>, q: nat)
  {
    exists r, k :: 0 <= r < |storage| && 0 <= k < |storage[r]| && storage[r][k].start == q
  }

  ghost predicate Death(storage: seq<seq<Range>>, q: nat)
  {
    exists r, k :: 0 <= r < |storage| && 0 <= k < |storage[r]| && storage[r][k].finish == q
  }

  // ----- the map -----

  method Events(storage: seq<seq<Range>>) returns (births: set<nat>, deaths: set<nat>)
    ensures forall q: nat :: q in births <==> Birth(storage, q)
    ensures forall q: nat :: q in deaths <==> Death(storage, q)
  {
    births, deaths := {}, {};
    for r := 0 to |storage|
      invariant forall q: nat :: q in births <==> exists s, k :: 0 <= s < r && 0 <= k < |storage[s]| && storage[s][k].start == q
      invariant forall q: nat :: q in deaths <==> exists s, k :: 0 <= s < r && 0 <= k < |storage[s]| && storage[s][k].finish == q
    {
      ghost var b, d := births, deaths;
      for k := 0 to |storage[r]|
        invariant forall q: nat :: q in births <==> q in b || exists j :: 0 <= j < k && storage[r][j].start == q
        invariant forall q: nat :: q in deaths <==> q in d || exists j :: 0 <= j < k && storage[r][j].finish == q
      {
        births := births + {storage[r][k].start};
        deaths := deaths + {storage[r][k].finish};
      }
    }
  }

  /** A point map that keeps order and separates a death from every later birth. */
  ghost predicate Separates(births: set<nat>, deaths: set<nat>, map_: seq<nat>, limit: nat)
    requires limit <= |map_|
  {
    && (forall p, q :: 0 <= p < q < limit && (p in births || p in deaths) && (q in births || q in deaths) ==> map_[p] <= map_[q])
    && (forall p, q :: 0 <= p < q < limit && p in deaths && q in births ==> map_[p] < map_[q])
  }

  /** The last event so far and what is still to separate. */
  ghost predicate Mapping(births: set<nat>, deaths: set<nat>, map_: seq<nat>, limit: nat, compressed: int, previousDead: bool)
    requires limit <= |map_|
  {
    && Separates(births, deaths, map_, limit)
    && -1 <= compressed
    && (forall p :: 0 <= p < limit && (p in births || p in deaths) ==> map_[p] <= compressed)
    && (forall p :: 0 <= p < limit && p in deaths ==> previousDead || map_[p] < compressed)
    && (compressed == -1 ==> previousDead)
  }

  /** No death with a later birth from `p` to `q`. */
  ghost predicate Uncut(births: set<nat>, deaths: set<nat>, p: int, q: int)
  {
    forall d, b :: p <= d < b <= q && d in deaths ==> b !in births
  }

  /** Events share a point unless a birth after a death lies between them. */
  ghost predicate Coarse(births: set<nat>, deaths: set<nat>, map_: seq<nat>, limit: nat)
    requires limit <= |map_|
  {
    forall p, q :: 0 <= p <= q < limit && (p in births || p in deaths) && (q in births || q in deaths) && Uncut(births, deaths, p, q) ==>
      map_[p] == map_[q]
  }

  /** The last event below `limit`, and its point. */
  ghost predicate LastEvent(births: set<nat>, deaths: set<nat>, map_: seq<nat>, limit: nat, compressed: int, last: int)
    requires limit <= |map_|
  {
    && -1 <= last < limit
    && (forall p :: 0 <= p < limit && (p in births || p in deaths) ==> p <= last)
    && (0 <= last ==> (last in births || last in deaths) && map_[last] == compressed)
  }

  lemma CoarseStep(births: set<nat>, deaths: set<nat>, map_: seq<nat>, p: nat, compressed: int, last: int, dead: bool, next: nat)
    requires p < |map_| && (p in births || p in deaths)
    requires Coarse(births, deaths, map_, p) && LastEvent(births, deaths, map_, p, compressed, last)
    requires dead && 0 <= last ==> last in deaths
    requires next == if dead && p in births then compressed + 1 else compressed
    ensures Coarse(births, deaths, map_[p := next], p + 1) && LastEvent(births, deaths, map_[p := next], p + 1, next, p)
  {
    var after := map_[p := next];
    forall x, y | 0 <= x <= y < p + 1 && (x in births || x in deaths) && (y in births || y in deaths) && Uncut(births, deaths, x, y)
      ensures after[x] == after[y]
    {
      if x < y == p {
        assert Uncut(births, deaths, x, last);
        assert map_[x] == map_[last];
      }
    }
  }

  predicate BornBelow(births: set<nat>, limit: nat)
  {
    forall q :: q in births ==> q < limit
  }

  lemma MappingStep(births: set<nat>, deaths: set<nat>, map_: seq<nat>, p: nat, compressed: int, dead: bool, next: nat)
    requires p < |map_| && (p in births || p in deaths) && Mapping(births, deaths, map_, p, compressed, dead)
    requires next == if dead && p in births then compressed + 1 else compressed
    ensures Mapping(births, deaths, map_[p := next], p + 1, next, p in deaths)
  {
  }

  /** A point without events. */
  lemma PassPoint(births: set<nat>, deaths: set<nat>, map_: seq<nat>, p: nat, compressed: int, dead: bool, last: int)
    requires p < |map_| && p !in births && p !in deaths
    requires Mapping(births, deaths, map_, p, compressed, dead)
    requires Coarse(births, deaths, map_, p) && LastEvent(births, deaths, map_, p, compressed, last)
    ensures Mapping(births, deaths, map_, p + 1, compressed, dead)
    ensures Coarse(births, deaths, map_, p + 1) && LastEvent(births, deaths, map_, p + 1, compressed, last)
  {
    hide Uncut;
  }

  lemma NothingMapped(births: set<nat>, deaths: set<nat>, map_: seq<nat>)
    ensures Mapping(births, deaths, map_, 0, -1, true) && Coarse(births, deaths, map_, 0) && LastEvent(births, deaths, map_, 0, -1, -1)
  {
  }

  lemma AllMapped(births: set<nat>, deaths: set<nat>, map_: seq<nat>, limit: nat, compressed: int, dead: bool)
    requires limit <= |map_| && Mapping(births, deaths, map_, limit, compressed, dead)
    ensures Separates(births, deaths, map_, limit) && -1 <= compressed
    ensures forall p :: 0 <= p < limit && (p in births || p in deaths) ==> map_[p] <= compressed
  {
  }

  /** Number the points anew: a new one for each birth right after a death. */
  method MapPoints(births: set<nat>, deaths: set<nat>, points: nat) returns (map_: seq<nat>, count: nat)
    requires forall q :: q in births || q in deaths ==> q < points
    requires forall q :: q in deaths ==> exists p :: p in births && p <= q
    ensures |map_| == points && Separates(births, deaths, map_, points) && Coarse(births, deaths, map_, points)
    ensures forall p :: 0 <= p < points && (p in births || p in deaths) ==> map_[p] < count
    ensures forall limit: nat :: BornBelow(births, limit) ==> count <= limit
  {
    hide Mapping, Coarse, LastEvent, Separates;
    map_ := seq<nat>(points, _ => 0);
    var compressed: int := -1;
    var previousDead := true;
    ghost var last := -1;
    NothingMapped(births, deaths, map_);
    for p := 0 to points
      invariant |map_| == points
      invariant Mapping(births, deaths, map_, p, compressed, previousDead)
      invariant Coarse(births, deaths, map_, p) && LastEvent(births, deaths, map_, p, compressed, last)
      invariant previousDead && 0 <= last ==> last in deaths
      invariant compressed == -1 ==> previousDead && forall q :: q in births ==> p <= q
      invariant -1 <= compressed < p && forall limit: nat :: BornBelow(births, limit) ==> compressed < limit
    {
      if p in births || p in deaths {
        ghost var before := compressed;
        if previousDead && p in births {
          compressed := compressed + 1;
        }
        assert compressed >= 0;
        MappingStep(births, deaths, map_, p, before, previousDead, compressed);
        CoarseStep(births, deaths, map_, p, before, last, previousDead, compressed);
        last := p;
        map_ := map_[p := compressed];
        previousDead := p in deaths;
      } else {
        PassPoint(births, deaths, map_, p, compressed, previousDead, last);
      }
    }
    AllMapped(births, deaths, map_, points, compressed, previousDead);
    count := compressed + 1;
  }

  function Renumbered(map_: seq<nat>, r: Range): Range
    requires r.start < |map_| && r.finish < |map_|
  {
    Range(map_[r.start], map_[r.finish], r.blocks)
  }

  /** Compression is exact: two ranges meet after it just when they did before. */
  lemma MeetExactly(storage: seq<seq<Range>>, births: set<nat>, deaths: set<nat>, map_: seq<nat>, r: nat, k: nat, c: nat, j: nat)
    requires AllDescending(storage, |map_|) && Separates(births, deaths, map_, |map_|)
    requires forall q: nat :: (q in births <==> Birth(storage, q)) && (q in deaths <==> Death(storage, q))
    requires r < |storage| && k < |storage[r]| && c < |storage| && j < |storage[c]|
    ensures Meet(Renumbered(map_, storage[r][k]), Renumbered(map_, storage[c][j])) <==> Meet(storage[r][k], storage[c][j])
    ensures map_[storage[r][k].start] <= map_[storage[r][k].finish]
  {
    var a, b := storage[r][k], storage[c][j];
    assert Descending(storage[r], |map_|) && Descending(storage[c], |map_|);
    assert Birth(storage, a.start) && Birth(storage, b.start) && Death(storage, a.finish) && Death(storage, b.finish);
  }

  // ----- joining the ranges of one register -----

  function RenumberedAll(map_: seq<nat>, ranges: seq<Range>): (rs: seq<Range>)
    requires Descending(ranges, |map_|)
  {
    seq(|ranges|, k requires 0 <= k < |ranges| => Renumbered(map_, ranges[k]))
  }

  ghost predicate Tidy(ranges: seq<Range>)
  {
    && (forall k :: 0 <= k < |ranges| ==> ranges[k].start <= ranges[k].finish)
    && (forall j, k :: 0 <= j < k < |ranges| ==> ranges[k].finish < ranges[j].start)
  }

  lemma RenumberedTidy(storage: seq<seq<Range>>, births: set<nat>, deaths: set<nat>, map_: seq<nat>, r: nat)
    requires AllDescending(storage, |map_|) && Separates(births, deaths, map_, |map_|)
    requires forall q: nat :: (q in births <==> Birth(storage, q)) && (q in deaths <==> Death(storage, q))
    requires r < |storage|
    ensures Descending(storage[r], |map_|) && Tidy(RenumberedAll(map_, storage[r]))
  {
    assert Descending(storage[r], |map_|);
    var rs := RenumberedAll(map_, storage[r]);
    forall j, k | 0 <= j <= k < |rs|
      ensures rs[j].start <= rs[j].finish
      ensures j < k ==> rs[k].finish < rs[j].start
    {
      MeetExactly(storage, births, deaths, map_, r, j, r, k);
      MeetExactly(storage, births, deaths, map_, r, k, r, j);
    }
  }

  /** `joined` are the unions of consecutive ranges of one kind; `group` says which. */
  ghost predicate Joins(ranges: seq<Range>, joined: seq<Range>, group: seq<nat>)
  {
    && |group| == |ranges|
    && (forall j :: 0 <= j < |group| ==> group[j] < |joined|)
    && (forall j :: 0 <= j < |ranges| ==> Within(ranges[j], joined[group[j]]))
    && (forall k, q: nat :: 0 <= k < |joined| && Covers(joined[k], q) ==> CoveredByPart(ranges, group, k, q))
    && (forall k, b: nat :: 0 <= k < |joined| && b in joined[k].blocks ==> BlockOfPart(ranges, group, k, b))
  }

  ghost predicate Within(part: Range, whole: Range)
  {
    && whole.start <= part.start && part.finish <= whole.finish
    && (part.blocks == [] <==> whole.blocks == [])
    && (forall b :: b in part.blocks ==> b in whole.blocks)
  }

  ghost predicate CoveredByPart(ranges: seq<Range>, group: seq<nat>, k: nat, q: nat)
  {
    exists j :: 0 <= j < |ranges| && j < |group| && group[j] == k && Covers(ranges[j], q)
  }

  ghost predicate BlockOfPart(ranges: seq<Range>, group: seq<nat>, k: nat, b: nat)
  {
    exists j :: 0 <= j < |ranges| && j < |group| && group[j] == k && b in ranges[j].blocks
  }

  predicate Separate(last: Range, range: Range)
  {
    || (last.start != range.finish && last.start != range.finish + 1)
    || (last.blocks == []) != (range.blocks == [])
  }

  /** Neighbours of one kind have a point between them. */
  ghost predicate Maximal(joined: seq<Range>)
  {
    forall k, n :: 0 <= k && n == k + 1 && n < |joined| && (joined[k].blocks == [] <==> joined[n].blocks == []) ==>
      joined[n].finish + 1 < joined[k].start
  }

  method Prepend(blocks: seq<nat>, more: seq<nat>) returns (all: seq<nat>)
    ensures |all| == |blocks| + |more|
    ensures forall b :: b in all <==> b in blocks || b in more
  {
    all := blocks;
    for k := 0 to |more|
      invariant |all| == |blocks| + k
      invariant forall b :: b in all <==> b in blocks || b in more[..k]
    {
      all := [more[k]] + all;
      assert more[..k + 1] == more[..k] + [more[k]];
    }
    assert more[..|more|] == more;
  }

  /** Join what the ranges of one register have in touch, keeping whole-block ranges
      apart from the others. */
  method Join(ranges: seq<Range>, ghost points: nat) returns (joined: seq<Range>, ghost group: seq<nat>)
    requires Tidy(ranges) && forall k :: 0 <= k < |ranges| ==> ranges[k].finish < points
    ensures Joins(ranges, joined, group) && Descending(joined, points)
    ensures Maximal(joined)
  {
    hide Joins;
    joined, group := [], [];
    NothingJoined();
    assert ranges[..0] == [];
    for n := 0 to |ranges|
      invariant Joins(ranges[..n], joined, group) && Descending(joined, points)
      invariant n == 0 <==> joined == []
      invariant n > 0 ==> joined[|joined| - 1].start == ranges[n - 1].start
      invariant forall k :: 0 <= k < |joined| - 1 ==> Separate(joined[k], joined[k + 1])
    {
      var range := ranges[n];
      assert ranges[..n + 1] == ranges[..n] + [range];
      assert n > 0 ==> range.finish < ranges[n - 1].start;
      if joined == [] || Separate(joined[|joined| - 1], range) {
        JoinNew(ranges[..n], joined, group, range);
        group := group + [|joined|];
        joined := joined + [range];
      } else {
        var last := joined[|joined| - 1];
        var blocks := Prepend(last.blocks, range.blocks);
        var grown := last.(start := range.start, blocks := blocks);
        JoinLast(ranges[..n], joined, group, range, grown);
        group := group + [|joined| - 1];
        joined := joined[|joined| - 1 := grown];
      }
    }
    assert ranges[..|ranges|] == ranges;
  }

  lemma NothingJoined()
    ensures Joins([], [], [])
  {
  }

  lemma JoinNew(ranges: seq<Range>, joined: seq<Range>, group: seq<nat>, range: Range)
    requires Joins(ranges, joined, group)
    ensures Joins(ranges + [range], joined + [range], group + [|joined|])
  {
    var ranges', joined', group' := ranges + [range], joined + [range], group + [|joined|];
    forall k, q: nat | 0 <= k < |joined'| && Covers(joined'[k], q)
      ensures CoveredByPart(ranges', group', k, q)
    {
      if k < |joined| {
        assert CoveredByPart(ranges, group, k, q);
        var j :| 0 <= j < |ranges| && j < |group| && group[j] == k && Covers(ranges[j], q);
        assert ranges'[j] == ranges[j] && group'[j] == k;
      } else {
        assert ranges'[|ranges|] == range && group'[|ranges|] == k;
      }
    }
    forall k, b: nat | 0 <= k < |joined'| && b in joined'[k].blocks
      ensures BlockOfPart(ranges', group', k, b)
    {
      if k < |joined| {
        assert BlockOfPart(ranges, group, k, b);
        var j :| 0 <= j < |ranges| && j < |group| && group[j] == k && b in ranges[j].blocks;
        assert ranges'[j] == ranges[j] && group'[j] == k;
      } else {
        assert ranges'[|ranges|] == range && group'[|ranges|] == k;
      }
    }
  }

  lemma JoinLast(ranges: seq<Range>, joined: seq<Range>, group: seq<nat>, range: Range, grown: Range)
    requires Joins(ranges, joined, group) && joined != []
    requires var last := joined[|joined| - 1];
             && range.start <= range.finish <= last.start <= range.finish + 1 && last.start <= last.finish
             && (last.blocks == [] <==> range.blocks == [])
             && grown.start == range.start && grown.finish == last.finish
             && |grown.blocks| == |last.blocks| + |range.blocks|
             && forall b :: b in grown.blocks <==> b in last.blocks || b in range.blocks
    ensures Joins(ranges + [range], joined[|joined| - 1 := grown], group + [|joined| - 1])
  {
    var e := |joined| - 1;
    var ranges', joined', group' := ranges + [range], joined[e := grown], group + [e];
    assert ranges'[|ranges|] == range && group'[|ranges|] == e;
    forall k, q: nat | 0 <= k < |joined'| && Covers(joined'[k], q)
      ensures CoveredByPart(ranges', group', k, q)
    {
      if k != e || joined[e].start <= q {
        assert Covers(joined[k], q);
        assert CoveredByPart(ranges, group, k, q);
        var j :| 0 <= j < |ranges| && j < |group| && group[j] == k && Covers(ranges[j], q);
        assert ranges'[j] == ranges[j] && group'[j] == k;
      }
    }
    forall k, b: nat | 0 <= k < |joined'| && b in joined'[k].blocks
      ensures BlockOfPart(ranges', group', k, b)
    {
      if k != e || b in joined[e].blocks {
        assert BlockOfPart(ranges, group, k, b);
        var j :| 0 <= j < |ranges| && j < |group| && group[j] == k && b in ranges[j].blocks;
        assert ranges'[j] == ranges[j] && group'[j] == k;
      }
    }
    forall j | 0 <= j < |ranges'|
      ensures Within(ranges'[j], joined'[group'[j]])
    {
      if j < |ranges| {
        assert Within(ranges[j], joined[group[j]]);
      }
    }
  }

  // ----- the whole compression -----

  /** Joined ranges cover the points of their parts, split alike between whole-block
      ranges and others. */
  ghost predicate CoversAs(ranges: seq<Range>, q: nat, whole: bool)
  {
    exists k :: 0 <= k < |ranges| && Covers(ranges[k], q) && (ranges[k].blocks != []) == whole
  }

  lemma JoinedCovers(ranges: seq<Range>, joined: seq<Range>, group: seq<nat>, q: nat, whole: bool)
    requires Joins(ranges, joined, group)
    ensures CoversAs(joined, q, whole) <==> CoversAs(ranges, q, whole)
  {
    if CoversAs(joined, q, whole) {
      var k :| 0 <= k < |joined| && Covers(joined[k], q) && (joined[k].blocks != []) == whole;
      assert CoveredByPart(ranges, group, k, q);
      var j :| 0 <= j < |ranges| && j < |group| && group[j] == k && Covers(ranges[j], q);
      assert Within(ranges[j], joined[k]);
    }
    if CoversAs(ranges, q, whole) {
      var j :| 0 <= j < |ranges| && Covers(ranges[j], q) && (ranges[j].blocks != []) == whole;
      assert Within(ranges[j], joined[group[j]]);
    }
  }

  /** Some range of one register meets some range of another. */
  ghost predicate Interfere(a: seq<Range>, b: seq<Range>)
  {
    exists k, j :: 0 <= k < |a| && 0 <= j < |b| && Meet(a[k], b[j])
  }

  ghost predicate Compressed(storage: seq<seq<Range>>, ranges: seq<seq<Range>>, count: nat, points: nat, map_: seq<nat>)
  {
    && |ranges| == |storage| && |map_| == points && AllDescending(storage, points)
    && AllDescending(ranges, count)
    && forall r: nat, q: nat, whole: bool :: r < |storage| ==>
         (CoversAs(ranges[r], q, whole) <==> CoversAs(RenumberedAll(map_, storage[r]), q, whole))
  }

  method Compress(storage: seq<seq<Range>>, points: nat)
      returns (ranges: seq<seq<Range>>, count: nat, map_: seq<nat>)
    requires AllDescending(storage, points)
    ensures Compressed(storage, ranges, count, points, map_)
    ensures forall limit: nat :: AllDescending(storage, limit) ==> count <= limit
    ensures forall r: nat :: r < |ranges| ==> Maximal(ranges[r])
    ensures forall r: nat, c: nat :: r < |storage| && c < |storage| ==>
              (Interfere(ranges[r], ranges[c]) <==> Interfere(storage[r], storage[c]))
    ensures forall r: nat, k: nat, q: nat :: EventOn(storage, r, k, q) ==>
              q < |map_| && HasPart(ranges[r], storage[r][k], map_[q])
    ensures forall r: nat, b: nat :: r < |storage| ==> (Mentions(ranges[r], b) <==> Mentions(storage[r], b))
  {
    hide AllDescending, Separates, Joins, RenumberedAll, CoversAs, Separate;
    var births, deaths := Events(storage);
    EventsBounded(storage, points);
    map_, count := MapPoints(births, deaths, points);
    forall limit: nat | AllDescending(storage, limit)
      ensures count <= limit
    {
      EventsBounded(storage, limit);
      assert BornBelow(births, limit);
    }
    ranges := [];
    ghost var groups: seq<seq<nat>> := [];
    for r := 0 to |storage|
      invariant |ranges| == |groups| == r
      invariant forall c: nat :: c < r ==> Joined(storage[c], map_, ranges[c], groups[c], count)
    {
      RenumberedTidy(storage, births, deaths, map_, r);
      RenumberedBelow(storage, births, deaths, map_, count, r);
      ghost var group;
      var joined;
      joined, group := Join(RenumberedAll(map_, storage[r]), count);
      ranges, groups := ranges + [joined], groups + [group];
    }
    FinishCompression(storage, births, deaths, map_, ranges, groups, count);
  }

  ghost predicate Joined(ranges: seq<Range>, map_: seq<nat>, joined: seq<Range>, group: seq<nat>, count: nat)
  {
    && Descending(ranges, |map_|)
    && Joins(RenumberedAll(map_, ranges), joined, group)
    && Descending(joined, count)
    && Maximal(joined)
  }

  ghost predicate Mentions(ranges: seq<Range>, b: nat)
  {
    exists k :: 0 <= k < |ranges| && b in ranges[k].blocks
  }

  lemma EventsBounded(storage: seq<seq<Range>>, points: nat)
    requires AllDescending(storage, points)
    ensures forall q: nat :: Birth(storage, q) || Death(storage, q) ==> q < points
    ensures forall q: nat :: Death(storage, q) ==> exists p: nat :: Birth(storage, p) && p <= q
  {
    forall q: nat | Death(storage, q)
      ensures q < points && exists p: nat :: Birth(storage, p) && p <= q
    {
      var r, k :| 0 <= r < |storage| && 0 <= k < |storage[r]| && storage[r][k].finish == q;
      assert Descending(storage[r], points);
      assert Birth(storage, storage[r][k].start);
    }
    forall q: nat | Birth(storage, q)
      ensures q < points
    {
      var r, k :| 0 <= r < |storage| && 0 <= k < |storage[r]| && storage[r][k].start == q;
      assert Descending(storage[r], points);
    }
  }

  lemma RenumberedBelow(storage: seq<seq<Range>>, births: set<nat>, deaths: set<nat>, map_: seq<nat>, count: nat, r: nat)
    requires AllDescending(storage, |map_|) && r < |storage|
    requires forall q: nat :: (q in births <==> Birth(storage, q)) && (q in deaths <==> Death(storage, q))
    requires forall p :: 0 <= p < |map_| && (p in births || p in deaths) ==> map_[p] < count
    ensures Descending(storage[r], |map_|)
    ensures forall k :: 0 <= k < |RenumberedAll(map_, storage[r])| ==> RenumberedAll(map_, storage[r])[k].finish < count
  {
    assert Descending(storage[r], |map_|);
    forall k | 0 <= k < |storage[r]|
      ensures RenumberedAll(map_, storage[r])[k].finish < count
    {
      assert Death(storage, storage[r][k].finish);
    }
  }

  lemma JoinedInterfere(a: seq<Range>, joinedA: seq<Range>, groupA: seq<nat>, b: seq<Range>, joinedB: seq<Range>, groupB: seq<nat>)
    requires Joins(a, joinedA, groupA) && Joins(b, joinedB, groupB) && Tidy(a) && Tidy(b) && Tidy(joinedA) && Tidy(joinedB)
    ensures Interfere(joinedA, joinedB) <==> Interfere(a, b)
  {
    if Interfere(joinedA, joinedB) {
      var k, j :| 0 <= k < |joinedA| && 0 <= j < |joinedB| && Meet(joinedA[k], joinedB[j]);
      var q := if joinedA[k].start <= joinedB[j].start then joinedB[j].start else joinedA[k].start;
      assert Covers(joinedA[k], q) && Covers(joinedB[j], q);
      assert CoveredByPart(a, groupA, k, q) && CoveredByPart(b, groupB, j, q);
      var x :| 0 <= x < |a| && x < |groupA| && groupA[x] == k && Covers(a[x], q);
      var y :| 0 <= y < |b| && y < |groupB| && groupB[y] == j && Covers(b[y], q);
      assert Meet(a[x], b[y]);
    }
    if Interfere(a, b) {
      var x, y :| 0 <= x < |a| && 0 <= y < |b| && Meet(a[x], b[y]);
      assert Within(a[x], joinedA[groupA[x]]) && Within(b[y], joinedB[groupB[y]]);
      assert Meet(joinedA[groupA[x]], joinedB[groupB[y]]);
    }
  }

  lemma RenumberedInterfere(storage: seq<seq<Range>>, births: set<nat>, deaths: set<nat>, map_: seq<nat>, r: nat, c: nat)
    requires AllDescending(storage, |map_|) && Separates(births, deaths, map_, |map_|)
    requires forall q: nat :: (q in births <==> Birth(storage, q)) && (q in deaths <==> Death(storage, q))
    requires r < |storage| && c < |storage|
    ensures Descending(storage[r], |map_|) && Descending(storage[c], |map_|)
    ensures Interfere(RenumberedAll(map_, storage[r]), RenumberedAll(map_, storage[c])) <==> Interfere(storage[r], storage[c])
  {
    assert Descending(storage[r], |map_|) && Descending(storage[c], |map_|);
    hide AllDescending, Separates, Birth, Death, Meet;
    var a, b := RenumberedAll(map_, storage[r]), RenumberedAll(map_, storage[c]);
    forall k: nat, j: nat | k < |a| && j < |b|
      ensures Meet(a[k], b[j]) <==> Meet(storage[r][k], storage[c][j])
    {
      MeetExactly(storage, births, deaths, map_, r, k, c, j);
    }
  }

  lemma JoinedMentions(ranges: seq<Range>, joined: seq<Range>, group: seq<nat>, b: nat)
    requires Joins(ranges, joined, group)
    ensures Mentions(joined, b) <==> Mentions(ranges, b)
  {
    if Mentions(joined, b) {
      var k :| 0 <= k < |joined| && b in joined[k].blocks;
      assert BlockOfPart(ranges, group, k, b);
    }
    if Mentions(ranges, b) {
      var j :| 0 <= j < |ranges| && b in ranges[j].blocks;
      assert Within(ranges[j], joined[group[j]]);
    }
  }

  lemma RenumberedMentions(map_: seq<nat>, ranges: seq<Range>, b: nat)
    requires Descending(ranges, |map_|)
    ensures Mentions(RenumberedAll(map_, ranges), b) <==> Mentions(ranges, b)
  {
    var rs := RenumberedAll(map_, ranges);
    assert forall k :: 0 <= k < |ranges| ==> rs[k].blocks == ranges[k].blocks;
  }

  lemma JoinedTidy(joined: seq<Range>, count: nat)
    requires Descending(joined, count)
    ensures Tidy(joined)
  {
  }

  /** Some range begins or ends at `q`, and range `k` of `r` covers it. */
  ghost predicate EventOn(storage: seq<seq<Range>>, r: nat, k: nat, q: nat)
  {
    && r < |storage| && k < |storage[r]| && Covers(storage[r][k], q)
    && (Birth(storage, q) || Death(storage, q))
  }

  /** A range over `q` that has all blocks of `part`, and blocks only if `part` does. */
  ghost predicate HasPart(ranges: seq<Range>, part: Range, q: nat)
  {
    exists k :: 0 <= k < |ranges| && HoldsPart(ranges[k], part, q)
  }

  ghost predicate HoldsPart(range: Range, part: Range, q: nat)
  {
    Covers(range, q) && (part.blocks == [] <==> range.blocks == []) && forall b :: b in part.blocks ==> b in range.blocks
  }

  /** Points where some range begins or ends keep what covers them. */
  lemma EventCovered(storage: seq<seq<Range>>, births: set<nat>, deaths: set<nat>, map_: seq<nat>, r: nat, k: nat, q: nat)
    requires AllDescending(storage, |map_|) && Separates(births, deaths, map_, |map_|)
    requires forall q: nat :: (q in births <==> Birth(storage, q)) && (q in deaths <==> Death(storage, q))
    requires EventOn(storage, r, k, q)
    ensures Descending(storage[r], |map_|) && q < |map_|
    ensures Covers(RenumberedAll(map_, storage[r])[k], map_[q])
  {
    assert Descending(storage[r], |map_|);
    assert Birth(storage, storage[r][k].start) && Death(storage, storage[r][k].finish);
    hide Birth, Death, AllDescending;
  }

  lemma PartCovered(ranges: seq<Range>, joined: seq<Range>, group: seq<nat>, k: nat, q: nat)
    requires Joins(ranges, joined, group) && k < |ranges| && Covers(ranges[k], q)
    ensures HasPart(joined, ranges[k], q)
  {
    assert Within(ranges[k], joined[group[k]]);
    assert HoldsPart(joined[group[k]], ranges[k], q);
  }

  lemma RenumberedBlocks(map_: seq<nat>, ranges: seq<Range>, k: nat)
    requires Descending(ranges, |map_|) && k < |ranges|
    ensures |RenumberedAll(map_, ranges)| == |ranges| && RenumberedAll(map_, ranges)[k].blocks == ranges[k].blocks
  {
  }

  lemma SamePart(ranges: seq<Range>, part: Range, other: Range, q: nat)
    requires HasPart(ranges, part, q) && other.blocks == part.blocks
    ensures HasPart(ranges, other, q)
  {
    var k :| 0 <= k < |ranges| && HoldsPart(ranges[k], part, q);
    assert HoldsPart(ranges[k], other, q);
  }

  lemma FinishCompression(storage: seq<seq<Range>>, births: set<nat>, deaths: set<nat>, map_: seq<nat>,
                          ranges: seq<seq<Range>>, groups: seq<seq<nat>>, count: nat)
    requires AllDescending(storage, |map_|) && Separates(births, deaths, map_, |map_|)
    requires forall q: nat :: (q in births <==> Birth(storage, q)) && (q in deaths <==> Death(storage, q))
    requires |ranges| == |groups| == |storage|
    requires forall c: nat :: c < |storage| ==> Joined(storage[c], map_, ranges[c], groups[c], count)
    ensures Compressed(storage, ranges, count, |map_|, map_)
    ensures forall r: nat, c: nat :: r < |storage| && c < |storage| ==>
              (Interfere(ranges[r], ranges[c]) <==> Interfere(storage[r], storage[c]))
    ensures forall r: nat, k: nat, q: nat :: EventOn(storage, r, k, q) ==>
              q < |map_| && HasPart(ranges[r], storage[r][k], map_[q])
    ensures forall r: nat, b: nat :: r < |storage| ==> (Mentions(ranges[r], b) <==> Mentions(storage[r], b))
  {
    hide Descending, Separates, Joins, Interfere, Birth, Death, RenumberedAll, CoversAs, Mentions, Tidy, Separate;
    forall r: nat | r < |storage|
      ensures Joined(storage[r], map_, ranges[r], groups[r], count)
    {
    }
    forall r: nat, q: nat, whole: bool | r < |storage|
      ensures CoversAs(ranges[r], q, whole) <==> CoversAs(RenumberedAll(map_, storage[r]), q, whole)
    {
      JoinedCovers(RenumberedAll(map_, storage[r]), ranges[r], groups[r], q, whole);
    }
    forall r: nat, c: nat | r < |storage| && c < |storage|
      ensures Interfere(ranges[r], ranges[c]) <==> Interfere(storage[r], storage[c])
    {
      RenumberedTidy(storage, births, deaths, map_, r);
      RenumberedTidy(storage, births, deaths, map_, c);
      JoinedTidy(ranges[r], count);
      JoinedTidy(ranges[c], count);
      JoinedInterfere(RenumberedAll(map_, storage[r]), ranges[r], groups[r], RenumberedAll(map_, storage[c]), ranges[c], groups[c]);
      RenumberedInterfere(storage, births, deaths, map_, r, c);
    }
    forall r: nat, k: nat, q: nat | EventOn(storage, r, k, q)
      ensures q < |map_| && HasPart(ranges[r], storage[r][k], map_[q])
    {
      EventCovered(storage, births, deaths, map_, r, k, q);
      RenumberedBlocks(map_, storage[r], k);
      PartCovered(RenumberedAll(map_, storage[r]), ranges[r], groups[r], k, map_[q]);
      SamePart(ranges[r], RenumberedAll(map_, storage[r])[k], storage[r][k], map_[q]);
    }
    forall r: nat, b: nat | r < |storage|
      ensures Mentions(ranges[r], b) <==> Mentions(storage[r], b)
    {
      JoinedMentions(RenumberedAll(map_, storage[r]), ranges[r], groups[r], b);
      RenumberedMentions(map_, storage[r], b);
    }
  }
}
