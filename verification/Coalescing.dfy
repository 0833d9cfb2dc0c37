/** Aggressive coalescing: scan for conflicts, merge classes along moves, rewrite. */
module Coalescing {
  import opened Finite
  import opened Graphs
  import opened MachineCode
  import opened Renaming
  import opened ConflictMatrix
  import opened Rings

  datatype Pair = Pair(dst: nat, src: nat)

  // ----- selecting registers -----

  /** The registers of a list of moves, numbered in order of appearance. */
  ghost predicate Scans(compact: map<nat, nat>, scan: seq<nat>)
  {
    && (forall i :: 0 <= i < |scan| ==> scan[i] in compact && compact[scan[i]] == i)
    && (forall r :: r in compact ==> compact[r] < |scan| && scan[compact[r]] == r)
  }

  lemma ScansNumber(compact: map<nat, nat>, scan: seq<nat>)
    requires Scans(compact, scan)
    ensures Numbered(compact, |scan|)
  {
  }

  method AddRegister(compact: map<nat, nat>, scan: seq<nat>, limit: nat, r: nat)
      returns (compact': map<nat, nat>, scan': seq<nat>)
    requires Scans(compact, scan)
    ensures Scans(compact', scan')
    ensures |scan| <= |scan'| <= |scan| + 1 && (|scan| <= limit ==> |scan'| <= limit)
    ensures compact'.Keys <= compact.Keys + {r} && compact.Keys <= compact'.Keys
    ensures |scan'| < limit ==> r in compact'
  {
    compact', scan' := compact, scan;
    if r !in compact && |scan| < limit {
      compact' := compact[r := |scan|];
      scan' := scan + [r];
    }
  }

  /** The registers that the moves name. */
  function MoveRegisters(moves: seq<Pair>): set<nat>
  {
    (set k | 0 <= k < |moves| :: moves[k].dst) + (set k | 0 <= k < |moves| :: moves[k].src)
  }

  lemma MoveRegistersNext(moves: seq<Pair>, n: nat)
    requires n < |moves|
    ensures MoveRegisters(moves[..n + 1]) == MoveRegisters(moves[..n]) + {moves[n].dst, moves[n].src}
  {
    var more := moves[..n + 1];
    assert more == moves[..n] + [moves[n]];
    forall r
      ensures r in MoveRegisters(more) <==> r in MoveRegisters(moves[..n]) + {moves[n].dst, moves[n].src}
    {
      if r in {moves[n].dst, moves[n].src} {
        assert more[n] == moves[n];
      }
      if r in MoveRegisters(moves[..n]) {
        var k :| 0 <= k < n && (moves[k].dst == r || moves[k].src == r);
        assert more[k] == moves[k];
      }
    }
  }

  lemma ScansSize(compact: map<nat, nat>, scan: seq<nat>)
    requires Scans(compact, scan)
    ensures |compact.Keys| == |scan|
  {
    assert Elements(scan) == compact.Keys;
    forall i, j | 0 <= i < j < |scan|
      ensures scan[i] != scan[j]
    {
      assert compact[scan[i]] == i;
    }
    DistinctSize(scan);
  }

  /** With as many registers as the limit or more, the selection is cut off. */
  method SelectRegisters(moves: seq<Pair>, limit: nat) returns (compact: map<nat, nat>, scan: seq<nat>)
    ensures Scans(compact, scan)
    ensures if |MoveRegisters(moves)| < limit then compact.Keys == MoveRegisters(moves) && |scan| == |MoveRegisters(moves)| else |scan| == limit
  {
    hide Scans, MoveRegisters;
    compact, scan := map[], [];
    NothingScanned();
    assert moves[..0] == [];
    assert MoveRegisters([]) == {} by { NothingMoved(); }
    for n := 0 to |moves|
      invariant Scans(compact, scan) && |scan| <= limit
      invariant compact.Keys <= MoveRegisters(moves[..n])
      invariant |scan| < limit ==> compact.Keys == MoveRegisters(moves[..n])
    {
      compact, scan := AddRegister(compact, scan, limit, moves[n].dst);
      compact, scan := AddRegister(compact, scan, limit, moves[n].src);
      MoveRegistersNext(moves, n);
    }
    assert moves[..|moves|] == moves;
    ScansSize(compact, scan);
    if |MoveRegisters(moves)| < limit && compact.Keys != MoveRegisters(moves) {
      SubsetSmaller(compact.Keys, MoveRegisters(moves));
    }
  }

  lemma NothingMoved()
    ensures MoveRegisters([]) == {}
  {
  }

  lemma NothingScanned()
    ensures Scans(map[], [])
  {
  }

  // ----- conflicts at every definition -----

  ghost predicate ConflictAt(i: Inst, after: set<nat>, x: nat, y: nat)
  {
    Interferes(i, after, x, y) || Interferes(i, after, y, x)
  }

  ghost predicate BodyConflict(body: seq<Inst>, scan: set<nat>, out: set<nat>, x: nat, y: nat)
  {
    body != [] && (ConflictAt(body[0], LiveIn(body[1..], scan, out), x, y) || BodyConflict(body[1..], scan, out, x, y))
  }

  ghost predicate ProgramConflict(p: Program, scan: set<nat>, out: seq<set<nat>>, x: nat, y: nat)
    requires |out| == |p.bodies|
  {
    exists b :: 0 <= b < |out| && BodyConflict(p.bodies[b], scan, out[b], x, y)
  }

  lemma {:induction false} LiveStaysInScan(body: seq<Inst>, scan: set<nat>, out: set<nat>)
    requires out <= scan
    ensures LiveIn(body, scan, out) <= scan
    decreases |body|
  {
    if body != [] {
      LiveStaysInScan(body[1..], scan, out);
    }
  }

  /** Walk one body backwards; returns the registers live at its start. */
  method ScanBody(body: seq<Inst>, scan: set<nat>, out: set<nat>, compact: map<nat, nat>, dimension: nat, bits: seq<bool>)
      returns (bits': seq<bool>, alive: set<nat>)
    requires Numbered(compact, dimension) && |bits| == BitCount(dimension) && scan == compact.Keys && out <= scan
    ensures |bits'| == |bits|
    ensures alive == LiveIn(body, scan, out)
    ensures forall x, y :: x in compact && y in compact ==>
              (Has(bits', compact, dimension, x, y) <==>
               Has(bits, compact, dimension, x, y) || BodyConflict(body, scan, out, x, y))
  {
    hide Has, Numbered;
    bits', alive := bits, out;
    var at := |body|;
    assert body[at..] == [];
    while 0 < at
      invariant 0 <= at <= |body| && |bits'| == |bits|
      invariant alive == LiveIn(body[at..], scan, out) && alive <= scan
      invariant forall x, y :: x in compact && y in compact ==>
                  (Has(bits', compact, dimension, x, y) <==>
                   Has(bits, compact, dimension, x, y) || BodyConflict(body[at..], scan, out, x, y))
    {
      at := at - 1;
      var i := body[at];
      assert body[at..][0] == i && body[at..][1..] == body[at + 1..];
      ghost var after := alive;
      var def := DefOf(i);
      if def.Some? && def.value in scan {
        var exempt := if i.Move? && i.src in scan then {i.src} else {};
        bits' := Mark(bits', compact, dimension, def.value, alive - {def.value} - exempt);
        alive := alive - {def.value};
      }
      ConflictsOf(i, scan, after);
      var uses := set r | r in UsesOf(i) && r in scan;
      alive := alive + uses;
      assert alive == LiveBefore(i, scan, after);
    }
    assert body[0..] == body;
  }

  lemma ConflictsOf(i: Inst, scan: set<nat>, after: set<nat>)
    requires after <= scan
    ensures forall x, y :: x in scan && y in scan ==>
              (ConflictAt(i, after, x, y) <==>
               DefOf(i).Some? && DefOf(i).value in scan &&
               var exempt := if i.Move? && i.src in scan then {i.src} else {};
               var others := after - {DefOf(i).value} - exempt;
               (x == DefOf(i).value && y in others) || (x in others && y == DefOf(i).value))
  {
  }

  /** Record every conflict of the program; the scan always arrives at the live-in
      sets that the liveness analysis gave. */
  method ScanConflicts(p: Program, scan: set<nat>, live: seq<set<nat>>, out: seq<set<nat>>,
                       compact: map<nat, nat>, dimension: nat) returns (ok: bool, bits: seq<bool>)
    requires p.Valid() && SolvesLiveness(p, scan, live, out)
    requires Numbered(compact, dimension) && scan == compact.Keys
    ensures ok && |bits| == BitCount(dimension)
    ensures forall x, y :: x in compact && y in compact ==>
              (Has(bits, compact, dimension, x, y) <==> ProgramConflict(p, scan, out, x, y))
  {
    bits := seq(BitCount(dimension), _ => false);
    NoBits(bits, compact, dimension);
    hide Has, BodyConflict, BitCount;
    ok := true;
    var b := 0;
    while b < |p.bodies|
      invariant 0 <= b <= |p.bodies| && ok && |bits| == BitCount(dimension)
      invariant forall x, y :: x in compact && y in compact ==>
                  (Has(bits, compact, dimension, x, y) <==>
                   exists c :: 0 <= c < b && BodyConflict(p.bodies[c], scan, out[c], x, y))
    {
      var alive;
      bits, alive := ScanBody(p.bodies[b], scan, out[b], compact, dimension, bits);
      if alive != live[b] {
        ok := false;
      }
      b := b + 1;
    }
  }

  lemma NoBits(bits: seq<bool>, compact: map<nat, nat>, dimension: nat)
    requires Numbered(compact, dimension) && |bits| == BitCount(dimension)
    requires forall k :: 0 <= k < |bits| ==> !bits[k]
    ensures forall x, y :: x in compact && y in compact ==> !Has(bits, compact, dimension, x, y)
  {
    forall x, y | x in compact && y in compact
      ensures !Has(bits, compact, dimension, x, y)
    {
      BitInRange(compact[x], compact[y], dimension);
    }
  }

  // ----- merging -----

  /** No two members of a class conflict. */
  ghost predicate ConflictFree(first: seq<nat>, bits: seq<bool>, compact: map<nat, nat>, dimension: nat)
    requires Numbered(compact, dimension) && |bits| == BitCount(dimension)
  {
    forall x: nat, y: nat :: x < |first| && y < |first| && x != y && first[x] == first[y] ==>
      x in compact && y in compact && !Has(bits, compact, dimension, x, y)
  }

  /** Some member of the class of `a` conflicts with a member of the class of `b`. */
  ghost predicate ClassesConflict(first: seq<nat>, bits: seq<bool>, compact: map<nat, nat>, dimension: nat, a: nat, b: nat)
    requires Numbered(compact, dimension) && |bits| == BitCount(dimension)
  {
    exists x: nat, y: nat :: x < |first| && y < |first| && first[x] == a && first[y] == b &&
      x in compact && y in compact && Has(bits, compact, dimension, x, y)
  }

  /** Why a move was left alone: its classes conflict, or both are bound. */
  ghost predicate Blocked(first: seq<nat>, bits: seq<bool>, compact: map<nat, nat>, dimension: nat, bound: seq<bool>, m: Pair)
    requires Numbered(compact, dimension) && |bits| == BitCount(dimension)
    requires m.dst < |first| == |bound| && m.src < |first| && forall r :: 0 <= r < |first| ==> first[r] < |first|
  {
    || ClassesConflict(first, bits, compact, dimension, first[m.src], first[m.dst])
    || (bound[first[m.src]] && bound[first[m.dst]])
  }

  lemma MovesKeepBlocked(first: seq<nat>, first': seq<nat>, a: nat, b: nat, bits: seq<bool>, compact: map<nat, nat>,
                         dimension: nat, bound: seq<bool>, m: Pair)
    requires Numbered(compact, dimension) && |bits| == BitCount(dimension)
    requires m.dst < |first| == |bound| && m.src < |first| && a < |first| && b < |first|
    requires forall r :: 0 <= r < |first| ==> first[r] < |first|
    requires MovesClass(first, first', a, b) && (bound[b] ==> bound[a])
    requires first[a] == a
    requires first[m.dst] == first[m.src] || Blocked(first, bits, compact, dimension, bound, m)
    ensures forall r :: 0 <= r < |first'| ==> first'[r] < |first'|
    ensures first'[m.dst] == first'[m.src] || Blocked(first', bits, compact, dimension, bound, m)
  {
    hide Numbered, Has;
  }

  method ConflictBetween(next: seq<nat>, bits: seq<bool>, compact: map<nat, nat>, dimension: nat, a: nat, b: nat,
                         ghost p: seq<nat>, ghost q: seq<nat>) returns (found: bool)
    requires Numbered(compact, dimension) && |bits| == BitCount(dimension)
    requires IsRing(next, p) && IsRing(next, q) && p != [] && q != [] && p[0] == a && q[0] == b
    requires forall x :: x in p || x in q ==> x in compact
    ensures found <==> exists x, y :: x in p && y in q && Has(bits, compact, dimension, x, y)
  {
    hide IsRing, Has, BitCount, Numbered;
    RingStep(next, p, 0);
    RingStep(next, q, 0);
    var r1 := a;
    ghost var i := 0;
    found := false;
    while !found
      invariant 0 <= i < |p| && r1 == p[i]
      invariant !found ==> forall j, y :: 0 <= j < i && y in q ==> !Has(bits, compact, dimension, p[j], y)
      invariant found ==> exists x, y :: x in p && y in q && Has(bits, compact, dimension, x, y)
      decreases |p| - i, !found
    {
      var r2 := b;
      ghost var k := 0;
      RingStep(next, q, 0);
      while true
        invariant 0 <= k < |q| && r2 == q[k]
        invariant forall j :: 0 <= j < k ==> !Has(bits, compact, dimension, r1, q[j])
        invariant !found
        decreases |q| - k
      {
        assert r1 in p && r2 in q;
        RingStep(next, q, k);
        if Has(bits, compact, dimension, r1, r2) {
          found := true;
          break;
        }
        r2 := next[r2];
        if r2 == b {
          RingEnds(next, q, k);
          assert forall y :: y in q ==> !Has(bits, compact, dimension, r1, y);
          break;
        }
        k := k + 1;
      }
      if found {
        break;
      }
      RingStep(next, p, i);
      r1 := next[r1];
      if r1 == a {
        RingEnds(next, p, i);
        break;
      }
      i := i + 1;
    }
  }

  lemma HasSymmetric(bits: seq<bool>, compact: map<nat, nat>, dimension: nat, x: nat, y: nat)
    ensures Has(bits, compact, dimension, x, y) <==> Has(bits, compact, dimension, y, x)
  {
  }

  lemma JoinKeepsConflictFree(first: seq<nat>, first': seq<nat>, a: nat, b: nat, bits: seq<bool>, compact: map<nat, nat>,
                              dimension: nat)
    requires Numbered(compact, dimension) && |bits| == BitCount(dimension)
    requires ConflictFree(first, bits, compact, dimension) && MovesClass(first, first', a, b)
    requires !ClassesConflict(first, bits, compact, dimension, a, b)
    requires forall r: nat :: r < |first| && (first[r] == a || first[r] == b) ==> r in compact
    ensures ConflictFree(first', bits, compact, dimension)
  {
    hide Has, Numbered, BitCount;
    forall x: nat, y: nat | x < |first| && y < |first| && x != y && first'[x] == first'[y]
      ensures x in compact && y in compact && !Has(bits, compact, dimension, x, y)
    {
      HasSymmetric(bits, compact, dimension, x, y);
      assert first[x] == first[y] || (first[x] == a && first[y] == b) || (first[x] == b && first[y] == a);
    }
  }

  /** A class that holds a scanned register holds only scanned registers. */
  lemma ClassScanned(first: seq<nat>, bits: seq<bool>, compact: map<nat, nat>, dimension: nat, r: nat)
    requires Numbered(compact, dimension) && |bits| == BitCount(dimension)
    requires ConflictFree(first, bits, compact, dimension) && r < |first| && r in compact
    ensures forall c: nat :: c < |first| && first[c] == first[r] ==> c in compact
  {
  }

  lemma NoRingConflict(first: seq<nat>, next: seq<nat>, rings: map<nat, seq<nat>>, bits: seq<bool>,
                       compact: map<nat, nat>, dimension: nat, a: nat, b: nat)
    requires Numbered(compact, dimension) && |bits| == BitCount(dimension)
    requires Partition(first, next, rings) && a in rings && b in rings
    ensures ClassesConflict(first, bits, compact, dimension, a, b) <==>
            exists x, y :: x in rings[a] && y in rings[b] && Has(bits, compact, dimension, x, y)
  {
    ClassIsRing(first, next, rings, a);
    ClassIsRing(first, next, rings, b);
    hide Partition, IsRing, Numbered;
    RingMembers(next, rings[a]);
    RingMembers(next, rings[b]);
    if x, y :| x in rings[a] && y in rings[b] && Has(bits, compact, dimension, x, y) {
      assert x < |first| && first[x] == a && y < |first| && first[y] == b;
    }
  }

  lemma PartitionReps(first: seq<nat>, next: seq<nat>, rings: map<nat, seq<nat>>)
    requires Partition(first, next, rings)
    ensures |first| == |next|
    ensures forall r: nat :: r < |first| ==> first[r] in rings && first[r] < |first| && first[first[r]] == first[r]
  {
    hide IsRing;
    forall r: nat | r < |first|
      ensures first[r] in rings && first[r] < |first| && first[first[r]] == first[r]
    {
      ClassIsRing(first, next, rings, first[r]);
    }
  }

  lemma SingletonPartition(first: seq<nat>, registers: nat) returns (rings: map<nat, seq<nat>>)
    requires first == seq(registers, r => r)
    ensures Partition(first, first, rings)
  {
    rings := map r: nat | 0 <= r < registers :: [r];
  }

  /** What the merge establishes, with every move accounted for. */
  /** A bound register names its class; any other class is named by its least member. */
  ghost predicate Named(first: seq<nat>, bound: seq<bool>)
    requires |bound| == |first|
  {
    forall r: nat :: r < |first| ==>
      && (bound[r] ==> first[r] == r)
      && (first[r] < |first| && !bound[first[r]] ==> first[r] <= r)
  }

  lemma JoinKeepsNamed(first: seq<nat>, first': seq<nat>, a: nat, b: nat, bound: seq<bool>)
    requires |bound| == |first| && Named(first, bound) && MovesClass(first, first', a, b)
    requires a < |first| && b < |first| && !bound[b] && (bound[a] || a < b)
    ensures Named(first', bound)
  {
  }

  ghost predicate Merged(first: seq<nat>, bits: seq<bool>, compact: map<nat, nat>, dimension: nat, bound: seq<bool>,
                         moves: seq<Pair>)
    requires Numbered(compact, dimension) && |bits| == BitCount(dimension)
  {
    && (forall r: nat :: r < |first| ==> first[r] < |first| && first[first[r]] == first[r])
    && ConflictFree(first, bits, compact, dimension)
    && |bound| == |first| && Named(first, bound)
    && (forall k :: 0 <= k < |moves| ==> moves[k].dst < |first| && moves[k].src < |first|)
    && (forall k :: 0 <= k < |moves| ==>
          first[moves[k].dst] == first[moves[k].src] || Blocked(first, bits, compact, dimension, bound, moves[k]))
  }

  method MergeMoves(moves: seq<Pair>, registers: nat, bits: seq<bool>, compact: map<nat, nat>, dimension: nat,
                    bound: seq<bool>) returns (first: seq<nat>, coalesced: nat)
    requires Numbered(compact, dimension) && |bits| == BitCount(dimension) && |bound| == registers
    requires forall k :: 0 <= k < |moves| ==> moves[k].dst < registers && moves[k].src < registers
    requires forall k :: 0 <= k < |moves| ==> moves[k].dst in compact && moves[k].src in compact
    ensures |first| == registers && Merged(first, bits, compact, dimension, bound, moves)
    ensures coalesced <= |moves|
  {
    hide Numbered, Has, Partition, IsRing, BitCount, ClassesConflict, ConflictFree, Blocked;
    first := seq(registers, r => r);
    var next := first;
    ghost var rings: map<nat, seq<nat>> := SingletonPartition(first, registers);
    StartConflictFree(first, bits, compact, dimension);
    PartitionReps(first, next, rings);
    coalesced := 0;
    for n := 0 to |moves|
      invariant |first| == |next| == registers && Partition(first, next, rings) && coalesced <= n
      invariant forall r: nat :: r < |first| ==> first[r] in rings && first[r] < |first| && first[first[r]] == first[r]
      invariant ConflictFree(first, bits, compact, dimension) && Named(first, bound)
      invariant forall k :: 0 <= k < n ==>
                  first[moves[k].dst] == first[moves[k].src] || Blocked(first, bits, compact, dimension, bound, moves[k])
    {
      var source, destination := moves[n].src, moves[n].dst;
      var a, b := first[source], first[destination];
      if a == b {
        coalesced := coalesced + 1;
      } else {
        ClassIsRing(first, next, rings, a);
        ClassIsRing(first, next, rings, b);
        ClassScanned(first, bits, compact, dimension, source);
        ClassScanned(first, bits, compact, dimension, destination);
        NoRingConflict(first, next, rings, bits, compact, dimension, a, b);
        RingIn(next, rings[a]);
        RingIn(next, rings[b]);
        var conflict := ConflictBetween(next, bits, compact, dimension, a, b, rings[a], rings[b]);
        if conflict || (bound[a] && bound[b]) {
          BlockedNow(first, bits, compact, dimension, bound, moves[n], conflict);
        } else {
          coalesced := coalesced + 1;
          ConflictSymmetric(first, bits, compact, dimension, a, b);
          if bound[b] || (!bound[a] && b < a) {
            a, b := b, a;
            source, destination := destination, source;
          }
          ghost var before := first;
          first, next, rings := Join(first, next, a, destination, rings);
          JoinKeepsNamed(before, first, a, b, bound);
          JoinKeepsConflictFree(before, first, a, b, bits, compact, dimension);
          PartitionReps(first, next, rings);
          forall k | 0 <= k < n
            ensures first[moves[k].dst] == first[moves[k].src] || Blocked(first, bits, compact, dimension, bound, moves[k])
          {
            MovesKeepBlocked(before, first, a, b, bits, compact, dimension, bound, moves[k]);
          }
        }
      }
    }
  }

  lemma RingIn(next: seq<nat>, q: seq<nat>)
    requires IsRing(next, q)
    ensures q != [] && q[0] in q && forall x :: x in q ==> x < |next|
  {
  }

  lemma StartConflictFree(first: seq<nat>, bits: seq<bool>, compact: map<nat, nat>, dimension: nat)
    requires Numbered(compact, dimension) && |bits| == BitCount(dimension)
    requires first == seq(|first|, r => r)
    ensures ConflictFree(first, bits, compact, dimension)
  {
    hide Has, Numbered;
  }

  lemma BlockedNow(first: seq<nat>, bits: seq<bool>, compact: map<nat, nat>, dimension: nat, bound: seq<bool>, m: Pair,
                   conflict: bool)
    requires Numbered(compact, dimension) && |bits| == BitCount(dimension)
    requires m.dst < |first| == |bound| && m.src < |first| && forall r :: 0 <= r < |first| ==> first[r] < |first|
    requires conflict ==> ClassesConflict(first, bits, compact, dimension, first[m.src], first[m.dst])
    requires conflict || (bound[first[m.src]] && bound[first[m.dst]])
    ensures Blocked(first, bits, compact, dimension, bound, m)
  {
  }

  lemma ConflictSymmetric(first: seq<nat>, bits: seq<bool>, compact: map<nat, nat>, dimension: nat, a: nat, b: nat)
    requires Numbered(compact, dimension) && |bits| == BitCount(dimension)
    ensures ClassesConflict(first, bits, compact, dimension, a, b) <==> ClassesConflict(first, bits, compact, dimension, b, a)
  {
    hide Has, Numbered, BitCount;
    forall x: nat, y: nat
      ensures Has(bits, compact, dimension, x, y) <==> Has(bits, compact, dimension, y, x)
    {
      HasSymmetric(bits, compact, dimension, x, y);
    }
  }

  // ----- rewriting and the whole pass -----

  method RewriteBody(first: seq<nat>, body: seq<Inst>) returns (rewritten: seq<Inst>)
    ensures rewritten == RenameBody(first, body)
  {
    rewritten := [];
    var at := 0;
    while at < |body|
      invariant 0 <= at <= |body|
      invariant rewritten + RenameBody(first, body[at..]) == RenameBody(first, body)
    {
      assert body[at..][0] == body[at] && body[at..][1..] == body[at + 1..];
      if !Redundant(first, body[at]) {
        rewritten := rewritten + [RenameInst(first, body[at])];
      }
      at := at + 1;
    }
  }

  lemma {:induction false} FreeBodyIsSafe(first: seq<nat>, body: seq<Inst>, scan: set<nat>, out: set<nat>)
    requires out <= scan
    requires forall x, y :: x in scan && y in scan && BodyConflict(body, scan, out, x, y) ==> Rep(first, x) != Rep(first, y)
    ensures SafeBody(first, scan, body, out)
    decreases |body|
  {
    if body != [] {
      var after := LiveIn(body[1..], scan, out);
      LiveStaysInScan(body[1..], scan, out);
      forall x, y | x in scan && Interferes(body[0], after, x, y)
        ensures Rep(first, x) != Rep(first, y)
      {
        assert y in scan;
        assert ConflictAt(body[0], after, x, y);
        assert BodyConflict(body, scan, out, x, y);
      }
      forall x, y | x in scan && y in scan && BodyConflict(body[1..], scan, out, x, y)
        ensures Rep(first, x) != Rep(first, y)
      {
        assert BodyConflict(body, scan, out, x, y);
      }
      FreeBodyIsSafe(first, body[1..], scan, out);
    }
  }

  lemma {:induction false} ConflictIrreflexive(body: seq<Inst>, scan: set<nat>, out: set<nat>, x: nat)
    ensures !BodyConflict(body, scan, out, x, x)
    decreases |body|
  {
    if body != [] {
      ConflictIrreflexive(body[1..], scan, out, x);
    }
  }

  lemma MergedIsSafe(p: Program, scan: set<nat>, live: seq<set<nat>>, out: seq<set<nat>>, first: seq<nat>,
                     bits: seq<bool>, compact: map<nat, nat>, dimension: nat)
    requires p.Valid() && SolvesLiveness(p, scan, live, out)
    requires Numbered(compact, dimension) && |bits| == BitCount(dimension) && scan == compact.Keys
    requires forall r :: r in scan ==> r < |first|
    requires forall r :: 0 <= r < |first| ==> first[r] < |first| && first[first[r]] == first[r]
    requires ConflictFree(first, bits, compact, dimension)
    requires forall x, y :: x in compact && y in compact ==>
               (Has(bits, compact, dimension, x, y) <==> ProgramConflict(p, scan, out, x, y))
    ensures Safe(first, scan, p, out)
  {
    hide Has, Numbered, BitCount, Graph.Valid;
    forall r: nat
      ensures r !in scan ==> Rep(first, r) == r
      ensures r in scan ==> Rep(first, r) in scan
    {
      if r < |first| && first[r] != r {
        assert first[first[r]] == first[r];
      }
    }
    forall b | 0 <= b < |out|
      ensures SafeBody(first, scan, p.bodies[b], out[b])
    {
      forall x, y | x in scan && y in scan && BodyConflict(p.bodies[b], scan, out[b], x, y)
        ensures Rep(first, x) != Rep(first, y)
      {
        assert ProgramConflict(p, scan, out, x, y);
        ConflictIrreflexive(p.bodies[b], scan, out[b], x);
      }
      FreeBodyIsSafe(first, p.bodies[b], scan, out[b]);
    }
  }
}
