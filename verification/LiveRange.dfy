/** Stretches of live points. */
module LiveRange {

  /** Both ends belong to the range; `blocks` are those a register only crosses, and
      a range with blocks may be spilled around them. */
  datatype Range = Range(start: nat, finish: nat, blocks: seq<nat>)

  predicate Covers(r: Range, q: nat)
  {
    r.start <= q <= r.finish
  }

  predicate Meet(a: Range, b: Range)
  {
    a.start <= b.finish && b.start <= a.finish
  }
}
