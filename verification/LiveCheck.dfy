/** The live-in check of the range scan: the analysis walks instructions in an order of its
    own, and both agree except for calls that write a global register or lose an argument
    to an early clobber. */
module LiveCheck {
  import opened LiveScan

  /** One instruction as the analysis takes it: what a call clobbers and the globals it reads
      come before its results, its arguments last. */
  function Analyzed(i: Inst, globals: set<nat>, args: set<nat>, after: set<nat>): set<nat>
  {
    var called := if i.call then (after - Regs(i.clobbers)) + globals else after;
    (((called - Regs(i.defs)) + Regs(i.uses)) - Regs(i.early)) + args
  }

  /** The scan takes globals and arguments of a call together. */
  ghost predicate Splits(i: Inst, globals: set<nat>, args: set<nat>)
  {
    && (!i.call ==> i.clobbers == [] && args == {})
    && Regs(i.arguments) == if i.call then globals + args else {}
  }

  predicate Agrees(i: Inst, globals: set<nat>, args: set<nat>)
  {
    && args * Regs(i.early) == {}
    && (i.call ==> globals * Regs(i.defs) <= Regs(i.early) + Regs(i.uses) + args)
  }

  /** Both walks agree about an instruction, whatever is live below it, exactly when no early
      clobber hits an argument and no call writes a global that it does not also read. */
  lemma AgreeExactly(i: Inst, globals: set<nat>, args: set<nat>)
    requires Splits(i, globals, args)
    ensures Agrees(i, globals, args) <==> forall after :: Analyzed(i, globals, args, after) == Before(i, after)
  {
    hide Regs;
    if Agrees(i, globals, args) {
      forall after
        ensures Analyzed(i, globals, args, after) == Before(i, after)
      {
        SameAt(i, globals, args, after);
      }
    } else {
      Differ(i, globals, args);
    }
  }

  lemma SameAt(i: Inst, globals: set<nat>, args: set<nat>, after: set<nat>)
    requires Splits(i, globals, args) && Agrees(i, globals, args)
    ensures Analyzed(i, globals, args, after) == Before(i, after)
  {
    assert !i.call ==> Regs(i.clobbers) == {};
    hide Regs;
    forall r: nat
      ensures r in Analyzed(i, globals, args, after) <==> r in Before(i, after)
    {
      if r in args {
        assert r !in Regs(i.early) by { assert r !in args * Regs(i.early); }
      } else if i.call && r in globals && r in Regs(i.defs) {
        assert r in globals * Regs(i.defs);
      }
    }
  }

  lemma Differ(i: Inst, globals: set<nat>, args: set<nat>)
    requires Splits(i, globals, args) && !Agrees(i, globals, args)
    ensures Analyzed(i, globals, args, {}) != Before(i, {})
  {
    hide Regs;
    if args * Regs(i.early) != {} {
      var r :| r in args * Regs(i.early);
      assert r in Analyzed(i, globals, args, {}) && r !in Before(i, {});
    } else {
      var r :| r in globals * Regs(i.defs) && r !in Regs(i.early) + Regs(i.uses) + args;
      assert r !in Analyzed(i, globals, args, {}) && r in Before(i, {});
    }
  }

  function AnalyzedAt(body: seq<Inst>, k: nat, out: set<nat>, globals: set<nat>, args: seq<set<nat>>): set<nat>
    requires k <= |body| == |args|
    decreases |body| - k
  {
    if k == |body| then out else Analyzed(body[k], globals, args[k], AnalyzedAt(body, k + 1, out, globals, args))
  }

  /** A block's summary, collected from the end. */
  method Summarize(body: seq<Inst>, globals: set<nat>, args: seq<set<nat>>) returns (gen: set<nat>, kill: set<nat>)
    requires |args| == |body|
    ensures forall out :: (out - kill) + gen == AnalyzedAt(body, 0, out, globals, args)
  {
    hide Regs;
    gen, kill := {}, {};
    var k := |body|;
    while 0 < k
      invariant 0 <= k <= |body|
      invariant forall out :: (out - kill) + gen == AnalyzedAt(body, k, out, globals, args)
    {
      k := k - 1;
      var i := body[k];
      ghost var gen0, kill0 := gen, kill;
      if i.call {
        kill := kill + Regs(i.clobbers);
        gen := (gen - Regs(i.clobbers)) + globals;
      }
      gen, kill := gen - Regs(i.defs), kill + Regs(i.defs);
      gen := gen + Regs(i.uses);
      gen, kill := gen - Regs(i.early), kill + Regs(i.early);
      gen := gen + args[k];
      forall out
        ensures (out - kill) + gen == AnalyzedAt(body, k, out, globals, args)
      {
        SummaryStep(i, globals, args[k], gen0, kill0, out, gen, kill);
      }
    }
  }

  lemma SummaryStep(i: Inst, globals: set<nat>, args: set<nat>, gen0: set<nat>, kill0: set<nat>, out: set<nat>, gen: set<nat>, kill: set<nat>)
    requires kill == kill0 + (if i.call then Regs(i.clobbers) else {}) + Regs(i.defs) + Regs(i.early)
    requires gen == ((((if i.call then (gen0 - Regs(i.clobbers)) + globals else gen0) - Regs(i.defs)) + Regs(i.uses)) - Regs(i.early)) + args
    ensures (out - kill) + gen == Analyzed(i, globals, args, (out - kill0) + gen0)
  {
    hide Regs;
  }

  /** So a solution of the liveness equations passes the check of the scan. */
  lemma {:induction false} CheckHolds(body: seq<Inst>, k: nat, out: set<nat>, globals: set<nat>, args: seq<set<nat>>)
    requires k <= |body| == |args|
    requires forall j :: 0 <= j < |body| ==> Splits(body[j], globals, args[j]) && Agrees(body[j], globals, args[j])
    ensures AnalyzedAt(body, k, out, globals, args) == LiveAt(body, k, out)
    decreases |body| - k
  {
    hide Splits, Agrees, Analyzed, Before;
    if k < |body| {
      CheckHolds(body, k + 1, out, globals, args);
      SameAt(body[k], globals, args[k], LiveAt(body, k + 1, out));
    }
  }
}
