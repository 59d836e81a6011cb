/**
 The block cross-check against one sequential execution. Two chains that pass it are the two
 projections of a single gap-free execution with continuous roots, and every such execution
 passes it.
 */
module JumpExecution {
  import opened Goldilocks
  import opened Jump
  import opened JumpTrail

  /** One transaction of the block's sequential execution. */
  datatype ExecTx = ExecTx(heavy: bool, before: Roots, after: Roots)

  function EndRoots(init: Roots, exec: seq<ExecTx>): Roots {
    if exec == [] then init else Back(exec).after
  }

  /** Every transaction starts from the roots its predecessor left. */
  predicate Continuous(init: Roots, exec: seq<ExecTx>) {
    exec != [] ==>
      && Continuous(init, Front(exec))
      && Back(exec).before == EndRoots(init, Front(exec))
  }

  /** The transactions of one circuit type, at their places in the block. */
  function Project(exec: seq<ExecTx>, heavy: bool): seq<ActiveTx> {
    if exec == [] then []
    else if Back(exec).heavy != heavy then Project(Front(exec), heavy)
    else Project(Front(exec), heavy) + [ActiveTx(|exec| - 1, Back(exec).before, Back(exec).after)]
  }

  lemma {:induction false} ProjectLengths(exec: seq<ExecTx>)
    ensures |Project(exec, true)| + |Project(exec, false)| == |exec|
  {
    if exec != [] {
      ProjectLengths(Front(exec));
    }
  }

  // ---------- from the cross-check to the execution ----------

  /** A run of neighbouring transactions seen by one chain, from one pair of roots to another. */
  predicate IsRun(r: seq<ActiveTx>, lo: int, from: Roots, to: Roots) {
    r != [] &&
    Back(r).index == lo + |r| && Back(r).after == to &&
    if |r| == 1 then Back(r).before == from
    else IsRun(Front(r), lo, from, Back(r).before)
  }

  lemma {:induction false} RunGrows(r: seq<ActiveTx>, lo: int, from: Roots, x: ActiveTx)
    requires IsRun(r, lo, from, x.before) && x.index == lo + |r| + 1
    ensures IsRun(r + [x], lo, from, x.after)
  {
    assert Front(r + [x]) == r;
  }

  /** b splits into the transactions before its open run and that run. */
  predicate OpenRun(init: Roots, b: seq<ActiveTx>, earlier: seq<ActiveTx>, run: seq<ActiveTx>) {
    var p := TrailOf(init, b);
    && b == earlier + run && TrailAccepts(init, earlier)
    && Closed(TrailOf(init, earlier)) == p.covered
    && IsRun(run, p.runPrev, p.runStart, p.prevNew)
    && p.last == p.runPrev + |run|
  }

  lemma {:induction false} OpenRunGrows(init: Roots, b: seq<ActiveTx>, x: ActiveTx, earlier: seq<ActiveTx>,
                                        run: seq<ActiveTx>)
    requires OpenRun(init, b, earlier, run)
    requires x.index == TrailOf(init, b).last + 1 && x.before == TrailOf(init, b).prevNew
    ensures OpenRun(init, b + [x], earlier, run + [x])
  {
    var p := TrailOf(init, b);
    assert Front(b + [x]) == b;
    RunGrows(run, p.runPrev, p.runStart, x);
    assert earlier + (run + [x]) == b + [x];
  }

  lemma {:induction false} OpenRunStarts(init: Roots, b: seq<ActiveTx>, x: ActiveTx)
    requires TrailAccepts(init, b) && Takes(TrailOf(init, b), x)
    requires x.index - TrailOf(init, b).last != 1 || b == []
    ensures OpenRun(init, b + [x], b, [x])
  {
    assert Front(b + [x]) == b;
  }

  /** The transactions of a chain before its open run, and that run. */
  lemma {:induction false} SplitLastRun(init: Roots, b: seq<ActiveTx>)
      returns (earlier: seq<ActiveTx>, run: seq<ActiveTx>)
    requires TrailAccepts(init, b) && b != []
    ensures OpenRun(init, b, earlier, run)
  {
    var front, x := Front(b), Back(b);
    assert b == front + [x];
    if x.index - TrailOf(init, front).last == 1 && front != [] {
      earlier, run := SplitLastRun(init, front);
      OpenRunGrows(init, front, x, earlier, run);
      run := run + [x];
    } else {
      earlier, run := front, [x];
      OpenRunStarts(init, front, x);
    }
  }

  /** Only a chain without active transactions has an empty run. */
  lemma {:induction false} NoRunYet(init: Roots, b: seq<ActiveTx>)
    requires TrailAccepts(init, b)
    ensures TrailOf(init, b).last >= TrailOf(init, b).runPrev
    ensures TrailOf(init, b).last == TrailOf(init, b).runPrev <==> b == []
    ensures b == [] <==> Closed(TrailOf(init, b)) == Nothing
  {
    if b != [] {
      NoRunYet(init, Front(b));
    }
  }

  function Label(r: seq<ActiveTx>, heavy: bool): seq<ExecTx> {
    if r == [] then [] else Label(Front(r), heavy) + [ExecTx(heavy, Back(r).before, Back(r).after)]
  }

  /** Appending one transaction that starts where the execution ends. */
  lemma {:induction false} AppendOne(init: Roots, exec: seq<ExecTx>, x: ActiveTx, heavy: bool)
    requires Continuous(init, exec) && x.index == |exec| && x.before == EndRoots(init, exec)
    ensures var longer := exec + [ExecTx(heavy, x.before, x.after)];
            && Continuous(init, longer)
            && EndRoots(init, longer) == x.after
            && Project(longer, heavy) == Project(exec, heavy) + [x]
            && Project(longer, !heavy) == Project(exec, !heavy)
  {
    assert Front(exec + [ExecTx(heavy, x.before, x.after)]) == exec;
  }

  /** Appending a run to an execution that ends where the run starts. */
  lemma {:induction false} AppendRun(init: Roots, exec: seq<ExecTx>, r: seq<ActiveTx>, to: Roots, heavy: bool)
    requires Continuous(init, exec) && IsRun(r, |exec| - 1, EndRoots(init, exec), to)
    ensures var longer := exec + Label(r, heavy);
            && |longer| == |exec| + |r|
            && Continuous(init, longer)
            && EndRoots(init, longer) == to
            && Project(longer, heavy) == Project(exec, heavy) + r
            && Project(longer, !heavy) == Project(exec, !heavy)
    decreases |r|
  {
    var x, front := Back(r), Front(r);
    var shorter := exec + Label(front, heavy);
    if |r| == 1 {
      assert shorter == exec;
    } else {
      AppendRun(init, exec, front, x.before, heavy);
    }
    assert Project(shorter, heavy) == Project(exec, heavy) + front;
    AppendOne(init, shorter, x, heavy);
    assert shorter + [ExecTx(heavy, x.before, x.after)] == exec + Label(r, heavy);
    AppendBack(Project(exec, heavy), r);
  }

  lemma AppendBack<T>(s: seq<T>, r: seq<T>)
    requires r != []
    ensures s + Front(r) + [Back(r)] == s + r
  {
  }

  /** exec ends with chain a, and its projections are a and b. */
  predicate Interleaved(init: Roots, a: seq<ActiveTx>, b: seq<ActiveTx>, side: bool, exec: seq<ExecTx>) {
    && Continuous(init, exec)
    && Project(exec, side) == a && Project(exec, !side) == b
    && |exec| == TrailOf(init, a).last + 1
    && EndRoots(init, exec) == TrailOf(init, a).prevNew
  }

  lemma {:induction false} InterleaveNeighbour(init: Roots, a: seq<ActiveTx>, x: ActiveTx, b: seq<ActiveTx>, side: bool,
                                               exec: seq<ExecTx>)
    requires Interleaved(init, a, b, side, exec)
    requires x.index == TrailOf(init, a).last + 1 && x.before == TrailOf(init, a).prevNew
    ensures Interleaved(init, a + [x], b, side, exec + [ExecTx(side, x.before, x.after)])
  {
    AppendOne(init, exec, x, side);
    assert Front(a + [x]) == a;
  }

  lemma {:induction false} InterleaveJump(init: Roots, a: seq<ActiveTx>, x: ActiveTx, rest: seq<ActiveTx>,
                                          run: seq<ActiveTx>,
                       side: bool, exec: seq<ExecTx>)
    requires Interleaved(init, a, rest, side, exec)
    requires var p := TrailOf(init, a);
             IsRun(run, p.last, p.prevNew, x.before) && x.index == p.last + |run| + 1
    ensures Interleaved(init, a + [x], rest + run, side,
                        exec + Label(run, !side) + [ExecTx(side, x.before, x.after)])
  {
    AppendRun(init, exec, run, x.before, !side);
    AppendOne(init, exec + Label(run, !side), x, side);
    assert Front(a + [x]) == a;
  }

  /** The last run of b is the one claimed by the jump to x. */
  lemma ClaimedRun(init: Roots, p: Trail, x: ActiveTx, b: seq<ActiveTx>)
      returns (rest: seq<ActiveTx>, run: seq<ActiveTx>)
    requires TrailAccepts(init, b)
    requires Closed(TrailOf(init, b)) == Then(p.claimed, Segment(p.last, x.index, p.prevNew, x.before))
    ensures b == rest + run && TrailAccepts(init, rest)
    ensures Closed(TrailOf(init, rest)) == p.claimed
    ensures IsRun(run, p.last, p.prevNew, x.before) && x.index == p.last + |run| + 1
  {
    NoRunYet(init, b);
    var q := TrailOf(init, b);
    rest, run := SplitLastRun(init, b);
    assert q.covered == p.claimed;
  }

  /**
   When the closed runs of one chain are the gaps the other claims, the two chains are the
   projections of one continuous execution that ends with the claiming chain.
   */
  lemma {:induction false} Interleave(init: Roots, a: seq<ActiveTx>, b: seq<ActiveTx>, side: bool)
      returns (exec: seq<ExecTx>)
    requires TrailAccepts(init, a) && TrailAccepts(init, b)
    requires Closed(TrailOf(init, b)) == TrailOf(init, a).claimed
    ensures Interleaved(init, a, b, side, exec)
    decreases |a|
  {
    if a == [] {
      NoRunYet(init, b);
      exec := [];
    } else {
      var p, x := TrailOf(init, Front(a)), Back(a);
      assert a == Front(a) + [x];
      if x.index - p.last == 1 {
        exec := Interleave(init, Front(a), b, side);
        InterleaveNeighbour(init, Front(a), x, b, side, exec);
        exec := exec + [ExecTx(side, x.before, x.after)];
      } else {
        var rest, run := ClaimedRun(init, p, x, b);
        exec := Interleave(init, Front(a), rest, side);
        InterleaveJump(init, Front(a), x, rest, run, side, exec);
        exec := exec + Label(run, !side) + [ExecTx(side, x.before, x.after)];
      }
    }
  }

  // ---------- from the execution to the cross-check ----------

  /** Neighbouring indices differ by at most 2^32, counting from -1. */
  predicate GapsFit(a: seq<ActiveTx>) {
    a != [] ==>
      && GapsFit(Front(a))
      && Back(a).index - (if Front(a) == [] then -1 else Back(Front(a)).index) <= TWO_32
  }

  lemma {:induction false} AcceptedGapsFit(init: Roots, a: seq<ActiveTx>)
    requires TrailAccepts(init, a)
    ensures GapsFit(a)
    ensures a != [] ==> TrailOf(init, a).last == Back(a).index
  {
    if a != [] {
      AcceptedGapsFit(init, Front(a));
    }
  }

  /** The trail e of the chain that saw the last of n transactions, against the other trail o. */
  predicate Interlocked(e: Trail, o: Trail, n: nat, end: Roots) {
    && e.last == n - 1 && e.prevNew == end
    && o.last <= e.last && (n > 0 ==> o.last < e.last)
    && e.runPrev == o.last && e.runStart == o.prevNew
    && e.covered == o.claimed
    && Closed(o) == e.claimed
  }

  /** Both projections of a continuous execution are accepted, and they mirror each other. */
  lemma {:induction false} ProjectionsInterlock(init: Roots, exec: seq<ExecTx>, side: bool)
    requires Continuous(init, exec) && (exec != [] ==> Back(exec).heavy == side)
    requires GapsFit(Project(exec, side)) && GapsFit(Project(exec, !side))
    ensures TrailAccepts(init, Project(exec, side)) && TrailAccepts(init, Project(exec, !side))
    ensures Interlocked(TrailOf(init, Project(exec, side)), TrailOf(init, Project(exec, !side)),
                        |exec|, EndRoots(init, exec))
  {
    if exec != [] {
      var rest, x := Front(exec), Back(exec);
      var mine, theirs, end := Project(rest, side), Project(rest, !side), EndRoots(init, rest);
      var next := ActiveTx(|rest|, x.before, x.after);
      assert Project(exec, side) == mine + [next] && Project(exec, !side) == theirs;
      assert Front(mine + [next]) == mine;
      if rest == [] || Back(rest).heavy == side {
        ProjectionsInterlock(init, rest, side);
        InterlockStep(init, mine, theirs, true, next, end);
      } else {
        ProjectionsInterlock(init, rest, !side);
        InterlockStep(init, mine, theirs, false, next, end);
      }
    }
  }

  /** The projection that takes the next transaction, whether or not the execution ended with it so far. */
  lemma {:induction false} InterlockStep(init: Roots, a: seq<ActiveTx>, o: seq<ActiveTx>, ends: bool, x: ActiveTx,
                                         end: Roots)
    requires TrailAccepts(init, a) && GapsFit(a + [x])
    requires x.index >= 0 && x.before == end && (ends || x.index > 0)
    requires var p, q := TrailOf(init, a), TrailOf(init, o);
             if ends then Interlocked(p, q, x.index, end) else Interlocked(q, p, x.index, end)
    ensures TrailAccepts(init, a + [x])
    ensures Interlocked(TrailOf(init, a + [x]), TrailOf(init, o), x.index + 1, x.after)
  {
    assert Front(a + [x]) == a;
    AcceptedGapsFit(init, a);
    InterlockedTakes(TrailOf(init, a), TrailOf(init, o), ends, x, end);
  }

  lemma InterlockedTakes(p: Trail, o: Trail, ends: bool, x: ActiveTx, end: Roots)
    requires x.index >= 0 && x.before == end && x.index - p.last <= TWO_32 && (ends || x.index > 0)
    requires if ends then Interlocked(p, o, x.index, end) else Interlocked(o, p, x.index, end)
    ensures Takes(p, x) && Interlocked(Extend(p, x), o, x.index + 1, x.after)
  {
  }

  lemma {:induction false} ProjectAppend(exec: seq<ExecTx>, e: ExecTx, heavy: bool)
    ensures Project(exec + [e], heavy)
            == Project(exec, heavy) + if e.heavy == heavy then [ActiveTx(|exec|, e.before, e.after)] else []
  {
    assert Front(exec + [e]) == exec;
  }

  /** The cross-check on the lists of segments of the light and the heavy trail. */
  predicate TrailChecks(l: Trail, h: Trail, n: int, end: Roots) {
    && (h.last + 1 == n || l.last + 1 == n)
    && end == (if h.last + 1 == n then h.prevNew else l.prevNew)
    && Closed(h) == ClosedClaims(l, n, end)
    && Closed(l) == ClosedClaims(h, n, end)
  }

  /** The closed lists of the two projections are each other's claims. */
  lemma {:induction false} ProjectionsMirror(init: Roots, exec: seq<ExecTx>)
    requires Continuous(init, exec)
    requires GapsFit(Project(exec, true)) && GapsFit(Project(exec, false))
    ensures TrailAccepts(init, Project(exec, true)) && TrailAccepts(init, Project(exec, false))
    ensures var h, l := TrailOf(init, Project(exec, true)), TrailOf(init, Project(exec, false));
            var n, end := |exec|, EndRoots(init, exec);
            && (h.last + 1 == n <==> exec == [] || Back(exec).heavy)
            && (l.last + 1 == n <==> exec == [] || !Back(exec).heavy)
            && h.last < n && l.last < n
            && TrailChecks(l, h, n, end)
  {
    ProjectionsInterlock(init, exec, exec == [] || Back(exec).heavy);
  }
}
