/** The two directions of the block cross-check, in the circuit's own field arithmetic. */
module JumpTheorems {
  import opened Goldilocks
  import opened Jump
  import opened JumpTrail
  import opened JumpExecution

  /** The jump state after a chain's transactions, and the roots of its last one. */
  function Expose(init: Roots, txs: seq<TxView>): Exposure
    requires txs != []
  {
    Exposure(Run(Initial(init), txs), Back(txs).after)
  }

  predicate BlockAccepts(init: Roots, light: seq<TxView>, heavy: seq<TxView>)
    requires light != [] && heavy != []
  {
    && RunAccepts(Initial(init), light)
    && RunAccepts(Initial(init), heavy)
    && JumpChecks(Expose(init, light), Expose(init, heavy))
  }

  /** The field counts the active transactions of the block. */
  predicate Countable(light: seq<TxView>, heavy: seq<TxView>) {
    |Actives(light)| + |Actives(heavy)| < P
  }

  /** exec is a sequential execution of which the chains are the two projections, padding aside. */
  predicate Realizes(init: Roots, light: seq<TxView>, heavy: seq<TxView>, exec: seq<ExecTx>)
    requires light != [] && heavy != []
  {
    && Continuous(init, exec)
    && Project(exec, true) == Actives(heavy)
    && Project(exec, false) == Actives(light)
  }

  /** The roots exposed by the chain that ends the block; the heavy one when no chain moved. */
  function EndingChainRoots(light: seq<TxView>, heavy: seq<TxView>, exec: seq<ExecTx>): Roots
    requires light != [] && heavy != []
  {
    if exec == [] || Back(exec).heavy then Back(heavy).after else Back(light).after
  }

  predicate WellFormed(init: Roots, txs: seq<TxView>) {
    PaddingRepeatsLast(init, txs) && GapsFit(Actives(txs))
  }

  // ---------- hashes and lists ----------

  lemma CoverageEncodes(p: Trail, count: nat, total: Felt, end: Roots)
    requires 0 <= p.last - p.runPrev < P
    ensures FinalizeJump(EncodeTrail(p, count), total, end).coverage == HashSegments(Closed(p))
  {
    RunShows(p);
  }

  lemma {:induction false} ClaimsEncode(p: Trail, count: nat, total: int, end: Roots)
    requires 0 <= p.last - p.runPrev < P
    ensures FinalizeJump(EncodeTrail(p, count), Encode(total), end).claims
            == if Encode(p.last + 1) == Encode(total) then HashSegments(p.claimed)
               else HashSegments(Then(p.claimed, Segment(p.last, total, p.prevNew, end)))
  {
    RunShows(p);
  }

  /** Whether a chain ends at the total shows in the field. */
  lemma EndEncodes(last: int, total: int)
    requires -1 <= last <= P - 2 && 0 <= total <= P - 1
    ensures Add(Encode(last), 1) == Encode(total) <==> last + 1 == total
    ensures Encode(last + 1) == Encode(total) <==> last + 1 == total
  {
    EncodeSmall(1);
    EncodeAdd(last, 1);
    EncodeInjective(0, last + 1, total);
  }

  lemma FinalizeEncodes(p: Trail, count: nat, total: int, end: Roots)
    requires 0 <= p.last - p.runPrev < P && -1 <= p.last <= P - 2 && 0 <= total <= P - 1
    ensures FinalizeJump(EncodeTrail(p, count), Encode(total), end)
            == Final(HashSegments(Closed(p)), HashSegments(ClosedClaims(p, total, end)))
  {
    EndEncodes(p.last, total);
    CoverageEncodes(p, count, Encode(total), end);
    ClaimsEncode(p, count, total, end);
  }

  /** A chain's jump state is the encoding of its accepted trail. */
  predicate Encodes(init: Roots, j: JumpState, a: seq<ActiveTx>) {
    TrailAccepts(init, a) && |a| < P && j == EncodeTrail(TrailOf(init, a), |a|)
  }

  /** If one chain claims the covered hash of the other at the end, it claims the other's runs. */
  lemma {:induction false} HashesDecide(init: Roots, mine: JumpState, theirs: JumpState, a: seq<ActiveTx>,
                                        b: seq<ActiveTx>, n: int, end: Roots)
    requires Encodes(init, mine, a) && Encodes(init, theirs, b)
    requires Add(mine.lastActive, 1) == Encode(n)
    requires FinalizeJump(theirs, Encode(n), end).coverage == FinalizeJump(mine, Encode(n), end).claims
    ensures Closed(TrailOf(init, b)) == TrailOf(init, a).claimed
  {
    var p, q := TrailOf(init, a), TrailOf(init, b);
    TrailFits(init, a);
    TrailFits(init, b);
    RunShows(p);
    ClaimsEncode(p, |a|, n, end);
    CoverageEncodes(q, |b|, Encode(n), end);
    ClosedNarrow(q, |b|);
    HashSegmentsInjective(Closed(q), p.claimed);
  }

  /**
   One list decides: when one chain claims exactly the runs of the other, the two are the projections
   of one execution, the claiming chain ends it, and the other list agrees as well.
   */
  lemma OneListDecides(init: Roots, a: seq<ActiveTx>, b: seq<ActiveTx>, side: bool)
      returns (exec: seq<ExecTx>)
    requires TrailAccepts(init, a) && TrailAccepts(init, b)
    requires Closed(TrailOf(init, b)) == TrailOf(init, a).claimed
    ensures Continuous(init, exec) && Project(exec, side) == a && Project(exec, !side) == b
    ensures |exec| == |a| + |b| == TrailOf(init, a).last + 1 && EndRoots(init, exec) == TrailOf(init, a).prevNew
    ensures var l, h := TrailOf(init, Project(exec, false)), TrailOf(init, Project(exec, true));
            && TrailChecks(l, h, |exec|, EndRoots(init, exec))
            && l.last < |exec| && h.last < |exec|
            && (exec != [] ==> Back(exec).heavy == side && TrailOf(init, b).last + 1 != |exec|)
  {
    exec := Interleave(init, a, b, side);
    ProjectLengths(exec);
    AcceptedGapsFit(init, a);
    AcceptedGapsFit(init, b);
    ProjectionsMirror(init, exec);
  }

  lemma OneListChecks(init: Roots, a: seq<ActiveTx>, b: seq<ActiveTx>, side: bool)
    requires TrailAccepts(init, a) && TrailAccepts(init, b)
    requires Closed(TrailOf(init, b)) == TrailOf(init, a).claimed
    ensures var l, h := TrailOf(init, if side then b else a), TrailOf(init, if side then a else b);
            TrailChecks(l, h, |a| + |b|, TrailOf(init, a).prevNew) && l.last < |a| + |b| && h.last < |a| + |b|
    ensures TrailOf(init, a).last + 1 == |a| + |b|
  {
    var exec := OneListDecides(init, a, b, side);
  }

  /** The cross-check on lists, seen from the chain that ends the block. */
  lemma ListsDecide(init: Roots, l: Trail, h: Trail, b: seq<ActiveTx>, a: seq<ActiveTx>, n: int,
                    end: Roots) returns (exec: seq<ExecTx>)
    requires TrailAccepts(init, a) && TrailAccepts(init, b) && l == TrailOf(init, b) && h == TrailOf(init, a)
    requires n == |a| + |b| && TrailChecks(l, h, n, end)
    ensures Continuous(init, exec) && Project(exec, true) == a && Project(exec, false) == b && |exec| == n
    ensures l.last < n && h.last < n
  {
    if h.last + 1 == n {
      exec := OneListDecides(init, a, b, true);
    } else {
      exec := OneListDecides(init, b, a, false);
    }
  }

  /** One chain ends the block, shows its roots, and claims the covered hash of the other. */
  predicate EnderChecks(light: Exposure, heavy: Exposure) {
    var total, end := TotalTxCount(light, heavy), BlockRoots(light, heavy);
    if AtEnd(heavy, total) then
      && end == heavy.jump.prevNew
      && FinalizeJump(light.jump, total, end).coverage == FinalizeJump(heavy.jump, total, end).claims
    else
      && AtEnd(light, total) && end == light.jump.prevNew
      && FinalizeJump(heavy.jump, total, end).coverage == FinalizeJump(light.jump, total, end).claims
  }

  lemma EnderFromChecks(light: Exposure, heavy: Exposure)
    requires JumpChecks(light, heavy)
    ensures EnderChecks(light, heavy)
  {
  }

  /** Whether a chain ends the block shows in the field. */
  lemma EndsMatch(light: Exposure, heavy: Exposure, l: Trail, lc: nat, h: Trail, hc: nat)
    requires light.jump == EncodeTrail(l, lc) && heavy.jump == EncodeTrail(h, hc)
    requires -1 <= l.last < lc + hc < P && -1 <= h.last < lc + hc
    ensures TotalTxCount(light, heavy) == Encode(lc + hc)
    ensures AtEnd(heavy, TotalTxCount(light, heavy)) <==> h.last + 1 == lc + hc
    ensures AtEnd(light, TotalTxCount(light, heavy)) <==> l.last + 1 == lc + hc
  {
    EncodeAdd(lc, hc);
    EndEncodes(h.last, lc + hc);
    EndEncodes(l.last, lc + hc);
  }

  /** What the ending chain shows already makes two accepted chains the projections of one execution. */
  lemma EnderDecides(init: Roots, light: Exposure, heavy: Exposure, b: seq<ActiveTx>, a: seq<ActiveTx>)
      returns (exec: seq<ExecTx>)
    requires Encodes(init, light.jump, b) && Encodes(init, heavy.jump, a) && |a| + |b| < P
    requires EnderChecks(light, heavy)
    ensures Continuous(init, exec) && Project(exec, true) == a && Project(exec, false) == b && |exec| == |a| + |b|
    ensures EndRoots(init, exec) == BlockRoots(light, heavy)
    ensures TrailChecks(TrailOf(init, b), TrailOf(init, a), |exec|, BlockRoots(light, heavy))
    ensures exec != [] ==>
              && (AtEnd(heavy, TotalTxCount(light, heavy)) <==> Back(exec).heavy)
              && (AtEnd(light, TotalTxCount(light, heavy)) <==> !Back(exec).heavy)
  {
    var n, end := |a| + |b|, BlockRoots(light, heavy);
    EncodeAdd(|b|, |a|);
    if AtEnd(heavy, TotalTxCount(light, heavy)) {
      HashesDecide(init, heavy.jump, light.jump, a, b, n, end);
      exec := OneListDecides(init, a, b, true);
    } else {
      HashesDecide(init, light.jump, heavy.jump, b, a, n, end);
      exec := OneListDecides(init, b, a, false);
    }
    TrailRange(init, a);
    TrailRange(init, b);
    EndsMatch(light, heavy, TrailOf(init, b), |b|, TrailOf(init, a), |a|);
  }

  /** A claimed list that equals the covered one is hashed to the same. */
  lemma SameList(p: Trail, pc: nat, q: Trail, qc: nat, total: int, end: Roots)
    requires 0 <= p.last - p.runPrev < P && -1 <= p.last <= P - 2
    requires 0 <= q.last - q.runPrev < P && -1 <= q.last <= P - 2 && 0 <= total <= P - 1
    requires Closed(p) == ClosedClaims(q, total, end)
    ensures FinalizeJump(EncodeTrail(p, pc), Encode(total), end).coverage
            == FinalizeJump(EncodeTrail(q, qc), Encode(total), end).claims
  {
    FinalizeEncodes(p, pc, total, end);
    FinalizeEncodes(q, qc, total, end);
  }

  lemma ChecksFromHashes(light: Exposure, heavy: Exposure, total: Felt, end: Roots)
    requires total == TotalTxCount(light, heavy) && end == BlockRoots(light, heavy)
    requires AtEnd(heavy, total) || AtEnd(light, total)
    requires end == if AtEnd(heavy, total) then heavy.jump.prevNew else light.jump.prevNew
    requires FinalizeJump(heavy.jump, total, end).coverage == FinalizeJump(light.jump, total, end).claims
    requires FinalizeJump(light.jump, total, end).coverage == FinalizeJump(heavy.jump, total, end).claims
    ensures JumpChecks(light, heavy)
  {
  }

  /** Trails that pass the cross-check on lists pass the one on hashes. */
  lemma ChecksFromLists(light: Exposure, heavy: Exposure, l: Trail, lc: nat, h: Trail, hc: nat)
    requires light.jump == EncodeTrail(l, lc) && heavy.jump == EncodeTrail(h, hc)
    requires -1 <= l.last < lc + hc < P && -1 <= h.last < lc + hc
    requires 0 <= l.last - l.runPrev < P && 0 <= h.last - h.runPrev < P
    requires TrailChecks(l, h, lc + hc, BlockRoots(light, heavy))
    ensures JumpChecks(light, heavy)
  {
    var n, end := lc + hc, BlockRoots(light, heavy);
    EndsMatch(light, heavy, l, lc, h, hc);
    SameList(h, hc, l, lc, n, end);
    SameList(l, lc, h, hc, n, end);
    ChecksFromHashes(light, heavy, TotalTxCount(light, heavy), end);
  }

  lemma {:induction false} TrailRange(init: Roots, a: seq<ActiveTx>)
    requires TrailAccepts(init, a) && |a| < P
    ensures -1 <= TrailOf(init, a).last && 0 <= TrailOf(init, a).last - TrailOf(init, a).runPrev < P
  {
    TrailFits(init, a);
  }

  lemma {:induction false} HashesFromLists(init: Roots, light: Exposure, heavy: Exposure, l: Trail, h: Trail,
                                           b: seq<ActiveTx>, a: seq<ActiveTx>)
    requires Encodes(init, light.jump, b) && Encodes(init, heavy.jump, a) && |a| + |b| < P
    requires l == TrailOf(init, b) && h == TrailOf(init, a)
    requires TrailChecks(l, h, |b| + |a|, BlockRoots(light, heavy))
    ensures JumpChecks(light, heavy)
  {
    var _ := ListsDecide(init, l, h, b, a, |b| + |a|, BlockRoots(light, heavy));
    TrailRange(init, a);
    TrailRange(init, b);
    ChecksFromLists(light, heavy, l, |b|, h, |a|);
  }

  /**
   The cross-check of the field on two chains' hashes is the cross-check of the integers on their lists,
   for any two chains whose active transactions the field counts.
   */
  lemma {:induction false} ChecksEncode(init: Roots, light: Exposure, heavy: Exposure, b: seq<ActiveTx>,
                                        a: seq<ActiveTx>)
    requires Encodes(init, light.jump, b) && Encodes(init, heavy.jump, a) && |a| + |b| < P
    ensures JumpChecks(light, heavy) <==>
            TrailChecks(TrailOf(init, b), TrailOf(init, a), |b| + |a|, BlockRoots(light, heavy))
  {
    var l, h, n, end := TrailOf(init, b), TrailOf(init, a), |b| + |a|, BlockRoots(light, heavy);
    if JumpChecks(light, heavy) {
      EnderFromChecks(light, heavy);
      var _ := EnderDecides(init, light, heavy, b, a);
    } else if TrailChecks(l, h, n, end) {
      HashesFromLists(init, light, heavy, l, h, b, a);
    }
  }

  // ---------- chains ----------

  /**
   An accepted chain is the encoding of the trail of its lifted transactions; they are its own when they
   stay below the modulus.
   */
  lemma {:induction false} AcceptedChain(init: Roots, txs: seq<TxView>)
    requires txs != [] && |Actives(txs)| < P
    ensures RunAccepts(Initial(init), txs) <==> TrailAccepts(init, Lifted(init, txs)) && PaddingRepeatsLast(init, txs)
    ensures |Lifted(init, txs)| == |Actives(txs)|
    ensures RunAccepts(Initial(init), txs) ==> Encodes(init, Expose(init, txs).jump, Lifted(init, txs))
    ensures RunAccepts(Initial(init), txs) && TrailOf(init, Lifted(init, txs)).last < P ==>
              Lifted(init, txs) == Actives(txs) && WellFormed(init, txs)
  {
    RunLifts(init, txs);
    if RunAccepts(Initial(init), txs) && TrailOf(init, Lifted(init, txs)).last < P {
      LiftedIsActives(init, txs);
      AcceptedGapsFit(init, Actives(txs));
    }
  }

  /** Every position of the block belongs to exactly one chain, the one of its type. */
  lemma {:induction false} ProjectionsPartition(exec: seq<ExecTx>, heavy: bool, a: ActiveTx)
    ensures a in Project(exec, heavy) <==>
            0 <= a.index < |exec| && exec[a.index] == ExecTx(heavy, a.before, a.after)
  {
    if exec != [] {
      ProjectionsPartition(Front(exec), heavy, a);
    }
  }

  /** Accepted chains whose ending chain's checks hold are the projections of one execution. */
  lemma EnderSound(init: Roots, light: seq<TxView>, heavy: seq<TxView>) returns (exec: seq<ExecTx>)
    requires light != [] && heavy != [] && Countable(light, heavy)
    requires RunAccepts(Initial(init), light) && RunAccepts(Initial(init), heavy)
    requires EnderChecks(Expose(init, light), Expose(init, heavy))
    ensures Realizes(init, light, heavy, exec) && |exec| == |Actives(light)| + |Actives(heavy)|
    ensures WellFormed(init, light) && WellFormed(init, heavy)
    ensures EndRoots(init, exec) == BlockRoots(Expose(init, light), Expose(init, heavy))
    ensures exec != [] ==>
              var l, h := Expose(init, light), Expose(init, heavy);
              && (AtEnd(h, TotalTxCount(l, h)) <==> Back(exec).heavy)
              && (AtEnd(l, TotalTxCount(l, h)) <==> !Back(exec).heavy)
    ensures BlockRoots(Expose(init, light), Expose(init, heavy)) == EndingChainRoots(light, heavy, exec)
    ensures TrailChecks(TrailOf(init, Actives(light)), TrailOf(init, Actives(heavy)), |exec|,
                        BlockRoots(Expose(init, light), Expose(init, heavy)))
  {
    var a, b := Lifted(init, heavy), Lifted(init, light);
    AcceptedChain(init, light);
    AcceptedChain(init, heavy);
    exec := EnderDecides(init, Expose(init, light), Expose(init, heavy), b, a);
    var _ := ListsDecide(init, TrailOf(init, b), TrailOf(init, a), b, a, |exec|,
                         BlockRoots(Expose(init, light), Expose(init, heavy)));
  }

  /**
   Soundness: when both chains and the cross-check are accepted, the active transactions merged by
   index are one gap-free execution from the initial roots to the block's roots, and exactly one
   chain sits at its end.
   */
  lemma JumpSoundness(init: Roots, light: seq<TxView>, heavy: seq<TxView>) returns (exec: seq<ExecTx>)
    requires light != [] && heavy != [] && Countable(light, heavy)
    requires BlockAccepts(init, light, heavy)
    ensures Realizes(init, light, heavy, exec)
    ensures |exec| == |Actives(light)| + |Actives(heavy)|
    ensures WellFormed(init, light) && WellFormed(init, heavy)
    ensures EndRoots(init, exec) == BlockRoots(Expose(init, light), Expose(init, heavy))
                                 == EndingChainRoots(light, heavy, exec)
    ensures exec != [] ==>
            var l, h := Expose(init, light), Expose(init, heavy);
            && (AtEnd(h, TotalTxCount(l, h)) <==> Back(exec).heavy)
            && (AtEnd(l, TotalTxCount(l, h)) <==> !Back(exec).heavy)
  {
    EnderFromChecks(Expose(init, light), Expose(init, heavy));
    exec := EnderSound(init, light, heavy);
  }

  lemma EnderSuffices(init: Roots, light: Exposure, heavy: Exposure, b: seq<ActiveTx>,
                      a: seq<ActiveTx>)
    requires Encodes(init, light.jump, b) && Encodes(init, heavy.jump, a) && |a| + |b| < P
    requires EnderChecks(light, heavy)
    ensures JumpChecks(light, heavy)
  {
    var n, end := |a| + |b|, BlockRoots(light, heavy);
    EncodeAdd(|b|, |a|);
    if AtEnd(heavy, TotalTxCount(light, heavy)) {
      HashesDecide(init, heavy.jump, light.jump, a, b, n, end);
      OneListChecks(init, a, b, true);
    } else {
      HashesDecide(init, light.jump, heavy.jump, b, a, n, end);
      OneListChecks(init, b, a, false);
    }
    TrailRange(init, a);
    TrailRange(init, b);
    ChecksFromLists(light, heavy, TrailOf(init, b), |b|, TrailOf(init, a), |a|);
  }

  /**
   One of the two hash equalities decides: with two accepted chains, what the ending chain shows makes
   the whole cross-check hold.
   */
  lemma {:induction false} OtherEqualityFollows(init: Roots, light: seq<TxView>, heavy: seq<TxView>)
    requires light != [] && heavy != [] && Countable(light, heavy)
    requires RunAccepts(Initial(init), light) && RunAccepts(Initial(init), heavy)
    requires EnderChecks(Expose(init, light), Expose(init, heavy))
    ensures JumpChecks(Expose(init, light), Expose(init, heavy))
  {
    AcceptedChain(init, light);
    AcceptedChain(init, heavy);
    EnderSuffices(init, Expose(init, light), Expose(init, heavy), Lifted(init, light), Lifted(init, heavy));
  }

  /** The projections of an execution, as exposed: who ends it shows its roots. */
  lemma {:induction false} MirrorChecks(init: Roots, light: Exposure, heavy: Exposure, b: seq<ActiveTx>,
                                        a: seq<ActiveTx>, exec: seq<ExecTx>)
    requires Encodes(init, light.jump, b) && Encodes(init, heavy.jump, a)
    requires Continuous(init, exec) && Project(exec, true) == a && Project(exec, false) == b && |exec| < P
    requires GapsFit(a) && GapsFit(b)
    requires EndRoots(init, exec) == if exec == [] || Back(exec).heavy then heavy.roots else light.roots
    ensures JumpChecks(light, heavy) && BlockRoots(light, heavy) == EndRoots(init, exec)
  {
    ProjectionsMirror(init, exec);
    ProjectLengths(exec);
    TrailRange(init, a);
    TrailRange(init, b);
    EndsMatch(light, heavy, TrailOf(init, b), |b|, TrailOf(init, a), |a|);
    ChecksEncode(init, light, heavy, b, a);
  }

  /**
   Completeness: the two projections of any continuous execution, padded with transactions that
   repeat their chain's last index and exposing the final roots at the ending chain, are accepted.
   */
  lemma JumpCompleteness(init: Roots, light: seq<TxView>, heavy: seq<TxView>, exec: seq<ExecTx>)
    requires light != [] && heavy != [] && Countable(light, heavy)
    requires Realizes(init, light, heavy, exec)
    requires WellFormed(init, light) && WellFormed(init, heavy)
    requires EndingChainRoots(light, heavy, exec) == EndRoots(init, exec)
    ensures BlockAccepts(init, light, heavy)
    ensures BlockRoots(Expose(init, light), Expose(init, heavy)) == EndRoots(init, exec)
  {
    ProjectionsMirror(init, exec);
    ProjectLengths(exec);
    ActivesAccepted(init, light);
    ActivesAccepted(init, heavy);
    MirrorChecks(init, Expose(init, light), Expose(init, heavy), Actives(light), Actives(heavy), exec);
  }

  /** A chain whose own indices form a trail is accepted. */
  lemma {:induction false} ActivesAccepted(init: Roots, txs: seq<TxView>)
    requires txs != [] && |Actives(txs)| < P
    requires TrailAccepts(init, Actives(txs)) && PaddingRepeatsLast(init, txs)
    ensures RunAccepts(Initial(init), txs) && Encodes(init, Expose(init, txs).jump, Actives(txs))
  {
    ActivesLift(init, txs);
    AcceptedChain(init, txs);
  }

  /** The block is accepted exactly when its chains are the projections of one execution. */
  lemma JumpExact(init: Roots, light: seq<TxView>, heavy: seq<TxView>)
    requires light != [] && heavy != [] && Countable(light, heavy)
    ensures BlockAccepts(init, light, heavy) <==>
            && WellFormed(init, light) && WellFormed(init, heavy)
            && exists exec :: Realizes(init, light, heavy, exec)
                              && EndingChainRoots(light, heavy, exec) == EndRoots(init, exec)
  {
    if BlockAccepts(init, light, heavy) {
      var exec := JumpSoundness(init, light, heavy);
    }
    forall exec | && Realizes(init, light, heavy, exec)
                  && EndingChainRoots(light, heavy, exec) == EndRoots(init, exec)
                  && WellFormed(init, light) && WellFormed(init, heavy)
      ensures BlockAccepts(init, light, heavy)
    {
      JumpCompleteness(init, light, heavy, exec);
    }
  }

  // ---------- one transaction more than the field counts ----------

  /** Neighbouring transactions that change nothing, from position 0 on. */
  function Neighbours(roots: Roots, k: nat): seq<TxView> {
    if k == 0 then [] else Neighbours(roots, k - 1) + [TxView(Encode(k - 1), 1, roots, roots)]
  }

  /** The state after k of them: no gap was ever seen. */
  function NeighbourState(roots: Roots, k: int): JumpState {
    JumpState(Encode(k - 1), roots, NEG_ONE, roots, Zero, Zero, Encode(k))
  }

  lemma NeighbourStep(roots: Roots, k: nat, t: TxView)
    requires t == TxView(Encode(k), 1, roots, roots)
    ensures StepAccepts(NeighbourState(roots, k), t)
    ensures Step(NeighbourState(roots, k), t) == NeighbourState(roots, k + 1)
  {
    EncodeSmall(1);
    EncodeAdd(k, k - 1);
    EncodeAdd(k, 1);
    EncodeInjective(k - 1, k, k - 1);
  }

  lemma {:induction false} NeighboursAccepted(roots: Roots, k: nat)
    ensures RunAccepts(Initial(roots), Neighbours(roots, k))
    ensures Run(Initial(roots), Neighbours(roots, k)) == NeighbourState(roots, k)
  {
    if k == 0 {
      EncodeSmall(-1);
    } else {
      var front, t := Neighbours(roots, k - 1), TxView(Encode(k - 1), 1, roots, roots);
      NeighboursAccepted(roots, k - 1);
      NeighbourStep(roots, k - 1, t);
      assert (front + [t])[..|front + [t]| - 1] == front;
    }
  }

  lemma {:induction false} NeighboursActive(roots: Roots, k: nat)
    ensures |Neighbours(roots, k)| == |Actives(Neighbours(roots, k))| == k
    ensures k > 0 ==> Back(Actives(Neighbours(roots, k))).index == Encode(k - 1)
    ensures k > 0 ==> Back(Neighbours(roots, k)).after == roots
  {
    if k > 0 {
      NeighboursActive(roots, k - 1);
      ActivesAppend(roots, Neighbours(roots, k - 1), TxView(Encode(k - 1), 1, roots, roots));
    }
  }

  /** The padding of a chain that has seen nothing. */
  function Idle(roots: Roots): seq<TxView> {
    [TxView(NEG_ONE, TX_TYPE_EMPTY, roots, roots)]
  }

  lemma IdleAccepted(roots: Roots)
    ensures RunAccepts(Initial(roots), Idle(roots)) && Run(Initial(roots), Idle(roots)) == Initial(roots)
    ensures Actives(Idle(roots)) == []
  {
    EncodeSmall(0);
    assert Idle(roots)[..0] == [];
  }

  lemma IdleCheck(roots: Roots, k: nat, light: Exposure, heavy: Exposure)
    requires light == Exposure(Initial(roots), roots) && heavy == Exposure(NeighbourState(roots, k), roots)
    requires P <= k <= P + 1
    ensures JumpChecks(light, heavy) && AtEnd(heavy, TotalTxCount(light, heavy))
    ensures k == P ==> AtEnd(light, TotalTxCount(light, heavy))
  {
    SameRemainder(k - P, k, 1);
    SameRemainder(k - 1 - P, k - 1, 1);
    EncodeSmall(k - P);
    EncodeSmall(k - 1 - P);
  }

  /**
   The bound is tight. With as many transactions as the modulus both chains sit at the end of an accepted
   block; with one more an accepted block is no execution at all.
   */
  lemma BlockWrapsLater(roots: Roots) returns (full: seq<TxView>, over: seq<TxView>, idle: seq<TxView>)
    ensures full != [] && over != [] && idle != [] && Actives(idle) == []
    ensures |Actives(full)| == P && |Actives(over)| == P + 1
    ensures BlockAccepts(roots, idle, full) && BlockAccepts(roots, idle, over)
    ensures var l, h := Expose(roots, idle), Expose(roots, full);
            AtEnd(l, TotalTxCount(l, h)) && AtEnd(h, TotalTxCount(l, h))
    ensures forall exec :: !Realizes(roots, idle, over, exec)
  {
    full, over, idle := Neighbours(roots, P), Neighbours(roots, P + 1), Idle(roots);
    NeighboursAccepted(roots, P);
    NeighboursActive(roots, P);
    NeighboursAccepted(roots, P + 1);
    NeighboursActive(roots, P + 1);
    IdleAccepted(roots);
    IdleCheck(roots, P, Expose(roots, idle), Expose(roots, full));
    IdleCheck(roots, P + 1, Expose(roots, idle), Expose(roots, over));
    forall exec ensures !Realizes(roots, idle, over, exec) {
      ProjectLengths(exec);
    }
  }
}
