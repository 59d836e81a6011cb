/**
 The meaning of a jump state over unbounded integers: a trail keeps the lists of covered and
 claimed segments that the circuit only keeps folded. The field state is the encoding of the
 trail of the integers its gaps lead to; these are the field indices themselves for up to
 2^32 - 1 active transactions, and not for one more.
 */
module JumpTrail {
  import Arith
  import opened Goldilocks
  import opened Jump

  /** An active transaction at its place in the block. */
  datatype ActiveTx = ActiveTx(index: int, before: Roots, after: Roots)

  /** The positions strictly between lo and hi, with the roots at both ends. */
  datatype Segment = Segment(lo: int, hi: int, from: Roots, to: Roots)

  /** A list of segments that grows at its end. */
  datatype Segments = Nothing | Then(front: Segments, last: Segment)

  datatype Trail = Trail(
    last: int,
    prevNew: Roots,
    runPrev: int,
    runStart: Roots,
    covered: Segments,
    claimed: Segments)

  const MAX_ACTIVE: nat := 0xffff_ffff

  function Front<T>(s: seq<T>): seq<T>
    requires s != []
  {
    s[..|s| - 1]
  }

  function Back<T>(s: seq<T>): T
    requires s != []
  {
    s[|s| - 1]
  }

  function Extend(p: Trail, a: ActiveTx): Trail {
    if a.index - p.last == 1 then
      p.(last := a.index, prevNew := a.after)
    else
      Trail(a.index, a.after, a.index - 1, a.before,
            Closed(p), Then(p.claimed, Segment(p.last, a.index, p.prevNew, a.before)))
  }

  /** The covered segments once the open run is closed. */
  function Closed(p: Trail): Segments {
    if p.last == p.runPrev then p.covered
    else Then(p.covered, Segment(p.runPrev, p.last + 1, p.runStart, p.prevNew))
  }

  /** The claimed segments once the part up to total is claimed. */
  function ClosedClaims(p: Trail, total: int, end: Roots): Segments {
    if p.last + 1 == total then p.claimed
    else Then(p.claimed, Segment(p.last, total, p.prevNew, end))
  }

  function TrailOf(init: Roots, a: seq<ActiveTx>): Trail {
    if a == [] then Trail(-1, init, -1, init, Nothing, Nothing)
    else Extend(TrailOf(init, Front(a)), Back(a))
  }

  /** The index grows by at most 2^32, and a neighbour takes over the roots. */
  predicate Takes(p: Trail, a: ActiveTx) {
    && 1 <= a.index - p.last <= TWO_32
    && (a.index - p.last == 1 ==> a.before == p.prevNew)
  }

  /** Indices grow by at most 2^32 and neighbours share their roots. */
  predicate TrailAccepts(init: Roots, a: seq<ActiveTx>) {
    a != [] ==>
      var p := TrailOf(init, Front(a));
      && TrailAccepts(init, Front(a))
      && Takes(p, Back(a))
  }

  function Active(t: TxView): ActiveTx {
    ActiveTx(t.index, t.before, t.after)
  }

  /** The transactions that are not padding. */
  function Actives(txs: seq<TxView>): seq<ActiveTx> {
    if txs == [] then []
    else if Back(txs).txType == TX_TYPE_EMPTY then Actives(Front(txs))
    else Actives(Front(txs)) + [Active(Back(txs))]
  }

  /** Every padding transaction repeats the index of the last active one before it. */
  predicate PaddingRepeatsLast(init: Roots, txs: seq<TxView>) {
    txs != [] ==>
      && PaddingRepeatsLast(init, Front(txs))
      && (Back(txs).txType == TX_TYPE_EMPTY ==>
          Back(txs).index == Encode(TrailOf(init, Actives(Front(txs))).last))
  }

  function HashSegments(s: Segments): HashOut {
    match s
    case Nothing => Zero
    case Then(front, x) => TwoToOne(HashSegments(front), HashRecord(Encode(x.lo), Encode(x.hi), x.from, x.to))
  }

  function EncodeTrail(p: Trail, count: nat): JumpState {
    JumpState(Encode(p.last), p.prevNew, Encode(p.runPrev), p.runStart,
              HashSegments(p.covered), HashSegments(p.claimed), Encode(count))
  }

  /** Where the last of some segments ends. */
  function EndOf(s: Segments): int {
    if s.Nothing? then 0 else s.last.hi
  }

  /** Every segment starts close behind the one before it and is shorter than the field. */
  predicate Narrow(s: Segments) {
    s.Then? ==>
      && Narrow(s.front)
      && -1 <= s.last.lo - EndOf(s.front) <= P - 2
      && 1 <= s.last.hi - s.last.lo <= P
  }

  /** The folded hash gives the segments back. */
  lemma {:induction false} HashSegmentsInjective(s: Segments, t: Segments)
    requires Narrow(s) && Narrow(t)
    ensures HashSegments(s) == HashSegments(t) <==> s == t
  {
    if s.Then? && t.Then? && HashSegments(s) == HashSegments(t) {
      HashSegmentsInjective(s.front, t.front);
      EncodeInjective(EndOf(s.front) - 1, s.last.lo, t.last.lo);
      EncodeInjective(s.last.lo + 1, s.last.hi, t.last.hi);
    }
  }

  /** The lists of a trail are narrow, and its open run is no longer than its transactions are many. */
  predicate Fits(p: Trail, count: nat) {
    && 0 <= p.last - p.runPrev <= count && (p.last == p.runPrev ==> p.last == -1 && p.covered == Nothing)
    && Narrow(p.covered) && Narrow(p.claimed) && EndOf(p.claimed) == p.runPrev + 1
    && -1 <= p.runPrev - EndOf(p.covered) <= TWO_32
  }

  lemma FitsExtends(p: Trail, count: nat, a: ActiveTx)
    requires Fits(p, count) && count < P - 1 && 1 <= a.index - p.last <= TWO_32
    ensures Fits(Extend(p, a), count + 1)
  {
    if a.index - p.last != 1 {
      ClosedNarrow(p, count);
    }
  }

  lemma ClosedNarrow(p: Trail, count: nat)
    requires Fits(p, count) && count < P
    ensures Narrow(Closed(p))
    ensures EndOf(Closed(p)) == if p.last == p.runPrev then EndOf(p.covered) else p.last + 1
  {
  }

  lemma {:induction false} TrailFits(init: Roots, a: seq<ActiveTx>)
    requires TrailAccepts(init, a) && |a| < P
    ensures Fits(TrailOf(init, a), |a|)
    ensures |a| - 1 <= TrailOf(init, a).last <= |a| * TWO_32 - 1
    ensures a != [] ==> TrailOf(init, a).last == Back(a).index
  {
    if a != [] {
      TrailFits(init, Front(a));
      FitsExtends(TrailOf(init, Front(a)), |a| - 1, Back(a));
    }
  }

  // ---------- one field step ----------

  /** The transaction at the integer index its field gap leads to. */
  function Lift(p: Trail, t: TxView): ActiveTx {
    ActiveTx(p.last + 1 + Sub(Sub(t.index, Encode(p.last)), 1), t.before, t.after)
  }

  lemma LiftEncodes(p: Trail, t: TxView)
    ensures Lift(p, t).index == p.last + 1 + Encode(t.index - p.last - 1)
    ensures Encode(Lift(p, t).index) == t.index
    ensures 1 <= Lift(p, t).index - p.last <= P
    ensures Lift(p, t).index - p.last == P <==> t.index == Encode(p.last)
  {
    var d := t.index - p.last - 1;
    EncodeSmall(t.index);
    EncodeSmall(1);
    EncodeAdd(t.index, p.last);
    EncodeAdd(t.index - p.last, 1);
    Arith.DivMod(d, P);
    SameRemainder(Lift(p, t).index, t.index, d / P);
    EncodeInjective(p.last + 1, Lift(p, t).index, p.last + P);
    SameRemainder(p.last, p.last + P, 1);
  }

  /** The gap of an active step, without one, is that of the integers. */
  lemma GapLifts(p: Trail, count: nat, t: TxView)
    requires t.index != Encode(p.last)
    ensures GapMinusOne(EncodeTrail(p, count), t) == Lift(p, t).index - p.last - 1
  {
  }

  lemma StepContinues(p: Trail, count: nat, t: TxView)
    requires Lift(p, t).index == p.last + 1
    ensures Step(EncodeTrail(p, count), t) == EncodeTrail(Extend(p, Lift(p, t)), count + 1)
  {
    LiftEncodes(p, t);
    GapLifts(p, count, t);
    EncodeSmall(1);
    EncodeAdd(count, 1);
  }

  /** Whether there is an open run shows in the field. */
  lemma RunShows(p: Trail)
    requires 0 <= p.last - p.runPrev < P
    ensures Encode(p.last) == Encode(p.runPrev) <==> p.last == p.runPrev
    ensures Add(Encode(p.last), 1) == Encode(p.last + 1)
  {
    EncodeInjective(p.runPrev, p.last, p.runPrev);
    EncodeSmall(1);
    EncodeAdd(p.last, 1);
  }

  lemma StepJumps(p: Trail, count: nat, t: TxView)
    requires 0 <= p.last - p.runPrev < P && 1 < Lift(p, t).index - p.last < P
    ensures Step(EncodeTrail(p, count), t) == EncodeTrail(Extend(p, Lift(p, t)), count + 1)
  {
    var a := Lift(p, t);
    LiftEncodes(p, t);
    GapLifts(p, count, t);
    RunShows(p);
    EncodeSmall(1);
    EncodeAdd(a.index, 1);
    EncodeAdd(count, 1);
  }

  /** One field step against one trail step. */
  lemma StepMatches(p: Trail, count: nat, t: TxView)
    requires 0 <= p.last - p.runPrev < P
    ensures StepAccepts(EncodeTrail(p, count), t) <==>
            if t.txType == TX_TYPE_EMPTY then t.index == Encode(p.last) else Takes(p, Lift(p, t))
    ensures StepAccepts(EncodeTrail(p, count), t) ==>
            Step(EncodeTrail(p, count), t)
            == if t.txType == TX_TYPE_EMPTY then EncodeTrail(p, count)
               else EncodeTrail(Extend(p, Lift(p, t)), count + 1)
  {
    LiftEncodes(p, t);
    if t.index == Encode(p.last) {
      EncodeAdd(count, 0);
    } else {
      GapLifts(p, count, t);
      if Takes(p, Lift(p, t)) {
        if Lift(p, t).index == p.last + 1 {
          StepContinues(p, count, t);
        } else {
          StepJumps(p, count, t);
        }
      }
    }
  }

  // ---------- a run ----------

  /** The transactions that are not padding, at the integers their gaps lead to. */
  function Lifted(init: Roots, txs: seq<TxView>): seq<ActiveTx> {
    if txs == [] then []
    else if Back(txs).txType == TX_TYPE_EMPTY then Lifted(init, Front(txs))
    else Lifted(init, Front(txs)) + [Lift(TrailOf(init, Lifted(init, Front(txs))), Back(txs))]
  }

  lemma {:induction false} LiftedShape(init: Roots, txs: seq<TxView>)
    ensures |Lifted(init, txs)| == |Actives(txs)|
    ensures Encode(TrailOf(init, Lifted(init, txs)).last) == Encode(TrailOf(init, Actives(txs)).last)
  {
    if txs != [] {
      LiftedShape(init, Front(txs));
      if Back(txs).txType != TX_TYPE_EMPTY {
        LiftEncodes(TrailOf(init, Lifted(init, Front(txs))), Back(txs));
        EncodeSmall(Back(txs).index);
        LastOfTrail(init, Lifted(init, Front(txs)), Back(Lifted(init, txs)));
        LastOfTrail(init, Actives(Front(txs)), Active(Back(txs)));
      }
    }
  }

  lemma {:induction false} LastOfTrail(init: Roots, a: seq<ActiveTx>, x: ActiveTx)
    ensures TrailOf(init, a + [x]) == Extend(TrailOf(init, a), x) && TrailOf(init, a + [x]).last == x.index
    ensures TrailAccepts(init, a + [x]) <==> TrailAccepts(init, a) && Takes(TrailOf(init, a), x)
  {
    assert Front(a + [x]) == a;
  }

  /**
   A field run, for any number of active transactions below the modulus: it is accepted exactly when
   the lifted transactions form a trail, and its state is the encoding of that trail.
   */
  lemma {:induction false} RunLifts(init: Roots, txs: seq<TxView>)
    requires |Actives(txs)| < P
    ensures |Lifted(init, txs)| == |Actives(txs)|
    ensures RunAccepts(Initial(init), txs) <==>
            TrailAccepts(init, Lifted(init, txs)) && PaddingRepeatsLast(init, txs)
    ensures RunAccepts(Initial(init), txs) ==>
            Run(Initial(init), txs) == EncodeTrail(TrailOf(init, Lifted(init, txs)), |Actives(txs)|)
  {
    LiftedShape(init, txs);
    if txs == [] {
      EncodeSmall(-1);
    } else {
      var t, a := Back(txs), Lifted(init, Front(txs));
      RunLifts(init, Front(txs));
      LiftedShape(init, Front(txs));
      if TrailAccepts(init, a) {
        TrailFits(init, a);
        StepMatches(TrailOf(init, a), |a|, t);
      }
      if t.txType != TX_TYPE_EMPTY {
        LastOfTrail(init, a, Lift(TrailOf(init, a), t));
      }
    }
  }

  /** A transaction the trail takes at its own index is lifted to it. */
  lemma TakenLifts(p: Trail, t: TxView)
    requires Takes(p, Active(t))
    ensures Lift(p, t) == Active(t)
  {
    LiftEncodes(p, t);
    EncodeSmall(t.index - p.last - 1);
  }

  /** Transactions whose own indices form a trail are lifted to themselves. */
  lemma {:induction false} ActivesLift(init: Roots, txs: seq<TxView>)
    requires TrailAccepts(init, Actives(txs))
    ensures Lifted(init, txs) == Actives(txs)
  {
    if txs != [] {
      var a, t := Actives(Front(txs)), Back(txs);
      if t.txType != TX_TYPE_EMPTY {
        LastOfTrail(init, a, Active(t));
        TakenLifts(TrailOf(init, a), t);
      }
      ActivesLift(init, Front(txs));
    }
  }

  /** As long as the integers stay below the modulus, they are the field indices. */
  lemma {:induction false} LiftedIsActives(init: Roots, txs: seq<TxView>)
    requires TrailAccepts(init, Lifted(init, txs)) && TrailOf(init, Lifted(init, txs)).last < P
    ensures -1 <= TrailOf(init, Lifted(init, txs)).last
    ensures Lifted(init, txs) == Actives(txs)
  {
    if txs != [] {
      if Back(txs).txType != TX_TYPE_EMPTY {
        var p := TrailOf(init, Lifted(init, Front(txs)));
        LastOfTrail(init, Lifted(init, Front(txs)), Lift(p, Back(txs)));
        LiftEncodes(p, Back(txs));
        LiftedIsActives(init, Front(txs));
        EncodeSmall(Lift(p, Back(txs)).index);
      } else {
        LiftedIsActives(init, Front(txs));
      }
    }
  }

  lemma {:induction false} ActivesBack(txs: seq<TxView>)
    requires txs != [] && Back(txs).txType != TX_TYPE_EMPTY
    ensures Actives(txs) != []
    ensures Front(Actives(txs)) == Actives(Front(txs)) && Back(Actives(txs)) == Active(Back(txs))
  {
  }

  /**
   No index wraps: for up to 2^32 - 1 active transactions, and for as long as the integers stay below
   the modulus, the field run accepts exactly when the trail of the field indices themselves does, and
   its state is the encoding of that trail.
   */
  lemma {:induction false} NoIndexWrap(init: Roots, txs: seq<TxView>)
    requires |Actives(txs)| <= MAX_ACTIVE
             || (|Actives(txs)| < P && TrailOf(init, Lifted(init, txs)).last < P)
    ensures RunAccepts(Initial(init), txs) <==>
            TrailAccepts(init, Actives(txs)) && PaddingRepeatsLast(init, txs)
    ensures RunAccepts(Initial(init), txs) ==>
            Run(Initial(init), txs) == EncodeTrail(TrailOf(init, Actives(txs)), |Actives(txs)|)
  {
    RunLifts(init, txs);
    if TrailAccepts(init, Lifted(init, txs)) {
      TrailFits(init, Lifted(init, txs));
      LiftedIsActives(init, txs);
    }
    if TrailAccepts(init, Actives(txs)) {
      ActivesLift(init, txs);
    }
  }

  /** Active transactions at the widest gap the range check lets through. */
  function WidestRun(roots: Roots, k: nat): seq<TxView>
    requires k <= MAX_ACTIVE
  {
    if k == 0 then []
    else WidestRun(roots, k - 1) + [TxView(k * TWO_32 - 1, 1, roots, roots)]
  }

  lemma {:induction false} ActivesAppend(init: Roots, txs: seq<TxView>, t: TxView)
    requires t.txType != TX_TYPE_EMPTY
    ensures Actives(txs + [t]) == Actives(txs) + [Active(t)]
    ensures PaddingRepeatsLast(init, txs + [t]) <==> PaddingRepeatsLast(init, txs)
  {
    assert Front(txs + [t]) == txs;
  }

  lemma {:induction false} WidestRunAccepted(roots: Roots, k: nat)
    requires k <= MAX_ACTIVE
    ensures |Actives(WidestRun(roots, k))| == k
    ensures TrailAccepts(roots, Actives(WidestRun(roots, k)))
    ensures TrailOf(roots, Actives(WidestRun(roots, k))).last == k * TWO_32 - 1
    ensures TrailOf(roots, Actives(WidestRun(roots, k))).prevNew == roots
    ensures PaddingRepeatsLast(roots, WidestRun(roots, k))
  {
    if k > 0 {
      var front, t := WidestRun(roots, k - 1), TxView(k * TWO_32 - 1, 1, roots, roots);
      WidestRunAccepted(roots, k - 1);
      ActivesAppend(roots, front, t);
      LastOfTrail(roots, Actives(front), Active(t));
    }
  }

  /**
   The bound is tight: 2^32 accepted active transactions can bring the index back to the
   sentinel of a chain that has seen none.
   */
  lemma IndexWrapsOneLater(roots: Roots) returns (txs: seq<TxView>)
    ensures |Actives(txs)| == MAX_ACTIVE + 1
    ensures RunAccepts(Initial(roots), txs)
    ensures Run(Initial(roots), txs).lastActive == Initial(roots).lastActive
  {
    var widest := WidestRun(roots, MAX_ACTIVE);
    WidestRunAccepted(roots, MAX_ACTIVE);
    NoIndexWrap(roots, widest);
    txs := widest + [TxView(NEG_ONE, 1, roots, roots)];
    assert Front(txs) == widest;
    EncodeSmall(P - 2);
  }
}
