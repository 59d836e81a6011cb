/**
 The jump state one transaction chain carries, the constraints one transaction puts on it and
 the fold over a run of transactions. Indices are field elements, hashes are free terms: two
 hash terms are equal only when they were built from equal parts, and a folded hash is never
 the zero hash.
 */
module Jump {
  import opened Goldilocks

  datatype HashOut =
    | Zero
    | Other(id: int)
    | RecordHash(prevIndex: Felt, endIndex: Felt,
                 stateFrom: HashOut, stateTo: HashOut, deltaFrom: HashOut, deltaTo: HashOut)
    | TwoToOne(left: HashOut, right: HashOut)

  /** A state root together with an account delta tree root. */
  datatype Roots = Roots(state: HashOut, delta: HashOut)

  /** What the jump step reads of one transaction. */
  datatype TxView = TxView(index: Felt, txType: nat, before: Roots, after: Roots)

  const TX_TYPE_EMPTY: nat := 0

  datatype JumpState = JumpState(
    lastActive: Felt,
    prevNew: Roots,
    runStartPrev: Felt,
    runStartOld: Roots,
    coverage: HashOut,
    claims: HashOut,
    txCount: Felt)

  function Initial(roots: Roots): JumpState {
    JumpState(NEG_ONE, roots, NEG_ONE, roots, Zero, Zero, 0)
  }

  /** The 18-element preimage of a coverage or claim record, hashed. */
  function HashRecord(prevIndex: Felt, endIndex: Felt, from: Roots, to: Roots): HashOut {
    RecordHash(prevIndex, endIndex, from.state, to.state, from.delta, to.delta)
  }

  function GapMinusOne(j: JumpState, t: TxView): Felt {
    var gap := if t.index == j.lastActive then 1 else Sub(t.index, j.lastActive);
    Sub(gap, 1)
  }

  /** The constraints of one jump step. */
  predicate StepAccepts(j: JumpState, t: TxView) {
    var isPadding := t.index == j.lastActive;
    var hasGap := GapMinusOne(j, t) != 0;
    && (t.txType == TX_TYPE_EMPTY <==> isPadding)
    && GapMinusOne(j, t) < TWO_32
    && (!isPadding && !hasGap ==> t.before == j.prevNew)
  }

  function Step(j: JumpState, t: TxView): JumpState {
    var isActive := t.index != j.lastActive;
    var jumped := isActive && GapMinusOne(j, t) != 0;
    var runNonempty := j.lastActive != j.runStartPrev;
    var coverageRecord := HashRecord(j.runStartPrev, Add(j.lastActive, 1), j.runStartOld, j.prevNew);
    var claimRecord := HashRecord(j.lastActive, t.index, j.prevNew, t.before);
    JumpState(
      if isActive then t.index else j.lastActive,
      if isActive then t.after else j.prevNew,
      if jumped then Sub(t.index, 1) else j.runStartPrev,
      if jumped then t.before else j.runStartOld,
      if jumped && runNonempty then TwoToOne(j.coverage, coverageRecord) else j.coverage,
      if jumped then TwoToOne(j.claims, claimRecord) else j.claims,
      Add(j.txCount, if isActive then 1 else 0))
  }

  predicate RunAccepts(j: JumpState, txs: seq<TxView>) {
    txs == [] ||
    (RunAccepts(j, txs[..|txs| - 1]) && StepAccepts(Run(j, txs[..|txs| - 1]), txs[|txs| - 1]))
  }

  function Run(j: JumpState, txs: seq<TxView>): JumpState {
    if txs == [] then j else Step(Run(j, txs[..|txs| - 1]), txs[|txs| - 1])
  }

  /** Folding two consecutive batches is folding their concatenation. */
  lemma {:induction false} RunConcat(j: JumpState, a: seq<TxView>, b: seq<TxView>)
    ensures Run(j, a + b) == Run(Run(j, a), b)
    ensures RunAccepts(j, a + b) <==> RunAccepts(j, a) && RunAccepts(Run(j, a), b)
  {
    if b == [] {
      assert a + b == a;
    } else {
      RunConcat(j, a, b[..|b| - 1]);
      assert (a + b)[..|a + b| - 1] == a + b[..|b| - 1];
    }
  }

  /** The loop over the transactions of one batch, keeping the jump in a running variable. */
  method FoldJumps(oldJump: JumpState, txs: seq<TxView>) returns (satisfied: bool, jump: JumpState)
    ensures satisfied <==> RunAccepts(oldJump, txs)
    ensures jump == Run(oldJump, txs)
  {
    jump := oldJump;
    satisfied := true;
    for i := 0 to |txs|
      invariant satisfied <==> RunAccepts(oldJump, txs[..i])
      invariant jump == Run(oldJump, txs[..i])
    {
      assert txs[..i + 1][..i] == txs[..i];
      satisfied := satisfied && StepAccepts(jump, txs[i]);
      jump := Step(jump, txs[i]);
    }
    assert txs[..|txs|] == txs;
  }

  /** The hashes of a chain at the end of the block. */
  datatype Final = Final(coverage: HashOut, claims: HashOut)

  /** Closes a chain's open run and claims the segment it did not see. */
  function FinalizeJump(j: JumpState, total: Felt, end: Roots): Final {
    var prevPlusOne := Add(j.lastActive, 1);
    var coverageRecord := HashRecord(j.runStartPrev, prevPlusOne, j.runStartOld, j.prevNew);
    var claimRecord := HashRecord(j.lastActive, total, j.prevNew, end);
    Final(if j.lastActive != j.runStartPrev then TwoToOne(j.coverage, coverageRecord) else j.coverage,
          if prevPlusOne != total then TwoToOne(j.claims, claimRecord) else j.claims)
  }

  /** What a chain's last proof exposes to the block circuit. */
  datatype Exposure = Exposure(jump: JumpState, roots: Roots)

  function TotalTxCount(light: Exposure, heavy: Exposure): Felt {
    Add(light.jump.txCount, heavy.jump.txCount)
  }

  predicate AtEnd(e: Exposure, total: Felt) {
    Add(e.jump.lastActive, 1) == total
  }

  /** The roots the block takes as its own. */
  function BlockRoots(light: Exposure, heavy: Exposure): Roots {
    if AtEnd(heavy, TotalTxCount(light, heavy)) then heavy.roots else light.roots
  }

  predicate JumpChecks(light: Exposure, heavy: Exposure) {
    var total := TotalTxCount(light, heavy);
    var heavyEnds := AtEnd(heavy, total);
    var end := BlockRoots(light, heavy);
    var heavyFinal := FinalizeJump(heavy.jump, total, end);
    var lightFinal := FinalizeJump(light.jump, total, end);
    && (heavyEnds || AtEnd(light, total))
    && end == (if heavyEnds then heavy.jump.prevNew else light.jump.prevNew)
    && heavyFinal.coverage == lightFinal.claims
    && lightFinal.coverage == heavyFinal.claims
  }
}
