/** Which lists of batches have proofs: the chain circuit, and two chains with the block circuit, exactly. */
module ChainCompleteness {
  import Arith
  import opened Goldilocks
  import opened Jump
  import opened JumpTrail
  import opened JumpExecution
  import opened JumpTheorems
  import opened Chain
  import opened ChainTheorems
  import Chunking
  import HonestBlock

  /** The batches since step zero. */
  function Batches(p: Proof): seq<seq<Output>> {
    match p
    case Unproved(_, _) => []
    case Proved(previous, txs, _, step) => if step == 0 then [txs] else Batches(previous) + [txs]
  }

  function Concat<T>(groups: seq<seq<T>>): seq<T> {
    if groups == [] then [] else Concat(Front(groups)) + Back(groups)
  }

  lemma {:induction false} BatchesAreAll(p: Proof)
    ensures Concat(Batches(p)) == AllTxs(p)
  {
    if p.Proved? {
      BatchesAreAll(p.previous);
      if p.step == 0 {
        assert Concat([p.txs]) == Concat([]) + p.txs;
      } else {
        assert Front(Batches(p)) == Batches(p.previous);
      }
    }
  }

  /** A batch has at most one operation of each sort and one signed message of each kind. */
  predicate OneEach(heavy: bool, txs: seq<Output>) {
    && |OnChainOps(heavy, txs)| <= 1 && |PriorityOps(heavy, txs)| <= 1
    && forall k :: |Signed(heavy, txs, k)| <= 1
  }

  /** What a whole chain may publish: on-chain operations up to the limit, and one of everything else. */
  predicate Publishable(heavy: bool, txs: seq<Output>, limit: nat) {
    && |OnChainOps(heavy, txs)| <= limit && |PriorityOps(heavy, txs)| <= 1
    && forall k :: |Messages(heavy, txs, k)| <= 1
  }

  predicate Fill(cfg: Config, groups: seq<seq<Output>>) {
    && 0 < |groups| <= P
    && forall i :: 0 <= i < |groups| ==> |groups[i]| == cfg.txsPerProof && OneEach(cfg.heavy, groups[i])
  }

  /** The batches are full and single, run on from the initial roots, and publish no more than fits. */
  predicate Provable(cfg: Config, roots: Roots, groups: seq<seq<Output>>) {
    && cfg.txsPerProof > 0 && Fill(cfg, groups)
    && RunAccepts(Initial(roots), Chain.Views(Concat(groups)))
    && Publishable(cfg.heavy, Concat(groups), cfg.limit)
  }

  // ---------- from proofs to batches ----------

  lemma CountIsOne(ops: nat)
    requires ops < P && (Encode(ops) == 0 || Encode(ops) == 1)
    ensures ops <= 1
  {
    EncodeSmall(ops);
  }

  lemma BatchIsSingle(cfg: Config, prev: Record, prevStep: Felt, txs: seq<Output>, b: Batch, step: Felt)
    requires ValidConfig(cfg) && |txs| == cfg.txsPerProof
    requires BatchHolds(cfg.heavy, txs, b) && StepHolds(prev, prevStep, b, step, cfg.limit)
    ensures OneEach(cfg.heavy, txs)
  {
    CountsFit(cfg.heavy, txs, Transfer);
    CountIsOne(|OnChainOps(cfg.heavy, txs)|);
    CountIsOne(|PriorityOps(cfg.heavy, txs)|);
    forall k ensures |Signed(cfg.heavy, txs, k)| <= 1 {
      assert MessageHolds(cfg.heavy, txs, b, k);
      SignedOnce(cfg, txs, b, k);
    }
  }

  lemma FillAppend(cfg: Config, groups: seq<seq<Output>>, txs: seq<Output>)
    requires |txs| == cfg.txsPerProof && OneEach(cfg.heavy, txs)
    requires groups == [] || (Fill(cfg, groups) && |groups| < P)
    ensures Fill(cfg, groups + [txs]) && |groups + [txs]| == |groups| + 1
  {
  }

  /** The batches of a verified proof are full and single, and the counter tells how many there are. */
  lemma {:induction false} BatchesFill(cfg: Config, p: Proof)
    requires ValidConfig(cfg) && Verified(cfg, p)
    ensures Fill(cfg, Batches(p)) && |Batches(p)| == p.Counter() + 1 && cfg.txsPerProof > 0
  {
    BatchIsSingle(cfg, p.previous.Public(), p.previous.Counter(), p.txs, p.batch, p.step);
    if p.step == 0 {
      FillAppend(cfg, [], p.txs);
      assert [] + [p.txs] == [p.txs];
    } else {
      BatchesFill(cfg, p.previous);
      CounterBelow(p.step, p.previous.Counter());
      FillAppend(cfg, Batches(p.previous), p.txs);
    }
  }

  /** The batches of a verified proof satisfy everything a proof needs. */
  lemma {:induction false} ProofIsProvable(cfg: Config, p: Proof)
    requires ValidConfig(cfg) && Verified(cfg, p)
    ensures Provable(cfg, Origin(p).roots, Batches(p))
    ensures p.Public().blockNumber == Origin(p).blockNumber && p.Public().createdAt == Origin(p).createdAt
    ensures p.Public().initial == Origin(p).roots
  {
    ChainSound(cfg, p);
    BatchesFill(cfg, p);
    BatchesAreAll(p);
    forall k ensures |Messages(cfg.heavy, AllTxs(p), k)| <= 1 {
      assert OneMessage(p.Public(), cfg.heavy, AllTxs(p), k);
    }
  }

  // ---------- from batches to proofs ----------

  function BatchOf(heavy: bool, txs: seq<Output>, oldJump: JumpState): Batch
    requires txs != []
  {
    Batch(Back(txs).validium, Back(txs).view.after, Back(txs).markets,
          PerKind(LastOr(Signed(heavy, txs, ChangePubKey), NO_MESSAGE),
                  LastOr(Signed(heavy, txs, Transfer), NO_MESSAGE),
                  LastOr(Signed(heavy, txs, ApproveIntegrator), NO_MESSAGE)),
          Encode(|OnChainOps(heavy, txs)|), LastOr(OnChainOps(heavy, txs), NO_ON_CHAIN),
          Encode(|PriorityOps(heavy, txs)|), LastOr(PriorityOps(heavy, txs), NO_PRIORITY),
          oldJump, Run(oldJump, Chain.Views(txs)))
  }

  lemma SmallSquare(n: nat)
    requires n <= 1
    ensures SquareIsItself(Encode(n))
  {
    EncodeSmall(n);
  }

  lemma {:induction false} MessageOfHolds(heavy: bool, txs: seq<Output>, b: Batch, k: Kind)
    requires |Signed(heavy, txs, k)| <= 1 && b.messages.Of(k) == LastOr(Signed(heavy, txs, k), NO_MESSAGE)
    ensures MessageHolds(heavy, txs, b, k)
  {
    SmallSquare(|Signed(heavy, txs, k)|);
  }

  lemma {:induction false} MessagesOf(heavy: bool, txs: seq<Output>, b: Batch, k: Kind)
    requires txs != [] && b == BatchOf(heavy, txs, b.oldJump)
    ensures b.messages.Of(k) == LastOr(Signed(heavy, txs, k), NO_MESSAGE)
  {
  }

  lemma {:induction false} BatchOfHolds(heavy: bool, txs: seq<Output>, b: Batch)
    requires txs != [] && OneEach(heavy, txs) && RunAccepts(b.oldJump, Chain.Views(txs))
    requires b == BatchOf(heavy, txs, b.oldJump)
    ensures BatchHolds(heavy, txs, b)
  {
    forall k ensures MessageHolds(heavy, txs, b, k) {
      MessagesOf(heavy, txs, b, k);
      MessageOfHolds(heavy, txs, b, k);
    }
  }

  /** A step over a record that summarizes what came before is allowed when the whole is publishable. */
  lemma StepAllowed(cfg: Config, prev: Record, origin: Record, prevStep: Felt, before: seq<Output>,
                    txs: seq<Output>, step: Felt)
    requires txs != [] && OneEach(cfg.heavy, txs) && Summarizes(cfg, prev, origin, before)
    requires Publishable(cfg.heavy, before + txs, cfg.limit)
    requires step != 0 && step == Add(prevStep, 1)
    ensures StepHolds(prev, prevStep, BatchOf(cfg.heavy, txs, prev.jump), step, cfg.limit)
  {
    var b := BatchOf(cfg.heavy, txs, prev.jump);
    OnChainConcat(cfg.heavy, before, txs);
    PriorityConcat(cfg.heavy, before, txs);
    EncodeSmall(|OnChainOps(cfg.heavy, txs)|);
    EncodeSmall(|PriorityOps(cfg.heavy, txs)|);
    forall k | b.messages.Of(k).account != 0 ensures prev.messages.Of(k).account == 0 {
      MessageFree(cfg, prev, before, txs, k);
    }
  }

  lemma {:induction false} MessageFree(cfg: Config, prev: Record, before: seq<Output>, txs: seq<Output>, k: Kind)
    requires |Signed(cfg.heavy, txs, k)| <= 1 && LastOr(Signed(cfg.heavy, txs, k), NO_MESSAGE).account != 0
    requires OneMessage(prev, cfg.heavy, before, k) && |Messages(cfg.heavy, before + txs, k)| <= 1
    ensures prev.messages.Of(k).account == 0
  {
    MessagesConcat(cfg.heavy, before, txs, k);
    var s := Signed(cfg.heavy, txs, k);
    assert Front(s) == [] && NonTreasury(Front(s)) == [];
  }

  lemma Prefix(cfg: Config, roots: Roots, groups: seq<seq<Output>>)
    requires Provable(cfg, roots, groups) && |groups| > 1
    ensures Provable(cfg, roots, Front(groups))
  {
    var before, txs := Concat(Front(groups)), Back(groups);
    ViewsConcat(before, txs);
    RunConcat(Initial(roots), Chain.Views(before), Chain.Views(txs));
    OnChainConcat(cfg.heavy, before, txs);
    PriorityConcat(cfg.heavy, before, txs);
    forall k ensures |Messages(cfg.heavy, before, k)| <= 1 {
      MessagesConcat(cfg.heavy, before, txs, k);
    }
  }

  /** Provable batches have a proof on top of any record that starts a chain with their roots. */
  lemma {:induction false} Prove(cfg: Config, start: Record, groups: seq<seq<Output>>) returns (p: Proof)
    requires ValidConfig(cfg) && StartChecks(start) && |start.slots| == cfg.limit
    requires Provable(cfg, start.roots, groups)
    ensures Verified(cfg, p) && Batches(p) == groups && Origin(p) == start
    decreases |groups|
  {
    if |groups| == 1 {
      p := FirstProof(cfg, start, groups);
    } else {
      Prefix(cfg, start.roots, groups);
      var q := Prove(cfg, start, Front(groups));
      p := LaterProof(cfg, start, q, groups);
    }
  }

  lemma FirstProof(cfg: Config, start: Record, groups: seq<seq<Output>>) returns (p: Proof)
    requires StartChecks(start) && |start.slots| == cfg.limit && |groups| == 1
    requires Provable(cfg, start.roots, groups)
    ensures Verified(cfg, p) && Batches(p) == groups && Origin(p) == start
  {
    var txs := groups[0];
    assert Concat(groups) == txs;
    InitialByFields(start.jump, start.roots);
    BatchOfHolds(cfg.heavy, txs, BatchOf(cfg.heavy, txs, start.jump));
    EncodeSmall(|OnChainOps(cfg.heavy, txs)|);
    EncodeSmall(|PriorityOps(cfg.heavy, txs)|);
    p := Proved(Unproved(start, 0), txs, BatchOf(cfg.heavy, txs, start.jump), 0);
  }

  lemma LaterProof(cfg: Config, start: Record, q: Proof, groups: seq<seq<Output>>)
      returns (p: Proof)
    requires ValidConfig(cfg) && Provable(cfg, start.roots, groups) && |groups| > 1
    requires Verified(cfg, q) && Batches(q) == Front(groups) && Origin(q) == start
    ensures Verified(cfg, p) && Batches(p) == groups && Origin(p) == start
  {
    var txs := Back(groups);
    BatchesFill(cfg, q);
    EncodeSmall(|groups| - 1);
    LaterBatch(cfg, start, q, Concat(Front(groups)), txs, |groups| - 1);
    p := Proved(q, txs, BatchOf(cfg.heavy, txs, q.Public().jump), |groups| - 1);
    BatchesAppend(p, q, groups);
  }

  lemma {:induction false} BatchesAppend(p: Proof, q: Proof, groups: seq<seq<Output>>)
    requires groups != [] && Batches(q) == Front(groups)
    requires p.Proved? && p.previous == q && p.txs == Back(groups) && p.step != 0
    ensures Batches(p) == groups && Origin(p) == Origin(q)
  {
    assert Front(groups) + [Back(groups)] == groups;
  }

  /** The next batch runs on from a verified proof and may be added to it. */
  lemma {:induction false} LaterBatch(cfg: Config, start: Record, q: Proof, before: seq<Output>, txs: seq<Output>,
                                      step: Felt)
    requires ValidConfig(cfg) && Verified(cfg, q) && Origin(q) == start && Concat(Batches(q)) == before
    requires txs != [] && OneEach(cfg.heavy, txs) && Publishable(cfg.heavy, before + txs, cfg.limit)
    requires RunAccepts(Initial(start.roots), Chain.Views(before + txs))
    requires step == q.Counter() + 1
    ensures var b := BatchOf(cfg.heavy, txs, q.Public().jump);
            BatchHolds(cfg.heavy, txs, b) && StepHolds(q.Public(), q.Counter(), b, step, cfg.limit)
  {
    ChainSound(cfg, q);
    BatchesAreAll(q);
    EncodeSmall(step);
    AddBatch(cfg, q.Public(), start, q.Counter(), before, txs, step);
  }

  lemma {:induction false} AddBatch(cfg: Config, prev: Record, origin: Record, prevStep: Felt, before: seq<Output>,
                                    txs: seq<Output>, step: Felt)
    requires Summarizes(cfg, prev, origin, before) && txs != [] && OneEach(cfg.heavy, txs)
    requires Publishable(cfg.heavy, before + txs, cfg.limit)
    requires RunAccepts(Initial(origin.roots), Chain.Views(before + txs))
    requires step != 0 && step == Add(prevStep, 1)
    ensures var b := BatchOf(cfg.heavy, txs, prev.jump);
            BatchHolds(cfg.heavy, txs, b) && StepHolds(prev, prevStep, b, step, cfg.limit)
  {
    NextBatch(cfg, prev, origin, before, txs);
    StepAllowed(cfg, prev, origin, prevStep, before, txs, step);
  }

  lemma {:induction false} NextBatch(cfg: Config, prev: Record, origin: Record, before: seq<Output>, txs: seq<Output>)
    requires JumpSummary(prev, origin, before) && RunAccepts(Initial(origin.roots), Chain.Views(before + txs))
    requires txs != [] && OneEach(cfg.heavy, txs)
    ensures BatchHolds(cfg.heavy, txs, BatchOf(cfg.heavy, txs, prev.jump))
  {
    ViewsConcat(before, txs);
    RunConcat(Initial(origin.roots), Chain.Views(before), Chain.Views(txs));
    BatchOfHolds(cfg.heavy, txs, BatchOf(cfg.heavy, txs, prev.jump));
  }

  /** A proof of these batches from these roots. */
  predicate Proves(cfg: Config, p: Proof, blockNumber: Felt, createdAt: Felt, roots: Roots, groups: seq<seq<Output>>) {
    && Verified(cfg, p) && Batches(p) == groups
    && p.Public().blockNumber == blockNumber && p.Public().createdAt == createdAt && p.Public().initial == roots
  }

  /** A chain of proofs over given batches exists exactly when they are provable. */
  lemma ChainExact(cfg: Config, blockNumber: Felt, createdAt: Felt, roots: Roots, groups: seq<seq<Output>>)
    requires ValidConfig(cfg)
    ensures (exists p :: Proves(cfg, p, blockNumber, createdAt, roots, groups)) <==> Provable(cfg, roots, groups)
  {
    forall p | Proves(cfg, p, blockNumber, createdAt, roots, groups) ensures Provable(cfg, roots, groups) {
      ProofIsProvable(cfg, p);
    }
    if Provable(cfg, roots, groups) {
      var _ := ProveFrom(cfg, blockNumber, createdAt, roots, groups);
    }
  }

  lemma ProveFrom(cfg: Config, blockNumber: Felt, createdAt: Felt, roots: Roots, groups: seq<seq<Output>>)
      returns (p: Proof)
    requires ValidConfig(cfg) && Provable(cfg, roots, groups)
    ensures Proves(cfg, p, blockNumber, createdAt, roots, groups)
  {
    var start := BaseRecord(blockNumber, createdAt, Zero, roots, cfg.limit);
    BaseRecordStarts(start);
    p := Prove(cfg, start, groups);
    ProofIsProvable(cfg, p);
  }

  // ---------- two chains and the block ----------

  /** Proofs of both chains that pass the block circuit's checks. */
  predicate BlockProof(lightCfg: Config, heavyCfg: Config, pre: PreExecution, oldDelta: HashOut,
                       light: Proof, heavy: Proof, lightGroups: seq<seq<Output>>, heavyGroups: seq<seq<Output>>) {
    var roots := Roots(pre.stateRoot, oldDelta);
    && Proves(lightCfg, light, pre.blockNumber, pre.createdAt, roots, lightGroups)
    && Proves(heavyCfg, heavy, pre.blockNumber, pre.createdAt, roots, heavyGroups)
    && SanityChecks(pre, oldDelta, light.Public(), heavy.Public())
    && JumpChecks(Exposed(light.Public()), Exposed(heavy.Public()))
  }

  /** What a proof of some batches exposes. */
  lemma {:induction false} ProofExposes(cfg: Config, p: Proof, blockNumber: Felt, createdAt: Felt, roots: Roots,
                                        groups: seq<seq<Output>>)
    requires ValidConfig(cfg) && Proves(cfg, p, blockNumber, createdAt, roots, groups)
    ensures Provable(cfg, roots, groups) && Chain.Views(Concat(groups)) != []
    ensures RunAccepts(Initial(roots), Chain.Views(Concat(groups)))
    ensures Expose(roots, Chain.Views(Concat(groups))) == Exposed(p.Public())
  {
    ProofIsProvable(cfg, p);
    BatchesAreAll(p);
    ChainExposes(cfg, p);
  }

  /** Proofs of two chains over given batches pass the block's checks exactly when the jump checks accept them. */
  lemma {:induction false} ProofsPass(lightCfg: Config, heavyCfg: Config, pre: PreExecution, oldDelta: HashOut,
                                      light: Proof, heavy: Proof, lightGroups: seq<seq<Output>>,
                                      heavyGroups: seq<seq<Output>>)
    requires ValidConfig(lightCfg) && ValidConfig(heavyCfg) && !lightCfg.heavy && heavyCfg.heavy
    requires var roots := Roots(pre.stateRoot, oldDelta);
             && Proves(lightCfg, light, pre.blockNumber, pre.createdAt, roots, lightGroups)
             && Proves(heavyCfg, heavy, pre.blockNumber, pre.createdAt, roots, heavyGroups)
    ensures Chain.Views(Concat(lightGroups)) != [] && Chain.Views(Concat(heavyGroups)) != []
    ensures BlockProof(lightCfg, heavyCfg, pre, oldDelta, light, heavy, lightGroups, heavyGroups) <==>
            BlockAccepts(Roots(pre.stateRoot, oldDelta), Chain.Views(Concat(lightGroups)),
                         Chain.Views(Concat(heavyGroups)))
  {
    var roots := Roots(pre.stateRoot, oldDelta);
    ProofExposes(lightCfg, light, pre.blockNumber, pre.createdAt, roots, lightGroups);
    ProofExposes(heavyCfg, heavy, pre.blockNumber, pre.createdAt, roots, heavyGroups);
    LightCarriesNothing(lightCfg, light);
  }

  /** A block has a proof exactly when both chains are provable and the jump checks accept their transactions. */
  lemma {:induction false} BlockExact(lightCfg: Config, heavyCfg: Config, pre: PreExecution, oldDelta: HashOut,
                                      lightGroups: seq<seq<Output>>, heavyGroups: seq<seq<Output>>)
    requires ValidConfig(lightCfg) && ValidConfig(heavyCfg) && !lightCfg.heavy && heavyCfg.heavy
    ensures (exists light, heavy ::
               BlockProof(lightCfg, heavyCfg, pre, oldDelta, light, heavy, lightGroups, heavyGroups)) <==>
            var roots, l, h := Roots(pre.stateRoot, oldDelta), Chain.Views(Concat(lightGroups)),
                               Chain.Views(Concat(heavyGroups));
            && Provable(lightCfg, roots, lightGroups) && Provable(heavyCfg, roots, heavyGroups)
            && l != [] && h != [] && BlockAccepts(roots, l, h)
  {
    var roots, l, h := Roots(pre.stateRoot, oldDelta), Chain.Views(Concat(lightGroups)),
                       Chain.Views(Concat(heavyGroups));
    forall light, heavy | BlockProof(lightCfg, heavyCfg, pre, oldDelta, light, heavy, lightGroups, heavyGroups)
      ensures Provable(lightCfg, roots, lightGroups) && Provable(heavyCfg, roots, heavyGroups)
      ensures l != [] && h != [] && BlockAccepts(roots, l, h)
    {
      ProofsPass(lightCfg, heavyCfg, pre, oldDelta, light, heavy, lightGroups, heavyGroups);
      ProofIsProvable(lightCfg, light);
      ProofIsProvable(heavyCfg, heavy);
    }
    if Provable(lightCfg, roots, lightGroups) && Provable(heavyCfg, roots, heavyGroups)
       && l != [] && h != [] && BlockAccepts(roots, l, h) {
      var light := ProveFrom(lightCfg, pre.blockNumber, pre.createdAt, roots, lightGroups);
      var heavy := ProveFrom(heavyCfg, pre.blockNumber, pre.createdAt, roots, heavyGroups);
      ProofsPass(lightCfg, heavyCfg, pre, oldDelta, light, heavy, lightGroups, heavyGroups);
    }
  }

  // ---------- the honest producer ----------

  /** The batches of a type carry the views of its chunks. */
  predicate Carries(groups: seq<seq<Output>>, chunks: seq<seq<Chunking.Tx>>, heavy: bool) {
    Chain.Views(Concat(groups)) == HonestBlock.Views(Chunking.Flatten(chunks, heavy))
  }

  lemma LightIsSilent(txs: seq<Output>, limit: nat)
    ensures OneEach(false, txs) && Publishable(false, txs, limit)
  {
  }

  /**
   What the grouping emits for a sequential execution has a block proof exactly when the batches are full,
   every heavy one has at most one operation of each sort, the whole publishes no more than fits, and no type
   pauses for too long.
   */
  lemma {:induction false} HonestBlockProof(lightCfg: Config, heavyCfg: Config, pre: PreExecution, oldDelta: HashOut,
                                            lightGroups: seq<seq<Output>>, heavyGroups: seq<seq<Output>>,
                                            txs: seq<Chunking.Tx>, template: Chunking.Tx,
                                            chunks: seq<seq<Chunking.Tx>>)
    requires ValidConfig(lightCfg) && ValidConfig(heavyCfg) && !lightCfg.heavy && heavyCfg.heavy
    requires lightCfg.txsPerProof > 0 && heavyCfg.txsPerProof > 0
    requires HonestBlock.Sequential(Roots(pre.stateRoot, oldDelta), txs, template)
    requires Chunking.Grouped(chunks, txs, template, heavyCfg.txsPerProof, lightCfg.txsPerProof)
    requires Carries(lightGroups, chunks, false) && Carries(heavyGroups, chunks, true)
    ensures (exists light, heavy ::
               BlockProof(lightCfg, heavyCfg, pre, oldDelta, light, heavy, lightGroups, heavyGroups)) <==>
            && Fill(lightCfg, lightGroups) && Fill(heavyCfg, heavyGroups)
            && Publishable(true, Concat(heavyGroups), heavyCfg.limit)
            && HonestBlock.Spaced(HonestBlock.ExecOf(txs))
  {
    BlockExact(lightCfg, heavyCfg, pre, oldDelta, lightGroups, heavyGroups);
    HonestBlock.GroupedAccepted(Roots(pre.stateRoot, oldDelta), txs, template, chunks, heavyCfg.txsPerProof,
                                lightCfg.txsPerProof);
    LightIsSilent(Concat(lightGroups), lightCfg.limit);
  }
}
