/** What any verified chain proof says about all the transactions below it, and what two of them make a block. */
module ChainTheorems {
  import Arith
  import GoldilocksPrime
  import opened Goldilocks
  import opened Jump
  import opened JumpTrail
  import opened JumpExecution
  import opened JumpTheorems
  import opened Chain

  /** The statements both chain circuits are fixed to: type, transactions a batch, number of slots. */
  datatype Config = Config(heavy: bool, txsPerProof: nat, limit: Felt)

  /** The field counts the operations of a batch exactly. */
  predicate ValidConfig(cfg: Config) {
    cfg.txsPerProof < P
  }

  /**
   A chain proof: the batch it adds, the step counter it shows and the proof before it. Below step
   zero stands a record nobody proved.
   */
  datatype Proof =
    | Unproved(record: Record, counter: Felt)
    | Proved(previous: Proof, txs: seq<Output>, batch: Batch, step: Felt)
  {
    function Public(): Record {
      match this
      case Unproved(r, _) => r
      case Proved(p, _, b, _) => Next(p.Public(), b)
    }

    function Counter(): Felt {
      match this
      case Unproved(_, c) => c
      case Proved(_, _, _, s) => s
    }
  }

  /** The chain circuit's constraints hold, and below step zero nothing is verified. */
  predicate Verified(cfg: Config, p: Proof) {
    match p
    case Unproved(_, _) => false
    case Proved(previous, txs, batch, step) =>
      && |txs| == cfg.txsPerProof
      && BatchHolds(cfg.heavy, txs, batch)
      && StepHolds(previous.Public(), previous.Counter(), batch, step, cfg.limit)
      && (step != 0 ==> Verified(cfg, previous))
  }

  /** All transactions since step zero. */
  function AllTxs(p: Proof): seq<Output> {
    match p
    case Unproved(_, _) => []
    case Proved(previous, txs, _, step) => if step == 0 then txs else AllTxs(previous) + txs
  }

  /** The record step zero started from. */
  function Origin(p: Proof): Record {
    match p
    case Unproved(r, _) => r
    case Proved(previous, _, _, step) => if step == 0 then previous.Public() else Origin(previous)
  }

  function NonTreasury(s: seq<Message>): seq<Message> {
    if s == [] then []
    else if Back(s).account != 0 then NonTreasury(Front(s)) + [Back(s)] else NonTreasury(Front(s))
  }

  /** The messages of a kind that come with an account. */
  function Messages(heavy: bool, txs: seq<Output>, k: Kind): seq<Message> {
    NonTreasury(Signed(heavy, txs, k))
  }

  function Padded(ops: seq<OnChainData>, limit: nat): seq<OnChainData>
    requires |ops| <= limit
  {
    ops + seq(limit - |ops|, _ => NO_ON_CHAIN)
  }

  predicate OneMessage(r: Record, heavy: bool, txs: seq<Output>, k: Kind) {
    var all := Messages(heavy, txs, k);
    |all| <= 1 && r.messages.Of(k) == LastOr(all, NO_MESSAGE)
  }

  /** At most limit on-chain operations: the slots hold all of them in order, then zeros. */
  predicate OnChainSummary(r: Record, heavy: bool, txs: seq<Output>, limit: nat) {
    Holds(r.onChainCount, r.slots, OnChainOps(heavy, txs), limit)
  }

  predicate PrioritySummary(r: Record, heavy: bool, txs: seq<Output>) {
    var ops := PriorityOps(heavy, txs);
    |ops| <= 1 && r.priorityCount == |ops| && r.priorityData == LastOr(ops, NO_PRIORITY)
  }

  predicate JumpSummary(r: Record, origin: Record, txs: seq<Output>) {
    && r.blockNumber == origin.blockNumber && r.createdAt == origin.createdAt
    && r.initial == origin.initial == origin.roots
    && RunAccepts(Initial(r.initial), Chain.Views(txs))
    && r.jump == Run(Initial(r.initial), Chain.Views(txs))
  }

  lemma KeepAppend<T>(s: seq<T>, t: seq<T>, o: Option<T>)
    ensures Keep(s + t, o) == s + Keep(t, o)
  {
  }

  lemma {:induction false} ViewsConcat(a: seq<Output>, b: seq<Output>)
    ensures Chain.Views(a + b) == Chain.Views(a) + Chain.Views(b)
  {
    if b == [] {
      assert a + b == a;
    } else {
      ViewsConcat(a, Front(b));
      assert Front(a + b) == a + Front(b);
    }
  }

  lemma {:induction false} OnChainConcat(heavy: bool, a: seq<Output>, b: seq<Output>)
    ensures OnChainOps(heavy, a + b) == OnChainOps(heavy, a) + OnChainOps(heavy, b)
  {
    if b == [] {
      assert a + b == a;
    } else {
      OnChainConcat(heavy, a, Front(b));
      assert Front(a + b) == a + Front(b);
      KeepAppend(OnChainOps(heavy, a), OnChainOps(heavy, Front(b)), Back(b).onChain);
    }
  }

  lemma {:induction false} PriorityConcat(heavy: bool, a: seq<Output>, b: seq<Output>)
    ensures PriorityOps(heavy, a + b) == PriorityOps(heavy, a) + PriorityOps(heavy, b)
  {
    if b == [] {
      assert a + b == a;
    } else {
      PriorityConcat(heavy, a, Front(b));
      assert Front(a + b) == a + Front(b);
      KeepAppend(PriorityOps(heavy, a), PriorityOps(heavy, Front(b)), Back(b).priority);
    }
  }

  lemma {:induction false} SignedConcat(heavy: bool, a: seq<Output>, b: seq<Output>, k: Kind)
    ensures Signed(heavy, a + b, k) == Signed(heavy, a, k) + Signed(heavy, b, k)
  {
    if b == [] {
      assert a + b == a;
    } else {
      SignedConcat(heavy, a, Front(b), k);
      assert Front(a + b) == a + Front(b);
      KeepAppend(Signed(heavy, a, k), Signed(heavy, Front(b), k), Back(b).signed.Of(k));
    }
  }

  lemma {:induction false} NonTreasuryConcat(s: seq<Message>, t: seq<Message>)
    ensures NonTreasury(s + t) == NonTreasury(s) + NonTreasury(t)
  {
    if t == [] {
      assert s + t == s;
    } else {
      NonTreasuryConcat(s, Front(t));
      assert Front(s + t) == s + Front(t);
    }
  }

  /** A batch cannot hold more operations than transactions, so its field counters are exact. */
  lemma {:induction false} CountsFit(heavy: bool, txs: seq<Output>, k: Kind)
    ensures |OnChainOps(heavy, txs)| <= |txs|
    ensures |PriorityOps(heavy, txs)| <= |txs|
    ensures |Signed(heavy, txs, k)| <= |txs|
  {
    if txs != [] {
      CountsFit(heavy, Front(txs), k);
    }
  }

  /** The modulus is prime: a product of two nonzero field numbers is not zero. */
  lemma {:induction false} NoZeroProduct(x: nat, y: nat)
    requires 0 < x < P && 0 < y < P
    ensures x * y % P != 0
    decreases x
  {
    var turns, rest := P / x, P % x;
    Arith.DivMod(P, x);
    if x > 1 && rest == 0 {
      GoldilocksPrime.PrimeModulus(x, turns);
    } else if x > 1 {
      NoZeroProduct(rest, y);
      if x * y % P == 0 {
        var q := x * y / P;
        assert rest * y == P * y - turns * (x * y);
        assert turns * (P * q) == P * (turns * q);
        Arith.DivModUnique(rest * y, P, y - turns * q, 0);
      }
    }
  }

  /** A field number equal to its square is zero or one. */
  lemma SquareMeansBit(count: nat)
    requires count < P && SquareIsItself(Encode(count))
    ensures count <= 1
  {
    EncodeSmall(count);
    if count > 1 {
      SameRemainder(count * count % P - count, count * (count - 1), count * count / P);
      NoZeroProduct(count, count - 1);
    }
  }

  lemma {:induction false} SignedOnce(cfg: Config, txs: seq<Output>, b: Batch, k: Kind)
    requires ValidConfig(cfg) && |txs| == cfg.txsPerProof && MessageHolds(cfg.heavy, txs, b, k)
    ensures |Signed(cfg.heavy, txs, k)| <= 1
    ensures Messages(cfg.heavy, txs, k)
            == if b.messages.Of(k).account != 0 then [b.messages.Of(k)] else []
  {
    CountsFit(cfg.heavy, txs, k);
    SquareMeansBit(|Signed(cfg.heavy, txs, k)|);
    var s := Signed(cfg.heavy, txs, k);
    if s != [] {
      assert Front(s) == [] && NonTreasury(Front(s)) == [];
    }
  }

  lemma MessagesConcat(heavy: bool, a: seq<Output>, b: seq<Output>, k: Kind)
    ensures Messages(heavy, a + b, k) == Messages(heavy, a, k) + Messages(heavy, b, k)
  {
    SignedConcat(heavy, a, b, k);
    NonTreasuryConcat(Signed(heavy, a, k), Signed(heavy, b, k));
  }

  /** One step keeps the message summary. */
  lemma MessageStep(cfg: Config, prev: Record, before: seq<Output>, txs: seq<Output>, b: Batch, k: Kind)
    requires ValidConfig(cfg) && |txs| == cfg.txsPerProof && MessageHolds(cfg.heavy, txs, b, k)
    requires b.messages.Of(k).account != 0 ==> prev.messages.Of(k).account == 0
    requires OneMessage(prev, cfg.heavy, before, k)
    ensures OneMessage(Next(prev, b), cfg.heavy, before + txs, k)
  {
    SignedOnce(cfg, txs, b, k);
    MessagesConcat(cfg.heavy, before, txs, k);
    AccountsOf(Signed(cfg.heavy, before, k));
    OneMoreMessage(prev, b, k, Messages(cfg.heavy, before, k), Messages(cfg.heavy, txs, k));
  }

  lemma OneMoreMessage(prev: Record, b: Batch, k: Kind, had: seq<Message>, more: seq<Message>)
    requires |had| <= 1 && prev.messages.Of(k) == LastOr(had, NO_MESSAGE)
    requires forall i :: 0 <= i < |had| ==> had[i].account != 0
    requires more == if b.messages.Of(k).account != 0 then [b.messages.Of(k)] else []
    requires b.messages.Of(k).account != 0 ==> prev.messages.Of(k).account == 0
    ensures |had + more| <= 1 && Next(prev, b).messages.Of(k) == LastOr(had + more, NO_MESSAGE)
  {
    assert Next(prev, b).messages.Of(k) == SelectMessage(b, prev, k);
  }

  lemma {:induction false} AccountsOf(s: seq<Message>)
    ensures forall i :: 0 <= i < |NonTreasury(s)| ==> NonTreasury(s)[i].account != 0
  {
    if s != [] {
      AccountsOf(Front(s));
    }
  }

  /** One step keeps the slots. */
  lemma OnChainStep(cfg: Config, prev: Record, prevStep: Felt, before: seq<Output>,
                    txs: seq<Output>, b: Batch, step: Felt)
    requires ValidConfig(cfg) && |txs| == cfg.txsPerProof && BatchHolds(cfg.heavy, txs, b)
    requires StepHolds(prev, prevStep, b, step, cfg.limit) && OnChainSummary(prev, cfg.heavy, before, cfg.limit)
    ensures OnChainSummary(Next(prev, b), cfg.heavy, before + txs, cfg.limit)
  {
    CountsFit(cfg.heavy, txs, Transfer);
    OnChainConcat(cfg.heavy, before, txs);
    EncodeSmall(|OnChainOps(cfg.heavy, txs)|);
    NextOnChain(prev, b, OnChainOps(cfg.heavy, before), OnChainOps(cfg.heavy, txs), cfg.limit);
  }

  predicate Holds(count: Felt, slots: seq<OnChainData>, ops: seq<OnChainData>, limit: nat) {
    |ops| <= limit && count == |ops| && slots == Padded(ops, limit)
  }

  lemma NextOnChain(prev: Record, b: Batch, had: seq<OnChainData>, more: seq<OnChainData>, limit: Felt)
    requires Holds(prev.onChainCount, prev.slots, had, limit)
    requires b.onChainCount == |more| <= 1 && b.onChainData == LastOr(more, NO_ON_CHAIN)
    requires b.onChainCount != 0 ==> prev.onChainCount != limit
    ensures Holds(Next(prev, b).onChainCount, Next(prev, b).slots, had + more, limit)
  {
    SlotsStep(had, more, prev.slots, b.onChainData, limit);
    EncodeSmall(|had + more|);
  }

  lemma SlotsStep(had: seq<OnChainData>, more: seq<OnChainData>, slots: seq<OnChainData>,
                  data: OnChainData, limit: Felt)
    requires |had| <= limit && slots == Padded(had, limit)
    requires |more| <= 1 && data == LastOr(more, NO_ON_CHAIN) && (more != [] ==> |had| != limit)
    ensures |had + more| <= limit && |had + more| < P
    ensures SelectSlots(slots, |had|, data, more != []) == Padded(had + more, limit)
  {
    assert more == [] ==> had + more == had;
    assert more != [] ==> more == [more[0]];
  }

  /** One step keeps the priority operation. */
  lemma PriorityStep(cfg: Config, prev: Record, prevStep: Felt, before: seq<Output>,
                     txs: seq<Output>, b: Batch, step: Felt)
    requires ValidConfig(cfg) && |txs| == cfg.txsPerProof && BatchHolds(cfg.heavy, txs, b)
    requires StepHolds(prev, prevStep, b, step, cfg.limit) && PrioritySummary(prev, cfg.heavy, before)
    ensures PrioritySummary(Next(prev, b), cfg.heavy, before + txs)
  {
    CountsFit(cfg.heavy, txs, Transfer);
    PriorityConcat(cfg.heavy, before, txs);
    EncodeSmall(|PriorityOps(cfg.heavy, txs)|);
    NextPriority(prev, b, PriorityOps(cfg.heavy, before), PriorityOps(cfg.heavy, txs));
  }

  lemma NextPriority(prev: Record, b: Batch, had: seq<PriorityData>, more: seq<PriorityData>)
    requires prev.priorityCount == |had| <= 1 && prev.priorityData == LastOr(had, NO_PRIORITY)
    requires b.priorityCount == |more| <= 1 && b.priorityData == LastOr(more, NO_PRIORITY)
    requires b.priorityCount != 0 ==> prev.priorityCount == 0
    ensures Next(prev, b).priorityCount == |had + more| <= 1
    ensures Next(prev, b).priorityData == LastOr(had + more, NO_PRIORITY)
  {
    EncodeSmall(|had + more|);
    assert more == [] ==> had + more == had;
    assert had == [] ==> had + more == more;
  }

  lemma JumpStep(prev: Record, origin: Record, before: seq<Output>, txs: seq<Output>,
                 heavy: bool, b: Batch)
    requires JumpSummary(prev, origin, before) && BatchHolds(heavy, txs, b) && prev.jump == b.oldJump
    ensures JumpSummary(Next(prev, b), origin, before + txs)
  {
    ViewsConcat(before, txs);
    RunConcat(Initial(prev.initial), Chain.Views(before), Chain.Views(txs));
  }

  lemma InitialByFields(j: JumpState, roots: Roots)
    ensures AssertsInitial(j, roots) <==> j == Initial(roots)
  {
    EncodeSmall(j.lastActive);
    EncodeSmall(j.runStartPrev);
  }

  /** The record step zero starts from summarizes no transactions. */
  lemma StartSummary(cfg: Config, prev: Record)
    requires StartChecks(prev) && |prev.slots| == cfg.limit
    ensures JumpSummary(prev, prev, [])
    ensures OnChainSummary(prev, cfg.heavy, [], cfg.limit) && PrioritySummary(prev, cfg.heavy, [])
    ensures forall k :: OneMessage(prev, cfg.heavy, [], k)
  {
    InitialByFields(prev.jump, prev.roots);
    assert prev.slots == Padded([], cfg.limit);
  }

  /** What a chain proof's public record says about its transactions. */
  predicate Summarizes(cfg: Config, r: Record, origin: Record, txs: seq<Output>) {
    && JumpSummary(r, origin, txs)
    && OnChainSummary(r, cfg.heavy, txs, cfg.limit)
    && PrioritySummary(r, cfg.heavy, txs)
    && forall k :: OneMessage(r, cfg.heavy, txs, k)
  }

  lemma StepSummary(cfg: Config, prev: Record, prevStep: Felt, origin: Record, before: seq<Output>,
                    txs: seq<Output>, b: Batch, step: Felt)
    requires ValidConfig(cfg) && |txs| == cfg.txsPerProof && BatchHolds(cfg.heavy, txs, b)
    requires StepHolds(prev, prevStep, b, step, cfg.limit) && Summarizes(cfg, prev, origin, before)
    ensures Summarizes(cfg, Next(prev, b), origin, before + txs)
  {
    JumpStep(prev, origin, before, txs, cfg.heavy, b);
    OnChainStep(cfg, prev, prevStep, before, txs, b, step);
    PriorityStep(cfg, prev, prevStep, before, txs, b, step);
    forall k ensures OneMessage(Next(prev, b), cfg.heavy, before + txs, k) {
      assert MessageHolds(cfg.heavy, txs, b, k);
      MessageStep(cfg, prev, before, txs, b, k);
    }
  }

  /**
   Chain soundness, for any number of steps: the counter counts the batches since step zero, and the
   public record summarizes all their transactions.
   */
  lemma {:induction false} ChainSound(cfg: Config, p: Proof)
    requires ValidConfig(cfg) && Verified(cfg, p)
    ensures ChainFacts(cfg, p.Public(), p.Counter(), Origin(p), AllTxs(p))
  {
    var previous := p.previous;
    if p.step == 0 {
      FirstStep(cfg, previous.Public(), previous.Counter(), p.txs, p.batch);
    } else {
      ChainSound(cfg, previous);
      LaterStep(cfg, previous.Public(), previous.Counter(), Origin(previous), AllTxs(previous), p.txs, p.batch, p.step);
    }
  }

  predicate ChainFacts(cfg: Config, r: Record, step: Felt, origin: Record, txs: seq<Output>) {
    && |txs| == cfg.txsPerProof * (step + 1) && txs != []
    && Summarizes(cfg, r, origin, txs)
    && r.roots == Back(txs).view.after && r.validium == Back(txs).validium && r.markets == Back(txs).markets
  }

  lemma FirstStep(cfg: Config, prev: Record, prevStep: Felt, txs: seq<Output>, b: Batch)
    requires ValidConfig(cfg) && |txs| == cfg.txsPerProof && BatchHolds(cfg.heavy, txs, b)
    requires StepHolds(prev, prevStep, b, 0, cfg.limit)
    ensures ChainFacts(cfg, Next(prev, b), 0, prev, txs)
  {
    StartSummary(cfg, prev);
    StepSummary(cfg, prev, prevStep, prev, [], txs, b, 0);
    assert [] + txs == txs;
  }

  lemma LaterStep(cfg: Config, prev: Record, prevStep: Felt, origin: Record, before: seq<Output>,
                  txs: seq<Output>, b: Batch, step: Felt)
    requires ValidConfig(cfg) && |txs| == cfg.txsPerProof && BatchHolds(cfg.heavy, txs, b)
    requires step != 0 && StepHolds(prev, prevStep, b, step, cfg.limit)
    requires ChainFacts(cfg, prev, prevStep, origin, before)
    ensures ChainFacts(cfg, Next(prev, b), step, origin, before + txs)
  {
    StepSummary(cfg, prev, prevStep, origin, before, txs, b, step);
    CounterBelow(step, prevStep);
    LaterLength(before, txs, cfg.txsPerProof, step);
  }

  lemma LaterLength<T>(before: seq<T>, txs: seq<T>, perProof: nat, step: nat)
    requires |before| == perProof * step && |txs| == perProof && txs != []
    ensures |before + txs| == perProof * (step + 1) && Back(before + txs) == Back(txs)
  {
  }

  lemma CounterBelow(step: Felt, prevStep: Felt)
    requires step != 0 && step == Add(prevStep, 1)
    ensures step == prevStep + 1
  {
  }

  /** The public record a base proof is given for step zero. */
  function BaseRecord(blockNumber: Felt, createdAt: Felt, validium: HashOut, roots: Roots, limit: nat): Record {
    Record(blockNumber, createdAt, validium, roots, Zero, PerKind(NO_MESSAGE, NO_MESSAGE, NO_MESSAGE),
           0, seq(limit, _ => NO_ON_CHAIN), 0, NO_PRIORITY, Initial(roots), roots)
  }

  /** The base record passes step zero, and every record that does has its jump and initial roots. */
  lemma BaseRecordStarts(r: Record)
    ensures StartChecks(r) <==>
            r == BaseRecord(r.blockNumber, r.createdAt, r.validium, r.roots, |r.slots|).(markets := r.markets)
  {
    InitialByFields(r.jump, r.roots);
    if StartChecks(r) {
      assert r.messages.Of(ChangePubKey) == r.messages.Of(Transfer) == r.messages.Of(ApproveIntegrator) == NO_MESSAGE;
      assert r.slots == seq(|r.slots|, _ => NO_ON_CHAIN);
    }
  }

  // ---------- the block circuit ----------

  /** What the block takes from the proof of its first part. */
  datatype PreExecution = PreExecution(blockNumber: Felt, createdAt: Felt, stateRoot: HashOut)

  predicate SanityChecks(pre: PreExecution, oldDelta: HashOut, light: Record, heavy: Record) {
    && pre.blockNumber == light.blockNumber == heavy.blockNumber
    && pre.createdAt == light.createdAt == heavy.createdAt
    && light.initial == heavy.initial == Roots(pre.stateRoot, oldDelta)
    && light.onChainCount == 0 && light.priorityCount == 0
    && forall k :: light.messages.Of(k).account == 0
  }

  function Exposed(r: Record): Exposure {
    Exposure(r.jump, r.roots)
  }

  lemma {:induction false} ViewsBack(txs: seq<Output>)
    requires txs != []
    ensures Chain.Views(txs) != [] && Back(Chain.Views(txs)) == Back(txs).view
  {
  }

  /** A verified chain exposes what the jump theorems take for its transactions. */
  lemma {:induction false} ChainExposes(cfg: Config, p: Proof)
    requires ValidConfig(cfg) && Verified(cfg, p)
    ensures Chain.Views(AllTxs(p)) != []
    ensures RunAccepts(Initial(p.Public().initial), Chain.Views(AllTxs(p)))
    ensures Expose(p.Public().initial, Chain.Views(AllTxs(p))) == Exposed(p.Public())
  {
    ChainSound(cfg, p);
    ViewsBack(AllTxs(p));
  }

  /**
   Two verified chains that pass the block's checks hold, between them, one gap-free execution from
   the roots left by the block's first part to the roots the block publishes, and only the heavy one
   contributes operations and messages.
   */
  lemma BlockSound(lightCfg: Config, heavyCfg: Config, pre: PreExecution, oldDelta: HashOut,
                   light: Proof, heavy: Proof) returns (exec: seq<ExecTx>)
    requires ValidConfig(lightCfg) && ValidConfig(heavyCfg) && !lightCfg.heavy && heavyCfg.heavy
    requires Verified(lightCfg, light) && Verified(heavyCfg, heavy)
    requires SanityChecks(pre, oldDelta, light.Public(), heavy.Public())
    requires JumpChecks(Exposed(light.Public()), Exposed(heavy.Public()))
    requires Countable(Chain.Views(AllTxs(light)), Chain.Views(AllTxs(heavy)))
    ensures Chain.Views(AllTxs(light)) != [] && Chain.Views(AllTxs(heavy)) != []
    ensures Realizes(Roots(pre.stateRoot, oldDelta), Chain.Views(AllTxs(light)), Chain.Views(AllTxs(heavy)), exec)
    ensures EndRoots(Roots(pre.stateRoot, oldDelta), exec)
            == BlockRoots(Exposed(light.Public()), Exposed(heavy.Public()))
    ensures OnChainSummary(heavy.Public(), true, AllTxs(heavy), heavyCfg.limit)
    ensures PrioritySummary(heavy.Public(), true, AllTxs(heavy))
    ensures forall k :: OneMessage(heavy.Public(), true, AllTxs(heavy), k)
  {
    ChainExposes(lightCfg, light);
    ChainExposes(heavyCfg, heavy);
    ChainSound(heavyCfg, heavy);
    exec := JumpSoundness(Roots(pre.stateRoot, oldDelta), Chain.Views(AllTxs(light)), Chain.Views(AllTxs(heavy)));
  }

  /** A verified light chain passes the block's test that it carries nothing to publish. */
  lemma {:induction false} LightCarriesNothing(cfg: Config, p: Proof)
    requires ValidConfig(cfg) && Verified(cfg, p) && !cfg.heavy
    ensures p.Public().onChainCount == 0 && p.Public().priorityCount == 0
    ensures forall k :: p.Public().messages.Of(k) == NO_MESSAGE
  {
    ChainSound(cfg, p);
    LightSummary(cfg, p.Public(), Origin(p), AllTxs(p));
  }

  lemma LightSummary(cfg: Config, r: Record, origin: Record, txs: seq<Output>)
    requires Summarizes(cfg, r, origin, txs) && !cfg.heavy
    ensures r.onChainCount == 0 && r.priorityCount == 0
    ensures forall k :: r.messages.Of(k) == NO_MESSAGE
  {
    forall k ensures r.messages.Of(k) == NO_MESSAGE {
      assert OneMessage(r, false, txs, k);
      assert Signed(false, txs, k) == [];
    }
  }
}
