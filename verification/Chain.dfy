/**
 The recursion over the proofs of one transaction chain. A batch circuit folds the outputs of its
 transactions into one record; a chain circuit checks that record against the previous proof's
 public record and exposes the next one.
 */
module Chain {
  import opened Goldilocks
  import opened Jump
  import opened JumpTrail

  datatype Option<T> = None | Some(value: T)

  /** A signed message: its account index, and everything else it says. */
  datatype Message = Message(account: Felt, content: nat)

  const NO_MESSAGE := Message(0, 0)

  datatype Kind = ChangePubKey | Transfer | ApproveIntegrator

  /** One value for each kind of message. */
  datatype PerKind<T> = PerKind(changePubKey: T, transfer: T, approveIntegrator: T)
  {
    function Of(k: Kind): T {
      match k
      case ChangePubKey => changePubKey
      case Transfer => transfer
      case ApproveIntegrator => approveIntegrator
    }
  }

  const ON_CHAIN_BYTES: nat := 17
  const PRIORITY_BYTES: nat := 100

  function Zeros(n: nat): seq<nat> {
    seq(n, _ => 0)
  }

  type OnChainData = d: seq<nat> | |d| == ON_CHAIN_BYTES witness Zeros(ON_CHAIN_BYTES)
  type PriorityData = d: seq<nat> | |d| == PRIORITY_BYTES witness Zeros(PRIORITY_BYTES)

  const NO_ON_CHAIN: OnChainData := Zeros(ON_CHAIN_BYTES)
  const NO_PRIORITY: PriorityData := Zeros(PRIORITY_BYTES)

  /** An absent operation is all zeros. */
  lemma AbsentIsZero(i: nat)
    ensures i < ON_CHAIN_BYTES ==> NO_ON_CHAIN[i] == 0
    ensures i < PRIORITY_BYTES ==> NO_PRIORITY[i] == 0
  {
  }

  /** What the batch circuit takes from one transaction. */
  datatype Output = Output(
    view: TxView,
    validium: HashOut,
    markets: HashOut,
    signed: PerKind<Option<Message>>,
    onChain: Option<OnChainData>,
    priority: Option<PriorityData>)

  /** The public record of one batch. */
  datatype Batch = Batch(
    validium: HashOut,
    roots: Roots,
    markets: HashOut,
    messages: PerKind<Message>,
    onChainCount: Felt,
    onChainData: OnChainData,
    priorityCount: Felt,
    priorityData: PriorityData,
    oldJump: JumpState,
    newJump: JumpState)

  function Views(txs: seq<Output>): seq<TxView> {
    if txs == [] then [] else Views(Front(txs)) + [Back(txs).view]
  }

  function Keep<T>(s: seq<T>, o: Option<T>): seq<T> {
    match o case None => s case Some(x) => s + [x]
  }

  /** The on-chain operations the transactions contribute, in order; a light chain contributes none. */
  function OnChainOps(heavy: bool, txs: seq<Output>): seq<OnChainData> {
    if txs == [] || !heavy then [] else Keep(OnChainOps(heavy, Front(txs)), Back(txs).onChain)
  }

  function PriorityOps(heavy: bool, txs: seq<Output>): seq<PriorityData> {
    if txs == [] || !heavy then [] else Keep(PriorityOps(heavy, Front(txs)), Back(txs).priority)
  }

  function Signed(heavy: bool, txs: seq<Output>, k: Kind): seq<Message> {
    if txs == [] || !heavy then [] else Keep(Signed(heavy, Front(txs), k), Back(txs).signed.Of(k))
  }

  function LastOr<T>(s: seq<T>, none: T): T {
    if s == [] then none else Back(s)
  }

  /** The circuit's test that a counter is zero or one. */
  predicate SquareIsItself(count: Felt) {
    Sub((count * count) % P, count) == 0
  }

  /** The constraints of the batch circuit. */
  predicate BatchHolds(heavy: bool, txs: seq<Output>, b: Batch) {
    && txs != []
    && RunAccepts(b.oldJump, Views(txs)) && b.newJump == Run(b.oldJump, Views(txs))
    && b.roots == Back(txs).view.after && b.validium == Back(txs).validium && b.markets == Back(txs).markets
    && b.onChainCount == Encode(|OnChainOps(heavy, txs)|)
    && b.onChainData == LastOr(OnChainOps(heavy, txs), NO_ON_CHAIN)
    && b.priorityCount == Encode(|PriorityOps(heavy, txs)|)
    && b.priorityData == LastOr(PriorityOps(heavy, txs), NO_PRIORITY)
    && forall k :: MessageHolds(heavy, txs, b, k)
  }

  predicate MessageHolds(heavy: bool, txs: seq<Output>, b: Batch, k: Kind) {
    && SquareIsItself(Encode(|Signed(heavy, txs, k)|))
    && b.messages.Of(k) == LastOr(Signed(heavy, txs, k), NO_MESSAGE)
  }

  // ---------- the batch circuit's loops ----------

  lemma Increment(n: nat)
    ensures Add(Encode(n), 1) == Encode(n + 1)
  {
    EncodeSmall(1);
    EncodeAdd(n, 1);
  }

  /** One message loop: the number of signed messages of a kind and the last of them. */
  method HandleMessage(heavy: bool, txs: seq<Output>, k: Kind) returns (ok: bool, message: Message)
    ensures ok <==> SquareIsItself(Encode(|Signed(heavy, txs, k)|))
    ensures message == LastOr(Signed(heavy, txs, k), NO_MESSAGE)
  {
    var count: Felt := 0;
    message := NO_MESSAGE;
    EncodeSmall(0);
    if heavy {
      for i := 0 to |txs|
        invariant count == Encode(|Signed(heavy, txs[..i], k)|)
        invariant message == LastOr(Signed(heavy, txs[..i], k), NO_MESSAGE)
      {
        assert Front(txs[..i + 1]) == txs[..i];
        var signed := txs[i].signed.Of(k);
        Increment(|Signed(heavy, txs[..i], k)|);
        if signed.Some? {
          count, message := Add(count, 1), signed.value;
        }
      }
      assert txs[..|txs|] == txs;
    }
    ok := SquareIsItself(count);
  }

  /** Counter and data of one sort of operation after some transactions. */
  predicate Counted<T(==)>(count: Felt, data: T, ops: seq<T>, none: T) {
    count == Encode(|ops|) && data == LastOr(ops, none)
  }

  lemma CountOne<T>(count: Felt, data: T, ops: seq<T>, none: T, o: Option<T>)
    requires Counted(count, data, ops, none)
    ensures o.Some? ==> Counted(Add(count, 1), o.value, Keep(ops, o), none)
    ensures o.None? ==> Counted(count, data, Keep(ops, o), none)
  {
    Increment(|ops|);
  }

  /** The loop over the transactions of a batch. */
  method DefineTxLoop(heavy: bool, txs: seq<Output>, oldJump: JumpState)
      returns (ok: bool, jump: JumpState, onChainCount: Felt, onChainData: OnChainData,
               priorityCount: Felt, priorityData: PriorityData)
    ensures ok <==> RunAccepts(oldJump, Views(txs))
    ensures jump == Run(oldJump, Views(txs))
    ensures Counted(onChainCount, onChainData, OnChainOps(heavy, txs), NO_ON_CHAIN)
    ensures Counted(priorityCount, priorityData, PriorityOps(heavy, txs), NO_PRIORITY)
  {
    ok, jump, onChainCount, priorityCount := true, oldJump, 0, 0;
    onChainData, priorityData := NO_ON_CHAIN, NO_PRIORITY;
    EncodeSmall(0);
    for i := 0 to |txs|
      invariant ok <==> RunAccepts(oldJump, Views(txs[..i]))
      invariant jump == Run(oldJump, Views(txs[..i]))
      invariant Counted(onChainCount, onChainData, OnChainOps(heavy, txs[..i]), NO_ON_CHAIN)
      invariant Counted(priorityCount, priorityData, PriorityOps(heavy, txs[..i]), NO_PRIORITY)
    {
      var tx := txs[i];
      assert Front(txs[..i + 1]) == txs[..i] && Back(txs[..i + 1]) == tx;
      RunOne(oldJump, Views(txs[..i]), tx.view);
      CountOne(onChainCount, onChainData, OnChainOps(heavy, txs[..i]), NO_ON_CHAIN, tx.onChain);
      CountOne(priorityCount, priorityData, PriorityOps(heavy, txs[..i]), NO_PRIORITY, tx.priority);
      ok := ok && StepAccepts(jump, tx.view);
      jump := Step(jump, tx.view);
      if heavy {
        if tx.onChain.Some? {
          onChainCount, onChainData := Add(onChainCount, 1), tx.onChain.value;
        }
        if tx.priority.Some? {
          priorityCount, priorityData := Add(priorityCount, 1), tx.priority.value;
        }
      }
    }
    assert txs[..|txs|] == txs;
  }

  /** The whole batch circuit: satisfied with this record, or with none. */
  method DefineBatch(heavy: bool, txs: seq<Output>, oldJump: JumpState) returns (ok: bool, b: Batch)
    requires txs != []
    ensures b.oldJump == oldJump
    ensures ok ==> BatchHolds(heavy, txs, b)
    ensures !ok ==> forall c: Batch :: c.oldJump == oldJump ==> !BatchHolds(heavy, txs, c)
  {
    var run, jump, onChainCount, onChainData, priorityCount, priorityData := DefineTxLoop(heavy, txs, oldJump);
    var okKey, key := HandleMessage(heavy, txs, ChangePubKey);
    var okTransfer, transfer := HandleMessage(heavy, txs, Transfer);
    var okApprove, approve := HandleMessage(heavy, txs, ApproveIntegrator);
    var last := txs[|txs| - 1];
    b := Batch(last.validium, last.view.after, last.markets, PerKind(key, transfer, approve),
               onChainCount, onChainData, priorityCount, priorityData, oldJump, jump);
    ok := run && okKey && okTransfer && okApprove;
    assert ok ==> MessageHolds(heavy, txs, b, ChangePubKey) && MessageHolds(heavy, txs, b, Transfer)
                  && MessageHolds(heavy, txs, b, ApproveIntegrator);
    assert forall c: Batch :: BatchHolds(heavy, txs, c) ==>
             && MessageHolds(heavy, txs, c, ChangePubKey)
             && MessageHolds(heavy, txs, c, Transfer)
             && MessageHolds(heavy, txs, c, ApproveIntegrator);
  }

  lemma {:induction false} RunOne(j: JumpState, txs: seq<TxView>, t: TxView)
    ensures Run(j, txs + [t]) == Step(Run(j, txs), t)
    ensures RunAccepts(j, txs + [t]) <==> RunAccepts(j, txs) && StepAccepts(Run(j, txs), t)
  {
    assert (txs + [t])[..|txs|] == txs;
  }

  // ---------- the chain circuit ----------

  /** The public record of a chain proof. */
  datatype Record = Record(
    blockNumber: Felt,
    createdAt: Felt,
    validium: HashOut,
    roots: Roots,
    markets: HashOut,
    messages: PerKind<Message>,
    onChainCount: Felt,
    slots: seq<OnChainData>,
    priorityCount: Felt,
    priorityData: PriorityData,
    jump: JumpState,
    initial: Roots)

  /** The field-wise test that a jump state is the initial one. */
  predicate AssertsInitial(j: JumpState, roots: Roots) {
    && Add(j.lastActive, 1) == 0 && Add(j.runStartPrev, 1) == 0
    && j.prevNew == roots && j.runStartOld == roots
    && j.coverage == Zero && j.claims == Zero && j.txCount == 0
  }

  /** What the record before step zero must look like; it is not a proved one. */
  predicate StartChecks(prev: Record) {
    && prev.onChainCount == 0 && prev.priorityCount == 0
    && (forall k :: prev.messages.Of(k) == NO_MESSAGE)
    && (forall i :: 0 <= i < |prev.slots| ==> prev.slots[i] == NO_ON_CHAIN)
    && prev.priorityData == NO_PRIORITY
    && AssertsInitial(prev.jump, prev.roots)
    && prev.initial == prev.roots
  }

  /** The constraints between the previous record, a batch and the step counter. */
  predicate StepHolds(prev: Record, prevStep: Felt, b: Batch, step: Felt, limit: Felt) {
    && |prev.slots| == limit
    && (step == 0 ==> StartChecks(prev))
    && (step != 0 ==> step == Add(prevStep, 1))
    && prev.jump == b.oldJump
    && (forall k :: b.messages.Of(k).account != 0 ==> prev.messages.Of(k).account == 0)
    && (b.priorityCount != 0 ==> prev.priorityCount == 0)
    && (b.priorityCount == 0 || b.priorityCount == 1)
    && (b.onChainCount != 0 ==> prev.onChainCount != limit)
    && (b.onChainCount == 0 || b.onChainCount == 1)
  }

  function SelectMessage(b: Batch, prev: Record, k: Kind): Message {
    if b.messages.Of(k).account != 0 then b.messages.Of(k) else prev.messages.Of(k)
  }

  /** The slots after one batch: the slot at the count takes the batch's data. */
  function SelectSlots(slots: seq<OnChainData>, count: Felt, data: OnChainData, present: bool): seq<OnChainData> {
    if present && count < |slots| then slots[count := data] else slots
  }

  function Next(prev: Record, b: Batch): Record {
    Record(
      prev.blockNumber, prev.createdAt, b.validium, b.roots, b.markets,
      PerKind(SelectMessage(b, prev, ChangePubKey), SelectMessage(b, prev, Transfer),
              SelectMessage(b, prev, ApproveIntegrator)),
      Add(prev.onChainCount, b.onChainCount),
      SelectSlots(prev.slots, prev.onChainCount, b.onChainData, b.onChainCount != 0),
      Add(prev.priorityCount, b.priorityCount),
      if b.priorityCount != 0 then b.priorityData else prev.priorityData,
      b.newJump,
      prev.initial)
  }

  function Rows(a: array2<nat>): seq<seq<nat>>
    reads a
  {
    seq(a.Length0, i requires 0 <= i < a.Length0 reads a => Row(a, i))
  }

  function Row(a: array2<nat>, i: nat): seq<nat>
    requires i < a.Length0
    reads a
  {
    seq(a.Length1, j requires 0 <= j < a.Length1 reads a => a[i, j])
  }

  /** The nested loops over slots and bytes, overwriting the one selected slot in place. */
  method SelectOnChainPubData(slots: array2<nat>, count: Felt, data: OnChainData, present: bool)
    requires slots.Length1 == ON_CHAIN_BYTES
    modifies slots
    ensures Rows(slots) == SelectSlots(old(Rows(slots)), count, data, present)
  {
    for slot := 0 to slots.Length0
      invariant forall s, j :: slot <= s < slots.Length0 && 0 <= j < ON_CHAIN_BYTES ==> slots[s, j] == old(slots[s, j])
      invariant forall s, j :: 0 <= s < slot && 0 <= j < ON_CHAIN_BYTES ==>
                  slots[s, j] == if present && s == count then data[j] else old(slots[s, j])
    {
      var flag := present && slot == count;
      for i := 0 to ON_CHAIN_BYTES
        invariant forall s, j :: (slot < s < slots.Length0 || (s == slot && i <= j)) && 0 <= j < ON_CHAIN_BYTES ==>
                    slots[s, j] == old(slots[s, j])
        invariant forall s, j :: (0 <= s < slot || (s == slot && j < i)) && 0 <= j < ON_CHAIN_BYTES ==>
                    slots[s, j] == if present && s == count then data[j] else old(slots[s, j])
      {
        slots[slot, i] := if flag then data[i] else slots[slot, i];
      }
    }
    ghost var expected := SelectSlots(old(Rows(slots)), count, data, present);
    forall s | 0 <= s < slots.Length0 ensures Rows(slots)[s] == expected[s] {
      assert Row(slots, s) == expected[s];
    }
  }
}
