/**
 The proving pipeline as a state machine: two path threads, the transaction and chain threads they
 spawn, and the counters they share. Any interleaving of their steps is a run.
 */
module Scheduler {

  const OVERLAP_START: nat := 3
  const RAMP: nat := 2

  datatype Option<T> = None | Some(value: T)

  /** Where a path thread is. A step number is also the number of the chunk it proves. */
  datatype Phase =
    | LoopTop
    | SpawnTx
    | Push
    | Join(step: nat)
    | Advance
    | AfterLoop
    | Drain
    | DrainJoin(step: nat)
    | Claim(step: nat)
    | DrainSpawn(step: nat)
    | WaitChain
    | Release
    | Retire
    | Done

  /** A chain step that was started, and the step it waits for; the first has only the base proof. */
  datatype ChainStep = ChainStep(step: nat, previous: Option<nat>)

  datatype Path = Path(
    heavy: bool,
    chunks: nat,
    window: nat,
    phase: Phase,
    current: nat,
    inFlight: seq<nat>,
    pending: Option<nat>,
    started: seq<ChainStep>,
    spawned: nat,
    txDone: set<nat>,
    chainDone: nat,
    exclusive: bool)

  datatype System = System(light: Path, heavy: Path, activePaths: nat, exclusivePhase: bool, backlog: int)

  function StartPath(heavy: bool, chunks: nat, window: nat): Path {
    Path(heavy, chunks, window, LoopTop, 0, [], None, [], 0, {}, 0, false)
  }

  function Start(lightChunks: nat, heavyChunks: nat, window: nat): System {
    System(StartPath(false, lightChunks, window), StartPath(true, heavyChunks, window), 2, false, 0)
  }

  /** How many transaction proofs may be in flight when the thread goes on. */
  function MaxInFlight(p: Path): nat {
    if p.heavy then 1 else if p.current >= OVERLAP_START then p.window else RAMP
  }

  function Front(s: seq<nat>): nat
    requires s != []
  {
    s[0]
  }

  /** The next chain step waits for the one started before it. */
  function NextChainStep(p: Path, step: nat): ChainStep {
    ChainStep(step, if p.started == [] then None else Some(p.started[|p.started| - 1].step))
  }

  /** Whether the path thread can go on: joins wait for their thread. */
  predicate CanRun(p: Path) {
    match p.phase
    case Join(step) => step in p.txDone
    case DrainJoin(step) => step in p.txDone
    case WaitChain => p.chainDone == |p.started|
    case Done => false
    case _ => true
  }

  function SpawnChain(p: Path, step: nat, next: Phase): Path {
    p.(started := p.started + [NextChainStep(p, step)], pending := None, phase := next)
  }

  /** One step of a path thread; only claiming looks at the number of active paths. */
  function RunPath(p: Path, activePaths: nat): Path
    requires CanRun(p)
  {
    match p.phase
    case LoopTop => if p.pending.Some? then SpawnChain(p, p.pending.value, SpawnTx) else p.(phase := SpawnTx)
    case SpawnTx => p.(spawned := p.spawned + 1, phase := Push)
    case Push =>
      var q := p.inFlight + [p.current];
      if |q| >= MaxInFlight(p) then p.(inFlight := q[1..], phase := Join(Front(q)))
      else p.(inFlight := q, phase := Advance)
    case Join(step) => p.(pending := Some(step), phase := Advance)
    case Advance => p.(current := p.current + 1, phase := if p.current + 1 < p.chunks then LoopTop else AfterLoop)
    case AfterLoop => if p.pending.Some? then SpawnChain(p, p.pending.value, Drain) else p.(phase := Drain)
    case Drain =>
      if p.inFlight == [] then p.(phase := WaitChain)
      else p.(inFlight := p.inFlight[1..], phase := DrainJoin(Front(p.inFlight)))
    case DrainJoin(step) => p.(phase := Claim(step))
    case Claim(step) =>
      p.(exclusive := p.exclusive || (p.inFlight == [] && activePaths == 1), phase := DrainSpawn(step))
    case DrainSpawn(step) => SpawnChain(p, step, Drain)
    case WaitChain => p.(phase := Release)
    case Release => p.(phase := Retire)
    case Retire => p.(phase := Done)
    case Done => p
  }

  datatype Action = Run(heavy: bool) | FinishTx(heavy: bool, step: nat) | FinishChain(heavy: bool)

  function PathOf(s: System, heavy: bool): Path {
    if heavy then s.heavy else s.light
  }

  function WithPath(s: System, p: Path, heavy: bool): System {
    if heavy then s.(heavy := p) else s.(light := p)
  }

  /** Spawned threads may finish at any time; a chain thread waits for its predecessor's proof. */
  predicate Enabled(s: System, a: Action) {
    var p := PathOf(s, a.heavy);
    match a
    case Run(_) => CanRun(p)
    case FinishTx(_, step) => step < p.spawned && step !in p.txDone
    case FinishChain(_) => p.chainDone < |p.started|
  }

  /** Starting a chain step raises the shared backlog, finishing it lowers it again. */
  function Apply(s: System, a: Action): System
    requires Enabled(s, a)
  {
    var p := PathOf(s, a.heavy);
    match a
    case FinishTx(_, step) => WithPath(s, p.(txDone := p.txDone + {step}), a.heavy)
    case FinishChain(_) => WithPath(s, p.(chainDone := p.chainDone + 1), a.heavy).(backlog := s.backlog - 1)
    case Run(_) =>
      var q := RunPath(p, s.activePaths);
      WithPath(s, q, a.heavy).(
        backlog := s.backlog + (|q.started| - |p.started|),
        exclusivePhase := if !p.exclusive && q.exclusive then true
                          else if p.phase.Release? && p.exclusive then false else s.exclusivePhase,
        activePaths := if p.phase.Retire? then if s.activePaths == 0 then 0 else s.activePaths - 1 else s.activePaths)
  }

  /** A run of steps, each enabled where it is taken. */
  predicate RunHolds(s: System, run: seq<Action>)
    decreases |run|
  {
    run != [] ==> Enabled(s, run[0]) && RunHolds(Apply(s, run[0]), run[1..])
  }

  function After(s: System, run: seq<Action>): System
    requires RunHolds(s, run)
    decreases |run|
  {
    if run == [] then s else After(Apply(s, run[0]), run[1..])
  }

  // ---------- what holds of one path ----------

  /** Chain steps start once each, in order, each after its predecessor. */
  predicate InOrder(started: seq<ChainStep>) {
    forall k :: 0 <= k < |started| ==>
      started[k].step == k && started[k].previous == if k == 0 then None else Some(k - 1)
  }

  /** The step a thread has joined, or is joining, but not yet given to a chain thread. */
  function Held(p: Path): seq<nat> {
    match p.phase
    case Join(step) => [step]
    case DrainJoin(step) => [step]
    case Claim(step) => [step]
    case DrainSpawn(step) => [step]
    case _ => if p.pending.Some? then [p.pending.value] else []
  }

  function Consecutive(from: nat, to: nat): seq<nat>
    requires from <= to
  {
    seq(to - from, i requires 0 <= i < to - from => from + i)
  }

  /** Transaction proofs spawned and not yet joined. */
  function Unjoined(p: Path): int {
    |p.inFlight| + (if p.phase.Push? then 1 else 0) + (if p.phase.Join? || p.phase.DrainJoin? then 1 else 0)
  }

  predicate InLoop(p: Path) {
    p.phase.LoopTop? || p.phase.SpawnTx? || p.phase.Push? || p.phase.Join? || p.phase.Advance?
  }

  predicate AfterDrain(p: Path) {
    p.phase.WaitChain? || p.phase.Release? || p.phase.Retire? || p.phase.Done?
  }

  function Limit(p: Path): nat {
    if p.heavy then 1 else if p.window > RAMP then p.window else RAMP
  }

  /** How many steps have been put in the queue. */
  function Queued(p: Path): nat {
    p.current + if p.phase.Join? || p.phase.Advance? then 1 else 0
  }

  predicate PathInvariant(p: Path) {
    && p.window > 0 && p.chunks > 0 && p.current <= p.chunks
    && (InLoop(p) <==> p.current < p.chunks)
    && p.spawned == Queued(p) + (if p.phase.Push? then 1 else 0)
    && (forall step :: step in p.txDone ==> step < p.spawned)
    && InOrder(p.started) && p.chainDone <= |p.started|
    && |p.started| + |Held(p)| <= Queued(p)
    && Held(p) + p.inFlight == Consecutive(|p.started|, Queued(p))
    && (p.pending.Some? ==> p.phase.LoopTop? || p.phase.Advance? || p.phase.AfterLoop?)
    && QueueFits(p)
    && (forall step :: 0 <= step < p.spawned - Unjoined(p) ==> step in p.txDone)
    && (p.heavy ==> !p.exclusive)
    && (AfterDrain(p) ==> p.inFlight == [] && |p.started| == p.chunks)
    && (AfterDrain(p) && !p.phase.WaitChain? ==> p.chainDone == p.chunks)
    && (p.exclusive ==> p.phase.DrainSpawn? || p.phase.Drain? || p.phase.WaitChain? || p.phase.Release?
                        || p.phase.Retire? || p.phase.Done?)
    && (p.exclusive ==> p.inFlight == [])
  }

  /** Between pushes the queue is shorter than the window; a step held by the loop has left it. */
  predicate QueueFits(p: Path) {
    && (InLoop(p) || p.phase.AfterLoop? || p.phase.Drain? ==> |p.inFlight| < Limit(p))
    && (p.phase.DrainJoin? || p.phase.Claim? || p.phase.DrainSpawn? ==> |p.inFlight| + 1 < Limit(p))
  }

  lemma ConsecutiveFront(from: nat, to: nat, rest: seq<nat>, first: nat)
    requires from <= to && [first] + rest == Consecutive(from, to)
    ensures first == from && from < to && rest == Consecutive(from + 1, to)
  {
    assert ([first] + rest)[0] == first && ([first] + rest)[1..] == rest;
  }

  lemma ConsecutiveBack(from: nat, to: nat, held: seq<nat>, queue: seq<nat>)
    requires from <= to && held + queue == Consecutive(from, to)
    ensures held + (queue + [to]) == Consecutive(from, to + 1)
  {
    assert held + (queue + [to]) == held + queue + [to];
  }

  /** The held step is the next to start, and starting it keeps the order. */
  lemma StartKeeps(p: Path, step: nat, next: Phase)
    requires PathInvariant(p) && Held(p) == [step]
    ensures step == |p.started| < Queued(p)
    ensures InOrder(SpawnChain(p, step, next).started) && p.inFlight == Consecutive(|p.started| + 1, Queued(p))
  {
    ConsecutiveFront(|p.started|, Queued(p), p.inFlight, step);
  }

  lemma StartingKeeps(p: Path, activePaths: nat)
    requires PathInvariant(p) && CanRun(p)
    requires p.phase.DrainSpawn? || ((p.phase.LoopTop? || p.phase.AfterLoop?) && p.pending.Some?)
    ensures PathInvariant(RunPath(p, activePaths))
  {
    var step := if p.phase.DrainSpawn? then p.phase.step else p.pending.value;
    StartKeeps(p, step, RunPath(p, activePaths).phase);
    assert Held(RunPath(p, activePaths)) + p.inFlight == p.inFlight;
  }

  lemma PushKeeps(p: Path, activePaths: nat)
    requires PathInvariant(p) && p.phase.Push?
    ensures PathInvariant(RunPath(p, activePaths))
  {
    var q := p.inFlight + [p.current];
    ConsecutiveBack(|p.started|, Queued(p), Held(p), p.inFlight);
    assert Held(p) == [];
    assert q == [q[0]] + q[1..];
  }

  lemma DrainKeeps(p: Path, activePaths: nat)
    requires PathInvariant(p) && p.phase.Drain?
    ensures PathInvariant(RunPath(p, activePaths))
  {
    if p.inFlight != [] {
      assert p.inFlight == [p.inFlight[0]] + p.inFlight[1..];
    }
  }

  lemma JoinKeeps(p: Path, activePaths: nat)
    requires PathInvariant(p) && CanRun(p) && (p.phase.Join? || p.phase.DrainJoin?)
    ensures PathInvariant(RunPath(p, activePaths))
  {
    ConsecutiveFront(|p.started|, Queued(p), p.inFlight, p.phase.step);
    assert p.phase.step == p.spawned - Unjoined(p);
  }

  lemma QuietKeeps(p: Path, activePaths: nat)
    requires PathInvariant(p) && CanRun(p)
    requires p.phase.SpawnTx? || p.phase.Advance? || p.phase.Claim? || AfterDrain(p)
             || ((p.phase.LoopTop? || p.phase.AfterLoop?) && p.pending.None?)
    ensures PathInvariant(RunPath(p, activePaths))
  {
  }

  /** A step of the path thread keeps the invariant. */
  lemma RunKeepsPath(p: Path, activePaths: nat)
    requires PathInvariant(p) && CanRun(p)
    ensures PathInvariant(RunPath(p, activePaths))
  {
    if p.phase.DrainSpawn? || ((p.phase.LoopTop? || p.phase.AfterLoop?) && p.pending.Some?) {
      StartingKeeps(p, activePaths);
    } else if p.phase.Push? {
      PushKeeps(p, activePaths);
    } else if p.phase.Drain? {
      DrainKeeps(p, activePaths);
    } else if p.phase.Join? || p.phase.DrainJoin? {
      JoinKeeps(p, activePaths);
    } else {
      QuietKeeps(p, activePaths);
    }
  }

  lemma TxThreadKeepsPath(p: Path, step: nat)
    requires PathInvariant(p) && step < p.spawned
    ensures PathInvariant(p.(txDone := p.txDone + {step}))
  {
  }

  lemma ChainThreadKeepsPath(p: Path)
    requires PathInvariant(p) && p.chainDone < |p.started|
    ensures PathInvariant(p.(chainDone := p.chainDone + 1))
  {
  }

  /** Whatever is unfinished is among the last few proofs spawned: two or the window for light, one for heavy. */
  lemma InFlightBounded(p: Path, step: nat)
    requires PathInvariant(p) && step < p.spawned && step !in p.txDone
    ensures p.spawned - Limit(p) <= step
  {
  }

  /** The heavy path has nothing left to drain, so it never comes to claim the exclusive phase. */
  lemma HeavyNeverClaims(p: Path)
    requires PathInvariant(p) && p.heavy
    ensures !p.phase.DrainJoin? && !p.phase.Claim? && !p.phase.DrainSpawn? && !p.exclusive
  {
  }

  /** A path that is not done has a thread that can go on. */
  lemma PathNotStuck(p: Path)
    requires PathInvariant(p) && !p.phase.Done?
    ensures CanRun(p) || p.chainDone < |p.started|
            || (p.phase.Join? && p.phase.step < p.spawned && p.phase.step !in p.txDone)
            || (p.phase.DrainJoin? && p.phase.step < p.spawned && p.phase.step !in p.txDone)
  {
    if p.phase.Join? || p.phase.DrainJoin? {
      ConsecutiveFront(|p.started|, Queued(p), p.inFlight, p.phase.step);
    }
  }

  // ---------- what holds of both ----------

  /** The path has set the exclusive phase and not yet cleared it. */
  predicate Holds(p: Path) {
    p.exclusive && !p.phase.Retire? && !p.phase.Done?
  }

  function Alive(p: Path): nat {
    if p.phase.Done? then 0 else 1
  }

  predicate SystemInvariant(s: System) {
    && PathInvariant(s.light) && !s.light.heavy
    && PathInvariant(s.heavy) && s.heavy.heavy
    && s.backlog == |s.light.started| - s.light.chainDone + |s.heavy.started| - s.heavy.chainDone
    && s.activePaths == Alive(s.light) + Alive(s.heavy)
    && s.exclusivePhase == (Holds(s.light) || Holds(s.heavy))
    && (s.light.exclusive ==> s.heavy.phase.Done?)
    && !s.heavy.exclusive
  }

  lemma StartInvariant(lightChunks: nat, heavyChunks: nat, window: nat)
    requires lightChunks > 0 && heavyChunks > 0 && window > 0
    ensures SystemInvariant(Start(lightChunks, heavyChunks, window))
  {
    assert Consecutive(0, 0) == [];
  }

  lemma LightRunKeepsSystem(s: System)
    requires SystemInvariant(s) && Enabled(s, Run(false))
    ensures SystemInvariant(Apply(s, Run(false)))
  {
    RunKeepsPath(s.light, s.activePaths);
  }

  lemma HeavyRunKeepsSystem(s: System)
    requires SystemInvariant(s) && Enabled(s, Run(true))
    ensures SystemInvariant(Apply(s, Run(true)))
  {
    RunKeepsPath(s.heavy, s.activePaths);
    HeavyNeverClaims(s.heavy);
  }

  lemma FinishTxKeepsSystem(s: System, heavy: bool, step: nat)
    requires SystemInvariant(s) && Enabled(s, FinishTx(heavy, step))
    ensures SystemInvariant(Apply(s, FinishTx(heavy, step)))
  {
    if heavy {
      TxThreadKeepsPath(s.heavy, step);
    } else {
      TxThreadKeepsPath(s.light, step);
    }
  }

  lemma LightChainKeepsSystem(s: System)
    requires SystemInvariant(s) && Enabled(s, FinishChain(false))
    ensures SystemInvariant(Apply(s, FinishChain(false)))
  {
    ChainThreadKeepsPath(s.light);
  }

  lemma HeavyChainKeepsSystem(s: System)
    requires SystemInvariant(s) && Enabled(s, FinishChain(true))
    ensures SystemInvariant(Apply(s, FinishChain(true)))
  {
    ChainThreadKeepsPath(s.heavy);
  }

  /** Every step of every thread keeps the invariant. */
  lemma StepKeepsSystem(s: System, a: Action)
    requires SystemInvariant(s) && Enabled(s, a)
    ensures SystemInvariant(Apply(s, a))
  {
    match a
    case Run(heavy) =>
      if heavy {
        HeavyRunKeepsSystem(s);
      } else {
        LightRunKeepsSystem(s);
      }
    case FinishTx(heavy, step) => FinishTxKeepsSystem(s, heavy, step);
    case FinishChain(heavy) =>
      if heavy {
        HeavyChainKeepsSystem(s);
      } else {
        LightChainKeepsSystem(s);
      }
  }

  /** Any interleaving of any length keeps the invariant. */
  lemma {:induction false} RunKeepsInvariant(s: System, run: seq<Action>)
    requires SystemInvariant(s) && RunHolds(s, run)
    ensures SystemInvariant(After(s, run))
    decreases |run|
  {
    if run != [] {
      StepKeepsSystem(s, run[0]);
      RunKeepsInvariant(Apply(s, run[0]), run[1..]);
    }
  }

  /** From the start of a block, whatever the threads do. */
  lemma {:induction false} PipelineSafe(lightChunks: nat, heavyChunks: nat, window: nat, run: seq<Action>)
    requires lightChunks > 0 && heavyChunks > 0 && window > 0
    requires RunHolds(Start(lightChunks, heavyChunks, window), run)
    ensures SystemInvariant(After(Start(lightChunks, heavyChunks, window), run))
    ensures |run| <= Rank(Start(lightChunks, heavyChunks, window)) == 32 * (lightChunks + heavyChunks) + 50
  {
    StartInvariant(lightChunks, heavyChunks, window);
    RunKeepsInvariant(Start(lightChunks, heavyChunks, window), run);
    RunsEnd(Start(lightChunks, heavyChunks, window), run);
  }

  /** Only the light path ever holds the exclusive phase, and only once the heavy one has retired. */
  lemma ExclusiveIsAlone(s: System)
    requires SystemInvariant(s) && s.exclusivePhase
    ensures Holds(s.light) && !Holds(s.heavy) && s.heavy.phase.Done? && s.light.inFlight == []
    ensures forall step :: 0 <= step < s.light.spawned ==> step in s.light.txDone
  {
  }

  /**
   A step sets the exclusive phase exactly when it is the light path's claim, after its last join and after
   the heavy path is done.
   */
  lemma ClaimExactly(s: System, a: Action)
    requires SystemInvariant(s) && Enabled(s, a) && !s.exclusivePhase
    ensures Apply(s, a).exclusivePhase <==>
            a == Run(false) && s.light.phase.Claim? && s.light.inFlight == [] && s.heavy.phase.Done?
  {
    if a.Run? && a.heavy {
      HeavyNeverClaims(s.heavy);
    }
  }

  /** Once set it stays, until the light path releases it after its last chain step. */
  lemma StaysUntilRelease(s: System, a: Action)
    requires SystemInvariant(s) && Enabled(s, a) && s.exclusivePhase
    ensures Apply(s, a).exclusivePhase <==> !(a == Run(false) && s.light.phase.Release?)
    ensures a == Run(false) && s.light.phase.Release? ==> s.light.chainDone == s.light.chunks
  {
  }

  /** Nothing deadlocks: unless both paths are done, some thread can take a step. */
  lemma NeverStuck(s: System) returns (a: Action)
    requires SystemInvariant(s) && !(s.light.phase.Done? && s.heavy.phase.Done?)
    ensures Enabled(s, a)
  {
    var heavy := s.light.phase.Done?;
    var p := PathOf(s, heavy);
    PathNotStuck(p);
    if CanRun(p) {
      a := Run(heavy);
    } else if p.chainDone < |p.started| {
      a := FinishChain(heavy);
    } else {
      a := FinishTx(heavy, p.phase.step);
    }
  }

  /** When both are done all chain steps ran in order, and the shared counters are back where they started. */
  lemma DoneIsClean(s: System)
    requires SystemInvariant(s) && s.light.phase.Done? && s.heavy.phase.Done?
    ensures s.backlog == 0 && !s.exclusivePhase && s.activePaths == 0
    ensures InOrder(s.light.started) && |s.light.started| == s.light.chunks == s.light.chainDone
    ensures InOrder(s.heavy.started) && |s.heavy.started| == s.heavy.chunks == s.heavy.chainDone
  {
  }

  // ---------- the window is used ----------

  /**
   The queue when step k is about to be spawned. The heavy path joins at once. The light one runs one
   proof ahead, and from the overlap on lets the queue grow to one less than the window.
   */
  function Ahead(heavy: bool, window: nat, k: nat): nat {
    if heavy || k == 0 then 0
    else if k <= OVERLAP_START || window < RAMP then 1
    else if k - RAMP < window - 1 then k - RAMP
    else window - 1
  }

  /** The thread joins no earlier than it has to: while it runs, its queue is exactly that long. */
  predicate Saturated(p: Path) {
    && (p.phase.LoopTop? || p.phase.SpawnTx? || p.phase.Push? || p.phase.AfterLoop? ==>
          |p.inFlight| == Ahead(p.heavy, p.window, p.current))
    && (p.phase.Join? || p.phase.Advance? ==> |p.inFlight| == Ahead(p.heavy, p.window, p.current + 1))
  }

  lemma RunKeepsSaturated(p: Path, activePaths: nat)
    requires PathInvariant(p) && CanRun(p) && Saturated(p)
    ensures Saturated(RunPath(p, activePaths))
  {
  }

  lemma StepKeepsSaturated(s: System, a: Action)
    requires SystemInvariant(s) && Enabled(s, a) && Saturated(s.light) && Saturated(s.heavy)
    ensures Saturated(Apply(s, a).light) && Saturated(Apply(s, a).heavy)
  {
    if a.Run? {
      RunKeepsSaturated(PathOf(s, a.heavy), s.activePaths);
    }
  }

  /** From the start of a block, over any run, both queues are as long as the window lets them be. */
  lemma {:induction false} WindowIsUsed(s: System, run: seq<Action>)
    requires SystemInvariant(s) && RunHolds(s, run) && Saturated(s.light) && Saturated(s.heavy)
    ensures Saturated(After(s, run).light) && Saturated(After(s, run).heavy)
    decreases |run|
  {
    if run != [] {
      StepKeepsSaturated(s, run[0]);
      StepKeepsSystem(s, run[0]);
      WindowIsUsed(Apply(s, run[0]), run[1..]);
    }
  }

  // ---------- the exclusive phase is reached ----------

  /** The light path has not yet joined its last proof, so it can still claim. */
  predicate CanClaim(p: Path) {
    && !p.exclusive && !AfterDrain(p)
    && (p.phase.AfterLoop? || p.phase.Drain? ==> p.inFlight != [])
    && (p.phase.DrainSpawn? ==> p.inFlight != [])
  }

  /** While it can, each of its steps leaves it able to, or claims. */
  lemma CanClaimStays(p: Path)
    requires PathInvariant(p) && CanRun(p) && CanClaim(p) && Saturated(p) && !p.heavy
    ensures CanClaim(RunPath(p, 1)) || RunPath(p, 1).exclusive
  {
  }

  /** A path that is not done and whose own threads may run: one of its actions is enabled. */
  lemma SomeAction(s: System, heavy: bool) returns (a: Action)
    requires SystemInvariant(s) && !PathOf(s, heavy).phase.Done?
    ensures Enabled(s, a) && a.heavy == heavy
  {
    var p := PathOf(s, heavy);
    PathNotStuck(p);
    if CanRun(p) {
      a := Run(heavy);
    } else if p.chainDone < |p.started| {
      a := FinishChain(heavy);
    } else {
      a := FinishTx(heavy, p.phase.step);
    }
  }

  lemma RankIsNatural(s: System)
    requires SystemInvariant(s)
    ensures Rank(s) >= 0
  {
    RankNonNegative(s.light);
    RankNonNegative(s.heavy);
  }

  /** The heavy path can finish while the light one waits. */
  lemma {:induction false} HeavyFirst(s: System) returns (run: seq<Action>)
    requires SystemInvariant(s) && Saturated(s.light) && Saturated(s.heavy)
    ensures RunHolds(s, run) && After(s, run).light == s.light && After(s, run).heavy.phase.Done?
    decreases Rank(s)
  {
    if s.heavy.phase.Done? {
      run := [];
    } else {
      RankIsNatural(s);
      var a := SomeAction(s, true);
      StepKeepsSystem(s, a);
      StepKeepsSaturated(s, a);
      StepLowersRank(s, a);
      RankIsNatural(Apply(s, a));
      var rest := HeavyFirst(Apply(s, a));
      run := [a] + rest;
      assert run[1..] == rest;
    }
  }

  /** With the heavy path done, the light one goes on until it claims. */
  lemma {:induction false} LightClaims(s: System) returns (run: seq<Action>)
    requires SystemInvariant(s) && Saturated(s.light) && Saturated(s.heavy) && s.heavy.phase.Done?
    requires CanClaim(s.light)
    ensures RunHolds(s, run) && After(s, run).exclusivePhase
    decreases Rank(s)
  {
    RankIsNatural(s);
    var a := SomeAction(s, false);
    var t := Apply(s, a);
    StepKeepsSystem(s, a);
    StepKeepsSaturated(s, a);
    StepLowersRank(s, a);
    RankIsNatural(t);
    if a.Run? {
      CanClaimStays(s.light);
    }
    if t.exclusivePhase {
      run := [a];
      assert run[1..] == [];
    } else {
      var rest := LightClaims(t);
      run := [a] + rest;
      assert run[1..] == rest;
    }
  }

  lemma {:induction false} RunsJoin(s: System, a: seq<Action>, b: seq<Action>)
    requires RunHolds(s, a) && RunHolds(After(s, a), b)
    ensures RunHolds(s, a + b) && After(s, a + b) == After(After(s, a), b)
    decreases |a|
  {
    if a == [] {
      assert a + b == b;
    } else {
      RunsJoin(Apply(s, a[0]), a[1..], b);
      assert (a + b)[1..] == a[1..] + b;
    }
  }

  /** For any block and window some run sets the exclusive phase. */
  lemma ExclusiveIsReached(lightChunks: nat, heavyChunks: nat, window: nat)
      returns (run: seq<Action>)
    requires lightChunks > 0 && heavyChunks > 0 && window > 0
    ensures RunHolds(Start(lightChunks, heavyChunks, window), run)
    ensures After(Start(lightChunks, heavyChunks, window), run).exclusivePhase
  {
    var s := Start(lightChunks, heavyChunks, window);
    StartInvariant(lightChunks, heavyChunks, window);
    var first := HeavyFirst(s);
    var t := After(s, first);
    RunKeepsInvariant(s, first);
    WindowIsUsed(s, first);
    var second := LightClaims(t);
    RunsJoin(s, first, second);
    run := first + second;
  }

  // ---------- termination ----------

  function PhaseRank(phase: Phase): nat {
    match phase
    case LoopTop => 25
    case SpawnTx => 24
    case Push => 23
    case Join(_) => 9
    case Advance => 8
    case AfterLoop => 7
    case Drain => 6
    case DrainJoin(_) => 12
    case Claim(_) => 11
    case DrainSpawn(_) => 10
    case WaitChain => 5
    case Release => 4
    case Retire => 3
    case Done => 0
  }

  /** Steps of the path thread still to come, and threads still to finish. */
  function PathRank(p: Path): int {
    30 * (p.chunks - p.current) + 10 * |p.inFlight| + PhaseRank(p.phase)
    + p.chunks - |p.txDone| + p.chunks - p.chainDone
  }

  lemma RankFalls(p: Path, activePaths: nat)
    requires PathInvariant(p) && CanRun(p)
    ensures PathRank(RunPath(p, activePaths)) < PathRank(p)
  {
  }

  lemma {:induction false} DoneCount(done: set<nat>, n: nat)
    requires forall step :: step in done ==> step < n
    ensures |done| <= n
  {
    if n > 0 {
      DoneCount(done - {n - 1}, n - 1);
    } else {
      assert done == {};
    }
  }

  lemma RankNonNegative(p: Path)
    requires PathInvariant(p)
    ensures PathRank(p) >= 0
  {
    DoneCount(p.txDone, p.spawned);
  }

  function Rank(s: System): int {
    PathRank(s.light) + PathRank(s.heavy)
  }

  lemma StepLowersRank(s: System, a: Action)
    requires SystemInvariant(s) && Enabled(s, a)
    ensures Rank(Apply(s, a)) < Rank(s)
  {
    if a.Run? {
      RankFalls(PathOf(s, a.heavy), s.activePaths);
    }
  }

  /** Every step lowers a rank that is never negative: runs are finite. */
  lemma {:induction false} RunsEnd(s: System, run: seq<Action>)
    requires SystemInvariant(s) && RunHolds(s, run)
    ensures |run| <= Rank(s)
    decreases |run|
  {
    RankNonNegative(s.light);
    RankNonNegative(s.heavy);
    if run != [] {
      StepLowersRank(s, run[0]);
      StepKeepsSystem(s, run[0]);
      RunsEnd(Apply(s, run[0]), run[1..]);
    }
  }

  // ---------- one path's loops ----------

  /** The loops of a path thread, each join returning when its thread has finished. */
  method ProvePath(heavy: bool, chunks: nat, window: nat) returns (started: seq<ChainStep>, peak: nat)
    requires chunks > 0 && window > 0
    ensures InOrder(started) && |started| == chunks
    ensures peak == Ahead(heavy, window, chunks - 1) + 1
    ensures peak <= if heavy then 1 else if window > RAMP then window else RAMP
  {
    started, peak := [], 0;
    var pending: Option<nat>, inFlight: seq<nat>, current: nat := None, [], 0;
    ghost var limit := if heavy then 1 else if window > RAMP then window else RAMP;
    while current < chunks
      invariant current <= chunks && InOrder(started) && peak <= limit && |inFlight| < limit
      invariant |inFlight| == Ahead(heavy, window, current)
      invariant peak == if current == 0 then 0 else Ahead(heavy, window, current - 1) + 1
      invariant |started| + |inFlight| + (if pending.Some? then 1 else 0) == current
      invariant pending.Some? ==> pending.value == |started|
      invariant forall i :: 0 <= i < |inFlight| ==> inFlight[i] == current - |inFlight| + i
    {
      if pending.Some? {
        started, pending := StartStep(started, pending.value), None;
      }
      inFlight := inFlight + [current];
      peak := if |inFlight| > peak then |inFlight| else peak;
      var max := if heavy then 1 else if current >= OVERLAP_START then window else RAMP;
      if |inFlight| >= max {
        pending, inFlight := Some(inFlight[0]), inFlight[1..];
      }
      current := current + 1;
    }
    if pending.Some? {
      started := StartStep(started, pending.value);
    }
    while inFlight != []
      invariant InOrder(started) && |started| + |inFlight| == chunks
      invariant forall i :: 0 <= i < |inFlight| ==> inFlight[i] == |started| + i
      decreases |inFlight|
    {
      started, inFlight := StartStep(started, inFlight[0]), inFlight[1..];
    }
  }

  function StartStep(started: seq<ChainStep>, step: nat): (after: seq<ChainStep>)
    ensures |after| == |started| + 1
    ensures InOrder(started) && step == |started| ==> InOrder(after)
  {
    started + [ChainStep(step, if started == [] then None else Some(started[|started| - 1].step))]
  }
}
