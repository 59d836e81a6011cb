/** From the parsed block to accepted chains: what the honest producer builds is what the circuit takes. */
module HonestBlock {
  import opened Goldilocks
  import opened Jump
  import opened JumpTrail
  import opened JumpExecution
  import opened JumpTheorems
  import opened Chunking

  function Views(txs: seq<Tx>): seq<TxView> {
    seq(|txs|, i requires 0 <= i < |txs| => txs[i].view)
  }

  function ExecOf(txs: seq<Tx>): seq<ExecTx> {
    if txs == [] then []
    else ExecOf(Front(txs)) + [ExecTx(Back(txs).heavy, Back(txs).view.before, Back(txs).view.after)]
  }

  predicate Indexed(txs: seq<Tx>) {
    forall i :: 0 <= i < |txs| ==> txs[i].view.index == i && txs[i].view.txType != TX_TYPE_EMPTY
  }

  /** A block's transactions as one sequential execution, ending in the roots of the template. */
  predicate Sequential(init: Roots, txs: seq<Tx>, template: Tx) {
    && |txs| < P && Indexed(txs)
    && Continuous(init, ExecOf(txs))
    && template.view.txType == TX_TYPE_EMPTY
    && template.view.after == EndRoots(init, ExecOf(txs))
  }

  /** Neither type pauses for 2^32 transactions of the other. */
  predicate Spaced(exec: seq<ExecTx>) {
    GapsFit(Project(exec, true)) && GapsFit(Project(exec, false))
  }

  /** One chain's transactions: its active ones, then padding. */
  function Padded(txs: seq<Tx>, template: Tx, heavy: bool, padding: nat): seq<TxView> {
    Views(OfType(txs, heavy) + Repeat(Padding(template, heavy, LastIndex(txs, heavy)), padding))
  }

  lemma ViewsBack(txs: seq<Tx>)
    requires txs != []
    ensures Front(Views(txs)) == Views(Front(txs)) && Back(Views(txs)) == Back(txs).view
  {
  }

  lemma {:induction false} ExecShape(txs: seq<Tx>)
    ensures |ExecOf(txs)| == |txs|
    ensures txs != [] ==> Back(ExecOf(txs)).heavy == Back(txs).heavy && Back(ExecOf(txs)).after == Back(txs).view.after
  {
    if txs != [] {
      ExecShape(Front(txs));
    }
  }

  lemma ViewsAppend(txs: seq<Tx>, t: Tx)
    requires t.view.txType != TX_TYPE_EMPTY
    ensures Actives(Views(txs + [t])) == Actives(Views(txs)) + [Active(t.view)]
  {
    var all := txs + [t];
    assert Front(all) == txs && Back(all) == t;
    ViewsBack(all);
    assert Views(all) != [];
  }

  /** The active transactions of a type are the projection of the execution. */
  lemma {:induction false} ProjectOfType(txs: seq<Tx>, heavy: bool)
    requires Indexed(txs)
    ensures Actives(Views(OfType(txs, heavy))) == Project(ExecOf(txs), heavy)
    ensures |Actives(Views(OfType(txs, heavy)))| == |OfType(txs, heavy)|
  {
    if txs != [] {
      var rest, t := Front(txs), Back(txs);
      ProjectOfType(rest, heavy);
      ExecShape(rest);
      ProjectAppend(ExecOf(rest), ExecTx(t.heavy, t.view.before, t.view.after), heavy);
      if t.heavy == heavy {
        ViewsAppend(OfType(rest, heavy), t);
      }
    }
  }

  /** A projection's indices stay below the execution's length. */
  lemma {:induction false} ProjectBelow(init: Roots, exec: seq<ExecTx>, heavy: bool)
    ensures -1 <= TrailOf(init, Project(exec, heavy)).last < |exec|
    ensures TrailOf(init, Project(exec, heavy)).last
            == if Project(exec, heavy) == [] then -1 else Back(Project(exec, heavy)).index
  {
    if exec != [] {
      ProjectBelow(init, Front(exec), heavy);
    }
  }

  /** Up to 2^32 transactions cannot leave a gap too wide. */
  lemma {:induction false} ShortIsSpaced(exec: seq<ExecTx>, heavy: bool)
    requires |exec| <= TWO_32
    ensures GapsFit(Project(exec, heavy))
    ensures Project(exec, heavy) != [] ==> 0 <= Back(Project(exec, heavy)).index < |exec|
  {
    if exec != [] {
      ShortIsSpaced(Front(exec), heavy);
    }
  }

  /** Light transactions that change nothing. */
  function Pause(roots: Roots, n: nat): seq<ExecTx> {
    if n == 0 then [] else Pause(roots, n - 1) + [ExecTx(false, roots, roots)]
  }

  lemma {:induction false} PauseShape(roots: Roots, n: nat)
    ensures |Pause(roots, n)| == n && Project(Pause(roots, n), true) == []
    ensures Continuous(roots, Pause(roots, n)) && EndRoots(roots, Pause(roots, n)) == roots
  {
    if n > 0 {
      PauseShape(roots, n - 1);
      assert Front(Pause(roots, n)) == Pause(roots, n - 1);
    }
  }

  /** One more can: a heavy transaction after 2^32 light ones. */
  lemma PauseTooLong(roots: Roots) returns (exec: seq<ExecTx>)
    ensures Continuous(roots, exec) && |exec| == TWO_32 + 1 && !Spaced(exec)
  {
    var pause, last := Pause(roots, TWO_32), ExecTx(true, roots, roots);
    PauseShape(roots, TWO_32);
    ProjectAppend(pause, last, true);
    exec := pause + [last];
    assert Front(exec) == pause;
  }

  /** The index given to a type's padding is the last index of its projection. */
  lemma {:induction false} LastIndexOf(init: Roots, txs: seq<Tx>, heavy: bool)
    requires Indexed(txs) && |txs| < P
    ensures LastIndex(txs, heavy) == Encode(TrailOf(init, Project(ExecOf(txs), heavy)).last)
  {
    ExecShape(txs);
    ProjectBelow(init, ExecOf(txs), heavy);
    ProjectOfType(txs, heavy);
    EncodeSmall(TrailOf(init, Project(ExecOf(txs), heavy)).last);
    var mine := OfType(txs, heavy);
    if mine != [] {
      OfTypeMembers(txs, heavy);
      ViewsBack(mine);
      ActivesBack(Views(mine));
    }
  }

  /** Nothing of a type's own transactions is padding, so none breaks the padding rule. */
  lemma {:induction false} NoPadding(init: Roots, txs: seq<Tx>)
    requires forall i :: 0 <= i < |txs| ==> txs[i].view.txType != TX_TYPE_EMPTY
    ensures PaddingRepeatsLast(init, Views(txs))
  {
    if txs != [] {
      ViewsBack(txs);
      NoPadding(init, Front(txs));
    }
  }

  /** Padding that repeats the last index adds no active transaction and keeps the padding rule. */
  lemma {:induction false} AddPadding(init: Roots, txs: seq<Tx>, pad: Tx, n: nat)
    requires PaddingRepeatsLast(init, Views(txs)) && pad.view.txType == TX_TYPE_EMPTY
    requires pad.view.index == Encode(TrailOf(init, Actives(Views(txs))).last)
    ensures Actives(Views(txs + Repeat(pad, n))) == Actives(Views(txs))
    ensures PaddingRepeatsLast(init, Views(txs + Repeat(pad, n)))
  {
    var all := txs + Repeat(pad, n);
    if n == 0 {
      assert all == txs;
    } else {
      AddPadding(init, txs, pad, n - 1);
      assert Front(all) == txs + Repeat(pad, n - 1) && Back(all) == pad;
      ViewsBack(all);
    }
  }

  lemma {:induction false} OfTypeMembers(txs: seq<Tx>, heavy: bool)
    requires Indexed(txs)
    ensures forall i :: 0 <= i < |OfType(txs, heavy)| ==> OfType(txs, heavy)[i].view.txType != TX_TYPE_EMPTY
  {
    if txs != [] {
      OfTypeMembers(Front(txs), heavy);
    }
  }

  /** One padded chain holds exactly its projection, and is well formed when that leaves no gap too wide. */
  lemma {:induction false} PaddedChain(init: Roots, txs: seq<Tx>, template: Tx, heavy: bool, padding: nat)
    requires Sequential(init, txs, template)
    ensures var chain := Padded(txs, template, heavy, padding);
            && Actives(chain) == Project(ExecOf(txs), heavy)
            && (WellFormed(init, chain) <==> GapsFit(Project(ExecOf(txs), heavy)))
  {
    var mine, pad := OfType(txs, heavy), Padding(template, heavy, LastIndex(txs, heavy));
    ExecShape(txs);
    ProjectBelow(init, ExecOf(txs), heavy);
    ProjectOfType(txs, heavy);
    LastIndexOf(init, txs, heavy);
    OfTypeMembers(txs, heavy);
    NoPadding(init, mine);
    AddPadding(init, mine, pad, padding);
  }

  lemma {:induction false} PaddedBack(txs: seq<Tx>, template: Tx, heavy: bool, padding: nat)
    ensures var mine, chain := OfType(txs, heavy), Padded(txs, template, heavy, padding);
            && |chain| == |mine| + padding
            && (padding > 0 ==> Back(chain).after == template.view.after)
            && (padding == 0 && mine != [] ==> Back(chain) == Back(mine).view)
  {
  }

  /**
   Any amount of padding is accepted, as long as each chain has at least one transaction, exactly when
   no type pauses for too long.
   */
  lemma {:induction false} PaddedAccepted(init: Roots, txs: seq<Tx>, template: Tx, lightPadding: nat, heavyPadding: nat)
    requires Sequential(init, txs, template)
    requires OfType(txs, false) != [] || lightPadding > 0
    requires OfType(txs, true) != [] || heavyPadding > 0
    ensures var light, heavy := Padded(txs, template, false, lightPadding), Padded(txs, template, true, heavyPadding);
            && light != [] && heavy != []
            && (BlockAccepts(init, light, heavy) <==> Spaced(ExecOf(txs)))
            && (Spaced(ExecOf(txs)) ==> BlockRoots(Expose(init, light), Expose(init, heavy)) == template.view.after)
  {
    var light, heavy := Padded(txs, template, false, lightPadding), Padded(txs, template, true, heavyPadding);
    var exec := ExecOf(txs);
    PaddedChain(init, txs, template, false, lightPadding);
    PaddedChain(init, txs, template, true, heavyPadding);
    ExecShape(txs);
    ProjectLengths(exec);
    PaddedBack(txs, template, false, lightPadding);
    PaddedBack(txs, template, true, heavyPadding);
    LastOfType(txs);
    if Spaced(exec) {
      JumpCompleteness(init, light, heavy, exec);
    } else if BlockAccepts(init, light, heavy) {
      var _ := JumpSoundness(init, light, heavy);
    }
  }

  lemma {:induction false} LastOfType(txs: seq<Tx>)
    ensures txs != [] ==> OfType(txs, Back(txs).heavy) != [] && Back(OfType(txs, Back(txs).heavy)) == Back(txs)
    ensures txs == [] ==> OfType(txs, true) == [] && OfType(txs, false) == []
  {
  }

  /** What the grouping emits for a sequential execution is accepted exactly when no type pauses for too long. */
  lemma {:induction false} GroupedAccepted(init: Roots, txs: seq<Tx>, template: Tx, chunks: seq<seq<Tx>>,
                                           heavyPerProof: nat, lightPerProof: nat)
    requires heavyPerProof > 0 && lightPerProof > 0
    requires Sequential(init, txs, template)
    requires Grouped(chunks, txs, template, heavyPerProof, lightPerProof)
    ensures var light, heavy := Views(Flatten(chunks, false)), Views(Flatten(chunks, true));
            && light != [] && heavy != []
            && (BlockAccepts(init, light, heavy) <==> Spaced(ExecOf(txs)))
            && (Spaced(ExecOf(txs)) ==> BlockRoots(Expose(init, light), Expose(init, heavy)) == template.view.after)
  {
    PaddedAccepted(init, txs, template, Missing(|OfType(txs, false)|, lightPerProof),
                   Missing(|OfType(txs, true)|, heavyPerProof));
  }

  // ---------- from a parsed block ----------

  datatype Parsed = NoTemplate | StrayPadding | Chunks(chunks: seq<seq<Tx>>)

  predicate IsEmpty(t: Tx) {
    t.view.txType == TX_TYPE_EMPTY
  }

  /** The transactions with their positions as indices. */
  function Reindex(txs: seq<Tx>): seq<Tx> {
    seq(|txs|, i requires 0 <= i < |txs| => txs[i].(view := txs[i].view.(index := Encode(i))))
  }

  /** The parsed list is n active transactions and then padding only. */
  predicate PaddedAfter(parsed: seq<Tx>, n: nat) {
    && n <= |parsed|
    && (forall i :: n <= i < |parsed| ==> IsEmpty(parsed[i]))
    && forall i :: 0 <= i < n ==> !IsEmpty(parsed[i])
  }

  /** How the chunks follow from n active transactions and the first padding transaction. */
  predicate ChunksOf(chunks: seq<seq<Tx>>, parsed: seq<Tx>, n: nat, heavyEmpty: nat, lightEmpty: nat,
                     heavyPerProof: nat, lightPerProof: nat)
    requires heavyPerProof > 0 && lightPerProof > 0 && n < |parsed|
  {
    if n > 0 then Grouped(chunks, Reindex(parsed[..n]), parsed[n], heavyPerProof, lightPerProof)
    else
      && WellGrouped(chunks, heavyPerProof, lightPerProof)
      && Flatten(chunks, true) == Repeat(Padding(parsed[0], true, NEG_ONE),
                                         heavyPerProof * ChunkCount(heavyEmpty, heavyPerProof))
      && Flatten(chunks, false) == Repeat(Padding(parsed[0], false, NEG_ONE),
                                          lightPerProof * ChunkCount(lightEmpty, lightPerProof))
  }

  /** Sets the template aside, numbers the transactions and groups them. */
  method ParseBlock(parsed: seq<Tx>, heavyEmpty: nat, lightEmpty: nat, heavyPerProof: nat, lightPerProof: nat)
      returns (result: Parsed)
    requires heavyPerProof > 0 && lightPerProof > 0 && |parsed| < P
    ensures result.NoTemplate? <==> parsed == [] || !IsEmpty(Back(parsed))
    ensures result.Chunks? <==> exists n: nat :: n < |parsed| && PaddedAfter(parsed, n)
    ensures forall n: nat :: result.Chunks? && n < |parsed| && PaddedAfter(parsed, n) ==>
              ChunksOf(result.chunks, parsed, n, heavyEmpty, lightEmpty, heavyPerProof, lightPerProof)
  {
    var n := |parsed|;
    while n > 0 && IsEmpty(parsed[n - 1])
      invariant 0 <= n <= |parsed|
      invariant forall i :: n <= i < |parsed| ==> IsEmpty(parsed[i])
    {
      n := n - 1;
    }
    if n == |parsed| {
      assert forall m: nat :: m < n && PaddedAfter(parsed, m) ==> IsEmpty(parsed[n - 1]);
      return NoTemplate;
    }
    assert IsEmpty(parsed[n]) && (n > 0 ==> !IsEmpty(parsed[n - 1]));
    assert forall m: nat :: m < |parsed| && PaddedAfter(parsed, m) ==> m == n;
    for i := 0 to n
      invariant forall k :: 0 <= k < i ==> !IsEmpty(parsed[k])
    {
      if IsEmpty(parsed[i]) {
        return StrayPadding;
      }
    }
    assert PaddedAfter(parsed, n);
    var txs, lastHeavy, lastLight := Number(parsed[..n]);
    var chunks;
    if n == 0 {
      chunks := EmptyTxChunks(parsed[0], heavyEmpty, lightEmpty, lastHeavy, lastLight, heavyPerProof, lightPerProof);
    } else {
      chunks := ChunkTxs(txs, parsed[n], lastHeavy, lastLight, heavyPerProof, lightPerProof);
    }
    result := Chunks(chunks);
  }

  /** Gives each transaction its position and remembers the last one of each type. */
  method Number(parsed: seq<Tx>) returns (txs: seq<Tx>, lastHeavy: Felt, lastLight: Felt)
    requires |parsed| < P
    ensures txs == Reindex(parsed)
    ensures lastHeavy == LastIndex(txs, true) && lastLight == LastIndex(txs, false)
  {
    txs, lastHeavy, lastLight := [], NEG_ONE, NEG_ONE;
    for i := 0 to |parsed|
      invariant txs == Reindex(parsed[..i])
      invariant lastHeavy == LastIndex(txs, true) && lastLight == LastIndex(txs, false)
    {
      EncodeSmall(i);
      var t := parsed[i].(view := parsed[i].view.(index := i));
      assert Front(txs + [t]) == txs;
      txs := txs + [t];
      if t.heavy {
        lastHeavy := i;
      } else {
        lastLight := i;
      }
    }
    assert parsed[..|parsed|] == parsed;
  }

  /**
   Every parsed block whose transactions ran in sequence becomes chunks the block circuit accepts exactly
   when no type pauses for too long, which up to 2^32 transactions cannot.
   */
  lemma {:induction false} ParsedAccepted(init: Roots, parsed: seq<Tx>, n: nat, chunks: seq<seq<Tx>>,
                                          heavyEmpty: nat, lightEmpty: nat, heavyPerProof: nat, lightPerProof: nat)
    requires heavyPerProof > 0 && lightPerProof > 0 && n < |parsed| && n < P
    requires PaddedAfter(parsed, n) && ChunksOf(chunks, parsed, n, heavyEmpty, lightEmpty, heavyPerProof, lightPerProof)
    requires Continuous(init, ExecOf(parsed[..n])) && parsed[n].view.after == EndRoots(init, ExecOf(parsed[..n]))
    ensures var light, heavy := Views(Flatten(chunks, false)), Views(Flatten(chunks, true));
            && light != [] && heavy != []
            && (BlockAccepts(init, light, heavy) <==> Spaced(ExecOf(parsed[..n])))
            && (Spaced(ExecOf(parsed[..n])) ==>
                  BlockRoots(Expose(init, light), Expose(init, heavy)) == parsed[n].view.after)
    ensures n <= TWO_32 ==> Spaced(ExecOf(parsed[..n]))
  {
    ExecShape(parsed[..n]);
    if n <= TWO_32 {
      ShortIsSpaced(ExecOf(parsed[..n]), true);
      ShortIsSpaced(ExecOf(parsed[..n]), false);
    }
    var txs := Reindex(parsed[..n]);
    ReindexKeepsExec(parsed[..n]);
    assert IsEmpty(parsed[n]);
    forall i | 0 <= i < n ensures txs[i].view.index == i {
      EncodeSmall(i);
    }
    assert Indexed(txs);
    if n > 0 {
      GroupedAccepted(init, txs, parsed[n], chunks, heavyPerProof, lightPerProof);
    } else {
      var h, l := heavyPerProof * ChunkCount(heavyEmpty, heavyPerProof),
          lightPerProof * ChunkCount(lightEmpty, lightPerProof);
      PaddedAccepted(init, txs, parsed[n], l, h);
      assert OfType(txs, true) == [] && OfType(txs, false) == [];
      assert Views(Flatten(chunks, true)) == Padded(txs, parsed[n], true, h);
      assert Views(Flatten(chunks, false)) == Padded(txs, parsed[n], false, l);
    }
  }

  lemma {:induction false} ReindexKeepsExec(txs: seq<Tx>)
    ensures ExecOf(Reindex(txs)) == ExecOf(txs)
  {
    if txs != [] {
      ReindexKeepsExec(Front(txs));
      assert Front(Reindex(txs)) == Reindex(Front(txs));
    }
  }
}
