/**
 The honest producer: transactions get their indices, are grouped into full single-type chunks in
 execution order, and each type's last chunk is filled up with the block's empty transaction.
 */
module Chunking {
  import opened Goldilocks
  import opened Jump
  import opened JumpTrail
  import Arith

  datatype Tx = Tx(heavy: bool, view: TxView)

  /** The transactions of one circuit type, in order. */
  function OfType(txs: seq<Tx>, heavy: bool): seq<Tx> {
    if txs == [] then []
    else if Back(txs).heavy == heavy then OfType(Front(txs), heavy) + [Back(txs)]
    else OfType(Front(txs), heavy)
  }

  /** The transactions the chunks of one circuit type hold, in order. */
  function Flatten(chunks: seq<seq<Tx>>, heavy: bool): seq<Tx> {
    if chunks == [] then []
    else if Back(chunks) != [] && Back(chunks)[0].heavy == heavy then Flatten(Front(chunks), heavy) + Back(chunks)
    else Flatten(Front(chunks), heavy)
  }

  function Repeat<T>(x: T, n: nat): seq<T> {
    seq(n, _ => x)
  }

  /** The last index given to a transaction of the type, or the sentinel. */
  function LastIndex(txs: seq<Tx>, heavy: bool): Felt {
    if OfType(txs, heavy) == [] then NEG_ONE else Back(OfType(txs, heavy)).view.index
  }

  /** The template turned into padding of one type. */
  function Padding(template: Tx, heavy: bool, last: Felt): Tx {
    Tx(heavy, template.view.(index := last))
  }

  /** The number of padding transactions that complete count transactions to full chunks, at least one. */
  function Missing(count: nat, perProof: nat): nat
    requires perProof > 0
  {
    if count == 0 then perProof else (perProof - count % perProof) % perProof
  }

  predicate WellGrouped(chunks: seq<seq<Tx>>, heavyPerProof: nat, lightPerProof: nat) {
    forall c :: 0 <= c < |chunks| ==>
      && chunks[c] != []
      && |chunks[c]| == (if chunks[c][0].heavy then heavyPerProof else lightPerProof)
      && forall i :: 0 <= i < |chunks[c]| ==> chunks[c][i].heavy == chunks[c][0].heavy
  }

  /** What the grouping promises of the chunks it emits. */
  predicate Grouped(chunks: seq<seq<Tx>>, txs: seq<Tx>, template: Tx, heavyPerProof: nat, lightPerProof: nat)
    requires heavyPerProof > 0 && lightPerProof > 0
  {
    && WellGrouped(chunks, heavyPerProof, lightPerProof)
    && (forall heavy ::
          Flatten(chunks, heavy)
          == OfType(txs, heavy)
             + Repeat(Padding(template, heavy, LastIndex(txs, heavy)),
                      Missing(|OfType(txs, heavy)|, if heavy then heavyPerProof else lightPerProof)))
  }

  lemma {:induction false} FlattenAppend(chunks: seq<seq<Tx>>, c: seq<Tx>, heavy: bool)
    requires c != []
    ensures Flatten(chunks + [c], heavy)
            == Flatten(chunks, heavy) + if c[0].heavy == heavy then c else []
  {
    assert Front(chunks + [c]) == chunks;
  }

  lemma {:induction false} OfTypeLength(txs: seq<Tx>, heavy: bool)
    ensures forall i :: 0 <= i < |OfType(txs, heavy)| ==> OfType(txs, heavy)[i].heavy == heavy
    ensures |OfType(txs, heavy)| + |OfType(txs, !heavy)| == |txs|
  {
    if txs != [] {
      OfTypeLength(Front(txs), heavy);
    }
  }

  /** The chunks emitted so far hold complete groups only. */
  predicate Tidy(chunks: seq<seq<Tx>>, heavyPerProof: nat, lightPerProof: nat)
    requires heavyPerProof > 0 && lightPerProof > 0
  {
    && WellGrouped(chunks, heavyPerProof, lightPerProof)
    && |Flatten(chunks, true)| % heavyPerProof == 0
    && |Flatten(chunks, false)| % lightPerProof == 0
  }

  /** A buffer of transactions of one type, short of a full chunk. */
  predicate Buffer(buf: seq<Tx>, heavy: bool, size: nat) {
    |buf| < size && forall k :: 0 <= k < |buf| ==> buf[k].heavy == heavy
  }

  /** Buffers a transaction, and emits the buffer when that fills it. */
  method Push(chunks: seq<seq<Tx>>, buf: seq<Tx>, t: Tx, heavyPerProof: nat, lightPerProof: nat)
      returns (out: seq<seq<Tx>>, rest: seq<Tx>)
    requires heavyPerProof > 0 && lightPerProof > 0 && Tidy(chunks, heavyPerProof, lightPerProof)
    requires Buffer(buf, t.heavy, if t.heavy then heavyPerProof else lightPerProof)
    ensures Tidy(out, heavyPerProof, lightPerProof)
    ensures Buffer(rest, t.heavy, if t.heavy then heavyPerProof else lightPerProof)
    ensures Flatten(out, t.heavy) + rest == Flatten(chunks, t.heavy) + buf + [t]
    ensures Flatten(out, !t.heavy) == Flatten(chunks, !t.heavy)
  {
    out, rest := chunks, buf + [t];
    if |rest| == (if t.heavy then heavyPerProof else lightPerProof) {
      Emit(chunks, rest, heavyPerProof, lightPerProof);
      out, rest := chunks + [rest], [];
    }
  }

  /** The grouping loop: one buffer a type, emitted whenever it is full, padded at the end. */
  method ChunkTxs(txs: seq<Tx>, template: Tx, lastHeavy: Felt, lastLight: Felt,
                  heavyPerProof: nat, lightPerProof: nat)
      returns (chunks: seq<seq<Tx>>)
    requires heavyPerProof > 0 && lightPerProof > 0
    requires lastHeavy == LastIndex(txs, true) && lastLight == LastIndex(txs, false)
    ensures Grouped(chunks, txs, template, heavyPerProof, lightPerProof)
  {
    chunks := [];
    var heavyBuf: seq<Tx>, lightBuf: seq<Tx> := [], [];
    for i := 0 to |txs|
      invariant Tidy(chunks, heavyPerProof, lightPerProof)
      invariant Buffer(heavyBuf, true, heavyPerProof) && Buffer(lightBuf, false, lightPerProof)
      invariant Flatten(chunks, true) + heavyBuf == OfType(txs[..i], true)
      invariant Flatten(chunks, false) + lightBuf == OfType(txs[..i], false)
    {
      assert Front(txs[..i + 1]) == txs[..i];
      if txs[i].heavy {
        chunks, heavyBuf := Push(chunks, heavyBuf, txs[i], heavyPerProof, lightPerProof);
      } else {
        chunks, lightBuf := Push(chunks, lightBuf, txs[i], heavyPerProof, lightPerProof);
      }
    }
    assert txs[..|txs|] == txs;
    chunks := PadLast(chunks, heavyBuf, OfType(txs, true) != [], Padding(template, true, lastHeavy), heavyPerProof,
                      lightPerProof);
    chunks := PadLast(chunks, lightBuf, OfType(txs, false) != [], Padding(template, false, lastLight), heavyPerProof,
                      lightPerProof);
  }

  lemma {:induction false} Emit(chunks: seq<seq<Tx>>, buf: seq<Tx>, heavyPerProof: nat, lightPerProof: nat)
    requires heavyPerProof > 0 && lightPerProof > 0 && Tidy(chunks, heavyPerProof, lightPerProof)
    requires buf != [] && |buf| == (if buf[0].heavy then heavyPerProof else lightPerProof)
    requires forall k :: 0 <= k < |buf| ==> buf[k].heavy == buf[0].heavy
    ensures Tidy(chunks + [buf], heavyPerProof, lightPerProof)
    ensures Flatten(chunks + [buf], buf[0].heavy) == Flatten(chunks, buf[0].heavy) + buf
    ensures Flatten(chunks + [buf], !buf[0].heavy) == Flatten(chunks, !buf[0].heavy)
  {
    FlattenAppend(chunks, buf, true);
    FlattenAppend(chunks, buf, false);
    AddFull(|Flatten(chunks, buf[0].heavy)|, if buf[0].heavy then heavyPerProof else lightPerProof);
  }

  lemma AddFull(n: nat, per: nat)
    requires per > 0 && n % per == 0
    ensures (n + per) % per == 0
  {
    Arith.DivMod(n, per);
    Arith.DivModUnique(n + per, per, n / per + 1, 0);
  }

  /** Completes and emits the last chunk of one type; a type without transactions gets a whole one. */
  method PadLast(chunks: seq<seq<Tx>>, buf: seq<Tx>, hasTxs: bool, pad: Tx, heavyPerProof: nat, lightPerProof: nat)
      returns (out: seq<seq<Tx>>)
    requires heavyPerProof > 0 && lightPerProof > 0 && Tidy(chunks, heavyPerProof, lightPerProof)
    requires Buffer(buf, pad.heavy, if pad.heavy then heavyPerProof else lightPerProof)
    requires hasTxs <==> Flatten(chunks, pad.heavy) + buf != []
    ensures Tidy(out, heavyPerProof, lightPerProof)
    ensures Flatten(out, !pad.heavy) == Flatten(chunks, !pad.heavy)
    ensures var held := Flatten(chunks, pad.heavy) + buf;
            Flatten(out, pad.heavy)
            == held + Repeat(pad, Missing(|held|, if pad.heavy then heavyPerProof else lightPerProof))
  {
    var size := if pad.heavy then heavyPerProof else lightPerProof;
    ghost var flat := Flatten(chunks, pad.heavy);
    MissingFrom(|flat|, |buf|, size);
    if buf == [] && hasTxs {
      assert flat + buf + Repeat(pad, 0) == flat;
      return chunks;
    }
    var full := FillUp(buf, pad, size);
    Emit(chunks, full, heavyPerProof, lightPerProof);
    out := chunks + [full];
    assert flat + buf + Repeat(pad, size - |buf|) == flat + full;
  }

  method FillUp(buf: seq<Tx>, pad: Tx, size: nat) returns (full: seq<Tx>)
    requires |buf| <= size
    ensures full == buf + Repeat(pad, size - |buf|)
  {
    full := buf;
    while |full| < size
      invariant |buf| <= |full| <= size
      invariant full == buf + Repeat(pad, |full| - |buf|)
    {
      full := full + [pad];
    }
  }

  lemma MissingFrom(flat: nat, buf: nat, size: nat)
    requires size > 0 && flat % size == 0 && buf < size
    ensures Missing(flat + buf, size) == if buf == 0 && flat > 0 then 0 else size - buf
  {
    Arith.DivMod(flat, size);
    Arith.DivModUnique(flat + buf, size, flat / size, buf);
    if buf == 0 {
      Arith.DivModUnique(size, size, 1, 0);
    } else {
      Arith.DivModUnique(size - buf, size, 0, size - buf);
    }
  }

  /** The chunks for count padding transactions: rounded up, and never none. */
  function ChunkCount(count: nat, perProof: nat): (n: nat)
    requires perProof > 0
    ensures n >= 1 && n * perProof >= count && (n > 1 ==> (n - 1) * perProof < count)
  {
    Arith.DivMod(count + perProof - 1, perProof);
    var ceiling := (count + perProof - 1) / perProof;
    if ceiling == 0 then 1 else ceiling
  }

  /** Chunks of a block without active transactions: padding only, at least one chunk a type. */
  method EmptyTxChunks(template: Tx, heavyCount: nat, lightCount: nat, lastHeavy: Felt, lastLight: Felt,
                       heavyPerProof: nat, lightPerProof: nat)
      returns (chunks: seq<seq<Tx>>)
    requires heavyPerProof > 0 && lightPerProof > 0
    ensures WellGrouped(chunks, heavyPerProof, lightPerProof)
    ensures Flatten(chunks, true)
            == Repeat(Padding(template, true, lastHeavy), heavyPerProof * ChunkCount(heavyCount, heavyPerProof))
    ensures Flatten(chunks, false)
            == Repeat(Padding(template, false, lastLight), lightPerProof * ChunkCount(lightCount, lightPerProof))
  {
    var heavyPad, lightPad := Padding(template, true, lastHeavy), Padding(template, false, lastLight);
    var heavyChunks, lightChunks := ChunkCount(heavyCount, heavyPerProof), ChunkCount(lightCount, lightPerProof);
    chunks := Repeat(Repeat(heavyPad, heavyPerProof), heavyChunks)
        + Repeat(Repeat(lightPad, lightPerProof), lightChunks);
    FlattenRepeats(heavyPad, heavyPerProof, heavyChunks, lightPad, lightPerProof, lightChunks);
  }

  lemma {:induction false} FlattenRepeats(h: Tx, hs: nat, hn: nat, l: Tx, ls: nat, ln: nat)
    requires h.heavy && !l.heavy && hs > 0 && ls > 0
    ensures var chunks := Repeat(Repeat(h, hs), hn) + Repeat(Repeat(l, ls), ln);
            Flatten(chunks, true) == Repeat(h, hs * hn) && Flatten(chunks, false) == Repeat(l, ls * ln)
    decreases hn + ln
  {
    var chunks := Repeat(Repeat(h, hs), hn) + Repeat(Repeat(l, ls), ln);
    if ln > 0 {
      FlattenRepeats(h, hs, hn, l, ls, ln - 1);
      assert Front(chunks) == Repeat(Repeat(h, hs), hn) + Repeat(Repeat(l, ls), ln - 1);
      assert ls * ln == ls * (ln - 1) + ls;
    } else if hn > 0 {
      FlattenRepeats(h, hs, hn - 1, l, ls, 0);
      assert Front(chunks) == Repeat(Repeat(h, hs), hn - 1) + Repeat(Repeat(l, ls), 0);
      assert hs * hn == hs * (hn - 1) + hs;
    } else {
      assert hs * hn == 0 && ls * ln == 0;
    }
  }

  /** All transactions of some chunks, in order. */
  function Concat(chunks: seq<seq<Tx>>): seq<Tx> {
    if chunks == [] then [] else Concat(Front(chunks)) + Back(chunks)
  }

  /** The two proving paths: every chunk goes to the path of its first transaction, keeping the order. */
  method SplitPaths(chunks: seq<seq<Tx>>) returns (light: seq<seq<Tx>>, heavy: seq<seq<Tx>>)
    requires forall c :: 0 <= c < |chunks| ==> chunks[c] != []
    ensures Concat(light) == Flatten(chunks, false) && Concat(heavy) == Flatten(chunks, true)
    ensures |light| + |heavy| == |chunks|
  {
    light, heavy := [], [];
    for i := 0 to |chunks|
      invariant Concat(light) == Flatten(chunks[..i], false) && Concat(heavy) == Flatten(chunks[..i], true)
      invariant |light| + |heavy| == i
    {
      assert Front(chunks[..i + 1]) == chunks[..i] && Back(chunks[..i + 1]) == chunks[i];
      if chunks[i][0].heavy {
        assert Front(heavy + [chunks[i]]) == heavy;
        heavy := heavy + [chunks[i]];
      } else {
        assert Front(light + [chunks[i]]) == light;
        light := light + [chunks[i]];
      }
    }
    assert chunks[..|chunks|] == chunks;
  }
}
