/** The three delta-coded tables of an embedded circuit, written and read, and what reading derives on the way. */
module Embed {
  import opened Varint
  import opened Arith

  const MAX_U32: nat := 0xffff_ffff

  // ---------- counted lists of varints ----------

  function EncodedAll(values: seq<nat>): seq<Byte> {
    if values == [] then [] else EncodedAll(values[..|values| - 1]) + Encoded(values[|values| - 1])
  }

  /** A count, then the values. */
  function Counted(values: seq<nat>): seq<Byte> {
    Encoded(|values|) + EncodedAll(values)
  }

  function ReadMany(bytes: seq<Byte>, pos: nat, count: nat): Result<Read<seq<nat>>>
    decreases count
  {
    if count == 0 then Ok(Read([], pos))
    else
      match ReadFrom(bytes, pos, 0)
      case Err(e) => Err(e)
      case Ok(first) =>
        match ReadMany(bytes, first.next, count - 1)
        case Err(e) => Err(e)
        case Ok(rest) => Ok(Read([first.value] + rest.value, rest.next))
  }

  function ReadCounted(bytes: seq<Byte>): Result<Read<seq<nat>>> {
    match ReadFrom(bytes, 0, 0)
    case Err(e) => Err(e)
    case Ok(count) => ReadMany(bytes, count.next, count.value)
  }

  predicate Words(values: seq<nat>) {
    forall i :: 0 <= i < |values| ==> values[i] < WORD
  }

  lemma {:induction false} EncodedAllAppend(values: seq<nat>, last: nat)
    ensures EncodedAll(values + [last]) == EncodedAll(values) + Encoded(last)
  {
    assert (values + [last])[..|values|] == values;
  }

  /** Values read one by one are the values read at once. */
  lemma {:induction false} ReadManyExtends(bytes: seq<Byte>, pos: nat, count: nat)
    ensures match ReadMany(bytes, pos, count)
            case Err(e) => ReadMany(bytes, pos, count + 1) == Err(e)
            case Ok(r) =>
              |r.value| == count
              && match ReadFrom(bytes, r.next, 0)
                 case Err(e) => ReadMany(bytes, pos, count + 1) == Err(e)
                 case Ok(v) => ReadMany(bytes, pos, count + 1) == Ok(Read(r.value + [v.value], v.next))
    decreases count
  {
    if count > 0 {
      match ReadFrom(bytes, pos, 0)
      case Err(_) =>
      case Ok(first) =>
        ReadManyExtends(bytes, first.next, count - 1);
        if ReadMany(bytes, first.next, count - 1).Ok? {
          var others := ReadMany(bytes, first.next, count - 1).value;
          if ReadFrom(bytes, others.next, 0).Ok? {
            var last := ReadFrom(bytes, others.next, 0).value;
            assert [first.value] + (others.value + [last.value]) == [first.value] + others.value + [last.value];
          }
        }
    } else if ReadFrom(bytes, pos, 0).Ok? {
      var first := ReadFrom(bytes, pos, 0).value;
      assert ReadMany(bytes, first.next, 0) == Ok(Read([], first.next));
      assert [first.value] + [] == [] + [first.value];
    }
  }

  lemma {:induction false} ReadOneMore(bytes: seq<Byte>, start: nat, values: seq<nat>, pos: nat, last: nat, next: nat)
    requires ReadMany(bytes, start, |values|) == Ok(Read(values, pos))
    requires ReadFrom(bytes, pos, 0) == Ok(Read(last, next))
    ensures ReadMany(bytes, start, |values| + 1) == Ok(Read(values + [last], next))
  {
    ReadManyExtends(bytes, start, |values|);
  }

  lemma Regroup<T>(a: seq<T>, b: seq<T>, c: seq<T>, d: seq<T>)
    ensures a + (b + c) + d == a + b + (c + d) == (a + b) + c + d
  {
  }

  lemma {:induction false} ReadManyBack(before: seq<Byte>, values: seq<nat>, rest: seq<Byte>)
    requires Words(values)
    ensures ReadMany(before + EncodedAll(values) + rest, |before|, |values|)
            == Ok(Read(values, |before| + |EncodedAll(values)|))
    decreases |values|
  {
    if values != [] {
      var n := |values| - 1;
      ReadManyBack(before, values[..n], Encoded(values[n]) + rest);
      VarintRoundTrip(before + EncodedAll(values[..n]), values[n], rest);
      ReadLast(before, values[..n], EncodedAll(values[..n]), values[n], Encoded(values[n]), rest);
      assert values[..n] + [values[n]] == values;
    }
  }

  lemma {:induction false} ReadLast(before: seq<Byte>, front: seq<nat>, encoded: seq<Byte>, last: nat, word: seq<Byte>,
                                    rest: seq<Byte>)
    requires ReadMany(before + encoded + (word + rest), |before|, |front|) == Ok(Read(front, |before| + |encoded|))
    requires ReadFrom((before + encoded) + word + rest, |before + encoded|, 0)
             == Ok(Read(last, |before + encoded| + |word|))
    ensures ReadMany(before + (encoded + word) + rest, |before|, |front| + 1)
            == Ok(Read(front + [last], |before| + |encoded + word|))
  {
    Regroup(before, encoded, word, rest);
    ReadOneMore(before + encoded + (word + rest), |before|, front, |before| + |encoded|, last,
                |before| + |encoded| + |word|);
  }

  /** A counted list reads back, and nothing of it is left over. */
  lemma CountedRoundTrip(values: seq<nat>, rest: seq<Byte>)
    requires Words(values) && |values| < WORD
    ensures ReadCounted(Counted(values) + rest) == Ok(Read(values, |Counted(values)|))
  {
    var count, all := Encoded(|values|), EncodedAll(values);
    assert Counted(values) + rest == [] + count + (all + rest) == count + all + rest;
    VarintRoundTrip([], |values|, all + rest);
    ReadManyBack(count, values, rest);
  }

  // ---------- watch offsets ----------

  predicate Sorted(offsets: seq<nat>) {
    forall i :: 0 < i < |offsets| ==> offsets[i - 1] <= offsets[i]
  }

  function Deltas(offsets: seq<nat>): seq<nat>
    requires Sorted(offsets)
  {
    seq(|offsets|, i requires 0 <= i < |offsets| => if i == 0 then offsets[0] else offsets[i] - offsets[i - 1])
  }

  /** Running 64-bit sums. */
  function Running(deltas: seq<nat>): (s: seq<nat>)
    ensures |s| == |deltas|
  {
    if deltas == [] then []
    else
      var front := Running(deltas[..|deltas| - 1]);
      front + [((if front == [] then 0 else front[|front| - 1]) + deltas[|deltas| - 1]) % WORD]
  }

  lemma {:induction false} RunningDeltas(offsets: seq<nat>)
    requires Sorted(offsets) && Words(offsets)
    ensures Running(Deltas(offsets)) == offsets
  {
    if offsets != [] {
      var n := |offsets| - 1;
      var front, deltas := offsets[..n], Deltas(offsets);
      RunningDeltas(front);
      assert deltas[..n] == Deltas(front);
      assert (if front == [] then 0 else front[|front| - 1]) + deltas[n] == offsets[n];
      Arith.DivModUnique(offsets[n], WORD, 0, offsets[n]);
      assert offsets == front + [offsets[n]];
    }
  }

  lemma AppendWord<T>(head: seq<T>, all: seq<T>, word: seq<T>)
    ensures head + all + word == head + (all + word)
  {
  }

  lemma {:induction false} AllDeltas(offsets: seq<nat>, whole: seq<nat>)
    requires whole == offsets && Sorted(whole)
    ensures Sorted(offsets) && Counted(Deltas(offsets)) == Encoded(|offsets|) + EncodedAll(Deltas(whole))
  {
  }

  lemma DeltasGrow(offsets: seq<nat>, i: nat)
    requires i < |offsets| && Sorted(offsets[..i]) && (i > 0 ==> offsets[i - 1] <= offsets[i])
    ensures Sorted(offsets[..i + 1])
    ensures var delta := offsets[i] - if i == 0 then 0 else offsets[i - 1];
            && Deltas(offsets[..i + 1]) == Deltas(offsets[..i]) + [delta]
            && EncodedAll(Deltas(offsets[..i + 1])) == EncodedAll(Deltas(offsets[..i])) + Encoded(delta)
  {
    EncodedAllAppend(Deltas(offsets[..i]), offsets[i] - if i == 0 then 0 else offsets[i - 1]);
  }

  /** The encoding loop, with its check that the offsets are sorted. */
  method WriteOffsets(offsets: seq<nat>) returns (r: Result<seq<Byte>>)
    ensures Sorted(offsets) <==> r.Ok?
    ensures Sorted(offsets) ==> r == Ok(Counted(Deltas(offsets)))
  {
    var out := WriteUvarint([], |offsets|);
    ghost var head := Encoded(|offsets|);
    assert out == head;
    var previous := 0;
    for i := 0 to |offsets|
      invariant Sorted(offsets[..i])
      invariant previous == if i == 0 then 0 else offsets[i - 1]
      invariant out == head + EncodedAll(Deltas(offsets[..i]))
    {
      if offsets[i] < previous {
        return Err(Unsorted);
      }
      DeltasGrow(offsets, i);
      AppendWord(head, EncodedAll(Deltas(offsets[..i])), Encoded(offsets[i] - previous));
      out := WriteUvarint(out, offsets[i] - previous);
      previous := offsets[i];
    }
    AllDeltas(offsets, offsets[..|offsets|]);
    r := Ok(out);
  }

  /** A table of offsets, which entries start a non-empty range, and how many do. */
  datatype WatchIndex = WatchIndex(offsets: seq<nat>, watched: seq<bool>, entries: nat)

  function CountTrue(bits: seq<bool>): nat {
    if bits == [] then 0 else CountTrue(bits[..|bits| - 1]) + if bits[|bits| - 1] then 1 else 0
  }

  function Clear(length: nat): (bits: seq<bool>)
    ensures |bits| == length
  {
    if length == 0 then [] else Clear(length - 1) + [false]
  }

  /** The bits of a table of some length once some deltas are read: each nonzero one marks the entry before it. */
  function MarkedBits(deltas: seq<nat>, length: nat): (bits: seq<bool>)
    ensures |bits| == length
  {
    if deltas == [] then Clear(length)
    else
      var n := |deltas| - 1;
      var bits := MarkedBits(deltas[..n], length);
      if 0 < n <= length && deltas[n] != 0 then bits[n - 1 := true] else bits
  }

  function WatchedBits(deltas: seq<nat>): seq<bool> {
    MarkedBits(deltas, |deltas|)
  }

  lemma {:induction false} ClearAt(length: nat, i: nat)
    requires i < length
    ensures !Clear(length)[i]
  {
    if i < length - 1 {
      ClearAt(length - 1, i);
    }
  }

  /** Entry i is watched exactly when the next offset was coded as a nonzero delta. */
  lemma {:induction false} MarkedBitsAt(deltas: seq<nat>, length: nat, i: nat)
    requires i < length
    ensures MarkedBits(deltas, length)[i] <==> i + 1 < |deltas| && deltas[i + 1] != 0
  {
    if deltas == [] {
      ClearAt(length, i);
    } else {
      MarkedBitsAt(deltas[..|deltas| - 1], length, i);
    }
  }

  lemma {:induction false} SetTrueCounts(bits: seq<bool>, i: nat)
    requires i < |bits| && !bits[i]
    ensures CountTrue(bits[i := true]) == CountTrue(bits) + 1
  {
    var n := |bits| - 1;
    if i == n {
      assert bits[i := true][..n] == bits[..n];
    } else {
      SetTrueCounts(bits[..n], i);
      assert bits[i := true][..n] == bits[..n][i := true];
    }
  }

  lemma {:induction false} CountNone(length: nat)
    ensures CountTrue(Clear(length)) == 0
  {
    if length > 0 {
      CountNone(length - 1);
      assert Clear(length)[..length - 1] == Clear(length - 1);
    }
  }

  lemma {:induction false} ReadManyFails(bytes: seq<Byte>, pos: nat, some: nat, count: nat)
    requires some <= count && ReadMany(bytes, pos, some).Err?
    ensures ReadMany(bytes, pos, count) == ReadMany(bytes, pos, some)
  {
    if some < count {
      ReadManyFails(bytes, pos, some, count - 1);
      ReadManyExtends(bytes, pos, count - 1);
    }
  }

  predicate AllU32(values: seq<nat>) {
    forall i :: 0 <= i < |values| ==> values[i] <= MAX_U32
  }

  /** What the decoding loop has built from the deltas read so far. */
  predicate Built(deltas: seq<nat>, length: nat, offsets: seq<nat>, watched: seq<bool>, entries: nat) {
    && |deltas| <= length && offsets == Running(deltas)
    && watched == MarkedBits(deltas, length) && entries == CountTrue(watched)
  }

  function LastOf(offsets: seq<nat>): nat {
    if offsets == [] then 0 else offsets[|offsets| - 1]
  }

  lemma BuiltStep(deltas: seq<nat>, delta: nat, length: nat, offsets: seq<nat>, watched: seq<bool>, entries: nat)
    requires |deltas| < length && Built(deltas, length, offsets, watched, entries)
    ensures |watched| == length && |offsets| == |deltas|
    ensures var marks := |deltas| > 0 && delta != 0;
            Built(deltas + [delta], length, offsets + [(LastOf(offsets) + delta) % WORD],
                  if marks then watched[|deltas| - 1 := true] else watched, if marks then entries + 1 else entries)
  {
    if |deltas| > 0 && delta != 0 {
      MarkedBitsAt(deltas, length, |deltas| - 1);
      SetTrueCounts(watched, |deltas| - 1);
    }
    assert (deltas + [delta])[..|deltas|] == deltas;
  }

  lemma {:induction false} BuiltStart(length: nat)
    ensures Built([], length, [], Clear(length), 0)
  {
    CountNone(length);
  }

  /** The decoding loop: offsets, watched bits and entry count from one pass over the deltas. */
  method ReadOffsets(bytes: seq<Byte>) returns (r: Result<WatchIndex>)
    ensures match ReadCounted(bytes)
            case Err(e) => r.Err?
            case Ok(deltas) =>
              if AllU32(Running(deltas.value)) then
                r == Ok(WatchIndex(Running(deltas.value), WatchedBits(deltas.value),
                                   CountTrue(WatchedBits(deltas.value))))
              else r.Err?
  {
    var head := ReadUvarint(bytes, 0);
    if head.Err? {
      return Err(head.error);
    }
    r := ReadDeltas(bytes, head.value.next, head.value.value);
  }

  /** The deltas read so far, and what was built from them. */
  predicate Reading(bytes: seq<Byte>, start: nat, deltas: seq<nat>, pos: nat, length: nat,
                    offsets: seq<nat>, watched: seq<bool>, entries: nat) {
    && ReadMany(bytes, start, |deltas|) == Ok(Read(deltas, pos))
    && Built(deltas, length, offsets, watched, entries) && AllU32(offsets)
  }

  predicate NoOffsets(bytes: seq<Byte>, start: nat, length: nat) {
    match ReadMany(bytes, start, length)
    case Err(_) => true
    case Ok(deltas) => !AllU32(Running(deltas.value))
  }

  /** One delta read: the loop goes on, or the section is not a table of offsets. */
  lemma {:induction false} ReadingGoesOn(bytes: seq<Byte>, start: nat, deltas: seq<nat>, pos: nat, length: nat,
                                         offsets: seq<nat>, watched: seq<bool>, entries: nat, delta: nat, next: nat,
                                         running: nat)
    requires |deltas| < length && Reading(bytes, start, deltas, pos, length, offsets, watched, entries)
    requires ReadFrom(bytes, pos, 0) == Ok(Read(delta, next)) && running == (LastOf(offsets) + delta) % WORD
    ensures |watched| == length
    ensures var marks := |deltas| > 0 && delta != 0;
            if running <= MAX_U32 then
              Reading(bytes, start, deltas + [delta], next, length, offsets + [running],
                      if marks then watched[|deltas| - 1 := true] else watched, if marks then entries + 1 else entries)
            else NoOffsets(bytes, start, length)
  {
    ReadOneMore(bytes, start, deltas, pos, delta, next);
    BuiltStep(deltas, delta, length, offsets, watched, entries);
    if running > MAX_U32 {
      assert Running(deltas + [delta])[|deltas|] == running;
      OutOfRangeStays(bytes, start, deltas + [delta], next, length);
    }
  }

  lemma {:induction false} ReadingFails(bytes: seq<Byte>, start: nat, deltas: seq<nat>, pos: nat, length: nat)
    requires |deltas| < length && ReadMany(bytes, start, |deltas|) == Ok(Read(deltas, pos))
    requires ReadFrom(bytes, pos, 0).Err?
    ensures ReadMany(bytes, start, length).Err?
  {
    ReadManyExtends(bytes, start, |deltas|);
    ReadManyFails(bytes, start, |deltas| + 1, length);
  }

  method ReadDeltas(bytes: seq<Byte>, start: nat, length: nat) returns (r: Result<WatchIndex>)
    ensures if NoOffsets(bytes, start, length) then r.Err?
            else
              var deltas := ReadMany(bytes, start, length).value.value;
              r == Ok(WatchIndex(Running(deltas), WatchedBits(deltas), CountTrue(WatchedBits(deltas))))
  {
    var offsets: seq<nat>, watched, entries: nat, running: nat, pos := [], Clear(length), 0, 0, start;
    ghost var deltas: seq<nat> := [];
    BuiltStart(length);
    for index := 0 to length
      invariant |deltas| == index && running == LastOf(offsets)
      invariant Reading(bytes, start, deltas, pos, length, offsets, watched, entries)
    {
      var next := ReadUvarint(bytes, pos);
      if next.Err? {
        ReadingFails(bytes, start, deltas, pos, length);
        return Err(next.error);
      }
      var delta := next.value.value;
      running := (running + delta) % WORD;
      ReadingGoesOn(bytes, start, deltas, pos, length, offsets, watched, entries, delta, next.value.next, running);
      if index > 0 && delta != 0 {
        watched := watched[index - 1 := true];
        entries := entries + 1;
      }
      if running > MAX_U32 {
        return Err(OutOfRange);
      }
      offsets := offsets + [running];
      deltas := deltas + [delta];
      pos := next.value.next;
    }
    r := Ok(WatchIndex(offsets, watched, entries));
  }

  /** A sum out of range stays out of range whatever follows. */
  lemma {:induction false} OutOfRangeStays(bytes: seq<Byte>, pos: nat, deltas: seq<nat>, next: nat, count: nat)
    requires ReadMany(bytes, pos, |deltas|) == Ok(Read(deltas, next)) && |deltas| <= count
    requires !AllU32(Running(deltas))
    ensures match ReadMany(bytes, pos, count)
            case Err(_) => true
            case Ok(all) => !AllU32(Running(all.value))
    decreases count - |deltas|
  {
    if |deltas| < count {
      ReadManyExtends(bytes, pos, |deltas|);
      match ReadFrom(bytes, next, 0)
      case Err(e) =>
        ReadManyFails(bytes, pos, |deltas| + 1, count);
      case Ok(v) =>
        var more := deltas + [v.value];
        assert more[..|deltas|] == deltas;
        var i :| 0 <= i < |deltas| && Running(deltas)[i] > MAX_U32;
        assert Running(more)[i] > MAX_U32;
        OutOfRangeStays(bytes, pos, more, v.next, count);
    }
  }

  /** Written offsets read back, and an entry is watched exactly when its range is not empty. */
  lemma OffsetsRoundTrip(offsets: seq<nat>, rest: seq<Byte>)
    requires Sorted(offsets) && AllU32(offsets) && |offsets| < WORD
    ensures ReadCounted(Counted(Deltas(offsets)) + rest) == Ok(Read(Deltas(offsets), |Counted(Deltas(offsets))|))
    ensures Running(Deltas(offsets)) == offsets
    ensures forall i :: 0 <= i < |offsets| ==>
              (WatchedBits(Deltas(offsets))[i] <==> i + 1 < |offsets| && offsets[i] < offsets[i + 1])
  {
    RunningDeltas(offsets);
    CountedRoundTrip(Deltas(offsets), rest);
    forall i | 0 <= i < |offsets|
      ensures WatchedBits(Deltas(offsets))[i] <==> i + 1 < |offsets| && offsets[i] < offsets[i + 1]
    {
      MarkedBitsAt(Deltas(offsets), |offsets|, i);
    }
  }

  // ---------- representative map ----------

  /** Signed deltas against the identity, as zigzag values. */
  function IdentityDeltas(entries: seq<int>): seq<nat>
    requires InU32(entries) && |entries| <= HALF_WORD
  {
    seq(|entries|, i requires 0 <= i < |entries| => Zigzag(entries[i] - i))
  }

  /** The entries the deltas stand for, as integers. */
  function FromIdentity(deltas: seq<nat>): seq<int>
    requires Words(deltas)
  {
    seq(|deltas|, i requires 0 <= i < |deltas| => i + Unzigzag(deltas[i]))
  }

  predicate InU32(entries: seq<int>) {
    forall i :: 0 <= i < |entries| ==> 0 <= entries[i] <= MAX_U32
  }

  lemma IdentityDeltasBack(entries: seq<int>)
    requires InU32(entries) && |entries| <= HALF_WORD
    ensures Words(IdentityDeltas(entries)) && FromIdentity(IdentityDeltas(entries)) == entries
    ensures forall i :: 0 <= i < |entries| ==> (IdentityDeltas(entries)[i] == 0 <==> entries[i] == i)
  {
    forall i | 0 <= i < |entries|
      ensures IdentityDeltas(entries)[i] < WORD && i + Unzigzag(IdentityDeltas(entries)[i]) == entries[i]
      ensures IdentityDeltas(entries)[i] == 0 <==> entries[i] == i
    {
      ZigzagRoundTrip(entries[i] - i);
    }
  }

  method WriteIdentityDeltas(entries: seq<int>) returns (out: seq<Byte>)
    requires InU32(entries) && |entries| <= HALF_WORD
    ensures out == Counted(IdentityDeltas(entries))
  {
    out := WriteUvarint([], |entries|);
    ghost var all, head := IdentityDeltas(entries), Encoded(|entries|);
    assert out == head;
    for i := 0 to |entries|
      invariant out == head + EncodedAll(all[..i])
    {
      EncodedPrefix(all, i);
      AppendWord(head, EncodedAll(all[..i]), Encoded(all[i]));
      out := WriteUvarint(out, Zigzag(entries[i] - i));
    }
    assert all[..|all|] == all;
  }

  lemma EncodedPrefix(values: seq<nat>, i: nat)
    requires i < |values|
    ensures EncodedAll(values[..i + 1]) == EncodedAll(values[..i]) + Encoded(values[i])
  {
    assert values[..i + 1] == values[..i] + [values[i]];
    EncodedAllAppend(values[..i], values[i]);
  }

  lemma TopPiece(x: nat, half: nat)
    requires half > 0
    ensures x * half % (2 * half) <= half
  {
    assert x * half == 2 * half * (x / 2) + x % 2 * half;
    Arith.DivModUnique(x * half, 2 * half, x / 2, x % 2 * half);
  }

  lemma LowPiece(x: nat, p: nat)
    requires x < 128 && 128 * p <= WORD && p > 0
    ensures x * p % WORD + p <= 128 * p
  {
    Arith.MulMonotone(x + 1, 128, p);
    assert (x + 1) * p == x * p + p;
    assert x * p >= 0;
    Arith.DivModUnique(x * p, WORD, 0, x * p);
  }

  lemma PieceFits(b: Byte, shift: nat)
    requires shift < 64 && shift % 7 == 0
    ensures Piece(b, shift) + Pow2(shift) <= if shift < 63 then Pow2(shift + 7) else WORD
  {
    var x, p := b % 128, Pow2(shift);
    WordIsPow2();
    if shift < 63 {
      Pow2Add(7, shift);
      assert Pow2(7) == 128;
      Pow2Monotone(shift + 7, 64);
      LowPiece(x, p);
    } else {
      Pow2Add(1, 63);
      assert Pow2(1) == 2;
      TopPiece(x, p);
    }
  }

  /** Every varint read is a 64-bit value. */
  lemma {:induction false} ReadFits(bytes: seq<Byte>, pos: nat, shift: nat)
    requires shift % 7 == 0
    ensures match ReadFrom(bytes, pos, shift)
            case Err(_) => true
            case Ok(r) => r.value + Pow2(shift) <= WORD
    decreases |bytes| - pos
  {
    if pos < |bytes| && shift < 64 {
      PieceFits(bytes[pos], shift);
      if shift < 63 {
        WordIsPow2();
        Pow2Monotone(shift + 7, 64);
      }
      if bytes[pos] >= 128 {
        ReadFits(bytes, pos + 1, shift + 7);
      }
    }
  }

  lemma {:induction false} ReadManyFits(bytes: seq<Byte>, pos: nat, count: nat)
    ensures match ReadMany(bytes, pos, count)
            case Err(_) => true
            case Ok(r) => Words(r.value)
    decreases count
  {
    if count > 0 {
      ReadFits(bytes, pos, 0);
      match ReadFrom(bytes, pos, 0)
      case Err(_) =>
      case Ok(first) => ReadManyFits(bytes, first.next, count - 1);
    }
  }

  /** What the map's decoding loop returns for deltas read at once. */
  function EntriesOf(deltas: seq<nat>): Result<seq<int>>
    requires Words(deltas)
  {
    if InU32(FromIdentity(deltas)) then Ok(FromIdentity(deltas)) else Err(OutOfRange)
  }

  /** One signed delta against its index, range-checked. */
  method ReadEntry(bytes: seq<Byte>, pos: nat, index: nat) returns (r: Result<Read<int>>, ghost word: nat)
    ensures match ReadFrom(bytes, pos, 0)
            case Err(e) => r == Err(e)
            case Ok(v) =>
              && v.value < WORD && word == v.value
              && r == (if 0 <= index + Unzigzag(v.value) <= MAX_U32 then Ok(Read(index + Unzigzag(v.value), v.next))
                       else Err(OutOfRange))
  {
    ReadFits(bytes, pos, 0);
    word := 0;
    var next := ReadUvarint(bytes, pos);
    if next.Err? {
      return Err(next.error), 0;
    }
    word := next.value.value;
    var entry := index + Unzigzag(next.value.value);
    if entry < 0 || entry > MAX_U32 {
      return Err(OutOfRange), word;
    }
    r := Ok(Read(entry, next.value.next));
  }

  lemma {:induction false} OutOfU32Stays(bytes: seq<Byte>, pos: nat, deltas: seq<nat>, next: nat, count: nat)
    requires ReadMany(bytes, pos, |deltas|) == Ok(Read(deltas, next)) && |deltas| <= count
    requires Words(deltas) && !InU32(FromIdentity(deltas))
    ensures match ReadMany(bytes, pos, count)
            case Err(_) => true
            case Ok(all) => Words(all.value) && !InU32(FromIdentity(all.value))
    decreases count - |deltas|
  {
    ReadManyFits(bytes, pos, count);
    if |deltas| < count {
      ReadManyExtends(bytes, pos, |deltas|);
      match ReadFrom(bytes, next, 0)
      case Err(e) =>
        ReadManyFails(bytes, pos, |deltas| + 1, count);
      case Ok(v) =>
        ReadFits(bytes, next, 0);
        var more := deltas + [v.value];
        var i :| 0 <= i < |deltas| && !(0 <= FromIdentity(deltas)[i] <= MAX_U32);
        assert FromIdentity(more)[i] == FromIdentity(deltas)[i];
        OutOfU32Stays(bytes, pos, more, v.next, count);
    }
  }

  /** The decoding loop of the representative map, from a position with the count already read. */
  method ReadIdentityDeltas(bytes: seq<Byte>, start: nat, length: nat) returns (r: Result<Read<seq<int>>>)
    ensures match ReadMany(bytes, start, length)
            case Err(_) => r.Err?
            case Ok(deltas) =>
              Words(deltas.value)
              && match EntriesOf(deltas.value)
                 case Err(_) => r.Err?
                 case Ok(entries) => r == Ok(Read(entries, deltas.next))
  {
    ReadManyFits(bytes, start, length);
    var entries: seq<int>, pos := [], start;
    ghost var deltas: seq<nat> := [];
    for index := 0 to length
      invariant |deltas| == index && Words(deltas)
      invariant ReadMany(bytes, start, index) == Ok(Read(deltas, pos))
      invariant entries == FromIdentity(deltas) && InU32(FromIdentity(deltas))
    {
      ReadManyExtends(bytes, start, index);
      ghost var word;
      var next;
      next, word := ReadEntry(bytes, pos, index);
      if ReadFrom(bytes, pos, 0).Err? {
        ReadManyFails(bytes, start, index + 1, length);
        return Err(next.error);
      }
      deltas := deltas + [word];
      if next.Err? {
        assert FromIdentity(deltas)[index] == index + Unzigzag(word);
        OutOfU32Stays(bytes, start, deltas, ReadFrom(bytes, pos, 0).value.next, length);
        return Err(next.error);
      }
      pos := next.value.next;
      entries := entries + [next.value.value];
    }
    r := Ok(Read(entries, pos));
  }

  /** A written map reads back and leaves nothing over. */
  lemma IdentityDeltasRoundTrip(entries: seq<int>, rest: seq<Byte>)
    requires InU32(entries) && |entries| <= HALF_WORD
    ensures Words(IdentityDeltas(entries)) && EntriesOf(IdentityDeltas(entries)) == Ok(entries)
    ensures ReadCounted(Counted(IdentityDeltas(entries)) + rest)
            == Ok(Read(IdentityDeltas(entries), |Counted(IdentityDeltas(entries))|))
  {
    IdentityDeltasBack(entries);
    CountedRoundTrip(IdentityDeltas(entries), rest);
  }

  // ---------- the row-major cursor ----------

  /** Row-major index of the i-th position of a column-major walk. */
  function RowMajor(i: nat, degree: nat, wires: nat): nat
    requires degree > 0
  {
    i % degree * wires + i / degree
  }

  /** Inside the table the index is inside the table. */
  lemma RowMajorInside(i: nat, degree: nat, wires: nat)
    requires degree > 0 && i < degree * wires
    ensures i / degree < wires && RowMajor(i, degree, wires) < degree * wires
  {
    var row, column := i % degree, i / degree;
    Arith.DivMod(i, degree);
    assert column * degree == degree * column && wires * degree == degree * wires;
    if column >= wires {
      Arith.MulMonotone(wires, column, degree);
    }
    Arith.MulMonotone(row + 1, degree, wires);
    assert (row + 1) * wires == row * wires + wires;
  }

  /** The map from column-major to row-major positions is a bijection of the table: it has an inverse. */
  lemma RowMajorInverse(i: nat, degree: nat, wires: nat)
    requires degree > 0 && i < degree * wires
    ensures wires > 0 && RowMajor(RowMajor(i, degree, wires), wires, degree) == i
  {
    var row, column := i % degree, i / degree;
    RowMajorInside(i, degree, wires);
    Arith.DivMod(i, degree);
    Arith.DivModUnique(RowMajor(i, degree, wires), wires, row, column);
    assert wires * row == row * wires && column * degree == degree * column;
  }

  /** The walking cursor: adds and one comparison instead of a division. */
  class RowMajorCursor {
    var row: nat
    var column: nat
    var index: nat

    /** The cursor stands at the i-th position. */
    predicate At(i: nat, degree: nat, wires: nat)
      reads this
      requires degree > 0
    {
      row == i % degree && column == i / degree && index == RowMajor(i, degree, wires)
    }

    constructor ()
      ensures row == 0 && column == 0 && index == 0
    {
      row, column, index := 0, 0, 0;
    }

    method Advance(degree: nat, wires: nat, ghost i: nat)
      requires degree > 0 && At(i, degree, wires)
      modifies this
      ensures At(i + 1, degree, wires)
    {
      Arith.DivMod(i, degree);
      row := row + 1;
      index := index + wires;
      if row == degree {
        row := 0;
        column := column + 1;
        index := column;
        NextColumn(i, degree);
      } else {
        NextRow(i, degree, wires);
      }
    }
  }

  lemma NextColumn(i: nat, degree: nat)
    requires degree > 0 && i % degree + 1 == degree
    ensures (i + 1) % degree == 0 && (i + 1) / degree == i / degree + 1
  {
    Arith.DivMod(i, degree);
    assert degree * (i / degree) + degree == degree * (i / degree + 1);
    Arith.DivModUnique(i + 1, degree, i / degree + 1, 0);
  }

  lemma NextRow(i: nat, degree: nat, wires: nat)
    requires degree > 0 && i % degree + 1 < degree
    ensures (i + 1) % degree == i % degree + 1 && (i + 1) / degree == i / degree
    ensures RowMajor(i + 1, degree, wires) == RowMajor(i, degree, wires) + wires
  {
    Arith.DivMod(i, degree);
    Arith.DivModUnique(i + 1, degree, i / degree, i % degree + 1);
    assert (i % degree + 1) * wires == i % degree * wires + wires;
  }

  // ---------- bit masks in bytes ----------

  function Bit(k: nat): bv8
    requires k < 8
  {
    (1 as bv8) << k
  }

  predicate TestBit(mask: seq<bv8>, bit: nat)
    requires bit / 8 < |mask|
  {
    mask[bit / 8] & Bit(bit % 8) != 0
  }

  function SetBit(mask: seq<bv8>, bit: nat): seq<bv8>
    requires bit / 8 < |mask|
  {
    mask[bit / 8 := mask[bit / 8] | Bit(bit % 8)]
  }

  lemma BitInByte(b: bv8, k: nat, j: nat)
    requires k < 8 && j < 8
    ensures (b | Bit(k)) & Bit(j) != 0 <==> j == k || b & Bit(j) != 0
  {
    assert Bit(0) == 1 && Bit(1) == 2 && Bit(2) == 4 && Bit(3) == 8;
    assert Bit(4) == 16 && Bit(5) == 32 && Bit(6) == 64 && Bit(7) == 128;
    assert k == 0 || k == 1 || k == 2 || k == 3 || k == 4 || k == 5 || k == 6 || k == 7;
    assert j == 0 || j == 1 || j == 2 || j == 3 || j == 4 || j == 5 || j == 6 || j == 7;
  }

  /** Setting a bit sets it and no other. */
  lemma SetBitOnly(mask: seq<bv8>, bit: nat, other: nat)
    requires bit / 8 < |mask| && other / 8 < |mask|
    ensures TestBit(SetBit(mask, bit), other) <==> other == bit || TestBit(mask, other)
  {
    BitInByte(mask[bit / 8], bit % 8, other % 8);
  }

  // ---------- sigma ----------

  /** The permutation's successors, and the mask of its fixed points by row-major position. */
  datatype Sigma = Sigma(successors: seq<int>, mask: seq<bv8>)

  predicate InDomain(successors: seq<int>, length: nat) {
    forall i :: 0 <= i < |successors| ==> 0 <= successors[i] <= MAX_U32 && successors[i] < length
  }

  /** The bit of a position is set exactly when its delta was zero; other bits are clear. */
  predicate MasksFixed(mask: seq<bv8>, deltas: seq<nat>, degree: nat, wires: nat)
    requires degree > 0
  {
    var length := degree * wires;
    && |mask| == (length + 7) / 8
    && (forall i {:trigger RowMajor(i, degree, wires)} :: 0 <= i < length ==>
          RowMajor(i, degree, wires) < length
          && (TestBit(mask, RowMajor(i, degree, wires)) <==> i < |deltas| && deltas[i] == 0))
  }

  lemma EmptyMask(degree: nat, wires: nat)
    requires degree > 0
    ensures MasksFixed(seq((degree * wires + 7) / 8, i => 0 as bv8), [], degree, wires)
  {
    forall i | 0 <= i < degree * wires
      ensures RowMajor(i, degree, wires) < degree * wires
      ensures !TestBit(seq((degree * wires + 7) / 8, i => 0 as bv8), RowMajor(i, degree, wires))
    {
      RowMajorInside(i, degree, wires);
    }
  }

  lemma MaskStep(mask: seq<bv8>, deltas: seq<nat>, delta: nat, degree: nat, wires: nat)
    requires degree > 0 && |deltas| < degree * wires && MasksFixed(mask, deltas, degree, wires)
    ensures RowMajor(|deltas|, degree, wires) / 8 < |mask|
    ensures MasksFixed(if delta == 0 then SetBit(mask, RowMajor(|deltas|, degree, wires)) else mask, deltas + [delta],
                       degree, wires)
  {
    var at := RowMajor(|deltas|, degree, wires);
    RowMajorInside(|deltas|, degree, wires);
    forall i | 0 <= i < degree * wires
      ensures RowMajor(i, degree, wires) < degree * wires
      ensures delta == 0 ==> (TestBit(SetBit(mask, at), RowMajor(i, degree, wires))
                              <==> i == |deltas| || (i < |deltas| && deltas[i] == 0))
    {
      RowMajorInside(i, degree, wires);
      SetBitOnly(mask, at, RowMajor(i, degree, wires));
      RowMajorInverse(i, degree, wires);
      RowMajorInverse(|deltas|, degree, wires);
    }
  }

  lemma {:induction false} OutOfDomainStays(bytes: seq<Byte>, pos: nat, deltas: seq<nat>, next: nat, count: nat)
    requires ReadMany(bytes, pos, |deltas|) == Ok(Read(deltas, next)) && |deltas| <= count
    requires Words(deltas) && !InDomain(FromIdentity(deltas), count)
    ensures match ReadMany(bytes, pos, count)
            case Err(_) => true
            case Ok(all) => Words(all.value) && !InDomain(FromIdentity(all.value), count)
  {
    ReadManyFits(bytes, pos, count);
    ReadManyPrefix(bytes, pos, |deltas|, count);
    if ReadMany(bytes, pos, count).Ok? {
      var all := ReadMany(bytes, pos, count).value.value;
      var i :| 0 <= i < |deltas| && !(0 <= FromIdentity(deltas)[i] <= MAX_U32 && FromIdentity(deltas)[i] < count);
      assert FromIdentity(all)[i] == FromIdentity(deltas)[i];
    }
  }

  /** Reading fewer values gives a prefix of reading more. */
  lemma {:induction false} ReadManyPrefix(bytes: seq<Byte>, pos: nat, some: nat, count: nat)
    requires some <= count
    ensures ReadMany(bytes, pos, count).Ok? ==>
              && ReadMany(bytes, pos, some).Ok?
              && |ReadMany(bytes, pos, some).value.value| == some
              && |ReadMany(bytes, pos, count).value.value| == count
              && ReadMany(bytes, pos, some).value.value == ReadMany(bytes, pos, count).value.value[..some]
    decreases count
  {
    ReadManyLength(bytes, pos, count);
    ReadManyLength(bytes, pos, some);
    if some < count {
      ReadManyPrefix(bytes, pos, some, count - 1);
      ReadManyExtends(bytes, pos, count - 1);
    }
  }

  lemma {:induction false} ReadManyLength(bytes: seq<Byte>, pos: nat, count: nat)
    ensures ReadMany(bytes, pos, count).Ok? ==> |ReadMany(bytes, pos, count).value.value| == count
  {
    ReadManyExtends(bytes, pos, count);
  }

  /** The section holds a permutation table of the expected length and nothing else. */
  predicate SigmaSection(bytes: seq<Byte>, length: nat) {
    match ReadCounted(bytes)
    case Err(_) => false
    case Ok(deltas) =>
      && |deltas.value| == length && deltas.next == |bytes|
      && Words(deltas.value) && InDomain(FromIdentity(deltas.value), length)
  }

  /** What the walk has built from the deltas read so far. */
  predicate Walked(bytes: seq<Byte>, start: nat, deltas: seq<nat>, pos: nat, successors: seq<int>, mask: seq<bv8>,
                   degree: nat, wires: nat)
    requires degree > 0
  {
    && Words(deltas) && ReadMany(bytes, start, |deltas|) == Ok(Read(deltas, pos))
    && successors == FromIdentity(deltas) && InDomain(successors, degree * wires)
    && MasksFixed(mask, deltas, degree, wires)
  }

  lemma WalkStart(bytes: seq<Byte>, start: nat, degree: nat, wires: nat)
    requires degree > 0
    ensures Walked(bytes, start, [], start, [], seq((degree * wires + 7) / 8, i => 0 as bv8), degree, wires)
  {
    EmptyMask(degree, wires);
  }

  /** One entry read: the walk goes on, or the section is not a permutation table. */
  lemma {:induction false} WalkStep(bytes: seq<Byte>, start: nat, deltas: seq<nat>, pos: nat, successors: seq<int>,
                                    mask: seq<bv8>,
                                    degree: nat, wires: nat)
    requires degree > 0 && |deltas| < degree * wires
    requires Walked(bytes, start, deltas, pos, successors, mask, degree, wires)
    ensures RowMajor(|deltas|, degree, wires) / 8 < |mask|
    ensures match ReadFrom(bytes, pos, 0)
            case Err(_) => ReadMany(bytes, start, degree * wires).Err?
            case Ok(v) =>
              && v.value < WORD
              && (Unzigzag(v.value) == 0 <==> v.value == 0)
              && var successor := |deltas| + Unzigzag(v.value);
                 if 0 <= successor <= MAX_U32 && successor < degree * wires then
                   Walked(bytes, start, deltas + [v.value], v.next, successors + [successor],
                          if v.value == 0 then SetBit(mask, RowMajor(|deltas|, degree, wires)) else mask, degree, wires)
                 else NoTable(bytes, start, degree * wires)
  {
    var n := |deltas|;
    ReadManyExtends(bytes, start, n);
    ReadFits(bytes, pos, 0);
    RowMajorInside(n, degree, wires);
    match ReadFrom(bytes, pos, 0)
    case Err(_) =>
      ReadManyFails(bytes, start, n + 1, degree * wires);
    case Ok(v) =>
      MaskStep(mask, deltas, v.value, degree, wires);
      var successor := n + Unzigzag(v.value);
      assert FromIdentity(deltas + [v.value]) == successors + [successor];
      if !(0 <= successor <= MAX_U32 && successor < degree * wires) {
        assert FromIdentity(deltas + [v.value])[n] == successor;
        OutOfDomainStays(bytes, start, deltas + [v.value], v.next, degree * wires);
      }
  }

  predicate NoTable(bytes: seq<Byte>, start: nat, length: nat) {
    match ReadMany(bytes, start, length)
    case Err(_) => true
    case Ok(all) => Words(all.value) && !InDomain(FromIdentity(all.value), length)
  }

  /** The decoding loop: successors and mask from one pass, with the cursor walking along. */
  method WalkSigma(bytes: seq<Byte>, start: nat, degree: nat, wires: nat)
      returns (r: Result<Sigma>, pos: nat, ghost deltas: seq<nat>)
    requires degree > 0
    ensures r.Err? ==> NoTable(bytes, start, degree * wires)
    ensures r.Ok? ==> |deltas| == degree * wires
                      && Walked(bytes, start, deltas, pos, r.value.successors, r.value.mask, degree, wires)
  {
    var length := degree * wires;
    var successors: seq<int>, mask := [], seq((length + 7) / 8, i => 0 as bv8);
    var cursor := new RowMajorCursor();
    pos, deltas := start, [];
    WalkStart(bytes, start, degree, wires);
    StartOfWalk(degree, wires);
    for index := 0 to length
      invariant |deltas| == index && cursor.At(index, degree, wires)
      invariant Walked(bytes, start, deltas, pos, successors, mask, degree, wires)
    {
      WalkStep(bytes, start, deltas, pos, successors, mask, degree, wires);
      var next := ReadUvarint(bytes, pos);
      if next.Err? {
        return Err(next.error), pos, deltas;
      }
      var delta := Unzigzag(next.value.value);
      if delta == 0 {
        mask := SetBit(mask, cursor.index);
      }
      cursor.Advance(degree, wires, index);
      var successor := index + delta;
      if successor < 0 || successor > MAX_U32 || successor >= length {
        return Err(OutOfRange), pos, deltas;
      }
      successors := successors + [successor];
      deltas := deltas + [next.value.value];
      pos := next.value.next;
    }
    r := Ok(Sigma(successors, mask));
  }

  /** The whole sigma section: its length, the walk, and nothing behind it. */
  method ReadSigma(bytes: seq<Byte>, degree: nat, wires: nat) returns (r: Result<Sigma>)
    requires degree > 0
    ensures r.Ok? <==> SigmaSection(bytes, degree * wires)
    ensures r.Ok? ==>
              var deltas := ReadCounted(bytes).value.value;
              r.value.successors == FromIdentity(deltas) && MasksFixed(r.value.mask, deltas, degree, wires)
  {
    var head := ReadUvarint(bytes, 0);
    if head.Err? {
      return Err(head.error);
    }
    ReadManyLength(bytes, head.value.next, head.value.value);
    if head.value.value != degree * wires {
      return Err(WrongLength);
    }
    var pos;
    ghost var deltas;
    r, pos, deltas := WalkSigma(bytes, head.value.next, degree, wires);
    if r.Ok? && pos != |bytes| {
      r := Err(TrailingBytes);
    }
  }

  lemma StartOfWalk(degree: nat, wires: nat)
    requires degree > 0
    ensures 0 % degree == 0 && 0 / degree == 0 && RowMajor(0, degree, wires) == 0
  {
    Arith.DivModUnique(0, degree, 0, 0);
  }

  /**
   A written sigma is read back whole; and the mask bit of a position is set exactly when the
   permutation fixes it.
   */
  lemma SigmaRoundTrip(sigma: seq<int>, degree: nat, wires: nat)
    requires degree > 0 && |sigma| == degree * wires <= HALF_WORD && InDomain(sigma, |sigma|)
    ensures SigmaSection(Counted(IdentityDeltas(sigma)), degree * wires)
    ensures var deltas := ReadCounted(Counted(IdentityDeltas(sigma))).value.value;
            && FromIdentity(deltas) == sigma
            && forall mask :: MasksFixed(mask, deltas, degree, wires) ==>
                 forall i :: 0 <= i < |sigma| ==>
                   RowMajor(i, degree, wires) / 8 < |mask|
                   && (TestBit(mask, RowMajor(i, degree, wires)) <==> sigma[i] == i)
  {
    var deltas := IdentityDeltas(sigma);
    IdentityDeltasRoundTrip(sigma, []);
    assert Counted(deltas) + [] == Counted(deltas);
    IdentityDeltasBack(sigma);
  }
}
