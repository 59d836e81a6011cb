/** Primitive encodings of an embedded circuit: unsigned varints, zigzag deltas and framed sections. */
module Varint {
  import opened Arith

  type Byte = b: nat | b < 256

  const WORD: nat := 0x1_0000_0000_0000_0000
  const HALF_WORD: nat := 0x8000_0000_0000_0000

  datatype Error = Truncated | Overflow | Unsorted | OutOfRange | WrongLength | TrailingBytes | BadCompression

  datatype Result<T> = Ok(value: T) | Err(error: Error)

  /** A value read, and where reading goes on. */
  datatype Read<T> = Read(value: T, next: nat)

  // ---------- unsigned varints ----------

  /** Seven bits a byte, lowest first, the top bit saying that more follow. */
  function Encoded(value: nat): (s: seq<Byte>)
    ensures |s| > 0
  {
    if value < 128 then [value] else [value % 128 + 128] + Encoded(value / 128)
  }

  /** What a byte contributes to a 64-bit value at a shift. */
  function Piece(b: Byte, shift: nat): nat {
    b % 128 * Pow2(shift) % WORD
  }

  /** Reads from a position with the bits below the shift already taken. */
  function ReadFrom(bytes: seq<Byte>, pos: nat, shift: nat): Result<Read<nat>>
    decreases |bytes| - pos
  {
    if pos >= |bytes| then Err(Truncated)
    else if shift >= 64 then Err(Overflow)
    else if bytes[pos] < 128 then Ok(Read(Piece(bytes[pos], shift), pos + 1))
    else
      match ReadFrom(bytes, pos + 1, shift + 7)
      case Err(e) => Err(e)
      case Ok(r) => Ok(Read(Piece(bytes[pos], shift) + r.value, r.next))
  }

  method WriteUvarint(out: seq<Byte>, value: nat) returns (after: seq<Byte>)
    ensures after == out + Encoded(value)
  {
    after := out;
    var rest := value;
    while true
      invariant after + Encoded(rest) == out + Encoded(value)
      decreases rest
    {
      var byte: Byte := rest % 128;
      ghost var whole := rest;
      rest := rest / 128;
      if rest == 0 {
        assert whole == byte;
        after := after + [byte];
        return;
      }
      after := after + [byte + 128];
    }
  }

  method ReadUvarint(bytes: seq<Byte>, start: nat) returns (r: Result<Read<nat>>)
    ensures r == ReadFrom(bytes, start, 0)
  {
    var value, shift, pos := 0, 0, start;
    while true
      invariant match ReadFrom(bytes, pos, shift)
                case Err(e) => ReadFrom(bytes, start, 0) == Err(e)
                case Ok(rest) => ReadFrom(bytes, start, 0) == Ok(Read(value + rest.value, rest.next))
      invariant value >= 0 && pos >= start && shift >= 0
      decreases |bytes| - pos
    {
      if pos >= |bytes| {
        return Err(Truncated);
      }
      var byte := bytes[pos];
      if shift >= 64 {
        return Err(Overflow);
      }
      value := value + Piece(byte, shift);
      pos := pos + 1;
      if byte < 128 {
        return Ok(Read(value, pos));
      }
      shift := shift + 7;
    }
  }

  /** The bits of a value at a shift: seven now, the rest seven higher. */
  lemma ShiftSplit(value: nat, shift: nat)
    requires value >= 128 && value * Pow2(shift) < WORD
    ensures value / 128 * Pow2(shift + 7) < WORD && shift + 7 < 64
    ensures value % 128 * Pow2(shift) + value / 128 * Pow2(shift + 7) == value * Pow2(shift)
  {
    var low, high, p := value % 128, value / 128, Pow2(shift);
    Pow2Add(shift, 7);
    assert Pow2(7) == 128;
    SplitProduct(low, high, p);
    assert high * 128 + low == value;
    assert low * p >= 0;
    if shift + 7 >= 64 {
      Pow2Monotone(64, shift + 7);
      WordIsPow2();
      Arith.MulMonotone(1, high, Pow2(shift + 7));
    }
  }

  lemma SplitProduct(low: nat, high: nat, p: nat)
    ensures low * p + high * (p * 128) == (high * 128 + low) * p
  {
  }

  lemma WordIsPow2()
    ensures Pow2(64) == WORD
  {
    assert Pow2(8) == 0x100;
    Pow2Doubles(8, 0x100);
    Pow2Doubles(16, 0x1_0000);
    Pow2Doubles(32, 0x1_0000_0000);
  }

  /** A written varint reads back, whatever stands before and after it. */
  lemma {:induction false} ReadsBack(before: seq<Byte>, value: nat, rest: seq<Byte>, shift: nat)
    requires value * Pow2(shift) < WORD && shift < 64
    ensures ReadFrom(before + Encoded(value) + rest, |before|, shift)
            == Ok(Read(value * Pow2(shift), |before| + |Encoded(value)|))
    decreases value
  {
    var bytes := before + Encoded(value) + rest;
    if value < 128 {
      assert bytes[|before|] == value;
      Arith.DivModUnique(value * Pow2(shift), WORD, 0, value * Pow2(shift));
    } else {
      var byte: Byte := value % 128 + 128;
      ShiftSplit(value, shift);
      ReadsBack(before + [byte], value / 128, rest, shift + 7);
      assert bytes == before + [byte] + Encoded(value / 128) + rest;
      assert byte % 128 == value % 128;
      assert value % 128 * Pow2(shift) >= 0 && value / 128 * Pow2(shift + 7) >= 0;
      Arith.DivModUnique(value % 128 * Pow2(shift), WORD, 0, value % 128 * Pow2(shift));
    }
  }

  /** Reading an encoded 64-bit value gives the value and consumes exactly its bytes. */
  lemma {:induction false} VarintRoundTrip(before: seq<Byte>, value: nat, rest: seq<Byte>)
    requires value < WORD
    ensures ReadFrom(before + Encoded(value) + rest, |before|, 0) == Ok(Read(value, |before| + |Encoded(value)|))
  {
    assert value * Pow2(0) == value;
    ReadsBack(before, value, rest, 0);
  }

  /** The number some bytes stand for: seven bits each, lowest first. */
  function Sevens(bytes: seq<Byte>): nat {
    if bytes == [] then 0 else bytes[0] % 128 + 128 * Sevens(bytes[1..])
  }

  /**
   The written form is unsigned LEB128: all bytes but the last have the top bit, their lower bits are the value's,
   lowest first, and there are no more of them than it takes.
   */
  lemma {:induction false} EncodedIsLeb128(value: nat)
    ensures var s := Encoded(value);
            && (forall i :: 0 <= i < |s| - 1 ==> s[i] >= 128) && s[|s| - 1] < 128
            && Sevens(s) == value
            && (|s| > 1 ==> s[|s| - 1] != 0)
    decreases value
  {
    var s := Encoded(value);
    if value >= 128 {
      EncodedIsLeb128(value / 128);
      assert s[1..] == Encoded(value / 128);
      if |s| == 2 {
        assert Sevens(s[1..]) == s[1] % 128 + 128 * Sevens(s[1..][1..]);
      }
    } else {
      assert s[1..] == [];
    }
  }

  /** Reading succeeds exactly when one of the next ten bytes, all of them there, has no top bit. */
  lemma {:induction false} ReadsWithinTen(bytes: seq<Byte>, pos: nat, shift: nat)
    ensures ReadFrom(bytes, pos, shift).Ok? <==>
            exists last :: pos <= last < |bytes| && shift + 7 * (last - pos) < 64 && bytes[last] < 128
                           && forall i :: pos <= i < last ==> bytes[i] >= 128
    ensures ReadFrom(bytes, pos, shift).Ok? ==> pos < ReadFrom(bytes, pos, shift).value.next <= |bytes|
    decreases |bytes| - pos
  {
    if pos < |bytes| && shift < 64 && bytes[pos] >= 128 {
      ReadsWithinTen(bytes, pos + 1, shift + 7);
      if ReadFrom(bytes, pos + 1, shift + 7).Ok? {
        var last :| pos + 1 <= last < |bytes| && shift + 7 + 7 * (last - pos - 1) < 64 && bytes[last] < 128
                    && forall i :: pos + 1 <= i < last ==> bytes[i] >= 128;
        assert pos <= last && shift + 7 * (last - pos) < 64;
      }
    } else if pos < |bytes| && shift < 64 {
      assert bytes[pos] < 128;
    }
  }

  // ---------- zigzag ----------

  predicate IsI64(v: int) {
    -(HALF_WORD as int) <= v < HALF_WORD
  }

  /** The word shifted left by one, complemented when the value is negative. */
  function Zigzag(v: int): nat
    requires IsI64(v)
  {
    var shifted := 2 * v % WORD;
    if v < 0 then WORD - 1 - shifted else shifted
  }

  /** Half the word, complemented when the lowest bit is set. */
  function Unzigzag(u: nat): int
    requires u < WORD
  {
    if u % 2 == 1 then -1 - u / 2 else u / 2
  }

  /** Zigzag is a bijection between signed and unsigned 64-bit values, and small magnitudes stay small. */
  lemma ZigzagRoundTrip(v: int)
    requires IsI64(v)
    ensures Zigzag(v) < WORD && Unzigzag(Zigzag(v)) == v
    ensures Zigzag(v) == if v >= 0 then 2 * v else -2 * v - 1
  {
    if v < 0 {
      Arith.DivModUnique(2 * v, WORD, -1, 2 * v + WORD);
    } else {
      Arith.DivModUnique(2 * v, WORD, 0, 2 * v);
    }
  }

  lemma UnzigzagRoundTrip(u: nat)
    requires u < WORD
    ensures IsI64(Unzigzag(u)) && Zigzag(Unzigzag(u)) == u
  {
    ZigzagRoundTrip(Unzigzag(u));
  }

  // ---------- sections ----------

  /** A number as some bytes, lowest first. */
  function Little(value: nat, count: nat): (s: seq<Byte>)
    ensures |s| == count
  {
    if count == 0 then [] else [value % 256] + Little(value / 256, count - 1)
  }

  function FromLittle(bytes: seq<Byte>): nat {
    if bytes == [] then 0 else bytes[0] + 256 * FromLittle(bytes[1..])
  }

  lemma {:induction false} LittleRoundTrip(value: nat, count: nat)
    requires value < Pow2(8 * count)
    ensures FromLittle(Little(value, count)) == value
  {
    if count > 0 {
      Pow2Add(8, 8 * (count - 1));
      assert Pow2(8) == 256;
      LittleRoundTrip(value / 256, count - 1);
      assert Little(value, count)[1..] == Little(value / 256, count - 1);
    }
  }

  /** The bytes of a number are its digits to the base 256, lowest first. */
  lemma {:induction false} LittleDigits(value: nat, count: nat, i: nat)
    requires i < count
    ensures Little(value, count)[i] == value / Pow2(8 * i) % 256
  {
    if i == 0 {
      assert value / 1 == value;
    } else {
      LittleDigits(value / 256, count - 1, i - 1);
      Pow2Add(8, 8 * (i - 1));
      assert Pow2(8) == 256;
      DivTwice(value, 256, Pow2(8 * (i - 1)));
    }
  }

  lemma DivTwice(value: nat, a: nat, b: nat)
    requires a > 0 && b > 0
    ensures value / a / b == value / (a * b)
  {
    var q, r := value / a, value % a;
    DivMod(value, a);
    DivMod(q, b);
    var rest := a * (q % b) + r;
    assert value == a * (b * (q / b) + q % b) + r;
    MulAssociates(a, b, q / b);
    assert a * (b * (q / b) + q % b) == a * (b * (q / b)) + a * (q % b);
    MulMonotone(q % b, b - 1, a);
    assert (b - 1) * a == a * b - a;
    assert a * (q % b) >= 0 && rest < a * b;
    DivModUnique(value, a * b, q / b, rest);
  }

  function Section(bytes: seq<Byte>): seq<Byte> {
    Little(|bytes|, 8) + bytes
  }

  function ReadSection(bytes: seq<Byte>, pos: nat): Result<Read<seq<Byte>>> {
    if |bytes| < pos + 8 then Err(Truncated)
    else
      var length := FromLittle(bytes[pos..pos + 8]);
      if |bytes| < pos + 8 + length then Err(Truncated)
      else Ok(Read(bytes[pos + 8..pos + 8 + length], pos + 8 + length))
  }

  /** A section reads back wherever it stands. */
  lemma SectionRoundTrip(before: seq<Byte>, bytes: seq<Byte>, rest: seq<Byte>)
    requires |bytes| < WORD
    ensures ReadSection(before + Section(bytes) + rest, |before|) == Ok(Read(bytes, |before| + |Section(bytes)|))
  {
    var all, pos := before + Section(bytes) + rest, |before|;
    WordIsPow2();
    LittleRoundTrip(|bytes|, 8);
    var header := Little(|bytes|, 8);
    assert all == before + header + (bytes + rest) == (before + header) + bytes + rest;
    SliceMiddle(before, header, bytes + rest);
    SliceMiddle(before + header, bytes, rest);
  }

  lemma SliceMiddle<T>(a: seq<T>, b: seq<T>, c: seq<T>)
    ensures (a + b + c)[|a|..|a| + |b|] == b
  {
  }

  /** Compression and decompression to a known length. */
  datatype Codec = Codec(compress: seq<Byte> -> seq<Byte>, decompress: (seq<Byte>, nat) -> Result<seq<Byte>>)

  /** What the codec has to satisfy for a raw section. */
  predicate Restores(c: Codec, raw: seq<Byte>) {
    |c.compress(raw)| < WORD && c.decompress(c.compress(raw), |raw|) == Ok(raw)
  }

  function CompressedSection(c: Codec, raw: seq<Byte>): seq<Byte> {
    Little(|raw|, 8) + Section(c.compress(raw))
  }

  function ReadCompressed(c: Codec, bytes: seq<Byte>, pos: nat): Result<Read<seq<Byte>>> {
    if |bytes| < pos + 8 then Err(Truncated)
    else
      var length := FromLittle(bytes[pos..pos + 8]);
      match ReadSection(bytes, pos + 8)
      case Err(e) => Err(e)
      case Ok(section) =>
        match c.decompress(section.value, length)
        case Err(e) => Err(BadCompression)
        case Ok(raw) => if |raw| != length then Err(BadCompression) else Ok(Read(raw, section.next))
  }

  /** A compressed section reads back with any codec that restores what it compresses. */
  lemma CompressedRoundTrip(c: Codec, before: seq<Byte>, raw: seq<Byte>, rest: seq<Byte>)
    requires Restores(c, raw) && |raw| < WORD
    ensures ReadCompressed(c, before + CompressedSection(c, raw) + rest, |before|)
            == Ok(Read(raw, |before| + |CompressedSection(c, raw)|))
  {
    var header, section := Little(|raw|, 8), Section(c.compress(raw));
    var all := before + CompressedSection(c, raw) + rest;
    WordIsPow2();
    LittleRoundTrip(|raw|, 8);
    assert all == before + header + (section + rest) == (before + header) + section + rest;
    SliceMiddle(before, header, section + rest);
    SectionRoundTrip(before + header, c.compress(raw), rest);
  }
}
