/** The Protocol Buffers wire format as values: base-128 varints, the four
    payload shapes the decoders read or skip, and an independent grammar of
    well-formed bytes. */
module Wire {

  type byte = x: int | 0 <= x < 256
  type bytes = seq<byte>

  const TWO_32 := 0x1_0000_0000
  const TWO_64 := 0x1_0000_0000_0000_0000
  const MAX_VARINT_BYTES := 10

  type uint32 = x: int | 0 <= x < 0x1_0000_0000
  type int32 = x: int | -0x8000_0000 <= x < 0x8000_0000

  datatype WireError = PrematureEof | InvalidVarint | UnskippableWireType | LengthOverflow

  /** The outcome of reading at a position: a value and the next position, or
      the error the reader throws. */
  datatype Read<+T> = Got(value: T, next: nat) | Bad(error: WireError) {
    predicate IsFailure() { Bad? }

    function PropagateFailure<U>(): Read<U>
      requires Bad?
    {
      Bad(error)
    }

    function Extract(): (T, nat)
      requires Got?
    {
      (value, next)
    }
  }

  /** `b` stands in `buf` at `pos`. */
  predicate At(buf: bytes, pos: nat, b: bytes) {
    pos + |b| <= |buf| && buf[pos..pos + |b|] == b
  }

  // ---------- Readers ----------

  /** A base-128 varint of at most `budget` bytes. */
  function VarintAt(buf: bytes, pos: nat, budget: nat): (r: Read<nat>)
    ensures r.Got? ==> pos < r.next <= |buf|
    decreases |buf| - pos
  {
    if budget == 0 then Bad(InvalidVarint)
    else if pos >= |buf| then Bad(PrematureEof)
    else if buf[pos] < 128 then Got(buf[pos], pos + 1)
    else
      var (rest, next) :- VarintAt(buf, pos + 1, budget - 1);
      Got(buf[pos] - 128 + 128 * rest, next)
  }

  /** uint32: the low 32 bits of a varint. */
  function UInt32At(buf: bytes, pos: nat): (r: Read<uint32>)
    ensures r.Got? ==> pos < r.next <= |buf|
  {
    var (v, next) :- VarintAt(buf, pos, MAX_VARINT_BYTES);
    Got(v % TWO_32, next)
  }

  /** The low 32 bits of a varint read as two's complement. */
  function Signed32(v: nat): int32 {
    var u := v % TWO_32;
    if u < 0x8000_0000 then u else u - TWO_32
  }

  function Int32At(buf: bytes, pos: nat): (r: Read<int32>)
    ensures r.Got? ==> pos < r.next <= |buf|
  {
    var (v, next) :- VarintAt(buf, pos, MAX_VARINT_BYTES);
    Got(Signed32(v), next)
  }

  /** bool: any nonzero 64-bit varint. */
  function BoolAt(buf: bytes, pos: nat): (r: Read<bool>)
    ensures r.Got? ==> pos < r.next <= |buf|
  {
    var (v, next) :- VarintAt(buf, pos, MAX_VARINT_BYTES);
    Got(v % TWO_64 != 0, next)
  }

  /** A length-delimited run of bytes: a uint32 length, then that many bytes. */
  function BytesAt(buf: bytes, pos: nat): (r: Read<bytes>)
    ensures r.Got? ==> pos < r.next <= |buf|
  {
    var (length, start) :- UInt32At(buf, pos);
    if start + length > |buf| then Bad(PrematureEof)
    else Got(buf[start..start + length], start + length)
  }

  /** Skipping one payload of the given wire type. */
  function SkipAt(buf: bytes, pos: nat, wireType: nat): (r: Read<()>)
    ensures r.Got? ==> pos <= r.next <= |buf|
  {
    match wireType
    case 0 =>
      var (_, next) :- VarintAt(buf, pos, MAX_VARINT_BYTES);
      Got((), next)
    case 1 => if pos + 8 > |buf| then Bad(PrematureEof) else Got((), pos + 8)
    case 2 =>
      var (_, next) :- BytesAt(buf, pos);
      Got((), next)
    case 5 => if pos + 4 > |buf| then Bad(PrematureEof) else Got((), pos + 4)
    case _ => Bad(UnskippableWireType)
  }

  // ---------- Writers ----------

  function Varint(v: nat): (b: bytes) {
    if v < 128 then [v] else [128 + v % 128] + Varint(v / 128)
  }

  /** int32: a negative value is sign-extended to 64 bits first. */
  function Int32Bytes(i: int32): bytes {
    Varint(if i < 0 then i + TWO_64 else i)
  }

  function BoolBytes(b: bool): bytes { Varint(if b then 1 else 0) }

  /** A length prefix and the bytes it announces. */
  function Delimited(b: bytes): bytes { Varint(|b|) + b }

  // ---------- The grammar of well-formed bytes ----------

  /** One to `budget` bytes, every one but the last with its top bit set. */
  predicate IsVarint(b: bytes, budget: nat) {
    && 1 <= |b| <= budget
    && b[|b| - 1] < 128
    && forall i :: 0 <= i < |b| - 1 ==> b[i] >= 128
  }

  /** The little-endian base-128 number spelled by the low seven bits. */
  function VarintValue(b: bytes): nat {
    if b == [] then 0 else b[0] % 128 + 128 * VarintValue(b[1..])
  }

  /** `b` splits after `k` bytes into a varint and a body of the length it
      gives. */
  predicate IsDelimited(b: bytes, k: nat) {
    && k <= |b|
    && IsVarint(b[..k], MAX_VARINT_BYTES)
    && VarintValue(b[..k]) % TWO_32 == |b| - k
  }

  /** A payload that a reader can skip, for each wire type that has one. */
  ghost predicate IsPayload(wireType: nat, b: bytes) {
    match wireType
    case 0 => IsVarint(b, MAX_VARINT_BYTES)
    case 1 => |b| == 8
    case 2 => exists k: nat :: IsDelimited(b, k)
    case 5 => |b| == 4
    case _ => false
  }

  // ---------- Reading is exactly recognising the grammar ----------

  lemma {:induction false} VarintReads(buf: bytes, pos: nat, b: bytes, budget: nat)
    requires IsVarint(b, budget) && At(buf, pos, b)
    ensures VarintAt(buf, pos, budget) == Got(VarintValue(b), pos + |b|)
    decreases budget
  {
    assert b[0] == buf[pos];
    if |b| == 1 {
      assert VarintValue(b[1..]) == 0;
    } else {
      assert At(buf, pos + 1, b[1..]) by {
        assert buf[pos + 1..pos + |b|] == buf[pos..pos + |b|][1..];
      }
      VarintReads(buf, pos + 1, b[1..], budget - 1);
    }
  }

  lemma {:induction false} VarintReadOnlyIf(buf: bytes, pos: nat, budget: nat)
    requires VarintAt(buf, pos, budget).Got?
    ensures var r := VarintAt(buf, pos, budget);
            IsVarint(buf[pos..r.next], budget) && VarintValue(buf[pos..r.next]) == r.value
    decreases budget
  {
    var r := VarintAt(buf, pos, budget);
    var b := buf[pos..r.next];
    if buf[pos] < 128 {
      assert b[1..] == [];
    } else {
      VarintReadOnlyIf(buf, pos + 1, budget - 1);
      assert b[1..] == buf[pos + 1..r.next];
      assert forall i :: 1 <= i < |b| ==> b[i] == b[1..][i - 1];
    }
  }

  lemma SliceTwice(buf: bytes, i: nat, j: nat, k: nat, l: nat)
    requires i <= j <= |buf| && k <= l <= j - i
    ensures buf[i..j][k..l] == buf[i + k..i + l]
  {
    assert |buf[i..j][k..l]| == l - k == |buf[i + k..i + l]|;
    assert forall n :: 0 <= n < l - k ==> buf[i..j][k..l][n] == buf[i + k + n] == buf[i + k..i + l][n];
  }

  lemma {:induction false} VarintTooLong(buf: bytes, pos: nat, budget: nat)
    requires pos + budget <= |buf| && forall i :: pos <= i < pos + budget ==> buf[i] >= 128
    ensures VarintAt(buf, pos, budget) == Bad(InvalidVarint)
    decreases budget
  {
    if budget > 0 { VarintTooLong(buf, pos + 1, budget - 1); }
  }

  /** Ten bytes that all announce another one are refused, whatever is read. */
  lemma TenBytesAtMost(buf: bytes, pos: nat)
    requires pos + 10 <= |buf| && forall i :: pos <= i < pos + 10 ==> buf[i] >= 128
    ensures UInt32At(buf, pos) == Bad(InvalidVarint) && Int32At(buf, pos) == Bad(InvalidVarint)
    ensures BoolAt(buf, pos) == Bad(InvalidVarint) && BytesAt(buf, pos) == Bad(InvalidVarint)
    ensures SkipAt(buf, pos, 0) == Bad(InvalidVarint)
  {
    VarintTooLong(buf, pos, 10);
  }

  /** Length-delimited: the read succeeds on every delimited run, wherever it
      stands. */
  lemma DelimitedReads(buf: bytes, pos: nat, b: bytes, k: nat)
    requires IsDelimited(b, k) && At(buf, pos, b)
    ensures BytesAt(buf, pos) == Got(b[k..], pos + |b|)
    ensures UInt32At(buf, pos) == Got(|b| - k, pos + k)
  {
    SliceTwice(buf, pos, pos + |b|, 0, k);
    SliceTwice(buf, pos, pos + |b|, k, |b|);
    VarintReads(buf, pos, b[..k], MAX_VARINT_BYTES);
  }

  lemma DelimitedReadOnlyIf(buf: bytes, pos: nat) returns (k: nat)
    requires BytesAt(buf, pos).Got?
    ensures var r := BytesAt(buf, pos);
            IsDelimited(buf[pos..r.next], k) && buf[pos..r.next][k..] == r.value
  {
    var r := BytesAt(buf, pos);
    var start := UInt32At(buf, pos).next;
    VarintReadOnlyIf(buf, pos, MAX_VARINT_BYTES);
    k := start - pos;
    assert buf[pos..r.next][..k] == buf[pos..start];
  }

  /** A payload is skipped, to its last byte and no further, exactly when it is
      well formed. */
  lemma SkipExact(buf: bytes, pos: nat, wireType: nat, b: bytes)
    requires At(buf, pos, b)
    ensures IsPayload(wireType, b) <==> SkipAt(buf, pos, wireType) == Got((), pos + |b|)
  {
    if wireType == 0 {
      if IsPayload(wireType, b) { VarintReads(buf, pos, b, MAX_VARINT_BYTES); }
      if VarintAt(buf, pos, MAX_VARINT_BYTES).Got? { VarintReadOnlyIf(buf, pos, MAX_VARINT_BYTES); }
    } else if wireType == 2 {
      if k: nat :| IsDelimited(b, k) { DelimitedReads(buf, pos, b, k); }
      if BytesAt(buf, pos).Got? {
        var k := DelimitedReadOnlyIf(buf, pos);
        assert IsDelimited(buf[pos..BytesAt(buf, pos).next], k);
      }
    }
  }

  // ---------- Writing stays inside the grammar ----------

  function Pow128(k: nat): nat { if k == 0 then 1 else 128 * Pow128(k - 1) }

  lemma VarintGrows(low: byte, rest: bytes, budget: nat)
    requires low >= 128 && IsVarint(rest, budget)
    ensures IsVarint([low] + rest, budget + 1)
    ensures VarintValue([low] + rest) == low - 128 + 128 * VarintValue(rest)
  {
    var b := [low] + rest;
    assert b[1..] == rest;
    assert forall i :: 1 <= i < |b| ==> b[i] == rest[i - 1];
  }

  /** A varint that fits `k` groups of seven bits is written in at most `k`
      bytes and denotes what was written. */
  lemma {:induction false} VarintWritten(v: nat, k: nat)
    requires k >= 1 && v < Pow128(k)
    ensures IsVarint(Varint(v), k) && VarintValue(Varint(v)) == v
    decreases k
  {
    if v < 128 {
      assert VarintValue([v][1..]) == 0;
    } else {
      assert k >= 2 by { assert Pow128(1) == 128 * Pow128(0); }
      VarintWritten(v / 128, k - 1);
      VarintGrows(128 + v % 128, Varint(v / 128), k - 1);
    }
  }

  lemma {:induction false} VarintValueFits(b: bytes)
    ensures VarintValue(b) < Pow128(|b|)
    decreases |b|
  {
    if b != [] { VarintValueFits(b[1..]); }
  }

  /** No spelling of a number is shorter than the one written. */
  lemma VarintShortest(v: nat, b: bytes, budget: nat)
    requires IsVarint(b, budget) && VarintValue(b) == v
    ensures |Varint(v)| <= |b|
  {
    VarintValueFits(b);
    VarintWritten(v, |b|);
  }

  lemma VarintWritten64(v: nat)
    requires v < TWO_64
    ensures IsVarint(Varint(v), MAX_VARINT_BYTES) && VarintValue(Varint(v)) == v
  {
    assert Pow128(10) == 0x40_0000_0000_0000_0000 by {
      assert Pow128(5) == 0x8_0000_0000;
    }
    VarintWritten(v, 10);
  }

  lemma DelimitedWritten(b: bytes)
    requires |b| < TWO_32
    ensures IsDelimited(Delimited(b), |Varint(|b|)|)
    ensures Delimited(b)[|Varint(|b|)|..] == b
  {
    VarintWritten64(|b|);
    assert Delimited(b)[..|Varint(|b|)|] == Varint(|b|);
  }

  /** Read after write of any int32, in any surrounding buffer: the value comes
      back and exactly the written bytes are consumed. */
  lemma Int32RoundTrip(buf: bytes, pos: nat, i: int32)
    requires At(buf, pos, Int32Bytes(i))
    ensures Int32At(buf, pos) == Got(i, pos + |Int32Bytes(i)|)
  {
    Int32Written(i);
    VarintReads(buf, pos, Int32Bytes(i), MAX_VARINT_BYTES);
  }

  /** Truncating the 64-bit sign extension to 32 bits undoes it. */
  lemma SignExtension(i: int32)
    ensures Signed32(if i < 0 then i + TWO_64 else i) == i
  {
    if i < 0 {
      assert i + TWO_64 == (i + TWO_32) + 0xFFFF_FFFF * TWO_32;
    }
  }

  lemma Int32Written(i: int32)
    ensures IsVarint(Int32Bytes(i), MAX_VARINT_BYTES)
    ensures Signed32(VarintValue(Int32Bytes(i))) == i
    ensures VarintValue(Int32Bytes(i)) == if i < 0 then 0x1_0000_0000_0000_0000 + i else i
  {
    VarintWritten64(if i < 0 then i + TWO_64 else i);
    SignExtension(i);
  }

  lemma {:induction false} VarintLength(v: nat, k: nat)
    requires k >= 1 && v < Pow128(k) && (k > 1 ==> Pow128(k - 1) <= v)
    ensures |Varint(v)| == k
    decreases k
  {
    if k > 1 {
      assert 128 <= v by { Pow128Positive(k - 2); }
      VarintLength(v / 128, k - 1);
    } else {
      assert Pow128(1) == 128 * Pow128(0);
    }
  }

  lemma {:induction false} Pow128Positive(k: nat)
    ensures Pow128(k) >= 1
  {
    if k > 0 { Pow128Positive(k - 1); }
  }

  /** Every negative int32 takes ten bytes; a nonnegative one at most five. */
  lemma Int32Width(i: int32)
    ensures if i < 0 then |Int32Bytes(i)| == 10 else |Int32Bytes(i)| <= 5
  {
    assert Pow128(5) == 0x8_0000_0000;
    if i < 0 {
      assert Pow128(9) == 0x8000_0000_0000_0000;
      assert Pow128(10) == 0x40_0000_0000_0000_0000;
      VarintLength(i + TWO_64, 10);
    } else {
      VarintWritten(i, 5);
    }
  }
}
