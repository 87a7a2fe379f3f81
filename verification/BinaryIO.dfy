/** The reader and the writer the generated code drives: a position that moves
    over a fixed buffer, and a buffer that grows. */
module BinaryIO {
  import opened Wire

  datatype Result<+T> = Ok(value: T) | Err(error: WireError) {
    predicate IsFailure() { Err? }

    function PropagateFailure<U>(): Result<U>
      requires Err?
    {
      Err(error)
    }

    function Extract(): T
      requires Ok?
    {
      value
    }
  }

  /** The method answered as the reading function does, and left the reader at
      its next position. A failed read abandons the reader. */
  ghost predicate Answers<T>(r: Result<T>, read: Read<T>, pos: nat) {
    match read
    case Got(v, next) => r == Ok(v) && pos == next
    case Bad(e) => r == Err(e)
  }

  class BinaryReader {
    const buf: bytes
    var pos: nat

    constructor (b: bytes)
      ensures buf == b && pos == 0
    {
      buf, pos := b, 0;
    }

    /** A base-128 varint, byte by byte: seven bits each, the low group first. */
    method Varint() returns (r: Result<nat>)
      modifies this
      ensures Answers(r, VarintAt(buf, old(pos), MAX_VARINT_BYTES), pos)
    {
      var value: nat, scale: nat, room: nat := 0, 1, MAX_VARINT_BYTES;
      while room > 0
        invariant VarintAt(buf, old(pos), MAX_VARINT_BYTES) == Onward(value, scale, VarintAt(buf, pos, room))
      {
        if pos >= |buf| { return Err(PrematureEof); }
        var b: nat := buf[pos];
        Regroup(value, scale, b, VarintAt(buf, pos + 1, room - 1));
        pos := pos + 1;
        value := value + b % 128 * scale;
        if b < 128 { return Ok(value); }
        scale, room := 128 * scale, room - 1;
      }
      return Err(InvalidVarint);
    }

    method UInt32() returns (r: Result<uint32>)
      modifies this
      ensures Answers(r, UInt32At(buf, old(pos)), pos)
    {
      var v :- Varint();
      return Ok(v % TWO_32);
    }

    method Int32() returns (r: Result<int32>)
      modifies this
      ensures Answers(r, Int32At(buf, old(pos)), pos)
    {
      var v :- Varint();
      return Ok(Signed32(v));
    }

    method Bool() returns (r: Result<bool>)
      modifies this
      ensures Answers(r, BoolAt(buf, old(pos)), pos)
    {
      var v :- Varint();
      return Ok(v % TWO_64 != 0);
    }

    /** A length, then that many bytes. */
    method String() returns (r: Result<bytes>)
      modifies this
      ensures Answers(r, BytesAt(buf, old(pos)), pos)
    {
      var length :- UInt32();
      var start := pos;
      var _ :- Advance(length);
      return Ok(buf[start..pos]);
    }

    method Skip(wireType: nat) returns (r: Result<()>)
      modifies this
      ensures Answers(r, SkipAt(buf, old(pos), wireType), pos)
    {
      match wireType {
        case 0 =>
          var _ :- Varint();
          return Ok(());
        case 1 => r := Advance(8);
        case 2 =>
          var length :- UInt32();
          r := Advance(length);
        case 5 => r := Advance(4);
        case _ => return Err(UnskippableWireType);
      }
    }

    method Advance(n: nat) returns (r: Result<()>)
      modifies this
      ensures r == if old(pos) + n > |buf| then Err(PrematureEof) else Ok(())
      ensures pos == if r.Ok? then old(pos) + n else old(pos)
    {
      if pos + n > |buf| { return Err(PrematureEof); }
      pos := pos + n;
      return Ok(());
    }
  }

  /** The whole varint, once `value` has been gathered below `scale` and `rest`
      is still to come. */
  function Onward(value: nat, scale: nat, rest: Read<nat>): Read<nat> {
    match rest
    case Got(v, next) => Got(value + scale * v, next)
    case Bad(e) => Bad(e)
  }

  lemma Regroup(value: nat, scale: nat, b: byte, rest: Read<nat>)
    ensures rest.Got? && b >= 128 ==>
            value + scale * (b - 128 + 128 * rest.value) == (value + b % 128 * scale) + 128 * scale * rest.value
    ensures b < 128 ==> value + scale * b == value + b % 128 * scale
  {
    if rest.Got? && b >= 128 {
      var low := b - 128;
      assert b % 128 == low;
      Spread(scale, low, rest.value);
    }
  }

  lemma Spread(scale: nat, low: nat, rest: nat)
    ensures scale * (low + 128 * rest) == low * scale + 128 * scale * rest
  {
    assert scale * (low + 128 * rest) == scale * low + scale * (128 * rest);
  }

  function Lift<T>(read: Read<T>): Result<(T, nat)> {
    match read
    case Got(v, next) => Ok((v, next))
    case Bad(e) => Err(e)
  }

  /** `outer` holds the buffers set aside by fork(). A length that is not a
      uint32 is refused. */
  class BinaryWriter {
    var buf: bytes
    var outer: seq<bytes>

    constructor ()
      ensures buf == [] && outer == []
    {
      buf, outer := [], [];
    }

    /** A base-128 varint, byte by byte: every byte but the last has its top bit
        set. */
    method Varint(v: nat)
      modifies this`buf
      ensures buf == old(buf) + Wire.Varint(v)
    {
      var rest := v;
      while rest >= 128
        invariant buf + Wire.Varint(rest) == old(buf) + Wire.Varint(v)
      {
        assert buf + ([128 + rest % 128] + Wire.Varint(rest / 128))
            == buf + [128 + rest % 128] + Wire.Varint(rest / 128);
        buf := buf + [128 + rest % 128];
        rest := rest / 128;
      }
      buf := buf + [rest];
    }

    method UInt32(v: nat) returns (r: Result<()>)
      modifies this`buf
      ensures r.Ok? <==> v < TWO_32
      ensures buf == if r.Ok? then old(buf) + Wire.Varint(v) else old(buf)
    {
      if v >= TWO_32 { return Err(LengthOverflow); }
      Varint(v);
      return Ok(());
    }

    method Int32(i: int32)
      modifies this`buf
      ensures buf == old(buf) + Int32Bytes(i)
    {
      Varint(if i < 0 then i + TWO_64 else i);
    }

    method Bool(b: bool)
      modifies this`buf
      ensures buf == old(buf) + BoolBytes(b)
    {
      Varint(if b then 1 else 0);
    }

    /** string(s), and bytes in general. */
    method String(s: bytes) returns (r: Result<()>)
      modifies this`buf
      ensures r.Ok? <==> |s| < TWO_32
      ensures buf == if r.Ok? then old(buf) + Delimited(s) else old(buf)
    {
      var _ :- UInt32(|s|);
      buf := buf + s;
      return Ok(());
    }

    method Fork()
      modifies this
      ensures buf == [] && outer == old(outer) + [old(buf)]
    {
      outer := outer + [buf];
      buf := [];
    }

    method Join() returns (r: Result<()>)
      requires outer != []
      modifies this
      ensures outer == old(outer[..|outer| - 1])
      ensures r.Ok? <==> |old(buf)| < TWO_32
      ensures r.Ok? ==> buf == old(outer[|outer| - 1]) + Delimited(old(buf))
    {
      var inner := buf;
      buf := outer[|outer| - 1];
      outer := outer[..|outer| - 1];
      r := String(inner);
    }
  }
}
