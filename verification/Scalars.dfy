/** Fields that hold a string, an int32 or a bool: the cases of the switches in
    the messages without submessages. A string is its bytes. */
module Scalars {
  import opened Options
  import opened Wire
  import opened Records
  import opened Dispatch

  datatype Kind = KText | KInt32 | KBool

  datatype Scalar = Text(s: bytes) | Int(i: int32) | Flag(b: bool)

  function TextOf(v: Scalar): bytes { if v.Text? then v.s else [] }

  function IntOf(v: Scalar): int32 { if v.Int? then v.i else 0 }

  function FlagOf(v: Scalar): bool { v.Flag? && v.b }

  function KindOf(v: Scalar): Kind {
    match v
    case Text(_) => KText
    case Int(_) => KInt32
    case Flag(_) => KBool
  }

  function ScalarAt(kind: Kind, buf: bytes, pos: nat): Read<Scalar> {
    match kind
    case KText =>
      var (s, next) :- BytesAt(buf, pos);
      Got(Text(s), next)
    case KInt32 =>
      var (i, next) :- Int32At(buf, pos);
      Got(Int(i), next)
    case KBool =>
      var (b, next) :- BoolAt(buf, pos);
      Got(Flag(b), next)
  }

  /** A switch over exactly these tags; a tag outside it is never read. */
  function ScalarCases(kinds: map<uint32, Kind>): Cases<Scalar> {
    Cases(
      (tag: uint32) => tag in kinds,
      (tag: uint32, buf: bytes, pos: nat) =>
        if tag in kinds then ScalarAt(kinds[tag], buf, pos) else Bad(UnskippableWireType))
  }

  // ---------- The grammar of scalar payloads ----------

  ghost predicate IsScalar(payload: bytes, v: Scalar) {
    match v
    case Text(s) => exists k: nat :: IsDelimited(payload, k) && payload[k..] == s
    case Int(i) => IsVarint(payload, MAX_VARINT_BYTES) && Signed32(VarintValue(payload)) == i
    case Flag(b) => IsVarint(payload, MAX_VARINT_BYTES) && (VarintValue(payload) % TWO_64 != 0) == b
  }

  lemma ScalarReads(buf: bytes, pos: nat, payload: bytes, v: Scalar)
    requires IsScalar(payload, v) && At(buf, pos, payload)
    ensures ScalarAt(KindOf(v), buf, pos) == Got(v, pos + |payload|)
  {
    match v
    case Text(s) =>
      var k: nat :| IsDelimited(payload, k) && payload[k..] == s;
      DelimitedReads(buf, pos, payload, k);
    case Int(_) => VarintReads(buf, pos, payload, MAX_VARINT_BYTES);
    case Flag(_) => VarintReads(buf, pos, payload, MAX_VARINT_BYTES);
  }

  lemma ScalarReadOnlyIf(kind: Kind, buf: bytes, pos: nat)
    requires ScalarAt(kind, buf, pos).Got?
    ensures var r := ScalarAt(kind, buf, pos);
            pos < r.next <= |buf| && KindOf(r.value) == kind && IsScalar(buf[pos..r.next], r.value)
  {
    match kind
    case KText =>
      var k := DelimitedReadOnlyIf(buf, pos);
    case KInt32 => VarintReadOnlyIf(buf, pos, MAX_VARINT_BYTES);
    case KBool => VarintReadOnlyIf(buf, pos, MAX_VARINT_BYTES);
  }

  /** For a known tag, the payloads that denote a value are those of the
      grammar, read as the tag's kind. */
  lemma ScalarGrammar(kinds: map<uint32, Kind>, tag: uint32, payload: bytes, v: Scalar)
    requires tag in kinds
    ensures Denotes(ScalarCases(kinds), tag, payload, v) <==> KindOf(v) == kinds[tag] && IsScalar(payload, v)
  {
    var c := ScalarCases(kinds);
    if KindOf(v) == kinds[tag] && IsScalar(payload, v) {
      forall buf, pos: nat | At(buf, pos, payload)
        ensures c.read(tag, buf, pos) == Got(v, pos + |payload|)
      {
        ScalarReads(buf, pos, payload, v);
      }
    }
    if Denotes(c, tag, payload, v) {
      assert At(payload, 0, payload);
      assert c.read(tag, payload, 0) == Got(v, |payload|);
      ScalarReadOnlyIf(kinds[tag], payload, 0);
      assert payload[0..|payload|] == payload;
    }
  }

  /** The grammar of a message whose fields are all scalars. */
  ghost function FlatGrammar(kinds: map<uint32, Kind>): Grammar<Scalar> {
    Grammar(
      (tag: uint32) => tag in kinds,
      (tag: uint32, payload: bytes, v: Scalar) => tag in kinds && KindOf(v) == kinds[tag] && IsScalar(payload, v))
  }

  lemma FlatDescribed(kinds: map<uint32, Kind>)
    ensures Describes(FlatGrammar(kinds), ScalarCases(kinds))
  {
    var g, c := FlatGrammar(kinds), ScalarCases(kinds);
    forall tag, payload, v ensures DescribesAt(g, c, tag, payload, v) {
      if tag in kinds { ScalarGrammar(kinds, tag, payload, v); }
    }
  }

  lemma ScalarsLocal(kinds: map<uint32, Kind>)
    ensures ReadsLocal(ScalarCases(kinds))
  {
    var c := ScalarCases(kinds);
    forall tag, buf, pos: nat
      ensures c.read(tag, buf, pos).Got? ==> pos <= c.read(tag, buf, pos).next <= |buf|
      ensures ReadLocal(c, tag, buf, pos)
    {
      if c.read(tag, buf, pos).Got? {
        ScalarReadOnlyIf(kinds[tag], buf, pos);
        ScalarGrammar(kinds, tag, buf[pos..c.read(tag, buf, pos).next], c.read(tag, buf, pos).value);
      }
    }
  }

  lemma FlatLocal<M>(s: Schema<M, Scalar>, kinds: map<uint32, Kind>)
    requires s.scan == Scanner(ScalarCases(kinds))
    ensures Local(s)
  {
    ScalarsLocal(kinds);
    ScannerLocal(s, ScalarCases(kinds));
  }

  // ---------- Writing ----------

  function ScalarBytes(v: Scalar): bytes {
    match v
    case Text(s) => Delimited(s)
    case Int(i) => Int32Bytes(i)
    case Flag(b) => BoolBytes(b)
  }

  /** The length prefix is a uint32. */
  predicate Fits(v: Scalar) { v.Text? ==> |v.s| < TWO_32 }

  function Field(tag: uint32, v: Scalar): Rec<Scalar> {
    Rec(tag, Varint(tag) + ScalarBytes(v), Some(v))
  }

  function Optional(present: bool, tag: uint32, v: Scalar): seq<Rec<Scalar>> {
    if present then [Field(tag, v)] else []
  }

  lemma ScalarWritten(v: Scalar)
    requires Fits(v)
    ensures IsScalar(ScalarBytes(v), v)
  {
    match v
    case Text(s) =>
      DelimitedWritten(s);
      assert IsDelimited(Delimited(s), |Varint(|s|)|) && Delimited(s)[|Varint(|s|)|..] == s;
    case Int(i) => Int32Written(i);
    case Flag(b) => VarintWritten64(if b then 1 else 0);
  }

  lemma FieldWritten<M>(s: Schema<M, Scalar>, kinds: map<uint32, Kind>, tag: uint32, v: Scalar)
    requires s.scan == Scanner(ScalarCases(kinds))
    requires tag in kinds && kinds[tag] == KindOf(v) && Fits(v)
    ensures IsRecord(s, Field(tag, v))
  {
    ScalarWritten(v);
    ScalarGrammar(kinds, tag, ScalarBytes(v), v);
    FieldScans(s, ScalarCases(kinds), tag, ScalarBytes(v), v);
  }

  lemma OptionalWritten<M>(s: Schema<M, Scalar>, kinds: map<uint32, Kind>, present: bool, tag: uint32, v: Scalar)
    requires s.scan == Scanner(ScalarCases(kinds))
    requires tag in kinds && kinds[tag] == KindOf(v) && Fits(v)
    ensures AreRecords(s, Optional(present, tag, v))
  {
    FieldWritten(s, kinds, tag, v);
  }

  /** Folding one more record, or none. */
  lemma FoldOptional<M>(s: Schema<M, Scalar>, base: M, rs: seq<Rec<Scalar>>, m: M,
                        present: bool, tag: uint32, v: Scalar, m': M)
    requires Fold(s, base, rs) == m
    requires m' == if present then s.apply(m, tag, v) else m
    ensures Fold(s, base, rs + Optional(present, tag, v)) == m'
  {
    FoldConcat(s, base, rs, Optional(present, tag, v));
    assert present ==> [Field(tag, v)][1..] == [];
  }
}
