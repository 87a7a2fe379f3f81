/** The scanner the generated decoders share: read a tag, dispatch on it, and
    skip by wire type what the switch does not know. A record grammar says on
    the bytes alone, without the scanner, what it recognises. */
module Dispatch {
  import opened Options
  import opened Wire
  import opened Records

  /** The cases of one message's switch. */
  datatype Cases<!V> = Cases(knows: uint32 -> bool, read: (uint32, bytes, nat) -> Read<V>)

  predicate StopTag(tag: uint32) { tag % 8 == 4 || tag == 0 }

  function ItemAt<V>(c: Cases<V>, buf: bytes, pos: nat): Read<Item<V>> {
    var (tag, p) :- UInt32At(buf, pos);
    if c.knows(tag) then
      var (v, next) :- c.read(tag, buf, p);
      Got(Item(tag, Some(v)), next)
    else if StopTag(tag) then Got(Stop, p)
    else
      var (_, next) :- SkipAt(buf, p, tag % 8);
      Got(Item(tag, None), next)
  }

  function Scanner<V>(c: Cases<V>): (bytes, nat) -> Read<Item<V>> {
    (buf: bytes, pos: nat) => ItemAt(c, buf, pos)
  }

  /** `payload` reads as `v`, to its last byte, wherever it stands. */
  ghost predicate Denotes<V>(c: Cases<V>, tag: uint32, payload: bytes, v: V) {
    forall buf, pos: nat :: At(buf, pos, payload) ==> c.read(tag, buf, pos) == Got(v, pos + |payload|)
  }

  /** Reading a field never moves backwards or past the buffer. */
  ghost predicate ReadsForward<V>(c: Cases<V>) {
    forall tag, buf, pos: nat :: c.read(tag, buf, pos).Got? ==> pos <= c.read(tag, buf, pos).next <= |buf|
  }

  ghost predicate ReadLocal<V>(c: Cases<V>, tag: uint32, buf: bytes, pos: nat) {
    var r := c.read(tag, buf, pos);
    r.Got? && pos <= r.next <= |buf| ==> Denotes(c, tag, buf[pos..r.next], r.value)
  }

  /** What a field reads as depends on the bytes it consumed and nothing else. */
  ghost predicate ReadsLocal<V>(c: Cases<V>) {
    ReadsForward(c) && forall tag, buf, pos: nat :: ReadLocal(c, tag, buf, pos)
  }

  // ---------- The grammar ----------

  /** Any varint spelling of the tag's low 32 bits. */
  predicate IsTag(b: bytes, tag: uint32) {
    IsVarint(b, MAX_VARINT_BYTES) && VarintValue(b) % TWO_32 == tag
  }

  /** The fields of a message, and which bytes spell which value of a field. */
  datatype Grammar<!V> = Grammar(knows: uint32 -> bool, payload: (uint32, bytes, V) -> bool)

  /** A record split after `k` bytes into a tag and a payload: a known field's
      payload spells its value, any other has a payload of its wire type. */
  ghost predicate WellFormedAt<V>(g: Grammar<V>, r: Rec<V>, k: nat) {
    && k <= |r.bytes|
    && IsTag(r.bytes[..k], r.tag)
    && match r.field
       case Some(v) => g.knows(r.tag) && g.payload(r.tag, r.bytes[k..], v)
       case None => !g.knows(r.tag) && r.tag % 8 != 4 && r.tag != 0 && IsPayload(r.tag % 8, r.bytes[k..])
  }

  ghost predicate WellFormed<V>(g: Grammar<V>, r: Rec<V>) {
    exists k: nat :: WellFormedAt(g, r, k)
  }

  ghost predicate IsStop<V>(g: Grammar<V>, b: bytes) {
    exists tag :: IsTag(b, tag) && (tag % 8 == 4 || tag == 0) && !g.knows(tag)
  }

  /** The grammar a switch has by its own reading. */
  ghost function Denoted<V>(c: Cases<V>): Grammar<V> {
    Grammar(c.knows, (tag: uint32, payload: bytes, v: V) => Denotes(c, tag, payload, v))
  }

  ghost predicate DescribesAt<V>(g: Grammar<V>, c: Cases<V>, tag: uint32, payload: bytes, v: V) {
    c.knows(tag) ==> (g.payload(tag, payload, v) <==> Denotes(c, tag, payload, v))
  }

  /** `g` says on the bytes what the switch `c` reads. */
  ghost predicate Describes<V(!new)>(g: Grammar<V>, c: Cases<V>) {
    && (forall tag :: g.knows(tag) == c.knows(tag))
    && forall tag, payload, v :: DescribesAt(g, c, tag, payload, v)
  }

  lemma DescribedAlike<V(!new)>(g: Grammar<V>, c: Cases<V>, r: Rec<V>)
    requires Describes(g, c)
    ensures WellFormed(g, r) <==> WellFormed(Denoted(c), r)
  {
    forall k: nat ensures WellFormedAt(g, r, k) <==> WellFormedAt(Denoted(c), r, k) {
      if k <= |r.bytes| && r.field.Some? {
        assert DescribesAt(g, c, r.tag, r.bytes[k..], r.field.value);
      }
    }
  }

  // ---------- Scanning is exactly recognising the grammar ----------

  lemma ScannerForward<M, V>(s: Schema<M, V>, c: Cases<V>)
    requires s.scan == Scanner(c) && ReadsForward(c)
    ensures Forward(s)
  {}

  lemma TagReads(buf: bytes, pos: nat, b: bytes, tag: uint32)
    requires IsTag(b, tag) && At(buf, pos, b)
    ensures UInt32At(buf, pos) == Got(tag, pos + |b|)
  {
    VarintReads(buf, pos, b, MAX_VARINT_BYTES);
  }

  lemma TagRead(buf: bytes, pos: nat)
    requires UInt32At(buf, pos).Got?
    ensures var r := UInt32At(buf, pos); IsTag(buf[pos..r.next], r.value)
  {
    VarintReadOnlyIf(buf, pos, MAX_VARINT_BYTES);
  }

  lemma PayloadScans<V>(c: Cases<V>, r: Rec<V>, k: nat, buf: bytes, pos: nat, p: nat)
    requires WellFormedAt(Denoted(c), r, k) && At(buf, p, r.bytes[k..])
    requires UInt32At(buf, pos) == Got(r.tag, p)
    ensures ItemAt(c, buf, pos) == Got(Item(r.tag, r.field), p + |r.bytes| - k)
  {
    if r.field.None? {
      SkipExact(buf, p, r.tag % 8, r.bytes[k..]);
    }
  }

  lemma WellFormedScans<M, V>(s: Schema<M, V>, c: Cases<V>, r: Rec<V>, k: nat)
    requires s.scan == Scanner(c) && WellFormedAt(Denoted(c), r, k)
    ensures IsRecord(s, r)
  {
    assert r.bytes == r.bytes[..k] + r.bytes[k..];
    forall buf, pos: nat | At(buf, pos, r.bytes)
      ensures s.scan(buf, pos) == Got(Item(r.tag, r.field), pos + |r.bytes|)
    {
      AtSplit(buf, pos, r.bytes[..k], r.bytes[k..]);
      TagReads(buf, pos, r.bytes[..k], r.tag);
      PayloadScans(c, r, k, buf, pos, pos + k);
    }
  }

  lemma TagWritten(tag: uint32)
    ensures IsTag(Varint(tag), tag)
  {
    VarintWritten64(tag);
  }

  lemma FieldIsWellFormed<V>(g: Grammar<V>, tag: uint32, tagBytes: bytes, payload: bytes, v: V)
    requires IsTag(tagBytes, tag) && g.knows(tag) && g.payload(tag, payload, v)
    ensures WellFormedAt(g, Rec(tag, tagBytes + payload, Some(v)), |tagBytes|)
  {
    assert (tagBytes + payload)[..|tagBytes|] == tagBytes;
    assert (tagBytes + payload)[|tagBytes|..] == payload;
  }

  lemma FieldScans<M, V>(s: Schema<M, V>, c: Cases<V>, tag: uint32, payload: bytes, v: V)
    requires s.scan == Scanner(c) && c.knows(tag) && Denotes(c, tag, payload, v)
    ensures IsRecord(s, Rec(tag, Varint(tag) + payload, Some(v)))
  {
    TagWritten(tag);
    FieldIsWellFormed(Denoted(c), tag, Varint(tag), payload, v);
    WellFormedScans(s, c, Rec(tag, Varint(tag) + payload, Some(v)), |Varint(tag)|);
  }

  /** The bytes an item was scanned from are well formed. */
  lemma ScannedIsWellFormed<V>(c: Cases<V>, buf: bytes, pos: nat)
    requires ReadsLocal(c) && ItemAt(c, buf, pos).Got?
    ensures var Got(item, next) := ItemAt(c, buf, pos);
            && pos < next <= |buf|
            && match item
               case Stop => IsStop(Denoted(c), buf[pos..next])
               case Item(tag, field) => WellFormed(Denoted(c), Rec(tag, buf[pos..next], field))
  {
    var Got(tag, p) := UInt32At(buf, pos);
    var Got(item, next) := ItemAt(c, buf, pos);
    TagRead(buf, pos);
    assert ReadLocal(c, tag, buf, p);
    var r := Rec(tag, buf[pos..next], if item.Item? then item.field else None);
    assert buf[pos..next][..p - pos] == buf[pos..p];
    assert buf[pos..next][p - pos..] == buf[p..next];
    if item.Item? {
      if item.field.None? {
        SkipExact(buf, p, tag % 8, buf[p..next]);
      }
      assert WellFormedAt(Denoted(c), r, p - pos);
    }
  }

  lemma StopScans<M, V>(s: Schema<M, V>, c: Cases<V>, b: bytes)
    requires s.scan == Scanner(c) && IsStop(Denoted(c), b)
    ensures Scans(s, b, Stop)
  {
    var tag :| IsTag(b, tag) && StopTag(tag) && !c.knows(tag);
    forall buf, pos: nat | At(buf, pos, b) ensures s.scan(buf, pos) == Got(Stop, pos + |b|) {
      TagReads(buf, pos, b, tag);
    }
  }

  lemma ItemLocal<M, V>(s: Schema<M, V>, c: Cases<V>, buf: bytes, pos: nat)
    requires s.scan == Scanner(c) && ReadsLocal(c) && ItemAt(c, buf, pos).Got?
    ensures ScanLocal(s, buf, pos)
  {
    ScannedIsWellFormed(c, buf, pos);
    var Got(item, next) := ItemAt(c, buf, pos);
    if item.Stop? {
      StopScans(s, c, buf[pos..next]);
    } else {
      var r := Rec(item.tag, buf[pos..next], item.field);
      var k: nat :| WellFormedAt(Denoted(c), r, k);
      WellFormedScans(s, c, r, k);
    }
  }

  lemma ScannerLocal<M, V>(s: Schema<M, V>, c: Cases<V>)
    requires s.scan == Scanner(c) && ReadsLocal(c)
    ensures Local(s)
  {
    ScannerForward(s, c);
    forall buf, pos: nat ensures ScanLocal(s, buf, pos) {
      if ItemAt(c, buf, pos).Got? { ItemLocal(s, c, buf, pos); }
    }
  }

  /** The scanner of a switch that the grammar describes. */
  ghost predicate Recognises<M, V(!new)>(s: Schema<M, V>, c: Cases<V>, g: Grammar<V>) {
    s.scan == Scanner(c) && ReadsLocal(c) && Describes(g, c)
  }

  /** The record grammar is complete: what scans as a record is well formed, and
      what is well formed scans as a record. */
  lemma RecordGrammar<M, V(!new)>(s: Schema<M, V>, c: Cases<V>, g: Grammar<V>, r: Rec<V>)
    requires Recognises(s, c, g)
    ensures IsRecord(s, r) <==> WellFormed(g, r)
  {
    DescribedAlike(g, c, r);
    if k: nat :| WellFormedAt(Denoted(c), r, k) { WellFormedScans(s, c, r, k); }
    if IsRecord(s, r) {
      assert At(r.bytes, 0, r.bytes);
      assert s.scan(r.bytes, 0) == Got(Item(r.tag, r.field), |r.bytes|);
      ScannedIsWellFormed(c, r.bytes, 0);
      assert r.bytes[0..|r.bytes|] == r.bytes;
      assert Rec(r.tag, r.bytes, r.field) == r;
    }
  }

  lemma StopGrammar<M, V(!new)>(s: Schema<M, V>, c: Cases<V>, g: Grammar<V>, b: bytes)
    requires Recognises(s, c, g)
    ensures Scans(s, b, Stop) <==> IsStop(g, b)
  {
    assert IsStop(g, b) <==> IsStop(Denoted(c), b);
    if IsStop(Denoted(c), b) { StopScans(s, c, b); }
    if Scans(s, b, Stop) {
      assert At(b, 0, b);
      assert s.scan(b, 0) == Got(Stop, |b|);
      ScannedIsWellFormed(c, b, 0);
      assert b[0..|b|] == b;
    }
  }

  /** One iteration of the loop, once its tag is read: a known field is read and
      applied, a stop tag ends the loop, anything else is skipped. */
  lemma RunTagged<M, V>(s: Schema<M, V>, c: Cases<V>, m: M, buf: bytes, pos: nat, end: nat)
    requires s.scan == Scanner(c) && Forward(s) && pos < end && UInt32At(buf, pos).Got?
    ensures var Got(tag, p) := UInt32At(buf, pos);
            var read, skip := c.read(tag, buf, p), SkipAt(buf, p, tag % 8);
            Run(s, m, buf, pos, end)
            == if c.knows(tag) then
                 if read.Got? then Run(s, s.apply(m, tag, read.value), buf, read.next, end) else Bad(read.error)
               else if tag % 8 == 4 || tag == 0 then Got(m, p)
               else if skip.Got? then Run(s, m, buf, skip.next, end) else Bad(skip.error)
  {}
}
