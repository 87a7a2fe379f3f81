/** A message's encoder and decoder as a pair, and the laws the pair obeys. */
module Codecs {
  import opened Wire
  import opened Records

  /** `decode(buf, pos, end)` runs the submessage's own loop on the shared
      buffer; it may stop before `end`, at a stop tag, or run past it. */
  datatype SubCodec<!P> = SubCodec(
    fits: P -> bool,
    encode: P -> bytes,
    decode: (bytes, nat, nat) -> Read<P>)

  ghost predicate MovesForward<P>(c: SubCodec<P>) {
    forall buf, pos: nat, end: nat :: pos <= |buf| && c.decode(buf, pos, end).Got? ==>
      pos <= c.decode(buf, pos, end).next <= |buf|
  }

  ghost predicate FramesAt<P>(c: SubCodec<P>, p: P, buf: bytes, pos: nat) {
    c.fits(p) && At(buf, pos, c.encode(p)) ==>
      c.decode(buf, pos, pos + |c.encode(p)|) == Got(p, pos + |c.encode(p)|)
  }

  /** Decoding what was encoded gives it back and stops exactly at the end of
      its bytes, in any surrounding buffer. */
  ghost predicate Frames<P(!new)>(c: SubCodec<P>) {
    forall p, buf, pos: nat :: FramesAt(c, p, buf, pos)
  }

  ghost predicate MovesTo<P>(c: SubCodec<P>, buf: bytes, pos: nat, room: nat, buf': bytes, pos': nat) {
    var r := c.decode(buf, pos, pos + room);
    pos <= |buf| && r.Got? && pos <= r.next <= |buf| && At(buf', pos', buf[pos..r.next]) ==>
      c.decode(buf', pos', pos' + room) == Got(r.value, pos' + (r.next - pos))
  }

  /** The same bytes in another buffer, with the same room, decode alike. */
  ghost predicate Moves<P>(c: SubCodec<P>) {
    forall buf, pos: nat, room: nat, buf', pos': nat :: MovesTo(c, buf, pos, room, buf', pos')
  }

  ghost predicate Lawful<P(!new)>(c: SubCodec<P>) {
    MovesForward(c) && Frames(c) && Moves(c)
  }

  // ---------- Every decode loop is a lawful codec ----------

  /** A message type: its decode loop, the message the loop starts from, the
      records its encoder lays down and the messages it can encode. */
  datatype Message<!M, !V> = Message(
    schema: Schema<M, V>,
    base: M,
    fits: M -> bool,
    records: M -> seq<Rec<V>>)

  function Encoded<M, V>(t: Message<M, V>, m: M): bytes { Bytes(t.records(m)) }

  ghost function Decoded<M, V>(t: Message<M, V>, buf: bytes, pos: nat, end: nat): Read<M>
    requires Forward(t.schema)
  {
    Run(t.schema, t.base, buf, pos, end)
  }

  ghost function CodecOf<M, V>(t: Message<M, V>): SubCodec<M>
    requires Forward(t.schema)
  {
    SubCodec(t.fits, m => Encoded(t, m), (buf: bytes, pos: nat, end: nat) => Decoded(t, buf, pos, end))
  }

  /** What the encoder lays down are records, and folding them from the base
      message gives the message back. */
  ghost predicate LaidDown<M, V>(t: Message<M, V>, m: M) {
    t.fits(m) ==> AreRecords(t.schema, t.records(m)) && Fold(t.schema, t.base, t.records(m)) == m
  }

  ghost predicate Sound<M(!new), V>(t: Message<M, V>) {
    Local(t.schema) && forall m :: LaidDown(t, m)
  }

  /** Round trip and framing: a window of any buffer that holds an encoded
      message decodes to the message and ends exactly where the window does. */
  lemma RoundTrip<M(!new), V>(t: Message<M, V>, m: M, buf: bytes, pos: nat)
    requires Sound(t) && t.fits(m) && At(buf, pos, Encoded(t, m))
    ensures Decoded(t, buf, pos, pos + |Encoded(t, m)|) == Got(m, pos + |Encoded(t, m)|)
  {
    assert LaidDown(t, m);
    RunWindow(t.schema, t.base, t.records(m), buf, pos);
  }

  /** Different messages have different encodings. */
  lemma EncodedInjective<M(!new), V>(t: Message<M, V>, m: M, m': M)
    requires Sound(t) && t.fits(m) && t.fits(m') && Encoded(t, m) == Encoded(t, m')
    ensures m == m'
  {
    var b := Encoded(t, m);
    assert At(b, 0, b);
    RoundTrip(t, m, b, 0);
    RoundTrip(t, m', b, 0);
  }

  lemma DecodedMoves<M, V>(t: Message<M, V>, buf: bytes, pos: nat, room: nat, buf': bytes, pos': nat)
    requires Local(t.schema)
    ensures MovesTo(CodecOf(t), buf, pos, room, buf', pos')
  {
    var r := Decoded(t, buf, pos, pos + room);
    if pos <= |buf| && r.Got? && pos <= r.next <= |buf| && At(buf', pos', buf[pos..r.next]) {
      RunLocal(t.schema, t.base, buf, pos, pos + room, buf', pos');
    }
  }

  lemma CodecLawful<M(!new), V>(t: Message<M, V>)
    requires Sound(t)
    ensures Lawful(CodecOf(t))
  {
    var c := CodecOf(t);
    forall buf, pos: nat, room: nat, buf', pos': nat ensures MovesTo(c, buf, pos, room, buf', pos') {
      DecodedMoves(t, buf, pos, room, buf', pos');
    }
    forall m, buf, pos: nat ensures FramesAt(c, m, buf, pos) {
      if t.fits(m) && At(buf, pos, Encoded(t, m)) { RoundTrip(t, m, buf, pos); }
    }
  }
}
