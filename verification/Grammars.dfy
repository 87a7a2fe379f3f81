/** What every decode loop does with bytes, said by a grammar on the bytes
    alone. */
module Grammars {
  import opened Options
  import opened Wire
  import opened Records
  import opened Dispatch

  ghost predicate AllWellFormed<V>(g: Grammar<V>, rs: seq<Rec<V>>) {
    forall r :: r in rs ==> WellFormed(g, r)
  }

  lemma WellFormedAreRecords<M, V(!new)>(s: Schema<M, V>, c: Cases<V>, g: Grammar<V>, rs: seq<Rec<V>>)
    requires Recognises(s, c, g)
    ensures AreRecords(s, rs) <==> AllWellFormed(g, rs)
  {
    forall r | r in rs ensures IsRecord(s, r) <==> WellFormed(g, r) {
      RecordGrammar(s, c, g, r);
    }
  }

  // ---------- What a loop accepts ----------

  /** The bytes split into well-formed records and, if the window has not ended,
      an unknown stop tag. */
  ghost predicate Spells<V>(g: Grammar<V>, buf: bytes, pos: nat, end: nat,
                            rs: seq<Rec<V>>, stop: bytes, next: nat) {
    Splits(r => WellFormed(g, r), b => IsStop(g, b), buf, pos, end, rs, stop, next)
  }

  /** Some spelling of these bytes folds to `m`. */
  ghost predicate SpellsMessage<M, V(!new)>(s: Schema<M, V>, g: Grammar<V>, base: M,
                                            buf: bytes, pos: nat, end: nat, m: M, next: nat) {
    exists rs, stop :: Spells(g, buf, pos, end, rs, stop, next) && m == Fold(s, base, rs)
  }

  lemma SpellsIsParse<M, V(!new)>(s: Schema<M, V>, c: Cases<V>, g: Grammar<V>, buf: bytes, pos: nat, end: nat,
                                  rs: seq<Rec<V>>, stop: bytes, next: nat)
    requires Recognises(s, c, g)
    ensures Parse(s, buf, pos, end, rs, stop, next) <==> Spells(g, buf, pos, end, rs, stop, next)
  {
    WellFormedAreRecords(s, c, g, rs);
    StopGrammar(s, c, g, stop);
    assert (forall r :: r in rs ==> IsRecord(s, r)) <==> (forall r :: r in rs ==> WellFormed(g, r));
  }

  /** Every decode loop answers `m` and stops at `next` exactly when the bytes it
      passed spell records that fold to `m`. */
  lemma GrammarAccepts<M, V(!new)>(s: Schema<M, V>, c: Cases<V>, g: Grammar<V>, base: M,
                                   buf: bytes, pos: nat, end: nat, m: M, next: nat)
    requires Recognises(s, c, g) && Local(s) && pos <= |buf|
    ensures Run(s, base, buf, pos, end) == Got(m, next) <==> SpellsMessage(s, g, base, buf, pos, end, m, next)
  {
    AcceptsExactly(s, base, buf, pos, end, m, next);
    if rs, stop :| Parse(s, buf, pos, end, rs, stop, next) && m == Fold(s, base, rs) {
      SpellsIsParse(s, c, g, buf, pos, end, rs, stop, next);
    }
    if rs, stop :| Spells(g, buf, pos, end, rs, stop, next) && m == Fold(s, base, rs) {
      SpellsIsParse(s, c, g, buf, pos, end, rs, stop, next);
    }
  }

  // ---------- Windows of well-formed records ----------

  /** The loop, run on a window of `length` bytes, answers `m` at the window's
      end. */
  ghost predicate DecodesTo<M, V>(s: Schema<M, V>, base: M, buf: bytes, pos: nat, length: nat, m: M) {
    Forward(s) && Run(s, base, buf, pos, pos + length) == Got(m, pos + length)
  }

  lemma WindowSpelled<M, V(!new)>(s: Schema<M, V>, c: Cases<V>, g: Grammar<V>, rs: seq<Rec<V>>, buf: bytes, pos: nat)
    requires Recognises(s, c, g) && AllWellFormed(g, rs) && At(buf, pos, Bytes(rs))
    ensures Spells(g, buf, pos, pos + |Bytes(rs)|, rs, [], pos + |Bytes(rs)|)
  {
    WellFormedAreRecords(s, c, g, rs);
    BeginAll(s, rs, |Bytes(rs)|);
    assert Bytes(rs) + [] == Bytes(rs);
  }

  lemma DecodesToFold<M, V(!new)>(s: Schema<M, V>, c: Cases<V>, g: Grammar<V>, base: M, rs: seq<Rec<V>>,
                                  buf: bytes, pos: nat)
    requires Recognises(s, c, g) && Forward(s)
    requires AllWellFormed(g, rs) && At(buf, pos, Bytes(rs))
    ensures DecodesTo(s, base, buf, pos, |Bytes(rs)|, Fold(s, base, rs))
  {
    WellFormedAreRecords(s, c, g, rs);
    RunWindow(s, base, rs, buf, pos);
  }

  /** Order independence and forward compatibility in one: any two well-formed
      record sequences in which every known field has the same values in the
      same order decode to the same message, whatever their order across fields
      and whatever unknown records stand between them. */
  lemma DependsOnFieldsOnly<M(!new), V(!new)>(s: Schema<M, V>, c: Cases<V>, g: Grammar<V>, base: M,
                                              rs: seq<Rec<V>>, buf: bytes, pos: nat,
                                              rs': seq<Rec<V>>, buf': bytes, pos': nat)
    requires Recognises(s, c, g) && Forward(s) && Commutes(s)
    requires AllWellFormed(g, rs) && At(buf, pos, Bytes(rs))
    requires AllWellFormed(g, rs') && At(buf', pos', Bytes(rs'))
    requires forall tag: uint32 :: Values(rs, tag) == Values(rs', tag)
    ensures var m := Fold(s, base, rs);
            DecodesTo(s, base, buf, pos, |Bytes(rs)|, m) && DecodesTo(s, base, buf', pos', |Bytes(rs')|, m)
  {
    DecodesToFold(s, c, g, base, rs, buf, pos);
    DecodesToFold(s, c, g, base, rs', buf', pos');
    FoldReordered(s, base, rs, rs');
  }

  lemma SkippedIsWellFormed<V>(g: Grammar<V>, tag: uint32, tagBytes: bytes, payload: bytes)
    requires !g.knows(tag) && tag != 0 && IsTag(tagBytes, tag) && IsPayload(tag % 8, payload)
    ensures WellFormed(g, Rec(tag, tagBytes + payload, None))
  {
    var r: Rec<V> := Rec(tag, tagBytes + payload, None);
    assert r.bytes[..|tagBytes|] == tagBytes && r.bytes[|tagBytes|..] == payload;
    assert WellFormedAt(g, r, |tagBytes|);
  }

  /** A record among others: its update comes in its turn. */
  lemma FoldAround<M, V>(s: Schema<M, V>, base: M, a: seq<Rec<V>>, r: Rec<V>, b: seq<Rec<V>>)
    ensures Fold(s, base, a + [r] + b) == Fold(s, ApplyRec(s, Fold(s, base, a), r), b)
    ensures Bytes(a + [r] + b) == Bytes(a) + r.bytes + Bytes(b)
  {
    assert [r][1..] == [];
    BytesConcat(a + [r], b);
    BytesConcat(a, [r]);
    FoldConcat(s, base, a + [r], b);
    FoldConcat(s, base, a, [r]);
  }

  /** Forward compatibility at one boundary: any tag the switch does not know, be
      it an unknown field number or a known one with the wrong wire type, in any
      varint spelling, with any payload of its wire type 0, 1, 2 or 5, may stand
      between any two records. */
  lemma UnknownInserted<M, V(!new)>(s: Schema<M, V>, c: Cases<V>, g: Grammar<V>, base: M,
                                    a: seq<Rec<V>>, b: seq<Rec<V>>,
                                    tag: uint32, tagBytes: bytes, payload: bytes, buf: bytes, pos: nat)
    requires Recognises(s, c, g) && Forward(s)
    requires AllWellFormed(g, a) && AllWellFormed(g, b)
    requires !g.knows(tag) && tag != 0 && IsTag(tagBytes, tag) && IsPayload(tag % 8, payload)
    requires At(buf, pos, Bytes(a) + (tagBytes + payload) + Bytes(b))
    ensures DecodesTo(s, base, buf, pos, |Bytes(a) + (tagBytes + payload) + Bytes(b)|, Fold(s, base, a + b))
  {
    var r: Rec<V> := Rec(tag, tagBytes + payload, None);
    SkippedIsWellFormed(g, tag, tagBytes, payload);
    FoldAround(s, base, a, r, b);
    FoldConcat(s, base, a, b);
    DecodesToFold(s, c, g, base, a + [r] + b, buf, pos);
  }
}
