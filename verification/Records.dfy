/** One decode loop for every message type, seen through a scanner: what the
    loop finds at a position is a stop tag or one record. Everything proved here
    holds for every scanner that moves forward and for every way of updating a
    message. */
module Records {
  import opened Options
  import opened Wire

  /** What one iteration of the loop finds: a stop tag, or a record, which
      carries a value when its field is known. */
  datatype Item<V> = Stop | Item(tag: uint32, field: Option<V>)

  datatype Schema<!M, !V> = Schema(
    scan: (bytes, nat) -> Read<Item<V>>,
    apply: (M, uint32, V) -> M)

  /** Scanning consumes at least one byte and never passes the buffer's end. */
  ghost predicate Forward<M, V>(s: Schema<M, V>) {
    forall buf, pos: nat :: s.scan(buf, pos).Got? ==> pos < s.scan(buf, pos).next <= |buf|
  }

  /** A record's bytes, and the value they carry: None for a record the loop
      skips. */
  datatype Rec<V> = Rec(tag: uint32, bytes: bytes, field: Option<V>)

  function Bytes<V>(rs: seq<Rec<V>>): bytes {
    if rs == [] then [] else rs[0].bytes + Bytes(rs[1..])
  }

  /** `b` scans as `item`, to its last byte, wherever it stands. */
  ghost predicate Scans<M, V>(s: Schema<M, V>, b: bytes, item: Item<V>) {
    b != [] && forall buf, pos: nat :: At(buf, pos, b) ==> s.scan(buf, pos) == Got(item, pos + |b|)
  }

  ghost predicate IsRecord<M, V>(s: Schema<M, V>, r: Rec<V>) {
    Scans(s, r.bytes, Item(r.tag, r.field))
  }

  ghost predicate AreRecords<M, V>(s: Schema<M, V>, rs: seq<Rec<V>>) {
    forall r :: r in rs ==> IsRecord(s, r)
  }

  ghost predicate ScanLocal<M, V>(s: Schema<M, V>, buf: bytes, pos: nat) {
    var r := s.scan(buf, pos);
    r.Got? && pos < r.next <= |buf| ==> Scans(s, buf[pos..r.next], r.value)
  }

  /** What a scan finds depends on the bytes it consumed and nothing else. */
  ghost predicate Local<M, V>(s: Schema<M, V>) {
    Forward(s) && forall buf, pos: nat :: ScanLocal(s, buf, pos)
  }

  function Update<M, V>(s: Schema<M, V>, m: M, tag: uint32, field: Option<V>): M {
    match field
    case Some(v) => s.apply(m, tag, v)
    case None => m
  }

  /** The decode loop from `pos` with the message so far. */
  ghost function Run<M, V>(s: Schema<M, V>, m: M, buf: bytes, pos: nat, end: nat): (r: Read<M>)
    requires Forward(s)
    ensures r.Got? && pos < end ==> pos < r.next <= |buf|
    ensures r.Got? && pos >= end ==> r.next == pos
    decreases |buf| - pos
  {
    if pos >= end then Got(m, pos)
    else
      var (item, next) :- s.scan(buf, pos);
      if item.Stop? then Got(m, next)
      else Run(s, Update(s, m, item.tag, item.field), buf, next, end)
  }

  function ApplyRec<M, V>(s: Schema<M, V>, m: M, r: Rec<V>): M { Update(s, m, r.tag, r.field) }

  /** The left fold of single-field updates. */
  function Fold<M, V>(s: Schema<M, V>, m: M, rs: seq<Rec<V>>): M {
    if rs == [] then m else Fold(s, ApplyRec(s, m, rs[0]), rs[1..])
  }

  /** Every record begins inside the first `room` bytes. */
  predicate Begin<V>(rs: seq<Rec<V>>, room: int) {
    rs == [] || (0 < room && Begin(rs[1..], room - |rs[0].bytes|))
  }

  // ---------- The loop is the fold ----------

  lemma AtSplit(buf: bytes, pos: nat, a: bytes, b: bytes)
    requires At(buf, pos, a + b)
    ensures At(buf, pos, a) && At(buf, pos + |a|, b)
  {
    assert buf[pos..pos + |a|] == buf[pos..pos + |a + b|][..|a|];
    assert buf[pos + |a|..pos + |a| + |b|] == buf[pos..pos + |a + b|][|a|..];
  }

  lemma AtJoin(buf: bytes, pos: nat, a: bytes, b: bytes)
    requires At(buf, pos, a) && At(buf, pos + |a|, b)
    ensures At(buf, pos, a + b)
  {
    assert buf[pos..pos + |a + b|] == buf[pos..pos + |a|] + buf[pos + |a|..pos + |a| + |b|];
  }

  /** Decoding records, then whatever follows, is folding the records and
      carrying on from there. */
  lemma {:induction false} RunRecords<M, V>(s: Schema<M, V>, m: M, rs: seq<Rec<V>>,
                                            buf: bytes, pos: nat, end: nat)
    requires Forward(s) && AreRecords(s, rs) && At(buf, pos, Bytes(rs)) && Begin(rs, end - pos)
    ensures Run(s, m, buf, pos, end) == Run(s, Fold(s, m, rs), buf, pos + |Bytes(rs)|, end)
    decreases |rs|
  {
    if rs != [] {
      AtSplit(buf, pos, rs[0].bytes, Bytes(rs[1..]));
      assert IsRecord(s, rs[0]);
      RunRecords(s, ApplyRec(s, m, rs[0]), rs[1..], buf, pos + |rs[0].bytes|, end);
    }
  }

  lemma {:induction false} BeginAll<M, V>(s: Schema<M, V>, rs: seq<Rec<V>>, room: int)
    requires AreRecords(s, rs) && |Bytes(rs)| <= room
    ensures Begin(rs, room)
    decreases |rs|
  {
    if rs != [] {
      assert IsRecord(s, rs[0]);
      BeginAll(s, rs[1..], room - |rs[0].bytes|);
    }
  }

  /** Framing: a window holding exactly records decodes to their fold and stops
      exactly at the window's end, whatever surrounds it. */
  lemma RunWindow<M, V>(s: Schema<M, V>, m: M, rs: seq<Rec<V>>, buf: bytes, pos: nat)
    requires Forward(s) && AreRecords(s, rs) && At(buf, pos, Bytes(rs))
    ensures Run(s, m, buf, pos, pos + |Bytes(rs)|) == Got(Fold(s, m, rs), pos + |Bytes(rs)|)
  {
    BeginAll(s, rs, |Bytes(rs)|);
    RunRecords(s, m, rs, buf, pos, pos + |Bytes(rs)|);
  }

  // ---------- What the loop accepts, exactly ----------

  /** The bytes from `pos` to `next` are records that each begin before `end`,
      ended by the window's end or by a stop tag. */
  ghost predicate Splits<V>(isRecord: Rec<V> -> bool, isStop: bytes -> bool, buf: bytes, pos: nat, end: nat,
                            rs: seq<Rec<V>>, stop: bytes, next: nat) {
    && (forall r :: r in rs ==> isRecord(r))
    && Begin(rs, end - pos)
    && At(buf, pos, Bytes(rs) + stop)
    && next == pos + |Bytes(rs)| + |stop|
    && if stop == [] then end <= next else pos + |Bytes(rs)| < end && isStop(stop)
  }

  /** They split into what the scanner takes for records and a stop tag. */
  ghost predicate Parse<M, V>(s: Schema<M, V>, buf: bytes, pos: nat, end: nat,
                              rs: seq<Rec<V>>, stop: bytes, next: nat) {
    Splits(r => IsRecord(s, r), b => Scans(s, b, Stop), buf, pos, end, rs, stop, next)
  }

  lemma ParseIsAccepted<M, V>(s: Schema<M, V>, m: M, buf: bytes, pos: nat, end: nat,
                              rs: seq<Rec<V>>, stop: bytes, next: nat)
    requires Forward(s) && Parse(s, buf, pos, end, rs, stop, next)
    ensures Run(s, m, buf, pos, end) == Got(Fold(s, m, rs), next)
  {
    AtSplit(buf, pos, Bytes(rs), stop);
    RunRecords(s, m, rs, buf, pos, end);
  }

  lemma ParseCons<M, V>(s: Schema<M, V>, r: Rec<V>, buf: bytes, pos: nat, end: nat,
                        rs: seq<Rec<V>>, stop: bytes, next: nat)
    requires IsRecord(s, r) && At(buf, pos, r.bytes) && pos < end
    requires Parse(s, buf, pos + |r.bytes|, end, rs, stop, next)
    ensures Parse(s, buf, pos, end, [r] + rs, stop, next)
  {
    assert ([r] + rs)[1..] == rs;
    AtJoin(buf, pos, r.bytes, Bytes(rs) + stop);
    assert Bytes([r] + rs) + stop == r.bytes + (Bytes(rs) + stop);
  }

  /** Every accepted input is records. */
  lemma {:induction false} AcceptedIsParse<M, V>(s: Schema<M, V>, m: M, buf: bytes, pos: nat, end: nat)
      returns (rs: seq<Rec<V>>, stop: bytes)
    requires Local(s) && pos <= |buf| && Run(s, m, buf, pos, end).Got?
    ensures Parse(s, buf, pos, end, rs, stop, Run(s, m, buf, pos, end).next)
    ensures Run(s, m, buf, pos, end).value == Fold(s, m, rs)
    decreases |buf| - pos
  {
    rs, stop := [], [];
    if pos < end {
      var Got(item, next) := s.scan(buf, pos);
      assert ScanLocal(s, buf, pos);
      if item.Stop? {
        stop := buf[pos..next];
        assert Bytes(rs) + stop == stop;
      } else {
        var r := Rec(item.tag, buf[pos..next], item.field);
        rs, stop := AcceptedIsParse(s, ApplyRec(s, m, r), buf, next, end);
        ParseCons(s, r, buf, pos, end, rs, stop, Run(s, m, buf, pos, end).next);
        assert ([r] + rs)[1..] == rs;
        rs := [r] + rs;
      }
    }
  }

  /** The decoder accepts exactly the inputs that parse, and its answer is the
      fold of the parse. */
  lemma AcceptsExactly<M, V>(s: Schema<M, V>, m: M, buf: bytes, pos: nat, end: nat, m': M, next: nat)
    requires Local(s) && pos <= |buf|
    ensures Run(s, m, buf, pos, end) == Got(m', next) <==>
            exists rs, stop :: Parse(s, buf, pos, end, rs, stop, next) && m' == Fold(s, m, rs)
  {
    if Run(s, m, buf, pos, end) == Got(m', next) {
      var rs, stop := AcceptedIsParse(s, m, buf, pos, end);
    }
    forall rs, stop | Parse(s, buf, pos, end, rs, stop, next) && m' == Fold(s, m, rs)
      ensures Run(s, m, buf, pos, end) == Got(m', next)
    {
      ParseIsAccepted(s, m, buf, pos, end, rs, stop, next);
    }
  }

  lemma ParseMoves<M, V>(s: Schema<M, V>, m: M, buf: bytes, pos: nat, end: nat, rs: seq<Rec<V>>, stop: bytes,
                         next: nat, buf': bytes, pos': nat)
    requires Forward(s) && Parse(s, buf, pos, end, rs, stop, next) && pos <= end
    requires At(buf', pos', buf[pos..next])
    ensures Run(s, m, buf', pos', pos' + (end - pos)) == Got(Fold(s, m, rs), pos' + (next - pos))
  {
    assert buf[pos..next] == Bytes(rs) + stop;
    ParseIsAccepted(s, m, buf', pos', pos' + (end - pos), rs, stop, pos' + (next - pos));
  }

  /** The answer depends only on the bytes consumed: the same bytes in another
      buffer, with as much room, give the same answer. */
  lemma RunLocal<M, V>(s: Schema<M, V>, m: M, buf: bytes, pos: nat, end: nat, buf': bytes, pos': nat)
    requires Local(s) && pos <= end && pos <= |buf| && Run(s, m, buf, pos, end).Got?
    requires At(buf', pos', buf[pos..Run(s, m, buf, pos, end).next])
    ensures var r := Run(s, m, buf, pos, end);
            Run(s, m, buf', pos', pos' + (end - pos)) == Got(r.value, pos' + (r.next - pos))
  {
    var rs, stop := AcceptedIsParse(s, m, buf, pos, end);
    ParseMoves(s, m, buf, pos, end, rs, stop, Run(s, m, buf, pos, end).next, buf', pos');
  }

  // ---------- Laws of the fold ----------

  lemma FoldCons<M, V>(s: Schema<M, V>, m: M, r: Rec<V>, rest: seq<Rec<V>>)
    ensures Fold(s, m, [r] + rest) == Fold(s, ApplyRec(s, m, r), rest)
  {
    assert ([r] + rest)[1..] == rest;
  }

  lemma {:induction false} FoldConcat<M, V>(s: Schema<M, V>, m: M, a: seq<Rec<V>>, b: seq<Rec<V>>)
    ensures Fold(s, m, a + b) == Fold(s, Fold(s, m, a), b)
    decreases |a|
  {
    if a == [] {
      assert a + b == b;
    } else {
      assert (a + b)[1..] == a[1..] + b;
      FoldConcat(s, ApplyRec(s, m, a[0]), a[1..], b);
    }
  }

  lemma {:induction false} BytesConcat<V>(a: seq<Rec<V>>, b: seq<Rec<V>>)
    ensures Bytes(a + b) == Bytes(a) + Bytes(b)
    decreases |a|
  {
    if a == [] {
      assert a + b == b;
    } else {
      assert (a + b)[1..] == a[1..] + b;
      BytesConcat(a[1..], b);
    }
  }

  /** Updates of different fields commute. */
  ghost predicate Commutes<M(!new), V(!new)>(s: Schema<M, V>) {
    forall m, t, v, t', v' | t != t' ::
      s.apply(s.apply(m, t, v), t', v') == s.apply(s.apply(m, t', v'), t, v)
  }

  /** A second update of the field replaces the first. */
  ghost predicate Replaces<M(!new), V(!new)>(s: Schema<M, V>, tag: uint32) {
    forall m, v, v' :: s.apply(s.apply(m, tag, v), tag, v') == s.apply(m, tag, v')
  }

  /** The values of one field, in order. */
  function Values<V>(rs: seq<Rec<V>>, tag: uint32): seq<V> {
    if rs == [] then []
    else if rs[0].tag == tag && rs[0].field.Some? then [rs[0].field.value] + Values(rs[1..], tag)
    else Values(rs[1..], tag)
  }

  lemma {:induction false} ValuesConcat<V>(a: seq<Rec<V>>, b: seq<Rec<V>>, tag: uint32)
    ensures Values(a + b, tag) == Values(a, tag) + Values(b, tag)
    decreases |a|
  {
    if a == [] {
      assert a + b == b;
    } else {
      assert (a + b)[1..] == a[1..] + b;
      ValuesConcat(a[1..], b, tag);
    }
  }

  /** A record may be moved in front of records of other fields. */
  lemma {:induction false} MoveToFront<M(!new), V(!new)>(s: Schema<M, V>, m: M, a: seq<Rec<V>>, r: Rec<V>)
    requires Commutes(s) && r.field.Some? && Values(a, r.tag) == []
    ensures Fold(s, m, a + [r]) == Fold(s, ApplyRec(s, m, r), a)
    decreases |a|
  {
    if a == [] {
      assert a + [r] == [r];
      assert [r][1..] == [];
    } else {
      assert (a + [r])[1..] == a[1..] + [r];
      MoveToFront(s, ApplyRec(s, m, a[0]), a[1..], r);
      assert ApplyRec(s, ApplyRec(s, m, a[0]), r) == ApplyRec(s, ApplyRec(s, m, r), a[0]);
    }
  }

  /** The first record of a field that has one. */
  lemma {:induction false} FirstOf<V>(rs: seq<Rec<V>>, tag: uint32) returns (k: nat)
    requires Values(rs, tag) != []
    ensures k < |rs| && rs[k].tag == tag && rs[k].field.Some? && Values(rs[..k], tag) == []
    ensures Values(rs, tag) == [rs[k].field.value] + Values(rs[k + 1..], tag)
    decreases |rs|
  {
    if rs[0].tag == tag && rs[0].field.Some? {
      k := 0;
    } else {
      k := FirstOf(rs[1..], tag);
      assert rs[..k + 1][1..] == rs[1..][..k];
      assert rs[1..][k + 1..] == rs[k + 2..];
      k := k + 1;
    }
  }

  /** Taking out the first record of a field takes its value off the front, and
      leaves every other field alone. */
  lemma ValuesWithout<V>(rs: seq<Rec<V>>, k: nat, tag: uint32)
    requires k < |rs| && rs[k].field.Some? && Values(rs[..k], rs[k].tag) == []
    ensures Values(rs, tag)
         == (if tag == rs[k].tag then [rs[k].field.value] else []) + Values(rs[..k] + rs[k + 1..], tag)
  {
    var front, back := rs[..k], rs[k + 1..];
    assert rs == front + ([rs[k]] + back) && ([rs[k]] + back)[1..] == back;
    ValuesConcat(front, [rs[k]] + back, tag);
    ValuesConcat(front, back, tag);
  }

  /** Order independence: any two record sequences in which every field has the
      same values in the same order fold to the same message. */
  lemma {:induction false} FoldReordered<M(!new), V(!new)>(s: Schema<M, V>, m: M, rs: seq<Rec<V>>, rs': seq<Rec<V>>)
    requires Commutes(s) && forall tag: uint32 :: Values(rs, tag) == Values(rs', tag)
    ensures Fold(s, m, rs) == Fold(s, m, rs')
    decreases |rs| + |rs'|
  {
    if rs == [] {
      NoValues(s, m, rs');
    } else if rs[0].field.None? {
      assert forall tag: uint32 :: Values(rs[1..], tag) == Values(rs, tag);
      FoldReordered(s, m, rs[1..], rs');
    } else {
      var r := rs[0];
      assert Values(rs, r.tag)[0] == r.field.value;
      var k := FirstOf(rs', r.tag);
      var front, back := rs'[..k], rs'[k + 1..];
      assert rs' == (front + [rs'[k]]) + back && rs'[k..][1..] == back;
      assert ApplyRec(s, m, rs'[k]) == ApplyRec(s, m, r);
      MoveToFront(s, m, front, rs'[k]);
      FoldConcat(s, m, front + [rs'[k]], back);
      FoldConcat(s, ApplyRec(s, m, r), front, back);
      forall tag: uint32 ensures Values(rs[1..], tag) == Values(front + back, tag) {
        ValuesWithout(rs', k, tag);
        assert Values(rs, tag) == Values(rs', tag);
        if tag == r.tag {
          assert Values(rs, tag)[1..] == Values(rs[1..], tag);
          assert Values(rs', tag)[1..] == Values(front + back, tag);
        }
      }
      FoldReordered(s, ApplyRec(s, m, r), rs[1..], front + back);
    }
  }

  lemma {:induction false} NoValues<M, V>(s: Schema<M, V>, m: M, rs: seq<Rec<V>>)
    requires forall tag: uint32 :: Values(rs, tag) == []
    ensures Fold(s, m, rs) == m
    decreases |rs|
  {
    if rs != [] {
      assert Values(rs, rs[0].tag) == [];
      assert rs[0].field.None?;
      assert forall tag: uint32 :: Values(rs[1..], tag) == Values(rs, tag);
      NoValues(s, m, rs[1..]);
    }
  }

  /** Last one wins: a record of a replaced field changes nothing when a later
      record of the same field follows. */
  lemma LastWins<M(!new), V(!new)>(s: Schema<M, V>, m: M, a: seq<Rec<V>>, r: Rec<V>, b: seq<Rec<V>>)
    requires Commutes(s) && Replaces(s, r.tag) && r.field.Some? && Values(b, r.tag) != []
    ensures Fold(s, m, a + [r] + b) == Fold(s, m, a + b)
  {
    var k := FirstOf(b, r.tag);
    var front, back := b[..k], b[k + 1..];
    assert b == (front + [b[k]]) + back;
    var m1 := Fold(s, m, a);
    FoldConcat(s, m, a + [r], b);
    FoldConcat(s, m, a, [r]);
    assert [r][1..] == [];
    FoldConcat(s, m, a, b);
    FoldConcat(s, ApplyRec(s, m1, r), front + [b[k]], back);
    FoldConcat(s, m1, front + [b[k]], back);
    MoveToFront(s, ApplyRec(s, m1, r), front, b[k]);
    MoveToFront(s, m1, front, b[k]);
    assert s.apply(s.apply(m1, r.tag, r.field.value), r.tag, b[k].field.value)
        == s.apply(m1, r.tag, b[k].field.value);
  }
}
