/** The grammars of the two messages with submessages, on the bytes: what an
    embedded task's payload spells is said by the task grammar again. */
module Embedded {
  import opened Wire
  import opened Records
  import opened Dispatch
  import opened Scalars
  import opened Codecs
  import opened Messages
  import opened Nested
  import opened Decoders
  import opened Grammars

  ghost function TaskGrammar(): Grammar<Scalar> { FlatGrammar(TASK_KINDS) }

  lemma TaskRecognised()
    ensures Recognises(TaskSchema(), ScalarCases(TASK_KINDS), TaskGrammar()) && Local(TaskSchema())
  {
    FlatDescribed(TASK_KINDS);
    ScalarsLocal(TASK_KINDS);
    TaskSound();
  }

  /** For every byte sequence, malformed or not, and every window, what the task
      decoder accepts and answers. */
  lemma TaskAcceptsExactly(buf: bytes, pos: nat, end: nat, m: ParserTask, next: nat)
    requires pos <= |buf|
    ensures DecodedTask(buf, pos, end) == Got(m, next) <==>
            SpellsMessage(TaskSchema(), TaskGrammar(), BASE_TASK, buf, pos, end, m, next)
  {
    TaskRecognised();
    GrammarAccepts(TaskSchema(), ScalarCases(TASK_KINDS), TaskGrammar(), BASE_TASK, buf, pos, end, m, next);
  }

  // ---------- A submessage's payload ----------

  /** `b` is a length of `n` in its first `k` bytes, and a submessage that its
      own codec reads from there, with `n` bytes of room, to the end of `b`. */
  ghost predicate SubSpellsAt<P>(c: SubCodec<P>, b: bytes, p: P, k: nat, n: uint32) {
    k <= |b| && IsTag(b[..k], n) && c.decode(b, k, k + n) == Got(p, |b|)
  }

  ghost predicate SubSpells<P>(c: SubCodec<P>, b: bytes, p: P) {
    exists k: nat, n: uint32 :: SubSpellsAt(c, b, p, k, n)
  }

  /** Wherever the payload stands, it reads so. */
  ghost predicate SubDenotes<P>(c: SubCodec<P>, b: bytes, p: P) {
    forall buf, pos: nat :: At(buf, pos, b) ==> SubAt(c, buf, pos) == Got(p, pos + |b|)
  }

  lemma SubSpelled<P(!new)>(c: SubCodec<P>, b: bytes, p: P)
    requires MovesForward(c) && Moves(c)
    ensures SubDenotes(c, b, p) <==> SubSpells(c, b, p)
  {
    assert At(b, 0, b);
    if SubDenotes(c, b, p) {
      assert SubAt(c, b, 0) == Got(p, |b|);
      var Got(n, k) := UInt32At(b, 0);
      TagRead(b, 0);
      assert b[0..k] == b[..k];
      assert SubSpellsAt(c, b, p, k, n);
    }
    if k: nat, n: uint32 :| SubSpellsAt(c, b, p, k, n) {
      assert At(b, 0, b[..k]);
      TagReads(b, 0, b[..k], n);
      forall buf, pos: nat | At(buf, pos, b) ensures SubAt(c, buf, pos) == Got(p, pos + |b|) {
        assert b[0..|b|] == b;
        SubMoves(c, b, 0, buf, pos);
      }
    }
  }

  /** An embedded task's payload: a length in any varint spelling, then bytes
      that by the task grammar spell records folding to `t`. */
  ghost predicate TaskPayloadAt(b: bytes, t: ParserTask, k: nat, n: uint32) {
    && k <= |b|
    && IsTag(b[..k], n)
    && SpellsMessage(TaskSchema(), TaskGrammar(), BASE_TASK, b, k, k + n, t, |b|)
  }

  ghost predicate TaskPayload(b: bytes, t: ParserTask) {
    exists k: nat, n: uint32 :: TaskPayloadAt(b, t, k, n)
  }

  lemma TaskPayloadSpelled(b: bytes, t: ParserTask)
    ensures TaskPayload(b, t) <==> SubSpells(TaskCodec(), b, t)
  {
    forall k: nat, n: uint32 ensures TaskPayloadAt(b, t, k, n) <==> SubSpellsAt(TaskCodec(), b, t, k, n) {
      if k <= |b| { TaskAcceptsExactly(b, k, k + n, t, |b|); }
    }
  }

  // ---------- ParserTaskList ----------

  ghost predicate ListPayload<P>(page: SubCodec<P>, tag: uint32, b: bytes, v: ListItem<P>) {
    match v
    case TaskItem(t) => tag == 10 && TaskPayload(b, t)
    case PageItem(p) => tag == 18 && SubSpells(page, b, p)
  }

  ghost function ListGrammar<P>(page: SubCodec<P>): Grammar<ListItem<P>> {
    Grammar((tag: uint32) => tag == 10 || tag == 18,
            (tag: uint32, b: bytes, v: ListItem<P>) => ListPayload(page, tag, b, v))
  }

  lemma ListDenotes<P(!new)>(task: SubCodec<ParserTask>, page: SubCodec<P>, tag: uint32, b: bytes, v: ListItem<P>)
    requires tag == 10 || tag == 18
    ensures Denotes(ListCases(task, page), tag, b, v) <==>
            match v
            case TaskItem(t) => tag == 10 && SubDenotes(task, b, t)
            case PageItem(p) => tag == 18 && SubDenotes(page, b, p)
  {
    var c := ListCases(task, page);
    assert At(b, 0, b);
    if Denotes(c, tag, b, v) {
      assert c.read(tag, b, 0) == Got(v, |b|);
      forall buf, pos: nat | At(buf, pos, b)
        ensures v.TaskItem? ==> SubAt(task, buf, pos) == Got(v.task, pos + |b|)
        ensures v.PageItem? ==> SubAt(page, buf, pos) == Got(v.page, pos + |b|)
      {
        assert c.read(tag, buf, pos) == Got(v, pos + |b|);
      }
    }
  }

  /** The list's switch reads exactly what the list grammar spells, inside the
      embedded tasks too. */
  lemma ListDescribed<P(!new)>(page: SubCodec<P>)
    requires Lawful(page)
    ensures Describes(ListGrammar(page), ListCases(TaskCodec(), page))
  {
    var g, c := ListGrammar(page), ListCases(TaskCodec(), page);
    TaskCodecLawful();
    forall tag, b, v ensures DescribesAt(g, c, tag, b, v) {
      if c.knows(tag) {
        ListDenotes(TaskCodec(), page, tag, b, v);
        match v {
          case TaskItem(t) =>
            SubSpelled(TaskCodec(), b, t);
            TaskPayloadSpelled(b, t);
          case PageItem(p) =>
            SubSpelled(page, b, p);
        }
      }
    }
  }

  lemma ListRecognised<P(!new)>(page: SubCodec<P>)
    requires Lawful(page)
    ensures Recognises(ListSchema(TaskCodec(), page), ListCases(TaskCodec(), page), ListGrammar(page))
    ensures Local(ListSchema(TaskCodec(), page))
  {
    TaskCodecLawful();
    ListDescribed(page);
    ListReadsLocal(TaskCodec(), page);
    ListLocal(TaskCodec(), page);
  }

  // ---------- ListParserTasksRequest ----------

  ghost predicate RequestPayload<P>(page: SubCodec<P>, tag: uint32, b: bytes, v: RequestItem<P>) {
    match v
    case PageArg(p) => tag == 10 && SubSpells(page, b, p)
    case UserArg(s) => tag == 18 && IsScalar(b, Text(s))
  }

  ghost function RequestGrammar<P>(page: SubCodec<P>): Grammar<RequestItem<P>> {
    Grammar((tag: uint32) => tag == 10 || tag == 18,
            (tag: uint32, b: bytes, v: RequestItem<P>) => RequestPayload(page, tag, b, v))
  }

  /** What a string field's payload reads as, wherever it stands. */
  ghost predicate TextDenotes(b: bytes, s: bytes) {
    forall buf, pos: nat :: At(buf, pos, b) ==> BytesAt(buf, pos) == Got(s, pos + |b|)
  }

  lemma TextSpelled(b: bytes, s: bytes)
    ensures TextDenotes(b, s) <==> IsScalar(b, Text(s))
  {
    assert At(b, 0, b);
    if TextDenotes(b, s) {
      assert BytesAt(b, 0) == Got(s, |b|);
      var k := DelimitedReadOnlyIf(b, 0);
      assert b[0..|b|] == b;
    }
    if k: nat :| IsDelimited(b, k) && b[k..] == s {
      forall buf, pos: nat | At(buf, pos, b) ensures BytesAt(buf, pos) == Got(s, pos + |b|) {
        DelimitedReads(buf, pos, b, k);
      }
    }
  }

  lemma RequestDenotes<P(!new)>(page: SubCodec<P>, tag: uint32, b: bytes, v: RequestItem<P>)
    requires tag == 10 || tag == 18
    ensures Denotes(RequestCases(page), tag, b, v) <==>
            match v
            case PageArg(p) => tag == 10 && SubDenotes(page, b, p)
            case UserArg(s) => tag == 18 && TextDenotes(b, s)
  {
    var c := RequestCases(page);
    assert At(b, 0, b);
    if Denotes(c, tag, b, v) {
      assert c.read(tag, b, 0) == Got(v, |b|);
      forall buf, pos: nat | At(buf, pos, b)
        ensures v.PageArg? ==> SubAt(page, buf, pos) == Got(v.page, pos + |b|)
        ensures v.UserArg? ==> BytesAt(buf, pos) == Got(v.userId, pos + |b|)
      {
        assert c.read(tag, buf, pos) == Got(v, pos + |b|);
      }
    }
  }

  lemma RequestRecognised<P(!new)>(page: SubCodec<P>)
    requires Lawful(page)
    ensures Recognises(RequestSchema(page), RequestCases(page), RequestGrammar(page)) && Local(RequestSchema(page))
  {
    var g, c := RequestGrammar(page), RequestCases(page);
    forall tag, b, v ensures DescribesAt(g, c, tag, b, v) {
      if c.knows(tag) {
        RequestDenotes(page, tag, b, v);
        match v {
          case PageArg(p) => SubSpelled(page, b, p);
          case UserArg(s) => TextSpelled(b, s);
        }
      }
    }
    RequestReadsLocal(page);
    RequestLocal(page);
  }
}
