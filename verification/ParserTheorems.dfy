/** What the encoders and decoders of the parser service promise together. */
module ParserTheorems {
  import opened Options
  import opened Wire
  import opened Records
  import opened Dispatch
  import opened Scalars
  import opened Codecs
  import opened Messages
  import opened Nested
  import opened BinaryIO
  import opened Decoders
  import opened Encoders
  import opened Grammars
  import opened Embedded

  // ---------- Round trips ----------

  lemma ListRoundTripWith<P(!new)>(task: SubCodec<ParserTask>, page: SubCodec<P>, m: ParserTaskList<P>,
                                   b: bytes, buf: bytes, pos: nat)
    requires Lawful(task) && Lawful(page) && ListFits(task, page, m)
    requires b == Encoded(ListMessage(task, page), m) && At(buf, pos, b)
    ensures DecodedListWith(task, page, buf, pos, pos + |b|) == Got(m, pos + |b|)
  {
    ListSound(task, page);
    RoundTrip(ListMessage(task, page), m, buf, pos);
  }

  lemma ListLoopIs<P(!new)>(page: SubCodec<P>, buf: bytes, pos: nat, end: nat)
    requires Lawful(page)
    ensures Lawful(TaskCodec()) && DecodedList(page, buf, pos, end) == DecodedListWith(TaskCodec(), page, buf, pos, end)
  {
    TaskCodecLawful();
  }

  /** A nested list comes back whole: the same tasks in the same order, the same
      pagination or none, and the reader ends where the bytes do. */
  lemma ListRoundTrip<P(!new)>(page: SubCodec<P>, m: ParserTaskList<P>, buf: bytes, pos: nat)
    requires Lawful(page) && ListFits(TaskCodec(), page, m)
    requires At(buf, pos, EncodedList(page, m))
    ensures var next := pos + |EncodedList(page, m)|;
            DecodedList(page, buf, pos, next) == Got(m, next)
  {
    var b := EncodedList(page, m);
    ListLoopIs(page, buf, pos, pos + |b|);
    ListRoundTripWith(TaskCodec(), page, m, b, buf, pos);
  }

  /** responseSerialize, then responseDeserialize: the message arrives exactly
      when every length the encoder must write is a uint32. */
  method TransmitList<P(!new)>(page: SubCodec<P>, m: ParserTaskList<P>) returns (r: Result<ParserTaskList<P>>)
    requires Lawful(page)
    ensures r == if ListFits(TaskCodec(), page, m) then Ok(m) else Err(LengthOverflow)
  {
    var w := new BinaryWriter();
    var written := EncodeList(page, m, w);
    if written.Err? { return Err(LengthOverflow); }
    var reader := new BinaryReader(w.buf);
    assert At(reader.buf, 0, w.buf);
    ListRoundTrip(page, m, reader.buf, 0);
    r := DecodeList(page, reader, None);
  }

  /** An update arrives with absent, zero and false told apart in all three
      fields. */
  method TransmitUpdate(m: UpdateParserSettingsRequest) returns (r: Result<UpdateParserSettingsRequest>)
    ensures r == Ok(m)
  {
    var w := new BinaryWriter();
    var written := EncodeUpdate(m, w);
    var reader := new BinaryReader(w.buf);
    assert At(reader.buf, 0, w.buf);
    UpdateSound();
    RoundTrip(UpdateMessage(), m, reader.buf, 0);
    r := DecodeUpdate(reader, None);
  }

  /** Settings arrive whole, although defaults are not written. */
  method TransmitSettings(m: ParserSettings) returns (r: Result<ParserSettings>)
    ensures r == Ok(m)
  {
    var w := new BinaryWriter();
    var written := EncodeSettings(m, w);
    var reader := new BinaryReader(w.buf);
    assert At(reader.buf, 0, w.buf);
    SettingsSound();
    RoundTrip(SettingsMessage(), m, reader.buf, 0);
    r := DecodeSettings(reader, None);
  }

  /** A list request arrives with its pagination or without. */
  method TransmitRequest<P(!new)>(page: SubCodec<P>, m: ListParserTasksRequest<P>)
      returns (r: Result<ListParserTasksRequest<P>>)
    requires Lawful(page)
    ensures r == if RequestFits(page, m) then Ok(m) else Err(LengthOverflow)
  {
    var w := new BinaryWriter();
    var written := EncodeRequest(page, m, w);
    if written.Err? { return Err(LengthOverflow); }
    var reader := new BinaryReader(w.buf);
    assert At(reader.buf, 0, w.buf);
    RequestSound(page);
    RoundTrip(RequestMessage(page), m, reader.buf, 0);
    r := DecodeRequest(page, reader, None);
  }

  /** The all-default task, and no other, is encoded as no bytes. */
  lemma OnlyDefaultTaskIsEmpty(t: ParserTask)
    requires TaskFits(t)
    ensures EncodedTask(t) == [] <==> t == BASE_TASK
  {
    TaskSound();
    if EncodedTask(t) == [] {
      assert EncodedTask(BASE_TASK) == [];
      EncodedInjective(TaskMessage(), t, BASE_TASK);
    }
  }

  /** Absent, zero and false stay three different things in an update; in the
      settings the default is what is not written. */
  lemma PresencePreserved(u: UpdateParserSettingsRequest, u': UpdateParserSettingsRequest,
                          c: ParserSettings, c': ParserSettings)
    ensures Encoded(UpdateMessage(), u) == Encoded(UpdateMessage(), u') <==> u == u'
    ensures Encoded(SettingsMessage(), c) == Encoded(SettingsMessage(), c') <==> c == c'
    ensures Encoded(UpdateMessage(), u) == [] <==> u == BASE_UPDATE
    ensures Encoded(SettingsMessage(), c) == [] <==> c == BASE_SETTINGS
  {
    UpdateSound();
    SettingsSound();
    assert Encoded(UpdateMessage(), BASE_UPDATE) == [];
    assert Encoded(SettingsMessage(), BASE_SETTINGS) == [];
    if Encoded(UpdateMessage(), u) == Encoded(UpdateMessage(), u') { EncodedInjective(UpdateMessage(), u, u'); }
    if Encoded(SettingsMessage(), c) == Encoded(SettingsMessage(), c') { EncodedInjective(SettingsMessage(), c, c'); }
    if Encoded(UpdateMessage(), u) == [] { EncodedInjective(UpdateMessage(), u, BASE_UPDATE); }
    if Encoded(SettingsMessage(), c) == [] { EncodedInjective(SettingsMessage(), c, BASE_SETTINGS); }
  }

  // ---------- Decoding, on the bytes ----------

  /** For every byte sequence, malformed or not, and every window, what the list
      decoder accepts and answers: bytes that spell records by the list grammar,
      in whose task records the task grammar spells the tasks. */
  lemma ListAcceptsExactly<P(!new)>(page: SubCodec<P>, buf: bytes, pos: nat, end: nat,
                                    m: ParserTaskList<P>, next: nat)
    requires Lawful(page) && pos <= |buf|
    ensures DecodedList(page, buf, pos, end) == Got(m, next) <==>
            SpellsMessage(ListSchema(TaskCodec(), page), ListGrammar(page), BaseList(), buf, pos, end, m, next)
  {
    ListRecognised(page);
    GrammarAccepts(ListSchema(TaskCodec(), page), ListCases(TaskCodec(), page), ListGrammar(page), BaseList(),
                   buf, pos, end, m, next);
  }

  /** The same for the list request. */
  lemma RequestAcceptsExactly<P(!new)>(page: SubCodec<P>, buf: bytes, pos: nat, end: nat,
                                       m: ListParserTasksRequest<P>, next: nat)
    requires Lawful(page) && pos <= |buf|
    ensures DecodedRequest(page, buf, pos, end) == Got(m, next) <==>
            SpellsMessage(RequestSchema(page), RequestGrammar(page), BaseRequest(), buf, pos, end, m, next)
  {
    RequestRecognised(page);
    GrammarAccepts(RequestSchema(page), RequestCases(page), RequestGrammar(page), BaseRequest(),
                   buf, pos, end, m, next);
  }

  lemma TaskDependsOnFieldsOnly(rs: seq<Rec<Scalar>>, buf: bytes, pos: nat,
                                rs': seq<Rec<Scalar>>, buf': bytes, pos': nat)
    requires AllWellFormed(TaskGrammar(), rs) && At(buf, pos, Bytes(rs))
    requires AllWellFormed(TaskGrammar(), rs') && At(buf', pos', Bytes(rs'))
    requires forall tag: uint32 :: Values(rs, tag) == Values(rs', tag)
    ensures var m := Fold(TaskSchema(), BASE_TASK, rs);
            && DecodesTo(TaskSchema(), BASE_TASK, buf, pos, |Bytes(rs)|, m)
            && DecodesTo(TaskSchema(), BASE_TASK, buf', pos', |Bytes(rs')|, m)
  {
    TaskRecognised();
    TaskLaws(0);
    DependsOnFieldsOnly(TaskSchema(), ScalarCases(TASK_KINDS), TaskGrammar(), BASE_TASK,
                        rs, buf, pos, rs', buf', pos');
  }

  lemma ListDependsOnFieldsOnly<P(!new)>(page: SubCodec<P>, rs: seq<Rec<ListItem<P>>>, buf: bytes, pos: nat,
                                         rs': seq<Rec<ListItem<P>>>, buf': bytes, pos': nat)
    requires Lawful(page)
    requires AllWellFormed(ListGrammar(page), rs) && At(buf, pos, Bytes(rs))
    requires AllWellFormed(ListGrammar(page), rs') && At(buf', pos', Bytes(rs'))
    requires forall tag: uint32 :: Values(rs, tag) == Values(rs', tag)
    ensures var m := Fold(ListSchema(TaskCodec(), page), BaseList(), rs);
            && DecodesTo(ListSchema(TaskCodec(), page), BaseList(), buf, pos, |Bytes(rs)|, m)
            && DecodesTo(ListSchema(TaskCodec(), page), BaseList(), buf', pos', |Bytes(rs')|, m)
  {
    ListRecognised(page);
    ListCommutes(TaskCodec(), page);
    DependsOnFieldsOnly(ListSchema(TaskCodec(), page), ListCases(TaskCodec(), page), ListGrammar(page), BaseList(),
                        rs, buf, pos, rs', buf', pos');
  }

  /** Last one wins, for every field of ParserTask. */
  lemma TaskLastWins(a: seq<Rec<Scalar>>, r: Rec<Scalar>, b: seq<Rec<Scalar>>, buf: bytes, pos: nat)
    requires AllWellFormed(TaskGrammar(), a + [r] + b) && At(buf, pos, Bytes(a + [r] + b))
    requires r.field.Some? && Values(b, r.tag) != []
    ensures DecodesTo(TaskSchema(), BASE_TASK, buf, pos, |Bytes(a + [r] + b)|, Fold(TaskSchema(), BASE_TASK, a + b))
  {
    TaskRecognised();
    DecodesToFold(TaskSchema(), ScalarCases(TASK_KINDS), TaskGrammar(), BASE_TASK, a + [r] + b, buf, pos);
    TaskLaws(r.tag);
    LastWins(TaskSchema(), BASE_TASK, a, r, b);
  }

  // ---------- Inside an embedded task ----------

  /** A task record of a list: a tag, a length, and the task's own records. */
  function TaskRecordBytes(tagBytes: bytes, lengthBytes: bytes, rs: seq<Rec<Scalar>>): bytes {
    tagBytes + (lengthBytes + Bytes(rs))
  }

  /** Well-formed task records behind their length are a payload of the list
      grammar. */
  lemma RecordsArePayload(lengthBytes: bytes, rs: seq<Rec<Scalar>>)
    requires AllWellFormed(TaskGrammar(), rs)
    requires |Bytes(rs)| < TWO_32 && IsTag(lengthBytes, |Bytes(rs)|)
    ensures TaskPayload(lengthBytes + Bytes(rs), Fold(TaskSchema(), BASE_TASK, rs))
  {
    var k, n := |lengthBytes|, |Bytes(rs)|;
    var b, t := lengthBytes + Bytes(rs), Fold(TaskSchema(), BASE_TASK, rs);
    assert b[..k] == lengthBytes && At(b, k, Bytes(rs));
    TaskRecognised();
    WindowSpelled(TaskSchema(), ScalarCases(TASK_KINDS), TaskGrammar(), rs, b, k);
    assert TaskPayloadAt(b, t, k, n);
  }

  /** The list with task `t` between the records `a` and `b`. */
  ghost function ListAround<P(!new)>(page: SubCodec<P>, a: seq<Rec<ListItem<P>>>, t: ParserTask,
                                     b: seq<Rec<ListItem<P>>>): ParserTaskList<P> {
    var s := ListSchema(TaskCodec(), page);
    var before := Fold(s, BaseList(), a);
    Fold(s, before.(tasks := before.tasks + [t]), b)
  }

  /** A list with a task record spelled in any way decodes to the list with that
      task in its place. */
  lemma TaskRecordDecodes<P(!new)>(page: SubCodec<P>, a: seq<Rec<ListItem<P>>>, b: seq<Rec<ListItem<P>>>,
                                   tagBytes: bytes, lengthBytes: bytes, rs: seq<Rec<Scalar>>, buf: bytes, pos: nat)
    requires Lawful(page) && AllWellFormed(ListGrammar(page), a) && AllWellFormed(ListGrammar(page), b)
    requires IsTag(tagBytes, 10) && AllWellFormed(TaskGrammar(), rs)
    requires |Bytes(rs)| < TWO_32 && IsTag(lengthBytes, |Bytes(rs)|)
    requires At(buf, pos, Bytes(a) + TaskRecordBytes(tagBytes, lengthBytes, rs) + Bytes(b))
    ensures DecodesTo(ListSchema(TaskCodec(), page), BaseList(), buf, pos,
                      |Bytes(a) + TaskRecordBytes(tagBytes, lengthBytes, rs) + Bytes(b)|,
                      ListAround(page, a, Fold(TaskSchema(), BASE_TASK, rs), b))
  {
    var s, t := ListSchema(TaskCodec(), page), Fold(TaskSchema(), BASE_TASK, rs);
    var r: Rec<ListItem<P>> := Rec(10, TaskRecordBytes(tagBytes, lengthBytes, rs), Some(TaskItem(t)));
    RecordsArePayload(lengthBytes, rs);
    FieldIsWellFormed(ListGrammar(page), 10, tagBytes, lengthBytes + Bytes(rs), TaskItem(t));
    assert WellFormed(ListGrammar(page), r);
    FoldAround(s, BaseList(), a, r, b);
    ListRecognised(page);
    DecodesToFold(s, ListCases(TaskCodec(), page), ListGrammar(page), BaseList(), a + [r] + b, buf, pos);
  }

  /** Order independence and forward compatibility inside a list's task: two
      spellings of one of its tasks whose records have the same values per known
      field in the same order give the same list, whatever unknown records stand
      inside the task and however long that makes it. */
  lemma ListDependsOnTaskFieldsOnly<P(!new)>(page: SubCodec<P>, a: seq<Rec<ListItem<P>>>, b: seq<Rec<ListItem<P>>>,
                                             tagBytes: bytes,
                                             length: bytes, rs: seq<Rec<Scalar>>, buf: bytes, pos: nat,
                                             length': bytes, rs': seq<Rec<Scalar>>, buf': bytes, pos': nat)
    requires Lawful(page) && AllWellFormed(ListGrammar(page), a) && AllWellFormed(ListGrammar(page), b)
    requires IsTag(tagBytes, 10) && AllWellFormed(TaskGrammar(), rs) && AllWellFormed(TaskGrammar(), rs')
    requires |Bytes(rs)| < TWO_32 && IsTag(length, |Bytes(rs)|)
    requires |Bytes(rs')| < TWO_32 && IsTag(length', |Bytes(rs')|)
    requires forall tag: uint32 :: Values(rs, tag) == Values(rs', tag)
    requires At(buf, pos, Bytes(a) + TaskRecordBytes(tagBytes, length, rs) + Bytes(b))
    requires At(buf', pos', Bytes(a) + TaskRecordBytes(tagBytes, length', rs') + Bytes(b))
    ensures var s := ListSchema(TaskCodec(), page);
            var m := ListAround(page, a, Fold(TaskSchema(), BASE_TASK, rs), b);
            && DecodesTo(s, BaseList(), buf, pos,
                         |Bytes(a) + TaskRecordBytes(tagBytes, length, rs) + Bytes(b)|, m)
            && DecodesTo(s, BaseList(), buf', pos',
                         |Bytes(a) + TaskRecordBytes(tagBytes, length', rs') + Bytes(b)|, m)
  {
    TaskRecordDecodes(page, a, b, tagBytes, length, rs, buf, pos);
    TaskRecordDecodes(page, a, b, tagBytes, length', rs', buf', pos');
    TaskLaws(0);
    FoldReordered(TaskSchema(), BASE_TASK, rs, rs');
  }

  // ---------- Concatenation ----------

  /** Concatenated encodings decode as the second message's records folded onto
      the first message. */
  lemma Concatenation<M(!new), V>(t: Message<M, V>, m: M, m': M, buf: bytes, pos: nat)
    requires Sound(t) && t.fits(m) && t.fits(m') && At(buf, pos, Encoded(t, m) + Encoded(t, m'))
    ensures DecodesTo(t.schema, t.base, buf, pos, |Encoded(t, m) + Encoded(t, m')|, Fold(t.schema, m, t.records(m')))
  {
    var a, b := t.records(m), t.records(m');
    assert LaidDown(t, m) && LaidDown(t, m');
    BytesConcat(a, b);
    RunWindow(t.schema, t.base, a + b, buf, pos);
    FoldConcat(t.schema, t.base, a, b);
  }

  /** Concatenated lists merge: tasks are appended, and a second pagination
      replaces the first. */
  lemma ListConcatenation<P(!new)>(page: SubCodec<P>, l: ParserTaskList<P>, l': ParserTaskList<P>, buf: bytes, pos: nat)
    requires Lawful(page) && ListFits(TaskCodec(), page, l) && ListFits(TaskCodec(), page, l')
    requires At(buf, pos, EncodedList(page, l) + EncodedList(page, l'))
    ensures DecodesTo(ListSchema(TaskCodec(), page), BaseList(), buf, pos,
                      |EncodedList(page, l) + EncodedList(page, l')|,
                      ParserTaskList(l.tasks + l'.tasks, if l'.pagination.Some? then l'.pagination else l.pagination))
  {
    TaskCodecLawful();
    ListSound(TaskCodec(), page);
    Concatenation(ListMessage(TaskCodec(), page), l, l', buf, pos);
    ListFolds(TaskCodec(), page, l, l');
  }

  // ---------- Where a window is not a boundary ----------

  lemma DefaultTaskItem<P>(task: SubCodec<ParserTask>, page: SubCodec<P>, buf: bytes, pos: nat, next: nat)
    requires UInt32At(buf, pos) == Got(10, pos + 1)
    requires SubAt(task, buf, pos + 1) == Got(BASE_TASK, next)
    ensures ListSchema(task, page).scan(buf, pos) == Got(Item(10, Some(TaskItem(BASE_TASK))), next)
  {}

  lemma TwoItems<P>(task: SubCodec<ParserTask>, page: SubCodec<P>, buf: bytes, mid: nat, end: nat)
    requires Forward(ListSchema(task, page)) && 0 < mid < end
    requires ListSchema(task, page).scan(buf, 0) == Got(Item(10, Some(TaskItem(BASE_TASK))), mid)
    requires ListSchema(task, page).scan(buf, mid) == Got(Item(10, Some(TaskItem(BASE_TASK))), end)
    ensures Run(ListSchema(task, page), BaseList(), buf, 0, end)
         == Got(ParserTaskList([BASE_TASK, BASE_TASK], None), end)
  {
    var s := ListSchema(task, page);
    var m1, m2 := BaseList<P>().(tasks := [BASE_TASK]), BaseList<P>().(tasks := [BASE_TASK, BASE_TASK]);
    assert Update(s, BaseList(), 10, Some(TaskItem(BASE_TASK))) == m1;
    assert Update(s, m1, 10, Some(TaskItem(BASE_TASK))) == m2;
    assert Run(s, m1, buf, mid, end) == Run(s, m2, buf, end, end);
  }

  /** A list of one task record, whose three bytes of task begin with a stop
      tag. */
  const SPLIT_WINDOW: bytes := [10, 3, 0, 10, 0]

  lemma SplitWindowReads()
    ensures var buf := SPLIT_WINDOW;
            && UInt32At(buf, 0) == Got(10, 1) && UInt32At(buf, 1) == Got(3, 2) && UInt32At(buf, 2) == Got(0, 3)
            && UInt32At(buf, 3) == Got(10, 4) && UInt32At(buf, 4) == Got(0, 5)
  {}

  lemma SplitWindowTasks()
    ensures SubAt(TaskCodec(), SPLIT_WINDOW, 1) == Got(BASE_TASK, 3)
    ensures SubAt(TaskCodec(), SPLIT_WINDOW, 4) == Got(BASE_TASK, 5)
  {
    TaskForward();
    SplitWindowReads();
    assert TaskSchema().scan(SPLIT_WINDOW, 2) == Got(Stop, 3);
  }

  /** A stop tag inside a malformed task ends the task's loop before its window
      does, and the list's loop goes on inside the window: here one task record
      of three bytes decodes as two tasks. */
  lemma StopTagSplitsWindow<P(!new)>(page: SubCodec<P>)
    requires Lawful(page)
    ensures DecodedList(page, SPLIT_WINDOW, 0, 5) == Got(ParserTaskList([BASE_TASK, BASE_TASK], None), 5)
  {
    TaskCodecLawful();
    ListForward(TaskCodec(), page);
    SplitWindowReads();
    SplitWindowTasks();
    DefaultTaskItem(TaskCodec(), page, SPLIT_WINDOW, 0, 3);
    DefaultTaskItem(TaskCodec(), page, SPLIT_WINDOW, 3, 5);
    TwoItems(TaskCodec(), page, SPLIT_WINDOW, 3, 5);
  }
}
