/** The generated encoders, each proved to append its message's records. */
module Encoders {
  import opened Wire
  import opened Records
  import opened Scalars
  import opened Codecs
  import opened Messages
  import opened Nested
  import opened Decoders
  import opened BinaryIO

  lemma Appended(a: bytes, b: bytes, c: bytes)
    ensures a + (b + c) == a + b + c
  {}

  /** `writer.uint32(tag).string(s)`. */
  method PutText(w: BinaryWriter, tag: uint32, s: bytes) returns (r: Result<()>)
    modifies w`buf
    ensures r.Ok? <==> |s| < TWO_32
    ensures r.Ok? ==> w.buf == old(w.buf) + Field(tag, Text(s)).bytes
  {
    Appended(w.buf, Varint(tag), ScalarBytes(Text(s)));
    r := w.UInt32(tag);
    r := w.String(s);
  }

  /** `writer.uint32(tag).int32(i)`. */
  method PutInt(w: BinaryWriter, tag: uint32, i: int32)
    modifies w`buf
    ensures w.buf == old(w.buf) + Field(tag, Int(i)).bytes
  {
    Appended(w.buf, Varint(tag), ScalarBytes(Int(i)));
    var r := w.UInt32(tag);
    w.Int32(i);
  }

  /** `writer.uint32(tag).bool(b)`. */
  method PutFlag(w: BinaryWriter, tag: uint32, b: bool)
    modifies w`buf
    ensures w.buf == old(w.buf) + Field(tag, Flag(b)).bytes
  {
    Appended(w.buf, Varint(tag), ScalarBytes(Flag(b)));
    var r := w.UInt32(tag);
    w.Bool(b);
  }

  /** One `if` of an encoder: the buffer holds the records so far, then one more
      when the field is present. */
  lemma Laid<V>(start: bytes, before: bytes, after: bytes, rs: seq<Rec<V>>, present: bool, r: Rec<V>)
    requires before == start + Bytes(rs)
    requires after == if present then before + r.bytes else before
    ensures after == start + Bytes(rs + if present then [r] else [])
  {
    BytesConcat(rs, [r]);
    assert [r][1..] == [];
    assert Bytes([r]) == r.bytes;
    if !present {
      assert rs + [] == rs;
    }
  }

  method EncodeTaskId(m: ParserTaskIdRequest, w: BinaryWriter) returns (r: Result<()>)
    modifies w`buf
    ensures r.Ok? <==> TaskIdFits(m)
    ensures r.Ok? ==> w.buf == old(w.buf) + Encoded(TaskIdMessage(), m)
  {
    ghost var start, buf := w.buf, w.buf;
    if m.id != [] { var _ :- PutText(w, 10, m.id); }
    Laid(start, buf, w.buf, [], m.id != [], Field(10, Text(m.id)));
    assert [] + Optional(m.id != [], 10, Text(m.id)) == TaskIdRecords(m);
    return Ok(());
  }

  method EncodeCreate(m: CreateParserTaskRequest, w: BinaryWriter) returns (r: Result<()>)
    modifies w`buf
    ensures r.Ok? <==> CreateFits(m)
    ensures r.Ok? ==> w.buf == old(w.buf) + Encoded(CreateMessage(), m)
  {
    ghost var start, buf := w.buf, w.buf;
    ghost var rs: seq<Rec<Scalar>> := [];
    if m.category != [] { var _ :- PutText(w, 10, m.category); }
    Laid(start, buf, w.buf, rs, m.category != [], Field(10, Text(m.category)));
    buf, rs := w.buf, Optional(m.category != [], 10, Text(m.category));
    assert [] + rs == rs;
    if m.dateFrom != [] { var _ :- PutText(w, 18, m.dateFrom); }
    Laid(start, buf, w.buf, rs, m.dateFrom != [], Field(18, Text(m.dateFrom)));
    buf, rs := w.buf, rs + Optional(m.dateFrom != [], 18, Text(m.dateFrom));
    if m.dateTo != [] { var _ :- PutText(w, 26, m.dateTo); }
    Laid(start, buf, w.buf, rs, m.dateTo != [], Field(26, Text(m.dateTo)));
    buf, rs := w.buf, rs + Optional(m.dateTo != [], 26, Text(m.dateTo));
    if m.userId != [] { var _ :- PutText(w, 34, m.userId); }
    Laid(start, buf, w.buf, rs, m.userId != [], Field(34, Text(m.userId)));
    return Ok(());
  }

  method EncodeUpdate(m: UpdateParserSettingsRequest, w: BinaryWriter) returns (r: Result<()>)
    modifies w`buf
    ensures r.Ok? && w.buf == old(w.buf) + Encoded(UpdateMessage(), m)
  {
    ghost var start, buf := w.buf, w.buf;
    ghost var rs: seq<Rec<Scalar>> := [];
    if m.maxPages.Some? { PutInt(w, 8, m.maxPages.value); }
    Laid(start, buf, w.buf, rs, m.maxPages.Some?, Field(8, Int(OrZero(m.maxPages))));
    buf, rs := w.buf, Optional(m.maxPages.Some?, 8, Int(OrZero(m.maxPages)));
    assert [] + rs == rs;
    if m.batchSize.Some? { PutInt(w, 16, m.batchSize.value); }
    Laid(start, buf, w.buf, rs, m.batchSize.Some?, Field(16, Int(OrZero(m.batchSize))));
    buf, rs := w.buf, rs + Optional(m.batchSize.Some?, 16, Int(OrZero(m.batchSize)));
    if m.autoImport.Some? { PutFlag(w, 24, m.autoImport.value); }
    Laid(start, buf, w.buf, rs, m.autoImport.Some?, Field(24, Flag(OrFalse(m.autoImport))));
    return Ok(());
  }

  method EncodeSettings(m: ParserSettings, w: BinaryWriter) returns (r: Result<()>)
    modifies w`buf
    ensures r.Ok? && w.buf == old(w.buf) + Encoded(SettingsMessage(), m)
  {
    ghost var start, buf := w.buf, w.buf;
    ghost var rs: seq<Rec<Scalar>> := [];
    if m.maxPages != 0 { PutInt(w, 8, m.maxPages); }
    Laid(start, buf, w.buf, rs, m.maxPages != 0, Field(8, Int(m.maxPages)));
    buf, rs := w.buf, Optional(m.maxPages != 0, 8, Int(m.maxPages));
    assert [] + rs == rs;
    if m.batchSize != 0 { PutInt(w, 16, m.batchSize); }
    Laid(start, buf, w.buf, rs, m.batchSize != 0, Field(16, Int(m.batchSize)));
    buf, rs := w.buf, rs + Optional(m.batchSize != 0, 16, Int(m.batchSize));
    if m.autoImport { PutFlag(w, 24, m.autoImport); }
    Laid(start, buf, w.buf, rs, m.autoImport, Field(24, Flag(m.autoImport)));
    return Ok(());
  }

  method EncodeTaskOrigin(m: ParserTask, w: BinaryWriter) returns (r: Result<()>)
    modifies w`buf
    ensures r.Ok? <==> |m.id| < TWO_32 && |m.category| < TWO_32 && |m.status| < TWO_32
    ensures r.Ok? ==> w.buf == old(w.buf) + Bytes(TaskOrigin(m))
  {
    ghost var start, buf := w.buf, w.buf;
    ghost var rs: seq<Rec<Scalar>> := [];
    if m.id != [] { var _ :- PutText(w, 10, m.id); }
    Laid(start, buf, w.buf, rs, m.id != [], Field(10, Text(m.id)));
    buf, rs := w.buf, Optional(m.id != [], 10, Text(m.id));
    assert [] + rs == rs;
    if m.category != [] { var _ :- PutText(w, 18, m.category); }
    Laid(start, buf, w.buf, rs, m.category != [], Field(18, Text(m.category)));
    buf, rs := w.buf, rs + Optional(m.category != [], 18, Text(m.category));
    if m.status != [] { var _ :- PutText(w, 26, m.status); }
    Laid(start, buf, w.buf, rs, m.status != [], Field(26, Text(m.status)));
    return Ok(());
  }

  method EncodeTaskRange(m: ParserTask, w: BinaryWriter) returns (r: Result<()>)
    modifies w`buf
    ensures r.Ok? <==> |m.dateFrom| < TWO_32 && |m.dateTo| < TWO_32
    ensures r.Ok? ==> w.buf == old(w.buf) + Bytes(TaskRange(m))
  {
    ghost var start, buf := w.buf, w.buf;
    ghost var rs: seq<Rec<Scalar>> := [];
    if m.dateFrom != [] { var _ :- PutText(w, 34, m.dateFrom); }
    Laid(start, buf, w.buf, rs, m.dateFrom != [], Field(34, Text(m.dateFrom)));
    buf, rs := w.buf, Optional(m.dateFrom != [], 34, Text(m.dateFrom));
    assert [] + rs == rs;
    if m.dateTo != [] { var _ :- PutText(w, 42, m.dateTo); }
    Laid(start, buf, w.buf, rs, m.dateTo != [], Field(42, Text(m.dateTo)));
    buf, rs := w.buf, rs + Optional(m.dateTo != [], 42, Text(m.dateTo));
    if m.totalFound != 0 { PutInt(w, 48, m.totalFound); }
    Laid(start, buf, w.buf, rs, m.totalFound != 0, Field(48, Int(m.totalFound)));
    buf, rs := w.buf, rs + Optional(m.totalFound != 0, 48, Int(m.totalFound));
    if m.totalParsed != 0 { PutInt(w, 56, m.totalParsed); }
    Laid(start, buf, w.buf, rs, m.totalParsed != 0, Field(56, Int(m.totalParsed)));
    return Ok(());
  }

  method EncodeTaskResult(m: ParserTask, w: BinaryWriter) returns (r: Result<()>)
    modifies w`buf
    ensures r.Ok? <==> |m.csvUrl| < TWO_32 && |m.userId| < TWO_32 && |m.createdAt| < TWO_32 && |m.updatedAt| < TWO_32
    ensures r.Ok? ==> w.buf == old(w.buf) + Bytes(TaskResult(m))
  {
    ghost var start, buf := w.buf, w.buf;
    ghost var rs: seq<Rec<Scalar>> := [];
    if m.csvUrl != [] { var _ :- PutText(w, 66, m.csvUrl); }
    Laid(start, buf, w.buf, rs, m.csvUrl != [], Field(66, Text(m.csvUrl)));
    buf, rs := w.buf, Optional(m.csvUrl != [], 66, Text(m.csvUrl));
    assert [] + rs == rs;
    if m.userId != [] { var _ :- PutText(w, 74, m.userId); }
    Laid(start, buf, w.buf, rs, m.userId != [], Field(74, Text(m.userId)));
    buf, rs := w.buf, rs + Optional(m.userId != [], 74, Text(m.userId));
    if m.createdAt != [] { var _ :- PutText(w, 82, m.createdAt); }
    Laid(start, buf, w.buf, rs, m.createdAt != [], Field(82, Text(m.createdAt)));
    buf, rs := w.buf, rs + Optional(m.createdAt != [], 82, Text(m.createdAt));
    if m.updatedAt != [] { var _ :- PutText(w, 90, m.updatedAt); }
    Laid(start, buf, w.buf, rs, m.updatedAt != [], Field(90, Text(m.updatedAt)));
    return Ok(());
  }

  /** The encoder of ParserTask, in three stretches. */
  method EncodeTask(m: ParserTask, w: BinaryWriter) returns (r: Result<()>)
    modifies w`buf
    ensures r.Ok? <==> TaskFits(m)
    ensures r.Ok? ==> w.buf == old(w.buf) + EncodedTask(m)
  {
    TaskBytes(w.buf, m);
    var _ :- EncodeTaskOrigin(m, w);
    var _ :- EncodeTaskRange(m, w);
    var _ :- EncodeTaskResult(m, w);
    return Ok(());
  }

  function EncodedTask(m: ParserTask): bytes { Encoded(TaskMessage(), m) }

  lemma TaskBytes(start: bytes, m: ParserTask)
    ensures start + EncodedTask(m)
         == start + Bytes(TaskOrigin(m)) + Bytes(TaskRange(m)) + Bytes(TaskResult(m))
  {
    BytesConcat(TaskOrigin(m) + TaskRange(m), TaskResult(m));
    BytesConcat(TaskOrigin(m), TaskRange(m));
    var a, b, c := Bytes(TaskOrigin(m)), Bytes(TaskRange(m)), Bytes(TaskResult(m));
    Appended(start, a + b, c);
    Appended(start, a, b);
  }

  // ---------- Submessages ----------

  /** `Sub.encode(p, writer.uint32(tag).fork()).join()` for the pagination
      codecs: the bytes the sub-encoder leaves are joined behind their length. */
  method EncodeSub<P, V>(c: SubCodec<P>, w: BinaryWriter, tag: uint32, p: P, ghost v: V) returns (r: Result<()>)
    modifies w
    ensures r.Ok? <==> Embeds(c, p)
    ensures r.Ok? ==> w.outer == old(w.outer)
    ensures r.Ok? ==> w.buf == old(w.buf) + SubField(tag, c.encode(p), v).bytes
  {
    if !c.fits(p) { return Err(LengthOverflow); }
    Appended(w.buf, Varint(tag), Delimited(c.encode(p)));
    r := w.UInt32(tag);
    w.Fork();
    w.buf := c.encode(p);
    r := w.Join();
  }

  ghost predicate EncodesAsTask(task: SubCodec<ParserTask>, t: ParserTask) {
    (task.fits(t) <==> TaskFits(t)) && task.encode(t) == EncodedTask(t)
  }

  /** `task` encodes as the encoder of ParserTask does. */
  ghost predicate IsTaskEncoder(task: SubCodec<ParserTask>) {
    forall t :: EncodesAsTask(task, t)
  }

  /** `ParserTask.encode(v, writer.uint32(10).fork()).join()`. */
  method EncodeEmbeddedTask<V>(ghost task: SubCodec<ParserTask>, t: ParserTask, w: BinaryWriter, ghost v: V)
      returns (r: Result<()>)
    requires IsTaskEncoder(task)
    modifies w
    ensures r.Ok? <==> Embeds(task, t)
    ensures r.Ok? ==> w.outer == old(w.outer)
    ensures r.Ok? ==> w.buf == old(w.buf) + SubField(10, task.encode(t), v).bytes
  {
    assert EncodesAsTask(task, t);
    Appended(w.buf, Varint(10), Delimited(task.encode(t)));
    r := w.UInt32(10);
    w.Fork();
    var _ :- EncodeTask(t, w);
    assert w.buf == task.encode(t);
    r := w.Join();
  }

  lemma {:induction false} TaskItemsSnoc<P>(task: SubCodec<ParserTask>, ts: seq<ParserTask>, t: ParserTask)
    ensures TaskItems<P>(task, ts + [t]) == TaskItems<P>(task, ts) + [SubField(10, task.encode(t), TaskItem(t))]
    decreases |ts|
  {
    if ts == [] {
      assert ts + [t] == [t] && [t][1..] == [];
    } else {
      assert (ts + [t])[1..] == ts[1..] + [t];
      TaskItemsSnoc<P>(task, ts[1..], t);
    }
  }

  method EncodeListWith<P>(ghost task: SubCodec<ParserTask>, page: SubCodec<P>, m: ParserTaskList<P>, w: BinaryWriter)
      returns (r: Result<()>)
    requires IsTaskEncoder(task)
    modifies w
    ensures r.Ok? <==> ListFits(task, page, m)
    ensures r.Ok? ==> w.outer == old(w.outer)
    ensures r.Ok? ==> w.buf == old(w.buf) + Bytes(ListRecords(task, page, m))
  {
    ghost var start := w.buf;
    for i := 0 to |m.tasks|
      invariant w.outer == old(w.outer)
      invariant w.buf == start + Bytes(TaskItems<P>(task, m.tasks[..i]))
      invariant forall t :: t in m.tasks[..i] ==> Embeds(task, t)
    {
      ghost var t, buf := m.tasks[i], w.buf;
      ghost var v: ListItem<P> := TaskItem(t);
      var _ :- EncodeEmbeddedTask(task, m.tasks[i], w, v);
      Laid(start, buf, w.buf, TaskItems<P>(task, m.tasks[..i]), true, SubField(10, task.encode(t), v));
      TaskItemsSnoc<P>(task, m.tasks[..i], t);
      assert m.tasks[..i + 1] == m.tasks[..i] + [t];
    }
    assert m.tasks[..|m.tasks|] == m.tasks;
    if m.pagination.Some? {
      ghost var buf := w.buf;
      ghost var v: ListItem<P> := PageItem(m.pagination.value);
      var _ :- EncodeSub(page, w, 18, m.pagination.value, v);
      Laid(start, buf, w.buf, TaskItems<P>(task, m.tasks), true, SubField(18, page.encode(m.pagination.value), v));
    } else {
      assert ListRecords(task, page, m) == TaskItems<P>(task, m.tasks);
    }
    return Ok(());
  }

  ghost function EncodedList<P>(page: SubCodec<P>, m: ParserTaskList<P>): bytes {
    Encoded(ListMessage(TaskCodec(), page), m)
  }

  /** The encoder of ParserTaskList. */
  method EncodeList<P>(page: SubCodec<P>, m: ParserTaskList<P>, w: BinaryWriter) returns (r: Result<()>)
    modifies w
    ensures r.Ok? <==> ListFits(TaskCodec(), page, m)
    ensures r.Ok? ==> w.outer == old(w.outer)
    ensures r.Ok? ==> w.buf == old(w.buf) + EncodedList(page, m)
  {
    forall t ensures EncodesAsTask(TaskCodec(), t) {}
    r := EncodeListWith(TaskCodec(), page, m, w);
  }

  /** The encoder of ListParserTasksRequest. */
  method EncodeRequest<P>(page: SubCodec<P>, m: ListParserTasksRequest<P>, w: BinaryWriter) returns (r: Result<()>)
    modifies w
    ensures r.Ok? <==> RequestFits(page, m)
    ensures r.Ok? ==> w.outer == old(w.outer)
    ensures r.Ok? ==> w.buf == old(w.buf) + Encoded(RequestMessage(page), m)
  {
    ghost var start, buf := w.buf, w.buf;
    ghost var rs: seq<Rec<RequestItem<P>>> := [];
    if m.pagination.Some? {
      ghost var v: RequestItem<P> := PageArg(m.pagination.value);
      var _ :- EncodeSub(page, w, 10, m.pagination.value, v);
      Laid(start, buf, w.buf, rs, true, SubField(10, page.encode(m.pagination.value), v));
      rs := [SubField(10, page.encode(m.pagination.value), v)];
      buf := w.buf;
      assert [] + rs == rs;
    }
    ghost var user: Rec<RequestItem<P>> := SubField(18, m.userId, UserArg(m.userId));
    if m.userId != [] { var _ :- PutText(w, 18, m.userId); }
    Laid(start, buf, w.buf, rs, m.userId != [], user);
    return Ok(());
  }
}
