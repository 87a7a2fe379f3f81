/** The generated decode loops, each proved to be the loop of its message. */
module Decoders {
  import opened Options
  import opened Wire
  import opened Records
  import opened Dispatch
  import opened Scalars
  import opened Codecs
  import opened Messages
  import opened Nested
  import opened BinaryIO

  /** Where a decode ends: `length` bytes on, or at the end of the buffer when no
      length is given. */
  function End(r: BinaryReader, length: Option<nat>): nat
    reads r
  {
    match length
    case None => |r.buf|
    case Some(n) => r.pos + n
  }

  ghost function DecodedTaskId(buf: bytes, pos: nat, end: nat): Read<ParserTaskIdRequest> {
    TaskIdSound();
    Decoded(TaskIdMessage(), buf, pos, end)
  }

  lemma TaskIdForward()
    ensures Forward(TaskIdSchema())
  {
    TaskIdSound();
  }

  method DecodeTaskId(r: BinaryReader, length: Option<nat>) returns (res: Result<ParserTaskIdRequest>)
    requires r.pos <= |r.buf|
    modifies r
    ensures Answers(res, DecodedTaskId(r.buf, old(r.pos), old(End(r, length))), r.pos)
  {
    TaskIdForward();
    ghost var s, start := TaskIdSchema(), r.pos;
    var end := End(r, length);
    var message := BASE_TASK_ID;
    while r.pos < end
      invariant r.pos <= |r.buf|
      invariant Run(s, message, r.buf, r.pos, end) == DecodedTaskId(r.buf, start, end)
      decreases |r.buf| - r.pos
    {
      ghost var at := r.pos;
      var tag :- r.UInt32();
      RunTagged(s, ScalarCases(TASK_ID_KINDS), message, r.buf, at, end);
      match tag / 8 {
        case 1 =>
          if tag == 10 {
            var v :- r.String();
            message := message.(id := v);
            continue;
          }
        case _ =>
      }
      if tag % 8 == 4 || tag == 0 { break; }
      var _ :- r.Skip(tag % 8);
    }
    return Ok(message);
  }

  ghost function DecodedCreate(buf: bytes, pos: nat, end: nat): Read<CreateParserTaskRequest> {
    CreateSound();
    Decoded(CreateMessage(), buf, pos, end)
  }

  lemma CreateForward()
    ensures Forward(CreateSchema())
  {
    CreateSound();
  }

  method DecodeCreate(r: BinaryReader, length: Option<nat>) returns (res: Result<CreateParserTaskRequest>)
    requires r.pos <= |r.buf|
    modifies r
    ensures Answers(res, DecodedCreate(r.buf, old(r.pos), old(End(r, length))), r.pos)
  {
    CreateForward();
    ghost var s, start := CreateSchema(), r.pos;
    var end := End(r, length);
    var message := BASE_CREATE;
    while r.pos < end
      invariant r.pos <= |r.buf|
      invariant Run(s, message, r.buf, r.pos, end) == DecodedCreate(r.buf, start, end)
      decreases |r.buf| - r.pos
    {
      ghost var at := r.pos;
      var tag :- r.UInt32();
      RunTagged(s, ScalarCases(CREATE_KINDS), message, r.buf, at, end);
      match tag / 8 {
        case 1 =>
          if tag == 10 {
            var v :- r.String();
            message := message.(category := v);
            continue;
          }
        case 2 =>
          if tag == 18 {
            var v :- r.String();
            message := message.(dateFrom := v);
            continue;
          }
        case 3 =>
          if tag == 26 {
            var v :- r.String();
            message := message.(dateTo := v);
            continue;
          }
        case 4 =>
          if tag == 34 {
            var v :- r.String();
            message := message.(userId := v);
            continue;
          }
        case _ =>
      }
      if tag % 8 == 4 || tag == 0 { break; }
      var _ :- r.Skip(tag % 8);
    }
    return Ok(message);
  }

  ghost function DecodedUpdate(buf: bytes, pos: nat, end: nat): Read<UpdateParserSettingsRequest> {
    UpdateSound();
    Decoded(UpdateMessage(), buf, pos, end)
  }

  lemma UpdateForward()
    ensures Forward(UpdateSchema())
  {
    UpdateSound();
  }

  method DecodeUpdate(r: BinaryReader, length: Option<nat>) returns (res: Result<UpdateParserSettingsRequest>)
    requires r.pos <= |r.buf|
    modifies r
    ensures Answers(res, DecodedUpdate(r.buf, old(r.pos), old(End(r, length))), r.pos)
  {
    UpdateForward();
    ghost var s, start := UpdateSchema(), r.pos;
    var end := End(r, length);
    var message := BASE_UPDATE;
    while r.pos < end
      invariant r.pos <= |r.buf|
      invariant Run(s, message, r.buf, r.pos, end) == DecodedUpdate(r.buf, start, end)
      decreases |r.buf| - r.pos
    {
      ghost var at := r.pos;
      var tag :- r.UInt32();
      RunTagged(s, ScalarCases(UPDATE_KINDS), message, r.buf, at, end);
      match tag / 8 {
        case 1 =>
          if tag == 8 {
            var v :- r.Int32();
            message := message.(maxPages := Some(v));
            continue;
          }
        case 2 =>
          if tag == 16 {
            var v :- r.Int32();
            message := message.(batchSize := Some(v));
            continue;
          }
        case 3 =>
          if tag == 24 {
            var v :- r.Bool();
            message := message.(autoImport := Some(v));
            continue;
          }
        case _ =>
      }
      if tag % 8 == 4 || tag == 0 { break; }
      var _ :- r.Skip(tag % 8);
    }
    return Ok(message);
  }

  ghost function DecodedSettings(buf: bytes, pos: nat, end: nat): Read<ParserSettings> {
    SettingsSound();
    Decoded(SettingsMessage(), buf, pos, end)
  }

  lemma SettingsForward()
    ensures Forward(SettingsSchema())
  {
    SettingsSound();
  }

  method DecodeSettings(r: BinaryReader, length: Option<nat>) returns (res: Result<ParserSettings>)
    requires r.pos <= |r.buf|
    modifies r
    ensures Answers(res, DecodedSettings(r.buf, old(r.pos), old(End(r, length))), r.pos)
  {
    SettingsForward();
    ghost var s, start := SettingsSchema(), r.pos;
    var end := End(r, length);
    var message := BASE_SETTINGS;
    while r.pos < end
      invariant r.pos <= |r.buf|
      invariant Run(s, message, r.buf, r.pos, end) == DecodedSettings(r.buf, start, end)
      decreases |r.buf| - r.pos
    {
      ghost var at := r.pos;
      var tag :- r.UInt32();
      RunTagged(s, ScalarCases(SETTINGS_KINDS), message, r.buf, at, end);
      match tag / 8 {
        case 1 =>
          if tag == 8 {
            var v :- r.Int32();
            message := message.(maxPages := v);
            continue;
          }
        case 2 =>
          if tag == 16 {
            var v :- r.Int32();
            message := message.(batchSize := v);
            continue;
          }
        case 3 =>
          if tag == 24 {
            var v :- r.Bool();
            message := message.(autoImport := v);
            continue;
          }
        case _ =>
      }
      if tag % 8 == 4 || tag == 0 { break; }
      var _ :- r.Skip(tag % 8);
    }
    return Ok(message);
  }

  ghost function DecodedTask(buf: bytes, pos: nat, end: nat): Read<ParserTask> {
    TaskSound();
    Decoded(TaskMessage(), buf, pos, end)
  }

  lemma TaskForward()
    ensures Forward(TaskSchema())
  {
    TaskSound();
  }

  method DecodeTask(r: BinaryReader, length: Option<nat>) returns (res: Result<ParserTask>)
    requires r.pos <= |r.buf|
    modifies r
    ensures Answers(res, DecodedTask(r.buf, old(r.pos), old(End(r, length))), r.pos)
  {
    TaskForward();
    ghost var s, start := TaskSchema(), r.pos;
    var end := End(r, length);
    var message := BASE_TASK;
    while r.pos < end
      invariant r.pos <= |r.buf|
      invariant Run(s, message, r.buf, r.pos, end) == DecodedTask(r.buf, start, end)
      decreases |r.buf| - r.pos
    {
      ghost var at := r.pos;
      var tag :- r.UInt32();
      RunTagged(s, ScalarCases(TASK_KINDS), message, r.buf, at, end);
      match tag / 8 {
        case 1 =>
          if tag == 10 {
            var v :- r.String();
            message := message.(id := v);
            continue;
          }
        case 2 =>
          if tag == 18 {
            var v :- r.String();
            message := message.(category := v);
            continue;
          }
        case 3 =>
          if tag == 26 {
            var v :- r.String();
            message := message.(status := v);
            continue;
          }
        case 4 =>
          if tag == 34 {
            var v :- r.String();
            message := message.(dateFrom := v);
            continue;
          }
        case 5 =>
          if tag == 42 {
            var v :- r.String();
            message := message.(dateTo := v);
            continue;
          }
        case 6 =>
          if tag == 48 {
            var v :- r.Int32();
            message := message.(totalFound := v);
            continue;
          }
        case 7 =>
          if tag == 56 {
            var v :- r.Int32();
            message := message.(totalParsed := v);
            continue;
          }
        case 8 =>
          if tag == 66 {
            var v :- r.String();
            message := message.(csvUrl := v);
            continue;
          }
        case 9 =>
          if tag == 74 {
            var v :- r.String();
            message := message.(userId := v);
            continue;
          }
        case 10 =>
          if tag == 82 {
            var v :- r.String();
            message := message.(createdAt := v);
            continue;
          }
        case 11 =>
          if tag == 90 {
            var v :- r.String();
            message := message.(updatedAt := v);
            continue;
          }
        case _ =>
      }
      if tag % 8 == 4 || tag == 0 { break; }
      var _ :- r.Skip(tag % 8);
    }
    return Ok(message);
  }

  // ---------- Submessages ----------

  ghost function TaskCodec(): SubCodec<ParserTask> {
    TaskSound();
    CodecOf(TaskMessage())
  }

  lemma TaskCodecLawful()
    ensures Lawful(TaskCodec())
  {
    TaskSound();
    CodecLawful(TaskMessage());
  }

  /** `Sub.decode(reader, reader.uint32())` for the pagination codecs. */
  method DecodeSub<P>(c: SubCodec<P>, r: BinaryReader) returns (res: Result<P>)
    modifies r
    ensures Answers(res, SubAt(c, r.buf, old(r.pos)), r.pos)
  {
    var length :- r.UInt32();
    var read :- Lift(c.decode(r.buf, r.pos, r.pos + length));
    r.pos := read.1;
    return Ok(read.0);
  }

  ghost predicate DecodesAsTask(task: SubCodec<ParserTask>, buf: bytes, pos: nat, end: nat) {
    task.decode(buf, pos, end) == DecodedTask(buf, pos, end)
  }

  /** `task` decodes as the loop for ParserTask does. */
  ghost predicate IsTaskDecoder(task: SubCodec<ParserTask>) {
    forall buf, pos: nat, end: nat :: DecodesAsTask(task, buf, pos, end)
  }

  /** `ParserTask.decode(reader, reader.uint32())`. */
  method DecodeEmbeddedTask(ghost task: SubCodec<ParserTask>, r: BinaryReader) returns (res: Result<ParserTask>)
    requires IsTaskDecoder(task)
    modifies r
    ensures Answers(res, SubAt(task, r.buf, old(r.pos)), r.pos)
  {
    var length :- r.UInt32();
    assert DecodesAsTask(task, r.buf, r.pos, r.pos + length);
    res := DecodeTask(r, Some(length));
  }

  lemma ListForward<P(!new)>(task: SubCodec<ParserTask>, page: SubCodec<P>)
    requires Lawful(task) && Lawful(page)
    ensures Forward(ListSchema(task, page))
  {
    ListSound(task, page);
  }

  ghost function DecodedListWith<P(!new)>(task: SubCodec<ParserTask>, page: SubCodec<P>,
                                          buf: bytes, pos: nat, end: nat): Read<ParserTaskList<P>>
    requires Lawful(task) && Lawful(page)
  {
    ListForward(task, page);
    Decoded(ListMessage(task, page), buf, pos, end)
  }

  method DecodeListWith<P(!new)>(ghost task: SubCodec<ParserTask>, page: SubCodec<P>, r: BinaryReader,
                                 length: Option<nat>)
      returns (res: Result<ParserTaskList<P>>)
    requires Lawful(task) && Lawful(page) && IsTaskDecoder(task) && r.pos <= |r.buf|
    modifies r
    ensures Answers(res, DecodedListWith(task, page, r.buf, old(r.pos), old(End(r, length))), r.pos)
  {
    ListForward(task, page);
    ghost var s, start := ListSchema(task, page), r.pos;
    var end := End(r, length);
    var message: ParserTaskList<P> := BaseList();
    while r.pos < end
      invariant r.pos <= |r.buf|
      invariant Run(s, message, r.buf, r.pos, end) == DecodedListWith(task, page, r.buf, start, end)
      decreases |r.buf| - r.pos
    {
      ghost var at := r.pos;
      var tag :- r.UInt32();
      RunTagged(s, ListCases(task, page), message, r.buf, at, end);
      match tag / 8 {
        case 1 =>
          if tag == 10 {
            var t :- DecodeEmbeddedTask(task, r);
            message := message.(tasks := message.tasks + [t]);
            continue;
          }
        case 2 =>
          if tag == 18 {
            var p :- DecodeSub(page, r);
            message := message.(pagination := Some(p));
            continue;
          }
        case _ =>
      }
      if tag % 8 == 4 || tag == 0 { break; }
      var _ :- r.Skip(tag % 8);
    }
    return Ok(message);
  }

  ghost function DecodedList<P(!new)>(page: SubCodec<P>, buf: bytes, pos: nat, end: nat): Read<ParserTaskList<P>>
    requires Lawful(page)
  {
    TaskCodecLawful();
    DecodedListWith(TaskCodec(), page, buf, pos, end)
  }

  method DecodeList<P(!new)>(page: SubCodec<P>, r: BinaryReader, length: Option<nat>)
      returns (res: Result<ParserTaskList<P>>)
    requires Lawful(page) && r.pos <= |r.buf|
    modifies r
    ensures Answers(res, DecodedList(page, r.buf, old(r.pos), old(End(r, length))), r.pos)
  {
    TaskCodecLawful();
    forall buf, pos: nat, end: nat ensures DecodesAsTask(TaskCodec(), buf, pos, end) {}
    res := DecodeListWith(TaskCodec(), page, r, length);
  }

  lemma RequestForward<P(!new)>(page: SubCodec<P>)
    requires Lawful(page)
    ensures Forward(RequestSchema(page))
  {
    RequestSound(page);
  }

  ghost function DecodedRequest<P(!new)>(page: SubCodec<P>, buf: bytes, pos: nat, end: nat)
      : Read<ListParserTasksRequest<P>>
    requires Lawful(page)
  {
    RequestForward(page);
    Decoded(RequestMessage(page), buf, pos, end)
  }

  method DecodeRequest<P(!new)>(page: SubCodec<P>, r: BinaryReader, length: Option<nat>)
      returns (res: Result<ListParserTasksRequest<P>>)
    requires Lawful(page) && r.pos <= |r.buf|
    modifies r
    ensures Answers(res, DecodedRequest(page, r.buf, old(r.pos), old(End(r, length))), r.pos)
  {
    RequestForward(page);
    ghost var s, start := RequestSchema(page), r.pos;
    var end := End(r, length);
    var message: ListParserTasksRequest<P> := BaseRequest();
    while r.pos < end
      invariant r.pos <= |r.buf|
      invariant Run(s, message, r.buf, r.pos, end) == DecodedRequest(page, r.buf, start, end)
      decreases |r.buf| - r.pos
    {
      ghost var at := r.pos;
      var tag :- r.UInt32();
      RunTagged(s, RequestCases(page), message, r.buf, at, end);
      match tag / 8 {
        case 1 =>
          if tag == 10 {
            var p :- DecodeSub(page, r);
            message := message.(pagination := Some(p));
            continue;
          }
        case 2 =>
          if tag == 18 {
            var v :- r.String();
            message := message.(userId := v);
            continue;
          }
        case _ =>
      }
      if tag % 8 == 4 || tag == 0 { break; }
      var _ :- r.Skip(tag % 8);
    }
    return Ok(message);
  }
}
