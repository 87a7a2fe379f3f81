/** The messages whose fields are all scalars: their fields, their tags, how one
    field changes the message, and the records the encoder lays down. */
module Messages {
  import opened Options
  import opened Wire
  import opened Records
  import opened Codecs
  import opened Dispatch
  import opened Scalars

  // ---------- ParserTask ----------

  datatype ParserTask = ParserTask(
    id: bytes, category: bytes, status: bytes, dateFrom: bytes, dateTo: bytes,
    totalFound: int32, totalParsed: int32,
    csvUrl: bytes, userId: bytes, createdAt: bytes, updatedAt: bytes)

  const BASE_TASK := ParserTask([], [], [], [], [], 0, 0, [], [], [], [])

  const TASK_KINDS: map<uint32, Kind> := map[
    10 := KText, 18 := KText, 26 := KText, 34 := KText, 42 := KText, 48 := KInt32, 56 := KInt32,
    66 := KText, 74 := KText, 82 := KText, 90 := KText]

  function ApplyTask(m: ParserTask, tag: uint32, v: Scalar): ParserTask {
    if tag == 10 then m.(id := TextOf(v))
    else if tag == 18 then m.(category := TextOf(v))
    else if tag == 26 then m.(status := TextOf(v))
    else if tag == 34 then m.(dateFrom := TextOf(v))
    else if tag == 42 then m.(dateTo := TextOf(v))
    else if tag == 48 then m.(totalFound := IntOf(v))
    else if tag == 56 then m.(totalParsed := IntOf(v))
    else if tag == 66 then m.(csvUrl := TextOf(v))
    else if tag == 74 then m.(userId := TextOf(v))
    else if tag == 82 then m.(createdAt := TextOf(v))
    else if tag == 90 then m.(updatedAt := TextOf(v))
    else m
  }

  function TaskSchema(): Schema<ParserTask, Scalar> {
    Schema(Scanner(ScalarCases(TASK_KINDS)), ApplyTask)
  }

  function TaskOrigin(t: ParserTask): seq<Rec<Scalar>> {
    Optional(t.id != [], 10, Text(t.id))
    + Optional(t.category != [], 18, Text(t.category))
    + Optional(t.status != [], 26, Text(t.status))
  }

  function TaskRange(t: ParserTask): seq<Rec<Scalar>> {
    Optional(t.dateFrom != [], 34, Text(t.dateFrom))
    + Optional(t.dateTo != [], 42, Text(t.dateTo))
    + Optional(t.totalFound != 0, 48, Int(t.totalFound))
    + Optional(t.totalParsed != 0, 56, Int(t.totalParsed))
  }

  function TaskResult(t: ParserTask): seq<Rec<Scalar>> {
    Optional(t.csvUrl != [], 66, Text(t.csvUrl))
    + Optional(t.userId != [], 74, Text(t.userId))
    + Optional(t.createdAt != [], 82, Text(t.createdAt))
    + Optional(t.updatedAt != [], 90, Text(t.updatedAt))
  }

  function TaskRecords(t: ParserTask): seq<Rec<Scalar>> {
    TaskOrigin(t) + TaskRange(t) + TaskResult(t)
  }

  /** Every string's length is a uint32. */
  predicate TaskFits(t: ParserTask) {
    && |t.id| < TWO_32 && |t.category| < TWO_32 && |t.status| < TWO_32
    && |t.dateFrom| < TWO_32 && |t.dateTo| < TWO_32 && |t.csvUrl| < TWO_32
    && |t.userId| < TWO_32 && |t.createdAt| < TWO_32 && |t.updatedAt| < TWO_32
  }

  /** Different fields are independent, and each field keeps its last value. */
  lemma TaskLaws(tag: uint32)
    ensures Commutes(TaskSchema()) && Replaces(TaskSchema(), tag)
  {}

  lemma TaskOriginFolds(t: ParserTask, m: ParserTask)
    requires m.id == BASE_TASK.id && m.category == BASE_TASK.category && m.status == BASE_TASK.status
    ensures Fold(TaskSchema(), m, TaskOrigin(t)) == m.(id := t.id, category := t.category, status := t.status)
  {
    var s := TaskSchema();
    var m0 := m.(id := t.id);
    var r0 := Optional(t.id != [], 10, Text(t.id));
    assert [] + r0 == r0;
    FoldOptional(s, m, [], m, t.id != [], 10, Text(t.id), m0);
    var m1 := m0.(category := t.category);
    FoldOptional(s, m, r0, m0, t.category != [], 18, Text(t.category), m1);
    var r1 := r0 + Optional(t.category != [], 18, Text(t.category));
    var m2 := m1.(status := t.status);
    FoldOptional(s, m, r1, m1, t.status != [], 26, Text(t.status), m2);
  }

  lemma TaskRangeFolds(t: ParserTask, m: ParserTask)
    requires m.dateFrom == BASE_TASK.dateFrom && m.dateTo == BASE_TASK.dateTo
    requires m.totalFound == BASE_TASK.totalFound && m.totalParsed == BASE_TASK.totalParsed
    ensures Fold(TaskSchema(), m, TaskRange(t))
         == m.(dateFrom := t.dateFrom, dateTo := t.dateTo, totalFound := t.totalFound, totalParsed := t.totalParsed)
  {
    var s := TaskSchema();
    var m0 := m.(dateFrom := t.dateFrom);
    var r0 := Optional(t.dateFrom != [], 34, Text(t.dateFrom));
    assert [] + r0 == r0;
    FoldOptional(s, m, [], m, t.dateFrom != [], 34, Text(t.dateFrom), m0);
    var m1 := m0.(dateTo := t.dateTo);
    FoldOptional(s, m, r0, m0, t.dateTo != [], 42, Text(t.dateTo), m1);
    var r1 := r0 + Optional(t.dateTo != [], 42, Text(t.dateTo));
    var m2 := m1.(totalFound := t.totalFound);
    FoldOptional(s, m, r1, m1, t.totalFound != 0, 48, Int(t.totalFound), m2);
    var r2 := r1 + Optional(t.totalFound != 0, 48, Int(t.totalFound));
    var m3 := m2.(totalParsed := t.totalParsed);
    FoldOptional(s, m, r2, m2, t.totalParsed != 0, 56, Int(t.totalParsed), m3);
  }

  lemma TaskResultFolds(t: ParserTask, m: ParserTask)
    requires m.csvUrl == BASE_TASK.csvUrl && m.userId == BASE_TASK.userId
    requires m.createdAt == BASE_TASK.createdAt && m.updatedAt == BASE_TASK.updatedAt
    ensures Fold(TaskSchema(), m, TaskResult(t))
         == m.(csvUrl := t.csvUrl, userId := t.userId, createdAt := t.createdAt, updatedAt := t.updatedAt)
  {
    var s := TaskSchema();
    var m0 := m.(csvUrl := t.csvUrl);
    var r0 := Optional(t.csvUrl != [], 66, Text(t.csvUrl));
    assert [] + r0 == r0;
    FoldOptional(s, m, [], m, t.csvUrl != [], 66, Text(t.csvUrl), m0);
    var m1 := m0.(userId := t.userId);
    FoldOptional(s, m, r0, m0, t.userId != [], 74, Text(t.userId), m1);
    var r1 := r0 + Optional(t.userId != [], 74, Text(t.userId));
    var m2 := m1.(createdAt := t.createdAt);
    FoldOptional(s, m, r1, m1, t.createdAt != [], 82, Text(t.createdAt), m2);
    var r2 := r1 + Optional(t.createdAt != [], 82, Text(t.createdAt));
    var m3 := m2.(updatedAt := t.updatedAt);
    FoldOptional(s, m, r2, m2, t.updatedAt != [], 90, Text(t.updatedAt), m3);
  }

  lemma TaskFolds(t: ParserTask)
    ensures Fold(TaskSchema(), BASE_TASK, TaskRecords(t)) == t
  {
    var s := TaskSchema();
    FoldConcat(s, BASE_TASK, TaskOrigin(t) + TaskRange(t), TaskResult(t));
    FoldConcat(s, BASE_TASK, TaskOrigin(t), TaskRange(t));
    TaskOriginFolds(t, BASE_TASK);
    TaskRangeFolds(t, Fold(s, BASE_TASK, TaskOrigin(t)));
    TaskResultFolds(t, Fold(s, BASE_TASK, TaskOrigin(t) + TaskRange(t)));
  }

  lemma TaskWritten(t: ParserTask)
    requires TaskFits(t)
    ensures AreRecords(TaskSchema(), TaskRecords(t))
  {
    var s, k := TaskSchema(), TASK_KINDS;
    OptionalWritten(s, k, t.id != [], 10, Text(t.id));
    OptionalWritten(s, k, t.category != [], 18, Text(t.category));
    OptionalWritten(s, k, t.status != [], 26, Text(t.status));
    OptionalWritten(s, k, t.dateFrom != [], 34, Text(t.dateFrom));
    OptionalWritten(s, k, t.dateTo != [], 42, Text(t.dateTo));
    OptionalWritten(s, k, t.totalFound != 0, 48, Int(t.totalFound));
    OptionalWritten(s, k, t.totalParsed != 0, 56, Int(t.totalParsed));
    OptionalWritten(s, k, t.csvUrl != [], 66, Text(t.csvUrl));
    OptionalWritten(s, k, t.userId != [], 74, Text(t.userId));
    OptionalWritten(s, k, t.createdAt != [], 82, Text(t.createdAt));
    OptionalWritten(s, k, t.updatedAt != [], 90, Text(t.updatedAt));
  }

  function TaskMessage(): Message<ParserTask, Scalar> {
    Message(TaskSchema(), BASE_TASK, TaskFits, TaskRecords)
  }

  lemma TaskSound()
    ensures Sound(TaskMessage())
  {
    FlatLocal(TaskSchema(), TASK_KINDS);
    forall m ensures LaidDown(TaskMessage(), m) {
      if TaskFits(m) { TaskWritten(m); }
      TaskFolds(m);
    }
  }

  // ---------- ParserTaskIdRequest ----------

  datatype ParserTaskIdRequest = ParserTaskIdRequest(id: bytes)

  const BASE_TASK_ID := ParserTaskIdRequest([])

  const TASK_ID_KINDS: map<uint32, Kind> := map[10 := KText]

  function ApplyTaskId(m: ParserTaskIdRequest, tag: uint32, v: Scalar): ParserTaskIdRequest {
    if tag == 10 then m.(id := TextOf(v))
    else m
  }

  function TaskIdSchema(): Schema<ParserTaskIdRequest, Scalar> {
    Schema(Scanner(ScalarCases(TASK_ID_KINDS)), ApplyTaskId)
  }

  function TaskIdRecords(m: ParserTaskIdRequest): seq<Rec<Scalar>> {
    Optional(m.id != [], 10, Text(m.id))
  }

  predicate TaskIdFits(m: ParserTaskIdRequest) {
    |m.id| < TWO_32
  }

  lemma TaskIdLaws(tag: uint32)
    ensures Commutes(TaskIdSchema()) && Replaces(TaskIdSchema(), tag)
  {}

  lemma TaskIdFolds(m: ParserTaskIdRequest)
    ensures Fold(TaskIdSchema(), BASE_TASK_ID, TaskIdRecords(m)) == m
  {
    var s := TaskIdSchema();
    var m0 := BASE_TASK_ID.(id := m.id);
    var r0 := Optional(m.id != [], 10, Text(m.id));
    assert [] + r0 == r0;
    FoldOptional(s, BASE_TASK_ID, [], BASE_TASK_ID, m.id != [], 10, Text(m.id), m0);
  }

  lemma TaskIdWritten(m: ParserTaskIdRequest)
    requires TaskIdFits(m)
    ensures AreRecords(TaskIdSchema(), TaskIdRecords(m))
  {
    var s, k := TaskIdSchema(), TASK_ID_KINDS;
    OptionalWritten(s, k, m.id != [], 10, Text(m.id));
  }

  function TaskIdMessage(): Message<ParserTaskIdRequest, Scalar> {
    Message(TaskIdSchema(), BASE_TASK_ID, TaskIdFits, TaskIdRecords)
  }

  lemma TaskIdSound()
    ensures Sound(TaskIdMessage())
  {
    FlatLocal(TaskIdSchema(), TASK_ID_KINDS);
    forall m ensures LaidDown(TaskIdMessage(), m) {
      if TaskIdFits(m) { TaskIdWritten(m); }
      TaskIdFolds(m);
    }
  }

  // ---------- CreateParserTaskRequest ----------

  datatype CreateParserTaskRequest = CreateParserTaskRequest(
    category: bytes, dateFrom: bytes, dateTo: bytes, userId: bytes)

  const BASE_CREATE := CreateParserTaskRequest([], [], [], [])

  const CREATE_KINDS: map<uint32, Kind> := map[10 := KText, 18 := KText, 26 := KText, 34 := KText]

  function ApplyCreate(m: CreateParserTaskRequest, tag: uint32, v: Scalar): CreateParserTaskRequest {
    if tag == 10 then m.(category := TextOf(v))
    else if tag == 18 then m.(dateFrom := TextOf(v))
    else if tag == 26 then m.(dateTo := TextOf(v))
    else if tag == 34 then m.(userId := TextOf(v))
    else m
  }

  function CreateSchema(): Schema<CreateParserTaskRequest, Scalar> {
    Schema(Scanner(ScalarCases(CREATE_KINDS)), ApplyCreate)
  }

  function CreateRecords(m: CreateParserTaskRequest): seq<Rec<Scalar>> {
    Optional(m.category != [], 10, Text(m.category))
    + Optional(m.dateFrom != [], 18, Text(m.dateFrom))
    + Optional(m.dateTo != [], 26, Text(m.dateTo))
    + Optional(m.userId != [], 34, Text(m.userId))
  }

  predicate CreateFits(m: CreateParserTaskRequest) {
    |m.category| < TWO_32 && |m.dateFrom| < TWO_32 && |m.dateTo| < TWO_32 && |m.userId| < TWO_32
  }

  lemma CreateLaws(tag: uint32)
    ensures Commutes(CreateSchema()) && Replaces(CreateSchema(), tag)
  {}

  lemma CreateFolds(m: CreateParserTaskRequest)
    ensures Fold(CreateSchema(), BASE_CREATE, CreateRecords(m)) == m
  {
    var s := CreateSchema();
    var m0 := BASE_CREATE.(category := m.category);
    var r0 := Optional(m.category != [], 10, Text(m.category));
    assert [] + r0 == r0;
    FoldOptional(s, BASE_CREATE, [], BASE_CREATE, m.category != [], 10, Text(m.category), m0);
    var m1 := m0.(dateFrom := m.dateFrom);
    FoldOptional(s, BASE_CREATE, r0, m0, m.dateFrom != [], 18, Text(m.dateFrom), m1);
    var r1 := r0 + Optional(m.dateFrom != [], 18, Text(m.dateFrom));
    var m2 := m1.(dateTo := m.dateTo);
    FoldOptional(s, BASE_CREATE, r1, m1, m.dateTo != [], 26, Text(m.dateTo), m2);
    var r2 := r1 + Optional(m.dateTo != [], 26, Text(m.dateTo));
    var m3 := m2.(userId := m.userId);
    FoldOptional(s, BASE_CREATE, r2, m2, m.userId != [], 34, Text(m.userId), m3);
  }

  lemma CreateWritten(m: CreateParserTaskRequest)
    requires CreateFits(m)
    ensures AreRecords(CreateSchema(), CreateRecords(m))
  {
    var s, k := CreateSchema(), CREATE_KINDS;
    OptionalWritten(s, k, m.category != [], 10, Text(m.category));
    OptionalWritten(s, k, m.dateFrom != [], 18, Text(m.dateFrom));
    OptionalWritten(s, k, m.dateTo != [], 26, Text(m.dateTo));
    OptionalWritten(s, k, m.userId != [], 34, Text(m.userId));
  }

  function CreateMessage(): Message<CreateParserTaskRequest, Scalar> {
    Message(CreateSchema(), BASE_CREATE, CreateFits, CreateRecords)
  }

  lemma CreateSound()
    ensures Sound(CreateMessage())
  {
    FlatLocal(CreateSchema(), CREATE_KINDS);
    forall m ensures LaidDown(CreateMessage(), m) {
      if CreateFits(m) { CreateWritten(m); }
      CreateFolds(m);
    }
  }

  function OrZero(o: Option<int32>): int32 { if o.Some? then o.value else 0 }

  function OrFalse(o: Option<bool>): bool { o.Some? && o.value }

  // ---------- UpdateParserSettingsRequest ----------

  datatype UpdateParserSettingsRequest = UpdateParserSettingsRequest(
    maxPages: Option<int32>, batchSize: Option<int32>, autoImport: Option<bool>)

  const BASE_UPDATE := UpdateParserSettingsRequest(None, None, None)

  const UPDATE_KINDS: map<uint32, Kind> := map[8 := KInt32, 16 := KInt32, 24 := KBool]

  function ApplyUpdate(m: UpdateParserSettingsRequest, tag: uint32, v: Scalar): UpdateParserSettingsRequest {
    if tag == 8 then m.(maxPages := Some(IntOf(v)))
    else if tag == 16 then m.(batchSize := Some(IntOf(v)))
    else if tag == 24 then m.(autoImport := Some(FlagOf(v)))
    else m
  }

  function UpdateSchema(): Schema<UpdateParserSettingsRequest, Scalar> {
    Schema(Scanner(ScalarCases(UPDATE_KINDS)), ApplyUpdate)
  }

  function UpdateRecords(m: UpdateParserSettingsRequest): seq<Rec<Scalar>> {
    Optional(m.maxPages.Some?, 8, Int(OrZero(m.maxPages)))
    + Optional(m.batchSize.Some?, 16, Int(OrZero(m.batchSize)))
    + Optional(m.autoImport.Some?, 24, Flag(OrFalse(m.autoImport)))
  }

  lemma UpdateLaws(tag: uint32)
    ensures Commutes(UpdateSchema()) && Replaces(UpdateSchema(), tag)
  {}

  lemma UpdateFolds(m: UpdateParserSettingsRequest)
    ensures Fold(UpdateSchema(), BASE_UPDATE, UpdateRecords(m)) == m
  {
    var s := UpdateSchema();
    var m0 := BASE_UPDATE.(maxPages := m.maxPages);
    var r0 := Optional(m.maxPages.Some?, 8, Int(OrZero(m.maxPages)));
    assert [] + r0 == r0;
    FoldOptional(s, BASE_UPDATE, [], BASE_UPDATE, m.maxPages.Some?, 8, Int(OrZero(m.maxPages)), m0);
    var m1 := m0.(batchSize := m.batchSize);
    FoldOptional(s, BASE_UPDATE, r0, m0, m.batchSize.Some?, 16, Int(OrZero(m.batchSize)), m1);
    var r1 := r0 + Optional(m.batchSize.Some?, 16, Int(OrZero(m.batchSize)));
    var m2 := m1.(autoImport := m.autoImport);
    FoldOptional(s, BASE_UPDATE, r1, m1, m.autoImport.Some?, 24, Flag(OrFalse(m.autoImport)), m2);
  }

  lemma UpdateWritten(m: UpdateParserSettingsRequest)
    ensures AreRecords(UpdateSchema(), UpdateRecords(m))
  {
    var s, k := UpdateSchema(), UPDATE_KINDS;
    OptionalWritten(s, k, m.maxPages.Some?, 8, Int(OrZero(m.maxPages)));
    OptionalWritten(s, k, m.batchSize.Some?, 16, Int(OrZero(m.batchSize)));
    OptionalWritten(s, k, m.autoImport.Some?, 24, Flag(OrFalse(m.autoImport)));
  }

  function UpdateMessage(): Message<UpdateParserSettingsRequest, Scalar> {
    Message(UpdateSchema(), BASE_UPDATE, (_: UpdateParserSettingsRequest) => true, UpdateRecords)
  }

  lemma UpdateSound()
    ensures Sound(UpdateMessage())
  {
    FlatLocal(UpdateSchema(), UPDATE_KINDS);
    forall m ensures LaidDown(UpdateMessage(), m) {
      UpdateWritten(m);
      UpdateFolds(m);
    }
  }

  // ---------- ParserSettings ----------

  datatype ParserSettings = ParserSettings(maxPages: int32, batchSize: int32, autoImport: bool)

  const BASE_SETTINGS := ParserSettings(0, 0, false)

  const SETTINGS_KINDS: map<uint32, Kind> := map[8 := KInt32, 16 := KInt32, 24 := KBool]

  function ApplySettings(m: ParserSettings, tag: uint32, v: Scalar): ParserSettings {
    if tag == 8 then m.(maxPages := IntOf(v))
    else if tag == 16 then m.(batchSize := IntOf(v))
    else if tag == 24 then m.(autoImport := FlagOf(v))
    else m
  }

  function SettingsSchema(): Schema<ParserSettings, Scalar> {
    Schema(Scanner(ScalarCases(SETTINGS_KINDS)), ApplySettings)
  }

  function SettingsRecords(m: ParserSettings): seq<Rec<Scalar>> {
    Optional(m.maxPages != 0, 8, Int(m.maxPages))
    + Optional(m.batchSize != 0, 16, Int(m.batchSize))
    + Optional(m.autoImport, 24, Flag(m.autoImport))
  }

  lemma SettingsLaws(tag: uint32)
    ensures Commutes(SettingsSchema()) && Replaces(SettingsSchema(), tag)
  {}

  lemma SettingsFolds(m: ParserSettings)
    ensures Fold(SettingsSchema(), BASE_SETTINGS, SettingsRecords(m)) == m
  {
    var s := SettingsSchema();
    var m0 := BASE_SETTINGS.(maxPages := m.maxPages);
    var r0 := Optional(m.maxPages != 0, 8, Int(m.maxPages));
    assert [] + r0 == r0;
    FoldOptional(s, BASE_SETTINGS, [], BASE_SETTINGS, m.maxPages != 0, 8, Int(m.maxPages), m0);
    var m1 := m0.(batchSize := m.batchSize);
    FoldOptional(s, BASE_SETTINGS, r0, m0, m.batchSize != 0, 16, Int(m.batchSize), m1);
    var r1 := r0 + Optional(m.batchSize != 0, 16, Int(m.batchSize));
    var m2 := m1.(autoImport := m.autoImport);
    FoldOptional(s, BASE_SETTINGS, r1, m1, m.autoImport, 24, Flag(m.autoImport), m2);
  }

  lemma SettingsWritten(m: ParserSettings)
    ensures AreRecords(SettingsSchema(), SettingsRecords(m))
  {
    var s, k := SettingsSchema(), SETTINGS_KINDS;
    OptionalWritten(s, k, m.maxPages != 0, 8, Int(m.maxPages));
    OptionalWritten(s, k, m.batchSize != 0, 16, Int(m.batchSize));
    OptionalWritten(s, k, m.autoImport, 24, Flag(m.autoImport));
  }

  function SettingsMessage(): Message<ParserSettings, Scalar> {
    Message(SettingsSchema(), BASE_SETTINGS, (_: ParserSettings) => true, SettingsRecords)
  }

  lemma SettingsSound()
    ensures Sound(SettingsMessage())
  {
    FlatLocal(SettingsSchema(), SETTINGS_KINDS);
    forall m ensures LaidDown(SettingsMessage(), m) {
      SettingsWritten(m);
      SettingsFolds(m);
    }
  }
}
