/** What the encoders write, field by field: a record for every field that is not
    at its default and for no other, in the order of the field numbers. */
module Canonical {
  import opened Options
  import opened Wire
  import opened Records
  import opened Scalars
  import opened Codecs
  import opened Messages
  import opened Nested

  /** The bytes of one field: its tag in one byte, and the payload of its kind. */
  lemma FieldBytes(tag: uint32, v: Scalar)
    requires tag < 128 && Fits(v)
    ensures Field(tag, v).bytes[..1] == [tag]
    ensures var payload := Field(tag, v).bytes[1..];
            match v
            case Text(s) => exists k: nat :: IsDelimited(payload, k) && payload[k..] == s && (|s| < 128 ==> k == 1)
            case Int(i) =>
              && IsVarint(payload, 10)
              && VarintValue(payload) == if i < 0 then 0x1_0000_0000_0000_0000 + i else i
            case Flag(b) => payload == [if b then 1 else 0]
  {
    assert Field(tag, v).bytes[1..] == ScalarBytes(v);
    match v
    case Text(s) =>
      DelimitedWritten(s);
      assert IsDelimited(ScalarBytes(v), |Varint(|s|)|);
    case Int(i) => Int32Written(i);
    case Flag(_) =>
  }

  /** Tags ascend strictly, from `low` on and below `high`. */
  predicate Ordered<V>(rs: seq<Rec<V>>, low: nat, high: nat) {
    rs == [] || (low <= rs[0].tag < high && Ordered(rs[1..], rs[0].tag + 1, high))
  }

  /** The values of a field that occurs once or not at all. */
  function Once<V>(value: Option<V>): seq<V> {
    match value
    case Some(v) => [v]
    case None => []
  }

  lemma {:induction false} Lower<V>(rs: seq<Rec<V>>, low: nat, low': nat, high: nat, high': nat)
    requires Ordered(rs, low, high) && low' <= low && high <= high'
    ensures Ordered(rs, low', high')
    decreases |rs|
  {
    if rs != [] { Lower(rs[1..], rs[0].tag + 1, rs[0].tag + 1, high, high'); }
  }

  lemma {:induction false} OrderedConcat<V>(a: seq<Rec<V>>, b: seq<Rec<V>>, low: nat, mid: nat, high: nat)
    requires Ordered(a, low, mid) && Ordered(b, mid, high) && low <= mid <= high
    ensures Ordered(a + b, low, high)
    decreases |a|
  {
    if a == [] {
      assert a + b == b;
      Lower(b, mid, low, high, high);
    } else {
      assert (a + b)[1..] == a[1..] + b;
      OrderedConcat(a[1..], b, a[0].tag + 1, mid, high);
    }
  }

  lemma {:induction false} NoValuesOutside<V>(rs: seq<Rec<V>>, low: nat, high: nat, t: uint32)
    requires Ordered(rs, low, high) && !(low <= t < high)
    ensures Values(rs, t) == []
    decreases |rs|
  {
    if rs != [] { NoValuesOutside(rs[1..], rs[0].tag + 1, high, t); }
  }

  lemma OrderedJoin<V>(a: seq<Rec<V>>, b: seq<Rec<V>>, low: nat, mid: nat, high: nat, t: uint32)
    requires Ordered(a, low, mid) && Ordered(b, mid, high) && low <= mid <= high
    ensures Ordered(a + b, low, high)
    ensures Values(a + b, t) == if t < mid then Values(a, t) else Values(b, t)
  {
    OrderedConcat(a, b, low, mid, high);
    ValuesConcat(a, b, t);
    if t < mid { NoValuesOutside(b, mid, high, t); } else { NoValuesOutside(a, low, mid, t); }
  }

  /** One more optional field. */
  lemma OptionalOrdered(rs: seq<Rec<Scalar>>, low: nat, high: nat, present: bool, tag: uint32, v: Scalar, t: uint32)
    requires Ordered(rs, low, high) && low <= high <= tag
    ensures Ordered(rs + Optional(present, tag, v), low, tag + 1)
    ensures Values(rs + Optional(present, tag, v), t)
         == if t == tag then if present then [v] else [] else Values(rs, t)
  {
    if t == tag { NoValuesOutside(rs, low, high, t); }
    var field := Optional(present, tag, v);
    if present { assert [Field(tag, v)][1..] == []; }
    assert Ordered(field, tag, tag + 1);
    Lower(rs, low, low, high, tag);
    OrderedConcat(rs, field, low, tag, tag + 1);
    ValuesConcat(rs, field, t);
  }

  lemma FirstOrdered(low: nat, present: bool, tag: uint32, v: Scalar, t: uint32)
    requires low <= tag
    ensures Ordered(Optional(present, tag, v), low, tag + 1)
    ensures Values(Optional(present, tag, v), t) == if t == tag && present then [v] else []
  {
    if present { assert [Field(tag, v)][1..] == []; }
  }

  /** Three optional fields in a row. */
  lemma ThreeOrdered(low: nat, p0: bool, t0: uint32, v0: Scalar, p1: bool, t1: uint32, v1: Scalar,
                     p2: bool, t2: uint32, v2: Scalar, t: uint32)
    requires low <= t0 < t1 < t2
    ensures var rs := Optional(p0, t0, v0) + Optional(p1, t1, v1) + Optional(p2, t2, v2);
            && Ordered(rs, low, t2 + 1)
            && Values(rs, t) == if t == t0 && p0 then [v0]
                                else if t == t1 && p1 then [v1]
                                else if t == t2 && p2 then [v2]
                                else []
  {
    var r0 := Optional(p0, t0, v0);
    var r1 := r0 + Optional(p1, t1, v1);
    FirstOrdered(low, p0, t0, v0, t);
    OptionalOrdered(r0, low, t0 + 1, p1, t1, v1, t);
    OptionalOrdered(r1, low, t1 + 1, p2, t2, v2, t);
  }

  /** Four of them. */
  lemma FourOrdered(low: nat, p0: bool, t0: uint32, v0: Scalar, p1: bool, t1: uint32, v1: Scalar,
                    p2: bool, t2: uint32, v2: Scalar, p3: bool, t3: uint32, v3: Scalar, t: uint32)
    requires low <= t0 < t1 < t2 < t3
    ensures var rs := Optional(p0, t0, v0) + Optional(p1, t1, v1) + Optional(p2, t2, v2) + Optional(p3, t3, v3);
            && Ordered(rs, low, t3 + 1)
            && Values(rs, t) == if t == t0 && p0 then [v0]
                                else if t == t1 && p1 then [v1]
                                else if t == t2 && p2 then [v2]
                                else if t == t3 && p3 then [v3]
                                else []
  {
    ThreeOrdered(low, p0, t0, v0, p1, t1, v1, p2, t2, v2, t);
    OptionalOrdered(Optional(p0, t0, v0) + Optional(p1, t1, v1) + Optional(p2, t2, v2), low, t2 + 1, p3, t3, v3, t);
  }

  function TextUnlessEmpty(s: bytes): Option<Scalar> { if s == [] then None else Some(Text(s)) }

  function IntUnlessZero(i: int32): Option<Scalar> { if i == 0 then None else Some(Int(i)) }

  /** Four strings in a row. */
  lemma FourTexts(low: nat, s0: bytes, t0: uint32, s1: bytes, t1: uint32,
                  s2: bytes, t2: uint32, s3: bytes, t3: uint32, t: uint32)
    requires low <= t0 < t1 < t2 < t3
    ensures var rs := Optional(s0 != [], t0, Text(s0)) + Optional(s1 != [], t1, Text(s1))
                      + Optional(s2 != [], t2, Text(s2)) + Optional(s3 != [], t3, Text(s3));
            && Ordered(rs, low, t3 + 1)
            && Values(rs, t) == Once(if t == t0 then TextUnlessEmpty(s0)
                                     else if t == t1 then TextUnlessEmpty(s1)
                                     else if t == t2 then TextUnlessEmpty(s2)
                                     else if t == t3 then TextUnlessEmpty(s3)
                                     else None)
  {
    FourOrdered(low, s0 != [], t0, Text(s0), s1 != [], t1, Text(s1), s2 != [], t2, Text(s2), s3 != [], t3, Text(s3), t);
  }

  // ---------- ParserTask ----------

  function TaskField(m: ParserTask, tag: uint32): Option<Scalar> {
    if tag == 10 then TextUnlessEmpty(m.id)
    else if tag == 18 then TextUnlessEmpty(m.category)
    else if tag == 26 then TextUnlessEmpty(m.status)
    else if tag == 34 then TextUnlessEmpty(m.dateFrom)
    else if tag == 42 then TextUnlessEmpty(m.dateTo)
    else if tag == 48 then IntUnlessZero(m.totalFound)
    else if tag == 56 then IntUnlessZero(m.totalParsed)
    else if tag == 66 then TextUnlessEmpty(m.csvUrl)
    else if tag == 74 then TextUnlessEmpty(m.userId)
    else if tag == 82 then TextUnlessEmpty(m.createdAt)
    else if tag == 90 then TextUnlessEmpty(m.updatedAt)
    else None
  }

  lemma TaskOriginCanonical(m: ParserTask, tag: uint32)
    ensures Ordered(TaskOrigin(m), 0, 27)
    ensures tag < 27 ==> Values(TaskOrigin(m), tag) == Once(TaskField(m, tag))
  {
    ThreeOrdered(0, m.id != [], 10, Text(m.id), m.category != [], 18, Text(m.category),
                 m.status != [], 26, Text(m.status), tag);
  }

  lemma TaskRangeCanonical(m: ParserTask, tag: uint32)
    ensures Ordered(TaskRange(m), 27, 57)
    ensures 27 <= tag < 57 ==> Values(TaskRange(m), tag) == Once(TaskField(m, tag))
  {
    FourOrdered(27, m.dateFrom != [], 34, Text(m.dateFrom), m.dateTo != [], 42, Text(m.dateTo),
                m.totalFound != 0, 48, Int(m.totalFound), m.totalParsed != 0, 56, Int(m.totalParsed), tag);
  }

  lemma TaskResultCanonical(m: ParserTask, tag: uint32)
    ensures Ordered(TaskResult(m), 57, 91)
    ensures 57 <= tag ==> Values(TaskResult(m), tag) == Once(TaskField(m, tag))
  {
    FourTexts(57, m.csvUrl, 66, m.userId, 74, m.createdAt, 82, m.updatedAt, 90, tag);
  }

  /** A task's encoding has one record for each field that is not empty or zero,
      none for any other, in the order of the field numbers. */
  lemma TaskCanonical(m: ParserTask, tag: uint32)
    ensures Ordered(TaskRecords(m), 0, 91)
    ensures Values(TaskRecords(m), tag) == Once(TaskField(m, tag))
  {
    TaskOriginCanonical(m, tag);
    TaskRangeCanonical(m, tag);
    TaskResultCanonical(m, tag);
    OrderedJoin(TaskOrigin(m), TaskRange(m), 0, 27, 57, tag);
    OrderedJoin(TaskOrigin(m) + TaskRange(m), TaskResult(m), 0, 57, 91, tag);
  }

  // ---------- The other flat messages ----------

  lemma TaskIdCanonical(m: ParserTaskIdRequest, tag: uint32)
    ensures Ordered(TaskIdRecords(m), 0, 11)
    ensures Values(TaskIdRecords(m), tag) == Once(if tag == 10 then TextUnlessEmpty(m.id) else None)
  {
    FirstOrdered(0, m.id != [], 10, Text(m.id), tag);
  }

  function CreateField(m: CreateParserTaskRequest, tag: uint32): Option<Scalar> {
    if tag == 10 then TextUnlessEmpty(m.category)
    else if tag == 18 then TextUnlessEmpty(m.dateFrom)
    else if tag == 26 then TextUnlessEmpty(m.dateTo)
    else if tag == 34 then TextUnlessEmpty(m.userId)
    else None
  }

  lemma CreateCanonical(m: CreateParserTaskRequest, tag: uint32)
    ensures Ordered(CreateRecords(m), 0, 35)
    ensures Values(CreateRecords(m), tag) == Once(CreateField(m, tag))
  {
    FourTexts(0, m.category, 10, m.dateFrom, 18, m.dateTo, 26, m.userId, 34, tag);
  }

  function UpdateField(m: UpdateParserSettingsRequest, tag: uint32): Option<Scalar> {
    if tag == 8 && m.maxPages.Some? then Some(Int(m.maxPages.value))
    else if tag == 16 && m.batchSize.Some? then Some(Int(m.batchSize.value))
    else if tag == 24 && m.autoImport.Some? then Some(Flag(m.autoImport.value))
    else None
  }

  /** An update writes what is set, zero and false included. */
  lemma UpdateCanonical(m: UpdateParserSettingsRequest, tag: uint32)
    ensures Ordered(UpdateRecords(m), 0, 25)
    ensures Values(UpdateRecords(m), tag) == Once(UpdateField(m, tag))
  {
    ThreeOrdered(0, m.maxPages.Some?, 8, Int(OrZero(m.maxPages)), m.batchSize.Some?, 16, Int(OrZero(m.batchSize)),
                 m.autoImport.Some?, 24, Flag(OrFalse(m.autoImport)), tag);
  }

  function SettingsField(m: ParserSettings, tag: uint32): Option<Scalar> {
    if tag == 8 then IntUnlessZero(m.maxPages)
    else if tag == 16 then IntUnlessZero(m.batchSize)
    else if tag == 24 && m.autoImport then Some(Flag(true))
    else None
  }

  /** Settings write what is neither zero nor false. */
  lemma SettingsCanonical(m: ParserSettings, tag: uint32)
    ensures Ordered(SettingsRecords(m), 0, 25)
    ensures Values(SettingsRecords(m), tag) == Once(SettingsField(m, tag))
  {
    ThreeOrdered(0, m.maxPages != 0, 8, Int(m.maxPages), m.batchSize != 0, 16, Int(m.batchSize),
                 m.autoImport, 24, Flag(m.autoImport), tag);
  }

  // ---------- The messages with submessages ----------

  lemma {:induction false} TaskItemsAre<P>(task: SubCodec<ParserTask>, ts: seq<ParserTask>)
    ensures |TaskItems<P>(task, ts)| == |ts|
    ensures forall i :: 0 <= i < |ts| ==>
              TaskItems<P>(task, ts)[i] == SubField(10, task.encode(ts[i]), TaskItem(ts[i]))
    decreases |ts|
  {
    if ts != [] { TaskItemsAre<P>(task, ts[1..]); }
  }

  /** A list's encoding has one record for each of its tasks, in order, and then
      one for its pagination if it has any: a tag of one byte, the submessage's
      length, and its own encoding. */
  lemma ListCanonical<P>(task: SubCodec<ParserTask>, page: SubCodec<P>, m: ParserTaskList<P>)
    ensures var rs, n := ListRecords(task, page, m), |m.tasks|;
            && |rs| == n + (if m.pagination.Some? then 1 else 0)
            && (forall i :: 0 <= i < n ==>
                  rs[i] == Rec(10, [10] + Delimited(task.encode(m.tasks[i])), Some(TaskItem(m.tasks[i]))))
            && (m.pagination.Some? ==>
                  rs[n] == Rec(18, [18] + Delimited(page.encode(m.pagination.value)),
                               Some(PageItem(m.pagination.value))))
  {
    TaskItemsAre<P>(task, m.tasks);
  }

  /** A request's encoding has a record for its pagination if it has any, then one
      for its user unless that is empty. */
  lemma RequestCanonical<P>(page: SubCodec<P>, m: ListParserTasksRequest<P>)
    ensures RequestRecords(page, m)
         == (if m.pagination.None? then []
             else [Rec(10, [10] + Delimited(page.encode(m.pagination.value)), Some(PageArg(m.pagination.value)))])
            + (if m.userId == [] then [] else [Rec(18, [18] + Delimited(m.userId), Some(UserArg(m.userId)))])
  {}
}
