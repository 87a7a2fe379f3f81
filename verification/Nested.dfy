/** Messages with submessages. A submessage's codec is known here by its laws
    alone: the task codec is proved to obey them, the pagination codec is assumed
    to. */
module Nested {
  import opened Options
  import opened Wire
  import opened Records
  import opened Codecs
  import opened Dispatch
  import opened Messages

  /** The length prefix is a uint32. */
  predicate Embeds<P>(c: SubCodec<P>, p: P) { c.fits(p) && |c.encode(p)| < TWO_32 }

  /** A length, then the submessage. */
  function SubAt<P>(c: SubCodec<P>, buf: bytes, pos: nat): Read<P> {
    var (length, start) :- UInt32At(buf, pos);
    c.decode(buf, start, start + length)
  }

  lemma SubForward<P>(c: SubCodec<P>, buf: bytes, pos: nat)
    requires MovesForward(c) && SubAt(c, buf, pos).Got?
    ensures pos < SubAt(c, buf, pos).next <= |buf|
  {}

  lemma SubWritten<P(!new)>(c: SubCodec<P>, p: P, buf: bytes, pos: nat)
    requires Frames(c) && Embeds(c, p)
    requires At(buf, pos, Delimited(c.encode(p)))
    ensures SubAt(c, buf, pos) == Got(p, pos + |Delimited(c.encode(p))|)
  {
    var b := c.encode(p);
    DelimitedWritten(b);
    DelimitedReads(buf, pos, Delimited(b), |Varint(|b|)|);
    AtSplit(buf, pos, Varint(|b|), b);
    assert FramesAt(c, p, buf, pos + |Varint(|b|)|);
  }

  lemma SubMoves<P(!new)>(c: SubCodec<P>, buf: bytes, pos: nat, buf': bytes, pos': nat)
    requires MovesForward(c) && Moves(c) && SubAt(c, buf, pos).Got?
    requires pos <= SubAt(c, buf, pos).next <= |buf|
    requires At(buf', pos', buf[pos..SubAt(c, buf, pos).next])
    ensures SubAt(c, buf', pos') == Got(SubAt(c, buf, pos).value, pos' + (SubAt(c, buf, pos).next - pos))
  {
    var Got(length, start) := UInt32At(buf, pos);
    var Got(p, next) := SubAt(c, buf, pos);
    TagRead(buf, pos);
    assert buf[pos..next] == buf[pos..start] + buf[start..next];
    AtSplit(buf', pos', buf[pos..start], buf[start..next]);
    TagReads(buf', pos', buf[pos..start], length);
    assert MovesTo(c, buf, start, length, buf', pos' + (start - pos));
  }

  // ---------- ParserTaskList ----------

  datatype ParserTaskList<P> = ParserTaskList(tasks: seq<ParserTask>, pagination: Option<P>)

  datatype ListItem<P> = TaskItem(task: ParserTask) | PageItem(page: P)

  function TaskOf<P>(v: ListItem<P>): ParserTask { if v.TaskItem? then v.task else BASE_TASK }

  function PageOf<P>(v: ListItem<P>): Option<P> { if v.PageItem? then Some(v.page) else None }

  function BaseList<P>(): ParserTaskList<P> { ParserTaskList([], None) }

  ghost function ListRead<P>(task: SubCodec<ParserTask>, page: SubCodec<P>, tag: uint32, buf: bytes, pos: nat)
      : Read<ListItem<P>>
  {
    if tag == 10 then
      var (t, next) :- SubAt(task, buf, pos);
      Got(TaskItem(t), next)
    else
      var (p, next) :- SubAt(page, buf, pos);
      Got(PageItem(p), next)
  }

  ghost function ListCases<P>(task: SubCodec<ParserTask>, page: SubCodec<P>): Cases<ListItem<P>> {
    Cases((tag: uint32) => tag == 10 || tag == 18,
          (tag: uint32, buf: bytes, pos: nat) => ListRead(task, page, tag, buf, pos))
  }

  /** A task is pushed; pagination is replaced, not merged. */
  function ApplyList<P>(m: ParserTaskList<P>, tag: uint32, v: ListItem<P>): ParserTaskList<P> {
    if tag == 10 then m.(tasks := m.tasks + [TaskOf(v)])
    else if tag == 18 then m.(pagination := PageOf(v))
    else m
  }

  ghost function ListSchema<P>(task: SubCodec<ParserTask>, page: SubCodec<P>): Schema<ParserTaskList<P>, ListItem<P>> {
    Schema(Scanner(ListCases(task, page)), (m, tag, v) => ApplyList(m, tag, v))
  }

  function SubField<V>(tag: uint32, b: bytes, v: V): Rec<V> {
    Rec(tag, Varint(tag) + Delimited(b), Some(v))
  }

  function TaskItems<P>(task: SubCodec<ParserTask>, ts: seq<ParserTask>): seq<Rec<ListItem<P>>> {
    if ts == [] then []
    else [SubField(10, task.encode(ts[0]), TaskItem(ts[0]))] + TaskItems(task, ts[1..])
  }

  function PageItems<P>(page: SubCodec<P>, p: Option<P>): seq<Rec<ListItem<P>>> {
    match p
    case None => []
    case Some(v) => [SubField(18, page.encode(v), PageItem(v))]
  }

  function ListRecords<P>(task: SubCodec<ParserTask>, page: SubCodec<P>, m: ParserTaskList<P>): seq<Rec<ListItem<P>>> {
    TaskItems(task, m.tasks) + PageItems(page, m.pagination)
  }

  /** Every length the encoder writes is a uint32. */
  predicate ListFits<P>(task: SubCodec<ParserTask>, page: SubCodec<P>, m: ParserTaskList<P>) {
    (forall t :: t in m.tasks ==> Embeds(task, t)) && (m.pagination.Some? ==> Embeds(page, m.pagination.value))
  }

  lemma ListReadLocal<P(!new)>(task: SubCodec<ParserTask>, page: SubCodec<P>, tag: uint32, buf: bytes, pos: nat)
    requires Lawful(task) && Lawful(page)
    ensures ReadLocal(ListCases(task, page), tag, buf, pos)
  {
    var c := ListCases(task, page);
    if c.read(tag, buf, pos).Got? {
      if tag == 10 { SubForward(task, buf, pos); } else { SubForward(page, buf, pos); }
      var Got(v, next) := c.read(tag, buf, pos);
      forall buf', pos': nat | At(buf', pos', buf[pos..next])
        ensures c.read(tag, buf', pos') == Got(v, pos' + |buf[pos..next]|)
      {
        if tag == 10 { SubMoves(task, buf, pos, buf', pos'); } else { SubMoves(page, buf, pos, buf', pos'); }
      }
    }
  }

  lemma ListReadsLocal<P(!new)>(task: SubCodec<ParserTask>, page: SubCodec<P>)
    requires Lawful(task) && Lawful(page)
    ensures ReadsLocal(ListCases(task, page))
  {
    forall tag, buf, pos: nat ensures ReadLocal(ListCases(task, page), tag, buf, pos) {
      ListReadLocal(task, page, tag, buf, pos);
    }
  }

  lemma ListLocal<P(!new)>(task: SubCodec<ParserTask>, page: SubCodec<P>)
    requires Lawful(task) && Lawful(page)
    ensures Local(ListSchema(task, page))
  {
    ListReadsLocal(task, page);
    ScannerLocal(ListSchema(task, page), ListCases(task, page));
  }

  lemma ListCommutes<P(!new)>(task: SubCodec<ParserTask>, page: SubCodec<P>)
    ensures Commutes(ListSchema(task, page)) && Replaces(ListSchema(task, page), 18)
  {}

  lemma TaskItemScans<P(!new)>(task: SubCodec<ParserTask>, page: SubCodec<P>, t: ParserTask)
    requires Lawful(task) && Embeds(task, t)
    ensures IsRecord(ListSchema(task, page), SubField(10, task.encode(t), TaskItem(t)))
  {
    var c, b := ListCases(task, page), task.encode(t);
    forall buf, pos: nat | At(buf, pos, Delimited(b))
      ensures c.read(10, buf, pos) == Got(TaskItem(t), pos + |Delimited(b)|)
    {
      SubWritten(task, t, buf, pos);
    }
    FieldScans(ListSchema(task, page), c, 10, Delimited(b), TaskItem(t));
  }

  lemma PageItemScans<P(!new)>(task: SubCodec<ParserTask>, page: SubCodec<P>, p: P)
    requires Lawful(task) && Lawful(page) && Embeds(page, p)
    ensures IsRecord(ListSchema(task, page), SubField(18, page.encode(p), PageItem(p)))
  {
    var c, b := ListCases(task, page), page.encode(p);
    forall buf, pos: nat | At(buf, pos, Delimited(b))
      ensures c.read(18, buf, pos) == Got(PageItem(p), pos + |Delimited(b)|)
    {
      SubWritten(page, p, buf, pos);
    }
    FieldScans(ListSchema(task, page), c, 18, Delimited(b), PageItem(p));
  }

  lemma {:induction false} TaskItemsWritten<P(!new)>(task: SubCodec<ParserTask>, page: SubCodec<P>, ts: seq<ParserTask>)
    requires Lawful(task) && forall t :: t in ts ==> Embeds(task, t)
    ensures AreRecords(ListSchema(task, page), TaskItems(task, ts))
    decreases |ts|
  {
    if ts != [] {
      TaskItemScans(task, page, ts[0]);
      TaskItemsWritten(task, page, ts[1..]);
    }
  }

  lemma ListWritten<P(!new)>(task: SubCodec<ParserTask>, page: SubCodec<P>, m: ParserTaskList<P>)
    requires Lawful(task) && Lawful(page) && ListFits(task, page, m)
    ensures AreRecords(ListSchema(task, page), ListRecords(task, page, m))
  {
    TaskItemsWritten(task, page, m.tasks);
    if m.pagination.Some? {
      PageItemScans(task, page, m.pagination.value);
    }
  }

  lemma {:induction false} TaskItemsFold<P>(task: SubCodec<ParserTask>, page: SubCodec<P>, m: ParserTaskList<P>,
                                            ts: seq<ParserTask>)
    ensures Fold(ListSchema(task, page), m, TaskItems(task, ts)) == m.(tasks := m.tasks + ts)
    decreases |ts|
  {
    if ts == [] {
      assert m.tasks + ts == m.tasks;
    } else {
      var r: Rec<ListItem<P>> := SubField(10, task.encode(ts[0]), TaskItem(ts[0]));
      var m1 := m.(tasks := m.tasks + [ts[0]]);
      FoldCons(ListSchema(task, page), m, r, TaskItems(task, ts[1..]));
      assert ApplyRec(ListSchema(task, page), m, r) == m1;
      TaskItemsFold(task, page, m1, ts[1..]);
      assert m1.tasks + ts[1..] == m.tasks + ts;
    }
  }

  /** Folding a list's records onto `m` appends its tasks and, if it has
      pagination, replaces m's. */
  lemma ListFolds<P>(task: SubCodec<ParserTask>, page: SubCodec<P>, m: ParserTaskList<P>, l: ParserTaskList<P>)
    ensures Fold(ListSchema(task, page), m, ListRecords(task, page, l))
         == ParserTaskList(m.tasks + l.tasks, if l.pagination.Some? then l.pagination else m.pagination)
  {
    var s := ListSchema(task, page);
    FoldConcat(s, m, TaskItems(task, l.tasks), PageItems(page, l.pagination));
    TaskItemsFold(task, page, m, l.tasks);
    var rs := PageItems(page, l.pagination);
    if l.pagination.Some? {
      assert rs[1..] == [];
    }
  }

  ghost function ListMessage<P>(task: SubCodec<ParserTask>, page: SubCodec<P>)
      : Message<ParserTaskList<P>, ListItem<P>>
  {
    Message(ListSchema(task, page), BaseList(), m => ListFits(task, page, m), m => ListRecords(task, page, m))
  }

  lemma ListSound<P(!new)>(task: SubCodec<ParserTask>, page: SubCodec<P>)
    requires Lawful(task) && Lawful(page)
    ensures Sound(ListMessage(task, page))
  {
    ListLocal(task, page);
    forall m ensures LaidDown(ListMessage(task, page), m) {
      if ListFits(task, page, m) { ListWritten(task, page, m); }
      ListFolds(task, page, BaseList(), m);
    }
  }

  // ---------- ListParserTasksRequest ----------

  datatype ListParserTasksRequest<P> = ListParserTasksRequest(pagination: Option<P>, userId: bytes)

  datatype RequestItem<P> = PageArg(page: P) | UserArg(userId: bytes)

  function PageArgOf<P>(v: RequestItem<P>): Option<P> { if v.PageArg? then Some(v.page) else None }

  function UserArgOf<P>(v: RequestItem<P>): bytes { if v.UserArg? then v.userId else [] }

  function BaseRequest<P>(): ListParserTasksRequest<P> { ListParserTasksRequest(None, []) }

  function RequestRead<P>(page: SubCodec<P>, tag: uint32, buf: bytes, pos: nat): Read<RequestItem<P>> {
    if tag == 10 then
      var (p, next) :- SubAt(page, buf, pos);
      Got(PageArg(p), next)
    else
      var (s, next) :- BytesAt(buf, pos);
      Got(UserArg(s), next)
  }

  function RequestCases<P>(page: SubCodec<P>): Cases<RequestItem<P>> {
    Cases((tag: uint32) => tag == 10 || tag == 18,
          (tag: uint32, buf: bytes, pos: nat) => RequestRead(page, tag, buf, pos))
  }

  function ApplyRequest<P>(m: ListParserTasksRequest<P>, tag: uint32, v: RequestItem<P>): ListParserTasksRequest<P> {
    if tag == 10 then m.(pagination := PageArgOf(v))
    else if tag == 18 then m.(userId := UserArgOf(v))
    else m
  }

  function RequestSchema<P>(page: SubCodec<P>): Schema<ListParserTasksRequest<P>, RequestItem<P>> {
    Schema(Scanner(RequestCases(page)), (m, tag, v) => ApplyRequest(m, tag, v))
  }

  function RequestRecords<P>(page: SubCodec<P>, m: ListParserTasksRequest<P>): seq<Rec<RequestItem<P>>> {
    (match m.pagination
     case None => []
     case Some(p) => [SubField(10, page.encode(p), PageArg(p))])
    + if m.userId != [] then [SubField(18, m.userId, UserArg(m.userId))] else []
  }

  predicate RequestFits<P>(page: SubCodec<P>, m: ListParserTasksRequest<P>) {
    (m.pagination.Some? ==> Embeds(page, m.pagination.value)) && |m.userId| < TWO_32
  }

  lemma RequestReadLocal<P(!new)>(page: SubCodec<P>, tag: uint32, buf: bytes, pos: nat)
    requires Lawful(page)
    ensures ReadLocal(RequestCases(page), tag, buf, pos)
  {
    var c := RequestCases(page);
    if c.read(tag, buf, pos).Got? {
      if tag == 10 { SubForward(page, buf, pos); }
      var Got(v, next) := c.read(tag, buf, pos);
      forall buf', pos': nat | At(buf', pos', buf[pos..next])
        ensures c.read(tag, buf', pos') == Got(v, pos' + |buf[pos..next]|)
      {
        if tag == 10 {
          SubMoves(page, buf, pos, buf', pos');
        } else {
          var k := DelimitedReadOnlyIf(buf, pos);
          DelimitedReads(buf', pos', buf[pos..next], k);
        }
      }
    }
  }

  lemma RequestReadsLocal<P(!new)>(page: SubCodec<P>)
    requires Lawful(page)
    ensures ReadsLocal(RequestCases(page))
  {
    forall tag, buf, pos: nat ensures ReadLocal(RequestCases(page), tag, buf, pos) {
      RequestReadLocal(page, tag, buf, pos);
    }
  }

  lemma RequestLocal<P(!new)>(page: SubCodec<P>)
    requires Lawful(page)
    ensures Local(RequestSchema(page))
  {
    RequestReadsLocal(page);
    ScannerLocal(RequestSchema(page), RequestCases(page));
  }

  lemma RequestWritten<P(!new)>(page: SubCodec<P>, m: ListParserTasksRequest<P>)
    requires Lawful(page) && RequestFits(page, m)
    ensures AreRecords(RequestSchema(page), RequestRecords(page, m))
  {
    var s, c := RequestSchema(page), RequestCases(page);
    if m.pagination.Some? {
      var p := m.pagination.value;
      var b := page.encode(p);
      forall buf, pos: nat | At(buf, pos, Delimited(b))
        ensures c.read(10, buf, pos) == Got(PageArg(p), pos + |Delimited(b)|)
      {
        SubWritten(page, p, buf, pos);
      }
      FieldScans(s, c, 10, Delimited(b), PageArg(p));
    }
    UserArgScans(page, m.userId);
  }

  lemma UserArgScans<P>(page: SubCodec<P>, b: bytes)
    requires |b| < TWO_32
    ensures IsRecord(RequestSchema(page), SubField(18, b, UserArg(b)))
  {
    var c := RequestCases(page);
    DelimitedWritten(b);
    forall buf, pos: nat | At(buf, pos, Delimited(b))
      ensures c.read(18, buf, pos) == Got(UserArg(b), pos + |Delimited(b)|)
    {
      DelimitedReads(buf, pos, Delimited(b), |Varint(|b|)|);
    }
    FieldScans(RequestSchema(page), c, 18, Delimited(b), UserArg(b));
  }

  lemma RequestFolds<P>(page: SubCodec<P>, m: ListParserTasksRequest<P>)
    ensures Fold(RequestSchema(page), BaseRequest(), RequestRecords(page, m)) == m
  {
    var s := RequestSchema(page);
    var m1 := BaseRequest<P>().(pagination := m.pagination);
    var user: seq<Rec<RequestItem<P>>> :=
      if m.userId != [] then [SubField(18, m.userId, UserArg(m.userId))] else [];
    if m.pagination.Some? {
      var r := SubField(10, page.encode(m.pagination.value), PageArg(m.pagination.value));
      FoldCons(s, BaseRequest(), r, user);
      assert ApplyRec(s, BaseRequest(), r) == m1;
    } else {
      assert [] + user == user;
    }
    if m.userId != [] {
      FoldCons(s, m1, user[0], []);
      assert user == [user[0]] + [];
    }
  }

  function RequestMessage<P>(page: SubCodec<P>): Message<ListParserTasksRequest<P>, RequestItem<P>> {
    Message(RequestSchema(page), BaseRequest(), m => RequestFits(page, m), m => RequestRecords(page, m))
  }

  lemma RequestSound<P(!new)>(page: SubCodec<P>)
    requires Lawful(page)
    ensures Sound(RequestMessage(page))
  {
    RequestLocal(page);
    forall m ensures LaidDown(RequestMessage(page), m) {
      if RequestFits(page, m) { RequestWritten(page, m); }
      RequestFolds(page, m);
    }
  }
}
