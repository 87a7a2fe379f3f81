/** The message declarations of parser.proto, in their own terms of field number
    and type, which the generated tags must match. */
module Declared {
  import opened Options
  import opened Wire
  import opened Scalars
  import opened Codecs
  import opened Messages
  import opened Nested

  datatype FieldType = String | Int32 | Bool | Embedded

  function WireType(t: FieldType): nat {
    match t
    case String => 2
    case Int32 => 0
    case Bool => 0
    case Embedded => 2
  }

  function Key(number: nat, t: FieldType): nat { number * 8 + WireType(t) }

  /** Each declared field of a task, and no other, is known by its own tag and
      type, and its record sets that field alone. */
  lemma TaskFollowsDeclaration(m: ParserTask, s: bytes, i: int32)
    ensures TASK_KINDS == map[
      Key(1, String) := KText, Key(2, String) := KText, Key(3, String) := KText, Key(4, String) := KText,
      Key(5, String) := KText, Key(6, Int32) := KInt32, Key(7, Int32) := KInt32, Key(8, String) := KText,
      Key(9, String) := KText, Key(10, String) := KText, Key(11, String) := KText]
    ensures ApplyTask(m, Key(1, String), Text(s)) == m.(id := s)
    ensures ApplyTask(m, Key(2, String), Text(s)) == m.(category := s)
    ensures ApplyTask(m, Key(3, String), Text(s)) == m.(status := s)
    ensures ApplyTask(m, Key(4, String), Text(s)) == m.(dateFrom := s)
    ensures ApplyTask(m, Key(5, String), Text(s)) == m.(dateTo := s)
    ensures ApplyTask(m, Key(6, Int32), Int(i)) == m.(totalFound := i)
    ensures ApplyTask(m, Key(7, Int32), Int(i)) == m.(totalParsed := i)
    ensures ApplyTask(m, Key(8, String), Text(s)) == m.(csvUrl := s)
    ensures ApplyTask(m, Key(9, String), Text(s)) == m.(userId := s)
    ensures ApplyTask(m, Key(10, String), Text(s)) == m.(createdAt := s)
    ensures ApplyTask(m, Key(11, String), Text(s)) == m.(updatedAt := s)
  {}

  lemma RequestsFollowDeclaration(t: ParserTaskIdRequest, c: CreateParserTaskRequest, u: UpdateParserSettingsRequest,
                                  p: ParserSettings, s: bytes, i: int32, b: bool)
    ensures TASK_ID_KINDS == map[Key(1, String) := KText]
    ensures ApplyTaskId(t, Key(1, String), Text(s)) == t.(id := s)
    ensures CREATE_KINDS == map[
      Key(1, String) := KText, Key(2, String) := KText, Key(3, String) := KText, Key(4, String) := KText]
    ensures ApplyCreate(c, Key(1, String), Text(s)) == c.(category := s)
    ensures ApplyCreate(c, Key(2, String), Text(s)) == c.(dateFrom := s)
    ensures ApplyCreate(c, Key(3, String), Text(s)) == c.(dateTo := s)
    ensures ApplyCreate(c, Key(4, String), Text(s)) == c.(userId := s)
    ensures UPDATE_KINDS == SETTINGS_KINDS
         == map[Key(1, Int32) := KInt32, Key(2, Int32) := KInt32, Key(3, Bool) := KBool]
    ensures ApplyUpdate(u, Key(1, Int32), Int(i)) == u.(maxPages := Some(i))
    ensures ApplyUpdate(u, Key(2, Int32), Int(i)) == u.(batchSize := Some(i))
    ensures ApplyUpdate(u, Key(3, Bool), Flag(b)) == u.(autoImport := Some(b))
    ensures ApplySettings(p, Key(1, Int32), Int(i)) == p.(maxPages := i)
    ensures ApplySettings(p, Key(2, Int32), Int(i)) == p.(batchSize := i)
    ensures ApplySettings(p, Key(3, Bool), Flag(b)) == p.(autoImport := b)
  {}

  lemma ListsFollowDeclaration<P>(task: SubCodec<ParserTask>, page: SubCodec<P>, tag: uint32,
                                  l: ParserTaskList<P>, t: ParserTask, r: ListParserTasksRequest<P>, p: P, s: bytes)
    ensures ListCases(task, page).knows(tag) <==> tag == Key(1, Embedded) || tag == Key(2, Embedded)
    ensures RequestCases(page).knows(tag) <==> tag == Key(1, Embedded) || tag == Key(2, String)
    ensures ApplyList(l, Key(1, Embedded), TaskItem(t)) == l.(tasks := l.tasks + [t])
    ensures ApplyList(l, Key(2, Embedded), PageItem(p)) == l.(pagination := Some(p))
    ensures ApplyRequest(r, Key(1, Embedded), PageArg(p)) == r.(pagination := Some(p))
    ensures ApplyRequest(r, Key(2, String), UserArg(s)) == r.(userId := s)
  {}
}
