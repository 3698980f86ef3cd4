/**
 The entities of the branching-conversation engine: messages, conversations,
 and the JavaScript-flavoured notion of an optional link (an absent link and
 an empty-string link are both "no link", as a falsy test treats them).
 */
module Types {

  /** Conversation and message identifiers are opaque strings. */
  type Id = string

  datatype Option<+T> = None | Some(value: T)

  /** The closed set of roles a message can carry. */
  datatype Role = User | Assistant | System

  /** Identifiers are uuid v4 strings: 36 characters, so never empty. */
  predicate IsUuidShaped(id: Id) {
    |id| == 36
  }

  /** The wire name of a role, as it appears in transcripts. */
  function RoleName(r: Role): (name: string)
    ensures |name| > 0
  {
    match r
    case User => "user"
    case Assistant => "assistant"
    case System => "system"
  }

  /** A message; its creation timestamp is never read by the engine and is not modelled. */
  datatype Message = Message(id: Id, role: Role, content: string)

  /** A conversation node of the tree; its creation timestamp is not modelled. */
  datatype Conversation = Conversation(
    id: Id,
    title: string,
    messages: seq<Message>,
    parentId: Option<Id>,
    parentMessageId: Option<Id>,
    childrenIds: seq<Id>)

  /** The parent link as a key: "" when the link is absent (undefined) or empty. */
  function ParentKey(c: Conversation): Id {
    if c.parentId.Some? then c.parentId.value else ""
  }

  /** True when the parent link passes a JavaScript truthiness test. */
  predicate HasParent(c: Conversation) {
    ParentKey(c) != ""
  }

  /** The branch point as a key: "" when absent or empty. */
  function BranchPoint(c: Conversation): Id {
    if c.parentMessageId.Some? then c.parentMessageId.value else ""
  }

  /** The index of the first message carrying `id` (Array.prototype.findIndex). */
  function IndexOfId(msgs: seq<Message>, id: Id): (r: Option<nat>)
    ensures r.Some? ==> r.value < |msgs| && msgs[r.value].id == id
    ensures r.Some? ==> forall j :: 0 <= j < r.value ==> msgs[j].id != id
    ensures r.None? <==> forall j :: 0 <= j < |msgs| ==> msgs[j].id != id
  {
    if |msgs| == 0 then None
    else if msgs[0].id == id then Some(0)
    else match IndexOfId(msgs[1..], id)
      case None => None
      case Some(k) => Some(k + 1)
  }

  /** The first message carrying `id` (Array.prototype.find). */
  function FindById(msgs: seq<Message>, id: Id): (r: Option<Message>)
    ensures r.Some? <==> exists j :: 0 <= j < |msgs| && msgs[j].id == id
    ensures r.Some? ==> r.value.id == id && r.value in msgs
    ensures r.Some? ==> IndexOfId(msgs, id).Some? && r.value == msgs[IndexOfId(msgs, id).value]
  {
    match IndexOfId(msgs, id)
    case None => None
    case Some(k) => Some(msgs[k])
  }

  /** No two messages of the sequence share an identifier. */
  predicate DistinctMessageIds(msgs: seq<Message>) {
    forall i, j :: 0 <= i < j < |msgs| ==> msgs[i].id != msgs[j].id
  }

  /** No identifier occurs twice in the sequence. */
  predicate Distinct(ids: seq<Id>) {
    forall i, j :: 0 <= i < j < |ids| ==> ids[i] != ids[j]
  }

  function Min(a: int, b: int): int {
    if a <= b then a else b
  }

  function Max(a: int, b: int): int {
    if a >= b then a else b
  }
}
