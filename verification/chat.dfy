/**
 The send flow of the chat window: resolving the target conversation,
 titling a conversation from its first message, appending the user's
 message and an empty assistant placeholder, capturing the context of the
 request, and folding the streamed reply, or the failure notice, into the
 placeholder. The request to the model is not modelled: it is a parameter
 that says which chunks arrived and whether the call failed.
 */
module ChatSend {
  import opened Types
  import opened Text
  import opened Tree
  import opened ConversationStore
  import opened ContextAssembly

  /** How many characters of the trimmed first message make up a title. */
  const TitleLimit: nat := 40

  /** The notice that replaces the assistant's reply when the request fails. */
  const ErrorReply: string :=
    "Sorry, I encountered an error. Please make sure the backend server is running on port 3000 with a valid GROQ_API_KEY."

  /** What the streaming request delivered: its chunks in order, and whether it then failed. */
  datatype Reply = Reply(chunks: seq<string>, failed: bool)

  /** The store after a send, and the context sent with the request (`None` when nothing was sent). */
  datatype Sent = Sent(store: Store, request: Option<seq<Message>>)

  // ---------------------------------------------------------------------------
  // Target and title
  // ---------------------------------------------------------------------------

  /** `targetConversationId || activeConversationId`: a missing or empty target falls back to the active id. */
  function SendTarget(requested: Option<Id>, activeId: Id): (id: Id)
    ensures requested.Some? && requested.value != "" ==> id == requested.value
    ensures requested.None? || requested.value == "" ==> id == activeId
    ensures id == "" ==> activeId == ""
  {
    if requested.Some? && requested.value != "" then requested.value else activeId
  }

  /**
   The title a first message gives its conversation: the trimmed content cut
   to 40 characters, then "..." when the content itself, untrimmed, is
   longer than 40 characters.
   */
  function AutoTitle(content: string): (title: string)
    ensures |title| == Min(TitleLimit, |Trim(content)|) + (if |content| > TitleLimit then 3 else 0)
    ensures title[..Min(TitleLimit, |Trim(content)|)] <= Trim(content)
    ensures |content| > TitleLimit ==> title[|title| - 3..] == "..."
  {
    var t := Take(Trim(content), TitleLimit);
    var title := t + (if |content| > TitleLimit then "..." else "");
    assert title[..|t|] == t;
    title
  }

  /** A short first message without surrounding whitespace becomes the title unchanged. */
  lemma AutoTitleOfShortText(t: string)
    requires |t| <= TitleLimit
    requires |t| > 0 ==> !IsJsWhitespace(t[0]) && !IsJsWhitespace(t[|t| - 1])
    ensures AutoTitle(t) == t
  {
    TrimDropsPadding(t, "");
    assert t + "" == t;
  }

  /**
   The length test reads the untrimmed content: short text padded with
   trailing whitespace past 40 characters is titled with the text and "...".
   */
  lemma AutoTitleCountsPadding(t: string, w: string)
    requires |t| <= TitleLimit && |t| + |w| > TitleLimit
    requires |t| > 0 ==> !IsJsWhitespace(t[0]) && !IsJsWhitespace(t[|t| - 1])
    requires AllWhitespace(w)
    ensures AutoTitle(t + w) == t + "..."
  {
    TrimDropsPadding(t, w);
  }

  // ---------------------------------------------------------------------------
  // Streaming
  // ---------------------------------------------------------------------------

  /** `msg?.content || ''` for the first message carrying `id`. */
  function ContentOf(msgs: seq<Message>, id: Id): (content: string)
    ensures IndexOfId(msgs, id).Some? ==> content == msgs[IndexOfId(msgs, id).value].content
    ensures (forall j :: 0 <= j < |msgs| ==> msgs[j].id != id) ==> content == ""
  {
    match FindById(msgs, id)
    case None => ""
    case Some(m) => m.content
  }

  /**
   The message the stream writes into: the one already chosen, or, while none
   is ("" stands for `null`), the last message when it is the assistant's.
   */
  function Resolve(msgs: seq<Message>, target: Id): (t: Id)
    ensures target != "" ==> t == target
    ensures target == "" && t != "" ==> |msgs| > 0 && msgs[|msgs| - 1].role == Assistant && msgs[|msgs| - 1].id == t
    ensures target == "" && |msgs| > 0 && msgs[|msgs| - 1].role == Assistant ==> t == msgs[|msgs| - 1].id
  {
    if target != "" then target
    else if |msgs| > 0 && msgs[|msgs| - 1].role == Assistant then msgs[|msgs| - 1].id
    else ""
  }

  /**
   The callback run on each chunk: it resolves the message to fill and
   appends the chunk to that message's current content. Only the target
   conversation can change.
   */
  function OnChunk(s: Store, id: Id, target: Id, chunk: string): (r: (Store, Id))
    requires id in s.conversations
    ensures r.0.conversations.Keys == s.conversations.Keys
    ensures forall k :: k in s.conversations && k != id ==> r.0.conversations[k] == s.conversations[k]
    ensures r.0.order == s.order && r.0.activeId == s.activeId && r.0.rootId == s.rootId
    ensures r.0.conversations[id] == s.conversations[id].(messages := r.0.conversations[id].messages)
    ensures r.1 == Resolve(s.conversations[id].messages, target)
    ensures r.1 == "" ==> r.0 == s
    ensures |r.0.conversations[id].messages| == |s.conversations[id].messages|
    ensures var msgs, msgs' := s.conversations[id].messages, r.0.conversations[id].messages;
      forall i :: 0 <= i < |msgs| ==>
        && msgs'[i].id == msgs[i].id && msgs'[i].role == msgs[i].role
        && msgs'[i].content == (if r.1 != "" && msgs[i].id == r.1 then ContentOf(msgs, r.1) + chunk else msgs[i].content)
  {
    var msgs := s.conversations[id].messages;
    var t := Resolve(msgs, target);
    if t == "" then (s, t)
    else (UpdateMessageContent(s, id, t, ContentOf(msgs, t) + chunk), t)
  }

  /**
   An empty chunk leaves the messages as they are when their ids are
   distinct: the stream reader skips empty chunks before the callback, and
   the model, which hands them on, loses nothing by it.
   */
  lemma EmptyChunkKeepsMessages(s: Store, id: Id, target: Id)
    requires id in s.conversations && DistinctMessageIds(s.conversations[id].messages)
    ensures OnChunk(s, id, target, "").0.conversations[id].messages == s.conversations[id].messages
  {
    var msgs := s.conversations[id].messages;
    var r := OnChunk(s, id, target, "");
    var msgs' := r.0.conversations[id].messages;
    forall i | 0 <= i < |msgs|
      ensures msgs'[i] == msgs[i]
    {
      if r.1 != "" && msgs[i].id == r.1 {
        var k := IndexOfId(msgs, r.1).value;
        assert k == i;
        assert ContentOf(msgs, r.1) + "" == msgs[i].content;
      }
    }
  }

  /** The chunks in arrival order, each handled by the callback with the target the previous one left. */
  function Stream(s: Store, id: Id, target: Id, chunks: seq<string>): (r: (Store, Id))
    requires id in s.conversations
    ensures r.0.conversations.Keys == s.conversations.Keys
    ensures forall k :: k in s.conversations && k != id ==> r.0.conversations[k] == s.conversations[k]
    ensures r.0.order == s.order && r.0.activeId == s.activeId && r.0.rootId == s.rootId
    ensures r.0.conversations[id] == s.conversations[id].(messages := r.0.conversations[id].messages)
    ensures |r.0.conversations[id].messages| == |s.conversations[id].messages|
    ensures forall i :: 0 <= i < |s.conversations[id].messages| ==>
      r.0.conversations[id].messages[i].id == s.conversations[id].messages[i].id &&
      r.0.conversations[id].messages[i].role == s.conversations[id].messages[i].role
    ensures target != "" ==> r.1 == target
    decreases |chunks|
  {
    if |chunks| == 0 then (s, target)
    else
      var r := OnChunk(s, id, target, chunks[0]);
      Stream(r.0, id, r.1, chunks[1..])
  }

  /** The chunks joined in order. */
  function Concat(chunks: seq<string>): string {
    if |chunks| == 0 then "" else chunks[0] + Concat(chunks[1..])
  }

  /** Appending the joined chunks is appending the first chunk, then the rest joined. */
  lemma ConcatStep(content: string, chunks: seq<string>)
    requires |chunks| > 0
    ensures content + Concat(chunks) == (content + chunks[0]) + Concat(chunks[1..])
  {
  }

  /**
   One chunk arriving while the conversation ends with the assistant
   placeholder `replyId` (an id no earlier message carries) is appended to
   the placeholder, which becomes the target; nothing else in the
   conversation moves.
   */
  lemma ChunkFillsReply(s: Store, id: Id, target: Id, before: seq<Message>, replyId: Id, content: string, chunk: string)
    requires id in s.conversations && replyId != ""
    requires s.conversations[id].messages == before + [Message(replyId, Assistant, content)]
    requires forall j :: 0 <= j < |before| ==> before[j].id != replyId
    requires target == "" || target == replyId
    ensures OnChunk(s, id, target, chunk).1 == replyId
    ensures OnChunk(s, id, target, chunk).0.conversations[id].messages == before + [Message(replyId, Assistant, content + chunk)]
  {
    var msgs := s.conversations[id].messages;
    assert msgs[|before|] == Message(replyId, Assistant, content);
    assert Resolve(msgs, target) == replyId;
    assert ContentOf(msgs, replyId) == content;
    var c := s.conversations[id];
    var u := UpdateMessageContent(s, id, replyId, content + chunk);
    assert OnChunk(s, id, target, chunk) == (u, replyId);
    assert u.conversations[id].messages == ReplaceContent(msgs, replyId, content + chunk);
    ReplaceLast(before, replyId, content, content + chunk);
  }

  /** Rewriting the content of a last message whose id no earlier message carries changes that message only. */
  lemma ReplaceLast(before: seq<Message>, replyId: Id, content: string, content': string)
    requires forall j :: 0 <= j < |before| ==> before[j].id != replyId
    ensures ReplaceContent(before + [Message(replyId, Assistant, content)], replyId, content') ==
      before + [Message(replyId, Assistant, content')]
  {
    var msgs := before + [Message(replyId, Assistant, content)];
    var after := ReplaceContent(msgs, replyId, content');
    forall j | 0 <= j < |after|
      ensures after[j] == (before + [Message(replyId, Assistant, content')])[j]
    {
      if j < |before| {
        assert msgs[j] == before[j];
      }
    }
  }

  /**
   The whole stream appends the chunks, in order, to the placeholder, and
   the placeholder is the target once any chunk has arrived.
   */
  lemma {:induction false} StreamFillsReply(s: Store, id: Id, target: Id, before: seq<Message>, replyId: Id, content: string, chunks: seq<string>)
    requires id in s.conversations && replyId != ""
    requires s.conversations[id].messages == before + [Message(replyId, Assistant, content)]
    requires forall j :: 0 <= j < |before| ==> before[j].id != replyId
    requires target == "" || target == replyId
    ensures var r := Stream(s, id, target, chunks);
      && (r.1 == "" || r.1 == replyId)
      && (|chunks| > 0 ==> r.1 == replyId)
      && r.0.conversations[id].messages == before + [Message(replyId, Assistant, content + Concat(chunks))]
    decreases |chunks|
  {
    if |chunks| == 0 {
      assert content + Concat(chunks) == content;
    } else {
      ChunkFillsReply(s, id, target, before, replyId, content, chunks[0]);
      var r := OnChunk(s, id, target, chunks[0]);
      assert Stream(s, id, target, chunks) == Stream(r.0, id, r.1, chunks[1..]);
      StreamFillsReply(r.0, id, r.1, before, replyId, content + chunks[0], chunks[1..]);
      ConcatStep(content, chunks);
    }
  }

  /**
   The `catch` block: when the conversation's last message is the
   assistant's, every message with its id gets the error notice. It reads
   the last message unguarded, so it needs one.
   */
  function Fail(s: Store, id: Id): (r: Store)
    requires id in s.conversations && |s.conversations[id].messages| > 0
    ensures r.conversations.Keys == s.conversations.Keys
    ensures forall k :: k in s.conversations && k != id ==> r.conversations[k] == s.conversations[k]
    ensures r.order == s.order && r.activeId == s.activeId && r.rootId == s.rootId
    ensures r.conversations[id] == s.conversations[id].(messages := r.conversations[id].messages)
    ensures s.conversations[id].messages[|s.conversations[id].messages| - 1].role != Assistant ==> r == s
    ensures |r.conversations[id].messages| == |s.conversations[id].messages|
    ensures forall i :: 0 <= i < |s.conversations[id].messages| ==>
      r.conversations[id].messages[i].id == s.conversations[id].messages[i].id &&
      r.conversations[id].messages[i].role == s.conversations[id].messages[i].role
  {
    var msgs := s.conversations[id].messages;
    var last := msgs[|msgs| - 1];
    if last.role == Assistant then UpdateMessageContent(s, id, last.id, ErrorReply) else s
  }

  /** A failure replaces whatever the placeholder held with the notice and touches no other message. */
  lemma FailFillsReply(s: Store, id: Id, before: seq<Message>, replyId: Id, content: string)
    requires id in s.conversations
    requires s.conversations[id].messages == before + [Message(replyId, Assistant, content)]
    requires forall j :: 0 <= j < |before| ==> before[j].id != replyId
    ensures Fail(s, id).conversations[id].messages == before + [Message(replyId, Assistant, ErrorReply)]
  {
    var msgs := s.conversations[id].messages;
    var after := Fail(s, id).conversations[id].messages;
    assert |after| == |msgs|;
    forall j | 0 <= j < |after|
      ensures after[j] == (before + [Message(replyId, Assistant, ErrorReply)])[j]
    {
      if j < |before| {
        assert msgs[j] == before[j];
      }
    }
  }

  /** What the placeholder finally holds: the chunks joined, or the notice when the request failed. */
  function ReplyText(reply: Reply): string {
    if reply.failed then ErrorReply else Concat(reply.chunks)
  }

  // ---------------------------------------------------------------------------
  // Freshness of the generated ids
  // ---------------------------------------------------------------------------

  /** A message id nobody used is still unused after a title change. */
  lemma FreshAfterTitle(s: Store, id: Id, title: string, x: Id)
    requires IsFreshId(s.conversations, x)
    ensures IsFreshId(UpdateConversationTitle(s, id, title).conversations, x)
  {
    var m1, m2 := s.conversations, UpdateConversationTitle(s, id, title).conversations;
    forall k, m | k in m2 && m in m2[k].messages
      ensures m.id != x
    {
      assert m in m1[k].messages;
    }
  }

  /** An id nobody used, other than the one just given to a new message, is still unused. */
  lemma FreshAfterAdd(s: Store, id: Id, role: Role, content: string, messageId: Id, x: Id)
    requires IsFreshId(s.conversations, messageId) && IsFreshId(s.conversations, x) && x != messageId
    ensures IsFreshId(AddMessage(s, id, role, content, messageId).conversations, x)
  {
    var m1, m2 := s.conversations, AddMessage(s, id, role, content, messageId).conversations;
    forall k, m | k in m2 && m in m2[k].messages
      ensures m.id != x
    {
      if k == id {
        assert m2[k].messages == m1[k].messages + [Message(messageId, role, content)];
        if m != Message(messageId, role, content) {
          assert m in m1[k].messages;
        }
      } else {
        assert m in m1[k].messages;
      }
    }
  }

  // ---------------------------------------------------------------------------
  // onSend
  // ---------------------------------------------------------------------------

  /** The title a send leaves on its target: from the content when it had no messages, its own otherwise. */
  function TitleAfterSend(c: Conversation, content: string): string {
    if |c.messages| == 0 then AutoTitle(content) else c.title
  }

  /** The store once the target is titled from the content, when it has no messages yet. */
  function Titled(s: Store, id: Id, content: string): (r: Store)
    requires id in s.conversations
    ensures r.conversations.Keys == s.conversations.Keys
    ensures r.conversations[id].title == TitleAfterSend(s.conversations[id], content)
    ensures forall k :: k in s.conversations && k != id ==> r.conversations[k] == s.conversations[k]
    ensures r.conversations[id] == s.conversations[id].(title := r.conversations[id].title)
    ensures r.order == s.order && r.activeId == s.activeId && r.rootId == s.rootId
  {
    if |s.conversations[id].messages| == 0 then UpdateConversationTitle(s, id, AutoTitle(content)) else s
  }

  /** The store once the target is titled and holds the user's message. */
  function Prompted(s: Store, id: Id, content: string, userId: Id): (r: Store)
    requires id in s.conversations && IsFreshId(s.conversations, userId)
    ensures r.conversations.Keys == s.conversations.Keys
    ensures forall k :: k in s.conversations && k != id ==> r.conversations[k] == s.conversations[k]
    ensures r.conversations[id] == s.conversations[id].(title := r.conversations[id].title, messages := r.conversations[id].messages)
    ensures r.conversations[id].messages == s.conversations[id].messages + [Message(userId, User, content)]
    ensures r.conversations[id].title == TitleAfterSend(s.conversations[id], content)
    ensures r.order == s.order && r.activeId == s.activeId && r.rootId == s.rootId
  {
    var s0 := Titled(s, id, content);
    FreshAfterTitle(s, id, AutoTitle(content), userId);
    AddMessage(s0, id, User, content, userId)
  }

  /** An id nobody used, other than the user message's, is still unused once the prompt is in. */
  lemma FreshAfterPrompt(s: Store, id: Id, content: string, userId: Id, x: Id)
    requires id in s.conversations && IsFreshId(s.conversations, userId)
    requires IsFreshId(s.conversations, x) && x != userId
    ensures IsFreshId(Prompted(s, id, content, userId).conversations, x)
  {
    var s0 := Titled(s, id, content);
    FreshAfterTitle(s, id, AutoTitle(content), userId);
    FreshAfterTitle(s, id, AutoTitle(content), x);
    FreshAfterAdd(s0, id, User, content, userId, x);
  }

  /**
   The steps after the context is captured: the empty assistant placeholder
   is appended, the chunks are streamed into it, and a failure overwrites it.
   */
  function Answered(s: Store, id: Id, replyId: Id, reply: Reply): (r: Store)
    requires id in s.conversations && IsFreshId(s.conversations, replyId)
    ensures r.conversations.Keys == s.conversations.Keys
    ensures forall k :: k in s.conversations && k != id ==> r.conversations[k] == s.conversations[k]
    ensures r.conversations[id] == s.conversations[id].(messages := r.conversations[id].messages)
    ensures r.order == s.order && r.activeId == s.activeId && r.rootId == s.rootId
    ensures var msgs, msgs' := s.conversations[id].messages, r.conversations[id].messages;
      && |msgs'| == |msgs| + 1
      && (forall i :: 0 <= i < |msgs| ==> msgs'[i].id == msgs[i].id && msgs'[i].role == msgs[i].role)
      && msgs'[|msgs|].id == replyId && msgs'[|msgs|].role == Assistant
  {
    var s2 := AddMessage(s, id, Assistant, "", replyId);
    var s3 := Stream(s2, id, "", reply.chunks).0;
    if reply.failed then Fail(s3, id) else s3
  }

  /**
   `onSend`: nothing happens when the resolved target is not stored.
   Otherwise the target is titled from the content if it had no messages,
   the user's message is appended, the context is captured, an empty
   assistant placeholder is appended, and the reply is folded into it.
   */
  function OnSend(s: Store, content: string, requested: Option<Id>, userId: Id, replyId: Id, reply: Reply): (r: Sent)
    requires Walkable(s.conversations)
    requires IsFreshId(s.conversations, userId) && IsFreshId(s.conversations, replyId) && userId != replyId
    ensures r.request.None? <==> SendTarget(requested, s.activeId) !in s.conversations
    ensures r.request.None? ==> r.store == s
    ensures r.store.conversations.Keys == s.conversations.Keys
    ensures forall k :: k in s.conversations && k != SendTarget(requested, s.activeId) ==>
      r.store.conversations[k] == s.conversations[k]
    ensures r.store.order == s.order && r.store.activeId == s.activeId && r.store.rootId == s.rootId
  {
    var id := SendTarget(requested, s.activeId);
    if id !in s.conversations then Sent(s, None)
    else
      var s1 := Prompted(s, id, content, userId);
      assert SameShape(s.conversations, s1.conversations);
      WalkableKept(s.conversations, s1.conversations);
      FreshAfterPrompt(s, id, content, userId, replyId);
      Sent(Answered(s1, id, replyId, reply), Some(GetConversationContext(s1.conversations, id)))
  }
  /** The generated ids are not the empty id, so the target test and the stream's `null` test pass them. */
  lemma FreshNotEmpty(convs: map<Id, Conversation>, x: Id)
    requires IsFreshId(convs, x)
    ensures x != "" && x != SummaryId
  {
  }

  /**
   The placeholder ends up holding the joined chunks, or the failure notice,
   and is the one message the answer adds.
   */
  lemma AnsweredFillsReply(s: Store, id: Id, replyId: Id, reply: Reply)
    requires id in s.conversations && IsFreshId(s.conversations, replyId)
    ensures Answered(s, id, replyId, reply).conversations[id].messages ==
      s.conversations[id].messages + [Message(replyId, Assistant, ReplyText(reply))]
  {
    var before := s.conversations[id].messages;
    FreshNotEmpty(s.conversations, replyId);
    forall j | 0 <= j < |before|
      ensures before[j].id != replyId
    {
      StoredNotFresh(s.conversations, replyId, id, before[j]);
    }
    var s2 := AddMessage(s, id, Assistant, "", replyId);
    StreamFillsReply(s2, id, "", before, replyId, "", reply.chunks);
    var s3 := Stream(s2, id, "", reply.chunks).0;
    assert "" + Concat(reply.chunks) == Concat(reply.chunks);
    if reply.failed {
      FailFillsReply(s3, id, before, replyId, Concat(reply.chunks));
    }
  }

  /**
   A send to a stored target appends exactly two messages to it, the user's
   message and then the assistant's reply holding the joined chunks or the
   failure notice, and titles it from the content exactly when it had no
   messages before.
   */
  lemma OnSendAppendsExchange(s: Store, content: string, requested: Option<Id>, userId: Id, replyId: Id, reply: Reply)
    requires Walkable(s.conversations)
    requires IsFreshId(s.conversations, userId) && IsFreshId(s.conversations, replyId) && userId != replyId
    requires SendTarget(requested, s.activeId) in s.conversations
    ensures var id := SendTarget(requested, s.activeId);
      var c := s.conversations[id];
      OnSend(s, content, requested, userId, replyId, reply).store.conversations[id] ==
        c.(title := TitleAfterSend(c, content),
           messages := c.messages + [Message(userId, User, content), Message(replyId, Assistant, ReplyText(reply))])
  {
    var id := SendTarget(requested, s.activeId);
    var c := s.conversations[id];
    var s1 := Prompted(s, id, content, userId);
    FreshAfterPrompt(s, id, content, userId, replyId);
    AnsweredFillsReply(s1, id, replyId, reply);
    assert s1.conversations[id].messages + [Message(replyId, Assistant, ReplyText(reply))] ==
      c.messages + [Message(userId, User, content), Message(replyId, Assistant, ReplyText(reply))];
  }

  /** The prompted store is still walkable: titling and appending leave the tree alone. */
  lemma PromptedWalkable(s: Store, id: Id, content: string, userId: Id)
    requires Walkable(s.conversations) && id in s.conversations && IsFreshId(s.conversations, userId)
    ensures Walkable(Prompted(s, id, content, userId).conversations)
  {
    assert SameShape(s.conversations, Prompted(s, id, content, userId).conversations);
    WalkableKept(s.conversations, Prompted(s, id, content, userId).conversations);
  }

  /**
   The context taken once the user's message is in: the lead-in from the
   ancestors, the target's earlier messages, the user's message, then the
   root augmentation.
   */
  lemma PromptedContext(s: Store, id: Id, content: string, userId: Id)
    requires Walkable(s.conversations) && id in s.conversations && IsFreshId(s.conversations, userId)
    ensures var p := Prompted(s, id, content, userId).conversations;
      && Walkable(p)
      && GetConversationContext(p, id) ==
           LeadIn(AncestorPath(p, id)) + s.conversations[id].messages + [Message(userId, User, content)] + Summary(p, id)
  {
    var p := Prompted(s, id, content, userId).conversations;
    PromptedWalkable(s, id, content, userId);
    ContextAfterAppend(p, id, s.conversations[id].messages, Message(userId, User, content));
  }

  /** The context of a conversation whose last message is `u` has `u` right before the root augmentation. */
  lemma ContextAfterAppend(p: Conversations, id: Id, msgs: seq<Message>, u: Message)
    requires Walkable(p) && id in p && p[id].messages == msgs + [u]
    ensures GetConversationContext(p, id) == LeadIn(AncestorPath(p, id)) + msgs + [u] + Summary(p, id)
  {
    var lead, summary := LeadIn(AncestorPath(p, id)), Summary(p, id);
    assert GetConversationContext(p, id) == lead + (msgs + [u]) + summary;
    assert lead + (msgs + [u]) + summary == lead + msgs + [u] + summary;
  }

  /** No message of the prompted context carries an id still unused. */
  lemma ContextExcludesFresh(s: Store, id: Id, content: string, userId: Id, x: Id)
    requires Walkable(s.conversations) && id in s.conversations && IsFreshId(s.conversations, userId)
    requires IsFreshId(s.conversations, x) && x != userId
    ensures Walkable(Prompted(s, id, content, userId).conversations)
    ensures forall m :: m in GetConversationContext(Prompted(s, id, content, userId).conversations, id) ==> m.id != x
  {
    var p := Prompted(s, id, content, userId).conversations;
    PromptedWalkable(s, id, content, userId);
    FreshAfterPrompt(s, id, content, userId, x);
    FreshNotEmpty(s.conversations, x);
    forall m | m in GetConversationContext(p, id)
      ensures m.id != x
    {
      ContextMessagesStored(p, id, m);
      if m.id != SummaryId {
        var k :| k in p && m in p[k].messages;
        StoredNotFresh(p, x, k, m);
      }
    }
  }

  /**
   The request carries the context taken once the user's message is in and
   before the placeholder is: the lead-in from the ancestors, the target's
   earlier messages, the user's message, then the root augmentation. No
   message in it carries the placeholder's id.
   */
  lemma OnSendRequest(s: Store, content: string, requested: Option<Id>, userId: Id, replyId: Id, reply: Reply)
    requires Walkable(s.conversations)
    requires IsFreshId(s.conversations, userId) && IsFreshId(s.conversations, replyId) && userId != replyId
    requires SendTarget(requested, s.activeId) in s.conversations
    ensures var id := SendTarget(requested, s.activeId);
      var p := Prompted(s, id, content, userId).conversations;
      && Walkable(p)
      && OnSend(s, content, requested, userId, replyId, reply).request ==
           Some(LeadIn(AncestorPath(p, id)) + s.conversations[id].messages + [Message(userId, User, content)] + Summary(p, id))
      && OnSend(s, content, requested, userId, replyId, reply).request == Some(GetConversationContext(p, id))
      && forall m :: m in OnSend(s, content, requested, userId, replyId, reply).request.value ==> m.id != replyId
  {
    var id := SendTarget(requested, s.activeId);
    PromptedContext(s, id, content, userId);
    ContextExcludesFresh(s, id, content, userId, replyId);
  }

  /** The stream keeps the invariants: each chunk only rewrites message contents. */
  lemma {:induction false} StreamPreservesWf(s: Store, id: Id, target: Id, chunks: seq<string>)
    requires Wf(s) && id in s.conversations
    ensures Wf(Stream(s, id, target, chunks).0)
    decreases |chunks|
  {
    if |chunks| > 0 {
      var msgs := s.conversations[id].messages;
      var t := Resolve(msgs, target);
      if t != "" {
        UpdateMessageContentPreservesWf(s, id, t, ContentOf(msgs, t) + chunks[0]);
      }
      var r := OnChunk(s, id, target, chunks[0]);
      StreamPreservesWf(r.0, id, r.1, chunks[1..]);
    }
  }

  /** `onSend` keeps the store's invariants. */
  lemma OnSendPreservesWf(s: Store, content: string, requested: Option<Id>, userId: Id, replyId: Id, reply: Reply)
    requires Wf(s)
    requires IsFreshId(s.conversations, userId) && IsFreshId(s.conversations, replyId) && userId != replyId
    ensures Wf(OnSend(s, content, requested, userId, replyId, reply).store)
  {
    var id := SendTarget(requested, s.activeId);
    if id in s.conversations {
      UpdateTitlePreservesWf(s, id, AutoTitle(content));
      FreshAfterTitle(s, id, AutoTitle(content), userId);
      AddMessagePreservesWf(Titled(s, id, content), id, User, content, userId);
      var s1 := Prompted(s, id, content, userId);
      FreshAfterPrompt(s, id, content, userId, replyId);
      AnsweredPreservesWf(s1, id, replyId, reply);
    }
  }

  /** Answering keeps the invariants. */
  lemma AnsweredPreservesWf(s: Store, id: Id, replyId: Id, reply: Reply)
    requires Wf(s) && id in s.conversations && IsFreshId(s.conversations, replyId)
    ensures Wf(Answered(s, id, replyId, reply))
  {
    AddMessagePreservesWf(s, id, Assistant, "", replyId);
    var s2 := AddMessage(s, id, Assistant, "", replyId);
    StreamPreservesWf(s2, id, "", reply.chunks);
    var s3 := Stream(s2, id, "", reply.chunks).0;
    if reply.failed {
      var msgs := s3.conversations[id].messages;
      UpdateMessageContentPreservesWf(s3, id, msgs[|msgs| - 1].id, ErrorReply);
    }
  }

  // ---------------------------------------------------------------------------
  // handleSelection
  // ---------------------------------------------------------------------------

  /** The question sent for a selection: `More information on "<text>"`. */
  function SelectionPrompt(text: string): string {
    "More information on \"" + text + "\""
  }

  /** An id nobody used, other than the new branch's, is still unused after branching. */
  lemma FreshAfterBranch(s: Store, parentId: Id, parentMessageId: Id, selection: string, newId: Id, x: Id)
    requires IsFreshId(s.conversations, newId) && IsFreshId(s.conversations, x) && x != newId
    requires CreateSubConversation(s, parentId, parentMessageId, selection, newId).Ok?
    ensures IsFreshId(CreateSubConversation(s, parentId, parentMessageId, selection, newId).value.0.conversations, x)
  {
    var m1, m2 := s.conversations, CreateSubConversation(s, parentId, parentMessageId, selection, newId).value.0.conversations;
    forall k, m | k in m2 && m in m2[k].messages
      ensures m.id != x
    {
      assert k != newId;
      assert m in m1[k].messages;
    }
  }

  /**
   `handleSelection`: branch off the active conversation at the selected
   message, then send the selection prompt into the new branch. When the
   active conversation is not stored the branch cannot be made and nothing
   happens.
   */
  function HandleSelection(s: Store, text: string, messageId: Id, newId: Id, userId: Id, replyId: Id, reply: Reply): (r: Sent)
    requires Wf(s)
    requires IsFreshId(s.conversations, newId) && IsFreshId(s.conversations, userId) && IsFreshId(s.conversations, replyId)
    requires newId != userId && newId != replyId && userId != replyId
    ensures r.request.None? <==> s.activeId !in s.conversations
    ensures r.request.None? ==> r.store == s
  {
    match CreateSubConversation(s, s.activeId, messageId, text, newId)
    case Err(_) => Sent(s, None)
    case Ok((s1, nid)) =>
      BranchReady(s, text, messageId, newId, userId, replyId);
      OnSend(s1, SelectionPrompt(text), Some(nid), userId, replyId, reply)
  }

  /** Right after a successful branch, the store is walkable and the send's ids are still unused. */
  lemma BranchReady(s: Store, text: string, messageId: Id, newId: Id, userId: Id, replyId: Id)
    requires Wf(s)
    requires IsFreshId(s.conversations, newId) && IsFreshId(s.conversations, userId) && IsFreshId(s.conversations, replyId)
    requires newId != userId && newId != replyId && userId != replyId
    requires CreateSubConversation(s, s.activeId, messageId, text, newId).Ok?
    ensures var s1 := CreateSubConversation(s, s.activeId, messageId, text, newId).value.0;
      && Walkable(s1.conversations)
      && IsFreshId(s1.conversations, userId) && IsFreshId(s1.conversations, replyId)
  {
    CreateSubPreservesWf(s, s.activeId, messageId, text, newId);
    FreshAfterBranch(s, s.activeId, messageId, text, newId, userId);
    FreshAfterBranch(s, s.activeId, messageId, text, newId, replyId);
  }

  /**
   A selection in a stored active conversation leaves one new conversation:
   a child of the active one branching at the selected message, holding the
   prompt and the reply, whose title comes from the prompt and so replaces
   the branch title it was created with.
   */
  lemma HandleSelectionBranches(s: Store, text: string, messageId: Id, newId: Id, userId: Id, replyId: Id, reply: Reply)
    requires Wf(s)
    requires IsFreshId(s.conversations, newId) && IsFreshId(s.conversations, userId) && IsFreshId(s.conversations, replyId)
    requires newId != userId && newId != replyId && userId != replyId
    requires s.activeId in s.conversations
    ensures var r := HandleSelection(s, text, messageId, newId, userId, replyId, reply).store;
      var prompt := SelectionPrompt(text);
      && newId !in s.conversations && newId in r.conversations
      && r.conversations[newId] == Conversation(newId, AutoTitle(prompt),
           [Message(userId, User, prompt), Message(replyId, Assistant, ReplyText(reply))], Some(s.activeId), Some(messageId), [])
  {
    var s1 := CreateSubConversation(s, s.activeId, messageId, text, newId).value.0;
    var prompt := SelectionPrompt(text);
    SelectionSends(s, text, messageId, newId, userId, replyId, reply);
    var c := s1.conversations[newId];
    assert c == Conversation(newId, BranchTitle(text), [], Some(s.activeId), Some(messageId), []);
    assert TitleAfterSend(c, prompt) == AutoTitle(prompt);
    OnSendAppendsExchange(s1, prompt, Some(newId), userId, replyId, reply);
    assert c.messages + [Message(userId, User, prompt), Message(replyId, Assistant, ReplyText(reply))] ==
      [Message(userId, User, prompt), Message(replyId, Assistant, ReplyText(reply))];
  }

  /**
   Apart from the new branch, a selection only appends the branch to the
   active conversation's child list, makes the branch active and records it
   last in key order; every other conversation is untouched.
   */
  lemma HandleSelectionFrame(s: Store, text: string, messageId: Id, newId: Id, userId: Id, replyId: Id, reply: Reply)
    requires Wf(s)
    requires IsFreshId(s.conversations, newId) && IsFreshId(s.conversations, userId) && IsFreshId(s.conversations, replyId)
    requires newId != userId && newId != replyId && userId != replyId
    requires s.activeId in s.conversations
    ensures var r := HandleSelection(s, text, messageId, newId, userId, replyId, reply).store;
      var p := s.activeId;
      && r.conversations.Keys == s.conversations.Keys + {newId}
      && r.conversations[p] == s.conversations[p].(childrenIds := s.conversations[p].childrenIds + [newId])
      && (forall k :: k in s.conversations && k != p ==> r.conversations[k] == s.conversations[k])
      && r.activeId == newId && r.order == s.order + [newId] && r.rootId == s.rootId
  {
    SelectionSends(s, text, messageId, newId, userId, replyId, reply);
  }

  /**
   The request of a selection made in message `k` of a root conversation is
   that root's messages up to and including the selected one, then the
   prompt: the branch inherits exactly the history before its branch point.
   */
  lemma HandleSelectionRequest(s: Store, text: string, messageId: Id, newId: Id, userId: Id, replyId: Id, reply: Reply, k: nat)
    requires Wf(s)
    requires IsFreshId(s.conversations, newId) && IsFreshId(s.conversations, userId) && IsFreshId(s.conversations, replyId)
    requires newId != userId && newId != replyId && userId != replyId
    requires s.activeId in s.conversations && !HasParent(s.conversations[s.activeId])
    requires messageId != "" && IndexOfId(s.conversations[s.activeId].messages, messageId) == Some(k)
    ensures HandleSelection(s, text, messageId, newId, userId, replyId, reply).request ==
      Some(s.conversations[s.activeId].messages[..k + 1] + [Message(userId, User, SelectionPrompt(text))])
  {
    var p := s.activeId;
    var s1 := CreateSubConversation(s, p, messageId, text, newId).value.0;
    var prompt := SelectionPrompt(text);
    SelectionSends(s, text, messageId, newId, userId, replyId, reply);
    BranchFacts(s, text, messageId, newId);
    OnSendRequest(s1, prompt, Some(newId), userId, replyId, reply);
    FirstPromptOfRootBranch(s1, p, newId, prompt, userId, k);
  }

  /** On a stored active conversation, a selection is a branch followed by a send into the branch. */
  lemma SelectionSends(s: Store, text: string, messageId: Id, newId: Id, userId: Id, replyId: Id, reply: Reply)
    requires Wf(s)
    requires IsFreshId(s.conversations, newId) && IsFreshId(s.conversations, userId) && IsFreshId(s.conversations, replyId)
    requires newId != userId && newId != replyId && userId != replyId
    requires s.activeId in s.conversations
    ensures CreateSubConversation(s, s.activeId, messageId, text, newId).Ok?
    ensures var s1 := CreateSubConversation(s, s.activeId, messageId, text, newId).value.0;
      && Walkable(s1.conversations)
      && IsFreshId(s1.conversations, userId) && IsFreshId(s1.conversations, replyId)
      && SendTarget(Some(newId), s1.activeId) == newId
      && HandleSelection(s, text, messageId, newId, userId, replyId, reply) ==
           OnSend(s1, SelectionPrompt(text), Some(newId), userId, replyId, reply)
  {
    BranchReady(s, text, messageId, newId, userId, replyId);
    FreshNotEmpty(s.conversations, newId);
  }

  /** What a successful branch leaves behind, in the terms the send needs. */
  lemma BranchFacts(s: Store, text: string, messageId: Id, newId: Id)
    requires IsFreshId(s.conversations, newId) && s.activeId in s.conversations
    ensures CreateSubConversation(s, s.activeId, messageId, text, newId).Ok?
    ensures var s1 := CreateSubConversation(s, s.activeId, messageId, text, newId).value.0;
      var p := s.activeId;
      && p in s1.conversations && newId in s1.conversations && p != newId && newId != ""
      && s1.activeId == newId
      && s1.conversations[newId].messages == []
      && ParentKey(s1.conversations[newId]) == p && BranchPoint(s1.conversations[newId]) == messageId
      && s1.conversations[p].messages == s.conversations[p].messages
      && s1.conversations[p].parentId == s.conversations[p].parentId
  {
    FreshNotEmpty(s.conversations, newId);
  }

  /**
   The context of the first prompt sent into a fresh branch of a root is the
   root's messages up to the branch point, then the prompt.
   */
  lemma FirstPromptOfRootBranch(s: Store, p: Id, b: Id, prompt: string, userId: Id, k: nat)
    requires Walkable(s.conversations) && IsFreshId(s.conversations, userId)
    requires p in s.conversations && b in s.conversations && p != b
    requires s.conversations[b].messages == [] && ParentKey(s.conversations[b]) == p && !HasParent(s.conversations[p])
    requires BranchPoint(s.conversations[b]) != ""
    requires IndexOfId(s.conversations[p].messages, BranchPoint(s.conversations[b])) == Some(k)
    ensures Walkable(Prompted(s, b, prompt, userId).conversations)
    ensures GetConversationContext(Prompted(s, b, prompt, userId).conversations, b) ==
      s.conversations[p].messages[..k + 1] + [Message(userId, User, prompt)]
  {
    var q := Prompted(s, b, prompt, userId).conversations;
    PromptedWalkable(s, b, prompt, userId);
    assert q[p] == s.conversations[p];
    assert q[b].messages == [Message(userId, User, prompt)];
    BranchOfRootContext(q, b, k);
  }

  /** `handleSelection` keeps the store's invariants. */
  lemma HandleSelectionPreservesWf(s: Store, text: string, messageId: Id, newId: Id, userId: Id, replyId: Id, reply: Reply)
    requires Wf(s)
    requires IsFreshId(s.conversations, newId) && IsFreshId(s.conversations, userId) && IsFreshId(s.conversations, replyId)
    requires newId != userId && newId != replyId && userId != replyId
    ensures Wf(HandleSelection(s, text, messageId, newId, userId, replyId, reply).store)
  {
    if s.activeId in s.conversations {
      var s1 := CreateSubConversation(s, s.activeId, messageId, text, newId).value.0;
      CreateSubPreservesWf(s, s.activeId, messageId, text, newId);
      BranchReady(s, text, messageId, newId, userId, replyId);
      OnSendPreservesWf(s1, SelectionPrompt(text), Some(newId), userId, replyId, reply);
    }
  }
}
