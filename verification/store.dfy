/**
 The conversation repository: a map from id to conversation plus the active
 and root ids, with every mutation command written as a function from
 the old snapshot to the new one (copy-on-write, as the store does it).
 */
module ConversationStore {
  import opened Types
  import opened Text
  import opened Tree

  /**
   A snapshot of the store. `order` is the insertion order of the map's keys,
   which is the order `Object.values` enumerates the conversations in.
   */
  datatype Store = Store(
    conversations: map<Id, Conversation>,
    order: seq<Id>,
    activeId: Id,
    rootId: Id)

  datatype StoreError = ParentNotFound

  datatype Result<+T> = Ok(value: T) | Err(error: StoreError)

  /** The snapshot a fresh store starts from. */
  function Initial(): Store {
    Store(map[], [], "", "")
  }

  /** The title every new root conversation starts with. */
  const DefaultTitle: string := "New Conversation"

  /** Every identifier the store has handed out: conversation keys and message ids. */
  function UsedIds(convs: map<Id, Conversation>): set<Id> {
    convs.Keys + set k, m | k in convs && m in convs[k].messages :: m.id
  }

  /** A newly generated uuid: uuid-shaped and never handed out before. */
  predicate IsFreshId(convs: map<Id, Conversation>, id: Id) {
    IsUuidShaped(id) && id !in UsedIds(convs)
  }

  /** `order` lists every key of the map exactly once. */
  predicate KeyOrder(convs: map<Id, Conversation>, order: seq<Id>) {
    && Distinct(order)
    && (forall i :: 0 <= i < |order| ==> order[i] in convs)
    && (forall k :: k in convs ==> k in order)
  }

  /** Parent links that are set resolve to stored conversations. */
  predicate ParentsResolve(convs: map<Id, Conversation>) {
    forall k {:trigger HasParent(convs[k])} :: k in convs && HasParent(convs[k]) ==> ParentKey(convs[k]) in convs
  }

  /** A conversation has a parent link exactly when it has a branch point, and never an empty one. */
  predicate BranchLinksPaired(convs: map<Id, Conversation>) {
    forall k :: k in convs ==>
      (convs[k].parentId.Some? <==> convs[k].parentMessageId.Some?) &&
      (convs[k].parentId.Some? ==> HasParent(convs[k]))
  }

  /** Every listed child resolves, and every child is listed by its parent, once. */
  predicate ChildrenExact(convs: map<Id, Conversation>) {
    && (forall k, i :: k in convs && 0 <= i < |convs[k].childrenIds| ==> convs[k].childrenIds[i] in convs)
    && (forall k :: k in convs && HasParent(convs[k]) && ParentKey(convs[k]) in convs ==>
          k in convs[ParentKey(convs[k])].childrenIds)
    && (forall k :: k in convs ==> Distinct(convs[k].childrenIds))
  }

  /** Within a conversation, message ids are never reused. */
  predicate MessageIdsUnique(convs: map<Id, Conversation>) {
    forall k :: k in convs ==> DistinctMessageIds(convs[k].messages)
  }

  /** The shape invariants: a forest whose two link directions agree. */
  predicate TreeWf(convs: map<Id, Conversation>) {
    && Walkable(convs)
    && ParentsResolve(convs)
    && BranchLinksPaired(convs)
    && ChildrenExact(convs)
  }

  /** The invariants every command preserves. */
  predicate Wf(s: Store) {
    && TreeWf(s.conversations)
    && MessageIdsUnique(s.conversations)
    && KeyOrder(s.conversations, s.order)
  }

  /** The title of a branch: "Sub: ", the first 20 characters of the selection, then "...". */
  function BranchTitle(selection: string): (title: string)
    ensures |title| == 8 + Min(20, |selection|)
    ensures title[..5] == "Sub: " && title[|title| - 3..] == "..."
    ensures title[5..|title| - 3] <= selection
  {
    var t := "Sub: " + Take(selection, 20) + "...";
    assert t[5..|t| - 3] == Take(selection, 20);
    t
  }

  /**
   `createRootConversation`: adds exactly one new, empty, parentless
   conversation under the fresh id, makes it both active and root, and
   leaves every existing conversation as it was.
   */
  function CreateRootConversation(s: Store, id: Id): (r: Store)
    requires IsFreshId(s.conversations, id)
    ensures r.conversations.Keys == s.conversations.Keys + {id}
    ensures id !in s.conversations
    ensures forall k :: k in s.conversations ==> r.conversations[k] == s.conversations[k]
    ensures var c := r.conversations[id];
      c.id == id && c.title == DefaultTitle && c.messages == [] && c.childrenIds == [] &&
      c.parentId.None? && c.parentMessageId.None?
    ensures r.activeId == id && r.rootId == id
    ensures r.order == s.order + [id]
  {
    var c := Conversation(id, DefaultTitle, [], None, None, []);
    Store(s.conversations[id := c], s.order + [id], id, id)
  }

  /**
   `createSubConversation`: fails, changing nothing, when the parent is not
   stored (the source dereferences the missing parent and throws). Otherwise
   it adds one empty conversation linked to the parent and the branch point,
   appends its id to the end of the parent's children, makes it active and
   returns it; no other conversation changes.
   */
  function CreateSubConversation(s: Store, parentId: Id, parentMessageId: Id, selection: string, id: Id): (r: Result<(Store, Id)>)
    requires IsFreshId(s.conversations, id)
    ensures r.Err? <==> parentId !in s.conversations
    ensures r.Ok? ==> var (t, newId) := r.value;
      && newId == id
      && id !in s.conversations
      && t.conversations.Keys == s.conversations.Keys + {id}
      && t.conversations[id] == Conversation(id, BranchTitle(selection), [], Some(parentId), Some(parentMessageId), [])
      && t.conversations[parentId] == s.conversations[parentId].(childrenIds := s.conversations[parentId].childrenIds + [id])
      && (forall k :: k in s.conversations && k != parentId ==> t.conversations[k] == s.conversations[k])
      && t.activeId == id && t.rootId == s.rootId
      && t.order == s.order + [id]
  {
    if parentId !in s.conversations then Err(ParentNotFound)
    else
      var parent := s.conversations[parentId];
      var child := Conversation(id, BranchTitle(selection), [], Some(parentId), Some(parentMessageId), []);
      var convs := s.conversations[parentId := parent.(childrenIds := parent.childrenIds + [id])][id := child];
      Ok((Store(convs, s.order + [id], id, s.rootId), id))
  }

  /** `setActiveConversation`: records the id as active without checking it; nothing else changes. */
  function SetActiveConversation(s: Store, id: Id): (r: Store)
    ensures r.activeId == id
    ensures r.conversations == s.conversations && r.order == s.order && r.rootId == s.rootId
  {
    s.(activeId := id)
  }

  /**
   `addMessage`: a no-op for an absent conversation. Otherwise the message
   list grows by exactly one at its end, earlier messages are untouched, the
   new last message carries the given role and content, and nothing else in
   the store changes.
   */
  function AddMessage(s: Store, conversationId: Id, role: Role, content: string, messageId: Id): (r: Store)
    requires IsFreshId(s.conversations, messageId)
    ensures conversationId !in s.conversations ==> r == s
    ensures r.conversations.Keys == s.conversations.Keys
    ensures conversationId in s.conversations ==>
      var old_ := s.conversations[conversationId];
      var new_ := r.conversations[conversationId];
      |new_.messages| == |old_.messages| + 1
      && new_.messages[..|old_.messages|] == old_.messages
      && new_.messages[|old_.messages|] == Message(messageId, role, content)
      && new_ == old_.(messages := new_.messages)
      && (forall k :: k in s.conversations && k != conversationId ==> r.conversations[k] == s.conversations[k])
      && r.order == s.order && r.activeId == s.activeId && r.rootId == s.rootId
  {
    if conversationId !in s.conversations then s
    else
      var c := s.conversations[conversationId];
      var c' := c.(messages := c.messages + [Message(messageId, role, content)]);
      s.(conversations := s.conversations[conversationId := c'])
  }

  /**
   The message list with the content of every message whose id is `messageId`
   replaced: length, order, ids and roles are kept, and no other content moves.
   */
  function ReplaceContent(msgs: seq<Message>, messageId: Id, content: string): (r: seq<Message>)
    ensures |r| == |msgs|
    ensures forall i :: 0 <= i < |msgs| ==>
      r[i].id == msgs[i].id && r[i].role == msgs[i].role &&
      r[i].content == (if msgs[i].id == messageId then content else msgs[i].content)
  {
    if |msgs| == 0 then []
    else
      var m := msgs[0];
      [if m.id == messageId then m.(content := content) else m] + ReplaceContent(msgs[1..], messageId, content)
  }

  /**
   `updateMessageContent`: a no-op for an absent conversation; otherwise only
   the content of the messages with the given id changes.
   */
  function UpdateMessageContent(s: Store, conversationId: Id, messageId: Id, content: string): (r: Store)
    ensures conversationId !in s.conversations ==> r == s
    ensures r.conversations.Keys == s.conversations.Keys
    ensures conversationId in s.conversations ==>
      var old_ := s.conversations[conversationId];
      var new_ := r.conversations[conversationId];
      && new_ == old_.(messages := new_.messages)
      && |new_.messages| == |old_.messages|
      && (forall i :: 0 <= i < |old_.messages| ==>
            new_.messages[i].id == old_.messages[i].id && new_.messages[i].role == old_.messages[i].role &&
            new_.messages[i].content == (if old_.messages[i].id == messageId then content else old_.messages[i].content))
      && (forall k :: k in s.conversations && k != conversationId ==> r.conversations[k] == s.conversations[k])
      && r.order == s.order && r.activeId == s.activeId && r.rootId == s.rootId
  {
    if conversationId !in s.conversations then s
    else
      var c := s.conversations[conversationId];
      s.(conversations := s.conversations[conversationId := c.(messages := ReplaceContent(c.messages, messageId, content))])
  }

  /** `updateConversationTitle`: a no-op for an absent conversation; otherwise only its title changes. */
  function UpdateConversationTitle(s: Store, conversationId: Id, title: string): (r: Store)
    ensures conversationId !in s.conversations ==> r == s
    ensures conversationId in s.conversations ==>
      && r.conversations.Keys == s.conversations.Keys
      && r.conversations[conversationId] == s.conversations[conversationId].(title := title)
      && (forall k :: k in s.conversations && k != conversationId ==> r.conversations[k] == s.conversations[k])
      && r.order == s.order && r.activeId == s.activeId && r.rootId == s.rootId
  {
    if conversationId !in s.conversations then s
    else s.(conversations := s.conversations[conversationId := s.conversations[conversationId].(title := title)])
  }

  // ---------------------------------------------------------------------------
  // Invariant preservation
  // ---------------------------------------------------------------------------

  /** `m2` keeps every key of `m1` with the same parent link. */
  predicate LinksKept(m1: map<Id, Conversation>, m2: map<Id, Conversation>) {
    forall k :: k in m1 ==> k in m2 && ParentKey(m2[k]) == ParentKey(m1[k])
  }

  /** An ancestor walk that ends inside `m1` ends the same way in any map that keeps its links. */
  lemma {:induction false} ChainEndsKept(m1: map<Id, Conversation>, m2: map<Id, Conversation>, id: Id, n: nat)
    requires ParentsResolve(m1) && LinksKept(m1, m2)
    requires id == "" || id in m1
    requires ChainEnds(m1, id, n)
    ensures ChainEnds(m2, id, n)
    decreases n
  {
    if id != "" && HasParent(m1[id]) {
      ChainEndsKept(m1, m2, ParentKey(m1[id]), n - 1);
    }
  }

  /** Extra fuel never hurts a walk that ends. */
  lemma ChainEndsMore(m: map<Id, Conversation>, id: Id, n: nat, n': nat)
    requires ChainEnds(m, id, n) && n <= n'
    ensures ChainEnds(m, id, n')
  {
    PathFuel(m, id, n, n');
  }

  /** A map that keeps the links of an acyclic map and has at least its size is acyclic on the old keys. */
  lemma AcyclicKept(m1: map<Id, Conversation>, m2: map<Id, Conversation>)
    requires Acyclic(m1) && ParentsResolve(m1) && LinksKept(m1, m2)
    requires |m1| <= |m2|
    ensures forall k :: k in m1 ==> Terminates(m2, k)
  {
    forall k | k in m1
      ensures Terminates(m2, k)
    {
      assert Terminates(m1, k);
      ChainEndsKept(m1, m2, k, |m1|);
      ChainEndsMore(m2, k, |m1|, |m2|);
    }
  }

  /** `m2` has the keys of `m1` and the same ids, links and children under each. */
  predicate SameShape(m1: map<Id, Conversation>, m2: map<Id, Conversation>) {
    && m1.Keys == m2.Keys
    && forall k :: k in m1 ==>
         m2[k].id == m1[k].id && m2[k].parentId == m1[k].parentId &&
         m2[k].parentMessageId == m1[k].parentMessageId && m2[k].childrenIds == m1[k].childrenIds
  }

  /** Commands that only touch titles and messages cannot break the tree shape. */
  lemma ShapeKept(m1: map<Id, Conversation>, m2: map<Id, Conversation>)
    requires TreeWf(m1) && SameShape(m1, m2)
    ensures TreeWf(m2)
  {
    WalkableKept(m1, m2);
    forall k | k in m2 && HasParent(m2[k])
      ensures ParentKey(m2[k]) in m2
    {
      assert ParentKey(m2[k]) == ParentKey(m1[k]);
    }
    forall k | k in m2 && HasParent(m2[k]) && ParentKey(m2[k]) in m2
      ensures k in m2[ParentKey(m2[k])].childrenIds
    {
      assert ParentKey(m2[k]) == ParentKey(m1[k]);
    }
  }

  /** An ancestor walk only reads keys and parent links, which a same-shape map keeps. */
  lemma {:induction false} ChainEndsSameShape(m1: map<Id, Conversation>, m2: map<Id, Conversation>, id: Id, n: nat)
    requires SameShape(m1, m2) && ChainEnds(m1, id, n)
    ensures ChainEnds(m2, id, n)
    decreases n
  {
    if id != "" && id in m1 {
      assert ParentKey(m2[id]) == ParentKey(m1[id]);
      ChainEndsSameShape(m1, m2, ParentKey(m1[id]), n - 1);
    }
  }

  /** Changing only titles and messages keeps a map walkable. */
  lemma WalkableKept(m1: map<Id, Conversation>, m2: map<Id, Conversation>)
    requires Walkable(m1) && SameShape(m1, m2)
    ensures Walkable(m2)
  {
    assert |m1| == |m1.Keys| == |m2.Keys| == |m2|;
    forall k | k in m2
      ensures Terminates(m2, k)
    {
      assert Terminates(m1, k);
      ChainEndsSameShape(m1, m2, k, |m1|);
    }
  }

  lemma InitialWf()
    ensures Wf(Initial())
  {
  }

  /** Appending one fresh key to an order that lists the old keys lists the new ones. */
  lemma KeyOrderAppend(m1: map<Id, Conversation>, order: seq<Id>, m2: map<Id, Conversation>, id: Id)
    requires KeyOrder(m1, order) && id !in m1
    requires m2.Keys == m1.Keys + {id}
    ensures KeyOrder(m2, order + [id])
  {
    var o := order + [id];
    forall i, j | 0 <= i < j < |o|
      ensures o[i] != o[j]
    {
      if j == |order| {
        assert o[i] == order[i] && order[i] in m1;
      }
    }
  }

  /** The conversation `createRootConversation` stores under a fresh id. */
  function NewRoot(id: Id): Conversation {
    Conversation(id, DefaultTitle, [], None, None, [])
  }

  lemma AcyclicAfterRoot(m1: map<Id, Conversation>, id: Id)
    requires Acyclic(m1) && ParentsResolve(m1) && id !in m1
    ensures Acyclic(m1[id := NewRoot(id)])
  {
    var m2 := m1[id := NewRoot(id)];
    assert |m2| == |m1| + 1;
    assert LinksKept(m1, m2);
    AcyclicKept(m1, m2);
    assert ChainEnds(m2, id, |m2|) by {
      assert ChainEnds(m2, "", |m2| - 1);
    }
  }

  lemma ChildrenAfterRoot(m1: map<Id, Conversation>, id: Id)
    requires ChildrenPointBack(m1) && ChildrenExact(m1) && ParentsResolve(m1) && id !in m1
    ensures ChildrenPointBack(m1[id := NewRoot(id)]) && ChildrenExact(m1[id := NewRoot(id)])
  {
    var m2 := m1[id := NewRoot(id)];
    forall k, i | k in m2 && 0 <= i < |m2[k].childrenIds|
      ensures m2[k].childrenIds[i] in m2
      ensures m2[k].childrenIds[i] in m2 ==> ParentKey(m2[m2[k].childrenIds[i]]) == k
    {
      assert m1[k].childrenIds[i] in m1;
    }
  }

  lemma RootKeepsTree(m1: map<Id, Conversation>, id: Id)
    requires TreeWf(m1) && id !in m1 && id != ""
    ensures TreeWf(m1[id := NewRoot(id)])
  {
    AcyclicAfterRoot(m1, id);
    ChildrenAfterRoot(m1, id);
  }

  lemma CreateRootPreservesWf(s: Store, id: Id)
    requires Wf(s) && IsFreshId(s.conversations, id)
    ensures Wf(CreateRootConversation(s, id))
  {
    var r := CreateRootConversation(s, id);
    RootKeepsTree(s.conversations, id);
    KeyOrderAppend(s.conversations, s.order, r.conversations, id);
  }

  /** The conversation `createSubConversation` stores under a fresh id. */
  function NewBranch(id: Id, title: string, parentId: Id, parentMessageId: Id): Conversation {
    Conversation(id, title, [], Some(parentId), Some(parentMessageId), [])
  }

  /** The map after a branch: the parent lists the child last, and the child is stored. */
  function Branched(m1: map<Id, Conversation>, parentId: Id, child: Conversation): map<Id, Conversation>
    requires parentId in m1
  {
    var parent := m1[parentId];
    m1[parentId := parent.(childrenIds := parent.childrenIds + [child.id])][child.id := child]
  }

  /** The new child's walk ends one step past its parent's, so the map stays acyclic. */
  lemma AcyclicAfterBranch(m1: map<Id, Conversation>, parentId: Id, child: Conversation)
    requires Acyclic(m1) && ParentsResolve(m1) && parentId in m1 && child.id !in m1 && child.id != ""
    requires ParentKey(child) == parentId
    ensures Acyclic(Branched(m1, parentId, child))
  {
    var m2 := Branched(m1, parentId, child);
    assert |m2| == |m1| + 1;
    assert LinksKept(m1, m2);
    AcyclicKept(m1, m2);
    assert ChainEnds(m2, child.id, |m2|) by {
      assert Terminates(m1, parentId);
      ChainEndsKept(m1, m2, parentId, |m1|);
    }
  }

  /** The per-key facts of a branched map: the old keys keep their links, the child is new. */
  lemma BranchedFacts(m1: map<Id, Conversation>, parentId: Id, child: Conversation)
    requires parentId in m1 && child.id !in m1
    ensures var m2 := Branched(m1, parentId, child);
      && m2.Keys == m1.Keys + {child.id}
      && m2[parentId].childrenIds == m1[parentId].childrenIds + [child.id]
      && m2[child.id] == child
      && (forall k :: k in m1 ==> m2[k] == m1[k].(childrenIds := m2[k].childrenIds))
      && (forall k :: k in m1 && k != parentId ==> m2[k] == m1[k])
  {
  }

  lemma BasicsAfterBranch(m1: map<Id, Conversation>, parentId: Id, child: Conversation)
    requires "" !in m1 && IdsMatchKeys(m1) && ParentsResolve(m1) && BranchLinksPaired(m1)
    requires parentId in m1 && child.id !in m1 && child.id != ""
    requires child == NewBranch(child.id, child.title, parentId, BranchPoint(child))
    ensures var m2 := Branched(m1, parentId, child);
      "" !in m2 && IdsMatchKeys(m2) && ParentsResolve(m2) && BranchLinksPaired(m2)
  {
    BranchedFacts(m1, parentId, child);
    var m2 := Branched(m1, parentId, child);
    forall k | k in m2 && HasParent(m2[k])
      ensures ParentKey(m2[k]) in m2
    {
      if k != child.id {
        assert HasParent(m1[k]);
      }
    }
  }

  /** The new child keeps the forest shape. */
  lemma CreateSubKeepsTree(m1: map<Id, Conversation>, parentId: Id, child: Conversation)
    requires TreeWf(m1) && parentId in m1 && child.id !in m1 && child.id != ""
    requires child == NewBranch(child.id, child.title, parentId, BranchPoint(child))
    ensures TreeWf(Branched(m1, parentId, child))
  {
    var m2 := Branched(m1, parentId, child);
    BranchedFacts(m1, parentId, child);
    BasicsAfterBranch(m1, parentId, child);
    AcyclicAfterBranch(m1, parentId, child);
    ChildrenAfterBranch(m1, m2, parentId, child.id);
  }

  lemma ChildrenAfterBranch(m1: map<Id, Conversation>, m2: map<Id, Conversation>, parentId: Id, id: Id)
    requires ChildrenPointBack(m1) && ChildrenExact(m1) && ParentsResolve(m1)
    requires parentId in m1 && id !in m1
    requires m2.Keys == m1.Keys + {id}
    requires m2[parentId].childrenIds == m1[parentId].childrenIds + [id]
    requires m2[id].childrenIds == [] && ParentKey(m2[id]) == parentId
    requires forall k :: k in m1 ==> ParentKey(m2[k]) == ParentKey(m1[k])
    requires forall k :: k in m1 && k != parentId ==> m2[k].childrenIds == m1[k].childrenIds
    ensures ChildrenPointBack(m2) && ChildrenExact(m2)
  {
    ListedChildrenAfterBranch(m1, m2, parentId, id);
    ParentsListAfterBranch(m1, m2, parentId, id);
    forall k | k in m2
      ensures Distinct(m2[k].childrenIds)
    {
      if k == parentId {
        forall i | 0 <= i < |m1[parentId].childrenIds|
          ensures m1[parentId].childrenIds[i] != id
        {
          assert m1[parentId].childrenIds[i] in m1;
        }
      }
    }
  }

  /** After a branch every listed child is stored and points back to the list's owner. */
  lemma ListedChildrenAfterBranch(m1: map<Id, Conversation>, m2: map<Id, Conversation>, parentId: Id, id: Id)
    requires ChildrenPointBack(m1) && ChildrenExact(m1)
    requires parentId in m1 && id !in m1
    requires m2.Keys == m1.Keys + {id}
    requires m2[parentId].childrenIds == m1[parentId].childrenIds + [id]
    requires m2[id].childrenIds == [] && ParentKey(m2[id]) == parentId
    requires forall k :: k in m1 ==> ParentKey(m2[k]) == ParentKey(m1[k])
    requires forall k :: k in m1 && k != parentId ==> m2[k].childrenIds == m1[k].childrenIds
    ensures forall k, i :: k in m2 && 0 <= i < |m2[k].childrenIds| ==>
      m2[k].childrenIds[i] in m2 && ParentKey(m2[m2[k].childrenIds[i]]) == k
  {
    forall k, i | k in m2 && 0 <= i < |m2[k].childrenIds|
      ensures m2[k].childrenIds[i] in m2
      ensures ParentKey(m2[m2[k].childrenIds[i]]) == k
    {
      if k == parentId && i == |m1[parentId].childrenIds| {
        assert m2[k].childrenIds[i] == id;
      } else {
        assert k in m1;
        assert m2[k].childrenIds[i] == m1[k].childrenIds[i];
        assert m1[k].childrenIds[i] in m1;
      }
    }
  }

  /** After a branch every conversation with a stored parent is listed by it. */
  lemma ParentsListAfterBranch(m1: map<Id, Conversation>, m2: map<Id, Conversation>, parentId: Id, id: Id)
    requires ChildrenExact(m1) && ParentsResolve(m1)
    requires parentId in m1 && id !in m1
    requires m2.Keys == m1.Keys + {id}
    requires m2[parentId].childrenIds == m1[parentId].childrenIds + [id]
    requires ParentKey(m2[id]) == parentId
    requires forall k :: k in m1 ==> ParentKey(m2[k]) == ParentKey(m1[k])
    requires forall k :: k in m1 && k != parentId ==> m2[k].childrenIds == m1[k].childrenIds
    ensures forall k :: k in m2 && HasParent(m2[k]) && ParentKey(m2[k]) in m2 ==> k in m2[ParentKey(m2[k])].childrenIds
  {
    forall k | k in m2 && HasParent(m2[k]) && ParentKey(m2[k]) in m2
      ensures k in m2[ParentKey(m2[k])].childrenIds
    {
      if k != id {
        var p := ParentKey(m1[k]);
        assert HasParent(m1[k]);
        assert p in m1;
        assert k in m1[p].childrenIds;
        assert m1[p].childrenIds <= m2[p].childrenIds;
      } else {
        assert m2[parentId].childrenIds[|m1[parentId].childrenIds|] == id;
      }
    }
  }

  /** A branch adds a conversation without messages, so message ids stay unique. */
  lemma BranchKeepsUnique(m1: map<Id, Conversation>, parentId: Id, child: Conversation)
    requires MessageIdsUnique(m1) && parentId in m1 && child.messages == []
    ensures MessageIdsUnique(Branched(m1, parentId, child))
  {
    var m2 := Branched(m1, parentId, child);
    forall k | k in m2
      ensures DistinctMessageIds(m2[k].messages)
    {
      if k != child.id {
        assert m2[k].messages == m1[k].messages;
      }
    }
  }

  lemma CreateSubPreservesWf(s: Store, parentId: Id, parentMessageId: Id, selection: string, id: Id)
    requires Wf(s) && IsFreshId(s.conversations, id)
    ensures CreateSubConversation(s, parentId, parentMessageId, selection, id).Ok? ==>
      Wf(CreateSubConversation(s, parentId, parentMessageId, selection, id).value.0)
  {
    if parentId in s.conversations {
      var child := NewBranch(id, BranchTitle(selection), parentId, parentMessageId);
      var m2 := Branched(s.conversations, parentId, child);
      assert CreateSubConversation(s, parentId, parentMessageId, selection, id).value.0 ==
        Store(m2, s.order + [id], id, s.rootId);
      CreateSubKeepsTree(s.conversations, parentId, child);
      BranchKeepsUnique(s.conversations, parentId, child);
      BranchedFacts(s.conversations, parentId, child);
      KeyOrderAppend(s.conversations, s.order, m2, id);
    }
  }

  /** Appending a message with an id not used before keeps the message ids distinct. */
  lemma AppendKeepsIdsDistinct(msgs: seq<Message>, m: Message)
    requires DistinctMessageIds(msgs)
    requires forall i :: 0 <= i < |msgs| ==> msgs[i].id != m.id
    ensures DistinctMessageIds(msgs + [m])
  {
  }

  /** A fresh id is carried by no stored message. */
  lemma StoredNotFresh(convs: map<Id, Conversation>, x: Id, k: Id, m: Message)
    requires IsFreshId(convs, x) && k in convs && m in convs[k].messages
    ensures m.id != x
  {
  }

  /** Replacing one conversation's messages keeps the tree invariants. */
  lemma MessagesOnlyKeepTree(m1: map<Id, Conversation>, k: Id, msgs: seq<Message>)
    requires TreeWf(m1) && k in m1
    ensures TreeWf(m1[k := m1[k].(messages := msgs)])
  {
    var m2 := m1[k := m1[k].(messages := msgs)];
    assert SameShape(m1, m2);
    ShapeKept(m1, m2);
  }

  /** Appending a message with a fresh id to one conversation keeps every message list duplicate-free. */
  lemma AppendKeepsUnique(m1: map<Id, Conversation>, k: Id, m: Message)
    requires MessageIdsUnique(m1) && k in m1 && IsFreshId(m1, m.id)
    ensures MessageIdsUnique(m1[k := m1[k].(messages := m1[k].messages + [m])])
  {
    var msgs := m1[k].messages;
    forall i | 0 <= i < |msgs|
      ensures msgs[i].id != m.id
    {
      StoredNotFresh(m1, m.id, k, msgs[i]);
    }
    AppendKeepsIdsDistinct(msgs, m);
  }

  lemma AddMessagePreservesWf(s: Store, conversationId: Id, role: Role, content: string, messageId: Id)
    requires Wf(s) && IsFreshId(s.conversations, messageId)
    ensures Wf(AddMessage(s, conversationId, role, content, messageId))
  {
    if conversationId in s.conversations {
      var m1 := s.conversations;
      var c := m1[conversationId];
      var m := Message(messageId, role, content);
      var m2 := m1[conversationId := c.(messages := c.messages + [m])];
      assert AddMessage(s, conversationId, role, content, messageId) == s.(conversations := m2);
      MessagesOnlyKeepTree(m1, conversationId, c.messages + [m]);
      AppendKeepsUnique(m1, conversationId, m);
      assert m2.Keys == m1.Keys;
    }
  }

  lemma UpdateMessageContentPreservesWf(s: Store, conversationId: Id, messageId: Id, content: string)
    requires Wf(s)
    ensures Wf(UpdateMessageContent(s, conversationId, messageId, content))
  {
    var r := UpdateMessageContent(s, conversationId, messageId, content);
    if conversationId in s.conversations {
      ShapeKept(s.conversations, r.conversations);
    }
  }

  lemma UpdateTitlePreservesWf(s: Store, conversationId: Id, title: string)
    requires Wf(s)
    ensures Wf(UpdateConversationTitle(s, conversationId, title))
  {
    var r := UpdateConversationTitle(s, conversationId, title);
    if conversationId in s.conversations {
      ShapeKept(s.conversations, r.conversations);
    }
  }
}
