# NodeNest conversation engine in Dafny

NodeNest is a chat client in which a conversation can branch. Selecting a
passage of an answer opens a sub-conversation that hangs off the message
the passage came from. This project models the part of NodeNest that
decides what happens to the data. It does not model the screens.

- **The conversation store** (module `ConversationStore`, with `Types`, `Text`
  and `Tree`). This is a map from ids to conversations. Each conversation
  has a title, a list of messages, an optional parent link, an optional
  branch point and a list of child ids. The store also records the active
  conversation, the root conversation and the order in which its keys were
  inserted. Each store action (create a root, create a sub-conversation,
  set the active conversation, add a message, update a message's content,
  update a title) is a pure function from the old store to the new one.
  The ancestor walk (`getConversationPath`) and the root lookup
  (`getRootId`) live in `Tree`.
- **Context assembly** (module `ContextAssembly`). This is
  `getConversationContext`, the list of messages sent to the language
  model. It walks the ancestor path from the root to the target and cuts
  each ancestor just after the message its successor branched from. When
  the target is a root, it adds one system message that summarises every
  descendant sub-conversation in pre-order.
- **Graph layout** (module `GraphLayout`). This is the node and edge
  computation of the conversation graph view. It filters the store to the
  active tree, builds the child lists, computes subtree widths
  (`calculateWidth`) and places the nodes (`assignPositions`).
- **Sending** (module `ChatSend`). This is `onSend` and `handleSelection` of
  the chat window: target resolution, auto-titling, the two appended
  messages, the captured context, the streaming callback and the failure
  path.

Modelling choices:

- Parent links and branch points follow JavaScript truthiness. An absent
  link and an empty-string link both mean "no link" (`ParentKey`,
  `BranchPoint`, `HasParent`).
- The store's key insertion order is an explicit `order` sequence, because
  the graph's child order and `Object.values` follow it.
- The uuids the code generates are parameters. `IsFreshId` states what
  uuid generation provides: a 36-character id that no conversation key or
  message id already uses.
- The model response is a parameter `Reply`: the chunks the stream
  delivered, then whether the request failed.
- Unbounded walks are defined on `Walkable` maps. In such a map every
  id matches its key, `""` is not a key, every parent chain ends within
  as many steps as there are conversations, and every resolving child id
  points back to its parent. `Wf` is the invariant every store action
  preserves. It consists of `Walkable`, parent links that resolve, branch
  points paired with parent links, child lists that are exact, unique
  message ids, and `order` listing each key once.

## Model

| member | source | states |
|---|---|---|
| Types.IndexOfId | src/store/conversationStore.ts:198 | The index of the first message with the id, and `None` exactly when no message has it. |
| Types.FindById | src/components/ChatWindow.tsx:87 | A message with the id is found exactly when one is present, and the one found is the first message carrying that id. |
| Text.Take | src/components/ChatWindow.tsx:57 | `substring(0, n)`: a prefix of length `min(n, len)`. |
| Text.Trim | src/components/ChatWindow.tsx:57 | `trim()` keeps a contiguous slice with only whitespace removed on each side, and the result neither starts nor ends with whitespace. |
| Text.TrimIdempotent | src/components/ChatWindow.tsx:57 | Trimming a trimmed string changes nothing. |
| Text.TrimDropsPadding | src/components/ChatWindow.tsx:57 | Trailing whitespace after text that is already trimmed is removed, and that text is returned whole. |
| Tree.AncestorPathShape | src/store/conversationStore.ts:139-154 | The path is empty for a missing or empty id. Otherwise it ends at the target, lists stored conversations, each entry's parent is the entry before it, and the first entry has no parent or a missing one. |
| Tree.ChildPath | src/store/conversationStore.ts:144-152 | The path of a conversation with a parent is its parent's path followed by the conversation. |
| Tree.RootPath | src/store/conversationStore.ts:144-152 | The path of a conversation without a parent is just that conversation. |
| Tree.PathFuel | src/store/conversationStore.ts:144-152 | More steps do not change a walk that has already ended. |
| Tree.GetConversationPath | src/store/conversationStore.ts:139-154 | The loop with `unshift` returns exactly the root-to-target ancestor path. |
| Tree.ChildHeight | src/store/conversationStore.ts:210-230 | A child lies strictly lower than its parent, so the descendant recursion terminates. |
| Tree.SiblingsDisjoint | src/store/conversationStore.ts:214-227 | No conversation lies under two different children of one parent. |
| Tree.RootWithin | src/store/conversationStore.ts:159-165 | The walk stays put when no steps are left or the id is missing or has no parent link; otherwise it ends at the input or at a parent key of some stored conversation. |
| Tree.GetRootId | src/store/conversationStore.ts:156-166 | A missing id is returned unchanged. Otherwise the result is the input or the parent of some stored conversation. |
| Tree.RootIdIsPathHead | src/store/conversationStore.ts:156-166 | Within 100 links, the result is the first conversation of the ancestor path when that has no parent, or its dangling parent id otherwise. |
| Tree.RootIdIdempotent | src/store/conversationStore.ts:156-166 | The root found has no parent, or is not stored, and looking up its root again returns it. |
| ConversationStore.BranchTitle | src/store/conversationStore.ts:48 | "Sub: ", then the first 20 characters of the selection, then an unconditional "...". |
| ConversationStore.CreateRootConversation | src/store/conversationStore.ts:27-41 | Adds exactly one fresh conversation, titled "New Conversation", with no messages, children or parent, and makes it active and root. Every existing conversation is unchanged. |
| ConversationStore.CreateSubConversation | src/store/conversationStore.ts:44-71 | Fails exactly when the parent is missing. Otherwise it adds the child with both links set, appends the new id to the parent's children, makes it active and returns it. Nothing else changes. |
| ConversationStore.SetActiveConversation | src/store/conversationStore.ts:74-76 | Only the active id changes. |
| ConversationStore.AddMessage | src/store/conversationStore.ts:78-99 | No-op for a missing conversation. Otherwise it appends exactly one message with the given role, content and id, keeps every earlier message, and changes no other conversation. |
| ConversationStore.ReplaceContent | src/store/conversationStore.ts:106-108 | Same length, ids and roles. Only the content of messages with the matching id changes. |
| ConversationStore.UpdateMessageContent | src/store/conversationStore.ts:101-120 | No-op for a missing conversation. Otherwise only the contents of messages with the matching id change, and count, order, ids and roles are kept. |
| ConversationStore.UpdateConversationTitle | src/store/conversationStore.ts:122-137 | No-op for a missing conversation. Otherwise only that conversation's title changes. |
| ConversationStore.ShapeKept | src/store/conversationStore.ts:101-137 | Actions that touch only titles and messages keep the tree invariants. |
| ConversationStore.CreateRootPreservesWf | src/store/conversationStore.ts:27-41 | Creating a root keeps the store invariant. |
| ConversationStore.CreateSubPreservesWf | src/store/conversationStore.ts:44-71 | Creating a branch keeps the invariant: acyclic, parent and child links agree, unique message ids. |
| ConversationStore.ChildrenAfterBranch | src/store/conversationStore.ts:56-68 | Appending the new id to the parent's children keeps the child lists exact and pointing back. |
| ConversationStore.AddMessagePreservesWf | src/store/conversationStore.ts:78-99 | Adding a message with a fresh id keeps the invariant, including unique message ids. |
| ConversationStore.UpdateMessageContentPreservesWf | src/store/conversationStore.ts:101-120 | Updating a message's content keeps the invariant. |
| ConversationStore.UpdateTitlePreservesWf | src/store/conversationStore.ts:122-137 | Updating a title keeps the invariant. |
| ContextAssembly.CutAt | src/store/conversationStore.ts:194-204 | The ancestor's messages end at the first message with the successor's branch point. They are uncut when the branch point is empty or not found. |
| ContextAssembly.AssemblePath | src/store/conversationStore.ts:189-206 | An empty path gives nothing. Otherwise the result ends with the last conversation's messages, whole. |
| ContextAssembly.LeadIn | src/store/conversationStore.ts:189-206 | Nothing for a path of at most one conversation. Every message contributed belongs to a conversation before the last one. |
| ContextAssembly.AssembleSplit | src/store/conversationStore.ts:189-206 | The assembled path is the cut ancestors followed by the target's whole message list. |
| ContextAssembly.LeadInSnoc | src/store/conversationStore.ts:189-206 | Extending the path by one conversation appends the previous last conversation, cut at the new one's branch point. |
| ContextAssembly.TranscriptLines | src/store/conversationStore.ts:220-222 | One `role: content` line per message, in order. |
| ContextAssembly.Descendants | src/store/conversationStore.ts:210-230 | Every id the pre-order walk visits is a stored descendant of the start. |
| ContextAssembly.DescendantsComplete | src/store/conversationStore.ts:210-230 | On a well-formed tree, every stored descendant is visited. |
| ContextAssembly.DescendantBlocks | src/store/conversationStore.ts:210-230 | Every fragment is the block of some stored conversation that has messages. |
| ContextAssembly.KidBlocks | src/store/conversationStore.ts:212-228 | No children give no fragments, and every fragment is the block of some stored conversation that has messages. |
| ContextAssembly.BlocksFollowDescendants | src/store/conversationStore.ts:210-230 | The recursive fragment collection equals one block per visited descendant that has messages, in visiting order. |
| ContextAssembly.BlocksOfEmpty | src/store/conversationStore.ts:218-233 | No fragments are produced exactly when every visited descendant has no messages. |
| ContextAssembly.Summary | src/store/conversationStore.ts:208-246 | Nothing for a target with a parent. For a root, one system message with the fixed id exactly when some descendant has messages, and its body is the preamble followed by the blocks joined by blank lines. |
| ContextAssembly.GetConversationContext | src/store/conversationStore.ts:168-248 | Empty for a missing id. Otherwise the cut ancestors, then the target's messages, then the root summary. |
| ContextAssembly.ContextMessagesStored | src/store/conversationStore.ts:168-248 | Every context message is a stored message or the summary. |
| ContextAssembly.RootContext | src/store/conversationStore.ts:208-248 | A root's context is its own messages followed by the summary. |
| ContextAssembly.BranchContext | src/store/conversationStore.ts:189-206 | A branch's context is its parent's lead-in, then the parent cut at the branch point, then the branch's messages. No summary is added. |
| ContextAssembly.BranchOfRootContext | src/store/conversationStore.ts:189-206 | A branch made at message k of a root gets the root's messages up to and including k, then its own. |
| ContextAssembly.ChildlessRootContext | src/store/conversationStore.ts:232-246 | A root with no children gets exactly its own messages. |
| ContextAssembly.TwoBranchSummary | src/store/conversationStore.ts:210-245 | A root with two non-empty leaf branches gets one summary holding both blocks, in child order. |
| GraphLayout.Visible | src/components/ConversationGraph.tsx:31-33 | A conversation is shown exactly when it is stored under a listed key and its root is the active root. |
| GraphLayout.VisibleFromStore | src/components/ConversationGraph.tsx:31-33 | The shown conversations are stored ones, each listed once. |
| GraphLayout.NodesById | src/components/ConversationGraph.tsx:36 | The lookup holds exactly the shown ids, each mapped to a shown conversation with that id. |
| GraphLayout.SeedChildren | src/components/ConversationGraph.tsx:41-48 | The first pass leaves every child list empty. |
| GraphLayout.RootNode | src/components/ConversationGraph.tsx:40-48 | The last shown conversation without a parent link, and none exactly when every shown conversation has one. |
| GraphLayout.LinkChildrenSpec | src/components/ConversationGraph.tsx:50-55 | The second pass appends to each parent the children linked to it, in enumeration order. |
| GraphLayout.ChildrenMapSpec | src/components/ConversationGraph.tsx:37-55 | Each child list is exactly the shown conversations linked to that parent, in enumeration order. This may differ from the stored `childrenIds`. |
| GraphLayout.KidsInMembers | src/components/ConversationGraph.tsx:50-55 | An id is in a parent's child list exactly when a shown conversation with that id links to the parent. |
| GraphLayout.KidsInOrder | src/components/ConversationGraph.tsx:50-55 | Two children keep their enumeration order in the child list. |
| GraphLayout.KidsInDistinct | src/components/ConversationGraph.tsx:50-55 | Each child appears once under its parent. |
| GraphLayout.GraphFromVisible | src/components/ConversationGraph.tsx:36-55 | The lookup and child lists built from the shown conversations are consistent with the store, with each child listed once. |
| GraphLayout.Width | src/components/ConversationGraph.tsx:63-72 | A subtree is never narrower than one node (250). |
| GraphLayout.WidthWhole | src/components/ConversationGraph.tsx:63-72 | Every subtree width is a multiple of 250. |
| GraphLayout.HalfExact | src/components/ConversationGraph.tsx:109-114 | Halving a width is exact, so the number divisions agree with integer ones. |
| GraphLayout.PlacedTop | src/components/ConversationGraph.tsx:80-104 | `assignPositions` puts the subtree's top first, at (x, y), captioned with its title and active exactly when it is the active conversation; the edge from its parent comes first when the parent link is truthy. |
| GraphLayout.PlaceKidsShape | src/components/ConversationGraph.tsx:106-119 | Past the last child nothing is placed. Otherwise each remaining child places at least one node, the first being child `i`'s top at `start` plus half its width, on row `y`. |
| GraphLayout.PlaceShowsVisit | src/components/ConversationGraph.tsx:80-119 | The nodes are the subtree in pre-order, each captioned with its title, marked active exactly when it is the active conversation, at 150 times its depth below the top. |
| GraphLayout.PlaceEdgesVisit | src/components/ConversationGraph.tsx:95-104 | One edge per visited conversation that has a parent link, in visiting order. |
| GraphLayout.PlacedWithin | src/components/ConversationGraph.tsx:109-117 | Every node of a subtree centred at x lies within the subtree's span around x. |
| GraphLayout.PlaceKidsWithin | src/components/ConversationGraph.tsx:109-117 | The children's nodes lie within the total span starting at `x - W/2`. |
| GraphLayout.SiblingsApart | src/components/ConversationGraph.tsx:109-117 | Nodes of an earlier sibling's subtree lie at least one node width left of those of later siblings. |
| GraphLayout.PlacedSpread | src/components/ConversationGraph.tsx:80-119 | Two nodes on the same row are at least 250 apart, in output order. |
| GraphLayout.GrowReached | src/components/ConversationGraph.tsx:80-119 | Every conversation placed lies under the top, at its depth below the top. |
| GraphLayout.GrowDistinct | src/components/ConversationGraph.tsx:80-119 | No conversation is placed twice. |
| GraphLayout.EdgesIntoAllButFirst | src/components/ConversationGraph.tsx:95-104 | With a parentless first node, there is one edge `parent-id` into each later node. |
| GraphLayout.LayoutNodes | src/components/ConversationGraph.tsx:80-121 | The layout places each shown conversation under the root at most once, at y = 150 × depth, with its title and active flag. |
| GraphLayout.LayoutEdges | src/components/ConversationGraph.tsx:95-121 | There is exactly one edge per placed node other than the root, from its parent, with id `parent-id`. |
| GraphLayout.LayoutSpread | src/components/ConversationGraph.tsx:80-121 | No two nodes on one level overlap. |
| GraphLayout.ComputeLayout | src/components/ConversationGraph.tsx:30-123 | The view is empty exactly when every shown conversation has a parent link. Otherwise its first node is the root node, at (0, 0). |
| ChatSend.SendTarget | src/components/ChatWindow.tsx:50 | The requested id when it is truthy, otherwise the active id. |
| ChatSend.AutoTitle | src/components/ChatWindow.tsx:57 | Starts with the first 40 characters of the trimmed content. "..." follows exactly when the untrimmed content is longer than 40. |
| ChatSend.AutoTitleOfShortText | src/components/ChatWindow.tsx:57 | Short text without surrounding whitespace is its own title. |
| ChatSend.AutoTitleCountsPadding | src/components/ChatWindow.tsx:57 | Trailing whitespace counts toward the 40-character test, so padded short text gets "...". |
| ChatSend.ContentOf | src/components/ChatWindow.tsx:86-88 | The content of the first message with the id, or "" when none has it. |
| ChatSend.Resolve | src/components/ChatWindow.tsx:74-83 | A target already chosen is kept. Otherwise the last message is chosen when it is the assistant's, and nothing is chosen when it is not or there are no messages. |
| ChatSend.OnChunk | src/components/ChatWindow.tsx:73-90 | The target is resolved first. Without one nothing changes. With one, only the messages of the target conversation change: ids and roles stay, and every message with the resolved id gets the first such message's content followed by the chunk. |
| ChatSend.EmptyChunkKeepsMessages | src/hooks/useChat.ts:57-63 | An empty chunk changes no message when ids are distinct, so the model handing on chunks the stream reader would skip changes nothing. |
| ChatSend.Stream | src/components/ChatWindow.tsx:71-91 | A run of chunks changes only the target conversation's messages, keeps their number, ids and roles, and keeps a target that was already chosen. |
| ChatSend.ChunkFillsReply | src/components/ChatWindow.tsx:74-90 | The first chunk picks the trailing assistant placeholder, and each chunk appends to it. |
| ChatSend.StreamFillsReply | src/components/ChatWindow.tsx:71-90 | After chunks c1..cn the placeholder holds c1 + ... + cn, and no other message changes. |
| ChatSend.Fail | src/components/ChatWindow.tsx:93-100 | On failure only the target's messages may change, and nothing changes when the last message is not the assistant's. |
| ChatSend.Answered | src/components/ChatWindow.tsx:68-100 | Exactly one message is appended to the target conversation, the assistant message with the reply id, after messages that keep their ids and roles. Nothing else in the store changes. |
| ChatSend.FailFillsReply | src/components/ChatWindow.tsx:93-100 | On failure the assistant placeholder holds the fixed error notice, and earlier messages are untouched. |
| ChatSend.Titled | src/components/ChatWindow.tsx:55-58 | Only a conversation with no messages is retitled, and only its title changes. |
| ChatSend.Prompted | src/components/ChatWindow.tsx:55-61 | Auto-titling, then the user message appended last. |
| ChatSend.AnsweredFillsReply | src/components/ChatWindow.tsx:68-100 | The appended assistant message ends with the concatenated chunks, or the error notice. |
| ChatSend.OnSend | src/components/ChatWindow.tsx:49-102 | Nothing happens, and no request is made, exactly when the target is missing. Otherwise only the target changes. |
| ChatSend.OnSendAppendsExchange | src/components/ChatWindow.tsx:55-100 | A send appends exactly the user message and then the assistant reply, and retitles only a conversation that had no messages. |
| ChatSend.PromptedContext | src/components/ChatWindow.tsx:61-65 | The context is taken after the user message is appended, so it holds that message. |
| ChatSend.ContextExcludesFresh | src/components/ChatWindow.tsx:61-68 | The captured context holds no message with an id still unused, so the placeholder is never in it. |
| ChatSend.OnSendRequest | src/components/ChatWindow.tsx:61-73 | The request is the store's context after the user message: cut ancestors, the target's messages, the new user message, then any summary. The placeholder is never in it. |
| ChatSend.OnSendPreservesWf | src/components/ChatWindow.tsx:49-102 | A send keeps the store invariant. |
| ChatSend.HandleSelection | src/components/ChatWindow.tsx:104-110 | No request and no change exactly when the active conversation is missing. |
| ChatSend.SelectionSends | src/components/ChatWindow.tsx:104-110 | A selection is a branch from the active conversation, followed by a send of `More information on "text"` to the new branch. |
| ChatSend.HandleSelectionBranches | src/components/ChatWindow.tsx:104-110 | The new branch holds the prompt and the reply, is titled from the prompt, and links to the active conversation at the selected message. |
| ChatSend.HandleSelectionFrame | src/components/ChatWindow.tsx:104-110 | Only the parent's child list gains the new id. The branch becomes active, and no other conversation changes. |
| ChatSend.HandleSelectionRequest | src/components/ChatWindow.tsx:104-110 | Selecting message k of a root sends the root's messages up to k, then the prompt. |
| ChatSend.HandleSelectionPreservesWf | src/components/ChatWindow.tsx:104-110 | A selection keeps the store invariant. |

## Left out

- Timestamps (`createdAt`) are never read by the core. They are not modelled.
- Uuid generation is not modelled. Ids are parameters, and `IsFreshId` says they are new and uuid-shaped.
- The network request (`sendMessage`, server-sent events, JSON decoding) is not modelled. Its outcome is the `Reply` parameter.
- Other store actions that could run between chunks during streaming are not modelled, because the model runs the stream as one fold. The `setTimeout` delay in `handleSelection` is also not modelled: the send directly follows the branch.
- Authentication, rendering, keyboard focus, scrolling, the node click handler and deletion are not modelled. These are UI or outside the core.
- Strings are sequences of characters. JavaScript's UTF-16 code units are not modelled separately.
- Object key order is the insertion order `order`. The JavaScript rule that integer-like keys come first is not modelled, because uuids never look like integers.
- `useMemo` caching is modelled as recomputation from the store.
- The `|| 0` and `|| NODE_WIDTH` fallbacks of the layout are not modelled. Every child's width is computed before it is read, so they never apply.
- Layout widths are numbers in the source. They are integers here, because every width is a multiple of 250 and the halvings are exact (`HalfExact`).
- GraphLayout.LayoutNodes: states that each placed conversation is shown, lies under the root and is placed once. It does not state that every shown conversation reachable through the child lists is placed. That converse needs an induction over the child lists built in enumeration order, showing that each child is reached from the root's subtree. It also needs every ancestor of a shown conversation to be shown, which holds only when the 100-link root search agrees for both. That proof was not done.
- ChatSend.OnSend: requires a `Walkable` store, which the store's invariant provides. On a cyclic parent chain the source's context walk would not terminate.
- ChatSend.HandleSelection: requires the store invariant `Wf` and three distinct fresh ids, which uuid generation provides.
- ChatSend.Fail: requires a non-empty message list. The source reads the last message unguarded and would throw on an empty list.
- ChatSend.OnChunk: requires the target conversation to exist. The source would throw otherwise, and `onSend` checks existence first.
- ChatSend.Answered: `reply.failed` stands for the request itself failing. In the source an error thrown by the chunk callback never reaches `onSend`'s `catch`. The stream reader wraps each callback call in its own `try` and only logs the error (src/hooks/useChat.ts:57-65). In the model the callback cannot fail, because the target conversation exists throughout.
- ChatSend.Stream: the source calls the callback only for non-empty chunks (src/hooks/useChat.ts:60). `Reply.chunks` may hold empty strings, which the model hands on. `EmptyChunkKeepsMessages` shows that doing so changes no message.
- Tree.GetRootId: the model follows the source's bound of 100 parent links. Results are only characterised for trees of depth at most 100 (`RootSearchLimit`).
