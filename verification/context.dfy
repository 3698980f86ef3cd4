/**
 The context assembler behind `getConversationContext`: the ancestor path of
 the target with every strict ancestor cut at the next conversation's branch
 point, followed, when the target is a root, by one synthetic system message
 summarising every descendant visited depth-first in pre-order.
 */
module ContextAssembly {
  import opened Types
  import opened Text
  import opened Tree
  import opened ConversationStore

  /** The id of the synthetic descendant-summary message. */
  const SummaryId: Id := "system-context-descendants"

  /** The fixed text that opens the descendant summary. */
  const SummaryPreamble: string :=
    "The following corresponds to sub-conversations that branched off from this main conversation. Use this context if relevant:\n\n"

  /**
   The messages an ancestor contributes: the shortest prefix that ends with
   the first message carrying the next conversation's branch point, or all
   of its messages when the branch point is unset or not found.
   */
  function CutAt(c: Conversation, next: Conversation): (r: seq<Message>)
    ensures r <= c.messages
    ensures BranchPoint(next) == "" || IndexOfId(c.messages, BranchPoint(next)).None? ==> r == c.messages
    ensures BranchPoint(next) != "" && IndexOfId(c.messages, BranchPoint(next)).Some? ==>
      && |r| > 0 && r[|r| - 1].id == BranchPoint(next)
      && forall j :: 0 <= j < |r| - 1 ==> r[j].id != BranchPoint(next)
  {
    var m := BranchPoint(next);
    if m == "" then c.messages
    else match IndexOfId(c.messages, m)
      case None => c.messages
      case Some(k) => c.messages[..k + 1]
  }

  /**
   The source's loop over the path: each element's messages, cut at the next
   element's branch point unless it is the last, concatenated in path order.
   */
  function AssemblePath(path: seq<Conversation>): (r: seq<Message>)
    ensures |path| == 0 ==> r == []
    ensures |path| > 0 ==> var last := path[|path| - 1].messages;
      |r| >= |last| && r[|r| - |last|..] == last
  {
    if |path| == 0 then []
    else if |path| == 1 then path[0].messages
    else
      var rest := AssemblePath(path[1..]);
      assert path[1..][|path| - 2] == path[|path| - 1];
      CutAt(path[0], path[1]) + rest
  }

  /** What the strict ancestors of the path's last element contribute. */
  function LeadIn(path: seq<Conversation>): (r: seq<Message>)
    ensures |path| <= 1 ==> r == []
    ensures forall m :: m in r ==> exists i :: 0 <= i < |path| - 1 && m in path[i].messages
  {
    if |path| <= 1 then []
    else CutAt(path[0], path[1]) + LeadIn(path[1..])
  }

  /** The loop's result is the ancestors' cut messages followed by the target's messages whole. */
  lemma {:induction false} AssembleSplit(path: seq<Conversation>)
    requires |path| > 0
    ensures AssemblePath(path) == LeadIn(path) + path[|path| - 1].messages
  {
    if |path| > 1 {
      AssembleSplit(path[1..]);
    }
  }

  /** Extending the path by one conversation cuts the old last element at the new one's branch point. */
  lemma {:induction false} LeadInSnoc(path: seq<Conversation>, c: Conversation)
    requires |path| > 0
    ensures LeadIn(path + [c]) == LeadIn(path) + CutAt(path[|path| - 1], c)
  {
    var ext := path + [c];
    assert ext[0] == path[0];
    if |path| == 1 {
      assert ext[1] == c && ext[1..] == [c];
      assert LeadIn(ext) == CutAt(path[0], c) + LeadIn([c]);
    } else {
      assert ext[1] == path[1] && ext[1..] == path[1..] + [c];
      assert LeadIn(ext) == CutAt(path[0], path[1]) + LeadIn(path[1..] + [c]);
      LeadInSnoc(path[1..], c);
      assert LeadIn(path) == CutAt(path[0], path[1]) + LeadIn(path[1..]);
    }
  }

  // ---------------------------------------------------------------------------
  // Descendant summary
  // ---------------------------------------------------------------------------

  /** One `"role: content"` line per message. */
  function TranscriptLines(msgs: seq<Message>): (lines: seq<string>)
    ensures |lines| == |msgs|
    ensures forall i :: 0 <= i < |msgs| ==> lines[i] == RoleName(msgs[i].role) + ": " + msgs[i].content
  {
    if |msgs| == 0 then []
    else [RoleName(msgs[0].role) + ": " + msgs[0].content] + TranscriptLines(msgs[1..])
  }

  /** The block one descendant with messages contributes: a title header, then its transcript. */
  function Block(c: Conversation): string {
    "--- Sub-conversation: " + c.title + " ---\n" + Join("\n", TranscriptLines(c.messages))
  }

  /** Child ids that resolve have `parentId` as their parent. */
  predicate KidsOf(convs: Conversations, parentId: Id, kids: seq<Id>)
  {
    forall i :: 0 <= i < |kids| && kids[i] in convs ==> ParentKey(convs[kids[i]]) == parentId
  }

  /**
   The conversations the descendant walk visits below `parentId`: children in
   `childrenIds` order, each followed by its own descendants (pre-order); a
   child id that does not resolve is skipped together with its subtree.
   Every visited id is a stored descendant of `parentId`.
   */
  function Descendants(convs: Conversations, parentId: Id): (ds: seq<Id>)
    requires Walkable(convs) && parentId in convs
    ensures forall i :: 0 <= i < |ds| ==> ds[i] in convs && IsDescendant(convs, ds[i], parentId)
    decreases Height(convs, parentId), 1
  {
    KidDescendants(convs, parentId, convs[parentId].childrenIds)
  }

  /** The pre-order walk over a suffix `kids` of `parentId`'s children. */
  function KidDescendants(convs: Conversations, parentId: Id, kids: seq<Id>): (ds: seq<Id>)
    requires Walkable(convs) && parentId in convs && KidsOf(convs, parentId, kids)
    ensures forall i :: 0 <= i < |ds| ==> ds[i] in convs && IsDescendant(convs, ds[i], parentId)
    decreases Height(convs, parentId), 0, |kids|
  {
    if |kids| == 0 then []
    else
      var rest := KidDescendants(convs, parentId, kids[1..]);
      if kids[0] !in convs then rest
      else
        ChildHeight(convs, parentId, kids[0]);
        var below := Descendants(convs, kids[0]);
        DescendantOfChild(convs, parentId, kids[0], below);
        [kids[0]] + below + rest
  }

  /** A descendant of a child is a descendant of the parent. */
  lemma DescendantOfChild(convs: Conversations, parentId: Id, child: Id, below: seq<Id>)
    requires Walkable(convs) && parentId in convs && child in convs && ParentKey(convs[child]) == parentId
    requires forall i :: 0 <= i < |below| ==> below[i] in convs && IsDescendant(convs, below[i], child)
    ensures IsDescendant(convs, child, parentId)
    ensures forall i :: 0 <= i < |below| ==> IsDescendant(convs, below[i], parentId)
  {
    BelowChild(convs, parentId, child, child);
    forall i | 0 <= i < |below|
      ensures IsDescendant(convs, below[i], parentId)
    {
      BelowChild(convs, parentId, child, below[i]);
    }
  }

  /** The blocks contributed by a list of visited conversations, in visit order. */
  function BlocksOf(convs: Conversations, ids: seq<Id>): seq<string>
  {
    if |ids| == 0 then []
    else (if ids[0] in convs && |convs[ids[0]].messages| > 0 then [Block(convs[ids[0]])] else []) + BlocksOf(convs, ids[1..])
  }

  lemma {:induction false} BlocksOfAppend(convs: Conversations, a: seq<Id>, b: seq<Id>)
    ensures BlocksOf(convs, a + b) == BlocksOf(convs, a) + BlocksOf(convs, b)
  {
    if |a| == 0 {
      assert a + b == b;
    } else {
      assert (a + b)[0] == a[0];
      assert (a + b)[1..] == a[1..] + b;
      BlocksOfAppend(convs, a[1..], b);
    }
  }

  /** No blocks at all exactly when no visited conversation has a message. */
  lemma {:induction false} BlocksOfEmpty(convs: Conversations, ids: seq<Id>)
    ensures |BlocksOf(convs, ids)| == 0 <==> forall i :: 0 <= i < |ids| && ids[i] in convs ==> |convs[ids[i]].messages| == 0
  {
    if |ids| > 0 {
      BlocksOfEmpty(convs, ids[1..]);
      assert forall i :: 1 <= i < |ids| ==> ids[i] == ids[1..][i - 1];
    }
  }

  /**
   `getDescendantContext`: for each child id that resolves, in order, the
   child's block when it has messages, then the blocks of its own
   descendants; recursion goes through the child's own `id` field.
   */
  function DescendantBlocks(convs: Conversations, parentId: Id): (blocks: seq<string>)
    requires Walkable(convs) && parentId in convs
    ensures forall b :: b in blocks ==> exists k :: k in convs && |convs[k].messages| > 0 && b == Block(convs[k])
    decreases Height(convs, parentId), 1
  {
    KidBlocks(convs, parentId, convs[parentId].childrenIds)
  }

  /** The blocks for the children `kids`, a suffix of the parent's child list. */
  function KidBlocks(convs: Conversations, parentId: Id, kids: seq<Id>): (blocks: seq<string>)
    requires Walkable(convs) && parentId in convs && KidsOf(convs, parentId, kids)
    ensures |kids| == 0 ==> blocks == []
    ensures forall b :: b in blocks ==> exists k :: k in convs && |convs[k].messages| > 0 && b == Block(convs[k])
    decreases Height(convs, parentId), 0, |kids|
  {
    if |kids| == 0 then []
    else
      var rest := KidBlocks(convs, parentId, kids[1..]);
      if kids[0] !in convs then rest
      else
        var child := convs[kids[0]];
        ChildHeight(convs, parentId, kids[0]);
        (if |child.messages| > 0 then [Block(child)] else []) + DescendantBlocks(convs, child.id) + rest
  }

  /**
   The recursive walk yields exactly one block per visited descendant with
   at least one message, in pre-order; descendants without messages add
   nothing but their own descendants are still visited.
   */
  lemma {:induction false} BlocksFollowDescendants(convs: Conversations, parentId: Id)
    requires Walkable(convs) && parentId in convs
    ensures DescendantBlocks(convs, parentId) == BlocksOf(convs, Descendants(convs, parentId))
    decreases Height(convs, parentId), 1
  {
    KidBlocksFollowDescendants(convs, parentId, convs[parentId].childrenIds);
  }

  lemma {:induction false} KidBlocksFollowDescendants(convs: Conversations, parentId: Id, kids: seq<Id>)
    requires Walkable(convs) && parentId in convs && KidsOf(convs, parentId, kids)
    ensures KidBlocks(convs, parentId, kids) == BlocksOf(convs, KidDescendants(convs, parentId, kids))
    decreases Height(convs, parentId), 0, |kids|
  {
    if |kids| > 0 {
      KidBlocksFollowDescendants(convs, parentId, kids[1..]);
      if kids[0] in convs {
        ChildHeight(convs, parentId, kids[0]);
        BlocksFollowDescendants(convs, kids[0]);
        ConsBlocks(convs, kids[0], Descendants(convs, kids[0]), KidDescendants(convs, parentId, kids[1..]));
      }
    }
  }

  lemma ConsBlocks(convs: Conversations, k: Id, below: seq<Id>, rest: seq<Id>)
    requires k in convs
    ensures BlocksOf(convs, [k] + below + rest) ==
      (if |convs[k].messages| > 0 then [Block(convs[k])] else []) + BlocksOf(convs, below) + BlocksOf(convs, rest)
  {
    assert ([k] + below + rest)[1..] == below + rest;
    BlocksOfAppend(convs, below, rest);
  }

  /** A listed child that resolves is visited, and so is its whole subtree. */
  lemma {:induction false} KidVisited(convs: Conversations, parentId: Id, kids: seq<Id>, j: nat)
    requires Walkable(convs) && parentId in convs && KidsOf(convs, parentId, kids)
    requires j < |kids| && kids[j] in convs
    ensures kids[j] in KidDescendants(convs, parentId, kids)
    ensures forall x :: x in Descendants(convs, kids[j]) ==> x in KidDescendants(convs, parentId, kids)
    decreases j
  {
    if kids[0] in convs {
      ChildHeight(convs, parentId, kids[0]);
    }
    if j > 0 {
      assert kids[1..][j - 1] == kids[j];
      KidVisited(convs, parentId, kids[1..], j - 1);
    }
  }

  /** The walk below a visited conversation is part of the walk that visited it. */
  lemma {:induction false} SubtreeWithin(convs: Conversations, p: Id, q: Id)
    requires Walkable(convs) && p in convs && q in Descendants(convs, p)
    ensures q in convs
    ensures forall x :: x in Descendants(convs, q) ==> x in Descendants(convs, p)
    decreases Height(convs, p), 1
  {
    KidSubtreeWithin(convs, p, convs[p].childrenIds, q);
  }

  lemma {:induction false} KidSubtreeWithin(convs: Conversations, p: Id, kids: seq<Id>, q: Id)
    requires Walkable(convs) && p in convs && KidsOf(convs, p, kids) && q in KidDescendants(convs, p, kids)
    ensures q in convs
    ensures forall x :: x in Descendants(convs, q) ==> x in KidDescendants(convs, p, kids)
    decreases Height(convs, p), 0, |kids|
  {
    if kids[0] !in convs {
      KidSubtreeWithin(convs, p, kids[1..], q);
    } else {
      ChildHeight(convs, p, kids[0]);
      var below := Descendants(convs, kids[0]);
      var rest := KidDescendants(convs, p, kids[1..]);
      assert KidDescendants(convs, p, kids) == [kids[0]] + below + rest;
      if q == kids[0] {
      } else if q in below {
        SubtreeWithin(convs, kids[0], q);
      } else {
        KidSubtreeWithin(convs, p, kids[1..], q);
      }
    }
  }

  /**
   On a well-formed tree the walk is complete: every stored descendant of
   `p` is visited, so the summary leaves out no descendant with messages.
   */
  lemma {:induction false} DescendantsComplete(convs: Conversations, p: Id, d: Id)
    requires TreeWf(convs) && p in convs && d in convs && IsDescendant(convs, d, p)
    ensures d in Descendants(convs, p)
    decreases |AncestorPath(convs, d)|
  {
    var q, j := ParentOfDescendant(convs, p, d);
    var qp, pp := AncestorPath(convs, q), AncestorPath(convs, p);
    if |qp| == |pp| {
      assert convs[q] == convs[p];
      KidVisited(convs, p, convs[p].childrenIds, j);
    } else {
      DescendantsComplete(convs, p, q);
      SubtreeWithin(convs, p, q);
      KidVisited(convs, q, convs[q].childrenIds, j);
    }
  }

  /**
   A descendant's parent is stored, lists it as child `j`, and is either
   the ancestor itself (their paths have the same length) or a descendant
   of it with a shorter path.
   */
  lemma ParentOfDescendant(convs: Conversations, p: Id, d: Id) returns (q: Id, j: nat)
    requires TreeWf(convs) && p in convs && d in convs && IsDescendant(convs, d, p)
    ensures q in convs && q == ParentKey(convs[d]) && Terminates(convs, q)
    ensures j < |convs[q].childrenIds| && convs[q].childrenIds[j] == d
    ensures |AncestorPath(convs, q)| < |AncestorPath(convs, d)|
    ensures |AncestorPath(convs, q)| >= |AncestorPath(convs, p)|
    ensures |AncestorPath(convs, q)| == |AncestorPath(convs, p)| ==> AncestorPath(convs, q) == AncestorPath(convs, p)
    ensures |AncestorPath(convs, q)| > |AncestorPath(convs, p)| ==> IsDescendant(convs, q, p)
  {
    var dp := AncestorPath(convs, d);
    var pp := AncestorPath(convs, p);
    AncestorPathShape(convs, p);
    AncestorPathShape(convs, d);
    assert |pp| > 0 && |dp| >= 2;
    q := ParentKey(dp[|dp| - 1]);
    assert q in convs && convs[q] == dp[|dp| - 2];
    assert HasParent(convs[d]);
    ChildHeight(convs, q, d);
    var qp := AncestorPath(convs, q);
    assert d in convs[q].childrenIds;
    j :| 0 <= j < |convs[q].childrenIds| && convs[q].childrenIds[j] == d;
    assert qp == dp[..|qp|];
    if |qp| > |pp| {
      assert qp[..|pp|] == dp[..|pp|];
    }
  }

  /** The synthetic system message carrying the descendant blocks. */
  function SummaryMessage(blocks: seq<string>): Message {
    Message(SummaryId, System, SummaryPreamble + Join("\n\n", blocks))
  }

  /**
   The root augmentation: nothing for a conversation with a parent; for a
   root, exactly one system message with the fixed id, present exactly when
   some visited descendant has a message, whose body is the preamble followed
   by one block per such descendant in pre-order, separated by blank lines.
   */
  function Summary(convs: Conversations, id: Id): (r: seq<Message>)
    requires Walkable(convs) && id in convs
    ensures |r| <= 1
    ensures HasParent(convs[id]) ==> r == []
    ensures |r| == 1 <==> (!HasParent(convs[id]) &&
      exists i :: 0 <= i < |Descendants(convs, id)| && |convs[Descendants(convs, id)[i]].messages| > 0)
    ensures |r| == 1 ==>
      r[0] == Message(SummaryId, System, SummaryPreamble + Join("\n\n", BlocksOf(convs, Descendants(convs, id))))
  {
    if HasParent(convs[id]) then []
    else
      var blocks := DescendantBlocks(convs, convs[id].id);
      BlocksFollowDescendants(convs, id);
      BlocksOfEmpty(convs, Descendants(convs, id));
      if |blocks| > 0 then [SummaryMessage(blocks)] else []
  }

  /**
   `getConversationContext`: nothing for an absent id; otherwise the cut
   messages of the strict ancestors in root-to-target order, then the
   target's own messages whole, then the root augmentation.
   */
  function GetConversationContext(convs: Conversations, id: Id): (r: seq<Message>)
    requires Walkable(convs)
    ensures id !in convs ==> r == []
    ensures id in convs ==> r == LeadIn(AncestorPath(convs, id)) + convs[id].messages + Summary(convs, id)
  {
    if id !in convs then []
    else
      var path := AncestorPath(convs, id);
      AssembleSplit(path);
      AssemblePath(path) + Summary(convs, id)
  }

  /** Every message of a context is a stored message, except the synthetic summary. */
  lemma ContextMessagesStored(convs: Conversations, id: Id, m: Message)
    requires Walkable(convs) && m in GetConversationContext(convs, id)
    ensures m.id == SummaryId || exists k :: k in convs && m in convs[k].messages
  {
    var path := AncestorPath(convs, id);
    var lead := LeadIn(path);
    var summary := Summary(convs, id);
    if m in lead {
      var i :| 0 <= i < |path| - 1 && m in path[i].messages;
      AncestorPathShape(convs, id);
      assert path[i] in convs.Values;
    } else if m in summary {
      assert m == summary[0];
    } else {
      assert m in convs[id].messages;
    }
  }

  /** A root's context is its own messages followed by the root augmentation. */
  lemma RootContext(convs: Conversations, id: Id)
    requires Walkable(convs) && id in convs && !HasParent(convs[id])
    ensures GetConversationContext(convs, id) == convs[id].messages + Summary(convs, id)
  {
    RootPath(convs, id);
  }

  /**
   A branch's context is its parent's ancestor lead-in, then the parent's
   messages cut at the branch point, then the branch's own messages; a
   branch never receives the root augmentation.
   */
  lemma BranchContext(convs: Conversations, b: Id)
    requires Walkable(convs) && b in convs && HasParent(convs[b]) && ParentKey(convs[b]) in convs
    ensures var p := ParentKey(convs[b]);
      GetConversationContext(convs, b) ==
        LeadIn(AncestorPath(convs, p)) + CutAt(convs[p], convs[b]) + convs[b].messages
  {
    var p := ParentKey(convs[b]);
    ChildHeight(convs, p, b);
    var pp := AncestorPath(convs, p);
    assert Terminates(convs, p);
    LeadInSnoc(pp, convs[b]);
  }

  /**
   A branch created at message `m` of a root conversation `p` sees exactly
   `p`'s messages up to and including the first one with id `m`, followed by
   its own messages.
   */
  lemma BranchOfRootContext(convs: Conversations, b: Id, k: nat)
    requires Walkable(convs) && b in convs && HasParent(convs[b])
    requires ParentKey(convs[b]) in convs && !HasParent(convs[ParentKey(convs[b])])
    requires BranchPoint(convs[b]) != ""
    requires IndexOfId(convs[ParentKey(convs[b])].messages, BranchPoint(convs[b])) == Some(k)
    ensures GetConversationContext(convs, b) == convs[ParentKey(convs[b])].messages[..k + 1] + convs[b].messages
  {
    var p := ParentKey(convs[b]);
    BranchContext(convs, b);
    var lead, cut := LeadIn(AncestorPath(convs, p)), CutAt(convs[p], convs[b]);
    assert GetConversationContext(convs, b) == lead + cut + convs[b].messages;
    RootPath(convs, p);
    assert lead == [];
    CutAtFound(convs[p], convs[b], k);
    assert lead + cut == cut;
  }

  /** An ancestor whose messages hold the branch point contributes them up to and including it. */
  lemma CutAtFound(c: Conversation, next: Conversation, k: nat)
    requires BranchPoint(next) != "" && IndexOfId(c.messages, BranchPoint(next)) == Some(k)
    ensures CutAt(c, next) == c.messages[..k + 1]
  {
  }

  /** A root without children gets no summary: its context is its own messages. */
  lemma ChildlessRootContext(convs: Conversations, id: Id)
    requires Walkable(convs) && id in convs && !HasParent(convs[id]) && convs[id].childrenIds == []
    ensures GetConversationContext(convs, id) == convs[id].messages
  {
    RootContext(convs, id);
    assert Descendants(convs, id) == [];
  }

  /**
   A root with two childless branches that each hold messages gets one
   trailing summary naming both, in `childrenIds` order.
   */
  lemma TwoBranchSummary(convs: Conversations, id: Id, b1: Id, b2: Id)
    requires Walkable(convs) && id in convs && !HasParent(convs[id]) && convs[id].childrenIds == [b1, b2]
    requires b1 in convs && b2 in convs && b1 != b2
    requires convs[b1].childrenIds == [] && convs[b2].childrenIds == []
    requires |convs[b1].messages| > 0 && |convs[b2].messages| > 0
    ensures GetConversationContext(convs, id) ==
      convs[id].messages + [SummaryMessage([Block(convs[b1]), Block(convs[b2])])]
  {
    RootContext(convs, id);
    TwoLeafDescendants(convs, id, b1, b2);
    TwoBlocks(convs, b1, b2);
    var summary := Summary(convs, id);
    assert |convs[Descendants(convs, id)[0]].messages| > 0;
    assert |summary| == 1;
    assert summary == [SummaryMessage([Block(convs[b1]), Block(convs[b2])])];
  }

  /** The walk below a conversation with two childless children visits exactly those two, in order. */
  lemma TwoLeafDescendants(convs: Conversations, id: Id, b1: Id, b2: Id)
    requires Walkable(convs) && id in convs && convs[id].childrenIds == [b1, b2]
    requires b1 in convs && b2 in convs
    requires convs[b1].childrenIds == [] && convs[b2].childrenIds == []
    ensures Descendants(convs, id) == [b1, b2]
  {
    var kids := [b1, b2];
    assert kids[1..] == [b2] && [b2][1..] == [];
    LeafDescendants(convs, b1);
    LeafDescendants(convs, b2);
    assert KidDescendants(convs, id, []) == [];
    assert KidDescendants(convs, id, [b2]) == [b2] + Descendants(convs, b2) + KidDescendants(convs, id, []);
    assert KidDescendants(convs, id, kids) == [b1] + Descendants(convs, b1) + KidDescendants(convs, id, [b2]);
  }

  /** The walk below a childless conversation visits nothing. */
  lemma LeafDescendants(convs: Conversations, c: Id)
    requires Walkable(convs) && c in convs && convs[c].childrenIds == []
    ensures Descendants(convs, c) == []
  {
    assert Descendants(convs, c) == KidDescendants(convs, c, []);
  }

  /** The blocks of two conversations, in order. */
  lemma TwoBlocks(convs: Conversations, b1: Id, b2: Id)
    requires b1 in convs && b2 in convs
    requires |convs[b1].messages| > 0 && |convs[b2].messages| > 0
    ensures BlocksOf(convs, [b1, b2]) == [Block(convs[b1]), Block(convs[b2])]
  {
    assert [b1, b2][1..] == [b2];
    assert [b2][1..] == [];
    assert BlocksOf(convs, [b2]) == [Block(convs[b2])];
  }
}
