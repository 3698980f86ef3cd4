/**
 The tidy-tree layout of the conversation graph view: the active tree is
 filtered out of the store, child lists are rebuilt from the parent links in
 enumeration order, subtree widths are computed bottom-up and positions are
 assigned top-down. All quantities are integers: every width is a multiple
 of 250, so every half-width the layout takes is exact.
 */
module GraphLayout {
  import opened Types
  import opened Tree
  import opened ConversationStore

  /** The horizontal room one node takes, gap included. */
  const NodeWidth: int := 250

  /** The vertical distance between a node and its children. */
  const LevelHeight: int := 150

  /** A node of the flow diagram: the conversation id, its position, its title as caption and whether it is active. */
  datatype FlowNode = FlowNode(id: Id, x: int, y: int, caption: string, active: bool)

  /** An edge of the flow diagram, from a parent conversation to a child. */
  datatype FlowEdge = FlowEdge(id: string, source: Id, target: Id)

  datatype Layout = Layout(nodes: seq<FlowNode>, edges: seq<FlowEdge>)

  // ---------------------------------------------------------------------------
  // The tree filter
  // ---------------------------------------------------------------------------

  /**
   The stored conversations, in enumeration order, whose root is `rootId`.
   A conversation is kept exactly when it is stored under some listed key
   and `getRootId` of its own id is `rootId`.
   */
  function Visible(convs: Conversations, order: seq<Id>, rootId: Id): (vis: seq<Conversation>)
    requires forall i :: 0 <= i < |order| ==> order[i] in convs
    ensures |vis| <= |order|
    ensures forall c :: c in vis <==>
      exists i :: 0 <= i < |order| && c == convs[order[i]] && GetRootId(convs, c.id) == rootId
  {
    if |order| == 0 then []
    else
      var c := convs[order[0]];
      var rest := Visible(convs, order[1..], rootId);
      assert forall i :: 1 <= i < |order| ==> order[i] == order[1..][i - 1];
      (if GetRootId(convs, c.id) == rootId then [c] else []) + rest
  }

  /** No two conversations of the sequence share an id. */
  predicate DistinctIds(vis: seq<Conversation>) {
    forall i, j :: 0 <= i < j < |vis| ==> vis[i].id != vis[j].id
  }

  /** Every conversation of the sequence is the one stored under its own id. */
  predicate FromStore(convs: Conversations, vis: seq<Conversation>) {
    forall i :: 0 <= i < |vis| ==> vis[i].id in convs && convs[vis[i].id] == vis[i]
  }

  /** Filtering a duplicate-free key enumeration yields stored conversations with distinct ids. */
  lemma {:induction false} VisibleFromStore(convs: Conversations, order: seq<Id>, rootId: Id)
    requires IdsMatchKeys(convs) && Distinct(order)
    requires forall i :: 0 <= i < |order| ==> order[i] in convs
    ensures FromStore(convs, Visible(convs, order, rootId))
    ensures DistinctIds(Visible(convs, order, rootId))
  {
    var vis := Visible(convs, order, rootId);
    forall i | 0 <= i < |vis|
      ensures vis[i].id in convs && convs[vis[i].id] == vis[i]
    {
      assert vis[i] in vis;
    }
    if |order| > 0 {
      var rest := order[1..];
      assert Distinct(rest) by {
        assert forall i :: 0 <= i < |rest| ==> rest[i] == order[i + 1];
      }
      VisibleFromStore(convs, rest, rootId);
      var tail := Visible(convs, rest, rootId);
      forall j | 0 <= j < |tail|
        ensures tail[j].id != order[0]
      {
        assert tail[j] in tail;
        var i :| 0 <= i < |rest| && tail[j] == convs[rest[i]] && GetRootId(convs, tail[j].id) == rootId;
        assert rest[i] == order[i + 1];
      }
      var c := convs[order[0]];
      var head := if GetRootId(convs, c.id) == rootId then [c] else [];
      assert vis == head + tail;
      DistinctPrepend(head, tail);
    }
  }

  /** A sequence of at most one conversation, whose id the rest does not use, keeps ids distinct. */
  lemma DistinctPrepend(head: seq<Conversation>, tail: seq<Conversation>)
    requires |head| <= 1 && DistinctIds(tail)
    requires forall j :: 0 <= j < |tail| ==> forall k :: 0 <= k < |head| ==> tail[j].id != head[k].id
    ensures DistinctIds(head + tail)
  {
  }

  // ---------------------------------------------------------------------------
  // Child lists
  // ---------------------------------------------------------------------------

  /** `childrenMap.get(id) || []`. */
  function ChildrenOf(cm: map<Id, seq<Id>>, id: Id): seq<Id> {
    if id in cm then cm[id] else []
  }

  /** The first pass: an empty child list under every visible id. */
  function SeedChildren(vis: seq<Conversation>): (cm: map<Id, seq<Id>>)
    ensures forall k :: k in cm ==> cm[k] == []
  {
    if |vis| == 0 then map[]
    else
      var cm := SeedChildren(vis[..|vis| - 1]);
      var c := vis[|vis| - 1];
      if c.id in cm then cm else cm[c.id := []]
  }

  /** The second pass: each conversation with a truthy parent link is pushed onto its parent's list. */
  function LinkChildren(vis: seq<Conversation>, cm0: map<Id, seq<Id>>): map<Id, seq<Id>>
  {
    if |vis| == 0 then cm0
    else
      var cm := LinkChildren(vis[..|vis| - 1], cm0);
      var c := vis[|vis| - 1];
      if HasParent(c) then cm[ParentKey(c) := ChildrenOf(cm, ParentKey(c)) + [c.id]] else cm
  }

  /** `childrenMap` as the two passes leave it. */
  function ChildrenMap(vis: seq<Conversation>): map<Id, seq<Id>> {
    LinkChildren(vis, SeedChildren(vis))
  }

  /**
   The reference child list: the ids of the conversations whose truthy
   parent link is `p`, in the order they are enumerated.
   */
  function KidsIn(vis: seq<Conversation>, p: Id): (kids: seq<Id>)
    ensures |kids| <= |vis|
  {
    if |vis| == 0 then []
    else
      var c := vis[|vis| - 1];
      KidsIn(vis[..|vis| - 1], p) + (if HasParent(c) && ParentKey(c) == p then [c.id] else [])
  }

  /** An id is listed under `p` exactly when some enumerated conversation with that id has truthy parent `p`. */
  lemma {:induction false} KidsInMembers(vis: seq<Conversation>, p: Id, id: Id)
    ensures id in KidsIn(vis, p) <==>
      exists j :: 0 <= j < |vis| && vis[j].id == id && HasParent(vis[j]) && ParentKey(vis[j]) == p
  {
    if |vis| > 0 {
      var init := vis[..|vis| - 1];
      KidsInMembers(init, p, id);
      assert forall j :: 0 <= j < |init| ==> init[j] == vis[j];
    }
  }

  /** The child list of an enumeration is the child list of a prefix followed by that of the rest. */
  lemma KidsInSplit(vis: seq<Conversation>, p: Id, n: nat)
    requires n <= |vis|
    ensures KidsIn(vis, p) == KidsIn(vis[..n], p) + KidsIn(vis[n..], p)
  {
    assert vis == vis[..n] + vis[n..];
    KidsInAppend(vis[..n], vis[n..], p);
  }

  /** The child list of two enumerations in a row is the first one's followed by the second one's. */
  lemma {:induction false} KidsInAppend(a: seq<Conversation>, b: seq<Conversation>, p: Id)
    ensures KidsIn(a + b, p) == KidsIn(a, p) + KidsIn(b, p)
    decreases |b|
  {
    if |b| == 0 {
      assert a + b == a;
    } else {
      var init, c := b[..|b| - 1], b[|b| - 1];
      var tail := if HasParent(c) && ParentKey(c) == p then [c.id] else [];
      var ab := a + b;
      assert ab[|ab| - 1] == c;
      assert ab[..|ab| - 1] == a + init;
      KidsInAppend(a, init, p);
      var ka, ki := KidsIn(a, p), KidsIn(init, p);
      assert KidsIn(b, p) == ki + tail;
      assert KidsIn(ab, p) == KidsIn(a + init, p) + tail;
      assert (ka + ki) + tail == ka + (ki + tail);
    }
  }

  lemma {:induction false} LinkChildrenSpec(vis: seq<Conversation>, cm0: map<Id, seq<Id>>, p: Id)
    ensures ChildrenOf(LinkChildren(vis, cm0), p) == ChildrenOf(cm0, p) + KidsIn(vis, p)
  {
    if |vis| > 0 {
      var init, c := vis[..|vis| - 1], vis[|vis| - 1];
      var cm := LinkChildren(init, cm0);
      LinkChildrenSpec(init, cm0, p);
      if HasParent(c) && ParentKey(c) == p {
        assert ChildrenOf(LinkChildren(vis, cm0), p) == ChildrenOf(cm, p) + [c.id];
      } else {
        assert ChildrenOf(LinkChildren(vis, cm0), p) == ChildrenOf(cm, p);
      }
      assert KidsIn(vis, p) == KidsIn(init, p) + (if HasParent(c) && ParentKey(c) == p then [c.id] else []);
    }
  }

  /** The two passes build exactly the reference child lists. */
  lemma ChildrenMapSpec(vis: seq<Conversation>, p: Id)
    ensures ChildrenOf(ChildrenMap(vis), p) == KidsIn(vis, p)
  {
    LinkChildrenSpec(vis, SeedChildren(vis), p);
  }

  /** Among conversations with distinct ids, each child appears once under its parent. */
  lemma {:induction false} KidsInDistinct(vis: seq<Conversation>, p: Id)
    requires DistinctIds(vis)
    ensures Distinct(KidsIn(vis, p))
  {
    if |vis| > 0 {
      var init := vis[..|vis| - 1];
      assert DistinctIds(init);
      KidsInDistinct(init, p);
      var c := vis[|vis| - 1];
      KidsInMembers(init, p, c.id);
    }
  }

  /** Children keep their relative enumeration order: a later conversation's id comes later. */
  lemma KidsInOrder(vis: seq<Conversation>, p: Id, a: nat, b: nat)
    requires a < b < |vis|
    requires HasParent(vis[a]) && ParentKey(vis[a]) == p && HasParent(vis[b]) && ParentKey(vis[b]) == p
    ensures exists i, j :: 0 <= i < j < |KidsIn(vis, p)| && KidsIn(vis, p)[i] == vis[a].id && KidsIn(vis, p)[j] == vis[b].id
  {
    KidsInSplit(vis, p, b);
    var front := vis[..b];
    var back := vis[b..];
    KidsInSplit(back, p, 1);
    assert back[..1] == [vis[b]];
    assert KidsIn([vis[b]], p) == [vis[b].id] by {
      assert [vis[b]][..0] == [];
    }
    assert front[a] == vis[a];
    KidsInMembers(front, p, vis[a].id);
    var i :| 0 <= i < |KidsIn(front, p)| && KidsIn(front, p)[i] == vis[a].id;
    var j := |KidsIn(front, p)|;
    assert KidsIn(vis, p)[i] == vis[a].id;
    assert KidsIn(vis, p)[j] == vis[b].id;
  }

  // ---------------------------------------------------------------------------
  // The root node and the id lookup
  // ---------------------------------------------------------------------------

  /**
   `rootNodeId`: the id of the last enumerated conversation whose parent
   link is not truthy, if there is one.
   */
  function RootNode(vis: seq<Conversation>): (r: Option<Id>)
    ensures r.None? <==> forall j :: 0 <= j < |vis| ==> HasParent(vis[j])
    ensures r.Some? ==> exists j :: (0 <= j < |vis| && vis[j].id == r.value && !HasParent(vis[j]) &&
      forall k :: j < k < |vis| ==> HasParent(vis[k]))
  {
    if |vis| == 0 then None
    else
      var c := vis[|vis| - 1];
      if !HasParent(c) then Some(c.id)
      else
        var init := vis[..|vis| - 1];
        assert forall j :: 0 <= j < |init| ==> init[j] == vis[j];
        RootNode(init)
  }

  /** `conversationMap`: each visible conversation under its id, a later one winning a clash. */
  function NodesById(vis: seq<Conversation>): (m: map<Id, Conversation>)
    ensures forall k :: k in m <==> exists j :: 0 <= j < |vis| && vis[j].id == k
    ensures forall k :: k in m ==> m[k] in vis && m[k].id == k
  {
    if |vis| == 0 then map[]
    else
      var init := vis[..|vis| - 1];
      var c := vis[|vis| - 1];
      assert forall j :: 0 <= j < |init| ==> init[j] == vis[j];
      NodesById(init)[c.id := c]
  }

  // ---------------------------------------------------------------------------
  // The tree the passes walk
  // ---------------------------------------------------------------------------

  /** What the two recursive passes read: the store, the id lookup and the child lists. */
  datatype Graph = Graph(convs: Conversations, byId: map<Id, Conversation>, children: map<Id, seq<Id>>)

  /** A child list of `p`: ids the lookup holds, each of a conversation whose parent key is `p`. */
  predicate KidsOk(g: Graph, p: Id, kids: seq<Id>) {
    forall i :: 0 <= i < |kids| ==> kids[i] in g.byId && ParentKey(g.byId[kids[i]]) == p
  }

  /**
   The lookup holds stored conversations under their own keys, and every
   child list lists looked-up children of its key, once each.
   */
  predicate GraphOk(g: Graph) {
    && Walkable(g.convs)
    && (forall k :: k in g.byId ==> k in g.convs && g.byId[k] == g.convs[k])
    && (forall p :: p in g.children ==> KidsOk(g, p, g.children[p]))
    && (forall p :: p in g.children ==> Distinct(g.children[p]))
  }

  /** `kids` is a child list of `parent`, a stored node of a well-formed graph. */
  predicate Family(g: Graph, parent: Id, kids: seq<Id>) {
    GraphOk(g) && parent in g.convs && KidsOk(g, parent, kids)
  }

  /** The children the passes visit below `id`. */
  function Kids(g: Graph, id: Id): (kids: seq<Id>)
    requires GraphOk(g)
    ensures KidsOk(g, id, kids) && Distinct(kids)
  {
    ChildrenOf(g.children, id)
  }

  /** A subtree as the passes walk it: the conversation looked up for an id, then the subtrees of its child list. */
  datatype Sub = Sub(conv: Conversation, kids: seq<Sub>)

  /** The subtree the passes walk from `id`. */
  function Grow(g: Graph, id: Id): (t: Sub)
    requires GraphOk(g) && id in g.byId
    ensures t.conv == g.byId[id]
    decreases Height(g.convs, id), 1
  {
    Sub(g.byId[id], GrowKids(g, id, Kids(g, id), 0))
  }

  /** The subtrees of the children from index `i` on, in child-list order. */
  function GrowKids(g: Graph, parent: Id, kids: seq<Id>, i: nat): (ts: seq<Sub>)
    requires Family(g, parent, kids) && i <= |kids|
    ensures |ts| == |kids| - i
    ensures forall k :: 0 <= k < |ts| ==> ts[k].conv == g.byId[kids[i + k]]
    decreases Height(g.convs, parent), 0, |kids| - i
  {
    if i == |kids| then []
    else
      ChildHeight(g.convs, parent, kids[i]);
      [Grow(g, kids[i])] + GrowKids(g, parent, kids, i + 1)
  }

  // ---------------------------------------------------------------------------
  // Subtree widths and positions
  // ---------------------------------------------------------------------------

  /** `calculateWidth`: a subtree's width, never narrower than one node. */
  function Width(t: Sub): (w: int)
    ensures w >= NodeWidth
    decreases t, 0
  {
    if |t.kids| == 0 then NodeWidth else Max(SumFrom(t.kids, 0), NodeWidth)
  }

  /** The reduce over the children from index `i` on: the sum of their subtree widths. */
  function SumFrom(ts: seq<Sub>, i: nat): (sum: int)
    requires i <= |ts|
    ensures sum >= NodeWidth * (|ts| - i)
    decreases ts, |ts| - i
  {
    if i == |ts| then 0 else Width(ts[i]) + SumFrom(ts, i + 1)
  }

  /** Two whole numbers of node widths add up to a whole number of them. */
  lemma WholeNodesAdd(a: int, b: int)
    requires a % NodeWidth == 0 && b % NodeWidth == 0
    ensures (a + b) % NodeWidth == 0
  {
    assert a == NodeWidth * (a / NodeWidth) && b == NodeWidth * (b / NodeWidth);
    assert a + b == NodeWidth * (a / NodeWidth + b / NodeWidth);
  }

  /** Every subtree is a whole number of nodes wide. */
  lemma {:induction false} WidthWhole(t: Sub)
    ensures Width(t) % NodeWidth == 0
    decreases t, 0
  {
    if |t.kids| > 0 {
      SumFromWhole(t.kids, 0);
    }
  }

  lemma {:induction false} SumFromWhole(ts: seq<Sub>, i: nat)
    requires i <= |ts|
    ensures SumFrom(ts, i) % NodeWidth == 0
    decreases ts, |ts| - i
  {
    if i < |ts| {
      WidthWhole(ts[i]);
      SumFromWhole(ts, i + 1);
      WholeNodesAdd(Width(ts[i]), SumFrom(ts, i + 1));
    }
  }

  /** A subtree width is a multiple of 250, so halving it is exact. */
  lemma HalfExact(t: Sub)
    ensures Width(t) / 2 + Width(t) / 2 == Width(t)
  {
    WidthWhole(t);
    HalfOfWhole(Width(t));
  }

  lemma HalfOfWhole(w: int)
    requires w % NodeWidth == 0
    ensures w / 2 + w / 2 == w
  {
    var q := w / NodeWidth;
    assert w == 2 * (125 * q);
  }

  /** The edge into a conversation from its parent, with id `"{parentId}-{id}"`. */
  function EdgeInto(c: Conversation): FlowEdge {
    FlowEdge(ParentKey(c) + "-" + c.id, ParentKey(c), c.id)
  }

  /** Two layouts side by side: nodes after nodes, edges after edges. */
  function Cat(a: Layout, b: Layout): Layout {
    Layout(a.nodes + b.nodes, a.edges + b.edges)
  }

  /**
   `assignPositions`: the node at (x, y) captioned with the title and marked
   active when it is the active conversation, the edge from its parent when
   the parent link is truthy, then the children laid out from `x - W/2` one
   level lower.
   */
  function Place(t: Sub, x: int, y: int, activeId: Id): (r: Layout)
    decreases t, 0
  {
    var c := t.conv;
    var sub := if |t.kids| > 0 then PlaceKids(t.kids, 0, x - Width(t) / 2, y + LevelHeight, activeId) else Layout([], []);
    Layout([FlowNode(c.id, x, y, c.title, c.id == activeId)] + sub.nodes,
           (if HasParent(c) then [EdgeInto(c)] else []) + sub.edges)
  }

  /**
   The subtree's top comes first, at (x, y), captioned with its title and
   marked active exactly when it is the active conversation; the edge from
   its parent comes first when the parent link is truthy.
   */
  lemma PlacedTop(t: Sub, x: int, y: int, activeId: Id)
    ensures var r := Place(t, x, y, activeId);
      && |r.nodes| > 0 && r.nodes[0] == FlowNode(t.conv.id, x, y, t.conv.title, t.conv.id == activeId)
      && (HasParent(t.conv) ==> |r.edges| > 0 && r.edges[0] == EdgeInto(t.conv))
      && (!HasParent(t.conv) && |t.kids| == 0 ==> r.edges == [])
  {
  }

  /**
   The `forEach` over the children from index `i` on: each child centred in
   a span as wide as its subtree, the spans laid side by side from `start`.
   */
  function PlaceKids(ts: seq<Sub>, i: nat, start: int, y: int, activeId: Id): (r: Layout)
    requires i <= |ts|
    decreases ts, |ts| - i
  {
    if i == |ts| then Layout([], [])
    else Cat(Place(ts[i], start + Width(ts[i]) / 2, y, activeId), PlaceKids(ts, i + 1, start + Width(ts[i]), y, activeId))
  }

  /**
   Past the last child nothing is placed; otherwise at least one node per
   remaining child is, the first being child `i`'s top, centred in its span:
   at `start` plus half its width, on row `y`.
   */
  lemma {:induction false} PlaceKidsShape(ts: seq<Sub>, i: nat, start: int, y: int, activeId: Id)
    requires i <= |ts|
    ensures var r := PlaceKids(ts, i, start, y, activeId);
      && (i == |ts| ==> r == Layout([], []))
      && |r.nodes| >= |ts| - i
      && (i < |ts| ==> r.nodes[0].id == ts[i].conv.id && r.nodes[0].x == start + Width(ts[i]) / 2 && r.nodes[0].y == y)
    decreases |ts| - i
  {
    if i < |ts| {
      PlacedTop(ts[i], start + Width(ts[i]) / 2, y, activeId);
      PlaceKidsShape(ts, i + 1, start + Width(ts[i]), y, activeId);
    }
  }

  // ---------------------------------------------------------------------------
  // What the placement lists: the subtree in visiting order
  // ---------------------------------------------------------------------------

  /** A conversation met by the walk, with its depth. */
  datatype Stop = Stop(conv: Conversation, depth: nat)

  /** The subtree's conversations in pre-order, the top at depth `d`. */
  function Visit(t: Sub, d: nat): (v: seq<Stop>)
    ensures |v| > 0 && v[0] == Stop(t.conv, d)
    decreases t, 0
  {
    [Stop(t.conv, d)] + VisitKids(t.kids, 0, d + 1)
  }

  /** The children's subtrees from index `i` on, in pre-order, one after another. */
  function VisitKids(ts: seq<Sub>, i: nat, d: nat): seq<Stop>
    requires i <= |ts|
    decreases ts, |ts| - i
  {
    if i == |ts| then [] else Visit(ts[i], d) + VisitKids(ts, i + 1, d)
  }

  /** The edges a list of conversations draws: one into each conversation whose parent link is truthy. */
  function EdgesOf(v: seq<Stop>): (es: seq<FlowEdge>)
    ensures |es| <= |v|
  {
    if |v| == 0 then []
    else (if HasParent(v[0].conv) then [EdgeInto(v[0].conv)] else []) + EdgesOf(v[1..])
  }

  lemma {:induction false} EdgesOfAppend(a: seq<Stop>, b: seq<Stop>)
    ensures EdgesOf(a + b) == EdgesOf(a) + EdgesOf(b)
  {
    if |a| == 0 {
      assert a + b == b;
    } else {
      var head := if HasParent(a[0].conv) then [EdgeInto(a[0].conv)] else [];
      assert (a + b)[0] == a[0];
      assert (a + b)[1..] == a[1..] + b;
      assert EdgesOf(a + b) == head + EdgesOf(a[1..] + b);
      EdgesOfAppend(a[1..], b);
      assert EdgesOf(a) == head + EdgesOf(a[1..]);
    }
  }

  /**
   Node `i` shows stop `i`: its id and caption are the conversation's id and
   title, it is active exactly for the active id, and it sits `LevelHeight`
   lower for every level of depth below `base`.
   */
  predicate Shows(nodes: seq<FlowNode>, v: seq<Stop>, base: int, activeId: Id) {
    && |nodes| == |v|
    && forall i :: 0 <= i < |v| ==>
      && nodes[i].id == v[i].conv.id && nodes[i].caption == v[i].conv.title
      && nodes[i].active == (v[i].conv.id == activeId)
      && nodes[i].y == base + LevelHeight * v[i].depth
  }

  lemma ShowsAppend(n1: seq<FlowNode>, v1: seq<Stop>, n2: seq<FlowNode>, v2: seq<Stop>, base: int, activeId: Id)
    requires Shows(n1, v1, base, activeId) && Shows(n2, v2, base, activeId)
    ensures Shows(n1 + n2, v1 + v2, base, activeId)
  {
    forall i | |v1| <= i < |v1 + v2|
      ensures (n1 + n2)[i] == n2[i - |v1|] && (v1 + v2)[i] == v2[i - |v1|]
    {
    }
  }

  /**
   The placement lists the subtree's conversations in pre-order, one level
   (150) lower per level of depth.
   */
  lemma {:induction false} PlaceShowsVisit(t: Sub, x: int, y: int, d: nat, activeId: Id)
    ensures Shows(Place(t, x, y, activeId).nodes, Visit(t, d), y - LevelHeight * d, activeId)
    decreases t, 0
  {
    var c := t.conv;
    var top := [FlowNode(c.id, x, y, c.title, c.id == activeId)];
    var sub := if |t.kids| > 0 then PlaceKids(t.kids, 0, x - Width(t) / 2, y + LevelHeight, activeId) else Layout([], []);
    var below := VisitKids(t.kids, 0, d + 1);
    PlaceKidsShowVisit(t.kids, 0, x - Width(t) / 2, y + LevelHeight, d + 1, activeId);
    if |t.kids| == 0 {
      assert below == [];
    }
    assert Shows(top, [Stop(c, d)], y - LevelHeight * d, activeId);
    ShowsAppend(top, [Stop(c, d)], sub.nodes, below, y - LevelHeight * d, activeId);
  }

  lemma {:induction false} PlaceKidsShowVisit(ts: seq<Sub>, i: nat, start: int, y: int, d: nat, activeId: Id)
    requires i <= |ts|
    ensures Shows(PlaceKids(ts, i, start, y, activeId).nodes, VisitKids(ts, i, d), y - LevelHeight * d, activeId)
    decreases ts, |ts| - i
  {
    if i < |ts| {
      var w := Width(ts[i]);
      var first := Place(ts[i], start + w / 2, y, activeId);
      var rest := PlaceKids(ts, i + 1, start + w, y, activeId);
      PlaceShowsVisit(ts[i], start + w / 2, y, d, activeId);
      PlaceKidsShowVisit(ts, i + 1, start + w, y, d, activeId);
      ShowsAppend(first.nodes, Visit(ts[i], d), rest.nodes, VisitKids(ts, i + 1, d), y - LevelHeight * d, activeId);
    }
  }

  /**
   The placement draws exactly the edges of the visited conversations that
   have a truthy parent link, in visiting order.
   */
  lemma {:induction false} PlaceEdgesVisit(t: Sub, x: int, y: int, d: nat, activeId: Id)
    ensures Place(t, x, y, activeId).edges == EdgesOf(Visit(t, d))
    decreases t, 0
  {
    var c := t.conv;
    var below := VisitKids(t.kids, 0, d + 1);
    PlaceKidsEdgesVisit(t.kids, 0, x - Width(t) / 2, y + LevelHeight, d + 1, activeId);
    if |t.kids| == 0 {
      assert below == [];
    }
    EdgesOfAppend([Stop(c, d)], below);
    assert [Stop(c, d)][1..] == [];
  }

  lemma {:induction false} PlaceKidsEdgesVisit(ts: seq<Sub>, i: nat, start: int, y: int, d: nat, activeId: Id)
    requires i <= |ts|
    ensures PlaceKids(ts, i, start, y, activeId).edges == EdgesOf(VisitKids(ts, i, d))
    decreases ts, |ts| - i
  {
    if i < |ts| {
      var w := Width(ts[i]);
      PlaceEdgesVisit(ts[i], start + w / 2, y, d, activeId);
      PlaceKidsEdgesVisit(ts, i + 1, start + w, y, d, activeId);
      EdgesOfAppend(Visit(ts[i], d), VisitKids(ts, i + 1, d));
    }
  }

  // ---------------------------------------------------------------------------
  // Horizontal spacing
  // ---------------------------------------------------------------------------

  /**
   A subtree placed at `x` stays inside its own span: every node lies at
   least half a node width inside `[x - W/2, x + W/2]`.
   */
  lemma {:induction false} PlacedWithin(t: Sub, x: int, y: int, activeId: Id)
    ensures forall n :: n in Place(t, x, y, activeId).nodes ==>
      x - Width(t) / 2 + NodeWidth / 2 <= n.x <= x + Width(t) / 2 - NodeWidth / 2
    decreases t, 0
  {
    HalfExact(t);
    if |t.kids| > 0 {
      PlaceKidsWithin(t.kids, 0, x - Width(t) / 2, y + LevelHeight, activeId);
    }
  }

  /** The children from index `i` on stay inside the span `[start, start + sum of their widths]`. */
  lemma {:induction false} PlaceKidsWithin(ts: seq<Sub>, i: nat, start: int, y: int, activeId: Id)
    requires i <= |ts|
    ensures forall n :: n in PlaceKids(ts, i, start, y, activeId).nodes ==>
      start + NodeWidth / 2 <= n.x <= start + SumFrom(ts, i) - NodeWidth / 2
    decreases ts, |ts| - i
  {
    if i < |ts| {
      var w := Width(ts[i]);
      HalfExact(ts[i]);
      PlacedWithin(ts[i], start + w / 2, y, activeId);
      PlaceKidsWithin(ts, i + 1, start + w, y, activeId);
    }
  }

  /** Every node of a subtree placed at height `y` is at `y` or lower. */
  lemma {:induction false} PlacedBelow(t: Sub, x: int, y: int, activeId: Id)
    ensures forall n :: n in Place(t, x, y, activeId).nodes ==> n.y >= y
    decreases t, 0
  {
    if |t.kids| > 0 {
      PlaceKidsBelow(t.kids, 0, x - Width(t) / 2, y + LevelHeight, activeId);
    }
  }

  lemma {:induction false} PlaceKidsBelow(ts: seq<Sub>, i: nat, start: int, y: int, activeId: Id)
    requires i <= |ts|
    ensures forall n :: n in PlaceKids(ts, i, start, y, activeId).nodes ==> n.y >= y
    decreases ts, |ts| - i
  {
    if i < |ts| {
      PlacedBelow(ts[i], start + Width(ts[i]) / 2, y, activeId);
      PlaceKidsBelow(ts, i + 1, start + Width(ts[i]), y, activeId);
    }
  }

  /** Of two nodes on one level, the one listed first is at least a node width further left. */
  predicate Spread(nodes: seq<FlowNode>) {
    forall i, j :: 0 <= i < j < |nodes| ==> InOrder(nodes, i, j)
  }

  /** Nodes `i` and `j` are either on different levels or `i` lies at least a node width left of `j`. */
  predicate InOrder(nodes: seq<FlowNode>, i: int, j: int)
    requires 0 <= i < j < |nodes|
  {
    nodes[i].y == nodes[j].y ==> nodes[i].x + NodeWidth <= nodes[j].x
  }

  /** Every node of `a` lies at least a node width left of every node of `b` on its level. */
  predicate LeftOf(a: seq<FlowNode>, b: seq<FlowNode>) {
    forall m, n :: m in a && n in b && m.y == n.y ==> m.x + NodeWidth <= n.x
  }

  lemma SpreadAppend(a: seq<FlowNode>, b: seq<FlowNode>)
    requires Spread(a) && Spread(b) && LeftOf(a, b)
    ensures Spread(a + b)
  {
    forall i, j | 0 <= i < j < |a + b|
      ensures InOrder(a + b, i, j)
    {
      if j < |a| {
        assert InOrder(a, i, j);
      } else if i >= |a| {
        assert InOrder(b, i - |a|, j - |a|);
      } else {
        assert (a + b)[i] == a[i] && (a + b)[j] == b[j - |a|];
      }
    }
  }

  /** Nodes never overlap: on every level they appear left to right at least a node width apart. */
  lemma {:induction false} PlacedSpread(t: Sub, x: int, y: int, activeId: Id)
    ensures Spread(Place(t, x, y, activeId).nodes)
    decreases t, 0
  {
    var c := t.conv;
    var top := [FlowNode(c.id, x, y, c.title, c.id == activeId)];
    if |t.kids| > 0 {
      var sub := PlaceKids(t.kids, 0, x - Width(t) / 2, y + LevelHeight, activeId).nodes;
      assert Place(t, x, y, activeId).nodes == top + sub;
      PlaceKidsSpread(t.kids, 0, x - Width(t) / 2, y + LevelHeight, activeId);
      PlaceKidsBelow(t.kids, 0, x - Width(t) / 2, y + LevelHeight, activeId);
      assert LeftOf(top, sub);
      SpreadAppend(top, sub);
    } else {
      assert Place(t, x, y, activeId).nodes == top;
    }
  }

  lemma {:induction false} PlaceKidsSpread(ts: seq<Sub>, i: nat, start: int, y: int, activeId: Id)
    requires i <= |ts|
    ensures Spread(PlaceKids(ts, i, start, y, activeId).nodes)
    decreases ts, |ts| - i
  {
    if i < |ts| {
      var w := Width(ts[i]);
      var p, q := Place(ts[i], start + w / 2, y, activeId), PlaceKids(ts, i + 1, start + w, y, activeId);
      assert PlaceKids(ts, i, start, y, activeId) == Cat(p, q);
      assert Spread(p.nodes) && Spread(q.nodes) && LeftOf(p.nodes, q.nodes) by {
        PlacedSpread(ts[i], start + w / 2, y, activeId);
        PlaceKidsSpread(ts, i + 1, start + w, y, activeId);
        SiblingsApart(ts, i, start, y, activeId);
      }
      CatSpread(p, q);
    }
  }

  lemma CatSpread(l1: Layout, l2: Layout)
    requires Spread(l1.nodes) && Spread(l2.nodes) && LeftOf(l1.nodes, l2.nodes)
    ensures Spread(Cat(l1, l2).nodes)
  {
    SpreadAppend(l1.nodes, l2.nodes);
  }

  /** Every node of child `i`'s subtree lies at least a node width left of every node of the later children. */
  lemma SiblingsApart(ts: seq<Sub>, i: nat, start: int, y: int, activeId: Id)
    requires i < |ts|
    ensures LeftOf(Place(ts[i], start + Width(ts[i]) / 2, y, activeId).nodes, PlaceKids(ts, i + 1, start + Width(ts[i]), y, activeId).nodes)
  {
    HalfExact(ts[i]);
    PlacedWithin(ts[i], start + Width(ts[i]) / 2, y, activeId);
    PlaceKidsWithin(ts, i + 1, start + Width(ts[i]), y, activeId);
  }

  /** A parent is centred over the spans of its children whenever they are wider than one node. */
  lemma ParentCentred(t: Sub)
    requires |t.kids| > 0 && SumFrom(t.kids, 0) >= NodeWidth
    ensures Width(t) == SumFrom(t.kids, 0)
  {
  }

  // ---------------------------------------------------------------------------
  // What the walked tree holds
  // ---------------------------------------------------------------------------

  /** `GrowKids` lists, at each index, the subtree grown from the child at that index. */
  lemma {:induction false} GrowKidsAt(g: Graph, parent: Id, kids: seq<Id>, i: nat, k: nat)
    requires Family(g, parent, kids) && i + k < |kids|
    ensures GrowKids(g, parent, kids, i)[k] == Grow(g, kids[i + k])
    decreases k
  {
    if k > 0 {
      GrowKidsAt(g, parent, kids, i + 1, k - 1);
    }
  }

  /**
   A stop met below `top`, whose walk started at depth `d`: a looked-up
   conversation lying under `top`, as many levels deeper than `d` as its
   ancestor path is longer than `top`'s.
   */
  ghost predicate Reached(g: Graph, s: Stop, top: Id, d: nat)
    requires GraphOk(g)
  {
    && s.conv.id in g.byId && g.byId[s.conv.id] == s.conv
    && top in g.convs
    && Under(g.convs, s.conv.id, top)
    && s.depth == d + |AncestorPath(g.convs, s.conv.id)| - |AncestorPath(g.convs, top)|
  }

  /** Every stop of the walk from `id` is a looked-up conversation under `id`, at its depth below `id`. */
  lemma {:induction false} GrowReached(g: Graph, id: Id, d: nat)
    requires GraphOk(g) && id in g.byId
    ensures forall s :: s in Visit(Grow(g, id), d) ==> Reached(g, s, id, d)
    decreases Height(g.convs, id), 1
  {
    var t := Grow(g, id);
    var kids := Kids(g, id);
    GrowKidsReached(g, id, kids, t.kids, 0, d + 1);
    forall s | s in Visit(t, d)
      ensures Reached(g, s, id, d)
    {
      if s != Stop(t.conv, d) {
        assert s in VisitKids(t.kids, 0, d + 1);
        var j :| 0 <= j < |kids| && Reached(g, s, kids[j], d + 1);
        ReachedThroughChild(g, id, kids[j], s, d);
      }
    }
  }

  /** What is reached below a child one level down is reached below its parent. */
  lemma ReachedThroughChild(g: Graph, id: Id, c: Id, s: Stop, d: nat)
    requires GraphOk(g) && id in g.byId && c in g.byId && ParentKey(g.byId[c]) == id
    requires Reached(g, s, c, d + 1)
    ensures Reached(g, s, id, d)
  {
    BelowChild(g.convs, id, c, s.conv.id);
    ChildHeight(g.convs, id, c);
  }

  /** Every stop of the walk over the children from index `i` on lies under one of those children. */
  lemma {:induction false} GrowKidsReached(g: Graph, parent: Id, kids: seq<Id>, ts: seq<Sub>, i: nat, d: nat)
    requires Family(g, parent, kids) && ts == GrowKids(g, parent, kids, 0) && i <= |kids|
    ensures forall s :: s in VisitKids(ts, i, d) ==> exists j :: i <= j < |kids| && Reached(g, s, kids[j], d)
    decreases Height(g.convs, parent), 0, |kids| - i
  {
    if i < |kids| {
      ChildHeight(g.convs, parent, kids[i]);
      GrowKidsAt(g, parent, kids, 0, i);
      GrowReached(g, kids[i], d);
      GrowKidsReached(g, parent, kids, ts, i + 1, d);
    }
  }

  /** No conversation is met twice. */
  predicate DistinctStops(v: seq<Stop>) {
    forall i, j :: 0 <= i < j < |v| ==> v[i].conv.id != v[j].conv.id
  }

  /** No conversation of `a` is met again in `b`. */
  predicate StopsApart(a: seq<Stop>, b: seq<Stop>) {
    forall i, j :: 0 <= i < |a| && 0 <= j < |b| ==> a[i].conv.id != b[j].conv.id
  }

  lemma DistinctStopsAppend(a: seq<Stop>, b: seq<Stop>)
    ensures DistinctStops(a) && DistinctStops(b) && StopsApart(a, b) ==> DistinctStops(a + b)
  {
    if DistinctStops(a) && DistinctStops(b) && StopsApart(a, b) {
      forall i, j | 0 <= i < j < |a + b|
        ensures (a + b)[i].conv.id != (a + b)[j].conv.id
      {
        if j >= |a| {
          assert (a + b)[j] == b[j - |a|];
          if i >= |a| {
            assert (a + b)[i] == b[i - |a|];
          } else {
            assert (a + b)[i] == a[i];
          }
        }
      }
    }
  }

  /** The walk from `id` meets each conversation once. */
  lemma {:induction false} GrowDistinct(g: Graph, id: Id, d: nat)
    requires GraphOk(g) && id in g.byId
    ensures DistinctStops(Visit(Grow(g, id), d))
    decreases Height(g.convs, id), 1
  {
    var t := Grow(g, id);
    var kids := Kids(g, id);
    var below := VisitKids(t.kids, 0, d + 1);
    GrowKidsDistinct(g, id, kids, t.kids, 0, d + 1);
    TopApart(g, id, d);
    DistinctStopsAppend([Stop(t.conv, d)], below);
  }

  /** The top of the walk from `id` is not met again below it. */
  lemma TopApart(g: Graph, id: Id, d: nat)
    requires GraphOk(g) && id in g.byId
    ensures StopsApart([Stop(Grow(g, id).conv, d)], VisitKids(Grow(g, id).kids, 0, d + 1))
  {
    var t := Grow(g, id);
    var kids := Kids(g, id);
    var below := VisitKids(t.kids, 0, d + 1);
    GrowKidsReached(g, id, kids, t.kids, 0, d + 1);
    forall j | 0 <= j < |below|
      ensures below[j].conv.id != id
    {
      assert below[j] in below;
      var k :| 0 <= k < |kids| && Reached(g, below[j], kids[k], d + 1);
      BelowChild(g.convs, id, kids[k], below[j].conv.id);
    }
  }

  lemma {:induction false} GrowKidsDistinct(g: Graph, parent: Id, kids: seq<Id>, ts: seq<Sub>, i: nat, d: nat)
    requires Family(g, parent, kids) && Distinct(kids) && ts == GrowKids(g, parent, kids, 0) && i <= |kids|
    ensures DistinctStops(VisitKids(ts, i, d))
    decreases Height(g.convs, parent), 0, |kids| - i
  {
    if i < |kids| {
      ChildHeight(g.convs, parent, kids[i]);
      GrowKidsAt(g, parent, kids, 0, i);
      GrowDistinct(g, kids[i], d);
      GrowKidsDistinct(g, parent, kids, ts, i + 1, d);
      KidsApart(g, parent, kids, ts, i, d);
      DistinctStopsAppend(Visit(ts[i], d), VisitKids(ts, i + 1, d));
    }
  }

  /** Child `i`'s walk shares no conversation with the walks of the children after it. */
  lemma KidsApart(g: Graph, parent: Id, kids: seq<Id>, ts: seq<Sub>, i: nat, d: nat)
    requires Family(g, parent, kids) && Distinct(kids) && ts == GrowKids(g, parent, kids, 0) && i < |kids|
    ensures StopsApart(Visit(ts[i], d), VisitKids(ts, i + 1, d))
  {
    var first := Visit(ts[i], d);
    var rest := VisitKids(ts, i + 1, d);
    GrowKidsAt(g, parent, kids, 0, i);
    GrowReached(g, kids[i], d);
    GrowKidsReached(g, parent, kids, ts, i + 1, d);
    forall a, b | 0 <= a < |first| && 0 <= b < |rest|
      ensures first[a].conv.id != rest[b].conv.id
    {
      assert first[a] in first && rest[b] in rest;
      var j :| i + 1 <= j < |kids| && Reached(g, rest[b], kids[j], d);
      SiblingsDisjoint(g.convs, parent, kids[j], kids[i], rest[b].conv.id);
    }
  }

  /**
   When the first conversation has no parent link and every later one has,
   the edges go, in order, into every conversation but the first.
   */
  lemma {:induction false} EdgesIntoAllButFirst(v: seq<Stop>)
    requires |v| > 0 && !HasParent(v[0].conv)
    requires forall i :: 0 < i < |v| ==> HasParent(v[i].conv)
    ensures |EdgesOf(v)| == |v| - 1
    ensures forall k :: 0 <= k < |v| - 1 ==> EdgesOf(v)[k] == EdgeInto(v[k + 1].conv)
  {
    AllEdges(v[1..]);
  }

  /** When every conversation has a parent link, there is one edge into each, in order. */
  lemma {:induction false} AllEdges(v: seq<Stop>)
    requires forall i :: 0 <= i < |v| ==> HasParent(v[i].conv)
    ensures |EdgesOf(v)| == |v|
    ensures forall k :: 0 <= k < |v| ==> EdgesOf(v)[k] == EdgeInto(v[k].conv)
  {
    if |v| > 0 {
      AllEdges(v[1..]);
    }
  }

  // ---------------------------------------------------------------------------
  // The whole view
  // ---------------------------------------------------------------------------

  /** `getRootId(activeConversationId)`: the tree the view shows. */
  function ActiveRoot(s: Store): Id {
    GetRootId(s.conversations, s.activeId)
  }

  /** `visibleConversations`. */
  function VisibleOf(s: Store): seq<Conversation>
    requires KeyOrder(s.conversations, s.order)
  {
    Visible(s.conversations, s.order, ActiveRoot(s))
  }

  /** The lookup and child lists built from the visible conversations. */
  function GraphOf(s: Store): Graph
    requires KeyOrder(s.conversations, s.order)
  {
    var vis := VisibleOf(s);
    Graph(s.conversations, NodesById(vis), ChildrenMap(vis))
  }

  /** The lookup and child lists built from distinct stored conversations form a well-formed graph. */
  lemma GraphFromVisible(convs: Conversations, vis: seq<Conversation>)
    requires Walkable(convs) && FromStore(convs, vis) && DistinctIds(vis)
    ensures GraphOk(Graph(convs, NodesById(vis), ChildrenMap(vis)))
  {
    var g := Graph(convs, NodesById(vis), ChildrenMap(vis));
    forall k | k in g.byId
      ensures k in convs && g.byId[k] == convs[k]
    {
      var j :| 0 <= j < |vis| && vis[j] == g.byId[k];
    }
    forall p | p in g.children
      ensures KidsOk(g, p, g.children[p]) && Distinct(g.children[p])
    {
      ChildrenMapSpec(vis, p);
      KidsInDistinct(vis, p);
      var kids := g.children[p];
      forall i | 0 <= i < |kids|
        ensures kids[i] in g.byId && ParentKey(g.byId[kids[i]]) == p
      {
        KidsInMembers(vis, p, kids[i]);
        var j :| 0 <= j < |vis| && vis[j].id == kids[i] && HasParent(vis[j]) && ParentKey(vis[j]) == p;
        var m :| 0 <= m < |vis| && vis[m] == g.byId[kids[i]];
      }
    }
  }

  /** The view's graph is well formed on a walkable store whose key list enumerates it. */
  lemma ViewGraphOk(s: Store)
    requires Walkable(s.conversations) && KeyOrder(s.conversations, s.order)
    ensures GraphOk(GraphOf(s))
  {
    VisibleFromStore(s.conversations, s.order, ActiveRoot(s));
    GraphFromVisible(s.conversations, VisibleOf(s));
  }

  /** The root the view lays out is a looked-up conversation with no parent link. */
  lemma RootLookedUp(s: Store)
    requires Walkable(s.conversations) && KeyOrder(s.conversations, s.order)
    requires RootNode(VisibleOf(s)).Some?
    ensures var root := RootNode(VisibleOf(s)).value;
      && root != "" && root in GraphOf(s).byId
      && root in s.conversations && !HasParent(s.conversations[root])
  {
    var vis := VisibleOf(s);
    var root := RootNode(vis).value;
    VisibleFromStore(s.conversations, s.order, ActiveRoot(s));
    var j :| 0 <= j < |vis| && vis[j].id == root && !HasParent(vis[j]);
  }

  /** The subtree the view walks from its root node. */
  function ViewTree(s: Store): (t: Sub)
    requires Walkable(s.conversations) && KeyOrder(s.conversations, s.order)
    requires RootNode(VisibleOf(s)).Some?
    ensures t.conv.id == RootNode(VisibleOf(s)).value
  {
    ViewGraphOk(s);
    RootLookedUp(s);
    Grow(GraphOf(s), RootNode(VisibleOf(s)).value)
  }

  /**
   The nodes and edges of the graph view: the subtree walked from the root
   node, placed with the root at (0, 0); nothing when no visible
   conversation lacks a parent link.
   */
  function ComputeLayout(s: Store): (r: Layout)
    requires Walkable(s.conversations) && KeyOrder(s.conversations, s.order)
    ensures RootNode(VisibleOf(s)).None? <==> r == Layout([], [])
    ensures RootNode(VisibleOf(s)).Some? ==>
      && |r.nodes| > 0 && r.nodes[0].id == RootNode(VisibleOf(s)).value
      && r.nodes[0].x == 0 && r.nodes[0].y == 0
  {
    match RootNode(VisibleOf(s))
    case None => Layout([], [])
    case Some(root) =>
      RootLookedUp(s);
      if root == "" then Layout([], [])
      else PlacedTop(ViewTree(s), 0, 0, s.activeId); Place(ViewTree(s), 0, 0, s.activeId)
  }

  /** A conversation more than one level deep has a parent link. */
  lemma DeepHasParent(convs: Conversations, id: Id)
    requires Walkable(convs) && id in convs && |AncestorPath(convs, id)| > 1
    ensures HasParent(convs[id])
  {
    AncestorPathShape(convs, id);
    var path := AncestorPath(convs, id);
    assert ParentKey(path[|path| - 1]) in convs;
  }

  /**
   What the view draws, when a visible conversation lacks a parent link:
   the walk from the root node, each conversation once, in pre-order, every
   one visible and under the root, at y = 150 times its depth below the root
   (its ancestor path length minus one).
   */
  lemma LayoutNodes(s: Store)
    requires Walkable(s.conversations) && KeyOrder(s.conversations, s.order)
    requires RootNode(VisibleOf(s)).Some?
    ensures var root := RootNode(VisibleOf(s)).value;
      var r := ComputeLayout(s);
      var v := Visit(ViewTree(s), 0);
      && Shows(r.nodes, v, 0, s.activeId)
      && DistinctStops(v)
      && (forall st :: st in v ==>
            && st.conv in VisibleOf(s)
            && Under(s.conversations, st.conv.id, root)
            && st.depth == |AncestorPath(s.conversations, st.conv.id)| - 1)
  {
    var root := RootNode(VisibleOf(s)).value;
    var g := GraphOf(s);
    ViewGraphOk(s);
    RootLookedUp(s);
    RootPath(s.conversations, root);
    PlaceShowsVisit(Grow(g, root), 0, 0, 0, s.activeId);
    GrowDistinct(g, root, 0);
    GrowReached(g, root, 0);
  }

  /** Below a root without a parent link, every conversation walked has a parent link. */
  lemma BelowRootHasParent(g: Graph, root: Id, st: Stop)
    requires GraphOk(g) && root in g.byId && !HasParent(g.byId[root])
    requires st in VisitKids(Grow(g, root).kids, 0, 1)
    ensures HasParent(st.conv)
  {
    var kids := Kids(g, root);
    GrowKidsReached(g, root, kids, Grow(g, root).kids, 0, 1);
    var j :| 0 <= j < |kids| && Reached(g, st, kids[j], 1);
    RootPath(g.convs, root);
    ChildHeight(g.convs, root, kids[j]);
    DeepHasParent(g.convs, st.conv.id);
  }

  /** Every conversation the view walks after the root has a parent link. */
  lemma LaterStopsHaveParents(s: Store)
    requires Walkable(s.conversations) && KeyOrder(s.conversations, s.order)
    requires RootNode(VisibleOf(s)).Some?
    ensures var v := Visit(ViewTree(s), 0);
      forall i :: 0 < i < |v| ==> HasParent(v[i].conv)
  {
    var root := RootNode(VisibleOf(s)).value;
    var g := GraphOf(s);
    ViewGraphOk(s);
    RootLookedUp(s);
    var v := Visit(ViewTree(s), 0);
    var below := VisitKids(Grow(g, root).kids, 0, 1);
    forall i | 0 < i < |v|
      ensures HasParent(v[i].conv)
    {
      assert v[i] == below[i - 1];
      assert below[i - 1] in below;
      BelowRootHasParent(g, root, v[i]);
    }
  }

  /**
   The edges the view draws: one from each drawn conversation's parent into
   it, for every drawn conversation but the root, in the order they are
   drawn.
   */
  lemma LayoutEdges(s: Store)
    requires Walkable(s.conversations) && KeyOrder(s.conversations, s.order)
    requires RootNode(VisibleOf(s)).Some?
    ensures var r := ComputeLayout(s);
      var v := Visit(ViewTree(s), 0);
      && |r.edges| == |v| - 1
      && (forall k :: 0 <= k < |v| - 1 ==> r.edges[k] == EdgeInto(v[k + 1].conv))
  {
    var t := ViewTree(s);
    var v := Visit(t, 0);
    RootLookedUp(s);
    PlaceEdgesVisit(t, 0, 0, 0, s.activeId);
    LaterStopsHaveParents(s);
    EdgesIntoAllButFirst(v);
  }

  /** Nodes on one level of the view never overlap: left to right, at least a node width apart. */
  lemma LayoutSpread(s: Store)
    requires Walkable(s.conversations) && KeyOrder(s.conversations, s.order)
    ensures Spread(ComputeLayout(s).nodes)
  {
    match RootNode(VisibleOf(s))
    case None =>
    case Some(root) =>
      if root != "" {
        ViewGraphOk(s);
        RootLookedUp(s);
        PlacedSpread(Grow(GraphOf(s), root), 0, 0, s.activeId);
      }
  }
}
