/**
 The tree queries over a conversation map: the ancestor walk behind
 `getConversationPath`, the bounded walk behind `getRootId`, and the
 well-formedness a walk needs in order to end.
 */
module Tree {
  import opened Types

  type Conversations = map<Id, Conversation>

  /**
   The ancestor walk that starts at `id` visits at most `fuel` conversations:
   it stops at an empty id or at an id that is not in the map, and otherwise
   moves on to the parent key.
   */
  predicate ChainEnds(convs: Conversations, id: Id, fuel: nat)
    decreases fuel
  {
    id == "" || id !in convs || (fuel > 0 && ChainEnds(convs, ParentKey(convs[id]), fuel - 1))
  }

  /**
   The unbounded ancestor walk from `id` ends. A walk that ends visits
   distinct conversations, so `|convs|` visits are always enough.
   */
  predicate Terminates(convs: Conversations, id: Id) {
    ChainEnds(convs, id, |convs|)
  }

  /** Every node's ancestor walk ends: the parent links form a forest. */
  predicate Acyclic(convs: Conversations) {
    forall k {:trigger Terminates(convs, k)} :: k in convs ==> Terminates(convs, k)
  }

  /** Every conversation stored under `k` carries `k` as its own id. */
  predicate IdsMatchKeys(convs: Conversations) {
    forall k :: k in convs ==> convs[k].id == k
  }

  /** A child id that resolves names a conversation whose parent is the listing node. */
  predicate ChildrenPointBack(convs: Conversations) {
    forall k, i :: k in convs && 0 <= i < |convs[k].childrenIds| && convs[k].childrenIds[i] in convs ==>
      ParentKey(convs[convs[k].childrenIds[i]]) == k
  }

  /**
   What the recursive walks of the engine need in order to end: ids match
   keys, no conversation sits under the empty key, the parent links are
   acyclic, and resolvable child ids agree with the parent links.
   */
  predicate Walkable(convs: Conversations) {
    && "" !in convs
    && IdsMatchKeys(convs)
    && Acyclic(convs)
    && ChildrenPointBack(convs)
  }

  /**
   The conversations visited by the ancestor walk from `id`, root first,
   using at most `fuel` visits.
   */
  function PathWithin(convs: Conversations, id: Id, fuel: nat): (path: seq<Conversation>)
    requires ChainEnds(convs, id, fuel)
    ensures |path| <= fuel
    ensures id == "" || id !in convs ==> path == []
    ensures id != "" && id in convs ==> |path| > 0 && path[|path| - 1] == convs[id]
    decreases fuel
  {
    if id == "" || id !in convs then []
    else PathWithin(convs, ParentKey(convs[id]), fuel - 1) + [convs[id]]
  }

  /**
   The walk's result is a chain of stored conversations, each the parent of
   the next, whose first element has no parent in the map.
   */
  lemma {:induction false} PathLinks(convs: Conversations, id: Id, fuel: nat)
    requires ChainEnds(convs, id, fuel)
    ensures var path := PathWithin(convs, id, fuel);
      && (forall i :: 0 <= i < |path| ==> path[i] in convs.Values)
      && (forall i :: 0 < i < |path| ==> ParentKey(path[i]) in convs && convs[ParentKey(path[i])] == path[i - 1])
      && (|path| > 0 ==> ParentKey(path[0]) == "" || ParentKey(path[0]) !in convs)
    decreases fuel
  {
    if id != "" && id in convs {
      var p := ParentKey(convs[id]);
      PathLinks(convs, p, fuel - 1);
      var front := PathWithin(convs, p, fuel - 1);
      var path := front + [convs[id]];
      assert |front| > 0 ==> front[|front| - 1] == convs[p];
      forall i | 0 < i < |path|
        ensures ParentKey(path[i]) in convs && convs[ParentKey(path[i])] == path[i - 1]
      {
        if i < |front| {
          assert path[i] == front[i] && path[i - 1] == front[i - 1];
        }
      }
    }
  }

  /** The ancestor path does not depend on how much spare fuel the walk is given. */
  lemma {:induction false} PathFuel(convs: Conversations, id: Id, n: nat, m: nat)
    requires ChainEnds(convs, id, n)
    requires n <= m
    ensures ChainEnds(convs, id, m)
    ensures PathWithin(convs, id, n) == PathWithin(convs, id, m)
    decreases n
  {
    if id != "" && id in convs {
      PathFuel(convs, ParentKey(convs[id]), n - 1, m - 1);
    }
  }

  /** `getConversationPath`'s result: the ancestors of `id`, root first, `id` last. */
  function AncestorPath(convs: Conversations, id: Id): seq<Conversation>
    requires Terminates(convs, id)
  {
    PathWithin(convs, id, |convs|)
  }

  /**
   `getConversationPath`'s promise: `[]` for an empty or absent id;
   otherwise stored conversations in root-to-target order, the target last,
   each the parent of the next, the first without a parent in the map.
   */
  lemma AncestorPathShape(convs: Conversations, id: Id)
    requires Terminates(convs, id)
    ensures var path := AncestorPath(convs, id);
      && (id == "" || id !in convs ==> path == [])
      && (id != "" && id in convs ==> |path| > 0 && path[|path| - 1] == convs[id])
      && (forall i :: 0 <= i < |path| ==> path[i] in convs.Values)
      && (forall i :: 0 < i < |path| ==> ParentKey(path[i]) in convs && convs[ParentKey(path[i])] == path[i - 1])
      && (|path| > 0 ==> ParentKey(path[0]) == "" || ParentKey(path[0]) !in convs)
  {
    PathLinks(convs, id, |convs|);
  }

  /** A conversation without a parent link is its own whole ancestor path. */
  lemma RootPath(convs: Conversations, id: Id)
    requires Walkable(convs) && id in convs && !HasParent(convs[id])
    ensures AncestorPath(convs, id) == [convs[id]]
  {
    assert Terminates(convs, id);
    assert PathWithin(convs, "", |convs| - 1) == [];
  }

  /** A child's ancestor path is its parent's path with the child appended. */
  lemma ChildPath(convs: Conversations, k: Id)
    requires k != "" && k in convs && HasParent(convs[k])
    requires Terminates(convs, k)
    ensures Terminates(convs, ParentKey(convs[k]))
    ensures AncestorPath(convs, k) == AncestorPath(convs, ParentKey(convs[k])) + [convs[k]]
    ensures |AncestorPath(convs, k)| <= |convs|
  {
    var p := ParentKey(convs[k]);
    PathFuel(convs, p, |convs| - 1, |convs|);
  }

  /**
   The distance of `id` from the deepest possible level; it strictly drops
   from a parent to each of its children, which is what makes the downward
   walks of the engine end.
   */
  ghost function Height(convs: Conversations, id: Id): nat
    requires Terminates(convs, id)
  {
    |convs| - |AncestorPath(convs, id)|
  }

  lemma ChildHeight(convs: Conversations, parent: Id, child: Id)
    requires Walkable(convs)
    requires parent in convs && child in convs && ParentKey(convs[child]) == parent
    ensures Height(convs, child) < Height(convs, parent)
    ensures AncestorPath(convs, child) == AncestorPath(convs, parent) + [convs[child]]
  {
    ChildPath(convs, child);
  }

  /** `d` lies strictly below `p`: `p`'s ancestor path is a proper prefix of `d`'s. */
  ghost predicate IsDescendant(convs: Conversations, d: Id, p: Id)
  {
    && Terminates(convs, d) && Terminates(convs, p)
    && |AncestorPath(convs, p)| < |AncestorPath(convs, d)|
    && AncestorPath(convs, d)[..|AncestorPath(convs, p)|] == AncestorPath(convs, p)
  }

  /** `d` is `c` itself or lies below it. */
  ghost predicate Under(convs: Conversations, d: Id, c: Id)
  {
    d == c || IsDescendant(convs, d, c)
  }

  /** Whatever lies under a child lies strictly below its parent. */
  lemma BelowChild(convs: Conversations, p: Id, c: Id, d: Id)
    requires Walkable(convs) && p in convs && c in convs && ParentKey(convs[c]) == p
    requires Under(convs, d, c)
    ensures IsDescendant(convs, d, p)
  {
    ChildHeight(convs, p, c);
    var pp := AncestorPath(convs, p);
    var cp := AncestorPath(convs, c);
    if d != c {
      var dp := AncestorPath(convs, d);
      assert dp[..|cp|] == cp;
      assert dp[..|pp|] == cp[..|pp|];
    }
  }

  /** Whatever lies under a child has that child right after the parent on its ancestor path. */
  lemma ChildOnPath(convs: Conversations, p: Id, c: Id, d: Id)
    requires Walkable(convs) && p in convs && c in convs && ParentKey(convs[c]) == p && d in convs
    ensures Under(convs, d, c) ==>
      |AncestorPath(convs, p)| < |AncestorPath(convs, d)| && AncestorPath(convs, d)[|AncestorPath(convs, p)|] == convs[c]
  {
    ChildHeight(convs, p, c);
    assert Terminates(convs, d);
    var n := |AncestorPath(convs, p)|;
    if Under(convs, d, c) && d != c {
      assert AncestorPath(convs, d)[..n + 1] == AncestorPath(convs, c);
    }
  }

  /** Two different children of one parent have nothing under them in common. */
  lemma SiblingsDisjoint(convs: Conversations, p: Id, c1: Id, c2: Id, d: Id)
    requires Walkable(convs) && p in convs && c1 in convs && c2 in convs && d in convs
    requires ParentKey(convs[c1]) == p && ParentKey(convs[c2]) == p && c1 != c2
    requires Under(convs, d, c1)
    ensures !Under(convs, d, c2)
  {
    ChildOnPath(convs, p, c1, d);
    ChildOnPath(convs, p, c2, d);
    assert convs[c1].id != convs[c2].id;
  }

  /**
   `getConversationPath`: the source's loop, which prepends each visited
   conversation and moves to its parent while the id is truthy and resolves.
   */
  method GetConversationPath(convs: Conversations, id: Id) returns (path: seq<Conversation>)
    requires Terminates(convs, id)
    ensures path == AncestorPath(convs, id)
  {
    path := [];
    var current := id;
    ghost var fuel: nat := |convs|;
    while current != "" && current in convs
      invariant ChainEnds(convs, current, fuel)
      invariant AncestorPath(convs, id) == PathWithin(convs, current, fuel) + path
      decreases fuel
    {
      path := [convs[current]] + path;
      current := ParentKey(convs[current]);
      fuel := fuel - 1;
    }
  }

  /** Follows at most `steps` parent links from `id`, stopping at an id without a truthy parent. */
  function RootWithin(convs: Conversations, id: Id, steps: nat): (r: Id)
    ensures steps == 0 || id !in convs || !HasParent(convs[id]) ==> r == id
    ensures r == id || r in ParentKeys(convs)
    decreases steps
  {
    if id in convs && HasParent(convs[id]) && steps > 0 then RootWithin(convs, ParentKey(convs[id]), steps - 1)
    else id
  }

  /** The walk of `getRootId` gives up after this many parent links. */
  const RootSearchLimit: nat := 100

  /**
   `getRootId`: an absent id is returned unchanged; otherwise at most 100
   parent links are followed. The result is always the input or one of the
   keys the input's ancestor walk passes through.
   */
  function GetRootId(convs: Conversations, id: Id): (r: Id)
    ensures id !in convs ==> r == id
    ensures r == id || r in ParentKeys(convs)
  {
    if id !in convs then id else RootWithin(convs, id, RootSearchLimit)
  }

  /** The parent keys that occur in the map. */
  function ParentKeys(convs: Conversations): set<Id> {
    set k | k in convs && HasParent(convs[k]) :: ParentKey(convs[k])
  }

  /**
   When the ancestor walk from `id` visits at most `steps` conversations,
   the bounded walk ends where the ancestor path begins: at the path's first
   conversation when that has no parent, or at the parent key it dangles on.
   */
  lemma {:induction false} RootWithinIsPathHead(convs: Conversations, id: Id, steps: nat, fuel: nat)
    requires IdsMatchKeys(convs)
    requires id != "" && id in convs
    requires ChainEnds(convs, id, fuel)
    requires |PathWithin(convs, id, fuel)| <= steps
    ensures var head := PathWithin(convs, id, fuel)[0];
      var r := RootWithin(convs, id, steps);
      if HasParent(head) then r == ParentKey(head) && r !in convs
      else r in convs && convs[r] == head && !HasParent(convs[r])
    decreases fuel
  {
    var p := ParentKey(convs[id]);
    if HasParent(convs[id]) && p in convs {
      RootWithinIsPathHead(convs, p, steps - 1, fuel - 1);
    }
  }

  /**
   On a map whose walk from `id` ends within 100 visits (a depth below 100
   parent links), `getRootId` returns the key of the path's first conversation or
   the key that conversation dangles on.
   */
  lemma RootIdIsPathHead(convs: Conversations, id: Id)
    requires IdsMatchKeys(convs)
    requires id != "" && id in convs && Terminates(convs, id)
    requires |AncestorPath(convs, id)| <= RootSearchLimit
    ensures var head := AncestorPath(convs, id)[0];
      var r := GetRootId(convs, id);
      if HasParent(head) then r == ParentKey(head) && r !in convs
      else r in convs && convs[r] == head && r == head.id && !HasParent(convs[r])
  {
    RootWithinIsPathHead(convs, id, RootSearchLimit, |convs|);
  }

  /**
   On a tree of depth below 100, `getRootId` lands on a conversation with no
   parent link (or on an id outside the map), and applying it again changes
   nothing.
   */
  lemma RootIdIdempotent(convs: Conversations, id: Id)
    requires IdsMatchKeys(convs) && "" !in convs
    requires Terminates(convs, id)
    requires |AncestorPath(convs, id)| <= RootSearchLimit
    ensures var r := GetRootId(convs, id);
      (r !in convs || !HasParent(convs[r])) && GetRootId(convs, r) == r
  {
    if id in convs {
      RootIdIsPathHead(convs, id);
    }
  }
}
