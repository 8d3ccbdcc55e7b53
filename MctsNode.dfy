/**
 * A node of the search tree: its parent, its children keyed by the action
 * that leads to them, and whether it has been visited. The children are
 * kept in a list sorted by action; a new child goes before the children
 * already stored under the same action, and a lookup by action finds the
 * first child stored under it.
 *
 * The statistics, the policy and value estimates and the game state a node
 * carries are floating point or foreign data and are not part of this
 * model; neither is the lock.
 */
module MctsNode {
  import opened MctsStorage

  /** The children list is sorted by action (equal actions allowed). */
  ghost predicate Sorted(kids: seq<(int, Node)>)
  {
    forall i, j :: 0 <= i < j < |kids| ==> kids[i].0 <= kids[j].0
  }

  /**
   * `std::lower_bound` with the comparison "the child's action is below
   * `action`": the first position whose action is not below `action`.
   */
  function LowerBound(kids: seq<(int, Node)>, action: int): (i: nat)
    ensures i <= |kids|
    ensures forall j :: 0 <= j < i ==> kids[j].0 < action
    ensures i < |kids| ==> kids[i].0 >= action
    ensures Sorted(kids) ==> forall j :: i <= j < |kids| ==> kids[j].0 >= action
  {
    if kids == [] || kids[0].0 >= action then 0
    else 1 + LowerBound(kids[1..], action)
  }

  /** The child stored under `action` at its lower bound, or null when there is none. */
  function Lookup(kids: seq<(int, Node)>, action: int): (c: Node?)
  {
    var i := LowerBound(kids, action);
    if i == |kids| || kids[i].0 != action then null else kids[i].1
  }

  /** The list with `(action, child)` inserted at the lower bound of `action`. */
  function Insert(kids: seq<(int, Node)>, action: int, child: Node): (r: seq<(int, Node)>)
  {
    var i := LowerBound(kids, action);
    kids[..i] + [(action, child)] + kids[i..]
  }

  class Node {
    /** `id_`: the node's place in its storage, fixed when the storage is built. */
    const id: nat
    /** `parent_`. */
    var parent: Node?
    /** `children_`: pairs of an action and the child it leads to. */
    var children: seq<(int, Node)>
    /** `visited_`. */
    var visited: bool

    /** A node as the storage lays it out: no parent, no children, not visited. */
    constructor(id: nat)
      ensures this.id == id && parent == null && children == [] && !visited
    {
      this.id := id;
      parent := null;
      children := [];
      visited := false;
    }

    /** `init(parent)`: the children and the visited flag are cleared and the parent is set. */
    method Init(p: Node?)
      modifies this
      ensures parent == p && children == [] && !visited
    {
      parent := null;
      children := [];
      visited := false;
      parent := p;
    }

    /**
     * `newChild(child, action)`: the child is initialised with this node as
     * its parent, then stored at the lower bound of `action`. (When the
     * child is this node itself, its own initialisation has emptied the list
     * first.)
     */
    method NewChild(child: Node, action: int) returns (r: Node)
      modifies this, child
      ensures r == child && child.parent == this && !child.visited
      ensures children == Insert(if child == this then [] else old(children), action, child)
      ensures child != this ==> child.children == [] && parent == old(parent) && visited == old(visited)
    {
      child.Init(this);
      var i := LowerBound(children, action);
      children := children[..i] + [(action, child)] + children[i..];
      r := child;
    }

    /** `getChild(action)`: the child stored under `action`, or null. */
    function GetChild(action: int): (c: Node?)
      reads this
      ensures c != null ==> exists k :: 0 <= k < |children| && children[k] == (action, c)
    {
      Lookup(children, action)
    }
  }

  /** Inserting at the lower bound keeps the list sorted. */
  lemma InsertSorted(kids: seq<(int, Node)>, action: int, child: Node)
    requires Sorted(kids)
    ensures Sorted(Insert(kids, action, child))
    ensures |Insert(kids, action, child)| == |kids| + 1
  {
    var i := LowerBound(kids, action);
    var r := Insert(kids, action, child);
    assert forall m :: 0 <= m < |r| ==> r[m] == (if m < i then kids[m] else if m == i then (action, child) else kids[m - 1]);
  }

  /** On a sorted list, a lookup finds a child exactly when one is stored under the action, and then the first one. */
  lemma LookupIff(kids: seq<(int, Node)>, action: int)
    requires Sorted(kids)
    ensures Lookup(kids, action) != null <==> exists k :: 0 <= k < |kids| && kids[k].0 == action
    ensures Lookup(kids, action) != null ==>
              exists k :: 0 <= k < |kids| && kids[k] == (action, Lookup(kids, action)) &&
                          forall j :: 0 <= j < k ==> kids[j].0 != action
  {
    var i := LowerBound(kids, action);
    if Lookup(kids, action) != null {
      assert kids[i].0 == action;
    }
  }

  /** After an insertion, the lookup of its action finds the child just inserted. */
  lemma LookupInserted(kids: seq<(int, Node)>, action: int, child: Node)
    ensures Lookup(Insert(kids, action, child), action) == child
  {
    var i := LowerBound(kids, action);
    var r := Insert(kids, action, child);
    assert r[i] == (action, child);
    LowerBoundAt(r, action, i);
  }

  /** A position before which every action is below `action` and at which it is not, is the lower bound. */
  lemma {:induction false} LowerBoundAt(kids: seq<(int, Node)>, action: int, i: nat)
    requires i <= |kids| && forall j :: 0 <= j < i ==> kids[j].0 < action
    requires i < |kids| ==> kids[i].0 >= action
    ensures LowerBound(kids, action) == i
    decreases i
  {
    if i > 0 {
      LowerBoundAt(kids[1..], action, i - 1);
    }
  }

  /** The entries of the list after an insertion, position by position. */
  lemma InsertEntries(kids: seq<(int, Node)>, action: int, child: Node)
    ensures var i, r := LowerBound(kids, action), Insert(kids, action, child);
            && |r| == |kids| + 1
            && (forall m :: 0 <= m < i ==> r[m] == kids[m])
            && r[i] == (action, child)
            && (forall m :: i < m < |r| ==> r[m] == kids[m - 1])
  {
  }

  /** An insertion in a sorted list leaves the lookup of every other action as it was. */
  lemma LookupOther(kids: seq<(int, Node)>, action: int, child: Node, other: int)
    requires Sorted(kids) && other != action
    ensures Lookup(Insert(kids, action, child), other) == Lookup(kids, other)
  {
    if other < action {
      LookupBelow(kids, action, child, other);
    } else {
      LookupAbove(kids, action, child, other);
    }
  }

  /** An action below the inserted one keeps its lower bound. */
  lemma LookupBelow(kids: seq<(int, Node)>, action: int, child: Node, other: int)
    requires Sorted(kids) && other < action
    ensures Lookup(Insert(kids, action, child), other) == Lookup(kids, other)
  {
    var i := LowerBound(kids, action);
    var b := LowerBound(kids, other);
    var r := Insert(kids, action, child);
    InsertEntries(kids, action, child);
    assert b <= i;
    forall j | 0 <= j < b
      ensures r[j].0 < other
    {
      assert r[j] == kids[j];
    }
    LowerBoundAt(r, other, b);
    if b < i {
      assert r[b] == kids[b];
    } else {
      assert r[b].0 == action;
    }
  }

  /** An action above the inserted one has its lower bound moved one place on. */
  lemma LookupAbove(kids: seq<(int, Node)>, action: int, child: Node, other: int)
    requires Sorted(kids) && other > action
    ensures Lookup(Insert(kids, action, child), other) == Lookup(kids, other)
  {
    var i := LowerBound(kids, action);
    var b := LowerBound(kids, other);
    var r := Insert(kids, action, child);
    InsertEntries(kids, action, child);
    assert i <= b;
    forall j | 0 <= j < b + 1
      ensures r[j].0 < other
    {
      if j < i {
        assert r[j] == kids[j];
      } else if i < j {
        assert r[j] == kids[j - 1];
      }
    }
    if b < |kids| {
      assert r[b + 1] == kids[b];
    }
    LowerBoundAt(r, other, b + 1);
  }

  /** A snapshot of a subtree: a node's id and the snapshots of its children, in list order. */
  datatype Tree = Tree(id: nat, kids: seq<Tree>)

  /** The ids of a subtree in the order `freeTree` returns them: the children's subtrees first, the node last. */
  function PostOrder(t: Tree): seq<nat>
  {
    Forest(t.kids) + [t.id]
  }

  /** The post-orders of a list of subtrees, one after the other. */
  function Forest(ts: seq<Tree>): seq<nat>
  {
    if ts == [] then [] else PostOrder(ts[0]) + Forest(ts[1..])
  }

  /** Every id of the subtree is listed, and the node's own id last. */
  lemma {:induction false} PostOrderHasAll(t: Tree)
    ensures |PostOrder(t)| >= 1 && PostOrder(t)[|PostOrder(t)| - 1] == t.id
    ensures forall k :: 0 <= k < |t.kids| ==> forall x :: x in PostOrder(t.kids[k]) ==> x in PostOrder(t)
  {
    forall k | 0 <= k < |t.kids|
      ensures forall x :: x in PostOrder(t.kids[k]) ==> x in PostOrder(t)
    {
      ForestHas(t.kids, k);
    }
  }

  /** A list's post-order contains the post-order of each of its subtrees. */
  lemma {:induction false} ForestHas(ts: seq<Tree>, k: nat)
    requires k < |ts|
    ensures forall x :: x in PostOrder(ts[k]) ==> x in Forest(ts)
    decreases k
  {
    if k > 0 {
      ForestHas(ts[1..], k - 1);
      assert ts[1..][k - 1] == ts[k];
    }
  }

  /** The flags with the listed ids cleared. */
  ghost predicate Cleared(before: seq<bool>, after: seq<bool>, ids: seq<nat>)
  {
    |after| == |before| && forall j :: 0 <= j < |after| ==> after[j] == (before[j] && j !in ids)
  }

  /** Every listed id is assigned, and no id is listed twice. */
  ghost predicate AllAssigned(flags: seq<bool>, ids: seq<nat>)
  {
    Distinct(ids) && forall k :: 0 <= k < |ids| ==> ids[k] < |flags| && flags[ids[k]]
  }

  /** A list that is all assigned and distinct stays so on its parts. */
  lemma AllAssignedSplit(flags: seq<bool>, a: seq<nat>, b: seq<nat>)
    requires AllAssigned(flags, a + b)
    ensures AllAssigned(flags, a) && AllAssigned(flags, b)
    ensures forall x :: x in a ==> x !in b
  {
    assert forall k :: 0 <= k < |a| ==> a[k] == (a + b)[k];
    assert forall k :: 0 <= k < |b| ==> b[k] == (a + b)[|a| + k];
    forall x | x in a
      ensures x !in b
    {
      var p :| 0 <= p < |a| && a[p] == x;
      assert forall q :: 0 <= q < |b| ==> b[q] != a[p];
    }
  }

  /**
   * `freeTree()` over a snapshot of the subtree: every child's subtree is
   * returned to the storage in list order, then the node itself. The ids of
   * the subtree must all be assigned and distinct, as they are in a tree
   * built from the storage.
   */
  method FreeTree(t: Tree, s: Storage)
    requires s.Valid() && AllAssigned(s.assignedNodes, PostOrder(t))
    modifies s
    ensures s.Valid() && s.groups == old(s.groups)
    ensures s.freeNodes == old(s.freeNodes) + PostOrder(t)
    ensures Cleared(old(s.assignedNodes), s.assignedNodes, PostOrder(t))
    decreases t
  {
    ghost var orig := s.assignedNodes;
    ghost var done: seq<nat> := [];
    var i := 0;
    while i < |t.kids|
      invariant 0 <= i <= |t.kids| && s.Valid() && s.groups == old(s.groups)
      invariant s.freeNodes == old(s.freeNodes) + done
      invariant done + Forest(t.kids[i..]) == Forest(t.kids)
      invariant Cleared(orig, s.assignedNodes, done)
    {
      var kid := t.kids[i];
      ghost var rest := Forest(t.kids[i + 1..]);
      ForestStep(t.kids, i);
      Regroup(done, PostOrder(kid), rest, [t.id]);
      NextAssigned(orig, s.assignedNodes, done, PostOrder(kid), rest + [t.id]);
      ghost var flags := s.assignedNodes;
      FreeTree(kid, s);
      Assoc(old(s.freeNodes), done, PostOrder(kid));
      ClearedTwice(orig, flags, s.assignedNodes, done, PostOrder(kid));
      Regroup(done, PostOrder(kid), rest, []);
      done := done + PostOrder(kid);
      i := i + 1;
    }
    assert t.kids[i..] == [];
    assert Forest(t.kids[i..]) == [] && done + [] == done;
    assert [t.id] + [] == [t.id];
    NextAssigned(orig, s.assignedNodes, done, [t.id], []);
    assert [t.id][0] == t.id;
    ghost var flags := s.assignedNodes;
    s.FreeNode(t.id);
    ClearedTwice(orig, flags, s.assignedNodes, done, [t.id]);
  }

  /** Concatenation is associative. */
  lemma Assoc(a: seq<nat>, b: seq<nat>, c: seq<nat>)
    ensures (a + b) + c == a + (b + c)
  {
  }

  /** Concatenation regrouped. */
  lemma Regroup(a: seq<nat>, b: seq<nat>, c: seq<nat>, d: seq<nat>)
    ensures (a + (b + c)) + d == a + (b + (c + d)) == (a + b) + (c + d)
  {
  }

  /** The post-order of the list from its i-th subtree on starts with that subtree. */
  lemma ForestStep(ts: seq<Tree>, i: nat)
    requires i < |ts|
    ensures Forest(ts[i..]) == PostOrder(ts[i]) + Forest(ts[i + 1..])
  {
    assert ts[i..][0] == ts[i] && ts[i..][1..] == ts[i + 1..];
  }

  /** The next batch of a subtree's ids is still assigned once the earlier ones are cleared. */
  lemma NextAssigned(orig: seq<bool>, flags: seq<bool>, done: seq<nat>, next: seq<nat>, rest: seq<nat>)
    requires AllAssigned(orig, done + (next + rest)) && Cleared(orig, flags, done)
    ensures AllAssigned(flags, next)
  {
    AllAssignedSplit(orig, done, next + rest);
    AllAssignedSplit(orig, next, rest);
    StillAssigned(orig, flags, done, next);
  }

  /** Ids still listed after a disjoint batch is cleared are still assigned. */
  lemma StillAssigned(orig: seq<bool>, flags: seq<bool>, done: seq<nat>, next: seq<nat>)
    requires Cleared(orig, flags, done) && AllAssigned(orig, next)
    requires forall x :: x in done ==> x !in next
    ensures AllAssigned(flags, next)
  {
    forall k | 0 <= k < |next|
      ensures next[k] < |flags| && flags[next[k]]
    {
      assert next[k] !in done;
    }
  }

  /** Clearing one batch and then the next clears both. */
  lemma ClearedTwice(orig: seq<bool>, mid: seq<bool>, last: seq<bool>, a: seq<nat>, b: seq<nat>)
    requires Cleared(orig, mid, a) && Cleared(mid, last, b)
    ensures Cleared(orig, last, a + b)
  {
  }
}
