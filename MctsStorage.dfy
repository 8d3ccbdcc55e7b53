/**
 * The node allocator of the search tree: nodes live in groups of 256 and
 * are named by their id; a free list holds the ids not in use, and a flag
 * per id says whether it is assigned. Taking a node pops the free list
 * (growing the storage by a whole group of 256 ids when the list is
 * empty), giving a node back pushes its id.
 *
 * The nodes themselves are not part of this model: an id stands for the
 * node stored under it. The mutex around the free list is left out. The
 * group size 256 is written out as a literal.
 */
module MctsStorage {

  /** No id is listed twice. */
  predicate Distinct(s: seq<nat>)
  {
    forall i, j :: 0 <= i < j < |s| ==> s[i] != s[j]
  }

  /** The capacity the constructor asks for, rounded up to whole groups of 256. */
  function RoundedCapacity(capacity: nat): (cap: nat)
    ensures cap % 256 == 0 && capacity <= cap < capacity + 256
  {
    (capacity + 255) / 256 * 256
  }

  class Storage {
    /** `freeNodes_`: the ids not in use, the next one to hand out last. */
    var freeNodes: seq<nat>
    /** `assignedNodes_`: one flag per id. */
    var assignedNodes: seq<bool>
    /** The number of groups of `storage_`. */
    var groups: nat

    /** The free list holds exactly the ids that are not assigned, each once. */
    ghost predicate Valid()
      reads this
    {
      |assignedNodes| == 256 * groups && Distinct(freeNodes) &&
      (forall k :: 0 <= k < |freeNodes| ==> freeNodes[k] < |assignedNodes| && !assignedNodes[freeNodes[k]]) &&
      (forall i :: 0 <= i < |assignedNodes| && !assignedNodes[i] ==> i in freeNodes)
    }

    /** The capacity rounded up to whole groups, every id free, listed in increasing order. */
    constructor(capacity: nat)
      ensures Valid()
      ensures |assignedNodes| == RoundedCapacity(capacity) && forall i :: 0 <= i < |assignedNodes| ==> !assignedNodes[i]
      ensures freeNodes == seq(RoundedCapacity(capacity), i => i)
    {
      var cap := RoundedCapacity(capacity);
      var free := [];
      var i := 0;
      while i < cap
        invariant 0 <= i <= cap && free == seq(i, k => k)
      {
        free := free + [i];
        i := i + 1;
      }
      forall j | 0 <= j < cap
        ensures j in free
      {
        assert free[j] == j;
      }
      groups := cap / 256;
      assignedNodes := seq(cap, _ => false);
      freeNodes := free;
    }

    /**
     * `newNode()`: the last free id is taken and marked assigned; when no
     * id is free, a new group of 256 ids is added first and its ids are
     * listed in increasing order, so the last of them is taken.
     */
    method NewNode() returns (id: nat)
      requires Valid()
      modifies this
      ensures Valid()
      ensures id < |assignedNodes| && assignedNodes[id] && (id < |old(assignedNodes)| ==> !old(assignedNodes)[id])
      ensures old(freeNodes) != [] ==>
                id == old(freeNodes)[|old(freeNodes)| - 1] && groups == old(groups) &&
                freeNodes == old(freeNodes)[..|old(freeNodes)| - 1] && assignedNodes == old(assignedNodes)[id := true]
      ensures old(freeNodes) == [] ==>
                groups == old(groups) + 1 && id == 256 * old(groups) + 255 &&
                freeNodes == seq(255, k => 256 * old(groups) + k) &&
                assignedNodes == old(assignedNodes) + seq(256, k => k == 255)
    {
      if freeNodes == [] {
        Grow();
      }
      id := freeNodes[|freeNodes| - 1];
      freeNodes := freeNodes[..|freeNodes| - 1];
      assignedNodes := assignedNodes[id := true];
    }

    /** The growth step of `newNode()`: one more group, its 256 ids free and listed in increasing order. */
    method Grow()
      requires Valid() && freeNodes == []
      modifies this
      ensures Valid() && groups == old(groups) + 1
      ensures assignedNodes == old(assignedNodes) + seq(256, _ => false)
      ensures freeNodes == seq(256, k => 256 * old(groups) + k)
    {
      var base := 256 * groups;
      var free := [];
      var i := 0;
      while i != 256
        invariant 0 <= i <= 256
        invariant free == seq(i, k => base + k)
      {
        free := free + [base + i];
        i := i + 1;
      }
      forall j | base <= j < base + 256
        ensures j in free
      {
        assert free[j - base] == j;
      }
      groups := groups + 1;
      assignedNodes := assignedNodes + seq(256, _ => false);
      freeNodes := free;
    }

    /** `getNumFreeNode()`. */
    function GetNumFreeNode(): nat
      reads this
    {
      |freeNodes|
    }

    /** `freeNode(node)`: an assigned id is marked free and pushed on the free list. */
    method FreeNode(id: nat)
      requires Valid() && id < |assignedNodes| && assignedNodes[id]
      modifies this
      ensures Valid() && groups == old(groups)
      ensures assignedNodes == old(assignedNodes)[id := false] && freeNodes == old(freeNodes) + [id]
    {
      assignedNodes := assignedNodes[id := false];
      freeNodes := freeNodes + [id];
    }
  }

  /** The list without its k-th entry: the other ids, still each once. */
  lemma RemoveAt(free: seq<nat>, k: nat)
    requires Distinct(free) && k < |free|
    ensures Distinct(free[..k] + free[k + 1..]) && |free[..k] + free[k + 1..]| == |free| - 1
    ensures forall x :: x in free[..k] + free[k + 1..] <==> x in free && x != free[k]
  {
    var others := free[..k] + free[k + 1..];
    assert forall m :: 0 <= m < |others| ==> others[m] == (if m < k then free[m] else free[m + 1]);
    forall x | x in free && x != free[k]
      ensures x in others
    {
      var m :| 0 <= m < |free| && free[m] == x;
      if m < k {
        assert others[m] == x;
      } else {
        assert others[m - 1] == x;
      }
    }
  }

  /** How many ids are in use. */
  function CountAssigned(flags: seq<bool>): nat
  {
    if flags == [] then 0
    else CountAssigned(flags[..|flags| - 1]) + (if flags[|flags| - 1] then 1 else 0)
  }

  /** The free list lists each unassigned id once and nothing else. */
  ghost predicate ListsFree(flags: seq<bool>, free: seq<nat>)
  {
    && Distinct(free)
    && (forall k :: 0 <= k < |free| ==> free[k] < |flags| && !flags[free[k]])
    && (forall i :: 0 <= i < |flags| && !flags[i] ==> i in free)
  }

  /** When the last id is in use, the same list lists the free ids of the shorter flags. */
  lemma ListsFreeUsedLast(flags: seq<bool>, free: seq<nat>)
    requires ListsFree(flags, free) && |flags| > 0 && flags[|flags| - 1]
    ensures ListsFree(flags[..|flags| - 1], free)
  {
    var n := |flags| - 1;
    forall k | 0 <= k < |free|
      ensures free[k] < n
    {
      assert free[k] != n;
    }
  }

  /** When the last id is free, the list without it lists the free ids of the shorter flags. */
  lemma ListsFreeFreeLast(flags: seq<bool>, free: seq<nat>, k: nat)
    requires ListsFree(flags, free) && |flags| > 0 && k < |free| && free[k] == |flags| - 1
    ensures ListsFree(flags[..|flags| - 1], free[..k] + free[k + 1..])
    ensures |free[..k] + free[k + 1..]| == |free| - 1
  {
    var rest := flags[..|flags| - 1];
    RemoveAt(free, k);
    var others := free[..k] + free[k + 1..];
    forall m | 0 <= m < |others|
      ensures others[m] < |rest| && !rest[others[m]]
    {
      assert others[m] in free;
    }
  }

  /** Whatever the order of the free list, the ids in use and the ids free add up to the capacity. */
  lemma {:induction false} FreeCount(flags: seq<bool>, free: seq<nat>)
    requires ListsFree(flags, free)
    ensures |free| + CountAssigned(flags) == |flags|
    decreases |flags|
  {
    // With no flags there are no ids, so the list is empty.
    assert |free| == 0 || free[0] < |flags|;
    if |flags| > 0 {
      var n := |flags| - 1;
      assert CountAssigned(flags) == CountAssigned(flags[..n]) + (if flags[n] then 1 else 0);
      if flags[n] {
        ListsFreeUsedLast(flags, free);
        FreeCount(flags[..n], free);
      } else {
        assert n in free;
        var k :| 0 <= k < |free| && free[k] == n;
        ListsFreeFreeLast(flags, free, k);
        FreeCount(flags[..n], free[..k] + free[k + 1..]);
      }
    }
  }

  /** In a valid storage, the free ids and the ids in use add up to the capacity. */
  lemma FreePlusAssigned(s: Storage)
    requires s.Valid()
    ensures s.GetNumFreeNode() + CountAssigned(s.assignedNodes) == 256 * s.groups
  {
    FreeCount(s.assignedNodes, s.freeNodes);
  }
}
