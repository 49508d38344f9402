/**
The native Yoga side of the bindings, as far as the bindings rely on it: every native node has an
ordered list of child nodes. These contracts are assumptions about code outside the repository.
*/
module YogaNative {
  import opened Handles
  import opened Lists
  import opened YogaForest

  type Tree = map<nat, seq<nat>>

  function InsertChild(n: Tree, parent: nat, child: nat, index: nat): Tree
    requires parent in n && index <= |n[parent]|
  {
    n[parent := InsertAt(n[parent], index, child)]
  }

  function RemoveChild(n: Tree, parent: nat, child: nat): Tree
    requires parent in n
  {
    n[parent := Without(n[parent], child)]
  }

  /** y is reached from x through k child links. */
  ghost predicate Reaches(n: Tree, x: nat, y: nat, k: nat)
    decreases k
  {
    if k == 0 then x == y
    else exists z :: z in n && y in n[z] && Reaches(n, x, z, k - 1)
  }

  /** The nodes that a recursive native free destroys. */
  ghost function Descendants(n: Tree, x: nat): set<nat> {
    set y | y in n && exists k: nat :: Reaches(n, x, y, k)
  }

  ghost function FreeRecursive(n: Tree, x: nat): Tree {
    n - Descendants(n, x)
  }

  // ---- Agreement between parent handles and native child lists ----

  ghost predicate OwnedBy(t: Table, i: int, x: nat) {
    Live(t, i) && t[i].node == x
  }

  ghost predicate ChildNode(t: Table, parent: nat, x: nat) {
    exists j :: OwnedBy(t, j, x) && t[j].parent == parent
  }

  /** The child list of slot i holds exactly the nodes of the live slots naming i, each once. */
  ghost predicate ListAgrees(t: Table, n: Tree, i: int)
    requires Live(t, i)
  {
    && t[i].node in n
    && Distinct(n[t[i].node])
    && forall x: nat :: x in n[t[i].node] <==> ChildNode(t, HandleOf(t, i), x)
  }

  ghost predicate NodesOwned(t: Table, n: Tree) {
    && (forall x :: x in n ==> exists i :: OwnedBy(t, i, x))
    && (forall i, j :: Live(t, i) && Live(t, j) && t[i].node == t[j].node ==> i == j)
  }

  ghost predicate Agrees(t: Table, n: Tree) {
    && NodesOwned(t, n)
    && forall i :: Live(t, i) ==> ListAgrees(t, n, i)
  }

  lemma ChildListed(t: Table, n: Tree, i: int, j: int)
    requires WellFormed(t) && Agrees(t, n) && Live(t, i) && Live(t, j)
    ensures t[i].node in n
    ensures t[j].node in n[t[i].node] <==> t[j].parent == HandleOf(t, i)
  {
    assert ListAgrees(t, n, i);
    assert OwnedBy(t, j, t[j].node);
  }

  /** Adopting a root: the native insert and the parent handle change together. */
  lemma LinkKeepsAgrees(t: Table, n: Tree, parent: nat, child: nat, index: nat)
    requires Forest(t) && Agrees(t, n) && Resolves(t, parent) && Resolves(t, child)
    requires ParentOf(t, child) == 0
    requires t[Index(parent)].node in n && index <= |n[t[Index(parent)].node]|
    ensures Agrees(Reparented(t, Index(child), parent),
                   InsertChild(n, t[Index(parent)].node, t[Index(child)].node, index))
  {
    var p, c := Index(parent), Index(child);
    var t' := Reparented(t, c, parent);
    var n' := InsertChild(n, t[p].node, t[c].node, index);
    ResolvedHandle(t, parent);
    ChildListed(t, n, p, c);
    InsertDistinct(n[t[p].node], index, t[c].node);
    assert forall i, x: nat :: OwnedBy(t', i, x) <==> OwnedBy(t, i, x);
    forall i | Live(t', i)
      ensures ListAgrees(t', n', i)
    {
      assert ListAgrees(t, n, i);
      forall x: nat
        ensures x in n'[t'[i].node] <==> ChildNode(t', HandleOf(t', i), x)
      {
        LiveHandlesDistinct(t, i, p);
        if ChildNode(t, HandleOf(t, i), x) {
          var j :| OwnedBy(t, j, x) && t[j].parent == HandleOf(t, i);
          assert OwnedBy(t', j, x) && t'[j].parent == HandleOf(t', i);
        }
        if ChildNode(t', HandleOf(t', i), x) {
          var j :| OwnedBy(t', j, x) && t'[j].parent == HandleOf(t', i);
          if j != c {
            assert OwnedBy(t, j, x) && t[j].parent == HandleOf(t, i);
          }
        }
        assert OwnedBy(t', c, t[c].node) && t'[c].parent == parent;
      }
    }
    assert NodesOwned(t', n');
  }

  lemma UnlinkKeepsAgrees(t: Table, n: Tree, parent: nat, child: nat)
    requires Forest(t) && Agrees(t, n) && Resolves(t, parent) && Resolves(t, child)
    requires ParentOf(t, child) == parent
    ensures t[Index(parent)].node in n
    ensures Agrees(Reparented(t, Index(child), 0), RemoveChild(n, t[Index(parent)].node, t[Index(child)].node))
  {
    var p, c := Index(parent), Index(child);
    ResolvedHandle(t, parent);
    ChildListed(t, n, p, c);
    var t' := Reparented(t, c, 0);
    var n' := RemoveChild(n, t[p].node, t[c].node);
    assert ListAgrees(t, n, p);
    WithoutDistinct(n[t[p].node], t[c].node);
    assert forall i, x: nat :: OwnedBy(t', i, x) <==> OwnedBy(t, i, x);
    forall i | Live(t', i)
      ensures ListAgrees(t', n', i)
    {
      assert ListAgrees(t, n, i);
      LiveHandlesDistinct(t, i, p);
      forall x: nat
        ensures x in n'[t'[i].node] <==> ChildNode(t', HandleOf(t', i), x)
      {
        if ChildNode(t, HandleOf(t, i), x) {
          var j :| OwnedBy(t, j, x) && t[j].parent == HandleOf(t, i);
          if j != c {
            assert OwnedBy(t', j, x) && t'[j].parent == HandleOf(t', i);
          }
        }
        if ChildNode(t', HandleOf(t', i), x) {
          var j :| OwnedBy(t', j, x) && t'[j].parent == HandleOf(t', i);
          assert OwnedBy(t, j, x) && t[j].parent == HandleOf(t, i) && j != c;
        }
      }
    }
    assert NodesOwned(t', n');
  }

  /** Reordering one list keeps the agreement. */
  lemma ReorderKeepsAgrees(t: Table, n: Tree, i: nat, list: seq<nat>)
    requires WellFormed(t) && Agrees(t, n) && Live(t, i) && Distinct(list)
    requires t[i].node in n && forall x :: x in list <==> x in n[t[i].node]
    ensures Agrees(t, n[t[i].node := list])
  {
    var n' := n[t[i].node := list];
    forall j | Live(t, j)
      ensures ListAgrees(t, n', j)
    {
      assert ListAgrees(t, n, j);
    }
    assert NodesOwned(t, n');
  }

  lemma AllocateKeepsAgrees(t: Table, n: Tree, i: nat, slot: Slot)
    requires Forest(t) && Agrees(t, n) && 0 < i < |t| && !t[i].alive
    requires slot.alive && slot.parent == 0 && slot.node !in n && 0 < slot.generation <= GENERATIONS
    requires slot.node > 0 && !slot.measured
    ensures Agrees(t[i := slot], n[slot.node := []])
  {
    var t', n' := t[i := slot], n[slot.node := []];
    AllocateKeepsForest(t, i, slot);
    assert forall j, x: nat :: OwnedBy(t, j, x) ==> OwnedBy(t', j, x) && j != i;
    assert OwnedBy(t', i, slot.node);
    LiveHandle(t', i);
    forall j | Live(t', j)
      ensures ListAgrees(t', n', j)
    {
      LiveHandle(t', j);
      if j != i {
        assert ListAgrees(t, n, j);
      }
      forall x: nat
        ensures x in n'[t'[j].node] <==> ChildNode(t', HandleOf(t', j), x)
      {
        if j != i && ChildNode(t, HandleOf(t, j), x) {
          var m :| OwnedBy(t, m, x) && t[m].parent == HandleOf(t, j);
          assert OwnedBy(t', m, x) && t'[m].parent == HandleOf(t', j);
        }
        if ChildNode(t', HandleOf(t', j), x) {
          var m :| OwnedBy(t', m, x) && t'[m].parent == HandleOf(t', j);
          assert m != i;
          assert OwnedBy(t, m, x) && t[m].parent == HandleOf(t', j);
          assert Resolves(t, t[m].parent);
        }
      }
    }
    forall j, m | Live(t', j) && Live(t', m) && t'[j].node == t'[m].node
      ensures j == m
    {
      if j != i {
        assert ListAgrees(t, n, j);
      }
      if m != i {
        assert ListAgrees(t, n, m);
      }
    }
    assert NodesOwned(t', n');
  }

  /** Releasing slots together with their native nodes, when no survivor names a released parent. */
  lemma ReleaseKeepsAgrees(t: Table, n: Tree, gone: set<nat>, dead: set<nat>)
    requires Forest(t) && Agrees(t, n)
    requires forall i :: Live(t, i) ==> (t[i].node in dead <==> i in gone)
    requires forall i :: Live(t, i) && Resolves(t, t[i].parent) ==>
               (Index(t[i].parent) in gone ==> i in gone)
    requires forall i :: Live(t, i) && i in gone && Resolves(t, t[i].parent) ==> Index(t[i].parent) in gone
    ensures Agrees(ReleaseSet(t, gone), n - dead)
  {
    var t', n' := ReleaseSet(t, gone), n - dead;
    forall x | x in n'
      ensures exists i :: OwnedBy(t', i, x)
    {
      var i :| OwnedBy(t, i, x);
      assert OwnedBy(t', i, x);
    }
    forall i | Live(t', i)
      ensures ListAgrees(t', n', i)
    {
      ReleaseKeepsList(t, n, gone, dead, i);
    }
    assert NodesOwned(t', n');
  }

  lemma ReleaseKeepsList(t: Table, n: Tree, gone: set<nat>, dead: set<nat>, i: nat)
    requires Forest(t) && Agrees(t, n) && Live(t, i) && i !in gone && t[i].node !in dead
    requires forall j :: Live(t, j) && j in gone && Resolves(t, t[j].parent) ==> Index(t[j].parent) in gone
    ensures ListAgrees(ReleaseSet(t, gone), n - dead, i)
  {
    assert ListAgrees(t, n, i);
    forall x: nat
      ensures ChildNode(t, HandleOf(t, i), x) <==> ChildNode(ReleaseSet(t, gone), HandleOf(t, i), x)
    {
      ReleaseKeepsChild(t, gone, i, x);
    }
  }

  lemma ReleaseKeepsChild(t: Table, gone: set<nat>, i: nat, x: nat)
    requires WellFormed(t) && Live(t, i) && i !in gone
    requires forall j :: Live(t, j) && j in gone && Resolves(t, t[j].parent) ==> Index(t[j].parent) in gone
    ensures ChildNode(t, HandleOf(t, i), x) <==> ChildNode(ReleaseSet(t, gone), HandleOf(t, i), x)
  {
    var t', h := ReleaseSet(t, gone), HandleOf(t, i);
    LiveHandle(t, i);
    if ChildNode(t, h, x) {
      var j :| OwnedBy(t, j, x) && t[j].parent == h;
      assert j !in gone;
      assert OwnedBy(t', j, x) && t'[j].parent == h;
    }
    if ChildNode(t', h, x) {
      var j :| OwnedBy(t', j, x) && t'[j].parent == h;
      assert OwnedBy(t, j, x) && t[j].parent == h;
    }
  }

  /**
  The two structures have the same descendants: walking child links down on the native side is
  walking parent handles up in the table.
  */
  lemma {:induction false} ReachesIsUp(t: Table, n: Tree, i: nat, j: nat, k: nat)
    requires Forest(t) && Agrees(t, n) && Live(t, i) && Live(t, j)
    ensures Reaches(n, t[i].node, t[j].node, k) <==> Up(t, HandleOf(t, j), k) == HandleOf(t, i)
    decreases k, 1
  {
    LiveHandlesDistinct(t, i, j);
    LiveHandle(t, j);
    if k > 0 {
      if Reaches(n, t[i].node, t[j].node, k) {
        ReachesUp(t, n, i, j, k);
      } else if Up(t, HandleOf(t, j), k) == HandleOf(t, i) {
        UpReaches(t, n, i, j, k);
      }
    }
  }

  lemma ReachesUp(t: Table, n: Tree, i: nat, j: nat, k: nat)
    requires Forest(t) && Agrees(t, n) && Live(t, i) && Live(t, j)
    requires k > 0 && Reaches(n, t[i].node, t[j].node, k)
    ensures Up(t, HandleOf(t, j), k) == HandleOf(t, i)
    decreases k, 0
  {
    var z :| z in n && t[j].node in n[z] && Reaches(n, t[i].node, z, k - 1);
    var m :| OwnedBy(t, m, z);
    ChildListed(t, n, m, j);
    LiveHandle(t, j);
    ReachesIsUp(t, n, i, m, k - 1);
  }

  lemma UpReaches(t: Table, n: Tree, i: nat, j: nat, k: nat)
    requires Forest(t) && Agrees(t, n) && Live(t, i) && Live(t, j)
    requires k > 0 && Up(t, HandleOf(t, j), k) == HandleOf(t, i)
    ensures Reaches(n, t[i].node, t[j].node, k)
    decreases k, 0
  {
    hide Handle, Generation;
    var p := t[j].parent;
    LiveHandle(t, i);
    LiveHandle(t, j);
    assert Up(t, p, k - 1) == HandleOf(t, i);
    UpFromZero(t, k - 1);
    assert p != 0;
    assert Resolves(t, p);
    ResolvedHandle(t, p);
    ChildListed(t, n, Index(p), j);
    ReachesIsUp(t, n, i, Index(p), k - 1);
  }

  /** A recursive native free of a root destroys exactly the nodes of the slots in its subtree. */
  lemma DescendantsAreSubtree(t: Table, n: Tree, i: nat, j: nat)
    requires Forest(t) && Agrees(t, n) && Live(t, i) && Live(t, j)
    ensures t[j].node in Descendants(n, t[i].node) <==> j in Subtree(t, HandleOf(t, i))
  {
    assert ListAgrees(t, n, j);
    if t[j].node in Descendants(n, t[i].node) {
      var k: nat :| Reaches(n, t[i].node, t[j].node, k);
      ReachesIsUp(t, n, i, j, k);
    }
    if j in Subtree(t, HandleOf(t, i)) {
      var k: nat :| Up(t, HandleOf(t, j), k) == HandleOf(t, i);
      ReachesIsUp(t, n, i, j, k);
    }
  }

  /** The live slots that name `parent`. */
  ghost function ChildSlots(t: Table, parent: nat): set<int> {
    set j: int | 0 < j < |t| && t[j].alive && t[j].parent == parent
  }

  ghost function Owner(t: Table, x: nat): (i: int)
    requires exists j :: OwnedBy(t, j, x)
    ensures OwnedBy(t, i, x)
  {
    var j :| OwnedBy(t, j, x);
    j
  }

  /** The native child count is the number of live slots naming the node as their parent. */
  lemma ChildCountExact(t: Table, n: Tree, i: nat)
    requires Forest(t) && Agrees(t, n) && Live(t, i)
    ensures ListAgrees(t, n, i)
    ensures |n[t[i].node]| == |ChildSlots(t, HandleOf(t, i))|
  {
    assert ListAgrees(t, n, i);
    var list, h := n[t[i].node], HandleOf(t, i);
    forall k | 0 <= k < |list|
      ensures exists j :: OwnedBy(t, j, list[k])
      ensures OwnedBy(t, Owner(t, list[k]), list[k]) && t[Owner(t, list[k])].parent == h
    {
      assert list[k] in list;
      var j :| OwnedBy(t, j, list[k]) && t[j].parent == h;
    }
    var owners := seq(|list|, k requires 0 <= k < |list| => Owner(t, list[k]));
    assert Distinct(owners);
    forall j | j in ChildSlots(t, h)
      ensures j in owners
    {
      assert OwnedBy(t, j, t[j].node) && t[j].parent == h;
      assert ChildNode(t, h, t[j].node);
      assert t[j].node in list;
      var k :| 0 <= k < |list| && list[k] == t[j].node;
      assert owners[k] == j;
    }
    assert Elements(owners) == ChildSlots(t, h);
    DistinctSize(owners);
  }
}
