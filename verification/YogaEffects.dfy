/**
When each entry point of the node registry succeeds, and everything that a success changes. The conditions
are read off the table alone: a node's children are the live slots that name it as their parent.
*/
module YogaEffects {
  import opened Handles
  import opened Lists
  import opened Statuses
  import opened YogaForest
  import opened YogaNative
  import opened YogaSpec

  /** No live slot names h as its parent. */
  ghost predicate Childless(t: Table, h: nat) {
    forall j :: Live(t, j) ==> t[j].parent != h
  }

  /** Outside `changed` the two tables agree slot by slot. */
  ghost predicate SameElsewhere(t: Table, t': Table, changed: set<nat>) {
    |t'| == |t| && forall i: nat :: i < |t| && i !in changed ==> t'[i] == t[i]
  }

  /** The native nodes and their child lists agree outside `changed`. */
  ghost predicate SameLists(n: Tree, n': Tree, changed: set<nat>) {
    forall x: nat :: x !in changed ==> ((x in n' <==> x in n) && (x in n ==> n'[x] == n[x]))
  }

  /** A native list is as long as there are live slots naming its owner. */
  lemma ChildrenCounted(s: Yoga, h: nat)
    requires Valid(s) && Resolves(s.slots, h)
    ensures |Children(s, h)| == |ChildSlots(s.slots, h)|
    ensures Children(s, h) == [] <==> Childless(s.slots, h)
  {
    ResolvedHandle(s.slots, h);
    ChildCountExact(s.slots, s.native, Index(h));
    hide Valid, Handle, Index, Generation;
    if Children(s, h) == [] {
      forall j | Live(s.slots, j)
        ensures s.slots[j].parent != h
      {
        assert j !in ChildSlots(s.slots, h);
      }
    } else {
      assert Children(s, h)[0] in Children(s, h);
      assert ChildNode(s.slots, h, Children(s, h)[0]);
    }
  }

  // ---- Refusals ----

  /** A refused call leaves everything as it was; a refused creation may spend the generation of a free slot. */
  lemma RefusalChangesNothing(s: Yoga, op: Op)
    requires Step(s, op).status != Success
    ensures Step(s, op).status in if op.Create? then {NativeFailure} else {StaleHandle, InvalidArgument}
    ensures op.FreeAll? ==> (Step(s, op).status == StaleHandle <==> !Resolves(s.slots, op.h))
    ensures !op.Create? ==> Step(s, op).state == s
    ensures op.Create? ==>
              var s' := Step(s, op).state;
              && s'.native == s.native && |s'.slots| == |s.slots|
              && forall i :: 0 <= i < |s.slots| ==>
                   s'.slots[i].alive == s.slots[i].alive && (s.slots[i].alive ==> s'.slots[i] == s.slots[i])
  {
  }

  // ---- Create ----

  /** A new node takes a free slot and has no claim, no measure flag, no parent and no children. */
  lemma CreatedExactly(s: Yoga, node: nat)
    requires Valid(s) && CreateStep(s, node).status == Success
    ensures var s', h := CreateStep(s, node).state, CreateStep(s, node).handle;
            && 0 < Index(h) < |s.slots| && !s.slots[Index(h)].alive && |s'.slots| == |s.slots|
            && s'.slots[Index(h)] == Slot(Generation(h), true, false, false, node, 0)
            && SameElsewhere(s.slots, s'.slots, {Index(h)})
            && node in s'.native && s'.native[node] == [] && SameLists(s.native, s'.native, {node})
  {
    HandleRoundTrip(FirstFree(s.slots, 1), AllocatedGeneration(s.slots[FirstFree(s.slots, 1)].generation));
    hide Valid, Handle, Index, Generation;
  }

  // ---- Free ----

  /** Plain free goes ahead exactly on a live, unclaimed root without children. */
  lemma FreeExactly(s: Yoga, h: nat)
    requires Valid(s)
    ensures FreeStep(s, h).status == Success
            <==> && Resolves(s.slots, h) && !s.slots[Index(h)].claimed
                 && ParentOf(s.slots, h) == 0 && Childless(s.slots, h)
    ensures FreeStep(s, h).status == StaleHandle <==> !Resolves(s.slots, h)
  {
    if Resolves(s.slots, h) {
      ChildrenCounted(s, h);
    }
    hide Valid, Index, Generation, Childless, Children;
  }

  /** It then ends the handle, the slot and the native node, and touches nothing else. */
  lemma FreedExactly(s: Yoga, h: nat)
    requires Valid(s) && FreeStep(s, h).status == Success
    ensures var s', i := FreeStep(s, h).state, Index(h);
            && i < |s.slots| && |s'.slots| == |s.slots|
            && !Resolves(s'.slots, h) && !s'.slots[i].alive && s'.slots[i].generation == s.slots[i].generation
            && SameElsewhere(s.slots, s'.slots, {i})
            && s.slots[i].node in s.native && s.slots[i].node !in s'.native
            && SameLists(s.native, s'.native, {s.slots[i].node})
  {
    hide Valid, Handle, Index, Generation, Distinct;
    NativeKnown(s, h);
  }

  /** A recursive free ends the handles, slots and native nodes of the root and of its descendants, and no others. */
  lemma FreedAllExactly(s: Yoga, h: nat)
    requires Valid(s) && FreeAllStep(s, h).status == Success
    ensures var s' := FreeAllStep(s, h).state;
            && |s'.slots| == |s.slots|
            && (forall i: nat :: i < |s.slots| ==>
                  if Below(s.slots, h, i) then
                    && !s'.slots[i].alive && s'.slots[i].generation == s.slots[i].generation
                    && !Resolves(s'.slots, HandleOf(s.slots, i)) && s.slots[i].node !in s'.native
                  else
                    s'.slots[i] == s.slots[i])
            && (forall x: nat :: x in s'.native ==> x in s.native && s'.native[x] == s.native[x])
            && forall x: nat :: x in s.native && x !in s'.native ==>
                 exists i :: OwnedBy(s.slots, i, x) && Below(s.slots, h, i)
  {
    var s' := FreeAllStep(s, h).state;
    forall i: nat | i < |s.slots| && Below(s.slots, h, i)
      ensures !Resolves(s'.slots, HandleOf(s.slots, i)) && s.slots[i].node !in s'.native
    {
      assert i in Subtree(s.slots, h);
      LiveHandle(s.slots, i);
      RecursiveFreeExact(s, h, i);
    }
    forall x: nat | x in s.native && x !in s'.native
      ensures exists i :: OwnedBy(s.slots, i, x) && Below(s.slots, h, i)
    {
      var i :| OwnedBy(s.slots, i, x);
      RecursiveFreeExact(s, h, i);
      assert Below(s.slots, h, i);
    }
    hide Valid, Under, Index, Generation, Descendants, Handle;
  }

  // ---- Insert, remove, move ----

  /** An insert goes ahead exactly when it keeps a forest with leaves under measured nodes and its index is in range. */
  lemma InsertExactly(s: Yoga, parent: nat, child: nat, index: int)
    requires Valid(s)
    ensures InsertStep(s, parent, child, index).status == Success
            <==> && Resolves(s.slots, parent) && Resolves(s.slots, child)
                 && !s.slots[Index(parent)].measured && ParentOf(s.slots, child) == 0 && !Under(s.slots, child, parent)
                 && 0 <= index <= |ChildSlots(s.slots, parent)|
    ensures InsertStep(s, parent, child, index).status == StaleHandle
            <==> index >= 0 && !(Resolves(s.slots, parent) && Resolves(s.slots, child))
  {
    if Resolves(s.slots, parent) {
      ChildrenCounted(s, parent);
    }
    hide Valid, Index, Generation, Under, Children;
  }

  /** It then gives the child its parent and its place in the parent's list, and touches nothing else. */
  lemma InsertedExactly(s: Yoga, parent: nat, child: nat, index: int)
    requires Valid(s) && InsertStep(s, parent, child, index).status == Success
    ensures var s', p, c := InsertStep(s, parent, child, index).state, NodeOf(s, parent), NodeOf(s, child);
            && |s'.slots| == |s.slots|
            && s'.slots[Index(child)] == s.slots[Index(child)].(parent := parent)
            && SameElsewhere(s.slots, s'.slots, {Index(child)})
            && p in s.native && p in s'.native && SameLists(s.native, s'.native, {p})
            && index < |s'.native[p]| && s'.native[p][index] == c
            && s'.native[p][..index] + s'.native[p][index + 1..] == s.native[p]
  {
    NativeKnown(s, parent);
    hide Valid, Index, Generation, Under;
    var list := Children(s, parent);
    var list' := InsertAt(list, index, NodeOf(s, child));
    assert list'[..index] == list[..index] && list'[index + 1..] == list[index..];
  }

  /** A remove goes ahead exactly when the child's slot names the parent. */
  lemma RemoveExactly(s: Yoga, parent: nat, child: nat)
    ensures RemoveStep(s, parent, child).status == Success
            <==> Resolves(s.slots, parent) && Resolves(s.slots, child) && s.slots[Index(child)].parent == parent
    ensures RemoveStep(s, parent, child).status == StaleHandle
            <==> !(Resolves(s.slots, parent) && Resolves(s.slots, child))
  {
  }

  /** It then makes the child a root, takes it and only it out of the parent's list, and touches nothing else. */
  lemma RemovedExactly(s: Yoga, parent: nat, child: nat)
    requires Valid(s) && RemoveStep(s, parent, child).status == Success
    ensures var s', p, c := RemoveStep(s, parent, child).state, NodeOf(s, parent), NodeOf(s, child);
            && |s'.slots| == |s.slots|
            && s'.slots[Index(child)] == s.slots[Index(child)].(parent := 0)
            && SameElsewhere(s.slots, s'.slots, {Index(child)})
            && p in s.native && p in s'.native && SameLists(s.native, s'.native, {p})
            && exists k :: 0 <= k < |s.native[p]| && s.native[p][k] == c
                           && s'.native[p] == s.native[p][..k] + s.native[p][k + 1..]
  {
    NativeKnown(s, parent);
    ResolvedHandle(s.slots, parent);
    ResolvedHandle(s.slots, child);
    ChildListed(s.slots, s.native, Index(parent), Index(child));
    var list, c := Children(s, parent), NodeOf(s, child);
    var k :| 0 <= k < |list| && list[k] == c;
    hide Valid, Index, Generation;
    WithoutInsertedEquals(list, k, c);
  }

  /** A move goes ahead exactly when the child's slot names the parent and the index is that of a child. */
  lemma MoveExactly(s: Yoga, parent: nat, child: nat, index: int)
    requires Valid(s)
    ensures MoveStep(s, parent, child, index).status == Success
            <==> && Resolves(s.slots, parent) && Resolves(s.slots, child) && s.slots[Index(child)].parent == parent
                 && 0 <= index < |ChildSlots(s.slots, parent)|
    ensures MoveStep(s, parent, child, index).status == StaleHandle
            <==> index >= 0 && !(Resolves(s.slots, parent) && Resolves(s.slots, child))
  {
    if Resolves(s.slots, parent) {
      ChildrenCounted(s, parent);
    }
    hide Valid, Index, Generation, Children, Without, InsertAt;
  }

  // ---- Flags ----

  /** Only the two flags of the slot change. */
  ghost predicate FlagsMoved(s: Yoga, s': Yoga, h: nat, claimed: bool, measured: bool) {
    && Resolves(s.slots, h) && s'.native == s.native && SameElsewhere(s.slots, s'.slots, {Index(h)})
    && s'.slots[Index(h)] == s.slots[Index(h)].(claimed := claimed, measured := measured)
  }

  /** A claim goes ahead exactly on a live unclaimed node, its release on any live node, the flag on a claimed one. */
  lemma FlagsExactly(s: Yoga, h: nat, attached: bool)
    ensures ClaimStep(s, h).status == Success <==> Resolves(s.slots, h) && !s.slots[Index(h)].claimed
    ensures ClaimStep(s, h).status == Success ==>
              FlagsMoved(s, ClaimStep(s, h).state, h, true, s.slots[Index(h)].measured)
    ensures UnclaimStep(s, h).status == Success <==> Resolves(s.slots, h)
    ensures UnclaimStep(s, h).status == Success ==> FlagsMoved(s, UnclaimStep(s, h).state, h, false, false)
    ensures SetMeasuredStep(s, h, attached).status == Success
            <==> Resolves(s.slots, h) && (attached ==> s.slots[Index(h)].claimed)
    ensures SetMeasuredStep(s, h, attached).status == Success ==>
              FlagsMoved(s, SetMeasuredStep(s, h, attached).state, h, s.slots[Index(h)].claimed, attached)
    ensures StaleHandle in {ClaimStep(s, h).status, UnclaimStep(s, h).status, SetMeasuredStep(s, h, attached).status}
            <==> !Resolves(s.slots, h)
  {
  }
}
