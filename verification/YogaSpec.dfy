/**
What each entry point of the node registry does to the table and to the native child lists, and
what every run of them keeps.
*/
module YogaSpec {
  import opened Handles
  import opened Lists
  import opened Statuses
  import opened YogaForest
  import opened YogaNative

  datatype Yoga = Yoga(slots: Table, native: Tree)

  ghost predicate Valid(s: Yoga) {
    Forest(s.slots) && Agrees(s.slots, s.native)
  }

  datatype Op =
    | Create(node: nat)
    | Free(h: nat)
    | FreeAll(h: nat)
    | Insert(parent: nat, child: nat, index: int)
    | Remove(parent: nat, child: nat)
    | Move(parent: nat, child: nat, index: int)
    | Claim(h: nat)
    | Unclaim(h: nat)
    | SetMeasured(h: nat, attached: bool)

  /** What the native allocator owes: NULL, or a pointer to no existing node. */
  predicate Admissible(s: Yoga, op: Op) {
    op.Create? ==> op.node == 0 || op.node !in s.native
  }

  datatype Outcome = Outcome(state: Yoga, status: Status, handle: nat)

  // ---- The entry points ----

  /** The first free slot from `from` on, or the table's length. */
  function FirstFree(t: Table, from: nat): (i: nat)
    ensures from <= i && (from <= |t| ==> i <= |t|)
    ensures i < |t| ==> !t[i].alive
    ensures forall j :: from <= j < i && j < |t| ==> t[j].alive
    decreases |t| - from
  {
    if from >= |t| || !t[from].alive then from else FirstFree(t, from + 1)
  }

  function CreateStep(s: Yoga, node: nat): Outcome {
    var i := FirstFree(s.slots, 1);
    if i >= |s.slots| then Outcome(s, NativeFailure, 0)
    else
      var g := AllocatedGeneration(s.slots[i].generation);
      if node == 0 then Outcome(s.(slots := s.slots[i := Slot(g, false, false, false, 0, 0)]), NativeFailure, 0)
      else Outcome(Yoga(s.slots[i := Slot(g, true, false, false, node, 0)], s.native[node := []]), Success, Handle(i, g))
  }

  function NodeOf(s: Yoga, h: nat): nat
    requires Resolves(s.slots, h)
  {
    s.slots[Index(h)].node
  }

  /** The native child list of a live node. */
  function Children(s: Yoga, h: nat): seq<nat>
    requires Resolves(s.slots, h)
  {
    if NodeOf(s, h) in s.native then s.native[NodeOf(s, h)] else []
  }

  function FreeStep(s: Yoga, h: nat): Outcome {
    if !Resolves(s.slots, h) then Outcome(s, StaleHandle, 0)
    else if s.slots[Index(h)].claimed || s.slots[Index(h)].parent != 0 || |Children(s, h)| != 0
      then Outcome(s, InvalidArgument, 0)
    else Outcome(Yoga(ReleaseSet(s.slots, {Index(h)}), s.native - {NodeOf(s, h)}), Success, 0)
  }

  /** Some node of the subtree is claimed by a renderable. */
  ghost predicate SubtreeClaimed(t: Table, root: nat) {
    exists i :: i in Subtree(t, root) && t[i].claimed
  }

  ghost function FreeAllStep(s: Yoga, h: nat): Outcome {
    if !Resolves(s.slots, h) then Outcome(s, StaleHandle, 0)
    else if s.slots[Index(h)].parent != 0 || SubtreeClaimed(s.slots, h) then Outcome(s, InvalidArgument, 0)
    else Outcome(Yoga(ReleaseSet(s.slots, Subtree(s.slots, h)), FreeRecursive(s.native, NodeOf(s, h))), Success, 0)
  }

  ghost function InsertStep(s: Yoga, parent: nat, child: nat, index: int): Outcome {
    if index < 0 then Outcome(s, InvalidArgument, 0)
    else if !Resolves(s.slots, parent) || !Resolves(s.slots, child) then Outcome(s, StaleHandle, 0)
    else if s.slots[Index(parent)].measured || ParentOf(s.slots, child) != 0
            || Under(s.slots, child, parent) || index > |Children(s, parent)|
      then Outcome(s, InvalidArgument, 0)
    else
      Outcome(Yoga(Reparented(s.slots, Index(child), parent),
                   s.native[NodeOf(s, parent) := InsertAt(Children(s, parent), index, NodeOf(s, child))]),
              Success, 0)
  }

  ghost function RemoveStep(s: Yoga, parent: nat, child: nat): Outcome {
    if !Resolves(s.slots, parent) || !Resolves(s.slots, child) then Outcome(s, StaleHandle, 0)
    else if ParentOf(s.slots, child) != parent then Outcome(s, InvalidArgument, 0)
    else
      Outcome(Yoga(Reparented(s.slots, Index(child), 0),
                   s.native[NodeOf(s, parent) := Without(Children(s, parent), NodeOf(s, child))]),
              Success, 0)
  }

  function MoveStep(s: Yoga, parent: nat, child: nat, index: int): Outcome {
    if index < 0 then Outcome(s, InvalidArgument, 0)
    else if !Resolves(s.slots, parent) || !Resolves(s.slots, child) then Outcome(s, StaleHandle, 0)
    else if ParentOf(s.slots, child) != parent || index >= |Children(s, parent)| then Outcome(s, InvalidArgument, 0)
    else
      var rest := Without(Children(s, parent), NodeOf(s, child));
      var at := if index <= |rest| then index else |rest|;
      Outcome(s.(native := s.native[NodeOf(s, parent) := InsertAt(rest, at, NodeOf(s, child))]), Success, 0)
  }

  function SetFlags(s: Yoga, h: nat, claimed: bool, measured: bool): Yoga
    requires Resolves(s.slots, h)
  {
    s.(slots := s.slots[Index(h) := s.slots[Index(h)].(claimed := claimed, measured := measured)])
  }

  function ClaimStep(s: Yoga, h: nat): Outcome {
    if !Resolves(s.slots, h) then Outcome(s, StaleHandle, 0)
    else if s.slots[Index(h)].claimed then Outcome(s, InvalidArgument, 0)
    else Outcome(SetFlags(s, h, true, s.slots[Index(h)].measured), Success, 0)
  }

  function UnclaimStep(s: Yoga, h: nat): Outcome {
    if !Resolves(s.slots, h) then Outcome(s, StaleHandle, 0)
    else Outcome(SetFlags(s, h, false, false), Success, 0)
  }

  function SetMeasuredStep(s: Yoga, h: nat, attached: bool): Outcome {
    if !Resolves(s.slots, h) then Outcome(s, StaleHandle, 0)
    else if attached && !s.slots[Index(h)].claimed then Outcome(s, InvalidArgument, 0)
    else Outcome(SetFlags(s, h, s.slots[Index(h)].claimed, attached), Success, 0)
  }

  ghost function Step(s: Yoga, op: Op): Outcome {
    match op
    case Create(node) => CreateStep(s, node)
    case Free(h) => FreeStep(s, h)
    case FreeAll(h) => FreeAllStep(s, h)
    case Insert(parent, child, index) => InsertStep(s, parent, child, index)
    case Remove(parent, child) => RemoveStep(s, parent, child)
    case Move(parent, child, index) => MoveStep(s, parent, child, index)
    case Claim(h) => ClaimStep(s, h)
    case Unclaim(h) => UnclaimStep(s, h)
    case SetMeasured(h, attached) => SetMeasuredStep(s, h, attached)
  }

  // ---- Each step keeps the invariant ----

  lemma NativeKnown(s: Yoga, h: nat)
    requires Valid(s) && Resolves(s.slots, h)
    ensures NodeOf(s, h) in s.native && Distinct(Children(s, h))
  {
    assert ListAgrees(s.slots, s.native, Index(h));
  }

  lemma CreateKeepsValid(s: Yoga, node: nat)
    requires Valid(s) && Admissible(s, Create(node))
    ensures Valid(CreateStep(s, node).state)
  {
    var t, i := s.slots, FirstFree(s.slots, 1);
    if i < |t| {
      var g := AllocatedGeneration(t[i].generation);
      assert SlotOk(t, i);
      if node == 0 {
        AdvanceKeepsValid(s, i, g);
      } else {
        var slot := Slot(g, true, false, false, node, 0);
        AllocateKeepsForest(t, i, slot);
        AllocateKeepsAgrees(t, s.native, i, slot);
      }
    }
  }

  /** Whatever leaves the live slots' handles, nodes and parents alone keeps the invariant. */
  lemma LinksKeepValid(s: Yoga, t': Table)
    requires Valid(s) && WellFormed(t') && |t'| == |s.slots|
    requires forall j :: Live(t', j) <==> Live(s.slots, j)
    requires forall j :: Live(t', j) ==>
               && t'[j].generation == s.slots[j].generation
               && t'[j].node == s.slots[j].node && t'[j].parent == s.slots[j].parent
    ensures Valid(s.(slots := t'))
  {
    hide Handle, Index, Generation;
    var t := s.slots;
    var rank :| Ranked(t, rank);
    assert forall h: nat :: Resolves(t', h) <==> Resolves(t, h);
    assert Ranked(t', rank);
    assert forall j, x: nat :: OwnedBy(t', j, x) <==> OwnedBy(t, j, x);
    forall j | Live(t', j)
      ensures ListAgrees(t', s.native, j)
    {
      assert ListAgrees(t, s.native, j);
      assert forall x: nat :: ChildNode(t', HandleOf(t', j), x) <==> ChildNode(t, HandleOf(t, j), x);
    }
  }

  /** A failed native allocation only spends a generation of a free slot. */
  lemma AdvanceKeepsValid(s: Yoga, i: nat, g: nat)
    requires Valid(s) && 0 < i < |s.slots| && !s.slots[i].alive && g <= GENERATIONS
    ensures Valid(s.(slots := s.slots[i := Slot(g, false, false, false, 0, 0)]))
  {
    hide Agrees, Acyclic, ParentsLive;
    var t' := s.slots[i := Slot(g, false, false, false, 0, 0)];
    assert forall j :: 0 <= j < |t'| && j != i ==> SlotOk(s.slots, j) ==> SlotOk(t', j);
    LinksKeepValid(s, t');
  }

  /** Plain free succeeds only on a node no live slot names as its parent. */
  lemma FreedIsUnreferenced(s: Yoga, h: nat)
    requires Valid(s) && FreeStep(s, h).status == Success
    ensures forall j :: Live(s.slots, j) ==> s.slots[j].parent != h
  {
    ResolvedHandle(s.slots, h);
    NativeKnown(s, h);
    forall j | Live(s.slots, j)
      ensures s.slots[j].parent != h
    {
      ChildListed(s.slots, s.native, Index(h), j);
    }
  }

  lemma FreeKeepsValid(s: Yoga, h: nat)
    requires Valid(s)
    ensures Valid(FreeStep(s, h).state)
  {
    if FreeStep(s, h).status == Success {
      var t, gone := s.slots, {Index(h)};
      ResolvedHandle(t, h);
      FreedIsUnreferenced(s, h);
      forall i | Live(t, i) && Resolves(t, t[i].parent)
        ensures Index(t[i].parent) !in gone
      {
        ResolvedHandle(t, t[i].parent);
      }
      ReleaseKeepsForest(t, gone);
      ReleaseKeepsAgrees(t, s.native, gone, {NodeOf(s, h)});
    }
  }

  lemma FreeAllKeepsValid(s: Yoga, h: nat)
    requires Valid(s)
    ensures Valid(FreeAllStep(s, h).state)
  {
    if FreeAllStep(s, h).status == Success {
      var t, gone := s.slots, Subtree(s.slots, h);
      var dead := Descendants(s.native, NodeOf(s, h));
      ResolvedHandle(t, h);
      SubtreeReleaseKeepsForest(t, h);
      forall i | Live(t, i)
        ensures t[i].node in dead <==> i in gone
      {
        DescendantsAreSubtree(t, s.native, Index(h), i);
      }
      forall i | Live(t, i) && Resolves(t, t[i].parent)
        ensures Index(t[i].parent) in gone <==> i in gone
      {
        SubtreeUpward(t, h, i);
      }
      ReleaseKeepsAgrees(t, s.native, gone, dead);
    }
  }

  /** Below a root, a slot and its parent are in the subtree together. */
  lemma SubtreeUpward(t: Table, root: nat, i: nat)
    requires Forest(t) && Resolves(t, root) && ParentOf(t, root) == 0
    requires Live(t, i) && Resolves(t, t[i].parent)
    ensures Index(t[i].parent) in Subtree(t, root) <==> i in Subtree(t, root)
  {
    LiveHandle(t, i);
    ResolvedHandle(t, t[i].parent);
    UnderStep(t, root, HandleOf(t, i));
  }

  lemma InsertKeepsValid(s: Yoga, parent: nat, child: nat, index: int)
    requires Valid(s)
    ensures Valid(InsertStep(s, parent, child, index).state)
  {
    if InsertStep(s, parent, child, index).status == Success {
      NativeKnown(s, parent);
      LinkKeepsForest(s.slots, parent, child);
      LinkKeepsAgrees(s.slots, s.native, parent, child, index);
    }
  }

  lemma RemoveKeepsValid(s: Yoga, parent: nat, child: nat)
    requires Valid(s)
    ensures Valid(RemoveStep(s, parent, child).state)
  {
    if RemoveStep(s, parent, child).status == Success {
      NativeKnown(s, parent);
      UnlinkKeepsForest(s.slots, child);
      UnlinkKeepsAgrees(s.slots, s.native, parent, child);
    }
  }

  /** A successful insert puts the child at the requested index and keeps the others in order; a remove takes it back. */
  lemma RemoveUndoesInsert(s: Yoga, parent: nat, child: nat, index: int)
    requires Valid(s) && InsertStep(s, parent, child, index).status == Success
    ensures var s' := InsertStep(s, parent, child, index).state;
            && Resolves(s'.slots, parent) && Resolves(s'.slots, child) && ParentOf(s'.slots, child) == parent
            && index < |Children(s', parent)| && Children(s', parent)[index] == NodeOf(s, child)
            && Without(Children(s', parent), NodeOf(s, child)) == Children(s, parent)
            && RemoveStep(s', parent, child) == Outcome(s, Success, 0)
  {
    var t, s' := s.slots, InsertStep(s, parent, child, index).state;
    NativeKnown(s, parent);
    NativeKnown(s, child);
    ResolvedHandle(t, parent);
    ResolvedHandle(t, child);
    ChildListed(t, s.native, Index(parent), Index(child));
    WithoutInsert(Children(s, parent), index, NodeOf(s, child));
    hide Valid, Under, InsertAt, Without;
    assert Reparented(s'.slots, Index(child), 0) == t;
    assert s'.native[NodeOf(s, parent) := Children(s, parent)] == s.native;
    assert s'.native[NodeOf(s, parent)] == InsertAt(Children(s, parent), index, NodeOf(s, child));
    InsertedAt(Children(s, parent), index, NodeOf(s, child));
  }

  lemma InsertedAt(list: seq<nat>, index: nat, node: nat)
    requires index <= |list|
    ensures index < |InsertAt(list, index, node)| && InsertAt(list, index, node)[index] == node
  {
  }

  /** A child removed and put back where it was leaves everything as before. */
  lemma InsertUndoesRemove(s: Yoga, parent: nat, child: nat, index: nat)
    requires Valid(s) && RemoveStep(s, parent, child).status == Success && !s.slots[Index(parent)].measured
    requires index < |Children(s, parent)| && Children(s, parent)[index] == NodeOf(s, child)
    ensures InsertStep(RemoveStep(s, parent, child).state, parent, child, index) == Outcome(s, Success, 0)
  {
    hide Valid, Under, InsertAt, Without, Distinct, Moved, Handle, Generation;
    var t, s' := s.slots, RemoveStep(s, parent, child).state;
    NativeKnown(s, parent);
    ResolvedHandle(t, parent);
    ResolvedHandle(t, child);
    PutBack(Children(s, parent), index);
    ParentNotBelow(s, parent, child);
    assert Reparented(s'.slots, Index(child), parent) == t;
    assert Children(s', parent) == Without(Children(s, parent), NodeOf(s, child));
    assert s'.native[NodeOf(s, parent) := Children(s, parent)] == s.native;
  }

  /** Once taken out, the child is not an ancestor of its old parent. */
  lemma ParentNotBelow(s: Yoga, parent: nat, child: nat)
    requires Valid(s) && RemoveStep(s, parent, child).status == Success
    ensures !Under(RemoveStep(s, parent, child).state.slots, child, parent)
  {
    var t := s.slots;
    if k: nat :| Up(Reparented(t, Index(child), 0), parent, k) == child {
      var m := ChainKept(t, child, parent, k);
      NoCycle(t, child);
      assert Up(t, child, m + 1) == Up(t, parent, m);
    }
  }

  /** A chain that reaches the child after it was taken out reached it before. */
  lemma {:induction false} ChainKept(t: Table, child: nat, h: nat, k: nat) returns (m: nat)
    requires Resolves(t, child) && Up(Reparented(t, Index(child), 0), h, k) == child
    ensures Up(t, h, m) == child
    decreases k
  {
    ResolvedHandle(t, child);
    if h == child {
      m := 0;
    } else {
      HandleRebuilds(h);
      HandleRebuilds(child);
      assert ParentOf(Reparented(t, Index(child), 0), h) == ParentOf(t, h);
      m := ChainKept(t, child, ParentOf(t, h), k - 1);
      m := m + 1;
    }
  }

  /** A successful move puts the child at the requested index of a permuted list and nothing else changes. */
  lemma MoveIsTheMove(s: Yoga, parent: nat, child: nat, index: int)
    requires Valid(s) && MoveStep(s, parent, child, index).status == Success
    ensures NodeOf(s, child) in Children(s, parent) && index <= |Without(Children(s, parent), NodeOf(s, child))|
    ensures var s' := MoveStep(s, parent, child, index).state;
            && s' == s.(native := s'.native)
            && s'.native == s.native[NodeOf(s, parent) := Children(s', parent)]
            && Children(s', parent) == Moved(Children(s, parent), NodeOf(s, child), index)
            && Children(s', parent)[index] == NodeOf(s, child)
            && multiset(Children(s', parent)) == multiset(Children(s, parent))
            && Without(Children(s', parent), NodeOf(s, child)) == Without(Children(s, parent), NodeOf(s, child))
  {
    var t := s.slots;
    NativeKnown(s, parent);
    ResolvedHandle(t, parent);
    ChildListed(t, s.native, Index(parent), Index(child));
    var list, c := Children(s, parent), NodeOf(s, child);
    WithoutDistinct(list, c);
    MovedIsTheMove(list, c, index, Moved(list, c, index));
  }

  lemma MoveKeepsValid(s: Yoga, parent: nat, child: nat, index: int)
    requires Valid(s)
    ensures Valid(MoveStep(s, parent, child, index).state)
  {
    if MoveStep(s, parent, child, index).status == Success {
      NativeKnown(s, parent);
      MoveIsTheMove(s, parent, child, index);
      var list, c := Children(s, parent), NodeOf(s, child);
      WithoutDistinct(list, c);
      InsertDistinct(Without(list, c), index, c);
      ReorderKeepsAgrees(s.slots, s.native, Index(parent), Moved(list, c, index));
    }
  }

  lemma FlagsKeepValid(s: Yoga, h: nat, claimed: bool, measured: bool)
    requires Valid(s) && Resolves(s.slots, h) && (measured ==> claimed)
    ensures Valid(SetFlags(s, h, claimed, measured))
  {
    hide Agrees, Acyclic, ParentsLive;
    var t' := SetFlags(s, h, claimed, measured).slots;
    assert forall j :: 0 <= j < |t'| ==> SlotOk(s.slots, j) ==> SlotOk(t', j);
    LinksKeepValid(s, t');
  }

  lemma StepKeepsValid(s: Yoga, op: Op)
    requires Valid(s) && Admissible(s, op)
    ensures Valid(Step(s, op).state)
    ensures |Step(s, op).state.slots| == |s.slots|
  {
    hide Valid, Handle, Generation, Under, InsertAt, Without, Descendants;
    match op
    case Create(node) => CreateKeepsValid(s, node);
    case Free(h) => FreeKeepsValid(s, h);
    case FreeAll(h) => FreeAllKeepsValid(s, h);
    case Insert(parent, child, index) => InsertKeepsValid(s, parent, child, index);
    case Remove(parent, child) => RemoveKeepsValid(s, parent, child);
    case Move(parent, child, index) => MoveKeepsValid(s, parent, child, index);
    case Claim(h) =>
      if ClaimStep(s, h).status == Success {
        FlagsKeepValid(s, h, true, s.slots[Index(h)].measured);
      }
    case Unclaim(h) =>
      if UnclaimStep(s, h).status == Success {
        FlagsKeepValid(s, h, false, false);
      }
    case SetMeasured(h, attached) =>
      if SetMeasuredStep(s, h, attached).status == Success {
        FlagsKeepValid(s, h, s.slots[Index(h)].claimed, attached);
      }
  }

  // ---- Runs ----

  /** A table of zeroed slots and no native node. */
  function Initial(capacity: nat): Yoga {
    Yoga(seq(capacity, _ => Slot(0, false, false, false, 0, 0)), map[])
  }

  ghost predicate Feasible(s: Yoga, ops: seq<Op>)
    decreases |ops|
  {
    ops == [] || (Admissible(s, ops[0]) && Feasible(Step(s, ops[0]).state, ops[1..]))
  }

  ghost function Run(s: Yoga, ops: seq<Op>): Yoga
    requires Feasible(s, ops)
    decreases |ops|
  {
    if ops == [] then s else Run(Step(s, ops[0]).state, ops[1..])
  }

  lemma InitialValid(capacity: nat)
    requires 1 < capacity <= SLOT_LIMIT
    ensures Valid(Initial(capacity))
  {
    var s := Initial(capacity);
    assert Ranked(s.slots, seq(capacity, _ => 0));
  }

  /** Every reachable state is a forest that agrees with the native child lists. */
  lemma {:induction false} RunKeepsValid(s: Yoga, ops: seq<Op>)
    requires Valid(s) && Feasible(s, ops)
    ensures Valid(Run(s, ops)) && |Run(s, ops).slots| == |s.slots|
    decreases |ops|
  {
    if ops != [] {
      StepKeepsValid(s, ops[0]);
      RunKeepsValid(Step(s, ops[0]).state, ops[1..]);
    }
  }

  // ---- Generations over a run ----

  predicate Allocates(s: Yoga, op: Op, i: nat) {
    op.Create? && i < |s.slots| && FirstFree(s.slots, 1) == i
  }

  /** How often slot i is allocated in a run. */
  ghost function Allocations(s: Yoga, ops: seq<Op>, i: nat): nat
    requires Feasible(s, ops)
    decreases |ops|
  {
    if ops == [] then 0
    else (if Allocates(s, ops[0], i) then 1 else 0) + Allocations(Step(s, ops[0]).state, ops[1..], i)
  }

  lemma StepGeneration(s: Yoga, op: Op, i: nat)
    requires i < |s.slots|
    ensures i < |Step(s, op).state.slots|
    ensures Step(s, op).state.slots[i].generation
         == if Allocates(s, op, i) then AllocatedGeneration(s.slots[i].generation) else s.slots[i].generation
  {
  }

  /** A slot's generation counts its allocations: from a fresh table it is ((n - 1) mod 65535) + 1. */
  lemma {:induction false} RunGeneration(s: Yoga, ops: seq<Op>, i: nat)
    requires Valid(s) && Feasible(s, ops) && i < |s.slots|
    ensures i < |Run(s, ops).slots|
    ensures Run(s, ops).slots[i].generation == GenerationAfter(s.slots[i].generation, Allocations(s, ops, i))
    decreases |ops|
  {
    if ops != [] {
      var s' := Step(s, ops[0]).state;
      StepKeepsValid(s, ops[0]);
      StepGeneration(s, ops[0], i);
      RunGeneration(s', ops[1..], i);
      if Allocates(s, ops[0], i) {
        GenerationAfterAdds(s.slots[i].generation, 1, Allocations(s', ops[1..], i));
        assert GenerationAfter(s.slots[i].generation, 0) == s.slots[i].generation;
        assert GenerationAfter(s.slots[i].generation, 1) == AllocatedGeneration(s.slots[i].generation);
      }
    }
  }

  lemma FreshTableGeneration(capacity: nat, ops: seq<Op>, i: nat)
    requires 1 < capacity <= SLOT_LIMIT && Feasible(Initial(capacity), ops) && i < capacity
    ensures var n := Allocations(Initial(capacity), ops, i);
            && i < |Run(Initial(capacity), ops).slots|
            && Run(Initial(capacity), ops).slots[i].generation == if n == 0 then 0 else (n - 1) % GENERATIONS + 1
  {
    InitialValid(capacity);
    RunGeneration(Initial(capacity), ops, i);
    GenerationClosedForm(Allocations(Initial(capacity), ops, i));
  }

  /**
  A handle that was live once resolves later exactly when its slot is live again after a multiple of
  65535 further allocations: with 1 to 65534 of them in between it is rejected.
  */
  lemma HandleResolvesAgain(s: Yoga, ops: seq<Op>, h: nat)
    requires Valid(s) && Feasible(s, ops) && Resolves(s.slots, h)
    ensures Resolves(Run(s, ops).slots, h)
            <==> Live(Run(s, ops).slots, Index(h)) && Allocations(s, ops, Index(h)) % GENERATIONS == 0
  {
    var i := Index(h);
    assert SlotOk(s.slots, i);
    RunGeneration(s, ops, i);
    GenerationRecurs(s.slots[i].generation, Allocations(s, ops, i));
  }

  /** Creation answers no handle exactly when every usable slot is live or the native allocator failed. */
  lemma CreateFailsExactlyWhenFull(s: Yoga, node: nat)
    requires Valid(s)
    ensures CreateStep(s, node).status == NativeFailure
            <==> node == 0 || (forall i :: 0 < i < |s.slots| ==> Live(s.slots, i))
    ensures CreateStep(s, node).status in {Success, NativeFailure}
    ensures CreateStep(s, node).status == Success ==>
              var h := CreateStep(s, node).handle;
              && h != 0 && Resolves(CreateStep(s, node).state.slots, h) && !Resolves(s.slots, h)
              && forall k: nat :: Resolves(s.slots, k) ==> Resolves(CreateStep(s, node).state.slots, k)
  {
    var i := FirstFree(s.slots, 1);
    hide Valid, Handle, Index, Generation;
    if i < |s.slots| {
      assert !Live(s.slots, i);
      HandleRoundTrip(i, AllocatedGeneration(s.slots[i].generation));
    }
  }

  // ---- What is never released ----

  /** Whatever is done short of giving the claim back, a claimed node stays live, claimed and itself. */
  lemma ClaimedSurvives(s: Yoga, op: Op, h: nat)
    requires Valid(s) && Admissible(s, op) && Resolves(s.slots, h) && s.slots[Index(h)].claimed
    requires op != Unclaim(h)
    ensures var t' := Step(s, op).state.slots;
            Resolves(t', h) && t'[Index(h)].claimed && t'[Index(h)].node == s.slots[Index(h)].node
  {
    hide Valid, Handle, Index, Generation, Under, InsertAt, Without, Descendants;
    ResolvedHandle(s.slots, h);
    match op
    case Create(_) =>
    case Free(k) =>
      if Resolves(s.slots, k) {
        ResolvedHandle(s.slots, k);
      }
    case FreeAll(k) =>
      if FreeAllStep(s, k).status == Success {
        assert Index(h) !in Subtree(s.slots, k);
      }
    case Unclaim(k) =>
      if Resolves(s.slots, k) {
        ResolvedHandle(s.slots, k);
      }
    case _ =>
  }

  /** Recursive free goes ahead exactly on a live root none of whose subtree is claimed. */
  lemma RecursiveFreeAllowed(s: Yoga, h: nat)
    requires Valid(s)
    ensures FreeAllStep(s, h).status == Success
            <==> Resolves(s.slots, h) && ParentOf(s.slots, h) == 0
                 && (forall i :: Below(s.slots, h, i) ==> !s.slots[i].claimed)
  {
    if Resolves(s.slots, h) && ParentOf(s.slots, h) == 0 && SubtreeClaimed(s.slots, h) {
      var i :| i in Subtree(s.slots, h) && s.slots[i].claimed;
      assert Below(s.slots, h, i);
    }
    if FreeAllStep(s, h).status == Success {
      forall i | Below(s.slots, h, i)
        ensures !s.slots[i].claimed
      {
        assert i in Subtree(s.slots, h);
      }
    }
  }

  /**
  It then releases the root and every descendant, in the table and natively alike, and leaves every
  other slot, native node and child list as it was.
  */
  lemma RecursiveFreeExact(s: Yoga, h: nat, i: nat)
    requires Valid(s) && FreeAllStep(s, h).status == Success && Live(s.slots, i)
    ensures var s' := FreeAllStep(s, h).state;
            if Below(s.slots, h, i) then
              s'.slots[i] == Released(s.slots[i]) && s.slots[i].node !in s'.native
            else
              && s'.slots[i] == s.slots[i]
              && s.slots[i].node in s.native && s.slots[i].node in s'.native
              && s'.native[s.slots[i].node] == s.native[s.slots[i].node]
  {
    ResolvedHandle(s.slots, h);
    DescendantsAreSubtree(s.slots, s.native, Index(h), i);
    assert ListAgrees(s.slots, s.native, i);
    assert i in Subtree(s.slots, h) <==> Below(s.slots, h, i);
  }
}
