/**
The node registry itself: a fixed array of slots, scanned and updated in place, over the native
child lists. Every public method is proved equal to its step in YogaSpec.
*/
module YogaRegistry {
  import opened Handles
  import opened Lists
  import opened Statuses
  import opened YogaForest
  import opened YogaNative
  import opened YogaSpec

  /** A handle on the worklist of a subtree walk: live, in the subtree, found through its parent. */
  ghost predicate Queued(t: Table, root: nat, done: set<nat>, h: nat) {
    && Resolves(t, h)
    && Index(h) !in done
    && Index(h) in Subtree(t, root)
    && (h == root || Index(t[Index(h)].parent) in done)
  }

  /** A subtree slot that is finished, on the worklist, or waiting below an unfinished parent. */
  ghost predicate Covered(t: Table, done: set<nat>, todo: seq<nat>, i: int)
    requires Live(t, i)
  {
    i in done || HandleOf(t, i) in todo || (Resolves(t, t[i].parent) && Index(t[i].parent) !in done)
  }

  /** Finished slots lie in the subtree, each below a finished parent. */
  ghost predicate Finished(t: Table, root: nat, done: set<nat>) {
    forall i :: i in done ==>
      i in Subtree(t, root) && (HandleOf(t, i) == root || Index(t[i].parent) in done)
  }

  ghost predicate Walk(t: Table, root: nat, done: set<nat>, todo: seq<nat>) {
    && Distinct(todo)
    && Finished(t, root, done)
    && (forall h :: h in todo ==> Queued(t, root, done, h))
    && (forall i :: i in Subtree(t, root) ==> Covered(t, done, todo, i))
  }

  /** A child of `current` pushed by the inner loop before it reached `next`. */
  ghost predicate Pushed(t: Table, root: nat, done: set<nat>, current: nat, next: int, h: nat) {
    && Resolves(t, h)
    && Index(h) !in done
    && Index(h) in Subtree(t, root)
    && h != root
    && t[Index(h)].parent == current
    && Index(h) < next
  }

  ghost predicate CoveredSoFar(t: Table, done: set<nat>, todo: seq<nat>, current: nat, next: int, i: int)
    requires Live(t, i)
  {
    && Covered(t, done, todo, i)
    && (t[i].parent == current && i < next ==> i in done || HandleOf(t, i) in todo)
  }

  /** The walk while the children of `current` with index below `next` have been pushed. */
  ghost predicate Scan(t: Table, root: nat, done: set<nat>, todo: seq<nat>, current: nat, next: int) {
    && Queued(t, root, done, current)
    && Distinct(todo)
    && current !in todo
    && Finished(t, root, done)
    && (forall h :: h in todo ==> Queued(t, root, done, h) || Pushed(t, root, done, current, next, h))
    && (forall i :: i in Subtree(t, root) && i != Index(current) ==> CoveredSoFar(t, done, todo, current, next, i))
  }

  lemma WalkStart(t: Table, root: nat)
    requires Forest(t) && Resolves(t, root)
    ensures Walk(t, root, {}, [root])
  {
    ResolvedHandle(t, root);
    UnderSelf(t, root);
    forall i | i in Subtree(t, root)
      ensures Covered(t, {}, [root], i)
    {
      LiveHandle(t, i);
      UnderStep(t, root, HandleOf(t, i));
      if HandleOf(t, i) != root {
        if t[i].parent == 0 {
          NothingUnderZero(t, root);
        }
        assert Resolves(t, t[i].parent);
      }
    }
  }

  lemma WalkPop(t: Table, root: nat, done: set<nat>, todo: seq<nat>)
    requires Forest(t) && ParentOf(t, root) == 0
    requires Walk(t, root, done, todo) && todo != []
    ensures Scan(t, root, done, todo[..|todo| - 1], todo[|todo| - 1], 1)
    ensures Queued(t, root, done, todo[|todo| - 1])
  {
    hide Under, Up, SlotOk;
    var rest, current := todo[..|todo| - 1], todo[|todo| - 1];
    assert todo == rest + [current];
    assert forall h :: h in todo <==> h in rest || h == current;
    forall i | i in Subtree(t, root) && i != Index(current)
      ensures CoveredSoFar(t, done, rest, current, 1, i)
    {
      LiveHandle(t, i);
      assert Covered(t, done, todo, i);
    }
  }

  /** One more slot of the inner loop: pushed exactly when it is a child of the popped handle. */
  lemma ScanNext(t: Table, root: nat, done: set<nat>, todo: seq<nat>, current: nat, next: nat)
    requires Forest(t) && ParentOf(t, root) == 0 && 0 < next < |t|
    requires Scan(t, root, done, todo, current, next)
    ensures !(Live(t, next) && t[next].parent == current) ==> Scan(t, root, done, todo, current, next + 1)
    ensures Live(t, next) && t[next].parent == current ==>
              Scan(t, root, done, todo + [HandleOf(t, next)], current, next + 1)
  {
    ResolvedHandle(t, current);
    if Live(t, next) && t[next].parent == current {
      ScanPush(t, root, done, todo, current, next);
    } else {
      forall i | i in Subtree(t, root) && i != Index(current)
        ensures CoveredSoFar(t, done, todo, current, next + 1, i)
      {
        assert CoveredSoFar(t, done, todo, current, next, i);
      }
    }
  }

  lemma ScanPush(t: Table, root: nat, done: set<nat>, todo: seq<nat>, current: nat, next: nat)
    requires Forest(t) && ParentOf(t, root) == 0 && Live(t, next) && t[next].parent == current
    requires Scan(t, root, done, todo, current, next)
    ensures Scan(t, root, done, todo + [HandleOf(t, next)], current, next + 1)
  {
    hide Forest, Subtree, ParentOf, Distinct, Finished, Queued, Pushed, CoveredSoFar;
    var child := HandleOf(t, next);
    var todo' := todo + [child];
    ChildIsNew(t, root, done, todo, current, next);
    AllLive(t, root);
    Appended(todo, child);
    forall h | h in todo'
      ensures Queued(t, root, done, h) || Pushed(t, root, done, current, next + 1, h)
    {
      PushedLater(t, root, done, current, next, h);
    }
    forall i | i in Subtree(t, root) && i != Index(current)
      ensures CoveredSoFar(t, done, todo', current, next + 1, i)
    {
      CoveredLater(t, done, todo, current, next, i);
    }
  }

  lemma PushedLater(t: Table, root: nat, done: set<nat>, current: nat, next: nat, h: nat)
    ensures Pushed(t, root, done, current, next, h) ==> Pushed(t, root, done, current, next + 1, h)
  {
  }

  lemma CoveredLater(t: Table, done: set<nat>, todo: seq<nat>, current: nat, next: nat, i: int)
    requires Live(t, i) && Live(t, next) && CoveredSoFar(t, done, todo, current, next, i)
    ensures CoveredSoFar(t, done, todo + [HandleOf(t, next)], current, next + 1, i)
  {
  }

  lemma Appended<T>(s: seq<T>, x: T)
    ensures forall y :: y in s + [x] <==> y in s || y == x
    ensures Distinct(s) && x !in s ==> Distinct(s + [x])
  {
  }

  lemma AllLive(t: Table, root: nat)
    ensures forall i :: i in Subtree(t, root) ==> Live(t, i)
  {
  }

  lemma ChildIsNew(t: Table, root: nat, done: set<nat>, todo: seq<nat>, current: nat, next: nat)
    requires Forest(t) && ParentOf(t, root) == 0 && Live(t, next) && t[next].parent == current
    requires Scan(t, root, done, todo, current, next)
    ensures HandleOf(t, next) !in todo && HandleOf(t, next) != current
    ensures Pushed(t, root, done, current, next + 1, HandleOf(t, next))
  {
    var child := HandleOf(t, next);
    ResolvedHandle(t, current);
    LiveHandle(t, next);
    UnderStep(t, root, child);
    assert next in Subtree(t, root);
    assert next !in done;
    NoCycle(t, current);
    assert Up(t, current, 1) == ParentOf(t, current);
    assert !Queued(t, root, done, child) && !Pushed(t, root, done, current, next, child);
  }

  lemma ScanEnd(t: Table, root: nat, done: set<nat>, todo: seq<nat>, current: nat)
    requires Forest(t) && Scan(t, root, done, todo, current, |t|)
    ensures Index(current) !in done
    ensures Walk(t, root, done + {Index(current)}, todo)
  {
    var done' := done + {Index(current)};
    ResolvedHandle(t, current);
    forall i | i in Subtree(t, root)
      ensures Covered(t, done', todo, i)
    {
      if i != Index(current) {
        assert CoveredSoFar(t, done, todo, current, |t|, i);
        if Resolves(t, t[i].parent) {
          ResolvedHandle(t, t[i].parent);
        }
      }
    }
    forall h | h in todo
      ensures Queued(t, root, done', h)
    {
      assert Queued(t, root, done, h) || Pushed(t, root, done, current, |t|, h);
      ResolvedHandle(t, h);
    }
  }

  /** When the worklist is empty the whole subtree is finished. */
  lemma WalkEnd(t: Table, root: nat, done: set<nat>)
    requires Forest(t) && ParentOf(t, root) == 0 && Resolves(t, root) && Walk(t, root, done, [])
    ensures done == Subtree(t, root)
  {
    forall i | i in Subtree(t, root)
      ensures i in done
    {
      var k: nat :| Up(t, HandleOf(t, i), k) == root;
      LiveHandle(t, i);
      NothingWaits(t, root, done, HandleOf(t, i), k);
    }
  }

  lemma {:induction false} NothingWaits(t: Table, root: nat, done: set<nat>, h: nat, k: nat)
    requires Forest(t) && ParentOf(t, root) == 0 && Resolves(t, root) && Walk(t, root, done, [])
    requires Resolves(t, h) && Up(t, h, k) == root
    ensures Index(h) in done
    decreases k
  {
    ResolvedHandle(t, h);
    assert Below(t, root, Index(h));
    assert Covered(t, done, [], Index(h));
    if k > 0 && Index(h) !in done {
      NothingWaits(t, root, done, ParentOf(t, h), k - 1);
    }
  }

  /** Everything pushed is live and distinct from the popped handle, so the stack cannot overflow. */
  lemma ScanRoom(t: Table, root: nat, done: set<nat>, todo: seq<nat>, current: nat, next: int)
    requires Forest(t) && Scan(t, root, done, todo, current, next)
    ensures |todo| + 1 < |t|
  {
    var all := todo + [current];
    var slots: seq<nat> := seq(|all|, k requires 0 <= k < |all| => Index(all[k]));
    forall k | 0 <= k < |all|
      ensures Resolves(t, all[k]) && 1 <= slots[k] < |t|
    {
      if k < |todo| {
        assert all[k] == todo[k] && todo[k] in todo;
        assert Queued(t, root, done, todo[k]) || Pushed(t, root, done, current, next, todo[k]);
      }
    }
    forall k, m | 0 <= k < m < |all|
      ensures slots[k] != slots[m]
    {
      ResolvedHandle(t, all[k]);
      ResolvedHandle(t, all[m]);
      if m == |todo| {
        assert all[k] == todo[k] && all[k] in todo;
      }
    }
    Pigeonhole(slots, |t|);
  }

  /** The same step as read off the half-released table, which the release loop scans. */
  lemma ScanReleased(t: Table, root: nat, done: set<nat>, todo: seq<nat>, current: nat, next: nat)
    requires Forest(t) && ParentOf(t, root) == 0 && 0 < next < |t|
    requires Scan(t, root, done, todo, current, next)
    ensures |todo| + 1 < |t|
    ensures var slot := ReleaseSet(t, done)[next];
            var todo' := if slot.alive && slot.parent == current then todo + [Handle(next, slot.generation)] else todo;
            Scan(t, root, done, todo', current, next + 1)
  {
    ScanRoom(t, root, done, todo, current, next);
    ScanNext(t, root, done, todo, current, next);
    if Live(t, next) && t[next].parent == current {
      ChildIsNew(t, root, done, todo, current, next);
      LiveHandle(t, next);
    }
  }

  lemma ReleaseAgain(t: Table, done: set<nat>, i: nat)
    ensures ReleaseSet(ReleaseSet(t, done), {i}) == ReleaseSet(t, done + {i})
  {
  }

  class Registry {
    const slots: array<Slot>
    /** The native nodes and their ordered child lists. */
    var native: Tree

    ghost function State(): Yoga
      reads this, slots
    {
      Yoga(slots[..], native)
    }

    ghost predicate Ok()
      reads this, slots
    {
      Valid(State())
    }

    constructor (capacity: nat)
      requires 1 < capacity <= SLOT_LIMIT
      ensures Ok() && fresh(slots)
      ensures State() == Initial(capacity)
    {
      slots := new Slot[capacity](_ => Slot(0, false, false, false, 0, 0));
      native := map[];
      new;
      InitialValid(capacity);
      assert slots[..] == Initial(capacity).slots;
    }

    /** The index of the slot a handle names, 0 for none. */
    method NodeFromHandle(h: nat) returns (index: nat)
      requires slots.Length > 0
      ensures index == if Resolves(slots[..], h) then Index(h) else 0
      ensures index != 0 ==> index < slots.Length
    {
      index := Index(h);
      if index == 0 || index >= slots.Length {
        return 0;
      }
      if !slots[index].alive || slots[index].generation != Generation(h) {
        return 0;
      }
    }

    /** Takes the first free slot; its node is still NULL. */
    method AllocateNode() returns (index: nat, h: nat)
      requires slots.Length > 0
      modifies slots
      ensures var i := FirstFree(old(slots[..]), 1);
              if i == slots.Length then h == 0 && slots[..] == old(slots[..])
              else
                var g := AllocatedGeneration(old(slots[..])[i].generation);
                index == i && h == Handle(i, g)
                && slots[..] == old(slots[..])[i := Slot(g, true, false, false, 0, 0)]
    {
      index := 1;
      while index < slots.Length
        invariant 1 <= index <= slots.Length
        invariant FirstFree(slots[..], 1) == FirstFree(slots[..], index)
        invariant slots[..] == old(slots[..])
      {
        if !slots[index].alive {
          var g := if slots[index].generation == 0 then 1 else NextGeneration(slots[index].generation);
          slots[index] := Slot(g, true, false, false, 0, 0);
          return index, Handle(index, g);
        }
        index := index + 1;
      }
      return 0, 0;
    }

    method ReleaseNode(h: nat)
      requires Index(h) < slots.Length
      modifies slots
      ensures slots[..] == ReleaseSet(old(slots[..]), {Index(h)})
    {
      var index := Index(h);
      slots[index] := slots[index].(alive := false, claimed := false, measured := false, node := 0, parent := 0);
    }

    /**
    Releases a root and all its descendants, finding children by scanning the table. The loop runs on a
    table whose forest invariant is broken: released parents still have live children on the stack.
    */
    method ReleaseSubtree(root: nat)
      requires Forest(slots[..]) && Resolves(slots[..], root) && ParentOf(slots[..], root) == 0
      modifies slots
      ensures slots[..] == ReleaseSet(old(slots[..]), Subtree(old(slots[..]), root))
    {
      hide Forest, Walk, Scan;
      ghost var t := slots[..];
      var pending := new nat[slots.Length];
      var count := 1;
      pending[0] := root;
      ghost var done: set<nat>, todo: seq<nat> := {}, [root];
      WalkStart(t, root);
      while count > 0
        invariant fresh(pending) && pending.Length == slots.Length
        invariant count == |todo| <= slots.Length && forall k :: 0 <= k < count ==> pending[k] == todo[k]
        invariant Walk(t, root, done, todo)
        invariant slots[..] == ReleaseSet(t, done)
        decreases Subtree(t, root) - done
      {
        WalkPop(t, root, done, todo);
        count := count - 1;
        var h := pending[count];
        todo := todo[..count];
        var index := 1;
        while index < slots.Length
          invariant 1 <= index <= slots.Length
          invariant count == |todo| <= slots.Length && forall k :: 0 <= k < count ==> pending[k] == todo[k]
          invariant Scan(t, root, done, todo, h, index)
          invariant slots[..] == ReleaseSet(t, done)
        {
          ScanReleased(t, root, done, todo, h, index);
          var candidate := slots[index];
          assert candidate == ReleaseSet(t, done)[index];
          if candidate.alive && candidate.parent == h {
            pending[count] := Handle(index, candidate.generation);
            count := count + 1;
            todo := todo + [Handle(index, candidate.generation)];
          }
          index := index + 1;
        }
        ScanEnd(t, root, done, todo, h);
        ReleaseNode(h);
        ReleaseAgain(t, done, Index(h));
        done := done + {Index(h)};
      }
      assert todo == [];
      WalkEnd(t, root, done);
    }

    /** Whether the root or a descendant is claimed. Neither defensive exit is ever taken. */
    method SubtreeHasNativeRenderable(root: nat) returns (claimed: bool, ghost defensive: bool)
      requires Forest(slots[..]) && Resolves(slots[..], root) && ParentOf(slots[..], root) == 0
      ensures claimed == SubtreeClaimed(slots[..], root)
      ensures !defensive
    {
      hide Forest, Walk, Scan;
      ghost var t := slots[..];
      var pending := new nat[slots.Length];
      var count := 1;
      pending[0] := root;
      ghost var done: set<nat>, todo: seq<nat> := {}, [root];
      defensive := false;
      WalkStart(t, root);
      while count > 0
        invariant fresh(pending) && pending.Length == slots.Length
        invariant count == |todo| <= slots.Length && forall k :: 0 <= k < count ==> pending[k] == todo[k]
        invariant Walk(t, root, done, todo)
        invariant slots[..] == t && !defensive
        invariant forall i :: i in done ==> i < |t| && !t[i].claimed
        decreases Subtree(t, root) - done
      {
        WalkPop(t, root, done, todo);
        count := count - 1;
        var h := pending[count];
        todo := todo[..count];
        var node := NodeFromHandle(h);
        if node == 0 {
          defensive := true;
          return true, defensive;
        }
        if slots[node].claimed {
          assert node in Subtree(t, root);
          return true, defensive;
        }
        var index := 1;
        while index < slots.Length
          invariant 1 <= index <= slots.Length
          invariant count == |todo| <= slots.Length && forall k :: 0 <= k < count ==> pending[k] == todo[k]
          invariant Scan(t, root, done, todo, h, index)
          invariant slots[..] == t && !defensive
        {
          ScanRoom(t, root, done, todo, h, index);
          ScanNext(t, root, done, todo, h, index);
          var candidate := slots[index];
          assert candidate == t[index];
          if candidate.alive && candidate.parent == h {
            if count == pending.Length {
              defensive := true;
              return true, defensive;
            }
            pending[count] := Handle(index, candidate.generation);
            count := count + 1;
            todo := todo + [Handle(index, candidate.generation)];
          }
          index := index + 1;
        }
        ScanEnd(t, root, done, todo, h);
        done := done + {Index(h)};
      }
      assert todo == [];
      WalkEnd(t, root, done);
      claimed := false;
    }

    /** Whether linking the child under the parent would close a cycle; the stale exit is never taken. */
    method WouldCreateCycle(parent: nat, child: nat) returns (cycle: bool, ghost defensive: bool)
      requires Forest(slots[..]) && Resolves(slots[..], parent) && Resolves(slots[..], child)
      ensures cycle == Under(slots[..], child, parent)
      ensures !defensive
    {
      ghost var t := slots[..];
      ghost var rank :| Ranked(t, rank);
      var ancestor := parent;
      defensive := false;
      ResolvedHandle(t, child);
      NothingUnderZero(t, child);
      while ancestor != 0
        invariant slots[..] == t && !defensive
        invariant ancestor != 0 ==> Resolves(t, ancestor)
        invariant Under(t, child, parent) <==> Under(t, child, ancestor)
        decreases if ancestor == 0 then 0 else rank[Index(ancestor)] + 1
      {
        UnderStep(t, child, ancestor);
        if ancestor == child {
          return true, defensive;
        }
        var node := NodeFromHandle(ancestor);
        if node == 0 {
          defensive := true;
          return true, defensive;
        }
        ParentsAbove(t, rank, ancestor);
        ancestor := slots[node].parent;
      }
      cycle := false;
    }

    // ---- The exported entry points ----

    /** `node` is the pointer the native allocator answers, 0 when it fails. */
    method Create(node: nat) returns (status: Status, h: nat)
      requires Ok() && Admissible(State(), YogaSpec.Create(node))
      modifies this, slots
      ensures Ok()
      ensures Outcome(State(), status, h) == CreateStep(old(State()), node)
    {
      CreateKeepsValid(State(), node);
      var index;
      index, h := AllocateNode();
      if h == 0 {
        return NativeFailure, 0;
      }
      if node == 0 {
        HandleRoundTrip(index, slots[index].generation);
        ReleaseNode(h);
        assert State() == CreateStep(old(State()), node).state;
        return NativeFailure, 0;
      }
      slots[index] := slots[index].(node := node);
      native := native[node := []];
      status := Success;
      assert State() == CreateStep(old(State()), node).state;
    }

    method Free(h: nat) returns (status: Status)
      requires Ok()
      modifies this, slots
      ensures Ok()
      ensures Outcome(State(), status, 0) == FreeStep(old(State()), h)
    {
      FreeKeepsValid(State(), h);
      var index := NodeFromHandle(h);
      if index == 0 {
        return StaleHandle;
      }
      NativeKnown(State(), h);
      var node := slots[index].node;
      if slots[index].claimed || slots[index].parent != 0 || |native[node]| != 0 {
        return InvalidArgument;
      }
      native := native - {node};
      ReleaseNode(h);
      status := Success;
    }

    /** `destroyed` is the set of native nodes that the recursive native free destroys. */
    method FreeRecursive(h: nat, destroyed: set<nat>) returns (status: Status)
      requires Ok()
      requires Resolves(slots[..], h) ==> destroyed == Descendants(native, NodeOf(State(), h))
      modifies this, slots
      ensures Ok()
      ensures Outcome(State(), status, 0) == FreeAllStep(old(State()), h)
    {
      FreeAllKeepsValid(State(), h);
      var index := NodeFromHandle(h);
      if index == 0 {
        return StaleHandle;
      }
      if slots[index].claimed || slots[index].parent != 0 {
        RootInSubtree(slots[..], h);
        return InvalidArgument;
      }
      var claimed, _ := SubtreeHasNativeRenderable(h);
      if claimed {
        return InvalidArgument;
      }
      native := native - destroyed;
      ReleaseSubtree(h);
      status := Success;
    }

    method InsertChild(parent: nat, child: nat, index: int) returns (status: Status)
      requires Ok()
      modifies this, slots
      ensures Ok()
      ensures Outcome(State(), status, 0) == InsertStep(old(State()), parent, child, index)
    {
      hide Distinct, Without, InsertAt;
      InsertKeepsValid(State(), parent, child, index);
      if index < 0 {
        return InvalidArgument;
      }
      var p := NodeFromHandle(parent);
      var c := NodeFromHandle(child);
      if p == 0 || c == 0 {
        return StaleHandle;
      }
      if slots[p].measured {
        return InvalidArgument;
      }
      if parent == child || slots[c].parent != 0 {
        UnderSelf(slots[..], child);
        return InvalidArgument;
      }
      var cycle, _ := WouldCreateCycle(parent, child);
      if cycle {
        return InvalidArgument;
      }
      NativeKnown(State(), parent);
      var parentNode, childNode := slots[p].node, slots[c].node;
      if index > |native[parentNode]| {
        return InvalidArgument;
      }
      native := YogaNative.InsertChild(native, parentNode, childNode, index);
      slots[c] := slots[c].(parent := parent);
      status := Success;
      assert slots[..] == Reparented(old(slots[..]), c, parent);
    }

    method RemoveChild(parent: nat, child: nat) returns (status: Status)
      requires Ok()
      modifies this, slots
      ensures Ok()
      ensures Outcome(State(), status, 0) == RemoveStep(old(State()), parent, child)
    {
      RemoveKeepsValid(State(), parent, child);
      var p := NodeFromHandle(parent);
      var c := NodeFromHandle(child);
      if p == 0 || c == 0 {
        return StaleHandle;
      }
      if slots[c].parent != parent {
        return InvalidArgument;
      }
      NativeKnown(State(), parent);
      native := YogaNative.RemoveChild(native, slots[p].node, slots[c].node);
      slots[c] := slots[c].(parent := 0);
      status := Success;
      assert slots[..] == Reparented(old(slots[..]), c, 0);
    }

    method MoveChild(parent: nat, child: nat, index: int) returns (status: Status)
      requires Ok()
      modifies this
      ensures Ok()
      ensures Outcome(State(), status, 0) == MoveStep(old(State()), parent, child, index)
    {
      assert slots.Length > 0;
      hide Valid, Distinct, Without, InsertAt, Handle, Generation;
      MoveKeepsValid(State(), parent, child, index);
      if index < 0 {
        return InvalidArgument;
      }
      var p := NodeFromHandle(parent);
      var c := NodeFromHandle(child);
      if p == 0 || c == 0 {
        return StaleHandle;
      }
      if slots[c].parent != parent {
        return InvalidArgument;
      }
      NativeKnown(State(), parent);
      var parentNode, childNode := slots[p].node, slots[c].node;
      if index >= |native[parentNode]| {
        return InvalidArgument;
      }
      MoveIsTheMove(State(), parent, child, index);
      native := YogaNative.RemoveChild(native, parentNode, childNode);
      native := YogaNative.InsertChild(native, parentNode, childNode, index);
      status := Success;
      assert native == MoveStep(old(State()), parent, child, index).state.native;
    }

    /** The count answered is the number of live slots that name the node as their parent. */
    method ChildCount(h: nat) returns (status: Status, count: nat)
      requires Ok()
      ensures status == if Resolves(slots[..], h) then Success else StaleHandle
      ensures status == Success ==> count == |Children(State(), h)| == |ChildSlots(slots[..], h)|
    {
      var index := NodeFromHandle(h);
      if index == 0 {
        return StaleHandle, 0;
      }
      ResolvedHandle(slots[..], h);
      ChildCountExact(slots[..], native, index);
      return Success, |native[slots[index].node]|;
    }

    method ClaimNativeRenderable(h: nat) returns (status: Status)
      requires Ok()
      modifies slots
      ensures Ok()
      ensures Outcome(State(), status, 0) == ClaimStep(old(State()), h)
    {
      StepKeepsValid(State(), Claim(h));
      var index := NodeFromHandle(h);
      if index == 0 {
        return StaleHandle;
      }
      if slots[index].claimed {
        return InvalidArgument;
      }
      slots[index] := slots[index].(claimed := true);
      status := Success;
      assert State() == ClaimStep(old(State()), h).state;
    }

    method ReleaseNativeRenderable(h: nat) returns (status: Status)
      requires Ok()
      modifies slots
      ensures Ok()
      ensures Outcome(State(), status, 0) == UnclaimStep(old(State()), h)
    {
      StepKeepsValid(State(), Unclaim(h));
      var index := NodeFromHandle(h);
      if index == 0 {
        return StaleHandle;
      }
      slots[index] := slots[index].(claimed := false, measured := false);
      status := Success;
      assert State() == UnclaimStep(old(State()), h).state;
    }

    method SetNativeMeasureAttached(h: nat, attached: bool) returns (status: Status)
      requires Ok()
      modifies slots
      ensures Ok()
      ensures Outcome(State(), status, 0) == SetMeasuredStep(old(State()), h, attached)
    {
      StepKeepsValid(State(), SetMeasured(h, attached));
      var index := NodeFromHandle(h);
      if index == 0 {
        return StaleHandle;
      }
      if attached && !slots[index].claimed {
        return InvalidArgument;
      }
      slots[index] := slots[index].(measured := attached);
      status := Success;
      assert State() == SetMeasuredStep(old(State()), h, attached).state;
    }
  }

  lemma ParentsAbove(t: Table, rank: seq<nat>, h: nat)
    requires ParentsLive(t) && Ranked(t, rank) && Resolves(t, h)
    ensures ParentOf(t, h) != 0 ==> Resolves(t, ParentOf(t, h)) && rank[Index(ParentOf(t, h))] < rank[Index(h)]
  {
    ResolvedHandle(t, h);
  }
}
