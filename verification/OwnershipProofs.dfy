/** Every operation keeps the ownership invariant, and what follows for every run. */
module OwnershipProofs {
  import opened Handles
  import opened Statuses
  import opened YogaForest
  import opened YogaNative
  import opened YogaSpec
  import opened Ownership

  // ---- What the tree operations leave alone ----

  predicate TreeOp(op: Op) {
    !op.Claim? && !op.Unclaim? && !op.SetMeasured?
  }

  ghost predicate SameClaims(t: Table, t': Table) {
    && (forall h: nat :: Resolves(t, h) && t[Index(h)].claimed ==>
          Resolves(t', h) && t'[Index(h)].claimed && t'[Index(h)].measured == t[Index(h)].measured)
    && (forall i :: Live(t', i) && t'[i].claimed ==>
          Live(t, i) && t[i].claimed && t[i].generation == t'[i].generation)
  }

  /** A tree operation leaves a slot's identity and flags alone, or touches only unclaimed slots. */
  predicate SlotKeeps(a: Slot, b: Slot) {
    || (a.generation == b.generation && a.alive == b.alive && a.claimed == b.claimed && a.measured == b.measured)
    || (!a.claimed && !b.claimed)
  }

  lemma TreeOpKeepsSlots(y: Yoga, op: Op, i: nat)
    requires Valid(y) && Admissible(y, op) && TreeOp(op) && i < |y.slots|
    ensures |Step(y, op).state.slots| == |y.slots|
    ensures SlotKeeps(y.slots[i], Step(y, op).state.slots[i])
  {
    hide Valid, CreateStep, FreeStep, FreeAllStep, InsertStep, RemoveStep, MoveStep;
    match op
    case Create(node) => CreateKeepsSlots(y, node, i);
    case Free(h) => FreeKeepsSlots(y, h, i);
    case FreeAll(h) => FreeAllKeepsSlots(y, h, i);
    case Insert(parent, child, index) => LinkKeepsSlots(y, parent, child, index, i);
    case Remove(parent, child) => LinkKeepsSlots(y, parent, child, 0, i);
    case Move(parent, child, index) => LinkKeepsSlots(y, parent, child, index, i);
  }

  lemma CreateKeepsSlots(y: Yoga, node: nat, i: nat)
    requires Valid(y) && i < |y.slots|
    ensures |CreateStep(y, node).state.slots| == |y.slots|
    ensures SlotKeeps(y.slots[i], CreateStep(y, node).state.slots[i])
  {
    assert SlotOk(y.slots, i);
    assert FirstFree(y.slots, 1) < |y.slots| ==> SlotOk(y.slots, FirstFree(y.slots, 1));
    hide Valid;
  }

  lemma FreeKeepsSlots(y: Yoga, h: nat, i: nat)
    requires Valid(y) && i < |y.slots|
    ensures |FreeStep(y, h).state.slots| == |y.slots|
    ensures SlotKeeps(y.slots[i], FreeStep(y, h).state.slots[i])
  {
    assert SlotOk(y.slots, i);
    hide Valid, Children;
  }

  lemma FreeAllKeepsSlots(y: Yoga, h: nat, i: nat)
    requires Valid(y) && i < |y.slots|
    ensures |FreeAllStep(y, h).state.slots| == |y.slots|
    ensures SlotKeeps(y.slots[i], FreeAllStep(y, h).state.slots[i])
  {
    assert SlotOk(y.slots, i);
    hide Valid, Subtree, FreeRecursive;
    if FreeAllStep(y, h).status == Success && i in Subtree(y.slots, h) {
      assert !y.slots[i].claimed;
    }
  }

  lemma LinkKeepsSlots(y: Yoga, parent: nat, child: nat, index: int, i: nat)
    requires i < |y.slots|
    ensures |InsertStep(y, parent, child, index).state.slots| == |y.slots|
    ensures SlotKeeps(y.slots[i], InsertStep(y, parent, child, index).state.slots[i])
    ensures |RemoveStep(y, parent, child).state.slots| == |y.slots|
    ensures SlotKeeps(y.slots[i], RemoveStep(y, parent, child).state.slots[i])
    ensures |MoveStep(y, parent, child, index).state.slots| == |y.slots|
    ensures SlotKeeps(y.slots[i], MoveStep(y, parent, child, index).state.slots[i])
  {
    hide Under, Children;
  }

  lemma TreeOpKeepsClaims(y: Yoga, op: Op)
    requires Valid(y) && Admissible(y, op) && TreeOp(op)
    ensures SameClaims(y.slots, Step(y, op).state.slots)
  {
    hide Valid, Admissible, Step;
    StepKeepsValid(y, op);
    forall i: nat | i < |y.slots|
      ensures SlotKeeps(y.slots[i], Step(y, op).state.slots[i])
    {
      TreeOpKeepsSlots(y, op, i);
    }
  }

  lemma TreeOpKeepsLeaves(y: Yoga, op: Op)
    requires Valid(y) && Admissible(y, op) && TreeOp(op) && MeasuredAreLeaves(y)
    ensures MeasuredAreLeaves(Step(y, op).state)
  {
    var y' := Step(y, op).state;
    StepKeepsValid(y, op);
    TreeOpKeepsClaims(y, op);
    forall h: nat | Resolves(y'.slots, h) && y'.slots[Index(h)].measured
      ensures Children(y', h) == []
    {
      var i := Index(h);
      assert SlotOk(y'.slots, i);
      ResolvedHandle(y'.slots, h);
      assert y.slots[i].claimed && Resolves(y.slots, h);
      assert Children(y, h) == [];
      LeafStays(y, op, h);
    }
  }

  /** An empty child list of a measured node stays empty. */
  lemma LeafStays(y: Yoga, op: Op, h: nat)
    requires Valid(y) && Admissible(y, op) && TreeOp(op)
    requires Resolves(y.slots, h) && y.slots[Index(h)].measured && y.slots[Index(h)].claimed && Children(y, h) == []
    requires Resolves(Step(y, op).state.slots, h)
    ensures Children(Step(y, op).state, h) == []
  {
    NativeKnown(y, h);
    ResolvedHandle(y.slots, h);
    ClaimedSurvives(y, op, h);
    match op
    case Create(_) =>
    case Free(k) =>
    case FreeAll(k) =>
    case Insert(p, c, _) =>
      if InsertStep(y, p, c, op.index).status == Success {
        NodesDistinct(y, h, p);
      }
    case Remove(p, c) =>
      if RemoveStep(y, p, c).status == Success {
        if h != p {
          NodesDistinct(y, h, p);
        }
      }
    case Move(p, c, index) =>
      if MoveStep(y, p, c, index).status == Success {
        assert h != p;
        NodesDistinct(y, h, p);
      }
  }

  lemma NodesDistinct(y: Yoga, h: nat, k: nat)
    requires Valid(y) && Resolves(y.slots, h) && Resolves(y.slots, k) && h != k
    ensures NodeOf(y, h) != NodeOf(y, k)
  {
    ResolvedHandle(y.slots, h);
    ResolvedHandle(y.slots, k);
  }

  // ---- Tree operations through the typed nodes ----

  /** Every node a renderable holds keeps its fields. */
  ghost predicate HeldNodesKept(s: Store, nodes: Nodes) {
    forall r :: r in s.renderables && s.renderables[r].yogaNode.Some? ==>
      var n := s.renderables[r].yogaNode.value;
      n in s.nodes ==> n in nodes && nodes[n] == s.nodes[n]
  }

  lemma TreeChangeKeepsRenderables(s: Store, yoga: Yoga, nodes: Nodes)
    requires forall r :: r in s.renderables ==> RenderableOk(s, r)
    requires ClaimsUnique(s.nodes, s.renderables)
    requires SameClaims(s.yoga.slots, yoga.slots) && HeldNodesKept(s, nodes)
    ensures var s' := s.(yoga := yoga, nodes := nodes);
            forall r :: r in s.renderables ==> RenderableOk(s', r)
    ensures ClaimsUnique(nodes, s.renderables)
  {
    var s' := s.(yoga := yoga, nodes := nodes);
    forall r | r in s.renderables
      ensures RenderableOk(s', r)
      ensures forall h: nat :: HoldsHandle(nodes, s.renderables, r, h) <==> HoldsHandle(s.nodes, s.renderables, r, h)
    {
      assert RenderableOk(s, r);
    }
  }

  lemma TreeChangeKeepsHeld(s: Store, t: Table, nodes: Nodes)
    requires ClaimsHeld(s.yoga.slots, s.nodes, s.renderables)
    requires SameClaims(s.yoga.slots, t) && HeldNodesKept(s, nodes)
    ensures ClaimsHeld(t, nodes, s.renderables)
  {
    forall i | Live(t, i) && t[i].claimed
      ensures Held(nodes, s.renderables, HandleOf(t, i))
    {
      var h := HandleOf(t, i);
      assert Live(s.yoga.slots, i) && HandleOf(s.yoga.slots, i) == h;
      var r :| r in s.renderables && HoldsHandle(s.nodes, s.renderables, r, h);
      assert HoldsHandle(nodes, s.renderables, r, h);
    }
  }

  lemma SameCounts(s: Store, s': Store)
    requires CountsSound(s) && s'.views == s.views && s'.buffers == s.buffers && s'.renderables == s.renderables
    ensures CountsSound(s')
  {
    forall v | v in s'.views
      ensures ViewOk(s', v)
    {
      assert ViewOk(s, v);
    }
  }

  lemma TreeChangeKeepsSound(s: Store, op: Op, nodes: Nodes)
    requires Sound(s) && Admissible(s.yoga, op) && TreeOp(op) && HeldNodesKept(s, nodes)
    ensures Sound(s.(yoga := Step(s.yoga, op).state, nodes := nodes))
  {
    assert |s.yoga.slots| > 0;
    hide Valid, Step, MeasuredAreLeaves, ClaimsUnique, ClaimsHeld, CountsSound, RenderableOk, SameClaims, HeldNodesKept;
    StepKeepsValid(s.yoga, op);
    TreeOpKeepsClaims(s.yoga, op);
    TreeOpKeepsLeaves(s.yoga, op);
    TreeChangeKeepsRenderables(s, Step(s.yoga, op).state, nodes);
    TreeChangeKeepsHeld(s, Step(s.yoga, op).state.slots, nodes);
    SameCounts(s, s.(yoga := Step(s.yoga, op).state, nodes := nodes));
  }

  lemma NewNodeKeepsSound(s: Store, n: Node, pointer: nat, raises: bool)
    requires Sound(s) && Possible(s, NewNode(n, pointer, raises))
    ensures Sound(NewNodeEffect(s, n, pointer, raises).store)
  {
    var op := Create(pointer);
    forall r | r in s.renderables && s.renderables[r].yogaNode.Some?
      ensures s.renderables[r].yogaNode.value in s.nodes
    {
      assert RenderableOk(s, r);
    }
    var o := CreateStep(s.yoga, pointer);
    var made := o.status == Success && !raises;
    TreeChangeKeepsSound(s, op, if made then s.nodes[n := NodeFields(o.handle, false)] else s.nodes);
  }

  lemma FreeKeepsSound(s: Store, n: Node, recursive: bool)
    requires Sound(s) && n in s.nodes
    ensures Sound(FreeEffect(s, n, recursive).store)
  {
    var h := s.nodes[n].handle;
    var op := if recursive then FreeAll(h) else Free(h);
    var o := Step(s.yoga, op);
    var nodes := if o.status == Success then s.nodes[n := s.nodes[n].(freed := true)] else s.nodes;
    assert HeldNodesKept(s, nodes) by {
      hide Valid, Children, Descendants;
      if Resolves(s.yoga.slots, h) {
        RootInSubtree(s.yoga.slots, h);
      }
      forall r | r in s.renderables && s.renderables[r].yogaNode == Some(n)
        ensures o.status != Success
      {
        assert RenderableOk(s, r);
      }
    }
    hide Sound, Valid, Children, FreeAllStep, FreeStep, HeldNodesKept;
    TreeChangeKeepsSound(s, op, nodes);
  }

  // ---- Buffers and views ----

  /** When only buffers and views change, and no known view goes away, the claims stay sound. */
  lemma ViewChangeKeepsClaims(s: Store, s': Store)
    requires ClaimsSound(s) && s' == s.(views := s'.views, buffers := s'.buffers)
    requires s.views.Keys <= s'.views.Keys
    ensures ClaimsSound(s')
  {
    hide Valid, MeasuredAreLeaves, ClaimsHeld, ClaimsUnique;
    forall r | r in s'.renderables
      ensures RenderableOk(s', r)
    {
      assert RenderableOk(s, r);
    }
  }

  lemma NobodyTargetsUnknown(s: Store, v: View)
    requires ClaimsSound(s) && v !in s.views
    ensures Users(s.renderables, v) == {}
  {
    hide Valid, MeasuredAreLeaves, ClaimsHeld, ClaimsUnique;
    assert forall r :: r in s.renderables ==> RenderableOk(s, r);
  }

  lemma OpenViewAdded(views: map<View, ViewFields>, v: View, f: ViewFields, c: TextBuffer)
    requires v !in views && f.open
    ensures |OpenViews(views[v := f], c)| == |OpenViews(views, c)| + if c == f.buffer then 1 else 0
  {
    if c == f.buffer {
      assert OpenViews(views[v := f], c) == OpenViews(views, c) + {v};
    } else {
      assert OpenViews(views[v := f], c) == OpenViews(views, c);
    }
  }

  /** Native objects that nothing names bear on nothing else. */
  lemma StraysUnread(s: Store, strays: nat)
    ensures Sound(s) <==> Sound(s.(strays := strays))
  {
    var s' := s.(strays := strays);
    assert forall r :: r in s.renderables ==> (RenderableOk(s, r) <==> RenderableOk(s', r));
    assert forall v :: v in s.views ==> (ViewOk(s, v) <==> ViewOk(s', v));
    assert forall b :: b in s.buffers ==> (BufferOk(s, b) <==> BufferOk(s', b));
  }

  lemma ViewNotMadeKeepsSound(s: Store, b: TextBuffer, native: Status, failing: Failing)
    requires Sound(s) && b in s.buffers
    ensures Sound(ViewNotMade(s, b, native, failing))
  {
    hide ClaimsSound, OpenViews;
    var s' := ViewNotMade(s, b, native, failing).(strays := s.strays);
    StraysUnread(s', ViewNotMade(s, b, native, failing).strays);
    ViewChangeKeepsClaims(s, s');
    assert forall w :: w in s'.views ==> ViewOk(s, w) ==> ViewOk(s', w);
    assert forall c :: c in s'.buffers ==> BufferOk(s, c) ==> BufferOk(s', c);
  }

  lemma NewViewKeepsSound(s: Store, v: View, b: TextBuffer, native: Status, failing: Failing)
    requires Sound(s) && v !in s.views && b in s.buffers
    ensures Sound(NewViewEffect(s, v, b, native, failing).store)
  {
    var s' := NewViewEffect(s, v, b, native, failing).store;
    hide ClaimsSound, OpenViews;
    ViewNotMadeKeepsSound(s, b, native, failing);
    if s'.views != s.views {
      NobodyTargetsUnknown(s, v);
      ViewChangeKeepsClaims(s, s');
      forall w | w in s'.views
        ensures ViewOk(s', w)
      {
        if w != v {
          assert ViewOk(s, w);
        }
      }
      forall c | c in s'.buffers
        ensures BufferOk(s', c)
      {
        OpenViewAdded(s.views, v, ViewFields(b, true, 0, true), c);
      }
    }
  }

  lemma OpenViewRemoved(views: map<View, ViewFields>, v: View, f: ViewFields, c: TextBuffer)
    requires v in views && views[v].open && !f.open
    ensures |OpenViews(views[v := f], c)| == |OpenViews(views, c)| - if c == views[v].buffer then 1 else 0
  {
    if c == views[v].buffer {
      assert OpenViews(views[v := f], c) == OpenViews(views, c) - {v};
      assert v in OpenViews(views, c);
    } else {
      assert OpenViews(views[v := f], c) == OpenViews(views, c);
    }
  }

  /** Closing an open view finds a positive count: the saturating decrement never saturates. */
  lemma CloseViewKeepsSound(s: Store, v: View)
    requires Sound(s) && v in s.views
    ensures s.views[v].buffer in s.buffers
    ensures s.views[v].open ==> s.buffers[s.views[v].buffer].open && s.buffers[s.views[v].buffer].openViews > 0
    ensures Sound(CloseViewEffect(s, v).store)
  {
    hide ClaimsSound, OpenViews;
    assert ViewOk(s, v);
    var s' := CloseViewEffect(s, v).store;
    var closed := s.views[v].(open := false, nativeLive := false);
    if s.views[v].open {
      OpenViewRemoved(s.views, v, closed, s.views[v].buffer);
    }
    if s' != s {
      ViewChangeKeepsClaims(s, s');
      forall w | w in s'.views
        ensures ViewOk(s', w)
      {
        assert ViewOk(s, w);
      }
      forall c | c in s'.buffers
        ensures BufferOk(s', c)
      {
        OpenViewRemoved(s.views, v, closed, c);
      }
    }
  }

  lemma CloseBufferKeepsSound(s: Store, b: TextBuffer)
    requires Sound(s) && b in s.buffers
    ensures Sound(CloseBufferEffect(s, b).store)
  {
    var s' := CloseBufferEffect(s, b).store;
    if s' != s {
      ViewChangeKeepsClaims(s, s');
      hide ClaimsSound;
      assert OpenViews(s.views, b) == {};
      forall w | w in s'.views
        ensures ViewOk(s', w)
      {
        assert ViewOk(s, w);
        assert w !in OpenViews(s.views, b);
      }
    }
  }

  // ---- Renderables ----

  /** Renderables that keep their nodes hold the same handles. */
  lemma SameHolders(ns: Nodes, rs: Renderables, rs': Renderables)
    requires rs'.Keys >= rs.Keys
    requires forall r :: r in rs' ==> rs'[r].yogaNode == if r in rs then rs[r].yogaNode else None
    ensures forall r, h: nat :: HoldsHandle(ns, rs', r, h) <==> HoldsHandle(ns, rs, r, h)
    ensures ClaimsUnique(ns, rs) ==> ClaimsUnique(ns, rs')
    ensures forall t :: ClaimsHeld(t, ns, rs) ==> ClaimsHeld(t, ns, rs')
  {
    forall t: Table, i | ClaimsHeld(t, ns, rs) && Live(t, i) && t[i].claimed
      ensures Held(ns, rs', HandleOf(t, i))
    {
      var r :| r in rs && HoldsHandle(ns, rs, r, HandleOf(t, i));
      assert HoldsHandle(ns, rs', r, HandleOf(t, i));
    }
  }

  /** Changing the flags of one claimed slot, which keeps its claim, moves no claim. */
  lemma FlagsKeepClaimsHeld(t: Table, t': Table, ns: Nodes, rs: Renderables, i: nat)
    requires |t| == |t'| && i < |t| && t' == t[i := t'[i]] && t'[i].generation == t[i].generation
    requires ClaimsHeld(t, ns, rs) && (t'[i].claimed ==> t'[i].alive && Held(ns, rs, HandleOf(t, i)))
    ensures ClaimsHeld(t', ns, rs)
  {
    forall j | Live(t', j) && t'[j].claimed
      ensures Held(ns, rs, HandleOf(t', j))
    {
      assert HandleOf(t', j) == HandleOf(t, j);
      if j != i {
        assert Live(t, j);
      }
    }
  }

  lemma FlagsKeepLeaves(y: Yoga, h: nat, claimed: bool, measured: bool)
    requires Resolves(y.slots, h) && MeasuredAreLeaves(y) && (measured ==> Children(y, h) == [])
    ensures MeasuredAreLeaves(SetFlags(y, h, claimed, measured))
  {
    var y' := SetFlags(y, h, claimed, measured);
    forall k: nat | Resolves(y'.slots, k) && y'.slots[Index(k)].measured
      ensures Children(y', k) == []
    {
      assert Resolves(y.slots, k) && Children(y', k) == Children(y, k);
      if Index(k) == Index(h) {
        ResolvedHandle(y.slots, h);
        ResolvedHandle(y.slots, k);
      }
    }
  }

  lemma AttachKeepsRenderables(s: Store, r: Renderable, n: Node)
    requires RenderablesOk(s) && ClaimsUnique(s.nodes, s.renderables)
    requires r in s.renderables && s.renderables[r].open && s.renderables[r].yogaNode.None?
    requires n in s.nodes && !s.nodes[n].freed
    requires Resolves(s.yoga.slots, s.nodes[n].handle) && !s.yoga.slots[Index(s.nodes[n].handle)].claimed
    ensures RenderablesOk(Attached(s, r, n))
    ensures ClaimsUnique(s.nodes, Attached(s, r, n).renderables)
  {
    var s', h, rs := Attached(s, r, n), s.nodes[n].handle, s.renderables;
    ResolvedHandle(s.yoga.slots, h);
    forall q | q in rs && q != r
      ensures RenderableOk(s', q) && !HoldsHandle(s.nodes, rs, q, h)
    {
      assert RenderableOk(s, q);
      if rs[q].yogaNode.Some? {
        ResolvedHandle(s.yoga.slots, s.nodes[rs[q].yogaNode.value].handle);
      }
    }
    assert RenderableOk(s, r);
    assert RenderableOk(s', r);
    forall q, k: nat | q in rs && q != r
      ensures HoldsHandle(s.nodes, s'.renderables, q, k) <==> HoldsHandle(s.nodes, rs, q, k)
    {
    }
    assert forall k: nat :: HoldsHandle(s.nodes, s'.renderables, r, k) ==> k == h;
  }

  lemma AttachKeepsHeld(s: Store, r: Renderable, n: Node)
    requires ClaimsHeld(s.yoga.slots, s.nodes, s.renderables)
    requires r in s.renderables && s.renderables[r].yogaNode.None? && n in s.nodes
    requires Resolves(s.yoga.slots, s.nodes[n].handle)
    ensures ClaimsHeld(Attached(s, r, n).yoga.slots, s.nodes, Attached(s, r, n).renderables)
  {
    var s', t, h := Attached(s, r, n), s.yoga.slots, s.nodes[n].handle;
    var t' := s'.yoga.slots;
    ResolvedHandle(t, h);
    forall j | Live(t', j) && t'[j].claimed
      ensures Held(s.nodes, s'.renderables, HandleOf(t', j))
    {
      if j == Index(h) {
        assert HoldsHandle(s.nodes, s'.renderables, r, h);
      } else {
        assert Live(t, j) && HandleOf(t', j) == HandleOf(t, j);
        var q :| q in s.renderables && HoldsHandle(s.nodes, s.renderables, q, HandleOf(t, j));
        assert HoldsHandle(s.nodes, s'.renderables, q, HandleOf(t, j));
      }
    }
  }

  lemma SameTargetsKeepCounts(s: Store, s': Store)
    requires CountsSound(s) && s'.views == s.views && s'.buffers == s.buffers
    requires s.renderables.Keys <= s'.renderables.Keys
    requires forall r :: r in s'.renderables ==>
               s'.renderables[r].measureTarget == if r in s.renderables then s.renderables[r].measureTarget else None
    ensures CountsSound(s')
  {
    forall v | v in s'.views
      ensures ViewOk(s', v)
    {
      assert ViewOk(s, v);
      assert Users(s'.renderables, v) == Users(s.renderables, v);
    }
  }

  lemma AttachKeepsSound(s: Store, r: Renderable, n: Node, native: Status)
    requires Sound(s) && r in s.renderables && n in s.nodes
    ensures Sound(AttachEffect(s, r, n, native).store)
  {
    hide Valid, RenderablesOk, ClaimsUnique, ClaimsHeld, MeasuredAreLeaves, CountsSound, Resolves, SetFlags, Children;
    var e, h, measured := AttachEffect(s, r, n, native), s.nodes[n].handle, s.renderables[r].measureTarget.Some?;
    if e.answer == Fine {
      FlagsKeepValid(s.yoga, h, true, measured);
      FlagsKeepLeaves(s.yoga, h, true, measured);
      AttachKeepsRenderables(s, r, n);
      AttachKeepsHeld(s, r, n);
      SameTargetsKeepCounts(s, e.store);
    }
  }

  // ---- Targets ----

  lemma UsersRetargeted(rs: Renderables, r: Renderable, f: RenderableFields, v: View)
    requires r in rs
    ensures |Users(rs[r := f], v)| == |Users(rs, v)|
              - (if rs[r].measureTarget == Some(v) then 1 else 0) + (if f.measureTarget == Some(v) then 1 else 0)
  {
    var rest := Users(rs, v) - {r};
    if rs[r].measureTarget == Some(v) {
      assert Users(rs, v) == rest + {r};
    } else {
      assert Users(rs, v) == rest;
    }
    if f.measureTarget == Some(v) {
      assert Users(rs[r := f], v) == rest + {r};
    } else {
      assert Users(rs[r := f], v) == rest;
    }
  }

  /** A target that is given up has a positive count: the saturating decrement never saturates. */
  lemma TargetCounted(s: Store, r: Renderable)
    requires Sound(s) && r in s.renderables && s.renderables[r].measureTarget.Some?
    ensures s.renderables[r].measureTarget.value in s.views
    ensures s.views[s.renderables[r].measureTarget.value].measureUsers > 0
    ensures s.views[s.renderables[r].measureTarget.value].open
  {
    assert RenderableOk(s, r);
    var v := s.renderables[r].measureTarget.value;
    assert ViewOk(s, v);
    assert r in Users(s.renderables, v);
  }

  lemma RetargetKeepsCounts(s: Store, r: Renderable, f: RenderableFields)
    requires Sound(s) && r in s.renderables
    requires f.measureTarget.Some? ==> f.measureTarget.value in s.views && s.views[f.measureTarget.value].open
    ensures s.renderables[r].measureTarget.Some? ==> s.renderables[r].measureTarget.value in s.views
    ensures CountsSound(s.(views := Retarget(s, r, f.measureTarget), renderables := s.renderables[r := f]))
    ensures Retarget(s, r, f.measureTarget).Keys == s.views.Keys
  {
    hide ClaimsSound, Users, OpenViews;
    if s.renderables[r].measureTarget.Some? {
      TargetCounted(s, r);
    }
    var s' := s.(views := Retarget(s, r, f.measureTarget), renderables := s.renderables[r := f]);
    RetargetKeepsViews(s, s', r, f);
    RetargetKeepsOpen(s, r, f.measureTarget);
    hide ViewOk, Retarget, CountUser;
    forall b | b in s'.buffers
      ensures BufferOk(s', b)
    {
      SameOpenViews(s.views, s'.views, b);
    }
  }

  lemma RetargetKeepsOpen(s: Store, r: Renderable, target: Option<View>)
    requires r in s.renderables && (target.Some? ==> target.value in s.views)
    requires s.renderables[r].measureTarget.Some? ==> s.renderables[r].measureTarget.value in s.views
    ensures var views := Retarget(s, r, target);
            && views.Keys == s.views.Keys
            && forall v :: v in s.views ==> views[v].open == s.views[v].open && views[v].buffer == s.views[v].buffer
  {
  }

  lemma RetargetKeepsViews(s: Store, s': Store, r: Renderable, f: RenderableFields)
    requires Sound(s) && r in s.renderables
    requires f.measureTarget.Some? ==> f.measureTarget.value in s.views && s.views[f.measureTarget.value].open
    requires s.renderables[r].measureTarget.Some? ==> s.renderables[r].measureTarget.value in s.views
    requires s' == s.(views := Retarget(s, r, f.measureTarget), renderables := s.renderables[r := f])
    ensures forall v :: v in s'.views ==> ViewOk(s', v)
  {
    hide ClaimsSound, Users, OpenViews;
    if s.renderables[r].measureTarget.Some? {
      TargetCounted(s, r);
    }
    forall v | v in s'.views
      ensures ViewOk(s', v)
    {
      assert ViewOk(s, v);
      UsersRetargeted(s.renderables, r, f, v);
    }
  }

  lemma SameOpenViews(views: map<View, ViewFields>, views': map<View, ViewFields>, b: TextBuffer)
    requires views.Keys == views'.Keys
    requires forall v :: v in views ==> views'[v].open == views[v].open && views'[v].buffer == views[v].buffer
    ensures OpenViews(views', b) == OpenViews(views, b)
  {
  }

  /** Marking r's node along with its new target touches no other renderable. */
  lemma RetargetKeepsRenderables(s: Store, r: Renderable, target: Option<View>)
    requires RenderablesOk(s) && ClaimsUnique(s.nodes, s.renderables)
    requires r in s.renderables && s.renderables[r].open && (target.Some? ==> target.value in s.views)
    requires s.renderables[r].measureTarget.Some? ==> s.renderables[r].measureTarget.value in s.views
    ensures RenderablesOk(Retargeted(s, r, target))
  {
    var s' := Retargeted(s, r, target);
    assert RenderableOk(s, r);
    assert s'.views.Keys == s.views.Keys;
    if s.renderables[r].yogaNode.Some? {
      ResolvedHandle(s.yoga.slots, s.nodes[s.renderables[r].yogaNode.value].handle);
    }
    forall q | q in s'.renderables
      ensures RenderableOk(s', q)
    {
      assert RenderableOk(s, q);
      if q != r && s.renderables[q].yogaNode.Some? && s.renderables[r].yogaNode.Some? {
        OthersHoldOtherSlots(s, r, q);
      }
    }
  }

  lemma MarkKeepsTree(s: Store, r: Renderable, target: Option<View>)
    requires ClaimsSound(s) && r in s.renderables
    requires s.renderables[r].yogaNode.Some? ==> s.renderables[r].yogaNode.value in s.nodes
    requires target.Some? && s.renderables[r].yogaNode.Some? ==> LeafAnswer(s, s.renderables[r].yogaNode.value) == Fine
    ensures Valid(MarkNode(s, r, target.Some?))
    ensures MeasuredAreLeaves(MarkNode(s, r, target.Some?))
    ensures ClaimsHeld(MarkNode(s, r, target.Some?).slots, s.nodes, s.renderables)
  {
    if s.renderables[r].yogaNode.Some? {
      var h := s.nodes[s.renderables[r].yogaNode.value].handle;
      assert RenderableOk(s, r);
      assert HoldsHandle(s.nodes, s.renderables, r, h);
      ResolvedHandle(s.yoga.slots, h);
      FlagsKeepValid(s.yoga, h, true, target.Some?);
      FlagsKeepLeaves(s.yoga, h, true, target.Some?);
      hide Valid, MeasuredAreLeaves, Children;
      FlagsKeepClaimsHeld(s.yoga.slots, MarkNode(s, r, target.Some?).slots, s.nodes, s.renderables, Index(h));
    }
  }

  lemma OthersHoldOtherSlots(s: Store, r: Renderable, q: Renderable)
    requires RenderablesOk(s) && ClaimsUnique(s.nodes, s.renderables)
    requires r in s.renderables && q in s.renderables && q != r
    requires s.renderables[q].yogaNode.Some? && s.renderables[r].yogaNode.Some?
    ensures s.renderables[q].yogaNode.value in s.nodes && s.renderables[r].yogaNode.value in s.nodes
    ensures Index(s.nodes[s.renderables[q].yogaNode.value].handle) != Index(s.nodes[s.renderables[r].yogaNode.value].handle)
  {
    assert RenderableOk(s, q) && RenderableOk(s, r);
    var h, k := s.nodes[s.renderables[q].yogaNode.value].handle, s.nodes[s.renderables[r].yogaNode.value].handle;
    ResolvedHandle(s.yoga.slots, h);
    ResolvedHandle(s.yoga.slots, k);
    assert HoldsHandle(s.nodes, s.renderables, q, h) && HoldsHandle(s.nodes, s.renderables, r, k);
  }

  /** Fields the store always has for what a renderable refers to. */
  lemma KnownFields(s: Store, r: Renderable)
    requires Sound(s) && r in s.renderables
    ensures s.renderables[r].yogaNode.Some? ==> s.renderables[r].yogaNode.value in s.nodes
    ensures s.renderables[r].measureTarget.Some? ==> s.renderables[r].measureTarget.value in s.views
  {
    assert RenderableOk(s, r);
  }

  lemma RetargetKeepsSound(s: Store, r: Renderable, target: Option<View>)
    requires Sound(s) && r in s.renderables && s.renderables[r].open
    requires target.Some? ==> target.value in s.views && s.views[target.value].open
    requires s.renderables[r].yogaNode.Some? ==> s.renderables[r].yogaNode.value in s.nodes
    requires s.renderables[r].measureTarget.Some? ==> s.renderables[r].measureTarget.value in s.views
    requires target.Some? && s.renderables[r].yogaNode.Some? ==> LeafAnswer(s, s.renderables[r].yogaNode.value) == Fine
    ensures Sound(Retargeted(s, r, target))
  {
    hide Valid, RenderablesOk, ClaimsUnique, ClaimsHeld, MeasuredAreLeaves, CountsSound, MarkNode, Retarget, LeafAnswer;
    var s', f := Retargeted(s, r, target), WithTarget(s.renderables[r], target);
    RetargetKeepsRenderables(s, r, target);
    MarkKeepsTree(s, r, target);
    SameHolders(s.nodes, s.renderables, s'.renderables);
    RetargetKeepsCounts(s, r, f);
    SameCounts(s.(views := s'.views, renderables := s'.renderables), s');
  }

  lemma SetTargetKeepsSound(s: Store, r: Renderable, v: View, native: Status)
    requires Sound(s) && r in s.renderables && v in s.views
    ensures s.views[v].buffer in s.buffers
    ensures s.renderables[r].yogaNode.Some? ==> s.renderables[r].yogaNode.value in s.nodes
    ensures s.renderables[r].measureTarget.Some? ==> s.renderables[r].measureTarget.value in s.views
    ensures Sound(SetTargetEffect(s, r, v, native).store)
  {
    KnownFields(s, r);
    assert ViewOk(s, v);
    hide ClaimsSound, CountsSound, LeafAnswer, Retargeted;
    if SetTargetEffect(s, r, v, native).answer == Fine {
      RetargetKeepsSound(s, r, Some(v));
    }
  }

  lemma ClearTargetKeepsSound(s: Store, r: Renderable, native: Status)
    requires Sound(s) && r in s.renderables
    ensures s.renderables[r].measureTarget.Some? ==> s.renderables[r].measureTarget.value in s.views
    ensures Sound(ClearTargetEffect(s, r, native).store)
  {
    KnownFields(s, r);
    hide ClaimsSound, CountsSound, Retargeted;
    if ClearTargetEffect(s, r, native).answer == Fine {
      RetargetKeepsSound(s, r, None);
    }
  }

  lemma DropKeepsRenderables(s: Store, r: Renderable)
    requires RenderablesOk(s) && ClaimsUnique(s.nodes, s.renderables) && r in s.renderables
    ensures RenderablesOk(Dropped(s, r))
    ensures ClaimsUnique(s.nodes, Dropped(s, r).renderables)
  {
    var s' := Dropped(s, r);
    assert RenderableOk(s, r);
    forall q | q in s'.renderables
      ensures RenderableOk(s', q)
      ensures forall k: nat :: HoldsHandle(s.nodes, s'.renderables, q, k) ==> HoldsHandle(s.nodes, s.renderables, q, k)
    {
      assert RenderableOk(s, q);
      if q != r && s.renderables[q].yogaNode.Some? && s.renderables[r].yogaNode.Some? {
        OthersHoldOtherSlots(s, r, q);
      }
    }
  }

  lemma DropKeepsHeld(s: Store, r: Renderable)
    requires r in s.renderables && RenderableOk(s, r) && WellFormed(s.yoga.slots)
    requires ClaimsHeld(s.yoga.slots, s.nodes, s.renderables)
    ensures ClaimsHeld(Dropped(s, r).yoga.slots, s.nodes, Dropped(s, r).renderables)
  {
    var s', t := Dropped(s, r), s.yoga.slots;
    var t' := s'.yoga.slots;
    forall j | Live(t', j) && t'[j].claimed
      ensures Held(s.nodes, s'.renderables, HandleOf(t', j))
    {
      assert Live(t, j) && HandleOf(t', j) == HandleOf(t, j) && t[j].claimed;
      LiveHandle(t, j);
      var q :| q in s.renderables && HoldsHandle(s.nodes, s.renderables, q, HandleOf(t, j));
      assert HoldsHandle(s.nodes, s'.renderables, q, HandleOf(t, j));
    }
  }

  lemma DropKeepsTree(s: Store, r: Renderable)
    requires ClaimsSound(s) && r in s.renderables
    ensures Valid(Dropped(s, r).yoga) && MeasuredAreLeaves(Dropped(s, r).yoga)
  {
    assert RenderableOk(s, r);
    if s.renderables[r].yogaNode.Some? {
      var h := s.nodes[s.renderables[r].yogaNode.value].handle;
      FlagsKeepValid(s.yoga, h, false, false);
      FlagsKeepLeaves(s.yoga, h, false, false);
    }
  }

  /** Giving the claim back and closing a renderable that has no target any more. */
  lemma DropKeepsSound(s: Store, r: Renderable)
    requires Sound(s) && r in s.renderables && s.renderables[r].measureTarget.None?
    ensures Sound(Dropped(s, r))
  {
    assert RenderableOk(s, r);
    DropKeepsTree(s, r);
    hide MeasuredAreLeaves, CountsSound, UnclaimStep, RenderableOk;
    DropKeepsRenderables(s, r);
    DropKeepsHeld(s, r);
    hide Valid, RenderablesOk, ClaimsUnique, ClaimsHeld;
    SameTargetsKeepCounts(s, Dropped(s, r));
  }

  lemma CloseRenderableKeepsSound(s: Store, r: Renderable, native: Status)
    requires Sound(s) && r in s.renderables
    ensures s.renderables[r].measureTarget.Some? ==> s.renderables[r].measureTarget.value in s.views
    ensures Sound(CloseRenderableEffect(s, r, native).store)
  {
    KnownFields(s, r);
    hide ClaimsSound, CountsSound;
    if s.renderables[r].open && native == Success {
      RetargetKeepsSound(s, r, None);
      DropKeepsSound(Retargeted(s, r, None), r);
    }
  }

  // ---- Runs ----

  lemma NewBufferKeepsSound(s: Store, b: TextBuffer)
    requires Sound(s) && b !in s.buffers
    ensures Sound(s.(buffers := s.buffers[b := BufferFields(true, 0, 0)]))
  {
    var s' := s.(buffers := s.buffers[b := BufferFields(true, 0, 0)]);
    ViewChangeKeepsClaims(s, s');
    hide ClaimsSound;
    forall v | v in s'.views
      ensures ViewOk(s', v) && v !in OpenViews(s.views, b)
    {
      assert ViewOk(s, v);
    }
    assert OpenViews(s.views, b) == {};
  }

  lemma NewRenderableKeepsSound(s: Store, r: Renderable)
    requires Sound(s) && r !in s.renderables
    ensures Sound(s.(renderables := s.renderables[r := RenderableFields(true, None, None, None, None)]))
  {
    var s' := s.(renderables := s.renderables[r := RenderableFields(true, None, None, None, None)]);
    SameHolders(s.nodes, s.renderables, s'.renderables);
    SameTargetsKeepCounts(s, s');
    hide Valid, MeasuredAreLeaves, ClaimsUnique, ClaimsHeld, CountsSound, NodeHeld;
    forall q | q in s'.renderables
      ensures RenderableOk(s', q)
    {
      assert q in s.renderables ==> RenderableOk(s, q);
    }
  }

  lemma ChildKeepsSound(s: Store, parent: Node, child: Node, op: Op)
    requires Sound(s) && parent in s.nodes && child in s.nodes && (op.Insert? || op.Remove? || op.Move?)
    ensures Sound(ChildEffect(s, parent, child, op).store)
  {
    TreeChangeKeepsSound(s, op, s.nodes);
    assert s.(yoga := Step(s.yoga, op).state, nodes := s.nodes) == s.(yoga := Step(s.yoga, op).state);
  }

  lemma DoKeepsSound(s: Store, e: Event)
    requires Sound(s) && Possible(s, e)
    ensures Sound(Do(s, e).store)
  {
    hide Sound, NewNodeEffect, FreeEffect, ChildEffect, NewViewEffect, CloseViewEffect, CloseBufferEffect,
         AttachEffect, SetTargetEffect, ClearTargetEffect, CloseRenderableEffect;
    match e
    case NewNode(n, pointer, raises) => NewNodeKeepsSound(s, n, pointer, raises);
    case FreeNode(n) => FreeKeepsSound(s, n, false);
    case FreeNodes(n) => FreeKeepsSound(s, n, true);
    case InsertNode(parent, child, index) =>
      ChildKeepsSound(s, parent, child, Insert(s.nodes[parent].handle, s.nodes[child].handle, index));
    case RemoveNode(parent, child) =>
      ChildKeepsSound(s, parent, child, Remove(s.nodes[parent].handle, s.nodes[child].handle));
    case MoveNode(parent, child, index) =>
      ChildKeepsSound(s, parent, child, Move(s.nodes[parent].handle, s.nodes[child].handle, index));
    case NewBuffer(b, native, raises) =>
      StraysUnread(s, s.strays + 1);
      if native == Success && !raises {
        NewBufferKeepsSound(s, b);
      }
    case CloseBuffer(b) => CloseBufferKeepsSound(s, b);
    case NewView(v, b, native, failing) => NewViewKeepsSound(s, v, b, native, failing);
    case CloseView(v) => CloseViewKeepsSound(s, v);
    case NewRenderable(r, native, raises) =>
      StraysUnread(s, s.strays + 1);
      if native == Success && !raises {
        NewRenderableKeepsSound(s, r);
      }
    case AttachNode(r, n, native) => AttachKeepsSound(s, r, n, native);
    case SetTarget(r, v, native) => SetTargetKeepsSound(s, r, v, native);
    case ClearTarget(r, native) => ClearTargetKeepsSound(s, r, native);
    case CloseRenderable(r, native) => CloseRenderableKeepsSound(s, r, native);
  }

  function Empty(capacity: nat): Store {
    Store(Initial(capacity), map[], map[], map[], map[], 0)
  }

  ghost predicate Runs(s: Store, events: seq<Event>)
    decreases |events|
  {
    events == [] || (Possible(s, events[0]) && Runs(Do(s, events[0]).store, events[1..]))
  }

  ghost function After(s: Store, events: seq<Event>): Store
    requires Runs(s, events)
    decreases |events|
  {
    if events == [] then s else After(Do(s, events[0]).store, events[1..])
  }

  lemma EmptySound(capacity: nat)
    requires 1 < capacity <= SLOT_LIMIT
    ensures Sound(Empty(capacity))
  {
    InitialValid(capacity);
  }

  /** Every store reachable from the empty one is sound, whatever the native side answers. */
  lemma {:induction false} RunKeepsSound(s: Store, events: seq<Event>)
    requires Sound(s) && Runs(s, events)
    ensures Sound(After(s, events))
    decreases |events|
  {
    if events != [] {
      DoKeepsSound(s, events[0]);
      RunKeepsSound(Do(s, events[0]).store, events[1..]);
    }
  }

  // ---- What soundness says ----

  /** The measure flag is set exactly when some open renderable holds both the node and a target. */
  lemma MeasuredExactly(s: Store, i: nat)
    requires Sound(s) && Live(s.yoga.slots, i)
    ensures s.yoga.slots[i].measured
            <==> exists r :: r in s.renderables && s.renderables[r].open && s.renderables[r].measureTarget.Some?
                             && HoldsHandle(s.nodes, s.renderables, r, HandleOf(s.yoga.slots, i))
    ensures s.yoga.slots[i].measured ==>
              s.yoga.slots[i].node in s.yoga.native && s.yoga.native[s.yoga.slots[i].node] == []
  {
    var t, h := s.yoga.slots, HandleOf(s.yoga.slots, i);
    LiveHandle(t, i);
    assert SlotOk(t, i);
    NativeKnown(s.yoga, h);
    assert t[i].measured ==> Children(s.yoga, h) == [];
    hide Valid, MeasuredAreLeaves, CountsSound;
    if t[i].measured {
      var r :| r in s.renderables && HoldsHandle(s.nodes, s.renderables, r, h);
      assert RenderableOk(s, r);
    }
    forall r | r in s.renderables && HoldsHandle(s.nodes, s.renderables, r, h)
      ensures s.renderables[r].measureTarget.Some? ==> t[i].measured
    {
      assert RenderableOk(s, r);
    }
  }

  /** Node and renderable claim each other one to one. */
  lemma ClaimOneToOne(s: Store, i: nat)
    requires Sound(s) && Live(s.yoga.slots, i)
    ensures s.yoga.slots[i].claimed <==> Held(s.nodes, s.renderables, HandleOf(s.yoga.slots, i))
    ensures forall r, q | r in s.renderables && q in s.renderables ::
              (HoldsHandle(s.nodes, s.renderables, r, HandleOf(s.yoga.slots, i))
               && HoldsHandle(s.nodes, s.renderables, q, HandleOf(s.yoga.slots, i))) ==> r == q
  {
    LiveHandle(s.yoga.slots, i);
    hide Valid, MeasuredAreLeaves, CountsSound;
    if Held(s.nodes, s.renderables, HandleOf(s.yoga.slots, i)) {
      var r :| r in s.renderables && HoldsHandle(s.nodes, s.renderables, r, HandleOf(s.yoga.slots, i));
      assert RenderableOk(s, r);
    }
  }

  /** Whatever a native renderable measures through still exists: view, native view and buffer. */
  lemma TargetInUse(s: Store, r: Renderable)
    requires Sound(s) && r in s.renderables && s.renderables[r].nativeTarget.Some?
    ensures var v := s.renderables[r].nativeTarget.value;
            && s.renderables[r].measureTarget == Some(v)
            && v in s.views && s.views[v].open && s.views[v].nativeLive
            && s.views[v].buffer in s.buffers && s.buffers[s.views[v].buffer].open
  {
    assert RenderableOk(s, r);
    TargetCounted(s, r);
    assert ViewOk(s, s.renderables[r].nativeTarget.value);
  }

  /** A view closes exactly when no renderable targets it, a buffer exactly when no open or lost view reads it. */
  lemma CloseAllowed(s: Store, v: View, b: TextBuffer)
    requires Sound(s) && v in s.views && b in s.buffers
    ensures Do(s, CloseView(v)).answer == Fine <==> Users(s.renderables, v) == {}
    ensures Do(s, CloseBuffer(b)).answer == Fine
            <==> !s.buffers[b].open || (OpenViews(s.views, b) == {} && s.buffers[b].lostViews == 0)
  {
    assert ViewOk(s, v) && BufferOk(s, b);
    hide ClaimsSound;
    if Users(s.renderables, v) != {} {
      assert |Users(s.renderables, v)| > 0;
    }
    if OpenViews(s.views, b) != {} {
      assert |OpenViews(s.views, b)| > 0;
    }
  }

  // ---- What a failed allocation leaves behind ----

  /** What a creation that raised left: a spent or live slot, a stray native object, a counted view. */
  ghost predicate LeftBehind(s: Store, e: Event, s': Store)
    requires Possible(s, e)
  {
    match e
    case NewNode(_, pointer, _) => s' == s.(yoga := CreateStep(s.yoga, pointer).state)
    case NewView(_, b, native, failing) => s' == ViewNotMade(s, b, native, failing)
    case NewBuffer(_, native, _) => s' == Stray(s, native)
    case NewRenderable(_, native, _) => s' == Stray(s, native)
    case _ => s' == s
  }

  /**
  An operation that is refused or closed changes nothing, except that a failed native node spends one
  generation of a free slot; one that raises changes exactly what it had already done.
  */
  lemma RefusedChangesNothing(s: Store, e: Event)
    requires Sound(s) && Possible(s, e)
    ensures var d := Do(s, e);
            && (d.answer == Raised ==> LeftBehind(s, e, d.store))
            && (d.answer != Fine && d.answer != Raised ==>
                  if e.NewNode? then d.store.(yoga := s.yoga) == s && SpentAtMost(s.yoga, d.store.yoga)
                  else d.store == s)
  {
    hide ClaimsSound, CountsSound;
  }

  /** The tables agree but for the generation of one free slot. */
  ghost predicate SpentAtMost(y: Yoga, y': Yoga) {
    var i := FirstFree(y.slots, 1);
    && y'.native == y.native
    && (y' == y
        || (i < |y.slots|
            && y'.slots == y.slots[i := Slot(AllocatedGeneration(y.slots[i].generation), false, false, false, 0, 0)]))
  }

  /** Lost views are never made good, and keep their buffer open. */
  ghost predicate LostKept(s: Store, s': Store, b: TextBuffer) {
    && b in s.buffers && b in s'.buffers && s'.buffers[b].lostViews >= s.buffers[b].lostViews
    && (s.buffers[b].lostViews > 0 && s.buffers[b].open ==> s'.buffers[b].open)
  }

  lemma DoKeepsLost(s: Store, e: Event, b: TextBuffer)
    requires Sound(s) && Possible(s, e) && b in s.buffers
    ensures LostKept(s, Do(s, e).store, b)
  {
    hide Sound, Possible;
    LostCounted(s, b);
    if e.NewBuffer? || e.CloseBuffer? || e.NewView? || e.CloseView? {
      CountsMove(s, e, b);
    } else {
      BuffersUntouched(s, e);
      hide Do;
    }
  }

  lemma LostCounted(s: Store, b: TextBuffer)
    requires Sound(s) && b in s.buffers
    ensures s.buffers[b].openViews >= s.buffers[b].lostViews
  {
    assert BufferOk(s, b);
  }

  lemma CountsMove(s: Store, e: Event, b: TextBuffer)
    requires Possible(s, e) && b in s.buffers && s.buffers[b].openViews >= s.buffers[b].lostViews
    requires e.NewBuffer? || e.CloseBuffer? || e.NewView? || e.CloseView?
    ensures LostKept(s, Do(s, e).store, b)
  {
  }

  lemma LostRefusesClose(s: Store, b: TextBuffer)
    requires Sound(s) && b in s.buffers && s.buffers[b].open && s.buffers[b].lostViews > 0
    ensures Do(s, CloseBuffer(b)).answer == Refused(InvalidArgument)
  {
    assert BufferOk(s, b);
  }

  lemma BuffersUntouched(s: Store, e: Event)
    requires Possible(s, e) && !e.NewBuffer? && !e.CloseBuffer? && !e.NewView? && !e.CloseView?
    ensures Do(s, e).store.buffers == s.buffers
  {
    hide CreateStep, FreeStep, FreeAllStep, InsertStep, RemoveStep, MoveStep, UnclaimStep, LeafOf, LeafAnswer,
         SetFlags, Retarget, MarkNode, Resolves;
  }

  /**
  A view whose object could not be made after it was counted keeps its buffer open for good: over every
  run from there the buffer stays open, and every close of it is refused.
  */
  lemma {:induction false} LostViewForEver(s: Store, events: seq<Event>, b: TextBuffer)
    requires Sound(s) && Runs(s, events)
    requires b in s.buffers && s.buffers[b].open && s.buffers[b].lostViews > 0
    ensures var s' := After(s, events);
            && b in s'.buffers && s'.buffers[b].open && s'.buffers[b].lostViews > 0
            && Do(s', CloseBuffer(b)).answer == Refused(InvalidArgument)
    decreases |events|
  {
    hide Sound, Do;
    if events == [] {
      LostRefusesClose(s, b);
    } else {
      DoKeepsSound(s, events[0]);
      DoKeepsLost(s, events[0], b);
      LostViewForEver(Do(s, events[0]).store, events[1..], b);
    }
  }

  /** A new view loses its count exactly when the allocation fails after a native success on an open buffer. */
  lemma ViewLostExactly(s: Store, v: View, b: TextBuffer, native: Status, failing: Failing)
    requires Sound(s) && v !in s.views && b in s.buffers
    ensures var s' := Do(s, NewView(v, b, native, failing)).store;
            s'.buffers[b].openViews - |OpenViews(s'.views, b)| > s.buffers[b].openViews - |OpenViews(s.views, b)|
            <==> s.buffers[b].open && native == Success && failing.Late?
  {
    NewViewKeepsSound(s, v, b, native, failing);
    var s' := Do(s, NewView(v, b, native, failing)).store;
    assert BufferOk(s, b) && BufferOk(s', b);
    hide Sound, OpenViews;
  }

  /** A live root in the table that no node object names: its creation raised. */
  ghost predicate Orphan(s: Store, h: nat) {
    && Resolves(s.yoga.slots, h) && ParentOf(s.yoga.slots, h) == 0
    && forall n :: n in s.nodes ==> s.nodes[n].handle != h
  }

  /** The operation does not name node h. */
  predicate Spares(op: Op, h: nat) {
    match op
    case Create(_) => true
    case Free(k) => k != h
    case FreeAll(k) => k != h
    case Insert(_, child, _) => child != h
    case Remove(_, child) => child != h
    case Move(_, _, _) => true
    case Claim(_) => true
    case Unclaim(_) => true
    case SetMeasured(_, _) => true
  }

  lemma SparedRootStays(y: Yoga, op: Op, h: nat)
    requires Valid(y) && Spares(op, h) && Resolves(y.slots, h) && ParentOf(y.slots, h) == 0
    ensures Resolves(Step(y, op).state.slots, h) && ParentOf(Step(y, op).state.slots, h) == 0
  {
    hide Valid, Handle, Index, Generation, Under, Descendants;
    ResolvedHandle(y.slots, h);
    match op
    case Create(_) =>
    case Free(k) =>
      if Resolves(y.slots, k) {
        ResolvedHandle(y.slots, k);
      }
    case FreeAll(k) =>
      if Resolves(y.slots, k) {
        RootOutside(y.slots, k, h);
      }
    case Insert(_, child, _) =>
      if Resolves(y.slots, child) {
        ResolvedHandle(y.slots, child);
      }
    case Remove(_, child) =>
      if Resolves(y.slots, child) {
        ResolvedHandle(y.slots, child);
      }
    case _ =>
  }

  /** A root lies in no other root's subtree. */
  lemma RootOutside(t: Table, root: nat, h: nat)
    requires Resolves(t, root) && Resolves(t, h) && ParentOf(t, h) == 0 && h != root
    ensures Index(h) !in Subtree(t, root)
  {
    ResolvedHandle(t, root);
    ResolvedHandle(t, h);
    UnderStep(t, root, h);
    NothingUnderZero(t, root);
  }

  /** Whatever is done through node objects, an orphan stays an orphan: its slot is never given back. */
  lemma DoKeepsOrphan(s: Store, e: Event, h: nat)
    requires Sound(s) && Possible(s, e) && Orphan(s, h)
    ensures Orphan(Do(s, e).store, h)
  {
    hide Valid, CountsSound, RenderablesOk, ClaimsUnique, ClaimsHeld, MeasuredAreLeaves, Resolves, ParentOf;
    hide CreateStep, FreeStep, FreeAllStep, InsertStep, RemoveStep, MoveStep;
    hide AttachEffect, SetTargetEffect, ClearTargetEffect, CloseRenderableEffect;
    match e
    case NewNode(n, pointer, _) =>
      SparedRootStays(s.yoga, Create(pointer), h);
      CreatedApart(s.yoga, pointer, h);
    case FreeNode(n) => SparedRootStays(s.yoga, Free(s.nodes[n].handle), h);
    case FreeNodes(n) => SparedRootStays(s.yoga, FreeAll(s.nodes[n].handle), h);
    case InsertNode(parent, child, index) =>
      SparedRootStays(s.yoga, Insert(s.nodes[parent].handle, s.nodes[child].handle, index), h);
    case RemoveNode(parent, child) =>
      SparedRootStays(s.yoga, Remove(s.nodes[parent].handle, s.nodes[child].handle), h);
    case MoveNode(parent, child, index) =>
      SparedRootStays(s.yoga, Move(s.nodes[parent].handle, s.nodes[child].handle, index), h);
    case AttachNode(r, n, _) => AttachKeepsRoot(s, e, h);
    case SetTarget(r, _, _) => TargetKeepsRoot(s, e, h);
    case ClearTarget(r, _) => TargetKeepsRoot(s, e, h);
    case CloseRenderable(r, _) => CloseKeepsRoot(s, e, h);
    case _ =>
  }

  lemma CreatedApart(y: Yoga, pointer: nat, h: nat)
    requires Valid(y) && Resolves(y.slots, h)
    ensures CreateStep(y, pointer).state == Step(y, Create(pointer)).state
    ensures CreateStep(y, pointer).status == Success ==> CreateStep(y, pointer).handle != h
  {
    CreateFailsExactlyWhenFull(y, pointer);
  }

  lemma FlagsKeepRoot(y: Yoga, k: nat, claimed: bool, measured: bool, h: nat)
    requires Resolves(y.slots, h) && ParentOf(y.slots, h) == 0
    ensures Resolves(y.slots, k) ==>
              var y' := SetFlags(y, k, claimed, measured);
              Resolves(y'.slots, h) && ParentOf(y'.slots, h) == 0
  {
  }

  lemma MarkKeepsRoot(s: Store, r: Renderable, measured: bool, h: nat)
    requires r in s.renderables && Resolves(s.yoga.slots, h) && ParentOf(s.yoga.slots, h) == 0
    ensures Resolves(MarkNode(s, r, measured).slots, h) && ParentOf(MarkNode(s, r, measured).slots, h) == 0
  {
  }

  lemma AttachKeepsRoot(s: Store, e: Event, h: nat)
    requires e.AttachNode? && e.r in s.renderables && e.n in s.nodes && Orphan(s, h)
    ensures Orphan(AttachEffect(s, e.r, e.n, e.native).store, h)
  {
    hide LeafAnswer, SetFlags;
    FlagsKeepRoot(s.yoga, s.nodes[e.n].handle, true, s.renderables[e.r].measureTarget.Some?, h);
  }

  lemma TargetKeepsRoot(s: Store, e: Event, h: nat)
    requires (e.SetTarget? || e.ClearTarget?) && Possible(s, e) && Orphan(s, h)
    ensures Orphan(Do(s, e).store, h)
  {
    hide LeafAnswer, MarkNode, Retarget;
    MarkKeepsRoot(s, e.r, e.SetTarget?, h);
  }

  lemma CloseKeepsRoot(s: Store, e: Event, h: nat)
    requires e.CloseRenderable? && e.r in s.renderables && Orphan(s, h)
    ensures Orphan(CloseRenderableEffect(s, e.r, e.native).store, h)
  {
    MarkKeepsRoot(s, e.r, false, h);
  }

  lemma {:induction false} OrphanForEver(s: Store, events: seq<Event>, h: nat)
    requires Sound(s) && Runs(s, events) && Orphan(s, h)
    ensures Orphan(After(s, events), h)
    decreases |events|
  {
    hide Sound, Do, Orphan;
    if events != [] {
      DoKeepsSound(s, events[0]);
      DoKeepsOrphan(s, events[0], h);
      OrphanForEver(Do(s, events[0]).store, events[1..], h);
    }
  }

  /**
  The node a creation makes is left an orphan exactly when the creation raises, unless an object made
  65535 allocations of the slot ago, or a multiple of that, still carries the same handle.
  */
  lemma OrphanMadeExactly(s: Store, n: Node, pointer: nat, raises: bool)
    requires Sound(s) && Possible(s, NewNode(n, pointer, raises)) && CreateStep(s.yoga, pointer).status == Success
    ensures var h := CreateStep(s.yoga, pointer).handle;
            Orphan(Do(s, NewNode(n, pointer, raises)).store, h)
            <==> (raises && forall m :: m in s.nodes ==> s.nodes[m].handle != h)
  {
    CreateFailsExactlyWhenFull(s.yoga, pointer);
    var i := FirstFree(s.yoga.slots, 1);
    HandleRoundTrip(i, AllocatedGeneration(s.yoga.slots[i].generation));
    var s' := Do(s, NewNode(n, pointer, raises)).store;
    if raises {
      assert s'.nodes == s.nodes;
    } else {
      assert n in s'.nodes && s'.nodes[n].handle == CreateStep(s.yoga, pointer).handle;
    }
    hide Valid, CreateStep;
  }

  // ---- Two runs from the empty store ----

  /** A first buffer whose first view is lost: it counts one view, has none, and cannot be closed. */
  lemma LostViewExample(capacity: nat, b: TextBuffer, v: View)
    ensures var s := Do(Empty(capacity), NewBuffer(b, Success, false)).store;
            var d := Do(s, NewView(v, b, Success, Late));
            && d.answer == Raised && d.store.buffers == map[b := BufferFields(true, 1, 1)] && d.store.views == map[]
            && d.store.strays == 1
            && Do(d.store, CloseBuffer(b)) == Effect(d.store, Refused(InvalidArgument))
  {
  }

  /** A first node whose creation raises: slot 1 is live, no object names it. */
  lemma OrphanExample(n: Node, pointer: nat)
    requires pointer != 0
    ensures var d := Do(Empty(2), NewNode(n, pointer, true));
            && d.answer == Raised && d.store.nodes == map[] && Orphan(d.store, Handle(1, 1))
            && CreateStep(d.store.yoga, pointer + 1).status == NativeFailure
  {
    HandleRoundTrip(1, 1);
    assert FirstFree(Empty(2).yoga.slots, 1) == 1;
    var y := CreateStep(Empty(2).yoga, pointer).state;
    assert y.slots[1] == Slot(1, true, false, false, pointer, 0);
    assert FirstFree(y.slots, 1) == 2;
  }
}
