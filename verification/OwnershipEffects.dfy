/**
When each operation on nodes, buffers, views and renderables answers what, and everything that it then
changes. Conditions and changes are stated on the fields of the objects and the slots of the node table.
*/
module OwnershipEffects {
  import opened Handles
  import opened Lists
  import opened Statuses
  import opened YogaForest
  import opened YogaNative
  import opened YogaSpec
  import opened YogaEffects
  import opened Ownership
  import opened OwnershipProofs

  // ---- Changes ----

  /** The node that r holds, if any, has these flags afterwards; nothing else in the table differs. */
  ghost predicate HeldFlagsMoved(s: Store, s': Store, held: Option<Node>, claimed: bool, measured: bool) {
    match held
    case None => s'.yoga == s.yoga
    case Some(n) => n in s.nodes && FlagsMoved(s.yoga, s'.yoga, s.nodes[n].handle, claimed, measured)
  }

  /** One user fewer for the old target, one more for the new one, and nothing else in any view. */
  ghost predicate UsersMoved(views: map<View, ViewFields>, views': map<View, ViewFields>, old_: Option<View>,
                             now: Option<View>) {
    && views'.Keys == views.Keys
    && forall v :: v in views ==>
         && views'[v].(measureUsers := 0) == views[v].(measureUsers := 0)
         && views'[v].measureUsers
            == views[v].measureUsers + (if now == Some(v) then 1 else 0) - (if old_ == Some(v) then 1 else 0)
  }

  /** Of the renderables only the fields of r may differ; nodes, buffers and strays do not. */
  ghost predicate OnlyRenderable(s: Store, s': Store, r: Renderable, f: RenderableFields) {
    && s'.nodes == s.nodes && s'.buffers == s.buffers && s'.strays == s.strays
    && s'.renderables.Keys == s.renderables.Keys && r in s.renderables && s'.renderables[r] == f
    && forall q :: q in s.renderables && q != r ==> s'.renderables[q] == s.renderables[q]
  }

  /** Only the node table differs. */
  ghost predicate OnlyTable(s: Store, s': Store) {
    && s'.nodes == s.nodes && s'.buffers == s.buffers && s'.views == s.views
    && s'.renderables == s.renderables && s'.strays == s.strays
  }

  // ---- Held nodes ----

  lemma TableValid(s: Store)
    requires Sound(s)
    ensures Valid(s.yoga)
  {
  }

  /** The node a renderable holds is known, live and claimed, and measured exactly when there is a target. */
  lemma HeldNode(s: Store, r: Renderable)
    requires Sound(s) && r in s.renderables && s.renderables[r].yogaNode.Some?
    ensures s.renderables[r].open
    ensures var n := s.renderables[r].yogaNode.value;
            && n in s.nodes && !s.nodes[n].freed
            && Resolves(s.yoga.slots, s.nodes[n].handle) && s.yoga.slots[Index(s.nodes[n].handle)].claimed
            && s.yoga.slots[Index(s.nodes[n].handle)].measured == s.renderables[r].measureTarget.Some?
  {
    assert RenderableOk(s, r);
  }

  lemma Target(s: Store, r: Renderable)
    requires Sound(s) && r in s.renderables && s.renderables[r].measureTarget.Some?
    ensures s.renderables[r].open
    ensures var v := s.renderables[r].measureTarget.value; v in s.views && s.views[v].measureUsers > 0
  {
    assert RenderableOk(s, r);
    TargetCounted(s, r);
  }

  lemma OpenViewHasBuffer(s: Store, v: View)
    requires Sound(s) && v in s.views && s.views[v].open
    ensures BufferOpen(s, s.views[v].buffer) && s.views[v].nativeLive
  {
    assert ViewOk(s, v);
  }

  /** Changing the target of a renderable, in terms of what it changes. */
  lemma RetargetedExactly(s: Store, r: Renderable, target: Option<View>)
    requires Sound(s) && r in s.renderables && (target.Some? ==> target.value in s.views)
    ensures var f, d := s.renderables[r], Retargeted(s, r, target);
            && OnlyRenderable(s, d, r, f.(measureTarget := target, nativeTarget := target))
            && HeldFlagsMoved(s, d, f.yogaNode, true, target.Some?)
            && UsersMoved(s.views, d.views, f.measureTarget, target)
  {
    hide Sound, Index, Generation;
    if s.renderables[r].yogaNode.Some? {
      HeldNode(s, r);
    }
    if s.renderables[r].measureTarget.Some? {
      Target(s, r);
    }
  }

  // ---- Renderables ----

  /** The node of the renderable, if it holds one, has no child. */
  ghost predicate HoldsLeaf(s: Store, r: Renderable)
    requires r in s.renderables
  {
    match s.renderables[r].yogaNode
    case None => true
    case Some(n) => n in s.nodes && Childless(s.yoga.slots, s.nodes[n].handle)
  }

  /**
  A target can be set exactly when renderable, view and buffer are open, the native side agrees, and the
  renderable holds no node or one without children.
  */
  lemma SetTargetExactly(s: Store, r: Renderable, v: View, native: Status)
    requires Sound(s) && r in s.renderables && v in s.views
    ensures var answer := Do(s, SetTarget(r, v, native)).answer;
            && (answer == Fine
                <==> && s.renderables[r].open && s.views[v].open && BufferOpen(s, s.views[v].buffer)
                     && HoldsLeaf(s, r) && native == Success)
            && (answer == Closed <==> !s.renderables[r].open || !s.views[v].open)
            && (s.renderables[r].open && s.views[v].open && answer != Fine ==>
                  answer == Refused(if HoldsLeaf(s, r) then native else InvalidArgument))
  {
    hide Sound, Valid, Resolves, Index, Children, Childless;
    TableValid(s);
    if s.views[v].open {
      OpenViewHasBuffer(s, v);
    }
    if s.renderables[r].yogaNode.Some? {
      HeldNode(s, r);
      ChildrenCounted(s.yoga, s.nodes[s.renderables[r].yogaNode.value].handle);
    }
  }

  /** The renderable then measures through the view, here and natively; its node is marked and the users counted. */
  lemma TargetSetExactly(s: Store, r: Renderable, v: View, native: Status)
    requires Sound(s) && r in s.renderables && v in s.views && Do(s, SetTarget(r, v, native)).answer == Fine
    ensures var f, d := s.renderables[r], Do(s, SetTarget(r, v, native)).store;
            && OnlyRenderable(s, d, r, f.(measureTarget := Some(v), nativeTarget := Some(v)))
            && HeldFlagsMoved(s, d, f.yogaNode, true, true)
            && UsersMoved(s.views, d.views, f.measureTarget, Some(v))
  {
    hide Sound, Retargeted;
    RetargetedExactly(s, r, Some(v));
  }

  /** A clear goes ahead exactly when the renderable is open and the native side agrees; target, flag and user go. */
  lemma ClearTargetExactly(s: Store, r: Renderable, native: Status)
    requires Sound(s) && r in s.renderables
    ensures var f, d := s.renderables[r], Do(s, ClearTarget(r, native));
            && d.answer == (if !f.open then Closed else if native == Success then Fine else Refused(native))
            && (d.answer == Fine ==>
                  && OnlyRenderable(s, d.store, r, f.(measureTarget := None, nativeTarget := None))
                  && HeldFlagsMoved(s, d.store, f.yogaNode, true, false)
                  && UsersMoved(s.views, d.store.views, f.measureTarget, None))
  {
    hide Sound, Retargeted;
    RetargetedExactly(s, r, None);
  }

  /** The node is live, unfreed and unclaimed. */
  ghost predicate Claimable(s: Store, n: Node) {
    && n in s.nodes && !s.nodes[n].freed && Resolves(s.yoga.slots, s.nodes[n].handle)
    && !s.yoga.slots[Index(s.nodes[n].handle)].claimed
  }

  /**
  A node can be attached exactly to an open renderable that holds none, when it is unfreed, live and
  unclaimed, the native side agrees, and it has no children if the renderable has a target.
  */
  lemma AttachExactly(s: Store, r: Renderable, n: Node, native: Status)
    requires Sound(s) && r in s.renderables && n in s.nodes
    ensures var f, answer := s.renderables[r], Do(s, AttachNode(r, n, native)).answer;
            && (answer == Fine
                <==> && f.open && f.yogaNode == None && Claimable(s, n) && native == Success
                     && (f.measureTarget.Some? ==> Childless(s.yoga.slots, s.nodes[n].handle)))
            && (answer == Closed <==> !f.open)
            && (f.open && f.yogaNode.Some? ==> answer == Refused(InvalidArgument))
            && (f.open && f.yogaNode == None ==>
                  answer == if s.nodes[n].freed || !Resolves(s.yoga.slots, s.nodes[n].handle) then Refused(StaleHandle)
                            else if !Claimable(s, n)
                                    || (f.measureTarget.Some? && !Childless(s.yoga.slots, s.nodes[n].handle))
                            then Refused(InvalidArgument) else AnswerOf(native))
  {
    hide Sound, Valid, Resolves, Index, Children, Childless;
    TableValid(s);
    if Resolves(s.yoga.slots, s.nodes[n].handle) {
      ChildrenCounted(s.yoga, s.nodes[n].handle);
    }
  }

  /** The renderable then holds the node, here and natively; the node is claimed, and measured if there is a target. */
  lemma AttachedExactly(s: Store, r: Renderable, n: Node, native: Status)
    requires Sound(s) && r in s.renderables && n in s.nodes && Do(s, AttachNode(r, n, native)).answer == Fine
    ensures var f, d := s.renderables[r], Do(s, AttachNode(r, n, native)).store;
            && OnlyRenderable(s, d, r, f.(yogaNode := Some(n), nativeNode := Some(n))) && d.views == s.views
            && FlagsMoved(s.yoga, d.yoga, s.nodes[n].handle, true, f.measureTarget.Some?)
  {
    hide Sound, Children;
  }

  /** An open renderable closes exactly when the native side agrees; closing again is harmless. */
  lemma CloseRenderableExactly(s: Store, r: Renderable, native: Status)
    requires Sound(s) && r in s.renderables
    ensures var f, d := s.renderables[r], Do(s, CloseRenderable(r, native));
            && d.answer == (if f.open && native != Success then Refused(native) else Fine)
            && (!f.open ==> d.store == s)
  {
    hide Sound, Retargeted, Dropped;
  }

  /**
  It is then closed, holds nothing and measures through nothing; its node is live, unclaimed and unmeasured,
  its view has one user fewer, and every other object and slot is as before.
  */
  lemma RenderableClosedExactly(s: Store, r: Renderable, native: Status)
    requires Sound(s) && r in s.renderables && s.renderables[r].open && native == Success
    ensures var f, d := s.renderables[r], Do(s, CloseRenderable(r, native)).store;
            && OnlyRenderable(s, d, r, RenderableFields(false, None, None, None, None))
            && HeldFlagsMoved(s, d, f.yogaNode, false, false)
            && (f.yogaNode.Some? ==> Resolves(d.yoga.slots, s.nodes[f.yogaNode.value].handle))
            && UsersMoved(s.views, d.views, f.measureTarget, None)
  {
    hide Sound, Retargeted, Index, Generation;
    RetargetedExactly(s, r, None);
    if s.renderables[r].yogaNode.Some? {
      HeldNode(s, r);
    }
  }

  /** A new renderable holds nothing. */
  lemma NewRenderableExactly(s: Store, r: Renderable, native: Status, raises: bool)
    requires r !in s.renderables
    ensures var d := Do(s, NewRenderable(r, native, raises));
            && (d.answer == Fine <==> native == Success && !raises)
            && (d.answer == Raised <==> raises)
            && (raises ==> d.store == s.(strays := s.strays + if native == Success then 1 else 0))
            && (d.answer == Fine ==>
                  OnlyRenderable(s.(renderables := d.store.renderables), d.store, r,
                                 RenderableFields(true, None, None, None, None))
                  && d.store.renderables - {r} == s.renderables && d.store.views == s.views && d.store.yoga == s.yoga)
  {
  }

  // ---- Buffers and views ----

  /** Of the buffers and views only the fields of b and v may differ; nothing else does. */
  ghost predicate OnlyText(s: Store, s': Store, b: TextBuffer, bf: BufferFields) {
    && s'.yoga == s.yoga && s'.nodes == s.nodes && s'.renderables == s.renderables && s'.strays == s.strays
    && b in s'.buffers && s'.buffers[b] == bf && s'.buffers.Keys == s.buffers.Keys + {b}
    && forall c :: c in s.buffers && c != b ==> s'.buffers[c] == s.buffers[c]
  }

  /** A new buffer is open and counts no view. */
  lemma NewBufferExactly(s: Store, b: TextBuffer, native: Status, raises: bool)
    requires b !in s.buffers
    ensures var d := Do(s, NewBuffer(b, native, raises));
            && (d.answer == Fine <==> native == Success && !raises)
            && (d.answer == Raised <==> raises)
            && (raises ==> d.store == s.(strays := s.strays + if native == Success then 1 else 0))
            && (d.answer == Fine ==> OnlyText(s, d.store, b, BufferFields(true, 0, 0)) && d.store.views == s.views)
  {
  }

  /** A view is made exactly on an open buffer that the native side and the allocations agree to; it is then counted. */
  lemma NewViewExactly(s: Store, v: View, b: TextBuffer, native: Status, failing: Failing)
    requires v !in s.views && b in s.buffers
    ensures var f, d := s.buffers[b], Do(s, NewView(v, b, native, failing));
            && (d.answer == Fine <==> f.open && native == Success && failing.Never?)
            && (d.answer == Closed <==> !f.open)
            && (d.answer == Raised <==> f.open && (failing.Early? || (failing.Late? && native == Success)))
            && (d.answer == Raised ==>
                  && d.store.strays == s.strays + (if native == Success then 1 else 0) && d.store.views == s.views
                  && OnlyText(s.(strays := d.store.strays), d.store, b,
                              if failing.Early? then f
                              else f.(openViews := f.openViews + 1, lostViews := f.lostViews + 1)))
            && (d.answer == Fine ==>
                  && OnlyText(s, d.store, b, f.(openViews := f.openViews + 1))
                  && v in d.store.views && d.store.views[v] == ViewFields(b, true, 0, true)
                  && d.store.views - {v} == s.views)
  {
  }

  /** The user count of a view is 0 exactly when no renderable targets it; an open view is counted on its buffer. */
  lemma ViewUsers(s: Store, v: View)
    requires Sound(s) && v in s.views
    ensures s.views[v].measureUsers == 0
            <==> !exists r :: r in s.renderables && s.renderables[r].measureTarget == Some(v)
    ensures s.views[v].measureUsers > 0 ==> s.views[v].open
    ensures s.views[v].buffer in s.buffers
    ensures s.views[v].open ==> s.buffers[s.views[v].buffer].openViews > 0
  {
    assert ViewOk(s, v) && BufferOk(s, s.views[v].buffer);
    hide Sound, OpenViews;
    if r :| r in s.renderables && s.renderables[r].measureTarget == Some(v) {
      assert r in Users(s.renderables, v);
    }
    NoUsers(s.renderables, v);
    if s.views[v].open {
      OpenViewCounted(s.views, v);
    }
  }

  lemma NoUsers(rs: Renderables, v: View)
    ensures (forall r :: r in rs ==> rs[r].measureTarget != Some(v)) ==> |Users(rs, v)| == 0
  {
    if forall r :: r in rs ==> rs[r].measureTarget != Some(v) {
      assert Users(rs, v) == {};
    }
  }

  lemma OpenViewCounted(views: map<View, ViewFields>, v: View)
    requires v in views && views[v].open
    ensures |OpenViews(views, views[v].buffer)| > 0
  {
    assert v in OpenViews(views, views[v].buffer);
  }

  /**
  An open view without users closes, here and natively, and its buffer counts one view fewer; a closed
  one is left alone.
  */
  lemma CloseViewExactly(s: Store, v: View)
    requires Sound(s) && v in s.views
    ensures var f, d := s.views[v], Do(s, CloseView(v));
            && (d.answer == Fine <==> !exists r :: r in s.renderables && s.renderables[r].measureTarget == Some(v))
            && (d.answer != Fine ==> d.answer == Refused(InvalidArgument))
            && (!f.open ==> d.store == s)
            && (f.open && d.answer == Fine ==>
                  && f.buffer in s.buffers && s.buffers[f.buffer].openViews > 0
                  && OnlyText(s, d.store, f.buffer,
                              s.buffers[f.buffer].(openViews := s.buffers[f.buffer].openViews - 1))
                  && v in d.store.views && d.store.views[v] == f.(open := false, nativeLive := false)
                  && d.store.views - {v} == s.views - {v})
  {
    hide Sound, Users, OpenViews;
    ViewUsers(s, v);
    if s.views[v].open {
      OpenViewHasBuffer(s, v);
    }
  }

  /** An open buffer closes exactly when no open view reads it and no view of it was lost; closing again is harmless. */
  lemma CloseBufferExactly(s: Store, b: TextBuffer)
    requires Sound(s) && b in s.buffers
    ensures var f, d := s.buffers[b], Do(s, CloseBuffer(b));
            && (d.answer == Fine
                <==> !f.open
                     || (f.lostViews == 0 && !exists v :: v in s.views && s.views[v].open && s.views[v].buffer == b))
            && (d.answer != Fine ==> d.answer == Refused(InvalidArgument))
            && (!f.open ==> d.store == s)
            && (f.open && d.answer == Fine ==>
                  OnlyText(s, d.store, b, f.(open := false)) && d.store.views == s.views)
  {
    assert BufferOk(s, b);
    assert forall v :: v in s.views && s.views[v].open && s.views[v].buffer == b <==> v in OpenViews(s.views, b);
    if OpenViews(s.views, b) != {} {
      assert |OpenViews(s.views, b)| > 0;
    }
    hide Sound, OpenViews;
  }

  // ---- Nodes ----

  /** Only the freed flag of n and the node table differ. */
  ghost predicate OnlyNode(s: Store, s': Store, n: Node, f: NodeFields) {
    && s'.buffers == s.buffers && s'.views == s.views && s'.renderables == s.renderables && s'.strays == s.strays
    && n in s'.nodes && s'.nodes[n] == f && s'.nodes.Keys == s.nodes.Keys + {n}
    && forall m :: m in s.nodes && m != n ==> s'.nodes[m] == s.nodes[m]
  }

  /** A node is made exactly when the native side made one, a slot is free and the object can be allocated. */
  lemma NewNodeExactly(s: Store, n: Node, pointer: nat, raises: bool)
    requires Sound(s) && Possible(s, Event.NewNode(n, pointer, raises))
    ensures var d := Do(s, NewNode(n, pointer, raises));
            && (d.answer == Fine
                <==> !raises && pointer != 0 && exists i :: 0 < i < |s.yoga.slots| && !Live(s.yoga.slots, i))
            && (d.answer == Raised <==> raises)
            && (d.answer == Fine ==>
                  && n in d.store.nodes
                  && var h := d.store.nodes[n].handle;
                     && OnlyNode(s, d.store, n, NodeFields(h, false))
                     && 0 < Index(h) < |s.yoga.slots| && !Live(s.yoga.slots, Index(h)) && !Resolves(s.yoga.slots, h)
                     && |d.store.yoga.slots| == |s.yoga.slots|
                     && d.store.yoga.slots[Index(h)] == Slot(Generation(h), true, false, false, pointer, 0)
                     && SameElsewhere(s.yoga.slots, d.store.yoga.slots, {Index(h)}))
  {
    hide Sound, Valid, CreateStep, Resolves, Index, Generation;
    TableValid(s);
    CreateFailsExactlyWhenFull(s.yoga, pointer);
    if CreateStep(s.yoga, pointer).status == Success {
      CreatedExactly(s.yoga, pointer);
    }
  }

  /** A node that was not freed is freed exactly when it is live, held by no renderable, a root and without children. */
  lemma FreeNodeExactly(s: Store, n: Node)
    requires Sound(s) && n in s.nodes && !s.nodes[n].freed
    ensures var h, d := s.nodes[n].handle, Do(s, FreeNode(n));
            && (d.answer == Fine
                <==> && Resolves(s.yoga.slots, h) && ParentOf(s.yoga.slots, h) == 0 && Childless(s.yoga.slots, h)
                     && !Held(s.nodes, s.renderables, h))
            && (d.answer != Fine ==>
                  d.answer == Refused(if Resolves(s.yoga.slots, h) then InvalidArgument else StaleHandle))
            && (d.answer == Fine ==>
                  && OnlyNode(s, d.store, n, NodeFields(h, true))
                  && !Resolves(d.store.yoga.slots, h) && SameElsewhere(s.yoga.slots, d.store.yoga.slots, {Index(h)})
                  && s.yoga.slots[Index(h)].node !in d.store.yoga.native
                  && SameLists(s.yoga.native, d.store.yoga.native, {s.yoga.slots[Index(h)].node}))
  {
    hide Sound, Valid, FreeStep, Resolves, Index, Held, Childless;
    TableValid(s);
    var h := s.nodes[n].handle;
    FreeExactly(s.yoga, h);
    if FreeStep(s.yoga, h).status == Success {
      FreedExactly(s.yoga, h);
    } else {
      RefusalChangesNothing(s.yoga, Op.Free(h));
    }
    if Resolves(s.yoga.slots, h) {
      ResolvedHandle(s.yoga.slots, h);
      ClaimOneToOne(s, Index(h));
    }
  }

  /** A node that was not freed is freed with all below it exactly when it is a live root and none of them is held. */
  lemma FreeNodesExactly(s: Store, n: Node)
    requires Sound(s) && n in s.nodes && !s.nodes[n].freed
    ensures var h, d := s.nodes[n].handle, Do(s, FreeNodes(n));
            && (d.answer == Fine
                <==> && Resolves(s.yoga.slots, h) && ParentOf(s.yoga.slots, h) == 0
                     && forall i :: Below(s.yoga.slots, h, i) ==>
                          !Held(s.nodes, s.renderables, HandleOf(s.yoga.slots, i)))
            && (d.answer != Fine ==>
                  d.answer == Refused(if Resolves(s.yoga.slots, h) then InvalidArgument else StaleHandle))
            && (d.answer == Fine ==>
                  && OnlyNode(s, d.store, n, NodeFields(h, true))
                  && |d.store.yoga.slots| == |s.yoga.slots|
                  && forall i: nat :: i < |s.yoga.slots| ==>
                       if Below(s.yoga.slots, h, i) then
                         !d.store.yoga.slots[i].alive && s.yoga.slots[i].node !in d.store.yoga.native
                       else d.store.yoga.slots[i] == s.yoga.slots[i])
  {
    hide Sound, Valid, FreeAllStep, Resolves, Index, Held, Under;
    TableValid(s);
    var h := s.nodes[n].handle;
    RecursiveFreeAllowed(s.yoga, h);
    if FreeAllStep(s.yoga, h).status == Success {
      FreedAllExactly(s.yoga, h);
    } else {
      RefusalChangesNothing(s.yoga, Op.FreeAll(h));
    }
    forall i | Below(s.yoga.slots, h, i)
      ensures s.yoga.slots[i].claimed <==> Held(s.nodes, s.renderables, HandleOf(s.yoga.slots, i))
    {
      ClaimOneToOne(s, i);
    }
  }

  /** A node freed once is left alone by both frees. */
  lemma FreedNodeStays(s: Store, n: Node)
    requires n in s.nodes && s.nodes[n].freed
    ensures Do(s, FreeNode(n)) == Effect(s, Fine) && Do(s, FreeNodes(n)) == Effect(s, Fine)
  {
  }

  /** Inserting goes ahead exactly between unfreed live nodes, under an unmeasured one, in range and without a cycle. */
  lemma InsertNodeExactly(s: Store, parent: Node, child: Node, index: int)
    requires Sound(s) && parent in s.nodes && child in s.nodes
    ensures var t, p, c := s.yoga.slots, s.nodes[parent].handle, s.nodes[child].handle;
            var d := Do(s, InsertNode(parent, child, index));
            && (d.answer == Fine
                <==> && !s.nodes[parent].freed && !s.nodes[child].freed && Resolves(t, p) && Resolves(t, c)
                     && !t[Index(p)].measured && ParentOf(t, c) == 0 && !Under(t, c, p)
                     && 0 <= index <= |ChildSlots(t, p)|)
            && OnlyTable(s, d.store)
            && (d.answer == Fine || d.answer == Refused(StaleHandle) || d.answer == Refused(InvalidArgument))
            && (d.answer == Refused(StaleHandle)
                <==> || s.nodes[parent].freed || s.nodes[child].freed
                     || (index >= 0 && !(Resolves(t, p) && Resolves(t, c))))
            && (d.answer == Fine ==>
                  && d.store.yoga == InsertStep(s.yoga, p, c, index).state
                  && SameElsewhere(t, d.store.yoga.slots, {Index(c)})
                  && d.store.yoga.slots[Index(c)] == t[Index(c)].(parent := p))
  {
    hide Sound, Valid, InsertStep, Resolves, Index, Under, ChildSlots;
    TableValid(s);
    var p, c := s.nodes[parent].handle, s.nodes[child].handle;
    InsertExactly(s.yoga, p, c, index);
    if InsertStep(s.yoga, p, c, index).status == Success {
      InsertedExactly(s.yoga, p, c, index);
    } else {
      RefusalChangesNothing(s.yoga, Op.Insert(p, c, index));
    }
  }

  /** Removing goes ahead exactly on an unfreed live child of an unfreed live parent; moving only in range too. */
  lemma RemoveAndMoveExactly(s: Store, parent: Node, child: Node, index: int)
    requires Sound(s) && parent in s.nodes && child in s.nodes
    ensures var t, p, c := s.yoga.slots, s.nodes[parent].handle, s.nodes[child].handle;
            var related := !s.nodes[parent].freed && !s.nodes[child].freed && Resolves(t, p) && Resolves(t, c)
                           && t[Index(c)].parent == p;
            var d, e := Do(s, RemoveNode(parent, child)), Do(s, MoveNode(parent, child, index));
            && (d.answer == Fine <==> related)
            && (e.answer == Fine <==> related && 0 <= index < |ChildSlots(t, p)|)
            && (!(Resolves(t, p) && Resolves(t, c)) ==> d.answer == Refused(StaleHandle))
            && (!related && !s.nodes[parent].freed && !s.nodes[child].freed && Resolves(t, p) && Resolves(t, c) ==>
                  d.answer == e.answer == Refused(InvalidArgument))
            && OnlyTable(s, d.store) && OnlyTable(s, e.store) && e.store.yoga.slots == t
            && (e.answer == Fine ==> e.store.yoga == MoveStep(s.yoga, p, c, index).state)
            && (d.answer == Fine ==>
                  && d.store.yoga == RemoveStep(s.yoga, p, c).state
                  && SameElsewhere(t, d.store.yoga.slots, {Index(c)})
                  && d.store.yoga.slots[Index(c)] == t[Index(c)].(parent := 0))
  {
    hide Sound, Valid, RemoveStep, Resolves, Index, ChildSlots, Without, InsertAt;
    TableValid(s);
    var p, c := s.nodes[parent].handle, s.nodes[child].handle;
    RemoveExactly(s.yoga, p, c);
    MoveExactly(s.yoga, p, c, index);
    if RemoveStep(s.yoga, p, c).status == Success {
      RemovedExactly(s.yoga, p, c);
    } else {
      RefusalChangesNothing(s.yoga, Op.Remove(p, c));
    }
    if MoveStep(s.yoga, p, c, index).status != Success {
      RefusalChangesNothing(s.yoga, Op.Move(p, c, index));
    }
  }
}
