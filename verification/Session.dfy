/**
The typed operations as the bindings run them: object by object and step by step, with their
rollbacks, over the node registry. Each is proved to have exactly the effect given in Ownership. A
ghost result records whether a step that only a broken invariant could reach was ever taken.
*/
module Session {
  import opened Handles
  import opened Statuses
  import opened YogaForest
  import opened YogaNative
  import opened YogaSpec
  import opened YogaRegistry
  import opened Ownership
  import opened OwnershipProofs

  ghost function FieldsOf(r: Renderable): RenderableFields
    reads r
  {
    RenderableFields(r.open, r.yogaNode, r.measureTarget, r.nativeNode, r.nativeTarget)
  }

  ghost predicate NodesLinked(nodes: Nodes, except: set<Node>)
    reads nodes.Keys - except
  {
    forall n :: n in nodes && n !in except ==> nodes[n] == NodeFields(n.handle, n.freed)
  }

  ghost predicate BuffersLinked(buffers: map<TextBuffer, BufferFields>, except: set<TextBuffer>)
    reads buffers.Keys - except
  {
    forall b :: b in buffers && b !in except ==> buffers[b] == BufferFields(b.open, b.openViews, b.lostViews)
  }

  ghost function FieldsOfView(v: View): ViewFields
    reads v
  {
    ViewFields(v.buffer, v.open, v.measureUsers, v.nativeLive)
  }

  ghost predicate ViewsLinked(views: map<View, ViewFields>, except: set<View>)
    reads views.Keys - except
  {
    forall v :: v in views && v !in except ==> views[v] == FieldsOfView(v)
  }

  lemma RelinkViews(views: map<View, ViewFields>, v: View, w: View)
    requires ViewsLinked(views, {v, w})
    ensures ViewsLinked(views[v := FieldsOfView(v)][w := FieldsOfView(w)], {})
  {
  }

  lemma UnlinkViews(views: map<View, ViewFields>, v: View, w: View)
    requires ViewsLinked(views, {}) && v in views && w in views
    ensures ViewsLinked(views, {v, w}) && views[v] == FieldsOfView(v) && views[w] == FieldsOfView(w)
  {
  }

  ghost predicate RenderablesLinked(renderables: Renderables, except: set<Renderable>)
    reads renderables.Keys - except
  {
    forall r :: r in renderables && r !in except ==> renderables[r] == FieldsOf(r)
  }

  lemma RelinkRenderable(renderables: Renderables, r: Renderable)
    requires RenderablesLinked(renderables, {r})
    ensures RenderablesLinked(renderables[r := FieldsOf(r)], {})
  {
  }

  lemma UnlinkRenderable(renderables: Renderables, r: Renderable)
    requires RenderablesLinked(renderables, {}) && r in renderables
    ensures RenderablesLinked(renderables, {r}) && renderables[r] == FieldsOf(r)
  {
  }

  lemma NodeLinked(nodes: Nodes, n: Node)
    requires NodesLinked(nodes, {}) && n in nodes
    ensures NodesLinked(nodes, {n}) && nodes[n] == NodeFields(n.handle, n.freed)
  {
  }

  lemma RelinkNode(nodes: Nodes, n: Node)
    requires NodesLinked(nodes, {n})
    ensures NodesLinked(nodes[n := NodeFields(n.handle, n.freed)], {})
  {
  }

  lemma UnlinkBuffer(buffers: map<TextBuffer, BufferFields>, b: TextBuffer)
    requires BuffersLinked(buffers, {}) && b in buffers
    ensures BuffersLinked(buffers, {b}) && buffers[b] == BufferFields(b.open, b.openViews, b.lostViews)
  {
  }

  lemma RelinkBuffer(buffers: map<TextBuffer, BufferFields>, b: TextBuffer)
    requires BuffersLinked(buffers, {b})
    ensures BuffersLinked(buffers[b := BufferFields(b.open, b.openViews, b.lostViews)], {})
  {
  }

  lemma RelinkView(views: map<View, ViewFields>, v: View)
    requires ViewsLinked(views, {v})
    ensures ViewsLinked(views[v := FieldsOfView(v)], {})
  {
  }

  lemma UnlinkView(views: map<View, ViewFields>, v: View)
    requires ViewsLinked(views, {}) && v in views
    ensures ViewsLinked(views, {v}) && views[v] == FieldsOfView(v)
  {
  }

  /** Giving a fresh claim back leaves the table as it was. */
  lemma RollbackRestores(y: Yoga, h: nat, measured: bool)
    requires Valid(y) && Resolves(y.slots, h) && !y.slots[Index(h)].claimed
    ensures SetFlags(SetFlags(y, h, true, measured), h, false, false) == y
  {
    assert SlotOk(y.slots, Index(h));
    assert y.slots[Index(h)].(claimed := false, measured := false) == y.slots[Index(h)];
  }

  /** Claiming and then marking is one change of both flags. */
  lemma ClaimThenMark(y: Yoga, h: nat)
    requires Valid(y) && Resolves(y.slots, h) && !y.slots[Index(h)].claimed
    ensures ClaimStep(y, h).state == SetFlags(y, h, true, false)
    ensures SetMeasuredStep(ClaimStep(y, h).state, h, true) == Outcome(SetFlags(y, h, true, true), Success, 0)
  {
    assert SlotOk(y.slots, Index(h));
  }

  lemma SoundTable(s: Store)
    requires Sound(s)
    ensures Valid(s.yoga)
  {
  }

  class Bindings {
    const registry: Registry

    /** The objects and the registry carry exactly the values of the store. */
    ghost predicate Linked(s: Store)
      reads registry, registry.slots, s.nodes.Keys, s.buffers.Keys, s.views.Keys, s.renderables.Keys
    {
      && registry.State() == s.yoga
      && NodesLinked(s.nodes, {})
      && BuffersLinked(s.buffers, {})
      && ViewsLinked(s.views, {})
      && RenderablesLinked(s.renderables, {})
    }

    ghost predicate Ok(s: Store)
      reads registry, registry.slots, s.nodes.Keys, s.buffers.Keys, s.views.Keys, s.renderables.Keys
    {
      Linked(s) && Sound(s)
    }

    constructor (capacity: nat)
      requires 1 < capacity <= SLOT_LIMIT
      ensures Ok(Empty(capacity)) && fresh(registry) && fresh(registry.slots)
    {
      registry := new Registry(capacity);
      new;
      EmptySound(capacity);
    }

    // ---- Steps on one node, as the typed layer guards them ----

    method ClaimNode(n: Node) returns (answer: Answer)
      requires registry.Ok()
      modifies registry.slots
      ensures registry.Ok()
      ensures if n.freed then answer == Refused(StaleHandle) && registry.State() == old(registry.State())
              else var o := ClaimStep(old(registry.State()), n.handle);
                   answer == AnswerOf(o.status) && registry.State() == o.state
    {
      if n.freed {
        return Refused(StaleHandle);
      }
      var status := registry.ClaimNativeRenderable(n.handle);
      answer := AnswerOf(status);
    }

    method ReleaseNode(n: Node) returns (answer: Answer)
      requires registry.Ok()
      modifies registry.slots
      ensures registry.Ok()
      ensures if n.freed then answer == Refused(StaleHandle) && registry.State() == old(registry.State())
              else var o := UnclaimStep(old(registry.State()), n.handle);
                   answer == AnswerOf(o.status) && registry.State() == o.state
    {
      if n.freed {
        return Refused(StaleHandle);
      }
      var status := registry.ReleaseNativeRenderable(n.handle);
      answer := AnswerOf(status);
    }

    method MarkMeasured(n: Node, attached: bool) returns (answer: Answer)
      requires registry.Ok()
      modifies registry.slots
      ensures registry.Ok()
      ensures if n.freed then answer == Refused(StaleHandle) && registry.State() == old(registry.State())
              else var o := SetMeasuredStep(old(registry.State()), n.handle, attached);
                   answer == AnswerOf(o.status) && registry.State() == o.state
    {
      if n.freed {
        return Refused(StaleHandle);
      }
      var status := registry.SetNativeMeasureAttached(n.handle, attached);
      answer := AnswerOf(status);
    }

    method EnsureLeaf(n: Node) returns (answer: Answer)
      requires registry.Ok()
      ensures answer == LeafOf(registry.State(), NodeFields(n.handle, n.freed))
    {
      if n.freed {
        return Refused(StaleHandle);
      }
      var status, count := registry.ChildCount(n.handle);
      if status != Success {
        return AnswerOf(status);
      }
      answer := if count == 0 then Fine else Refused(InvalidArgument);
    }

    /** Takes back a claim, clearing the measure flag first when it was set. */
    method ReleaseNodeClaim(n: Node, measureAttached: bool) returns (answer: Answer)
      requires registry.Ok() && !n.freed && Resolves(registry.State().slots, n.handle)
      modifies registry.slots
      ensures registry.Ok() && answer == Fine
      ensures registry.State() == SetFlags(old(registry.State()), n.handle, false, false)
    {
      if measureAttached {
        answer := MarkMeasured(n, false);
        if answer != Fine {
          return;
        }
      }
      answer := ReleaseNode(n);
      assert registry.State() == SetFlags(old(registry.State()), n.handle, false, false);
    }

    // ---- Attaching a node ----

    method AttachYogaNode(r: Renderable, n: Node, native: Status, ghost s: Store)
      returns (answer: Answer, ghost defensive: bool)
      requires Ok(s) && r in s.renderables && n in s.nodes
      modifies registry.slots, r
      ensures Ok(AttachEffect(s, r, n, native).store) && !defensive
      ensures answer == AttachEffect(s, r, n, native).answer
    {
      hide Sound, Valid, SetFlags, LeafOf, Resolves, Registry.State, AttachEffect, Attached;
      hide NodesLinked, BuffersLinked, ViewsLinked, RenderablesLinked;
      BeforeAttach(r, n, native, s);
      defensive := false;
      if !r.open {
        return Closed, defensive;
      }
      if r.yogaNode.Some? {
        return Refused(InvalidArgument), defensive;
      }
      if r.measureTarget.Some? {
        answer := EnsureLeaf(n);
        if answer != Fine {
          return;
        }
      }
      answer, defensive := ClaimAndAttach(r, n, native);
      if answer == Fine {
        RelinkAttached(r, n, s);
      }
    }

    /** Everything the objects say before a node is attached, and the effect in their terms. */
    lemma BeforeAttach(r: Renderable, n: Node, native: Status, s: Store)
      requires Ok(s) && r in s.renderables && n in s.nodes
      ensures registry.Ok() && registry.State() == s.yoga && Sound(AttachEffect(s, r, n, native).store)
      ensures NodesLinked(s.nodes, {}) && BuffersLinked(s.buffers, {}) && ViewsLinked(s.views, {})
      ensures RenderablesLinked(s.renderables, {r}) && s.renderables[r] == FieldsOf(r)
      ensures s.nodes[n] == NodeFields(n.handle, n.freed)
      ensures var y, leaf := registry.State(), LeafOf(registry.State(), NodeFields(n.handle, n.freed));
              AttachEffect(s, r, n, native)
              == if !r.open then Effect(s, Closed)
                 else if r.yogaNode.Some? then Effect(s, Refused(InvalidArgument))
                 else if r.measureTarget.Some? && leaf != Fine then Effect(s, leaf)
                 else if n.freed || !Resolves(y.slots, n.handle) then Effect(s, Refused(StaleHandle))
                 else if y.slots[Index(n.handle)].claimed then Effect(s, Refused(InvalidArgument))
                 else if native != Success then Effect(s, Refused(native))
                 else Effect(Attached(s, r, n), Fine)
    {
      hide Sound, Valid, LeafOf, Registry.State, Attached;
      hide NodesLinked, BuffersLinked, ViewsLinked, RenderablesLinked;
      AttachKeepsSound(s, r, n, native);
      SoundTable(s);
      NodeLinked(s.nodes, n);
      UnlinkRenderable(s.renderables, r);
    }

    lemma RelinkAttached(r: Renderable, n: Node, s: Store)
      requires r in s.renderables && n in s.nodes && s.nodes[n].handle == n.handle
      requires Resolves(s.yoga.slots, n.handle)
      requires registry.State() == SetFlags(s.yoga, n.handle, true, s.renderables[r].measureTarget.Some?)
      requires NodesLinked(s.nodes, {}) && BuffersLinked(s.buffers, {}) && ViewsLinked(s.views, {})
      requires RenderablesLinked(s.renderables, {r})
      requires FieldsOf(r) == s.renderables[r].(yogaNode := Some(n), nativeNode := Some(n))
      ensures Linked(Attached(s, r, n))
    {
      hide NodesLinked, BuffersLinked, ViewsLinked, RenderablesLinked, Registry.State, SetFlags;
      RelinkRenderable(s.renderables, r);
    }

    /** The part of attaching that is undone when a later step fails. */
    method ClaimAndAttach(r: Renderable, n: Node, native: Status) returns (answer: Answer, ghost defensive: bool)
      requires registry.Ok()
      modifies registry.slots, r`yogaNode, r`nativeNode
      ensures registry.Ok() && !defensive
      ensures var y, h := old(registry.State()), n.handle;
              answer == if n.freed || !Resolves(y.slots, h) then Refused(StaleHandle)
                        else if y.slots[Index(h)].claimed then Refused(InvalidArgument)
                        else AnswerOf(native)
      ensures if answer == Fine then
                && Resolves(old(registry.State()).slots, n.handle)
                && registry.State() == SetFlags(old(registry.State()), n.handle, true, r.measureTarget.Some?)
                && r.yogaNode == r.nativeNode == Some(n)
              else registry.State() == old(registry.State()) && unchanged(r)
    {
      ghost var y := registry.State();
      defensive := false;
      answer := ClaimNode(n);
      if answer != Fine {
        return;
      }
      var measureAttached := r.measureTarget.Some?;
      ClaimThenMark(y, n.handle);
      RollbackRestores(y, n.handle, measureAttached);
      hide Valid, SetFlags;
      var mark := Fine;
      if measureAttached {
        mark := MarkMeasured(n, true);
      }
      defensive := mark != Fine;
      SetFlagsResolves(y, n.handle, true, measureAttached);
      answer := FinishAttach(r, n, measureAttached, mark, native);
    }

    /** With the claim made and the mark answered: the native attachment, or the claim taken back. */
    method FinishAttach(r: Renderable, n: Node, measureAttached: bool, mark: Answer, native: Status)
      returns (answer: Answer)
      requires registry.Ok() && !n.freed && Resolves(registry.State().slots, n.handle)
      modifies registry.slots, r`yogaNode, r`nativeNode
      ensures registry.Ok() && answer == if mark != Fine then mark else AnswerOf(native)
      ensures answer == Fine ==>
                registry.State() == old(registry.State()) && r.yogaNode == r.nativeNode == Some(n)
      ensures answer != Fine ==>
                registry.State() == SetFlags(old(registry.State()), n.handle, false, false) && unchanged(r)
    {
      hide Valid, SetFlags;
      if mark != Fine {
        var cleanup := ReleaseNodeClaim(n, false);
        return if cleanup == Fine then mark else cleanup;
      }
      answer := AnswerOf(native);
      if answer != Fine {
        var cleanup := ReleaseNodeClaim(n, measureAttached);
        return if cleanup == Fine then answer else cleanup;
      }
      r.nativeNode := Some(n);
      r.yogaNode := Some(n);
    }

    // ---- Setting a measure target ----

    method ReleaseMeasureUser(v: View)
      modifies v`measureUsers
      ensures v.measureUsers == if old(v.measureUsers) > 0 then old(v.measureUsers) - 1 else 0
    {
      if v.measureUsers > 0 {
        v.measureUsers := v.measureUsers - 1;
      }
    }

    /** Tells the native renderable to measure through a view, when view and buffer are open. */
    method NativeSetMeasureView(r: Renderable, v: View, native: Status) returns (answer: Answer)
      modifies r`nativeTarget
      ensures answer == if !v.buffer.open || !v.open then Closed else AnswerOf(native)
      ensures r.nativeTarget == if answer == Fine then Some(v) else old(r.nativeTarget)
    {
      if !v.buffer.open {
        return Closed;
      }
      if !v.open {
        return Closed;
      }
      answer := AnswerOf(native);
      if answer == Fine {
        r.nativeTarget := Some(v);
      }
    }

    ghost function LeafOfHeld(r: Renderable): Answer
      reads registry, registry.slots, r, if r.yogaNode.Some? then {r.yogaNode.value} else {}
    {
      if r.yogaNode.None? then Fine
      else LeafOf(registry.State(), NodeFields(r.yogaNode.value.handle, r.yogaNode.value.freed))
    }

    /** Setting the flag on the node r holds would fail: the node is not claimed. */
    ghost predicate MarkFails(r: Renderable)
      reads registry, registry.slots, r
    {
      && r.yogaNode.Some?
      && Resolves(registry.State().slots, r.yogaNode.value.handle)
      && !registry.State().slots[Index(r.yogaNode.value.handle)].claimed
    }

    /** After the mark: either the old target's user is let go, or the native target is put back. */
    method SettleTarget(r: Renderable, v: View, mark: Answer, restore: Status) returns (answer: Answer)
      requires v.measureUsers > 0
      requires r.measureTarget.Some? && r.measureTarget.value != v ==> r.measureTarget.value.measureUsers > 0
      modifies r`measureTarget, r`nativeTarget, v`measureUsers
      modifies TargetOf(r)`measureUsers
      ensures answer == Fine <==> mark == Fine
      ensures mark == Fine ==>
                && r.measureTarget == Some(v)
                && r.nativeTarget == old(r.nativeTarget)
                && v.measureUsers == old(v.measureUsers) - (if old(r.measureTarget) == Some(v) then 1 else 0)
                && (old(r.measureTarget).Some? && old(r.measureTarget).value != v ==>
                      old(r.measureTarget).value.measureUsers == old(r.measureTarget.value.measureUsers) - 1)
      ensures mark != Fine ==>
                && r.measureTarget == old(r.measureTarget)
                && v.measureUsers == old(v.measureUsers) - 1
                && (r.measureTarget.Some? && r.measureTarget.value != v ==>
                      r.measureTarget.value.measureUsers == old(r.measureTarget.value.measureUsers))
                && (restore == Success
                    && (r.measureTarget.Some? ==> r.measureTarget.value.open && r.measureTarget.value.buffer.open) ==>
                      r.nativeTarget == r.measureTarget)
    {
      var oldTarget := r.measureTarget;
      if mark == Fine {
        if oldTarget.Some? {
          ReleaseMeasureUser(oldTarget.value);
        }
        r.measureTarget := Some(v);
        answer := Fine;
      } else {
        var restored := AnswerOf(restore);
        if oldTarget.Some? {
          restored := NativeSetMeasureView(r, oldTarget.value, restore);
        } else if restored == Fine {
          r.nativeTarget := None;
        }
        ReleaseMeasureUser(v);
        answer := if restored == Fine then mark else restored;
      }
    }

    /**
    The native call and the mark, with what undoes them, for a view already counted as used. When the
    mark fails after the native side has changed, `rolledBack`, everything is still put back.
    */
    method CommitTarget(r: Renderable, v: View, native: Status, restore: Status)
      returns (answer: Answer, ghost rolledBack: bool)
      requires registry.Ok() && v.open && v.measureUsers > 0 && LeafOfHeld(r) == Fine
      requires r.measureTarget.Some? && r.measureTarget.value != v ==> r.measureTarget.value.measureUsers > 0
      modifies registry.slots, r`measureTarget, r`nativeTarget, v`measureUsers
      modifies TargetOf(r)`measureUsers
      ensures registry.Ok()
      ensures rolledBack ==> old(MarkFails(r)) && answer != Fine
      ensures !rolledBack ==> answer == if !v.buffer.open then Closed else AnswerOf(native)
      ensures answer != Fine ==>
                registry.State() == old(registry.State()) && r.measureTarget == old(r.measureTarget)
                && v.measureUsers == old(v.measureUsers) - 1
                && (r.measureTarget.Some? && r.measureTarget.value != v ==>
                      r.measureTarget.value.measureUsers == old(r.measureTarget.value.measureUsers))
      ensures answer != Fine && !rolledBack ==> r.nativeTarget == old(r.nativeTarget)
      ensures rolledBack && restore == Success
              && (r.measureTarget.Some? ==> r.measureTarget.value.open && r.measureTarget.value.buffer.open) ==>
                r.nativeTarget == r.measureTarget
      ensures answer == Fine ==>
                && r.measureTarget == r.nativeTarget == Some(v)
                && registry.State() == Marked(old(registry.State()), r.yogaNode)
                && v.measureUsers == old(v.measureUsers) - (if old(r.measureTarget) == Some(v) then 1 else 0)
                && (old(r.measureTarget).Some? && old(r.measureTarget).value != v ==>
                      old(r.measureTarget).value.measureUsers == old(r.measureTarget.value.measureUsers) - 1)
    {
      hide Valid, SetFlags, Children, LeafOf;
      rolledBack := false;
      answer := NativeSetMeasureView(r, v, native);
      if answer != Fine {
        ReleaseMeasureUser(v);
        return;
      }
      if r.yogaNode.Some? {
        LeafResolves(registry.State(), r.yogaNode.value);
        answer := MarkMeasured(r.yogaNode.value, true);
      }
      rolledBack := answer != Fine;
      answer := SettleTarget(r, v, answer, restore);
    }

    /** Counting the view as used, then the leaf test, then the commit; any failure takes the count back. */
    method ChangeTarget(r: Renderable, v: View, native: Status, restore: Status)
      returns (answer: Answer, ghost rolledBack: bool)
      requires registry.Ok()
      requires r.measureTarget.Some? && r.measureTarget.value != v ==> r.measureTarget.value.measureUsers > 0
      modifies registry.slots, r`measureTarget, r`nativeTarget, v`measureUsers
      modifies TargetOf(r)`measureUsers
      ensures registry.Ok()
      ensures rolledBack ==> old(MarkFails(r)) && answer != Fine
      ensures !rolledBack ==>
                answer == if !v.open then Closed
                          else if old(LeafOfHeld(r)) != Fine then old(LeafOfHeld(r))
                          else if !v.buffer.open then Closed else AnswerOf(native)
      ensures answer != Fine ==>
                registry.State() == old(registry.State()) && r.measureTarget == old(r.measureTarget)
                && v.measureUsers == old(v.measureUsers)
                && (r.measureTarget.Some? ==>
                      r.measureTarget.value.measureUsers == old(r.measureTarget.value.measureUsers))
      ensures answer != Fine && !rolledBack ==> r.nativeTarget == old(r.nativeTarget)
      ensures rolledBack && restore == Success
              && (r.measureTarget.Some? ==> r.measureTarget.value.open && r.measureTarget.value.buffer.open) ==>
                r.nativeTarget == r.measureTarget
      ensures answer == Fine ==>
                && r.measureTarget == r.nativeTarget == Some(v)
                && registry.State() == Marked(old(registry.State()), r.yogaNode)
                && v.measureUsers == old(v.measureUsers) + (if old(r.measureTarget) == Some(v) then 0 else 1)
                && (old(r.measureTarget).Some? && old(r.measureTarget).value != v ==>
                      old(r.measureTarget).value.measureUsers == old(r.measureTarget.value.measureUsers) - 1)
    {
      hide Valid, SetFlags, Children, LeafOf, Marked;
      rolledBack := false;
      if !v.open {
        return Closed, rolledBack;
      }
      v.measureUsers := v.measureUsers + 1;
      if r.yogaNode.Some? {
        answer := EnsureLeaf(r.yogaNode.value);
        if answer != Fine {
          ReleaseMeasureUser(v);
          return;
        }
      }
      answer, rolledBack := CommitTarget(r, v, native, restore);
    }

    /** What the store says of r and of its node and target is what the objects say. */
    lemma HeldFields(r: Renderable, s: Store)
      requires Ok(s) && r in s.renderables
      ensures r.yogaNode.Some? ==>
                r.yogaNode.value in s.nodes
                && s.nodes[r.yogaNode.value] == NodeFields(r.yogaNode.value.handle, r.yogaNode.value.freed)
      ensures !MarkFails(r)
      ensures r.yogaNode.Some? ==> !r.yogaNode.value.freed && Resolves(registry.State().slots, r.yogaNode.value.handle)
      ensures r.measureTarget.Some? ==>
                && r.measureTarget.value in s.views
                && s.views[r.measureTarget.value] == FieldsOfView(r.measureTarget.value)
                && r.measureTarget.value.measureUsers > 0
      ensures registry.Ok()
    {
      hide Valid, ClaimsUnique, ClaimsHeld, MeasuredAreLeaves;
      assert RenderableOk(s, r);
      if r.measureTarget.Some? {
        TargetCounted(s, r);
      }
    }

    lemma ViewFieldsKnown(v: View, s: Store)
      requires Ok(s) && v in s.views
      ensures s.views[v] == FieldsOfView(v) && v.buffer in s.buffers && s.buffers[v.buffer].open == v.buffer.open
    {
      hide ClaimsSound;
      assert ViewOk(s, v);
    }

    /** The fields of r, v and r's old target w after the target changed to v, or was left alone. */
    ghost predicate TargetChanged(r: Renderable, v: View, w: View, changed: bool, s: Store)
      requires r in s.renderables && v in s.views && w in s.views
      reads r, v, w
    {
      var again := s.renderables[r].measureTarget == Some(v);
      if changed then
        && FieldsOf(r) == WithTarget(s.renderables[r], Some(v))
        && FieldsOfView(v) == s.views[v].(measureUsers := s.views[v].measureUsers + if again then 0 else 1)
        && (w != v ==> FieldsOfView(w) == CountUser(s.views, w, -1)[w])
      else
        FieldsOf(r) == s.renderables[r] && FieldsOfView(v) == s.views[v] && FieldsOfView(w) == s.views[w]
    }

    lemma RelinkTarget(r: Renderable, v: View, w: View, changed: bool, s: Store)
      requires r in s.renderables && v in s.views && w in s.views
      requires s.renderables[r].measureTarget == if w == v then s.renderables[r].measureTarget else Some(w)
      requires w == v ==> s.renderables[r].measureTarget.None? || s.renderables[r].measureTarget == Some(v)
      requires registry.State() == if changed then MarkNode(s, r, true) else s.yoga
      requires NodesLinked(s.nodes, {}) && BuffersLinked(s.buffers, {}) && ViewsLinked(s.views, {v, w})
      requires RenderablesLinked(s.renderables, {r})
      requires TargetChanged(r, v, w, changed, s)
      ensures Linked(if changed then Retargeted(s, r, Some(v)) else s)
    {
      hide NodesLinked, BuffersLinked, ViewsLinked, RenderablesLinked, MarkNode, Registry.State;
      RelinkViews(s.views, v, w);
      RelinkRenderable(s.renderables, r);
      var views := s.views[v := FieldsOfView(v)][w := FieldsOfView(w)];
      if changed {
        assert Retarget(s, r, Some(v)) == views;
      } else {
        assert s.views == views && s.renderables == s.renderables[r := FieldsOf(r)];
      }
    }

    /** r's old target, or v itself when there is none. */
    ghost function OldTarget(r: Renderable, v: View): View
      reads r
    {
      if r.measureTarget.Some? then r.measureTarget.value else v
    }

    /** Everything the objects say before a target is set, and the effect in their terms. */
    lemma BeforeTarget(r: Renderable, v: View, native: Status, s: Store)
      requires Ok(s) && r in s.renderables && v in s.views
      ensures OldTarget(r, v) in s.views
      ensures registry.Ok() && registry.State() == s.yoga && !MarkFails(r)
      ensures NodesLinked(s.nodes, {}) && BuffersLinked(s.buffers, {}) && ViewsLinked(s.views, {v, OldTarget(r, v)})
      ensures RenderablesLinked(s.renderables, {r})
      ensures TargetChanged(r, v, OldTarget(r, v), false, s)
      ensures r.measureTarget.Some? ==> r.measureTarget.value.measureUsers > 0
      ensures Marked(registry.State(), r.yogaNode) == MarkNode(s, r, true)
      ensures SetTargetEffect(s, r, v, native)
           == if !r.open || !v.open then Effect(s, Closed)
              else if LeafOfHeld(r) != Fine then Effect(s, LeafOfHeld(r))
              else if !v.buffer.open then Effect(s, Closed)
              else if native != Success then Effect(s, Refused(native))
              else Effect(Retargeted(s, r, Some(v)), Fine)
    {
      hide Sound, Valid, LeafOf, Registry.State, SetTargetEffect, MarkFails, Marked, MarkNode, Retargeted;
      hide NodesLinked, BuffersLinked, ViewsLinked, RenderablesLinked;
      HeldFields(r, s);
      ViewFieldsKnown(v, s);
      UnlinkRenderable(s.renderables, r);
      UnlinkViews(s.views, v, OldTarget(r, v));
      MarkedIsMarkNode(s, r);
      SetTargetIs(s, r, v, native, LeafOfHeld(r));
    }

    method SetMeasureTarget(r: Renderable, v: View, native: Status, restore: Status, ghost s: Store)
      returns (answer: Answer, ghost rolledBack: bool)
      requires Ok(s) && r in s.renderables && v in s.views
      modifies registry.slots, r`measureTarget, r`nativeTarget, v`measureUsers, TargetOf(r)`measureUsers
      ensures Ok(SetTargetEffect(s, r, v, native).store) && !rolledBack
      ensures answer == SetTargetEffect(s, r, v, native).answer
    {
      hide Sound, Valid, LeafOf, Registry.State, SetTargetEffect, MarkFails, Marked, MarkNode, Retargeted, TargetChanged;
      hide NodesLinked, BuffersLinked, ViewsLinked, RenderablesLinked, LeafOfHeld, CountUser;
      SetTargetKeepsSound(s, r, v, native);
      BeforeTarget(r, v, native, s);
      ghost var w := OldTarget(r, v);
      TargetKnown(r, v, w, s);
      rolledBack := false;
      if !r.open {
        return Closed, rolledBack;
      }
      answer, rolledBack := ChangeLinked(r, v, w, native, restore, s);
      RelinkTarget(r, v, w, answer == Fine, s);
    }

    /** The change of target, with everything but r, v and r's old target w left linked to the store. */
    method ChangeLinked(r: Renderable, v: View, ghost w: View, native: Status, restore: Status, ghost s: Store)
      returns (answer: Answer, ghost rolledBack: bool)
      requires r in s.renderables && v in s.views && w == OldTarget(r, v) && w in s.views
      requires registry.Ok() && registry.State() == s.yoga && !MarkFails(r)
      requires NodesLinked(s.nodes, {}) && BuffersLinked(s.buffers, {}) && ViewsLinked(s.views, {v, w})
      requires RenderablesLinked(s.renderables, {r}) && TargetChanged(r, v, w, false, s)
      requires r.measureTarget.Some? ==> r.measureTarget.value.measureUsers > 0
      requires Marked(registry.State(), r.yogaNode) == MarkNode(s, r, true)
      modifies registry.slots, r`measureTarget, r`nativeTarget, v`measureUsers, TargetOf(r)`measureUsers
      ensures NodesLinked(s.nodes, {}) && BuffersLinked(s.buffers, {}) && ViewsLinked(s.views, {v, w})
      ensures RenderablesLinked(s.renderables, {r}) && TargetChanged(r, v, w, answer == Fine, s)
      ensures registry.State() == if answer == Fine then MarkNode(s, r, true) else s.yoga
      ensures !rolledBack
      ensures answer == if !v.open then Closed
                        else if old(LeafOfHeld(r)) != Fine then old(LeafOfHeld(r))
                        else if !v.buffer.open then Closed else AnswerOf(native)
    {
      hide Valid, LeafOf, Registry.State, MarkFails, Marked, MarkNode, TargetChanged;
      hide NodesLinked, BuffersLinked, ViewsLinked, RenderablesLinked, LeafOfHeld, CountUser;
      TargetKnown(r, v, w, s);
      answer, rolledBack := ChangeTarget(r, v, native, restore);
      if answer == Fine {
        TargetMoved(r, v, w, s);
      } else {
        TargetKept(r, v, w, s);
      }
    }

    /** The fields of an unchanged target, one by one. */
    lemma TargetKnown(r: Renderable, v: View, w: View, s: Store)
      requires r in s.renderables && v in s.views && w in s.views && TargetChanged(r, v, w, false, s)
      ensures s.renderables[r] == FieldsOf(r) && s.views[v] == FieldsOfView(v) && s.views[w] == FieldsOfView(w)
    {
    }

    lemma TargetKept(r: Renderable, v: View, w: View, s: Store)
      requires r in s.renderables && v in s.views && w in s.views
      requires s.renderables[r] == FieldsOf(r) && s.views[v] == FieldsOfView(v) && s.views[w] == FieldsOfView(w)
      ensures TargetChanged(r, v, w, false, s)
    {
    }

    lemma TargetMoved(r: Renderable, v: View, w: View, s: Store)
      requires r in s.renderables && v in s.views && w in s.views
      requires r.measureTarget == r.nativeTarget == Some(v)
      requires FieldsOf(r).(measureTarget := s.renderables[r].measureTarget, nativeTarget := s.renderables[r].nativeTarget)
            == s.renderables[r]
      requires FieldsOfView(v).(measureUsers := s.views[v].measureUsers) == s.views[v]
      requires FieldsOfView(w).(measureUsers := s.views[w].measureUsers) == s.views[w]
      requires v.measureUsers == s.views[v].measureUsers + if s.renderables[r].measureTarget == Some(v) then 0 else 1
      requires w != v ==> s.views[w].measureUsers > 0 && w.measureUsers == s.views[w].measureUsers - 1
      ensures TargetChanged(r, v, w, true, s)
    {
      RetargetedCounts(s.views, v, w);
    }

    // ---- Clearing a measure target and closing ----

    /** Clears the native target first, then the flag, the count and the field. */
    method DropTarget(r: Renderable, native: Status) returns (answer: Answer)
      requires registry.Ok()
      modifies registry.slots, r`measureTarget, r`nativeTarget, TargetOf(r)`measureUsers
      ensures registry.Ok()
      ensures native != Success ==>
                && answer == Refused(native)
                && registry.State() == old(registry.State())
                && r.measureTarget == old(r.measureTarget) && r.nativeTarget == old(r.nativeTarget)
                && (r.measureTarget.Some? ==>
                      r.measureTarget.value.measureUsers == old(r.measureTarget.value.measureUsers))
      ensures native == Success ==>
                && r.measureTarget == r.nativeTarget == None
                && (old(r.measureTarget).Some? ==>
                      old(r.measureTarget).value.measureUsers
                      == var users := old(r.measureTarget.value.measureUsers); if users > 0 then users - 1 else 0)
                && if r.yogaNode.None? then answer == Fine && registry.State() == old(registry.State())
                   else if r.yogaNode.value.freed then
                     answer == Refused(StaleHandle) && registry.State() == old(registry.State())
                   else
                     var o := SetMeasuredStep(old(registry.State()), r.yogaNode.value.handle, false);
                     answer == AnswerOf(o.status) && registry.State() == o.state
    {
      hide Valid, SetMeasuredStep;
      if native != Success {
        return Refused(native);
      }
      r.nativeTarget := None;
      answer := Fine;
      if r.yogaNode.Some? {
        answer := MarkMeasured(r.yogaNode.value, false);
      }
      if r.measureTarget.Some? {
        ReleaseMeasureUser(r.measureTarget.value);
      }
      r.measureTarget := None;
    }

    /** The links when r's target has been given up. */
    lemma RelinkCleared(r: Renderable, v: View, s: Store)
      requires r in s.renderables && v in s.views
      requires s.renderables[r].measureTarget == Some(v)
      requires registry.State() == MarkNode(s, r, false)
      requires NodesLinked(s.nodes, {}) && BuffersLinked(s.buffers, {}) && ViewsLinked(s.views, {v, v})
      requires RenderablesLinked(s.renderables, {r})
      requires FieldsOf(r) == WithTarget(s.renderables[r], None)
      requires FieldsOfView(v)
            == s.views[v].(measureUsers := if s.views[v].measureUsers > 0 then s.views[v].measureUsers - 1 else 0)
      ensures Linked(Retargeted(s, r, None))
    {
      hide NodesLinked, BuffersLinked, ViewsLinked, RenderablesLinked, MarkNode, Registry.State;
      RelinkViews(s.views, v, v);
      RelinkRenderable(s.renderables, r);
      assert Retarget(s, r, None) == s.views[v := FieldsOfView(v)][v := FieldsOfView(v)];
    }

    /** What the objects say before a target is cleared. */
    lemma BeforeClear(r: Renderable, s: Store)
      requires Ok(s) && r in s.renderables
      ensures registry.Ok() && registry.State() == s.yoga
      ensures NodesLinked(s.nodes, {}) && BuffersLinked(s.buffers, {})
      ensures RenderablesLinked(s.renderables, {r}) && FieldsOf(r) == s.renderables[r]
      ensures if r.measureTarget.None? then ViewsLinked(s.views, {})
              else
                var v := r.measureTarget.value;
                v in s.views && ViewsLinked(s.views, {v, v}) && s.views[v] == FieldsOfView(v)
      ensures r.yogaNode.Some? ==>
                && !r.yogaNode.value.freed
                && SetMeasuredStep(s.yoga, r.yogaNode.value.handle, false) == Outcome(MarkNode(s, r, false), Success, 0)
      ensures r.yogaNode.None? ==> MarkNode(s, r, false) == s.yoga
    {
      hide Sound, Valid, Registry.State, NodesLinked, BuffersLinked, ViewsLinked, RenderablesLinked;
      HeldFields(r, s);
      UnlinkRenderable(s.renderables, r);
      if r.measureTarget.Some? {
        UnlinkViews(s.views, r.measureTarget.value, r.measureTarget.value);
      }
    }

    /** Clears r's target; the caller has found r open. */
    method ClearOpen(r: Renderable, native: Status, ghost s: Store) returns (answer: Answer)
      requires Ok(s) && r in s.renderables && r.open
      modifies registry.slots, r`measureTarget, r`nativeTarget, TargetOf(r)`measureUsers
      ensures answer == AnswerOf(native)
      ensures Ok(if native == Success then Retargeted(s, r, None) else s)
    {
      hide Sound, Valid, SetMeasuredStep, Registry.State, MarkNode, Retargeted;
      hide NodesLinked, BuffersLinked, ViewsLinked, RenderablesLinked;
      ClearTargetKeepsSound(s, r, native);
      BeforeClear(r, s);
      ghost var target := r.measureTarget;
      answer := DropTarget(r, native);
      if native == Success && target.Some? {
        RelinkCleared(r, target.value, s);
      } else if native == Success {
        RelinkUntargeted(r, s);
      } else {
        RelinkKept(r, target, s);
      }
    }

    lemma RelinkKept(r: Renderable, target: Option<View>, s: Store)
      requires registry.State() == s.yoga && NodesLinked(s.nodes, {}) && BuffersLinked(s.buffers, {})
      requires RenderablesLinked(s.renderables, {r}) && r in s.renderables && FieldsOf(r) == s.renderables[r]
      requires if target.None? then ViewsLinked(s.views, {})
               else var v := target.value; v in s.views && ViewsLinked(s.views, {v, v}) && s.views[v] == FieldsOfView(v)
      ensures Linked(s)
    {
      hide NodesLinked, BuffersLinked, ViewsLinked, RenderablesLinked, Registry.State;
      RelinkRenderable(s.renderables, r);
      assert s.renderables == s.renderables[r := FieldsOf(r)];
      if target.Some? {
        RelinkViews(s.views, target.value, target.value);
        assert s.views == s.views[target.value := FieldsOfView(target.value)][target.value := FieldsOfView(target.value)];
      }
    }

    lemma RelinkUntargeted(r: Renderable, s: Store)
      requires r in s.renderables && s.renderables[r].measureTarget.None?
      requires registry.State() == MarkNode(s, r, false)
      requires NodesLinked(s.nodes, {}) && BuffersLinked(s.buffers, {}) && ViewsLinked(s.views, {})
      requires RenderablesLinked(s.renderables, {r})
      requires FieldsOf(r) == WithTarget(s.renderables[r], None)
      ensures Linked(Retargeted(s, r, None))
    {
      hide NodesLinked, BuffersLinked, ViewsLinked, RenderablesLinked, MarkNode, Registry.State;
      RelinkRenderable(s.renderables, r);
    }

    method ClearMeasureTarget(r: Renderable, native: Status, ghost s: Store) returns (answer: Answer)
      requires Ok(s) && r in s.renderables
      modifies registry.slots, r`measureTarget, r`nativeTarget, TargetOf(r)`measureUsers
      ensures Ok(ClearTargetEffect(s, r, native).store)
      ensures answer == ClearTargetEffect(s, r, native).answer
    {
      hide Sound, Registry.State, Retargeted, NodesLinked, BuffersLinked, ViewsLinked, RenderablesLinked;
      UnlinkRenderable(s.renderables, r);
      if !r.open {
        return Closed;
      }
      answer := ClearOpen(r, native, s);
    }

    /** Closes a renderable whose target is already cleared: claim, node, native renderable, owner. */
    method DropNode(r: Renderable, ghost s: Store) returns (answer: Answer)
      requires Ok(s) && r in s.renderables && r.measureTarget.None?
      modifies registry.slots, r`yogaNode, r`nativeNode, r`nativeTarget, r`open
      ensures answer == Fine && Ok(Dropped(s, r))
    {
      hide Sound, Valid, UnclaimStep, Registry.State, NodesLinked, BuffersLinked, ViewsLinked, RenderablesLinked;
      BeforeDrop(r, s);
      DropKeepsSound(s, r);
      if r.yogaNode.Some? {
        answer := ReleaseNode(r.yogaNode.value);
        if answer != Fine {
          return;
        }
        r.yogaNode := None;
      }
      r.nativeNode := None;
      r.nativeTarget := None;
      r.open := false;
      answer := Fine;
      RelinkRenderable(s.renderables, r);
    }

    lemma BeforeDrop(r: Renderable, s: Store)
      requires Ok(s) && r in s.renderables
      ensures registry.Ok() && registry.State() == s.yoga
      ensures RenderablesLinked(s.renderables, {r}) && FieldsOf(r) == s.renderables[r]
      ensures r.yogaNode.Some? ==>
                && !r.yogaNode.value.freed
                && UnclaimStep(s.yoga, r.yogaNode.value.handle).status == Success
                && UnclaimStep(s.yoga, r.yogaNode.value.handle).state == Dropped(s, r).yoga
      ensures r.yogaNode.None? ==> Dropped(s, r).yoga == s.yoga
    {
      hide Sound, Valid, Registry.State, NodesLinked, BuffersLinked, ViewsLinked, RenderablesLinked;
      HeldFields(r, s);
      UnlinkRenderable(s.renderables, r);
    }

    method CloseRenderable(r: Renderable, native: Status, ghost s: Store) returns (answer: Answer)
      requires Ok(s) && r in s.renderables
      modifies registry.slots, r, TargetOf(r)`measureUsers
      ensures Ok(CloseRenderableEffect(s, r, native).store)
      ensures answer == CloseRenderableEffect(s, r, native).answer
    {
      hide Sound, Registry.State, Dropped, NodesLinked, BuffersLinked, ViewsLinked, RenderablesLinked;
      UnlinkRenderable(s.renderables, r);
      if !r.open {
        return Fine;
      }
      answer := ClearMeasureTarget(r, native, s);
      if answer != Fine {
        return;
      }
      UnlinkRenderable(Retargeted(s, r, None).renderables, r);
      answer := DropNode(r, Retargeted(s, r, None));
    }

    // ---- Nodes ----

    method CreateNode(pointer: nat, raises: bool, ghost s: Store) returns (answer: Answer, n: Node?)
      requires Ok(s) && Admissible(s.yoga, Create(pointer))
      modifies registry, registry.slots
      ensures answer == if raises then Raised else AnswerOf(CreateStep(s.yoga, pointer).status)
      ensures answer == Fine ==>
                n != null && fresh(n) && n !in s.nodes && Ok(NewNodeEffect(s, n, pointer, false).store)
      ensures answer != Fine ==> n == null && Ok(s.(yoga := CreateStep(s.yoga, pointer).state))
    {
      hide Sound, CreateStep, Registry.State, NodesLinked, BuffersLinked, ViewsLinked, RenderablesLinked;
      SoundTable(s);
      hide Valid;
      CreateAnswers(s.yoga, pointer);
      var status, h := registry.Create(pointer);
      n := null;
      answer := if raises then Raised else AnswerOf(status);
      if answer == Fine {
        n := new Node(h);
        NewNodeKeepsSound(s, n, pointer, false);
        NodeUnknown(s.nodes, n);
        RelinkNode(s.nodes, n);
      } else {
        TreeChangeKeepsSound(s, Create(pointer), s.nodes);
      }
    }

    method FreeNode(n: Node, recursive: bool, destroyed: set<nat>, ghost s: Store) returns (answer: Answer)
      requires Ok(s) && n in s.nodes
      requires recursive && Resolves(s.yoga.slots, n.handle) ==>
                 destroyed == Descendants(s.yoga.native, NodeOf(s.yoga, n.handle))
      modifies registry, registry.slots, n
      ensures Ok(FreeEffect(s, n, recursive).store)
      ensures answer == FreeEffect(s, n, recursive).answer
    {
      hide Sound, Valid, FreeStep, FreeAllStep, FreeEffect, Registry.State;
      hide NodesLinked, BuffersLinked, ViewsLinked, RenderablesLinked;
      SoundTable(s);
      FreeKeepsSound(s, n, recursive);
      FreeEffectIs(s, n, recursive);
      NodeLinked(s.nodes, n);
      if n.freed {
        return Fine;
      }
      var status;
      if recursive {
        RegistryTable(s);
        status := registry.FreeRecursive(n.handle, destroyed);
      } else {
        status := registry.Free(n.handle);
      }
      answer := AnswerOf(status);
      if status == Success {
        n.freed := true;
        RelinkNode(s.nodes, n);
      }
    }

    lemma RegistryTable(s: Store)
      requires registry.State() == s.yoga
      ensures registry.slots[..] == s.yoga.slots && registry.native == s.yoga.native
    {
    }

    method InsertChild(parent: Node, child: Node, index: int, ghost s: Store) returns (answer: Answer)
      requires Ok(s) && parent in s.nodes && child in s.nodes
      modifies registry, registry.slots
      ensures var e := ChildEffect(s, parent, child, Insert(parent.handle, child.handle, index));
              Ok(e.store) && answer == e.answer
    {
      hide Sound, InsertStep, Registry.State, NodesLinked, BuffersLinked, ViewsLinked, RenderablesLinked;
      SoundTable(s);
      hide Valid;
      ChildKeepsSound(s, parent, child, Insert(parent.handle, child.handle, index));
      NodeLinked(s.nodes, parent);
      NodeLinked(s.nodes, child);
      if parent.freed || child.freed {
        return Refused(StaleHandle);
      }
      var status := registry.InsertChild(parent.handle, child.handle, index);
      answer := AnswerOf(status);
    }

    method RemoveChild(parent: Node, child: Node, ghost s: Store) returns (answer: Answer)
      requires Ok(s) && parent in s.nodes && child in s.nodes
      modifies registry, registry.slots
      ensures var e := ChildEffect(s, parent, child, Remove(parent.handle, child.handle));
              Ok(e.store) && answer == e.answer
    {
      hide Sound, RemoveStep, Registry.State, NodesLinked, BuffersLinked, ViewsLinked, RenderablesLinked;
      SoundTable(s);
      hide Valid;
      ChildKeepsSound(s, parent, child, Remove(parent.handle, child.handle));
      NodeLinked(s.nodes, parent);
      NodeLinked(s.nodes, child);
      if parent.freed || child.freed {
        return Refused(StaleHandle);
      }
      var status := registry.RemoveChild(parent.handle, child.handle);
      answer := AnswerOf(status);
    }

    method MoveChild(parent: Node, child: Node, index: int, ghost s: Store) returns (answer: Answer)
      requires Ok(s) && parent in s.nodes && child in s.nodes
      modifies registry, registry.slots
      ensures var e := ChildEffect(s, parent, child, Move(parent.handle, child.handle, index));
              Ok(e.store) && answer == e.answer
    {
      hide Sound, MoveStep, Registry.State, NodesLinked, BuffersLinked, ViewsLinked, RenderablesLinked;
      SoundTable(s);
      hide Valid;
      ChildKeepsSound(s, parent, child, Move(parent.handle, child.handle, index));
      NodeLinked(s.nodes, parent);
      NodeLinked(s.nodes, child);
      if parent.freed || child.freed {
        return Refused(StaleHandle);
      }
      var status := registry.MoveChild(parent.handle, child.handle, index);
      answer := AnswerOf(status);
    }

    // ---- Buffers and views ----

    method CreateBuffer(native: Status, raises: bool, ghost s: Store) returns (answer: Answer, b: TextBuffer?)
      requires Ok(s)
      ensures answer == if raises then Raised else AnswerOf(native)
      ensures answer == Fine ==>
                b != null && fresh(b) && b !in s.buffers && Ok(Do(s, NewBuffer(b, native, raises)).store)
      ensures answer != Fine ==> b == null && Ok(if answer == Raised then Stray(s, native) else s)
    {
      hide Sound, Registry.State, NodesLinked, BuffersLinked, ViewsLinked, RenderablesLinked;
      StraysUnread(s, s.strays + 1);
      b := null;
      answer := if raises then Raised else AnswerOf(native);
      if answer == Fine {
        b := new TextBuffer();
        NewBufferKeepsSound(s, b);
        BufferUnknown(s.buffers, b);
        RelinkBuffer(s.buffers, b);
      }
    }

    method CloseBuffer(b: TextBuffer, ghost s: Store) returns (answer: Answer)
      requires Ok(s) && b in s.buffers
      modifies b
      ensures Ok(CloseBufferEffect(s, b).store)
      ensures answer == CloseBufferEffect(s, b).answer
    {
      hide Sound, Registry.State, NodesLinked, BuffersLinked, ViewsLinked, RenderablesLinked;
      CloseBufferKeepsSound(s, b);
      UnlinkBuffer(s.buffers, b);
      if !b.open {
        return Fine;
      }
      if b.openViews != 0 {
        return Refused(InvalidArgument);
      }
      b.open := false;
      answer := Fine;
      RelinkBuffer(s.buffers, b);
    }

    /** `failing`: where an allocation fails. The count goes up before the object is made. */
    method CreateView(b: TextBuffer, native: Status, failing: Failing, ghost s: Store)
      returns (answer: Answer, v: View?)
      requires Ok(s) && b in s.buffers
      modifies b`openViews, b`lostViews
      ensures answer == if !b.open then Closed else if failing.Early? then Raised
                        else if native != Success then Refused(native) else if failing.Late? then Raised else Fine
      ensures answer == Fine ==>
                v != null && fresh(v) && v !in s.views && Ok(NewViewEffect(s, v, b, native, failing).store)
      ensures answer != Fine ==> v == null && Ok(ViewNotMade(s, b, native, failing))
    {
      hide Sound, Registry.State, NewViewEffect, ViewNotMade;
      hide NodesLinked, BuffersLinked, ViewsLinked, RenderablesLinked;
      ViewNotMadeKeepsSound(s, b, native, failing);
      ViewNotMadeIs(s, b, native, failing);
      UnlinkBuffer(s.buffers, b);
      v := null;
      if !b.open {
        return Closed, v;
      }
      if failing.Early? {
        return Raised, v;
      }
      answer := AnswerOf(native);
      if answer != Fine {
        return;
      }
      b.openViews := b.openViews + 1;
      if failing.Late? {
        b.lostViews := b.lostViews + 1;
        RelinkBuffer(s.buffers, b);
        return Raised, v;
      }
      v := new View(b);
      RelinkCreated(v, s, native);
    }

    /** A new view object on a buffer that has just counted it. */
    lemma RelinkCreated(v: View, s: Store, native: Status)
      requires v.buffer in s.buffers && v !in s.views && Sound(s)
      requires registry.State() == s.yoga && NodesLinked(s.nodes, {}) && BuffersLinked(s.buffers, {v.buffer})
      requires ViewsLinked(s.views, {}) && RenderablesLinked(s.renderables, {})
      requires FieldsOfView(v) == ViewFields(v.buffer, true, 0, true) && s.buffers[v.buffer].open && native == Success
      requires BufferFields(v.buffer.open, v.buffer.openViews, v.buffer.lostViews)
            == s.buffers[v.buffer].(openViews := s.buffers[v.buffer].openViews + 1)
      ensures Ok(NewViewEffect(s, v, v.buffer, native, Never).store)
    {
      NewViewKeepsSound(s, v, v.buffer, native, Never);
      hide Sound, Registry.State, NodesLinked, BuffersLinked, ViewsLinked, RenderablesLinked;
      ViewUnknown(s.views, v);
      RelinkView(s.views, v);
      RelinkBuffer(s.buffers, v.buffer);
    }

    method CloseView(v: View, ghost s: Store) returns (answer: Answer)
      requires Ok(s) && v in s.views
      modifies v`open, v`nativeLive, v.buffer`openViews
      ensures Ok(CloseViewEffect(s, v).store)
      ensures answer == CloseViewEffect(s, v).answer
    {
      hide Sound, Registry.State, NodesLinked, BuffersLinked, ViewsLinked, RenderablesLinked;
      CloseViewKeepsSound(s, v);
      UnlinkView(s.views, v);
      UnlinkBuffer(s.buffers, v.buffer);
      if !v.open {
        return Fine;
      }
      if v.measureUsers != 0 {
        return Refused(InvalidArgument);
      }
      if v.buffer.open {
        v.nativeLive := false;
      }
      if v.buffer.openViews > 0 {
        v.buffer.openViews := v.buffer.openViews - 1;
      }
      v.open := false;
      answer := Fine;
      RelinkView(s.views, v);
      RelinkBuffer(s.buffers, v.buffer);
    }

    method CreateRenderable(native: Status, raises: bool, ghost s: Store) returns (answer: Answer, r: Renderable?)
      requires Ok(s)
      ensures answer == if raises then Raised else AnswerOf(native)
      ensures answer == Fine ==>
                r != null && fresh(r) && r !in s.renderables && Ok(Do(s, NewRenderable(r, native, raises)).store)
      ensures answer != Fine ==> r == null && Ok(if answer == Raised then Stray(s, native) else s)
    {
      hide Sound, Registry.State, NodesLinked, BuffersLinked, ViewsLinked, RenderablesLinked;
      StraysUnread(s, s.strays + 1);
      r := null;
      answer := if raises then Raised else AnswerOf(native);
      if answer == Fine {
        r := new Renderable();
        NewRenderableKeepsSound(s, r);
        RenderableUnknown(s.renderables, r);
        RelinkRenderable(s.renderables, r);
      }
    }
  }

  // An object that is not in the store yet is not missing from the links.

  lemma NodeUnknown(nodes: Nodes, n: Node)
    requires n !in nodes && NodesLinked(nodes, {})
    ensures NodesLinked(nodes, {n})
  {
  }

  lemma BufferUnknown(buffers: map<TextBuffer, BufferFields>, b: TextBuffer)
    requires b !in buffers && BuffersLinked(buffers, {})
    ensures BuffersLinked(buffers, {b})
  {
  }

  lemma ViewNotMadeIs(s: Store, b: TextBuffer, native: Status, failing: Failing)
    requires b in s.buffers
    ensures var f, s' := s.buffers[b], ViewNotMade(s, b, native, failing);
            if f.open && native == Success && failing.Late?
            then s' == s.(buffers := s.buffers[b := f.(openViews := f.openViews + 1, lostViews := f.lostViews + 1)],
                          strays := s.strays + 1)
            else s' == s.(strays := s'.strays)
  {
  }

  lemma ViewUnknown(views: map<View, ViewFields>, v: View)
    requires v !in views && ViewsLinked(views, {})
    ensures ViewsLinked(views, {v})
  {
  }

  lemma RenderableUnknown(renderables: Renderables, r: Renderable)
    requires r !in renderables && RenderablesLinked(renderables, {})
    ensures RenderablesLinked(renderables, {r})
  {
  }

  lemma FreeEffectIs(s: Store, n: Node, recursive: bool)
    requires n in s.nodes
    ensures var f := s.nodes[n];
            var o := if recursive then FreeAllStep(s.yoga, f.handle) else FreeStep(s.yoga, f.handle);
            FreeEffect(s, n, recursive)
            == if f.freed then Effect(s, Fine)
               else Effect(s.(yoga := o.state,
                              nodes := if o.status == Success then s.nodes[n := f.(freed := true)] else s.nodes),
                           AnswerOf(o.status))
  {
    hide FreeAllStep, FreeStep;
  }

  lemma CreateAnswers(y: Yoga, pointer: nat)
    ensures CreateStep(y, pointer).status == Success || CreateStep(y, pointer).status == NativeFailure
  {
  }

  lemma RetargetedCounts(views: map<View, ViewFields>, v: View, w: View)
    requires v in views && w in views
    ensures CountUser(views, w, -1).Keys == views.Keys
    ensures CountUser(views, w, -1)[w]
         == views[w].(measureUsers := if views[w].measureUsers > 0 then views[w].measureUsers - 1 else 0)
  {
  }

  /** The effect of setting a target, read off the answers of its tests in order. */
  lemma SetTargetIs(s: Store, r: Renderable, v: View, native: Status, leaf: Answer)
    requires r in s.renderables && v in s.views
    requires leaf == if s.renderables[r].yogaNode.None? then Fine else LeafAnswer(s, s.renderables[r].yogaNode.value)
    ensures SetTargetEffect(s, r, v, native) ==
            if !s.renderables[r].open || !s.views[v].open then Effect(s, Closed)
            else if leaf != Fine then Effect(s, leaf)
            else if !BufferOpen(s, s.views[v].buffer) then Effect(s, Closed)
            else if native != Success then Effect(s, Refused(native))
            else Effect(Retargeted(s, r, Some(v)), Fine)
  {
  }

  lemma MarkedIsMarkNode(s: Store, r: Renderable)
    requires r in s.renderables
    requires s.renderables[r].yogaNode.Some? ==>
               var n := s.renderables[r].yogaNode.value; n in s.nodes && s.nodes[n].handle == n.handle
    ensures Marked(s.yoga, s.renderables[r].yogaNode) == MarkNode(s, r, true)
  {
  }

  ghost function TargetOf(r: Renderable): set<View>
    reads r
  {
    if r.measureTarget.Some? then {r.measureTarget.value} else {}
  }

  /** The table once the node, if any, is marked as claimed and measured. */
  ghost function Marked(y: Yoga, n: Option<Node>): Yoga {
    if n.Some? && Resolves(y.slots, n.value.handle) then SetFlags(y, n.value.handle, true, true) else y
  }

  lemma LeafResolves(y: Yoga, n: Node)
    requires LeafOf(y, NodeFields(n.handle, n.freed)) == Fine
    ensures !n.freed && Resolves(y.slots, n.handle)
  {
  }

  lemma SetFlagsResolves(y: Yoga, h: nat, claimed: bool, measured: bool)
    requires Resolves(y.slots, h)
    ensures Resolves(SetFlags(y, h, claimed, measured).slots, h)
  {
  }
}
