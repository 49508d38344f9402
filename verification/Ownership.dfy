/**
The typed objects over the native handles, and what each public operation on them does. The store
maps every object that exists to the values of its fields; native answers are parameters.
*/
module Ownership {
  import opened Handles
  import opened Statuses
  import opened YogaForest
  import opened YogaSpec

  class Node {
    const handle: nat
    var freed: bool

    constructor (handle: nat)
      ensures this.handle == handle && !freed
    {
      this.handle := handle;
      freed := false;
    }
  }

  class TextBuffer {
    var open: bool
    var openViews: nat
    /** Views that were counted but whose object could not be made. */
    ghost var lostViews: nat

    constructor ()
      ensures open && openViews == 0 && lostViews == 0
    {
      open := true;
      openViews := 0;
      lostViews := 0;
    }
  }

  class View {
    const buffer: TextBuffer
    var open: bool
    var measureUsers: nat
    /** Whether the native view still exists. */
    ghost var nativeLive: bool

    constructor (buffer: TextBuffer)
      ensures this.buffer == buffer && open && measureUsers == 0 && nativeLive
    {
      this.buffer := buffer;
      open := true;
      measureUsers := 0;
      nativeLive := true;
    }
  }

  class Renderable {
    var open: bool
    var yogaNode: Option<Node>
    var measureTarget: Option<View>
    /** What the native renderable holds. */
    ghost var nativeNode: Option<Node>
    ghost var nativeTarget: Option<View>

    constructor ()
      ensures open && yogaNode == None && measureTarget == None
      ensures nativeNode == None && nativeTarget == None
    {
      open := true;
      yogaNode := None;
      measureTarget := None;
      nativeNode := None;
      nativeTarget := None;
    }
  }

  datatype NodeFields = NodeFields(handle: nat, freed: bool)
  datatype BufferFields = BufferFields(open: bool, openViews: nat, lostViews: nat)
  datatype ViewFields = ViewFields(buffer: TextBuffer, open: bool, measureUsers: nat, nativeLive: bool)
  datatype RenderableFields = RenderableFields(
    open: bool,
    yogaNode: Option<Node>,
    measureTarget: Option<View>,
    nativeNode: Option<Node>,
    nativeTarget: Option<View>)

  /** `strays` counts the native buffers, views and renderables made for an object that could not be. */
  datatype Store = Store(
    yoga: Yoga,
    nodes: map<Node, NodeFields>,
    buffers: map<TextBuffer, BufferFields>,
    views: map<View, ViewFields>,
    renderables: map<Renderable, RenderableFields>,
    strays: nat)

  datatype Answer = Fine | Refused(status: Status) | Closed | Raised

  function AnswerOf(status: Status): Answer {
    if status == Success then Fine else Refused(status)
  }

  // ---- The invariant ----

  type Nodes = map<Node, NodeFields>
  type Renderables = map<Renderable, RenderableFields>

  ghost predicate HoldsHandle(ns: Nodes, rs: Renderables, r: Renderable, h: nat) {
    && r in rs
    && rs[r].yogaNode.Some?
    && rs[r].yogaNode.value in ns
    && ns[rs[r].yogaNode.value].handle == h
  }

  ghost predicate NodeHeld(t: Table, h: nat, measured: bool) {
    && Resolves(t, h)
    && t[Index(h)].claimed
    && t[Index(h)].measured == measured
  }

  /** A held node is known, unfreed and live, claimed, and measured exactly when there is a target. */
  ghost predicate RenderableOk(s: Store, r: Renderable)
    requires r in s.renderables
  {
    var f := s.renderables[r];
    && f.nativeNode == f.yogaNode
    && f.nativeTarget == f.measureTarget
    && (!f.open ==> f.yogaNode.None? && f.measureTarget.None?)
    && (f.measureTarget.Some? ==> f.measureTarget.value in s.views)
    && (f.yogaNode.Some? ==>
          && f.yogaNode.value in s.nodes
          && !s.nodes[f.yogaNode.value].freed
          && NodeHeld(s.yoga.slots, s.nodes[f.yogaNode.value].handle, f.measureTarget.Some?))
  }

  /** No handle is held by two renderables. */
  ghost predicate ClaimsUnique(ns: Nodes, rs: Renderables) {
    forall r, q | r in rs && q in rs && r != q ::
      forall h: nat :: !(HoldsHandle(ns, rs, r, h) && HoldsHandle(ns, rs, q, h))
  }

  ghost predicate Held(ns: Nodes, rs: Renderables, h: nat) {
    exists r :: r in rs && HoldsHandle(ns, rs, r, h)
  }

  /** Every claimed slot is held by some renderable. */
  ghost predicate ClaimsHeld(t: Table, ns: Nodes, rs: Renderables) {
    forall i :: Live(t, i) && t[i].claimed ==> Held(ns, rs, HandleOf(t, i))
  }

  ghost predicate MeasuredAreLeaves(y: Yoga) {
    forall h: nat :: Resolves(y.slots, h) && y.slots[Index(h)].measured ==> Children(y, h) == []
  }

  /** The renderables whose target is v. */
  ghost function Users(rs: Renderables, v: View): set<Renderable> {
    set r | r in rs && rs[r].measureTarget == Some(v)
  }

  ghost predicate ViewOk(s: Store, v: View)
    requires v in s.views
  {
    && s.views[v].measureUsers == |Users(s.renderables, v)|
    && (s.views[v].measureUsers > 0 ==> s.views[v].open)
    && s.views[v].nativeLive == s.views[v].open
    && s.views[v].buffer in s.buffers
    && (s.views[v].open ==> s.buffers[s.views[v].buffer].open)
  }

  ghost function OpenViews(views: map<View, ViewFields>, b: TextBuffer): set<View> {
    set v | v in views && views[v].open && views[v].buffer == b
  }

  /** A buffer counts its open views, and the views lost to a failed allocation. */
  ghost predicate BufferOk(s: Store, b: TextBuffer)
    requires b in s.buffers
  {
    s.buffers[b].openViews == |OpenViews(s.views, b)| + s.buffers[b].lostViews
  }

  ghost predicate RenderablesOk(s: Store) {
    forall r :: r in s.renderables ==> RenderableOk(s, r)
  }

  ghost predicate ClaimsSound(s: Store) {
    && Valid(s.yoga)
    && RenderablesOk(s)
    && ClaimsUnique(s.nodes, s.renderables)
    && ClaimsHeld(s.yoga.slots, s.nodes, s.renderables)
    && MeasuredAreLeaves(s.yoga)
  }

  ghost predicate CountsSound(s: Store) {
    && (forall v :: v in s.views ==> ViewOk(s, v))
    && (forall b :: b in s.buffers ==> BufferOk(s, b))
  }

  ghost predicate Sound(s: Store) {
    ClaimsSound(s) && CountsSound(s)
  }

  // ---- The operations ----

  /** Where an allocation fails while a view is made: before it is counted on its buffer, after, or not at all. */
  datatype Failing = Never | Early | Late

  /** In a creation, `raises` or `failing` says that the object around the native resource cannot be allocated. */
  datatype Event =
    | NewNode(n: Node, pointer: nat, raises: bool)
    | FreeNode(n: Node)
    | FreeNodes(n: Node)
    | InsertNode(parent: Node, child: Node, index: int)
    | RemoveNode(parent: Node, child: Node)
    | MoveNode(parent: Node, child: Node, index: int)
    | NewBuffer(b: TextBuffer, native: Status, raises: bool)
    | CloseBuffer(b: TextBuffer)
    | NewView(v: View, b: TextBuffer, native: Status, failing: Failing)
    | CloseView(v: View)
    | NewRenderable(r: Renderable, native: Status, raises: bool)
    | AttachNode(r: Renderable, n: Node, native: Status)
    | SetTarget(r: Renderable, v: View, native: Status)
    | ClearTarget(r: Renderable, native: Status)
    | CloseRenderable(r: Renderable, native: Status)

  /** Created objects are new, and every other object mentioned exists. */
  ghost predicate Possible(s: Store, e: Event) {
    match e
    case NewNode(n, pointer, _) => n !in s.nodes && Admissible(s.yoga, Create(pointer))
    case FreeNode(n) => n in s.nodes
    case FreeNodes(n) => n in s.nodes
    case InsertNode(parent, child, _) => parent in s.nodes && child in s.nodes
    case RemoveNode(parent, child) => parent in s.nodes && child in s.nodes
    case MoveNode(parent, child, _) => parent in s.nodes && child in s.nodes
    case NewBuffer(b, _, _) => b !in s.buffers
    case CloseBuffer(b) => b in s.buffers
    case NewView(v, b, _, _) => v !in s.views && b in s.buffers
    case CloseView(v) => v in s.views
    case NewRenderable(r, _, _) => r !in s.renderables
    case AttachNode(r, n, _) => r in s.renderables && n in s.nodes
    case SetTarget(r, v, _) => r in s.renderables && v in s.views
    case ClearTarget(r, _) => r in s.renderables
    case CloseRenderable(r, _) => r in s.renderables
  }

  datatype Effect = Effect(store: Store, answer: Answer)

  function WithYoga(s: Store, o: Outcome): Effect {
    Effect(s.(yoga := o.state), AnswerOf(o.status))
  }

  function NewNodeEffect(s: Store, n: Node, pointer: nat, raises: bool): Effect {
    var o := CreateStep(s.yoga, pointer);
    if raises then Effect(s.(yoga := o.state), Raised)
    else if o.status == Success
    then Effect(s.(yoga := o.state, nodes := s.nodes[n := NodeFields(o.handle, false)]), Fine)
    else WithYoga(s, o)
  }

  ghost function FreeEffect(s: Store, n: Node, recursive: bool): Effect
    requires n in s.nodes
  {
    if s.nodes[n].freed then Effect(s, Fine)
    else
      var o := if recursive then FreeAllStep(s.yoga, s.nodes[n].handle) else FreeStep(s.yoga, s.nodes[n].handle);
      if o.status == Success
      then Effect(s.(yoga := o.state, nodes := s.nodes[n := s.nodes[n].(freed := true)]), Fine)
      else WithYoga(s, o)
  }

  ghost function ChildEffect(s: Store, parent: Node, child: Node, op: Op): Effect
    requires parent in s.nodes && child in s.nodes
  {
    if s.nodes[parent].freed || s.nodes[child].freed then Effect(s, Refused(StaleHandle))
    else WithYoga(s, Step(s.yoga, op))
  }

  /** A native object whose OCaml object cannot be made stays behind, if the native side made it. */
  function Stray(s: Store, native: Status): Store {
    if native == Success then s.(strays := s.strays + 1) else s
  }

  /** The store when no view object is made: one view is counted if the failure comes after the count. */
  function ViewNotMade(s: Store, b: TextBuffer, native: Status, failing: Failing): Store
    requires b in s.buffers
  {
    var f := s.buffers[b];
    if f.open && native == Success && failing.Late?
    then Stray(s, native).(buffers := s.buffers[b := f.(openViews := f.openViews + 1, lostViews := f.lostViews + 1)])
    else if f.open && failing.Early? then Stray(s, native)
    else s
  }

  function NewViewEffect(s: Store, v: View, b: TextBuffer, native: Status, failing: Failing): Effect
    requires b in s.buffers
  {
    if !s.buffers[b].open then Effect(s, Closed)
    else if failing.Early? then Effect(ViewNotMade(s, b, native, failing), Raised)
    else if native != Success then Effect(s, Refused(native))
    else if failing.Late? then Effect(ViewNotMade(s, b, native, failing), Raised)
    else
      Effect(s.(views := s.views[v := ViewFields(b, true, 0, true)],
                buffers := s.buffers[b := s.buffers[b].(openViews := s.buffers[b].openViews + 1)]), Fine)
  }

  predicate BufferOpen(s: Store, b: TextBuffer) {
    b in s.buffers && s.buffers[b].open
  }

  /** The buffers after one open view of b is unregistered. */
  function Unregister(s: Store, b: TextBuffer): map<TextBuffer, BufferFields> {
    if b in s.buffers
    then var count := s.buffers[b].openViews;
         s.buffers[b := s.buffers[b].(openViews := if count > 0 then count - 1 else 0)]
    else s.buffers
  }

  function CloseViewEffect(s: Store, v: View): Effect
    requires v in s.views
  {
    var f := s.views[v];
    if !f.open then Effect(s, Fine)
    else if f.measureUsers != 0 then Effect(s, Refused(InvalidArgument))
    else
      Effect(s.(views := s.views[v := f.(open := false, nativeLive := f.nativeLive && !BufferOpen(s, f.buffer))],
                buffers := Unregister(s, f.buffer)), Fine)
  }

  function CloseBufferEffect(s: Store, b: TextBuffer): Effect
    requires b in s.buffers
  {
    if !s.buffers[b].open then Effect(s, Fine)
    else if s.buffers[b].openViews != 0 then Effect(s, Refused(InvalidArgument))
    else Effect(s.(buffers := s.buffers[b := s.buffers[b].(open := false)]), Fine)
  }

  /** What the leaf test on a node answers. */
  function LeafOf(y: Yoga, n: NodeFields): Answer {
    if n.freed || !Resolves(y.slots, n.handle) then Refused(StaleHandle)
    else if |Children(y, n.handle)| != 0 then Refused(InvalidArgument)
    else Fine
  }

  function LeafAnswer(s: Store, n: Node): Answer {
    if n in s.nodes then LeafOf(s.yoga, s.nodes[n]) else Refused(StaleHandle)
  }

  function Attached(s: Store, r: Renderable, n: Node): Store
    requires r in s.renderables && n in s.nodes && Resolves(s.yoga.slots, s.nodes[n].handle)
  {
    s.(yoga := SetFlags(s.yoga, s.nodes[n].handle, true, s.renderables[r].measureTarget.Some?),
       renderables := s.renderables[r := s.renderables[r].(yogaNode := Some(n), nativeNode := Some(n))])
  }

  /** All of it or none of it: claim, measure flag, native attachment and stored node. */
  function AttachEffect(s: Store, r: Renderable, n: Node, native: Status): Effect
    requires r in s.renderables && n in s.nodes
  {
    var f, h := s.renderables[r], s.nodes[n].handle;
    if !f.open then Effect(s, Closed)
    else if f.yogaNode.Some? then Effect(s, Refused(InvalidArgument))
    else if f.measureTarget.Some? && LeafAnswer(s, n) != Fine then Effect(s, LeafAnswer(s, n))
    else if s.nodes[n].freed || !Resolves(s.yoga.slots, h) then Effect(s, Refused(StaleHandle))
    else if s.yoga.slots[Index(h)].claimed then Effect(s, Refused(InvalidArgument))
    else if native != Success then Effect(s, Refused(native))
    else Effect(Attached(s, r, n), Fine)
  }

  function CountUser(views: map<View, ViewFields>, v: View, delta: int): map<View, ViewFields> {
    if v in views
    then var count := views[v].measureUsers + delta;
         views[v := views[v].(measureUsers := if count >= 0 then count else 0)]
    else views
  }

  /** The views after r's target changes from its old one to `target`. */
  function Retarget(s: Store, r: Renderable, target: Option<View>): map<View, ViewFields>
    requires r in s.renderables
  {
    var views := if target.Some? then CountUser(s.views, target.value, 1) else s.views;
    match s.renderables[r].measureTarget
    case None => views
    case Some(old_) => CountUser(views, old_, -1)
  }

  function MarkNode(s: Store, r: Renderable, measured: bool): Yoga
    requires r in s.renderables
  {
    match s.renderables[r].yogaNode
    case None => s.yoga
    case Some(n) =>
      if n in s.nodes && Resolves(s.yoga.slots, s.nodes[n].handle)
      then SetFlags(s.yoga, s.nodes[n].handle, true, measured) else s.yoga
  }

  function WithTarget(f: RenderableFields, target: Option<View>): RenderableFields {
    f.(measureTarget := target, nativeTarget := target)
  }

  /** The measure flag, both user counts and both target fields, changed together. */
  function Retargeted(s: Store, r: Renderable, target: Option<View>): Store
    requires r in s.renderables
  {
    s.(yoga := MarkNode(s, r, target.Some?),
       views := Retarget(s, r, target),
       renderables := s.renderables[r := WithTarget(s.renderables[r], target)])
  }

  function SetTargetEffect(s: Store, r: Renderable, v: View, native: Status): Effect
    requires r in s.renderables && v in s.views
  {
    var f := s.renderables[r];
    if !f.open || !s.views[v].open then Effect(s, Closed)
    else if f.yogaNode.Some? && LeafAnswer(s, f.yogaNode.value) != Fine
      then Effect(s, LeafAnswer(s, f.yogaNode.value))
    else if !BufferOpen(s, s.views[v].buffer) then Effect(s, Closed)
    else if native != Success then Effect(s, Refused(native))
    else Effect(Retargeted(s, r, Some(v)), Fine)
  }

  function ClearTargetEffect(s: Store, r: Renderable, native: Status): Effect
    requires r in s.renderables
  {
    if !s.renderables[r].open then Effect(s, Closed)
    else if native != Success then Effect(s, Refused(native))
    else Effect(Retargeted(s, r, None), Fine)
  }

  /** The claim given back and the renderable closed. */
  function Dropped(s: Store, r: Renderable): Store
    requires r in s.renderables
  {
    var n := s.renderables[r].yogaNode;
    var yoga := if n.Some? && n.value in s.nodes then UnclaimStep(s.yoga, s.nodes[n.value].handle).state else s.yoga;
    s.(yoga := yoga, renderables := s.renderables[r := RenderableFields(false, None, None, None, None)])
  }

  function CloseRenderableEffect(s: Store, r: Renderable, native: Status): Effect
    requires r in s.renderables
  {
    if !s.renderables[r].open then Effect(s, Fine)
    else if native != Success then Effect(s, Refused(native))
    else Effect(Dropped(Retargeted(s, r, None), r), Fine)
  }

  ghost function Do(s: Store, e: Event): Effect
    requires Possible(s, e)
  {
    match e
    case NewNode(n, pointer, raises) => NewNodeEffect(s, n, pointer, raises)
    case FreeNode(n) => FreeEffect(s, n, false)
    case FreeNodes(n) => FreeEffect(s, n, true)
    case InsertNode(parent, child, index) =>
      ChildEffect(s, parent, child, Insert(s.nodes[parent].handle, s.nodes[child].handle, index))
    case RemoveNode(parent, child) =>
      ChildEffect(s, parent, child, Remove(s.nodes[parent].handle, s.nodes[child].handle))
    case MoveNode(parent, child, index) =>
      ChildEffect(s, parent, child, Move(s.nodes[parent].handle, s.nodes[child].handle, index))
    case NewBuffer(b, native, raises) =>
      if raises then Effect(Stray(s, native), Raised)
      else if native != Success then Effect(s, Refused(native))
      else Effect(s.(buffers := s.buffers[b := BufferFields(true, 0, 0)]), Fine)
    case CloseBuffer(b) => CloseBufferEffect(s, b)
    case NewView(v, b, native, failing) => NewViewEffect(s, v, b, native, failing)
    case CloseView(v) => CloseViewEffect(s, v)
    case NewRenderable(r, native, raises) =>
      if raises then Effect(Stray(s, native), Raised)
      else if native != Success then Effect(s, Refused(native))
      else Effect(s.(renderables := s.renderables[r := RenderableFields(true, None, None, None, None)]), Fine)
    case AttachNode(r, n, native) => AttachEffect(s, r, n, native)
    case SetTarget(r, v, native) => SetTargetEffect(s, r, v, native)
    case ClearTarget(r, native) => ClearTargetEffect(s, r, native)
    case CloseRenderable(r, native) => CloseRenderableEffect(s, r, native)
  }
}
