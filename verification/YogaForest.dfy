/**
The node table of the Yoga bindings read as a forest. A slot stores only its parent's handle; the
descendants of a node are whatever slots reach it by walking parents upward.
*/
module YogaForest {
  import opened Handles

  /** One entry of the node table. `node` is the native pointer, 0 for NULL. */
  datatype Slot = Slot(
    generation: nat,
    alive: bool,
    claimed: bool,
    measured: bool,
    node: nat,
    parent: nat)

  type Table = seq<Slot>

  predicate Live(t: Table, i: int) {
    0 < i < |t| && t[i].alive
  }

  function HandleOf(t: Table, i: nat): nat
    requires i < |t|
  {
    Handle(i, t[i].generation)
  }

  /** The handle names a live slot of its own generation. */
  predicate Resolves(t: Table, h: nat) {
    Live(t, Index(h)) && t[Index(h)].generation == Generation(h)
  }

  function ParentOf(t: Table, h: nat): nat {
    if Resolves(t, h) then t[Index(h)].parent else 0
  }

  /** The handle reached from h after k parent steps, 0 above a root. */
  function Up(t: Table, h: nat, k: nat): nat
    decreases k
  {
    if k == 0 then h else Up(t, ParentOf(t, h), k - 1)
  }

  /** `h` is `root` itself or one of its descendants. */
  ghost predicate Under(t: Table, root: nat, h: nat) {
    exists k: nat :: Up(t, h, k) == root
  }

  ghost predicate Below(t: Table, root: nat, i: int) {
    Live(t, i) && Under(t, root, HandleOf(t, i))
  }

  predicate SlotOk(t: Table, i: nat)
    requires i < |t|
  {
    && t[i].generation <= GENERATIONS
    && (t[i].measured ==> t[i].claimed)
    && if t[i].alive then i > 0 && t[i].generation > 0 && t[i].node > 0
       else !t[i].claimed && t[i].node == 0 && t[i].parent == 0
  }

  ghost predicate WellFormed(t: Table) {
    && 1 < |t| <= SLOT_LIMIT
    && forall i :: 0 <= i < |t| ==> SlotOk(t, i)
  }

  ghost predicate ParentsLive(t: Table) {
    forall i :: Live(t, i) && t[i].parent != 0 ==> Resolves(t, t[i].parent)
  }

  ghost predicate Ranked(t: Table, rank: seq<nat>) {
    && |rank| == |t|
    && forall i :: Live(t, i) && Resolves(t, t[i].parent) ==> rank[Index(t[i].parent)] < rank[i]
  }

  ghost predicate Acyclic(t: Table) {
    exists rank :: Ranked(t, rank)
  }

  /** Every live slot's parent is 0 or live, and parent chains are well founded. */
  ghost predicate Forest(t: Table) {
    WellFormed(t) && ParentsLive(t) && Acyclic(t)
  }

  // ---- Handles of live slots ----

  lemma LiveHandle(t: Table, i: nat)
    requires WellFormed(t) && Live(t, i)
    ensures Resolves(t, HandleOf(t, i)) && Index(HandleOf(t, i)) == i && HandleOf(t, i) != 0
    ensures HandleOf(t, i) < SLOT_LIMIT * SLOT_LIMIT
  {
    HandleRoundTrip(i, t[i].generation);
    assert SlotOk(t, i);
  }

  lemma ResolvedHandle(t: Table, h: nat)
    requires Resolves(t, h)
    ensures Live(t, Index(h)) && HandleOf(t, Index(h)) == h && h != 0
  {
    HandleRebuilds(h);
  }

  /** No handle of a live slot is 0, and live handles are pairwise distinct. */
  lemma LiveHandlesDistinct(t: Table, i: nat, j: nat)
    requires WellFormed(t) && Live(t, i) && Live(t, j)
    ensures HandleOf(t, i) != 0
    ensures HandleOf(t, i) == HandleOf(t, j) <==> i == j
  {
    LiveHandle(t, i);
    LiveHandle(t, j);
  }

  // ---- Walking up ----

  lemma UnderSelf(t: Table, root: nat)
    ensures Under(t, root, root)
  {
    assert Up(t, root, 0) == root;
  }

  lemma UnderStep(t: Table, root: nat, h: nat)
    ensures Under(t, root, h) <==> h == root || Under(t, root, ParentOf(t, h))
  {
    if Under(t, root, h) && h != root {
      var k: nat :| Up(t, h, k) == root;
      assert Up(t, ParentOf(t, h), k - 1) == root;
    }
    if h == root {
      UnderSelf(t, root);
    } else if Under(t, root, ParentOf(t, h)) {
      var k: nat :| Up(t, ParentOf(t, h), k) == root;
      assert Up(t, h, k + 1) == root;
    }
  }

  lemma {:induction false} UpFromZero(t: Table, k: nat)
    ensures Up(t, 0, k) == 0
    decreases k
  {
    if k > 0 {
      UpFromZero(t, k - 1);
    }
  }

  lemma NothingUnderZero(t: Table, root: nat)
    requires root != 0
    ensures !Under(t, root, 0)
  {
    forall k: nat
      ensures Up(t, 0, k) != root
    {
      UpFromZero(t, k);
    }
  }

  lemma {:induction false} UpAdds(t: Table, h: nat, k: nat, m: nat)
    ensures Up(t, Up(t, h, k), m) == Up(t, h, k + m)
    decreases k
  {
    if k > 0 {
      UpAdds(t, ParentOf(t, h), k - 1, m);
    }
  }

  lemma ParentResolves(t: Table, h: nat)
    requires ParentsLive(t) && Resolves(t, h) && ParentOf(t, h) != 0
    ensures Resolves(t, ParentOf(t, h))
  {
    ResolvedHandle(t, h);
  }

  lemma {:induction false} RankFalls(t: Table, rank: seq<nat>, h: nat, k: nat)
    requires ParentsLive(t) && Ranked(t, rank) && Resolves(t, h)
    ensures Up(t, h, k) != 0 ==> Resolves(t, Up(t, h, k)) && rank[Index(Up(t, h, k))] + k <= rank[Index(h)]
    decreases k
  {
    if k > 0 {
      var p := ParentOf(t, h);
      if p == 0 {
        UpFromZero(t, k - 1);
      } else {
        ParentResolves(t, h);
        RankFalls(t, rank, p, k - 1);
      }
    }
  }

  /** In a forest no node is its own proper ancestor, and every chain of parents ends. */
  lemma NoCycle(t: Table, h: nat)
    requires Forest(t) && Resolves(t, h)
    ensures forall k: nat :: k > 0 ==> Up(t, h, k) != h
    ensures exists k: nat :: Up(t, h, k) == 0
  {
    var rank :| Ranked(t, rank);
    forall k: nat | k > 0
      ensures Up(t, h, k) != h
    {
      RankFalls(t, rank, h, k);
      ResolvedHandle(t, h);
    }
    RankFalls(t, rank, h, rank[Index(h)] + 1);
    assert Up(t, h, rank[Index(h)] + 1) == 0;
  }

  /** Everything on a chain from a live slot to a live root is live. */
  lemma {:induction false} ChainLive(t: Table, root: nat, h: nat, k: nat)
    requires ParentsLive(t) && root != 0 && Resolves(t, h) && Up(t, h, k) == root
    ensures Resolves(t, root)
    decreases k
  {
    if k > 0 {
      if ParentOf(t, h) == 0 {
        UpFromZero(t, k - 1);
      } else {
        ParentResolves(t, h);
        ChainLive(t, root, ParentOf(t, h), k - 1);
      }
    }
  }

  // ---- Changing one parent ----

  ghost function Reparented(t: Table, i: nat, parent: nat): Table
    requires i < |t|
  {
    t[i := t[i].(parent := parent)]
  }

  /** Hanging a root under a node that is not below it keeps the forest. */
  lemma LinkKeepsForest(t: Table, parent: nat, child: nat)
    requires Forest(t) && Resolves(t, parent) && Resolves(t, child)
    requires ParentOf(t, child) == 0 && !Under(t, child, parent)
    ensures Forest(Reparented(t, Index(child), parent))
  {
    var t' := Reparented(t, Index(child), parent);
    var rank :| Ranked(t, rank);
    ResolvedHandle(t, child);
    var lift := rank[Index(parent)] + 1;
    var rank' := seq(|t|, i requires 0 <= i < |t| =>
      if Below(t, child, i) then rank[i] + lift else rank[i]);
    ResolvedHandle(t, parent);
    assert !Below(t, child, Index(parent));
    UnderSelf(t, child);
    assert Below(t, child, Index(child));
    forall i | Live(t', i) && Resolves(t', t'[i].parent)
      ensures rank'[Index(t'[i].parent)] < rank'[i]
    {
      if i != Index(child) {
        var p := t[i].parent;
        assert Resolves(t, p);
        LiveHandle(t, i);
        ResolvedHandle(t, p);
        UnderStep(t, child, HandleOf(t, i));
      }
    }
    assert Ranked(t', rank');
    assert forall i :: 0 <= i < |t'| ==> SlotOk(t, i) ==> SlotOk(t', i);
    forall i | Live(t', i) && t'[i].parent != 0
      ensures Resolves(t', t'[i].parent)
    {
      assert Live(t, i);
    }
  }

  lemma UnlinkKeepsForest(t: Table, child: nat)
    requires Forest(t) && Resolves(t, child)
    ensures Forest(Reparented(t, Index(child), 0))
  {
    var t' := Reparented(t, Index(child), 0);
    var rank :| Ranked(t, rank);
    assert forall i :: 0 <= i < |t'| ==> SlotOk(t, i) ==> SlotOk(t', i);
    forall i | Live(t', i) && t'[i].parent != 0
      ensures Resolves(t', t'[i].parent) && Resolves(t, t[i].parent) && t'[i] == t[i]
    {
      assert Live(t, i);
    }
    forall i | Live(t', i) && Resolves(t', t'[i].parent)
      ensures rank[Index(t'[i].parent)] < rank[i]
    {
      ResolvedHandle(t', t'[i].parent);
    }
    assert Ranked(t', rank);
  }

  /** Filling a free slot with a root keeps the forest, and changes no other handle. */
  lemma AllocateKeepsForest(t: Table, i: nat, slot: Slot)
    requires Forest(t) && 0 < i < |t| && !t[i].alive
    requires slot.alive && slot.parent == 0 && slot.node > 0 && !slot.measured
    requires 0 < slot.generation <= GENERATIONS
    ensures Forest(t[i := slot])
  {
    var t' := t[i := slot];
    var rank :| Ranked(t, rank);
    assert forall j :: 0 <= j < |t'| && j != i ==> SlotOk(t, j) ==> SlotOk(t', j);
    forall j | Live(t', j) && t'[j].parent != 0
      ensures Resolves(t', t'[j].parent) && Live(t, j) && Resolves(t, t[j].parent) && t'[j] == t[j]
    {
      assert Live(t, j);
    }
    forall j | Live(t', j) && Resolves(t', t'[j].parent)
      ensures rank[Index(t'[j].parent)] < rank[j]
    {
      ResolvedHandle(t', t'[j].parent);
    }
    assert Ranked(t', rank);
  }

  // ---- Releasing slots ----

  /** What `yoga_release_node` leaves: the generation, and nothing else. */
  function Released(slot: Slot): Slot {
    Slot(slot.generation, false, false, false, 0, 0)
  }

  /** The table after releasing every slot of `gone` and no other. */
  function ReleaseSet(t: Table, gone: set<nat>): (r: Table) {
    seq(|t|, i requires 0 <= i < |t| => if i in gone then Released(t[i]) else t[i])
  }

  /** The indices of a node and all its descendants. */
  ghost function Subtree(t: Table, root: nat): set<nat> {
    set i: nat | i < |t| && Below(t, root, i)
  }

  lemma ReleaseResolves(t: Table, gone: set<nat>, h: nat)
    ensures Resolves(ReleaseSet(t, gone), h) <==> Resolves(t, h) && Index(h) !in gone
  {
  }

  /** Releasing slots that no surviving slot names as its parent keeps the forest. */
  lemma ReleaseKeepsForest(t: Table, gone: set<nat>)
    requires Forest(t)
    requires forall i :: Live(t, i) && i !in gone && Resolves(t, t[i].parent) ==> Index(t[i].parent) !in gone
    ensures Forest(ReleaseSet(t, gone))
  {
    var t' := ReleaseSet(t, gone);
    var rank :| Ranked(t, rank);
    assert forall i :: 0 <= i < |t'| ==> SlotOk(t, i) ==> SlotOk(t', i);
    forall i | Live(t', i) && t'[i].parent != 0
      ensures Resolves(t', t'[i].parent) && Live(t, i) && Resolves(t, t[i].parent) && t'[i] == t[i]
    {
      assert Live(t, i);
      ReleaseResolves(t, gone, t[i].parent);
    }
    forall i | Live(t', i) && Resolves(t', t'[i].parent)
      ensures rank[Index(t'[i].parent)] < rank[i]
    {
      ResolvedHandle(t', t'[i].parent);
    }
    assert Ranked(t', rank);
  }

  /** A subtree is closed downward, so the survivors never name a released parent. */
  lemma SubtreeClosed(t: Table, root: nat, i: nat)
    requires Forest(t) && Live(t, i) && Resolves(t, t[i].parent)
    requires Index(t[i].parent) in Subtree(t, root)
    ensures i in Subtree(t, root)
  {
    LiveHandle(t, i);
    ResolvedHandle(t, t[i].parent);
    UnderStep(t, root, HandleOf(t, i));
  }

  lemma SubtreeReleaseKeepsForest(t: Table, root: nat)
    requires Forest(t)
    ensures Forest(ReleaseSet(t, Subtree(t, root)))
  {
    forall i | Live(t, i) && i !in Subtree(t, root) && Resolves(t, t[i].parent)
      ensures Index(t[i].parent) !in Subtree(t, root)
    {
      if Index(t[i].parent) in Subtree(t, root) {
        SubtreeClosed(t, root, i);
      }
    }
    ReleaseKeepsForest(t, Subtree(t, root));
  }

  lemma RootInSubtree(t: Table, root: nat)
    requires Resolves(t, root)
    ensures Index(root) in Subtree(t, root)
  {
    ResolvedHandle(t, root);
    UnderSelf(t, root);
  }

  /** A root and its child. */
  function Pair(): Table {
    [Slot(0, false, false, false, 0, 0), Slot(1, true, false, false, 7, 0), Slot(1, true, false, false, 8, Handle(1, 1))]
  }

  lemma PairIsForest()
    ensures Forest(Pair()) && Resolves(Pair(), Handle(1, 1)) && Subtree(Pair(), Handle(1, 1)) == {1, 2}
  {
    var t, root := Pair(), Handle(1, 1);
    HandleRoundTrip(1, 1);
    HandleRoundTrip(2, 1);
    hide Handle, Index, Generation, Under;
    assert Ranked(t, [0, 0, 1]);
    UnderSelf(t, root);
    UnderStep(t, root, Handle(2, 1));
    assert Below(t, root, 1) && Below(t, root, 2);
  }

  /** Releasing the slots one by one breaks the forest on the way: the child is left with a dead parent. */
  lemma ReleasedRootBreaksForest()
    ensures Forest(Pair()) && !Forest(ReleaseSet(Pair(), {1}))
    ensures Subtree(Pair(), Handle(1, 1)) == {1, 2} && Forest(ReleaseSet(Pair(), {1, 2}))
  {
    var t, root := Pair(), Handle(1, 1);
    PairIsForest();
    SubtreeReleaseKeepsForest(t, root);
    HandleRoundTrip(1, 1);
    hide Handle, Index, Generation, Subtree, Acyclic, WellFormed;
    var broken := ReleaseSet(t, {1});
    assert Live(broken, 2) && broken[2].parent == root && root != 0 && !Resolves(broken, root);
  }
}
