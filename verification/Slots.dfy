/** A table of generation-checked slots with arbitrary contents: the shape of all three span-feed tables. */
module Slots {
  import opened Handles

  datatype Slot<+T> = Slot(generation: nat, alive: bool, content: T)

  type Table<+T> = seq<Slot<T>>

  predicate Live<T>(t: Table<T>, i: int) {
    0 < i < |t| && t[i].alive
  }

  /** The token of the slot's current generation. */
  function Token<T>(t: Table<T>, i: nat): nat
    requires i < |t|
  {
    Handle(i, t[i].generation)
  }

  predicate Resolves<T>(t: Table<T>, token: nat) {
    Live(t, Index(token)) && t[Index(token)].generation == Generation(token)
  }

  function At<T>(t: Table<T>, token: nat): T
    requires Resolves(t, token)
  {
    t[Index(token)].content
  }

  predicate WellFormed<T>(t: Table<T>) {
    && 1 < |t| <= SLOT_LIMIT
    && (forall i :: 0 <= i < |t| ==> t[i].generation <= GENERATIONS)
    && (forall i :: 0 <= i < |t| && t[i].alive ==> i > 0 && t[i].generation > 0)
  }

  /** The first free slot from `from` on, or the table's length. */
  function FirstFree<T>(t: Table<T>, from: nat): (i: nat)
    ensures from <= i && (from <= |t| ==> i <= |t|)
    ensures i < |t| ==> !t[i].alive
    ensures forall j :: from <= j < i && j < |t| ==> t[j].alive
    decreases |t| - from
  {
    if from >= |t| || !t[from].alive then from else FirstFree(t, from + 1)
  }

  function Allocate<T>(t: Table<T>, i: nat, content: T): Table<T>
    requires i < |t|
  {
    t[i := Slot(AllocatedGeneration(t[i].generation), true, content)]
  }

  function Write<T>(t: Table<T>, i: nat, content: T): Table<T>
    requires i < |t|
  {
    t[i := t[i].(content := content)]
  }

  function Kill<T>(t: Table<T>, i: nat, content: T): Table<T>
    requires i < |t|
  {
    t[i := t[i].(alive := false, content := content)]
  }

  lemma TokenResolves<T>(t: Table<T>, i: nat)
    requires WellFormed(t) && Live(t, i)
    ensures Resolves(t, Token(t, i)) && Index(Token(t, i)) == i && Token(t, i) != 0
  {
    HandleRoundTrip(i, t[i].generation);
  }

  lemma ResolvedToken<T>(t: Table<T>, token: nat)
    requires Resolves(t, token)
    ensures Live(t, Index(token)) && Token(t, Index(token)) == token && token != 0
  {
    HandleRebuilds(token);
  }

  /** An allocation resolves a new token, keeps every live token, and fails only on a full table. */
  lemma AllocateFresh<T>(t: Table<T>, content: T)
    requires WellFormed(t)
    ensures FirstFree(t, 1) == |t| <==> forall i :: 0 < i < |t| ==> t[i].alive
    ensures FirstFree(t, 1) < |t| ==>
              var i := FirstFree(t, 1);
              var t' := Allocate(t, i, content);
              && WellFormed(t') && Resolves(t', Token(t', i)) && Index(Token(t', i)) == i
              && Token(t', i) != 0 && !Resolves(t, Token(t', i))
              && forall token: nat :: Index(token) != i ==> (Resolves(t', token) <==> Resolves(t, token))
  {
    var i := FirstFree(t, 1);
    if i < |t| {
      HandleRoundTrip(i, AllocatedGeneration(t[i].generation));
    }
  }
}
