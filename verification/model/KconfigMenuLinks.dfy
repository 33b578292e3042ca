/** Menu trees as they lie in memory, linked by the `list`, `next` and `parent` fields of their nodes. */
module KconfigMenuLinks {
  import opened Basics
  import opened KconfigModel
  import opened KconfigMenu

  type Links = map<Id, Option<Id>>

  /** The fields of all nodes; a field that was never set is None. */
  datatype Heap = Heap(list: Links, next: Links, parent: Links)

  function At(l: Links, n: Id): Option<Id> { if n in l then l[n] else None }

  /** From `p` on, the nodes are linked as in `f`; behind its last sibling comes `q`. */
  predicate Linked(h: Heap, p: Option<Id>, f: Forest, q: Option<Id>)
    decreases f
  {
    if f.Nil? then p == q
    else p == Some(f.id) && Linked(h, At(h.list, f.id), f.list, None) && Linked(h, At(h.next, f.id), f.next, q)
  }

  /** The nodes know their parents. */
  predicate Owned(h: Heap, up: Option<Id>, f: Forest)
    decreases f
  {
    f.Node? ==> At(h.parent, f.id) == up && Owned(h, Some(f.id), f.list) && Owned(h, up, f.next)
  }

  /** A whole level with all that is below it. */
  predicate Holds(h: Heap, p: Option<Id>, up: Option<Id>, f: Forest) {
    Linked(h, p, f, None) && Owned(h, up, f)
  }

  function Ids(f: Forest): set<Id> { if f.Nil? then {} else {f.id} + Ids(f.list) + Ids(f.next) }

  predicate Distinct(f: Forest) {
    f.Node? ==>
      && f.id !in Ids(f.list) && f.id !in Ids(f.next) && Ids(f.list) !! Ids(f.next)
      && Distinct(f.list) && Distinct(f.next)
  }

  /** The fields of `n` have not changed. */
  predicate Kept(h: Heap, h1: Heap, n: Id) {
    At(h.list, n) == At(h1.list, n) && At(h.next, n) == At(h1.next, n) && At(h.parent, n) == At(h1.parent, n)
  }

  /** Outside `s`, nothing has changed. */
  ghost predicate Framed(h: Heap, h1: Heap, s: set<Id>) {
    forall n {:trigger Kept(h, h1, n)} :: n !in s ==> Kept(h, h1, n)
  }

  lemma FramedThen(h: Heap, h1: Heap, h2: Heap, s: set<Id>, s1: set<Id>, all: set<Id>)
    requires Framed(h, h1, s) && Framed(h1, h2, s1) && s <= all && s1 <= all
    ensures Framed(h, h2, all)
  {
    forall n | n !in all ensures Kept(h, h2, n) {
      assert Kept(h, h1, n) && Kept(h1, h2, n);
    }
  }

  lemma {:induction false} LinkedFrame(h: Heap, h1: Heap, s: set<Id>, p: Option<Id>, f: Forest, q: Option<Id>)
    requires Framed(h, h1, s) && s !! Ids(f) && Linked(h, p, f, q)
    ensures Linked(h1, p, f, q)
    decreases f
  {
    if f.Node? {
      assert f.id in Ids(f) && f.id !in s && Kept(h, h1, f.id);
      LinkedFrame(h, h1, s, At(h.list, f.id), f.list, None);
      LinkedFrame(h, h1, s, At(h.next, f.id), f.next, q);
    }
  }

  lemma {:induction false} OwnedFrame(h: Heap, h1: Heap, s: set<Id>, up: Option<Id>, f: Forest)
    requires Framed(h, h1, s) && s !! Ids(f) && Owned(h, up, f)
    ensures Owned(h1, up, f)
    decreases f
  {
    if f.Node? {
      assert f.id in Ids(f) && f.id !in s && Kept(h, h1, f.id);
      OwnedFrame(h, h1, s, Some(f.id), f.list);
      OwnedFrame(h, h1, s, up, f.next);
    }
  }

  lemma {:induction false} OwnedSame(h: Heap, h1: Heap, up: Option<Id>, f: Forest)
    requires h1.parent == h.parent && Owned(h, up, f)
    ensures Owned(h1, up, f)
    decreases f
  {
    if f.Node? {
      OwnedSame(h, h1, Some(f.id), f.list);
      OwnedSame(h, h1, up, f.next);
    }
  }

  lemma {:induction false} LinkedSame(h: Heap, h1: Heap, p: Option<Id>, f: Forest, q: Option<Id>)
    requires h1.list == h.list && h1.next == h.next && Linked(h, p, f, q)
    ensures Linked(h1, p, f, q)
    decreases f
  {
    if f.Node? {
      LinkedSame(h, h1, At(h.list, f.id), f.list, None);
      LinkedSame(h, h1, At(h.next, f.id), f.next, q);
    }
  }

  lemma Framing(h: Heap, h1: Heap, s: set<Id>, p: Option<Id>, up: Option<Id>, f: Forest, q: Option<Id>)
    requires Framed(h, h1, s) && s !! Ids(f) && Linked(h, p, f, q) && Owned(h, up, f)
    ensures Linked(h1, p, f, q) && Owned(h1, up, f)
  {
    LinkedFrame(h, h1, s, p, f, q);
    OwnedFrame(h, h1, s, up, f);
  }

  // ---- Joining and cutting ----

  lemma {:induction false} AppendIds(a: Forest, b: Forest)
    ensures Ids(Append(a, b)) == Ids(a) + Ids(b)
  {
    if a.Node? { AppendIds(a.next, b); }
  }

  lemma {:induction false} AppendDistinct(a: Forest, b: Forest)
    requires Distinct(a) && Distinct(b) && Ids(a) !! Ids(b)
    ensures Distinct(Append(a, b))
  {
    if a.Node? {
      AppendDistinct(a.next, b);
      AppendIds(a.next, b);
    }
  }

  lemma {:induction false} AppendLinked(h: Heap, p: Option<Id>, a: Forest, mid: Option<Id>, b: Forest, q: Option<Id>)
    requires Linked(h, p, a, mid) && Linked(h, mid, b, q)
    ensures Linked(h, p, Append(a, b), q)
    decreases a
  {
    if a.Node? { AppendLinked(h, At(h.next, a.id), a.next, mid, b, q); }
  }

  lemma {:induction false} AppendOwned(h: Heap, up: Option<Id>, a: Forest, b: Forest)
    requires Owned(h, up, a) && Owned(h, up, b)
    ensures Owned(h, up, Append(a, b))
    decreases a
  {
    if a.Node? { AppendOwned(h, up, a.next, b); }
  }

  /** The last sibling. */
  function Last(f: Forest): (n: Id)
    requires f.Node?
    ensures n in Ids(f)
  {
    if f.next.Nil? then f.id else Last(f.next)
  }

  lemma {:induction false} LastAppend(a: Forest, b: Forest)
    requires b.Node?
    ensures Append(a, b).Node? && Last(Append(a, b)) == Last(b)
  {
    if a.Node? { LastAppend(a.next, b); }
  }

  /** Changing what comes behind the last sibling. */
  lemma {:induction false} Retarget(h: Heap, p: Option<Id>, f: Forest, q: Option<Id>, r: Option<Id>)
    requires f.Node? && Linked(h, p, f, q) && Distinct(f)
    ensures Linked(h.(next := h.next[Last(f) := r]), p, f, r)
    decreases f
  {
    var h1 := h.(next := h.next[Last(f) := r]);
    assert Framed(h, h1, {Last(f)});
    if f.next.Node? {
      Retarget(h, At(h.next, f.id), f.next, q, r);
      LinkedFrame(h, h1, {Last(f)}, At(h.list, f.id), f.list, None);
    } else {
      LinkedFrame(h, h1, {f.id}, At(h.list, f.id), f.list, None);
    }
  }

  // ---- Nodes of the rearranged forests ----

  lemma {:induction false} FlattenIds(m: Menu, f: Forest)
    ensures Ids(Flatten(m, f)) == Ids(f)
    ensures Distinct(f) ==> Distinct(Flatten(m, f))
    decreases Size(f)
  {
    if f.Node? {
      if f.list.Node? && m.Dissolves(f.id) {
        AppendSize(f.list, f.next);
        AppendIds(f.list, f.next);
        FlattenIds(m, Append(f.list, f.next));
        if Distinct(f) { AppendDistinct(f.list, f.next); }
      } else {
        FlattenIds(m, f.next);
      }
    }
  }

  lemma {:induction false} RemoveIds(m: Menu, f: Forest)
    ensures Ids(RemoveIfs(m, f)) <= Ids(f)
    ensures Distinct(f) ==> Distinct(RemoveIfs(m, f))
  {
    if f.Node? { RemoveIds(m, f.next); }
  }

  lemma LevelIds(m: Menu, n: Id, list: Forest, next: Forest)
    requires Distinct(Node(n, list, next))
    ensures Ids(Level(m, n, list, next)) <= Ids(Node(n, list, next)) && Distinct(Level(m, n, list, next))
  {
    FlattenIds(m, list);
    RemoveIds(m, Flatten(m, list));
  }

  lemma {:induction false} FinalizeIds(m: Menu, f: Forest)
    requires f.Node? && Distinct(f)
    ensures Ids(Finalize(m, f)) <= Ids(f) && Distinct(Finalize(m, f))
    decreases Size(f), 1
  {
    if m.kind(f.id) == SymbolNode {
      TakeIds(m, f.id, f.next);
      var (taken, rest) := Take(m, f.id, f.next);
      TakenDistinct(f, taken, rest);
      LevelIds(m, f.id, if taken.Nil? then f.list else taken, rest);
    } else {
      FinalizeAllIds(m, f.list);
      LevelIds(m, f.id, FinalizeAll(m, f.list), f.next);
    }
  }

  lemma TakenDistinct(f: Forest, taken: Forest, rest: Forest)
    requires f.Node? && Distinct(f)
    requires Ids(taken) <= Ids(f.next) && Ids(rest) <= Ids(f.next) && Ids(taken) !! Ids(rest)
    requires Distinct(taken) && Distinct(rest)
    ensures var g := Node(f.id, if taken.Nil? then f.list else taken, rest); Distinct(g) && Ids(g) <= Ids(f)
  {
  }

  lemma {:induction false} TakeIds(m: Menu, n: Id, f: Forest)
    requires Distinct(f)
    ensures var (taken, rest) := Take(m, n, f);
            && Ids(taken) <= Ids(f) && Ids(rest) <= Ids(f) && Ids(taken) !! Ids(rest)
            && Distinct(taken) && Distinct(rest)
    decreases Size(f), 2
  {
    if f.Node? && m.autoDep(n, f.id) {
      FinalizeIds(m, f);
      TakeIds(m, n, Finalize(m, f).next);
    }
  }

  lemma {:induction false} FinalizeAllIds(m: Menu, f: Forest)
    requires Distinct(f)
    ensures Ids(FinalizeAll(m, f)) <= Ids(f) && Distinct(FinalizeAll(m, f))
    decreases Size(f), 2
  {
    if f.Node? {
      FinalizeIds(m, f);
      FinalizeAllIds(m, Finalize(m, f).next);
    }
  }
}
