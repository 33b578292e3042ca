/** The menu tree as it is rearranged in place, and the walk over it that follows its links. */
module KconfigMenuTree {
  import opened Basics
  import opened KconfigModel
  import opened KconfigMenu
  import opened KconfigMenuLinks
  import opened KconfigMenuPlaces

  // ---- Parents ----

  /** The `parent` fields are as the pairs say. */
  ghost predicate Parented(h: Heap, pairs: seq<(Id, Id)>) {
    forall i :: 0 <= i < |pairs| ==> At(h.parent, pairs[i].0) == Some(pairs[i].1)
  }

  lemma {:induction false} OwnedIsParented(h: Heap, up: Id, f: Forest)
    requires Owned(h, Some(up), f)
    ensures Parented(h, Edges(up, f))
    decreases f
  {
    if f.Node? {
      OwnedIsParented(h, f.id, f.list);
      OwnedIsParented(h, up, f.next);
    }
  }

  /** The nodes that a symbol has taken are where they belong, and the next sibling is not one of them. */
  ghost predicate SubmenuTaken(m: Menu, h: Heap, f: Forest)
    requires f.Node?
  {
    && Parented(h, Places(m, [Taker(f.id, f.id, false)], f.next))
    && (At(h.next, f.id).Some? ==> !m.autoDep(f.id, At(h.next, f.id).value))
    && (f.next.Nil? || !m.autoDep(f.id, f.next.id) ==>
          At(h.list, f.id).None? && At(h.next, f.id) == if f.next.Nil? then None else Some(f.next.id))
  }

  lemma FinalizedIsTaken(m: Menu, h: Heap, up: Option<Id>, f: Forest)
    requires f.Node? && m.kind(f.id) == SymbolNode && Parsed(m, f) && IfsPromptless(m)
    requires Holds(h, Some(f.id), up, Finalize(m, f))
    ensures SubmenuTaken(m, h, f)
  {
    SubmenuPlaces(m, f);
    SubmenuShape(m, f);
    var g := Finalize(m, f);
    assert Linked(h, At(h.list, f.id), g.list, None) && Linked(h, At(h.next, f.id), g.next, None);
    assert Owned(h, Some(f.id), g.list);
    OwnedIsParented(h, f.id, g.list);
  }

  // ---- A walk along a level ----

  /** From `p` on, the siblings in `done` have been dealt with; from `mid` on, those in `rest` are still to come. */
  predicate Halfway(h: Heap, p: Option<Id>, upDone: Option<Id>, done: Forest, mid: Option<Id>, upRest: Option<Id>, rest: Forest) {
    && Linked(h, p, done, mid) && Owned(h, upDone, done)
    && Holds(h, mid, upRest, rest)
    && Distinct(done) && Distinct(rest) && Ids(done) !! Ids(rest)
  }

  lemma AppendNode(done: Forest, c: Id, list: Forest, g: Forest)
    ensures Append(Append(done, Node(c, list, Nil)), g) == Append(done, Node(c, list, g))
  {
    AppendAssoc(done, Node(c, list, Nil), g);
  }

  /** One more sibling is dealt with; only its own fields change. */
  lemma Advance(h: Heap, h1: Heap, p: Option<Id>, upDone: Option<Id>, done: Forest, c: Id, list: Forest,
                mid: Option<Id>, upRest: Option<Id>, rest: Forest)
    requires Linked(h, p, done, Some(c)) && Owned(h, upDone, done) && Distinct(done)
    requires Framed(h, h1, {c}) && At(h1.parent, c) == upDone && At(h1.next, c) == mid
    requires Linked(h, At(h1.list, c), list, None) && Owned(h, Some(c), list) && Holds(h, mid, upRest, rest)
    requires Distinct(Node(c, list, rest)) && Ids(done) !! Ids(Node(c, list, rest))
    ensures Halfway(h1, p, upDone, Append(done, Node(c, list, Nil)), mid, upRest, rest)
    ensures var now := Append(done, Node(c, list, Nil));
            now.Node? && Last(now) == c && Ids(now) == Ids(done) + {c} + Ids(list)
  {
    var one := Node(c, list, Nil);
    Framing(h, h1, {c}, p, upDone, done, Some(c));
    Framing(h, h1, {c}, At(h1.list, c), Some(c), list, None);
    Framing(h, h1, {c}, mid, upRest, rest, None);
    AppendLinked(h1, p, done, Some(c), one, mid);
    AppendOwned(h1, upDone, done, one);
    AppendDistinct(done, one);
    AppendIds(done, one);
    LastAppend(done, one);
  }

  /** The siblings still to come are rearranged among themselves. */
  lemma RestChanged(h: Heap, h1: Heap, p: Option<Id>, upDone: Option<Id>, done: Forest, mid: Option<Id>,
                    upRest: Option<Id>, rest: Forest, rest1: Forest)
    requires Halfway(h, p, upDone, done, mid, upRest, rest)
    requires Framed(h, h1, Ids(rest)) && Holds(h1, mid, upRest, rest1) && Distinct(rest1) && Ids(rest1) <= Ids(rest)
    ensures Halfway(h1, p, upDone, done, mid, upRest, rest1)
  {
    Framing(h, h1, Ids(rest), p, upDone, done, mid);
  }

  /** The siblings dealt with are cut off and become the children of `n`. */
  lemma Tilt(h: Heap, h1: Heap, n: Id, up: Option<Id>, taken: Forest, rest: Forest)
    requires taken.Node? && n !in Ids(taken) + Ids(rest)
    requires Halfway(h, At(h.next, n), Some(n), taken, At(h.next, Last(taken)), up, rest)
    requires At(h.parent, n) == up
    requires h1 == Heap(h.list[n := At(h.next, n)],
                        h.next[n := At(h.next, Last(taken))][Last(taken) := None], h.parent)
    ensures Holds(h1, Some(n), up, Node(n, taken, rest)) && Framed(h, h1, {n} + Ids(taken))
  {
    var cut := h.(next := h.next[Last(taken) := None]);
    var first, behind := At(h.next, n), At(h.next, Last(taken));
    Retarget(h, first, taken, behind, None);
    OwnedSame(h, cut, Some(n), taken);
    Framing(h, cut, {Last(taken)}, behind, up, rest, None);
    Framing(cut, h1, {n}, first, Some(n), taken, None);
    Framing(cut, h1, {n}, behind, up, rest, None);
  }

  /** The children of `c`, which have been given its parent, are linked in behind it. */
  lemma Dissolve(h: Heap, h1: Heap, h2: Heap, p: Option<Id>, up: Option<Id>, done: Forest, c: Id, list: Forest, next: Forest)
    requires list.Node? && Halfway(h, p, up, done, Some(c), up, Node(c, list, next))
    requires h1.list == h.list && h1.next == h.next && Framed(h, h1, Ids(list)) && Owned(h1, up, list)
    requires h2 == h1.(next := h1.next[Last(list) := At(h1.next, c)])
    ensures Linked(h2, p, done, Some(c)) && Owned(h2, up, done) && Holds(h2, At(h.list, c), up, Append(list, next))
    ensures Distinct(Append(list, next)) && Ids(Append(list, next)) == Ids(list) + Ids(next)
    ensures Framed(h, h2, Ids(list)) && At(h2.parent, c) == up && At(h2.list, c) == At(h.list, c)
  {
    var first, behind := At(h.list, c), At(h.next, c);
    FramedThen(h, h1, h2, Ids(list), {Last(list)}, Ids(list));
    assert Kept(h, h2, c);
    Framing(h, h2, Ids(list), p, up, done, Some(c));
    Framing(h, h2, Ids(list), behind, up, next, None);
    LinkedSame(h, h1, first, list, None);
    Retarget(h1, first, list, None, behind);
    AppendLinked(h2, first, list, behind, next, None);
    OwnedSame(h1, h2, up, list);
    AppendOwned(h2, up, list, next);
    AppendDistinct(list, next);
    AppendIds(list, next);
  }

  // ---- The way back up ----

  /** The ancestors of a node, nearest first, each with the siblings that come after it. */
  datatype Ancestors = Top | Under(id: Id, after: Forest, above: Ancestors)

  predicate Ascends(h: Heap, up: Option<Id>, a: Ancestors)
    decreases a
  {
    match a
    case Top => up.None?
    case Under(id, after, above) =>
      && up == Some(id)
      && Holds(h, At(h.next, id), At(h.parent, id), after)
      && Ascends(h, At(h.parent, id), above)
  }

  /** What is still to be visited once a node has neither children nor siblings left. */
  function Pending(a: Ancestors): seq<Id> {
    match a
    case Top => []
    case Under(_, after, above) => Preorder(after) + Pending(above)
  }

  /** The walk stands on node `n`, whose children and siblings are `list` and `next`. */
  predicate StandsOn(h: Heap, n: Id, list: Forest, next: Forest, a: Ancestors) {
    && Holds(h, At(h.list, n), Some(n), list)
    && Holds(h, At(h.next, n), At(h.parent, n), next)
    && Ascends(h, At(h.parent, n), a)
  }

  function ToVisit(list: Forest, next: Forest, a: Ancestors): seq<Id> {
    Preorder(list) + Preorder(next) + Pending(a)
  }

  lemma ToVisitDown(l: Forest, x: Forest, a: Ancestors, n: Id)
    requires l.Node?
    ensures ToVisit(l, x, a) == [l.id] + ToVisit(l.list, l.next, Under(n, x, a))
  {
  }

  lemma ToVisitAcross(x: Forest, a: Ancestors)
    requires x.Node?
    ensures ToVisit(Nil, x, a) == [x.id] + ToVisit(x.list, x.next, a)
  {
  }

  class MenuTree {
    const menu: Menu
    var list: Links
    var next: Links
    var parent: Links

    ghost function Now(): Heap
      reads this
    {
      Heap(list, next, parent)
    }

    constructor (menu: Menu, list: Links, next: Links, parent: Links)
      ensures this.menu == menu && Now() == Heap(list, next, parent)
    {
      this.menu, this.list, this.next, this.parent := menu, list, next, parent;
    }

    // ---- _flatten ----

    /** `c` gets the parent `up`. */
    method Adopt(c: Id, up: Option<Id>, ghost p: Option<Id>, ghost done: Forest, ghost was: Option<Id>, ghost rest: Forest)
      requires rest.Node? && Halfway(Now(), p, up, done, Some(c), was, rest)
      modifies `parent
      ensures Halfway(Now(), p, up, Append(done, Node(c, rest.list, Nil)), At(next, c), was, rest.next)
      ensures var now := Append(done, Node(c, rest.list, Nil));
              now.Node? && Last(now) == c && Ids(now) == Ids(done) + {c} + Ids(rest.list)
      ensures Framed(old(Now()), Now(), {c})
    {
      ghost var before := Now();
      parent := parent[c := up];
      Advance(before, Now(), p, up, done, c, rest.list, At(next, c), was, rest.next);
    }

    /** The siblings from `first` on get the parent `up`; the last of them is returned. */
    method AdoptAll(first: Id, up: Option<Id>, ghost f: Forest, ghost was: Option<Id>) returns (last: Id)
      requires f.Node? && Holds(Now(), Some(first), was, f) && Distinct(f)
      modifies `parent
      ensures last == Last(f) && Owned(Now(), up, f) && Framed(old(Now()), Now(), Ids(f))
    {
      ghost var h := Now();
      last := first;
      Adopt(last, up, Some(first), Nil, was, f);
      ghost var done, rest := Node(first, f.list, Nil), f.next;
      while At(next, last).Some?
        invariant done.Node? && last == Last(done) && Append(done, rest) == f && Ids(done) + Ids(rest) <= Ids(f)
        invariant Halfway(Now(), Some(first), up, done, At(next, last), was, rest)
        invariant Framed(h, Now(), Ids(f))
        decreases Size(rest)
      {
        ghost var before := Now();
        last := At(next, last).value;
        Adopt(last, up, Some(first), done, was, rest);
        FramedThen(h, before, Now(), Ids(f), {last}, Ids(f));
        AppendNode(done, last, rest.list, rest.next);
        done, rest := Append(done, Node(last, rest.list, Nil)), rest.next;
      }
      AppendNil(done);
    }

    /** `_flatten`, on the level from `p` on. */
    method FlattenLevel(p: Option<Id>, ghost f: Forest, ghost up: Option<Id>)
      requires Holds(Now(), p, up, f) && Distinct(f)
      modifies this
      ensures Holds(Now(), p, up, Flatten(menu, f)) && Framed(old(Now()), Now(), Ids(f))
    {
      ghost var h := Now();
      var node := p;
      ghost var done, rest := Nil, f;
      while node.Some?
        invariant Halfway(Now(), p, up, done, node, up, rest)
        invariant Flatten(menu, f) == Append(done, Flatten(menu, rest)) && Ids(done) + Ids(rest) <= Ids(f)
        invariant Framed(h, Now(), Ids(f))
        decreases Size(rest)
      {
        var c := node.value;
        ghost var before := Now();
        ghost var l, x := rest.list, rest.next;
        assert Linked(Now(), At(list, c), l, None);
        if At(list, c).Some? && menu.Dissolves(c) {
          DissolveNode(c, p, up, done, l, x);
          FramedThen(h, before, Now(), Ids(f), Ids(rest), Ids(f));
          AppendNode(done, c, Nil, Flatten(menu, Append(l, x)));
          AppendSize(l, x);
          done, rest := Append(done, Node(c, Nil, Nil)), Append(l, x);
        } else {
          Advance(Now(), Now(), p, up, done, c, l, At(next, c), up, x);
          AppendNode(done, c, l, Flatten(menu, x));
          done, rest := Append(done, Node(c, l, Nil)), x;
        }
        node := At(next, c);
      }
      AppendNil(done);
    }

    method DissolveNode(c: Id, ghost p: Option<Id>, ghost up: Option<Id>, ghost done: Forest, ghost l: Forest, ghost x: Forest)
      requires l.Node? && Halfway(Now(), p, up, done, Some(c), up, Node(c, l, x))
      modifies this
      ensures Halfway(Now(), p, up, Append(done, Node(c, Nil, Nil)), At(next, c), up, Append(l, x))
      ensures Ids(Append(done, Node(c, Nil, Nil))) == Ids(done) + {c} && Ids(Append(l, x)) == Ids(l) + Ids(x)
      ensures Framed(old(Now()), Now(), Ids(Node(c, l, x)))
    {
      ghost var h := Now();
      assert Linked(h, At(list, c), l, None);
      var last := AdoptAll(At(list, c).value, At(parent, c), l, Some(c));
      ghost var h1 := Now();
      next := next[last := At(next, c)];
      ghost var h2 := Now();
      Dissolve(h, h1, h2, p, up, done, c, l, x);
      next := next[c := At(list, c)];
      list := list[c := None];
      Advance(h2, Now(), p, up, done, c, Nil, At(next, c), up, Append(l, x));
      FramedThen(h, h2, Now(), Ids(l), {c}, Ids(Node(c, l, x)));
    }

    // ---- _remove_ifs ----

    /** The first node from `p` on that is not an `if` node. */
    method SkipIfs(p: Option<Id>, ghost f: Forest, ghost up: Option<Id>) returns (q: Option<Id>, ghost g: Forest)
      requires Holds(Now(), p, up, f) && Distinct(f)
      ensures Holds(Now(), q, up, g) && Distinct(g) && Ids(g) <= Ids(f) && Size(g) <= Size(f)
      ensures RemoveIfs(menu, g) == RemoveIfs(menu, f) && (g.Node? ==> !menu.IsIf(g.id))
    {
      q, g := p, f;
      while q.Some? && menu.IsIf(q.value)
        invariant Holds(Now(), q, up, g) && Distinct(g) && Ids(g) <= Ids(f) && Size(g) <= Size(f)
        invariant RemoveIfs(menu, g) == RemoveIfs(menu, f)
        decreases Size(g)
      {
        q, g := At(next, q.value), g.next;
      }
    }

    /** `_remove_ifs`, on the children of `n`. */
    method RemoveIfNodes(n: Id, ghost f: Forest)
      requires Holds(Now(), At(list, n), Some(n), f) && Distinct(f) && n !in Ids(f)
      modifies `list, `next
      ensures Holds(Now(), At(list, n), Some(n), RemoveIfs(menu, f))
      ensures At(next, n) == old(At(next, n)) && Framed(old(Now()), Now(), Ids(f) + {n})
    {
      ghost var h := Now();
      var cur, rest := SkipIfs(At(list, n), f, Some(n));
      list := list[n := cur];
      Framing(h, Now(), {n}, cur, Some(n), rest, None);
      RelinkOthers(n, cur, rest);
      FramedThen(h, h.(list := list), Now(), {n}, Ids(rest), Ids(f) + {n});
      assert Kept(h.(list := list), Now(), n);
    }

    /** From `first` on, the `if` nodes between the others are taken out. */
    method RelinkOthers(n: Id, first: Option<Id>, ghost f: Forest)
      requires Holds(Now(), first, Some(n), f) && Distinct(f) && (f.Node? ==> !menu.IsIf(f.id))
      modifies `next
      ensures Holds(Now(), first, Some(n), RemoveIfs(menu, f)) && Framed(old(Now()), Now(), Ids(f))
    {
      ghost var h := Now();
      var cur := first;
      ghost var done, rest := Nil, f;
      while cur.Some?
        invariant Halfway(Now(), first, Some(n), done, cur, Some(n), rest) && (rest.Node? ==> !menu.IsIf(rest.id))
        invariant RemoveIfs(menu, f) == Append(done, RemoveIfs(menu, rest)) && Ids(done) + Ids(rest) <= Ids(f)
        invariant Framed(h, Now(), Ids(f))
        decreases Size(rest)
      {
        var c := cur.value;
        ghost var before, rest1 := Now(), rest;
        cur, rest1 := RelinkNext(n, c, first, done, rest);
        FramedThen(h, before, Now(), Ids(f), {c}, Ids(f));
        AppendNode(done, c, rest.list, RemoveIfs(menu, rest1));
        done, rest := Append(done, Node(c, rest.list, Nil)), rest1;
      }
      AppendNil(done);
    }

    /** The node `c` is linked to the next one that is not an `if` node. */
    method RelinkNext(n: Id, c: Id, ghost first: Option<Id>, ghost done: Forest, ghost rest: Forest)
      returns (cur: Option<Id>, ghost rest1: Forest)
      requires rest.Node? && Halfway(Now(), first, Some(n), done, Some(c), Some(n), rest)
      modifies `next
      ensures Halfway(Now(), first, Some(n), Append(done, Node(c, rest.list, Nil)), cur, Some(n), rest1)
      ensures Ids(Append(done, Node(c, rest.list, Nil))) + Ids(rest1) <= Ids(done) + Ids(rest)
      ensures RemoveIfs(menu, rest1) == RemoveIfs(menu, rest.next) && (rest1.Node? ==> !menu.IsIf(rest1.id))
      ensures Size(rest1) < Size(rest) && Framed(old(Now()), Now(), {c})
    {
      cur, rest1 := SkipIfs(At(next, c), rest.next, Some(n));
      ghost var before := Now();
      next := next[c := cur];
      Advance(before, Now(), first, Some(n), done, c, rest.list, cur, Some(n), rest1);
    }

    // ---- _finalize_node ----

    /** `_finalize_node`. */
    method FinalizeNode(n: Id, ghost f: Forest, ghost up: Option<Id>)
      requires f.Node? && Holds(Now(), Some(n), up, f) && Distinct(f)
      modifies this
      ensures Holds(Now(), Some(n), up, Finalize(menu, f)) && Framed(old(Now()), Now(), Ids(f))
      ensures menu.kind(n) == SymbolNode && Parsed(menu, f) && IfsPromptless(menu) ==> SubmenuTaken(menu, Now(), f)
      decreases Size(f), 1
    {
      ghost var h := Now();
      ghost var g: Forest;
      if menu.kind(n) == SymbolNode {
        g := TakeDependents(n, f, up);
      } else {
        FinalizeChildren(n, f, up);
        g := Node(n, FinalizeAll(menu, f.list), f.next);
      }
      ghost var h1 := Now();
      FinishLevel(n, g, up);
      FramedThen(h, h1, Now(), Ids(f), Ids(g), Ids(f));
      if menu.kind(n) == SymbolNode && Parsed(menu, f) && IfsPromptless(menu) {
        FinalizedIsTaken(menu, Now(), up, f);
      }
    }

    /** The last steps for the children of `n`. */
    method FinishLevel(n: Id, ghost g: Forest, ghost up: Option<Id>)
      requires g.Node? && Holds(Now(), Some(n), up, g) && Distinct(g)
      modifies this
      ensures Holds(Now(), Some(n), up, Level(menu, n, g.list, g.next)) && Framed(old(Now()), Now(), Ids(g))
    {
      ghost var h := Now();
      assert Linked(h, At(list, n), g.list, None);
      if At(list, n).None? { return; }
      FlattenLevel(At(list, n), g.list, Some(n));
      ghost var h1 := Now();
      assert Kept(h, h1, n);
      FlattenIds(menu, g.list);
      RemoveIfNodes(n, Flatten(menu, g.list));
      FramedThen(h, h1, Now(), Ids(g.list), Ids(g.list) + {n}, Ids(g.list) + {n});
      Framing(h, Now(), Ids(g.list) + {n}, At(h.next, n), up, g.next, None);
    }

    /** The siblings that depend on the symbol `n` are finalized and tilted into a submenu of it. */
    method TakeDependents(n: Id, ghost f: Forest, ghost up: Option<Id>) returns (ghost g: Forest)
      requires f.Node? && Holds(Now(), Some(n), up, f) && Distinct(f)
      modifies this
      ensures var (taken, rest) := Take(menu, n, f.next); g == Node(n, if taken.Nil? then f.list else taken, rest)
      ensures Holds(Now(), Some(n), up, g) && Distinct(g) && Ids(g) <= Ids(f) && Framed(old(Now()), Now(), Ids(f))
      ensures (g.list == f.list || AllDepend(menu, n, g.list)) && (g.next.Node? ==> !menu.autoDep(n, g.next.id))
      decreases Size(f), 0
    {
      ghost var h := Now();
      var cur := n;
      ghost var done, rest := Nil, f.next;
      while At(next, cur).Some? && menu.autoDep(n, At(next, cur).value)
        invariant Halfway(Now(), At(next, n), Some(n), done, At(next, cur), up, rest)
        invariant cur == if done.Nil? then n else Last(done)
        invariant Take(menu, n, f.next) == (Append(done, Take(menu, n, rest).0), Take(menu, n, rest).1)
        invariant Ids(done) + Ids(rest) <= Ids(f.next) && Size(rest) <= Size(f.next)
        invariant Framed(h, Now(), Ids(f.next))
        decreases Size(rest)
      {
        var c := At(next, cur).value;
        ghost var before := Now();
        TakeNext(n, c, up, done, rest);
        FramedThen(h, before, Now(), Ids(f.next), Ids(rest), Ids(f.next));
        cur := c;
        ghost var final := Finalize(menu, rest);
        AppendNode(done, c, final.list, Take(menu, n, final.next).0);
        done, rest := Append(done, Node(c, final.list, Nil)), final.next;
      }
      AppendNil(done);
      TakenDistinct(f, done, rest);
      TakenDepend(menu, n, f.next);
      g := Node(n, if done.Nil? then f.list else done, rest);
      assert Kept(h, Now(), n);
      if cur != n {
        ghost var before := Now();
        TiltUp(n, cur, up, done, rest);
        FramedThen(h, before, Now(), Ids(f.next), {n} + Ids(done), Ids(f));
      } else {
        Framing(h, Now(), Ids(f.next), At(list, n), Some(n), f.list, None);
      }
    }

    /** The siblings up to `cur` become the children of `n`. */
    method TiltUp(n: Id, cur: Id, ghost up: Option<Id>, ghost taken: Forest, ghost rest: Forest)
      requires taken.Node? && cur == Last(taken) && n !in Ids(taken) + Ids(rest) && At(parent, n) == up
      requires Halfway(Now(), At(next, n), Some(n), taken, At(next, cur), up, rest)
      modifies `list, `next
      ensures Holds(Now(), Some(n), up, Node(n, taken, rest)) && Framed(old(Now()), Now(), {n} + Ids(taken))
    {
      ghost var before := Now();
      list := list[n := At(next, n)];
      next := next[n := At(next, cur)];
      next := next[cur := None];
      Tilt(before, Now(), n, up, taken, rest);
    }

    /** The next sibling `c` is finalized and becomes a child of `n`. */
    method TakeNext(n: Id, c: Id, ghost up: Option<Id>, ghost done: Forest, ghost rest: Forest)
      requires rest.Node? && Halfway(Now(), At(next, n), Some(n), done, Some(c), up, rest) && n !in Ids(rest)
      modifies this
      ensures var final := Finalize(menu, rest); var now := Append(done, Node(c, final.list, Nil));
              && Halfway(Now(), At(next, n), Some(n), now, At(next, c), up, final.next)
              && now.Node? && Last(now) == c && Ids(now) + Ids(final.next) <= Ids(done) + Ids(rest)
      ensures Framed(old(Now()), Now(), Ids(rest))
      decreases Size(rest), 2
    {
      ghost var h := Now();
      ghost var final := Finalize(menu, rest);
      FinalizeNode(c, rest, up);
      ghost var h1 := Now();
      FinalizeIds(menu, rest);
      RestChanged(h, h1, At(h.next, n), Some(n), done, Some(c), up, rest, final);
      assert Kept(h, h1, n);
      parent := parent[c := Some(n)];
      Advance(h1, Now(), At(h1.next, n), Some(n), done, c, final.list, At(next, c), up, final.next);
      FramedThen(h, h1, Now(), Ids(rest), {c}, Ids(rest));
    }

    /** The children of `n` are finalized one after the other. */
    method FinalizeChildren(n: Id, ghost f: Forest, ghost up: Option<Id>)
      requires f.Node? && Holds(Now(), Some(n), up, f) && Distinct(f)
      modifies this
      ensures var g := Node(n, FinalizeAll(menu, f.list), f.next); Holds(Now(), Some(n), up, g) && Distinct(g)
      ensures Framed(old(Now()), Now(), Ids(f)) && Ids(FinalizeAll(menu, f.list)) <= Ids(f.list)
      decreases Size(f), 0
    {
      ghost var h := Now();
      var cur := At(list, n);
      ghost var done, rest := Nil, f.list;
      while cur.Some?
        invariant Halfway(Now(), At(h.list, n), Some(n), done, cur, Some(n), rest)
        invariant FinalizeAll(menu, f.list) == Append(done, FinalizeAll(menu, rest))
        invariant Ids(done) + Ids(rest) <= Ids(f.list) && Size(rest) <= Size(f.list)
        invariant Framed(h, Now(), Ids(f.list))
        decreases Size(rest)
      {
        var c := cur.value;
        ghost var before := Now();
        FinalizeNext(c, At(h.list, n), Some(n), done, rest);
        FramedThen(h, before, Now(), Ids(f.list), Ids(rest), Ids(f.list));
        ghost var final := Finalize(menu, rest);
        AppendNode(done, c, final.list, FinalizeAll(menu, final.next));
        done, rest := Append(done, Node(c, final.list, Nil)), final.next;
        cur := At(next, c);
      }
      AppendNil(done);
      assert Kept(h, Now(), n);
      Framing(h, Now(), Ids(f.list), At(h.next, n), up, f.next, None);
    }

    method FinalizeNext(c: Id, ghost p: Option<Id>, ghost up: Option<Id>, ghost done: Forest, ghost rest: Forest)
      requires rest.Node? && Halfway(Now(), p, up, done, Some(c), up, rest)
      modifies this
      ensures var final := Finalize(menu, rest); var now := Append(done, Node(c, final.list, Nil));
              && Halfway(Now(), p, up, now, At(next, c), up, final.next)
              && Ids(now) + Ids(final.next) <= Ids(done) + Ids(rest)
      ensures Framed(old(Now()), Now(), Ids(rest))
      decreases Size(rest), 2
    {
      ghost var h := Now();
      ghost var final := Finalize(menu, rest);
      FinalizeNode(c, rest, up);
      FinalizeIds(menu, rest);
      RestChanged(h, Now(), p, up, done, Some(c), up, rest, final);
      Advance(Now(), Now(), p, up, done, c, final.list, At(next, c), up, final.next);
    }

    // ---- node_iter ----

    /** The node after one without children and siblings: the next sibling of the nearest ancestor that has one. */
    method Climb(n: Id, ghost a: Ancestors) returns (q: Option<Id>, ghost rest: Forest, ghost above: Ancestors)
      requires StandsOn(Now(), n, Nil, Nil, a)
      ensures q.None? ==> Pending(a) == []
      ensures q.Some? ==> rest.Node? && rest.id == q.value && Pending(a) == Preorder(rest) + Pending(above)
                          && StandsOn(Now(), q.value, rest.list, rest.next, above)
    {
      var node := n;
      above, rest := a, Nil;
      while At(parent, node).Some?
        invariant Ascends(Now(), At(parent, node), above) && Pending(above) == Pending(a)
        decreases above
      {
        node := At(parent, node).value;
        rest, above := above.after, above.above;
        if At(next, node).Some? { return At(next, node), rest, above; }
      }
      q := None;
    }

    /** The node after `n`. */
    method NextNode(n: Id, ghost l: Forest, ghost x: Forest, ghost a: Ancestors)
      returns (q: Option<Id>, ghost l1: Forest, ghost x1: Forest, ghost a1: Ancestors)
      requires StandsOn(Now(), n, l, x, a)
      ensures q.None? ==> ToVisit(l, x, a) == []
      ensures q.Some? ==> StandsOn(Now(), q.value, l1, x1, a1) && ToVisit(l, x, a) == [q.value] + ToVisit(l1, x1, a1)
    {
      l1, x1, a1 := l, x, a;
      if At(list, n).Some? {
        q, l1, x1, a1 := At(list, n), l.list, l.next, Under(n, x, a);
        ToVisitDown(l, x, a, n);
      } else if At(next, n).Some? {
        q, l1, x1 := At(next, n), x.list, x.next;
        ToVisitAcross(x, a);
      } else {
        ghost var rest;
        q, rest, a1 := Climb(n, a);
        if q.Some? { l1, x1 := rest.list, rest.next; }
      }
    }

    /** `node_iter`: the walk along the links visits each node once, in definition order. */
    method NodeIter(top: Id, ghost f: Forest) returns (visited: seq<Id>)
      requires Holds(Now(), At(list, top), Some(top), f) && At(next, top).None? && At(parent, top).None?
      ensures visited == Preorder(f)
    {
      visited := [];
      ghost var l, x, a := f, Nil, Top;
      var q := Some(top);
      while true
        invariant q.Some? && StandsOn(Now(), q.value, l, x, a) && visited + ToVisit(l, x, a) == Preorder(f)
        decreases |ToVisit(l, x, a)|
      {
        q, l, x, a := NextNode(q.value, l, x, a);
        if q.None? { return; }
        visited := visited + [q.value];
      }
    }

    /**
     * The whole tree below the top menu is rearranged. The walk over the result visits the nodes that were parsed,
     * in the order in which they were defined, and none that stands for an `if`. Each finds the parent that the rule for
     * submenus gives it.
     */
    method FinalizeTree(top: Id, ghost f: Forest) returns (visited: seq<Id>)
      requires f.Node? && f.next.Nil? && Holds(Now(), Some(top), None, f) && Distinct(f)
      requires IfsPromptless(menu) && menu.kind(top) == OtherNode && Parsed(menu, f)
      modifies this
      ensures Holds(Now(), Some(top), None, Finalize(menu, f)) && NoIfs(menu, Finalize(menu, f).list)
      ensures visited == Visible(menu, f.list)
      ensures Parented(Now(), Places(menu, [Taker(top, top, true)], f.list))
    {
      FinalizeNode(top, f, None);
      FinalTree(menu, f);
      TreePlaces(menu, f);
      OwnedIsParented(Now(), top, Finalize(menu, f).list);
      assert Linked(Now(), At(next, top), Nil, None);
      visited := NodeIter(top, Finalize(menu, f).list);
    }
  }
}
