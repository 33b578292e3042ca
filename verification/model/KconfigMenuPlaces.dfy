/** Where every node of the menu tree ends up, said in one pass over the parsed tree. */
module KconfigMenuPlaces {
  import opened Basics
  import opened KconfigModel
  import opened KconfigMenu

  // ---- The rule ----

  /** A node that may take others, and the node under which they are shown; a base takes everything. */
  datatype Taker = Taker(id: Id, shown: Id, base: bool)

  predicate Takes(m: Menu, t: Taker, x: Id) { t.base || m.autoDep(t.id, x) }

  /** The takers up to the last one that takes `x`. */
  function UpTo(m: Menu, takers: seq<Taker>, x: Id): (kept: seq<Taker>)
    ensures kept <= takers
    ensures kept != [] ==> Takes(m, kept[|kept| - 1], x)
    ensures forall i :: |kept| <= i < |takers| ==> !Takes(m, takers[i], x)
  {
    if takers == [] || Takes(m, takers[|takers| - 1], x) then takers else UpTo(m, takers[..|takers| - 1], x)
  }

  /** Under a node that dissolves, nodes are shown where it is shown itself. */
  function ShownUnder(m: Menu, x: Id, u: Id): Id { if m.Dissolves(x) then u else x }

  /** A node that is not an `if`, with the node under which it is shown. */
  function Entry(m: Menu, x: Id, u: Id): seq<(Id, Id)> { if m.IsIf(x) then [] else [(x, u)] }

  /**
   * The nodes of a level and below, in definition order, each with the node under which it is shown: that of the nearest
   * node before it that takes it. A symbol takes what depends on it, a menu, an `if` or a choice what it encloses. The
   * first sibling that no node takes ends the level.
   */
  function Places(m: Menu, takers: seq<Taker>, f: Forest): seq<(Id, Id)>
    decreases f
  {
    if f.Nil? then []
    else
      var kept := UpTo(m, takers, f.id);
      if kept == [] then []
      else
        var u := kept[|kept| - 1].shown;
        var x := Taker(f.id, ShownUnder(m, f.id, u), m.kind(f.id) != SymbolNode);
        Entry(m, f.id, u)
        + (if x.base then Places(m, [x], f.list) + Places(m, kept, f.next) else Places(m, kept + [x], f.next))
  }

  /** The siblings from the one that ends the level on. */
  function Left(m: Menu, takers: seq<Taker>, f: Forest): Forest
    decreases f
  {
    if f.Nil? then Nil
    else
      var kept := UpTo(m, takers, f.id);
      if kept == [] then f
      else if m.kind(f.id) != SymbolNode then Left(m, kept, f.next)
      else Left(m, kept + [Taker(f.id, ShownUnder(m, f.id, kept[|kept| - 1].shown), false)], f.next)
  }

  // ---- The nodes of a tree with the nodes under which they are shown ----

  function Outline(m: Menu, u: Id, f: Forest): seq<(Id, Id)>
    decreases f
  {
    if f.Nil? then []
    else Entry(m, f.id, u) + Outline(m, ShownUnder(m, f.id, u), f.list) + Outline(m, u, f.next)
  }

  lemma {:induction false} AppendOutline(m: Menu, u: Id, a: Forest, b: Forest)
    ensures Outline(m, u, Append(a, b)) == Outline(m, u, a) + Outline(m, u, b)
  {
    if a.Node? { AppendOutline(m, u, a.next, b); }
  }

  lemma {:induction false} FlattenOutline(m: Menu, u: Id, f: Forest)
    ensures Outline(m, u, Flatten(m, f)) == Outline(m, u, f)
    decreases Size(f)
  {
    if f.Node? {
      if f.list.Node? && m.Dissolves(f.id) {
        AppendSize(f.list, f.next);
        AppendOutline(m, u, f.list, f.next);
        FlattenOutline(m, u, Append(f.list, f.next));
        OutlineSplit(m, u, f.id, f.list, f.next, Flatten(m, Append(f.list, f.next)));
      } else {
        FlattenOutline(m, u, f.next);
      }
    }
  }

  lemma {:induction false} OutlineSplit(m: Menu, u: Id, x: Id, list: Forest, rest: Forest, all: Forest)
    requires m.Dissolves(x) && Outline(m, u, list) + Outline(m, u, rest) == Outline(m, u, all)
    ensures Outline(m, u, Node(x, list, rest)) == Outline(m, u, Node(x, Nil, all))
  {
  }

  lemma {:induction false} RemoveOutline(m: Menu, u: Id, f: Forest)
    requires IfsEmpty(m, f)
    ensures Outline(m, u, RemoveIfs(m, f)) == Outline(m, u, f)
  {
    if f.Node? { RemoveOutline(m, u, f.next); }
  }

  lemma {:induction false} LevelOutline(m: Menu, u: Id, n: Id, list: Forest, next: Forest)
    requires IfsPromptless(m)
    ensures Outline(m, u, Level(m, n, list, next).list) == Outline(m, u, list)
  {
    FlattenOutline(m, u, list);
    FlattenEmptiesIfs(m, list);
    RemoveOutline(m, u, Flatten(m, list));
  }

  // ---- The rearrangement follows the rule ----

  /** A taker that does not take `x` is passed over. */
  lemma {:induction false} UpToBelow(m: Menu, takers: seq<Taker>, t: Taker, x: Id)
    ensures UpTo(m, takers + [t], x) == if Takes(m, t, x) then takers + [t] else UpTo(m, takers, x)
  {
    assert (takers + [t])[..|takers|] == takers;
  }

  predicate TakenByLast(m: Menu, takers: seq<Taker>, x: Id) { takers != [] && Takes(m, takers[|takers| - 1], x) }

  lemma {:induction false} AllKept(m: Menu, takers: seq<Taker>, x: Id)
    requires TakenByLast(m, takers, x)
    ensures UpTo(m, takers, x) == takers
  {
  }

  lemma {:induction false} SymbolPlaces(m: Menu, takers: seq<Taker>, u: Id, f: Forest, x: Taker)
    requires f.Node? && m.kind(f.id) == SymbolNode && TakenByLast(m, takers, f.id) && takers[|takers| - 1].shown == u
    requires x == Taker(f.id, ShownUnder(m, f.id, u), false)
    ensures Places(m, takers, f) == Entry(m, f.id, u) + Places(m, takers + [x], f.next)
  {
    AllKept(m, takers, f.id);
  }

  lemma {:induction false} OtherPlaces(m: Menu, takers: seq<Taker>, u: Id, f: Forest, x: Taker)
    requires f.Node? && m.kind(f.id) != SymbolNode && TakenByLast(m, takers, f.id) && takers[|takers| - 1].shown == u
    requires x == Taker(f.id, ShownUnder(m, f.id, u), true)
    ensures Places(m, takers, f) == Entry(m, f.id, u) + (Places(m, [x], f.list) + Places(m, takers, f.next))
  {
    AllKept(m, takers, f.id);
  }

  lemma {:induction false} TakenLeaves(m: Menu, takers: seq<Taker>, u: Id, f: Forest, x: Taker)
    requires f.Node? && TakenByLast(m, takers, f.id) && takers[|takers| - 1].shown == u
    requires x == Taker(f.id, ShownUnder(m, f.id, u), false)
    ensures Left(m, takers, f) == Left(m, if m.kind(f.id) == SymbolNode then takers + [x] else takers, f.next)
  {
    AllKept(m, takers, f.id);
  }

  /** A taker that does not take the first sibling takes nothing. */
  lemma {:induction false} PassedOver(m: Menu, takers: seq<Taker>, t: Taker, f: Forest)
    requires f.Node? ==> !Takes(m, t, f.id)
    ensures Places(m, takers + [t], f) == Places(m, takers, f) && Left(m, takers + [t], f) == Left(m, takers, f)
  {
    if f.Node? { UpToBelow(m, takers, t, f.id); }
  }

  lemma {:induction false} Inner<T>(all: seq<T>, a: seq<T>, b: seq<T>, mid: seq<T>, c: seq<T>, d: seq<T>)
    requires all == a + b + mid && mid == c + d
    ensures all == a + b + c + d
  {
  }

  lemma {:induction false} Outer<T>(all: seq<T>, a: seq<T>, mid: seq<T>, b: seq<T>, c: seq<T>)
    requires all == a + mid && mid == b + c
    ensures all == a + b + c
  {
  }

  /** A symbol takes its submenu; the siblings after it are left to the takers before it. */
  lemma {:induction false} TakePlaces(m: Menu, takers: seq<Taker>, t: Taker, f: Forest, taken: Forest, rest: Forest)
    requires IfsPromptless(m) && Parsed(m, f) && !t.base && Take(m, t.id, f) == (taken, rest)
    ensures Places(m, takers + [t], f) == Outline(m, t.shown, taken) + Places(m, takers, rest)
    ensures Left(m, takers + [t], f) == Left(m, takers, rest)
    decreases Size(f), 2
  {
    if f.Node? && m.autoDep(t.id, f.id) {
      var g, u, all := Finalize(m, f), t.shown, takers + [t];
      FinalizePlaces(m, all, u, f, g);
      FinalizeKeeps(m, f);
      TakePlaces(m, takers, t, g.next, taken.next, rest);
      Inner(Places(m, all, f), Entry(m, f.id, u), Outline(m, ShownUnder(m, f.id, u), g.list),
            Places(m, all, g.next), Outline(m, u, taken.next), Places(m, takers, rest));
    } else {
      PassedOver(m, takers, t, f);
    }
  }

  /** The first node of `f`, shown under `u`, with what it takes. */
  lemma {:induction false} FinalizePlaces(m: Menu, takers: seq<Taker>, u: Id, f: Forest, g: Forest)
    requires IfsPromptless(m) && f.Node? && Parsed(m, f) && g == Finalize(m, f)
    requires TakenByLast(m, takers, f.id) && takers[|takers| - 1].shown == u
    ensures Places(m, takers, f) ==
            Entry(m, f.id, u) + Outline(m, ShownUnder(m, f.id, u), g.list) + Places(m, takers, g.next)
    ensures Left(m, takers, f) == Left(m, takers, g.next)
    decreases Size(f), 1
  {
    var v := ShownUnder(m, f.id, u);
    var here, after := Entry(m, f.id, u), Places(m, takers, g.next);
    TakenLeaves(m, takers, u, f, Taker(f.id, v, false));
    if m.kind(f.id) == SymbolNode {
      var x := Taker(f.id, v, false);
      var (taken, rest) := Take(m, f.id, f.next);
      SymbolPlaces(m, takers, u, f, x);
      TakePlaces(m, takers, x, f.next, taken, rest);
      LevelOutline(m, v, f.id, taken, rest);
      Outer(Places(m, takers, f), here, Places(m, takers + [x], f.next), Outline(m, v, taken), after);
    } else {
      var x := Taker(f.id, v, true);
      OtherPlaces(m, takers, u, f, x);
      AllPlaces(m, x, f.list);
      LevelOutline(m, v, f.id, FinalizeAll(m, f.list), f.next);
      Outer(Places(m, takers, f), here, Places(m, [x], f.list) + after, Places(m, [x], f.list), after);
    }
  }

  /** All children of a menu, an `if` or a choice. */
  lemma {:induction false} AllPlaces(m: Menu, t: Taker, f: Forest)
    requires IfsPromptless(m) && Parsed(m, f) && t.base
    ensures Places(m, [t], f) == Outline(m, t.shown, FinalizeAll(m, f))
    decreases Size(f), 2
  {
    if f.Node? {
      FinalizePlaces(m, [t], t.shown, f, Finalize(m, f));
      FinalizeKeeps(m, f);
      AllPlaces(m, t, Finalize(m, f).next);
    }
  }

  // ---- Nothing is left to dissolve ----

  /** No node that dissolves has children. */
  predicate Settled(m: Menu, f: Forest) {
    f.Node? ==> (m.Dissolves(f.id) ==> f.list.Nil?) && Settled(m, f.list) && Settled(m, f.next)
  }

  predicate SettledBelow(m: Menu, f: Forest) {
    f.Node? ==> Settled(m, f.list) && SettledBelow(m, f.next)
  }

  lemma {:induction false} AppendSettledBelow(m: Menu, a: Forest, b: Forest)
    requires Settled(m, a) && SettledBelow(m, b)
    ensures SettledBelow(m, Append(a, b))
  {
    if a.Node? { AppendSettledBelow(m, a.next, b); }
  }

  lemma {:induction false} FlattenSettles(m: Menu, f: Forest)
    requires SettledBelow(m, f)
    ensures Settled(m, Flatten(m, f))
    decreases Size(f)
  {
    if f.Node? {
      if f.list.Node? && m.Dissolves(f.id) {
        AppendSize(f.list, f.next);
        AppendSettledBelow(m, f.list, f.next);
        FlattenSettles(m, Append(f.list, f.next));
      } else {
        FlattenSettles(m, f.next);
      }
    }
  }

  lemma {:induction false} RemoveSettled(m: Menu, f: Forest)
    requires Settled(m, f)
    ensures Settled(m, RemoveIfs(m, f))
  {
    if f.Node? { RemoveSettled(m, f.next); }
  }

  lemma {:induction false} LevelSettles(m: Menu, n: Id, list: Forest, next: Forest)
    requires SettledBelow(m, list)
    ensures Settled(m, Level(m, n, list, next).list)
  {
    FlattenSettles(m, list);
    RemoveSettled(m, Flatten(m, list));
  }

  lemma {:induction false} FinalizeSettles(m: Menu, f: Forest)
    requires f.Node? && Parsed(m, f) && IfsPromptless(m)
    ensures Settled(m, Finalize(m, f).list)
    decreases Size(f), 1
  {
    if m.kind(f.id) == SymbolNode {
      var (taken, rest) := Take(m, f.id, f.next);
      TakeSettles(m, f.id, f.next);
      LevelSettles(m, f.id, taken, rest);
    } else {
      AllSettle(m, f.list);
      LevelSettles(m, f.id, FinalizeAll(m, f.list), f.next);
    }
  }

  lemma {:induction false} TakeSettles(m: Menu, n: Id, f: Forest)
    requires Parsed(m, f) && IfsPromptless(m)
    ensures SettledBelow(m, Take(m, n, f).0)
    decreases Size(f), 2
  {
    if f.Node? && m.autoDep(n, f.id) {
      FinalizeSettles(m, f);
      FinalizeKeeps(m, f);
      TakeSettles(m, n, Finalize(m, f).next);
    }
  }

  lemma {:induction false} AllSettle(m: Menu, f: Forest)
    requires Parsed(m, f) && IfsPromptless(m)
    ensures SettledBelow(m, FinalizeAll(m, f))
    decreases Size(f), 2
  {
    if f.Node? {
      FinalizeSettles(m, f);
      FinalizeKeeps(m, f);
      AllSettle(m, Finalize(m, f).next);
    }
  }

  // ---- The final tree ----

  /** The nodes of a forest in the order of a walk, each with its parent. */
  function Edges(up: Id, f: Forest): seq<(Id, Id)>
    decreases f
  {
    if f.Nil? then [] else [(f.id, up)] + Edges(f.id, f.list) + Edges(up, f.next)
  }

  lemma {:induction false} OutlineIsEdges(m: Menu, u: Id, f: Forest)
    requires NoIfs(m, f) && Settled(m, f)
    ensures Outline(m, u, f) == Edges(u, f)
    decreases f
  {
    if f.Node? {
      OutlineIsEdges(m, ShownUnder(m, f.id, u), f.list);
      OutlineIsEdges(m, u, f.next);
    }
  }

  /** The tree below a node after it has been finalized. */
  lemma {:induction false} FinalEdges(m: Menu, u: Id, f: Forest)
    requires f.Node? && Parsed(m, f) && IfsPromptless(m)
    ensures Outline(m, u, Finalize(m, f).list) == Edges(u, Finalize(m, f).list)
  {
    FinalizeClears(m, f);
    FinalizeSettles(m, f);
    OutlineIsEdges(m, u, Finalize(m, f).list);
  }

  /** The whole tree: every node but the `if` nodes, in definition order, has the parent that the rule gives. */
  lemma {:induction false} TreePlaces(m: Menu, top: Forest)
    requires IfsPromptless(m) && top.Node? && m.kind(top.id) == OtherNode && Parsed(m, top)
    ensures Edges(top.id, Finalize(m, top).list) == Places(m, [Taker(top.id, top.id, true)], top.list)
  {
    AllPlaces(m, Taker(top.id, top.id, true), top.list);
    LevelOutline(m, top.id, top.id, FinalizeAll(m, top.list), top.next);
    FinalEdges(m, top.id, top);
  }

  /** The implicit submenu of a symbol, and the siblings that stay on its level. */
  lemma {:induction false} SubmenuPlaces(m: Menu, f: Forest)
    requires IfsPromptless(m) && f.Node? && m.kind(f.id) == SymbolNode && Parsed(m, f)
    ensures Edges(f.id, Finalize(m, f).list) == Places(m, [Taker(f.id, f.id, false)], f.next)
    ensures Finalize(m, f).next == Left(m, [Taker(f.id, f.id, false)], f.next)
  {
    var n, t := f.id, Taker(f.id, f.id, false);
    var (taken, rest) := Take(m, n, f.next);
    TakePlaces(m, [], t, f.next, taken, rest);
    assert [] + [t] == [t];
    LevelOutline(m, n, n, taken, rest);
    FinalEdges(m, n, f);
  }

  // ---- Which siblings a symbol takes ----

  function Siblings(f: Forest): seq<Id> { if f.Nil? then [] else [f.id] + Siblings(f.next) }

  function After(f: Forest, k: nat): Forest { if k == 0 || f.Nil? then f else After(f.next, k - 1) }

  /** Sibling `i` depends on `n`, or on a symbol among the siblings before it. */
  ghost predicate Drawn(m: Menu, n: Id, s: seq<Id>, i: int)
    requires 0 <= i < |s|
  {
    || m.autoDep(n, s[i])
    || exists j :: 0 <= j < i && m.kind(s[j]) == SymbolNode && m.autoDep(s[j], s[i])
  }

  /** The takers are `n` and symbols among the first `i` siblings. */
  ghost predicate TakersAmong(m: Menu, n: Id, s: seq<Id>, i: int, takers: seq<Taker>)
    requires 0 <= i <= |s|
  {
    forall t :: t in takers ==> !t.base && (t.id == n || exists j :: 0 <= j < i && m.kind(s[j]) == SymbolNode && t.id == s[j])
  }

  lemma {:induction false} AfterSiblings(f: Forest, k: nat)
    requires k < |Siblings(f)|
    ensures After(f, k).Node? && After(f, k).id == Siblings(f)[k] && After(f, k).next == After(f, k + 1)
    decreases k
  {
    if k > 0 {
      assert Siblings(f)[k] == Siblings(f.next)[k - 1];
      AfterSiblings(f.next, k - 1);
    }
  }

  lemma {:induction false} AfterAll(f: Forest)
    ensures After(f, |Siblings(f)|) == Nil
  {
    if f.Node? { AfterAll(f.next); }
  }

  /** What a step along the level adds to the takers. */
  lemma {:induction false} TakersGrow(m: Menu, n: Id, s: seq<Id>, i: int, takers: seq<Taker>, kept: seq<Taker>, x: Taker)
    requires 0 <= i < |s| && TakersAmong(m, n, s, i, takers) && kept <= takers && x.id == s[i] && !x.base
    ensures TakersAmong(m, n, s, i + 1, if m.kind(s[i]) == SymbolNode then kept + [x] else kept)
  {
  }

  lemma {:induction false} TakenIsDrawn(m: Menu, n: Id, s: seq<Id>, i: int, takers: seq<Taker>, t: Taker)
    requires 0 <= i < |s| && TakersAmong(m, n, s, i, takers) && t in takers && Takes(m, t, s[i])
    ensures Drawn(m, n, s, i)
  {
  }

  lemma {:induction false} LeftDrawn(m: Menu, n: Id, all: Forest, i: nat, takers: seq<Taker>) returns (k: nat)
    requires i <= |Siblings(all)| && TakersAmong(m, n, Siblings(all), i, takers)
    ensures i <= k <= |Siblings(all)| && Left(m, takers, After(all, i)) == After(all, k)
    ensures forall j :: i <= j < k ==> Drawn(m, n, Siblings(all), j)
    decreases |Siblings(all)| - i
  {
    var s, f := Siblings(all), After(all, i);
    k := i;
    if i == |s| {
      AfterAll(all);
    } else {
      AfterSiblings(all, i);
      var kept := UpTo(m, takers, f.id);
      if kept != [] {
        var t := kept[|kept| - 1];
        var x := Taker(f.id, ShownUnder(m, f.id, t.shown), false);
        TakenIsDrawn(m, n, s, i, takers, t);
        TakersGrow(m, n, s, i, takers, kept, x);
        k := LeftDrawn(m, n, all, i + 1, if m.kind(f.id) == SymbolNode then kept + [x] else kept);
      }
    }
  }

  /** All nodes of a level depend on `n`. */
  predicate AllDepend(m: Menu, n: Id, f: Forest) {
    f.Node? ==> m.autoDep(n, f.id) && AllDepend(m, n, f.next)
  }

  lemma {:induction false} TakenDepend(m: Menu, n: Id, f: Forest)
    ensures AllDepend(m, n, Take(m, n, f).0)
    ensures var rest := Take(m, n, f).1; rest.Node? ==> !m.autoDep(n, rest.id)
    decreases Size(f)
  {
    if f.Node? && m.autoDep(n, f.id) { TakenDepend(m, n, Finalize(m, f).next); }
  }

  /**
   * A symbol takes siblings as long as they depend on it or on what it has taken: the next sibling does not, those before
   * it did, and before the level is flattened all children of the symbol depend on it.
   */
  lemma {:induction false} SubmenuShape(m: Menu, f: Forest)
    requires IfsPromptless(m) && f.Node? && m.kind(f.id) == SymbolNode && Parsed(m, f)
    ensures var g := Finalize(m, f);
            && (g.next.Node? ==> !m.autoDep(f.id, g.next.id))
            && (exists k: nat :: k <= |Siblings(f.next)| && g.next == After(f.next, k)
                                 && forall i :: 0 <= i < k ==> Drawn(m, f.id, Siblings(f.next), i))
            && (exists children ::
                  AllDepend(m, f.id, children) && g.list == RemoveIfs(m, Flatten(m, children)))
            && (f.next.Nil? || !m.autoDep(f.id, f.next.id) ==> g.next == f.next && g.list.Nil?)
  {
    var t := Taker(f.id, f.id, false);
    SubmenuPlaces(m, f);
    TakenDepend(m, f.id, f.next);
    assert After(f.next, 0) == f.next;
    var k := LeftDrawn(m, f.id, f.next, 0, [t]);
    var taken := Take(m, f.id, f.next).0;
    assert AllDepend(m, f.id, taken) && Finalize(m, f).list == RemoveIfs(m, Flatten(m, taken));
  }
}
