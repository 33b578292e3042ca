/** The menu tree: implicit submenus, flattening and the removal of `if` nodes, on values. */
module KconfigMenu {
  import opened Basics
  import opened KconfigModel

  datatype Kind = SymbolNode | ChoiceNode | IfNode | OtherNode

  /** What the rearrangement looks at: the kinds of nodes, their prompts, and `_auto_menu_dep`. */
  datatype Menu = Menu(kind: Id -> Kind, prompted: Id -> bool, autoDep: (Id, Id) -> bool) {
    /** The nodes that `_flatten` dissolves. */
    predicate Dissolves(n: Id) { !prompted(n) && kind(n) != ChoiceNode }

    predicate IsIf(n: Id) { kind(n) == IfNode }
  }

  /** A node with its first child and its next sibling, as the `list` and `next` fields give them. */
  datatype Forest = Nil | Node(id: Id, list: Forest, next: Forest)

  function Size(f: Forest): nat { if f.Nil? then 0 else 1 + Size(f.list) + Size(f.next) }

  function Preorder(f: Forest): seq<Id> {
    if f.Nil? then [] else [f.id] + Preorder(f.list) + Preorder(f.next)
  }

  function Append(a: Forest, b: Forest): Forest {
    if a.Nil? then b else Node(a.id, a.list, Append(a.next, b))
  }

  lemma {:induction false} AppendSize(a: Forest, b: Forest)
    ensures Size(Append(a, b)) == Size(a) + Size(b)
  {
    if a.Node? { AppendSize(a.next, b); }
  }

  lemma {:induction false} AppendAssoc(a: Forest, b: Forest, c: Forest)
    ensures Append(Append(a, b), c) == Append(a, Append(b, c))
  {
    if a.Node? { AppendAssoc(a.next, b, c); }
  }

  lemma {:induction false} AppendNil(a: Forest)
    ensures Append(a, Nil) == a
  {
    if a.Node? { AppendNil(a.next); }
  }

  // ---- The rearrangement ----

  /** `_flatten`: the children of a node that dissolves follow it, and are looked at in turn. */
  function Flatten(m: Menu, f: Forest): (r: Forest)
    ensures Size(r) == Size(f)
    decreases Size(f)
  {
    if f.Nil? then Nil
    else if f.list.Node? && m.Dissolves(f.id) then
      AppendSize(f.list, f.next);
      Node(f.id, Nil, Flatten(m, Append(f.list, f.next)))
    else Node(f.id, f.list, Flatten(m, f.next))
  }

  /** `_remove_ifs`. */
  function RemoveIfs(m: Menu, f: Forest): (r: Forest)
    ensures Size(r) <= Size(f)
  {
    if f.Nil? then Nil
    else if m.IsIf(f.id) then RemoveIfs(m, f.next)
    else Node(f.id, f.list, RemoveIfs(m, f.next))
  }

  /** `_finalize_node` on the first node of `f`; the siblings that it takes for children leave its level. */
  function Finalize(m: Menu, f: Forest): (r: Forest)
    requires f.Node?
    ensures r.Node? && r.id == f.id && Size(r) <= Size(f)
    decreases Size(f), 1
  {
    if m.kind(f.id) == SymbolNode then
      var (taken, rest) := Take(m, f.id, f.next);
      Level(m, f.id, if taken.Nil? then f.list else taken, rest)
    else Level(m, f.id, FinalizeAll(m, f.list), f.next)
  }

  /** The siblings that depend on `n`, finalized, and those after them. */
  function Take(m: Menu, n: Id, f: Forest): (r: (Forest, Forest))
    ensures Size(r.0) + Size(r.1) <= Size(f)
    decreases Size(f), 2
  {
    if f.Node? && m.autoDep(n, f.id) then
      var g := Finalize(m, f);
      var (taken, rest) := Take(m, n, g.next);
      (Node(g.id, g.list, taken), rest)
    else (Nil, f)
  }

  function FinalizeAll(m: Menu, f: Forest): (r: Forest)
    ensures Size(r) <= Size(f)
    decreases Size(f), 2
  {
    if f.Nil? then Nil
    else
      var g := Finalize(m, f);
      Node(g.id, g.list, FinalizeAll(m, g.next))
  }

  /** The final steps for the children of a node. */
  function Level(m: Menu, n: Id, list: Forest, next: Forest): (r: Forest)
    ensures r.Node? && r.id == n && Size(r) <= 1 + Size(list) + Size(next)
  {
    Node(n, RemoveIfs(m, Flatten(m, list)), next)
  }

  // ---- The order of the nodes is kept ----

  /** All nodes in definition order, the `if` nodes left out. */
  function Visible(m: Menu, f: Forest): seq<Id> {
    if f.Nil? then []
    else (if m.IsIf(f.id) then [] else [f.id]) + Visible(m, f.list) + Visible(m, f.next)
  }

  lemma {:induction false} AppendVisible(m: Menu, a: Forest, b: Forest)
    ensures Visible(m, Append(a, b)) == Visible(m, a) + Visible(m, b)
  {
    if a.Node? { AppendVisible(m, a.next, b); }
  }

  lemma {:induction false} FlattenKeeps(m: Menu, f: Forest)
    ensures Visible(m, Flatten(m, f)) == Visible(m, f)
    decreases Size(f)
  {
    if f.Node? {
      if f.list.Node? && m.Dissolves(f.id) {
        AppendSize(f.list, f.next);
        AppendVisible(m, f.list, f.next);
        FlattenKeeps(m, Append(f.list, f.next));
        VisibleSplit(m, f.id, f.list, f.next, Flatten(m, Append(f.list, f.next)));
      } else {
        FlattenKeeps(m, f.next);
      }
    }
  }

  /** The `if` nodes among the siblings have no children. */
  predicate IfsEmpty(m: Menu, f: Forest) {
    f.Node? ==> (m.IsIf(f.id) ==> f.list.Nil?) && IfsEmpty(m, f.next)
  }

  lemma {:induction false} RemoveKeeps(m: Menu, f: Forest)
    requires IfsEmpty(m, f)
    ensures Visible(m, RemoveIfs(m, f)) == Visible(m, f)
  {
    if f.Node? { RemoveKeeps(m, f.next); }
  }

  /** `if` statements have no prompt. */
  ghost predicate IfsPromptless(m: Menu) {
    forall n :: m.IsIf(n) ==> !m.prompted(n)
  }

  lemma {:induction false} FlattenEmptiesIfs(m: Menu, f: Forest)
    requires IfsPromptless(m)
    ensures IfsEmpty(m, Flatten(m, f))
    decreases Size(f)
  {
    if f.Node? {
      if f.list.Node? && m.Dissolves(f.id) {
        AppendSize(f.list, f.next);
        FlattenEmptiesIfs(m, Append(f.list, f.next));
      } else {
        FlattenEmptiesIfs(m, f.next);
      }
    }
  }

  lemma LevelKeeps(m: Menu, n: Id, list: Forest, next: Forest)
    requires IfsPromptless(m)
    ensures Visible(m, Level(m, n, list, next)) == Visible(m, Node(n, list, next))
  {
    FlattenKeeps(m, list);
    FlattenEmptiesIfs(m, list);
    RemoveKeeps(m, Flatten(m, list));
  }

  /** As parsed, symbols have no children. */
  predicate Parsed(m: Menu, f: Forest) {
    f.Node? ==> (m.kind(f.id) == SymbolNode ==> f.list.Nil?) && Parsed(m, f.list) && Parsed(m, f.next)
  }

  lemma VisibleSplit(m: Menu, n: Id, taken: Forest, rest: Forest, next: Forest)
    requires Visible(m, taken) + Visible(m, rest) == Visible(m, next)
    ensures Visible(m, Node(n, taken, rest)) == Visible(m, Node(n, Nil, next))
  {
  }

  /** Rearranging the tree keeps all nodes but the `if` nodes, in definition order. */
  lemma {:induction false} FinalizeKeeps(m: Menu, f: Forest)
    requires IfsPromptless(m) && f.Node? && Parsed(m, f)
    ensures Visible(m, Finalize(m, f)) == Visible(m, f) && Parsed(m, Finalize(m, f).next)
    decreases Size(f), 1
  {
    if m.kind(f.id) == SymbolNode {
      var (taken, rest) := Take(m, f.id, f.next);
      TakeKeeps(m, f.id, f.next);
      LevelKeeps(m, f.id, taken, rest);
      VisibleSplit(m, f.id, taken, rest, f.next);
    } else {
      FinalizeAllKeeps(m, f.list);
      LevelKeeps(m, f.id, FinalizeAll(m, f.list), f.next);
    }
  }

  lemma {:induction false} TakeKeeps(m: Menu, n: Id, f: Forest)
    requires IfsPromptless(m) && Parsed(m, f)
    ensures var (taken, rest) := Take(m, n, f);
            Visible(m, taken) + Visible(m, rest) == Visible(m, f) && Parsed(m, rest)
    decreases Size(f), 2
  {
    if f.Node? && m.autoDep(n, f.id) {
      FinalizeKeeps(m, f);
      TakeKeeps(m, n, Finalize(m, f).next);
    }
  }

  lemma {:induction false} FinalizeAllKeeps(m: Menu, f: Forest)
    requires IfsPromptless(m) && Parsed(m, f)
    ensures Visible(m, FinalizeAll(m, f)) == Visible(m, f)
    decreases Size(f), 2
  {
    if f.Node? {
      FinalizeKeeps(m, f);
      FinalizeAllKeeps(m, Finalize(m, f).next);
    }
  }

  // ---- No `if` node survives ----

  /** There is no `if` node below the nodes of this level. */
  predicate NoIfsBelow(m: Menu, f: Forest) {
    f.Node? ==> NoIfs(m, f.list) && NoIfsBelow(m, f.next)
  }

  predicate NoIfs(m: Menu, f: Forest) {
    f.Node? ==> !m.IsIf(f.id) && NoIfs(m, f.list) && NoIfs(m, f.next)
  }

  lemma {:induction false} AppendBelow(m: Menu, a: Forest, b: Forest)
    requires NoIfs(m, a) && NoIfsBelow(m, b)
    ensures NoIfsBelow(m, Append(a, b))
  {
    if a.Node? { AppendBelow(m, a.next, b); }
  }

  lemma {:induction false} FlattenBelow(m: Menu, f: Forest)
    requires NoIfsBelow(m, f)
    ensures NoIfsBelow(m, Flatten(m, f))
    decreases Size(f)
  {
    if f.Node? {
      if f.list.Node? && m.Dissolves(f.id) {
        AppendSize(f.list, f.next);
        AppendBelow(m, f.list, f.next);
        FlattenBelow(m, Append(f.list, f.next));
      } else {
        FlattenBelow(m, f.next);
      }
    }
  }

  lemma {:induction false} RemoveClears(m: Menu, f: Forest)
    requires NoIfsBelow(m, f)
    ensures NoIfs(m, RemoveIfs(m, f))
  {
    if f.Node? { RemoveClears(m, f.next); }
  }

  lemma LevelClears(m: Menu, n: Id, list: Forest, next: Forest)
    requires NoIfsBelow(m, list)
    ensures NoIfs(m, Level(m, n, list, next).list)
  {
    FlattenBelow(m, list);
    RemoveClears(m, Flatten(m, list));
  }

  lemma {:induction false} FinalizeClears(m: Menu, f: Forest)
    requires f.Node? && Parsed(m, f) && IfsPromptless(m)
    ensures NoIfs(m, Finalize(m, f).list)
    decreases Size(f), 1
  {
    if m.kind(f.id) == SymbolNode {
      var (taken, rest) := Take(m, f.id, f.next);
      TakeClears(m, f.id, f.next);
      LevelClears(m, f.id, taken, rest);
    } else {
      FinalizeAllClears(m, f.list);
      LevelClears(m, f.id, FinalizeAll(m, f.list), f.next);
    }
  }

  lemma {:induction false} TakeClears(m: Menu, n: Id, f: Forest)
    requires Parsed(m, f) && IfsPromptless(m)
    ensures NoIfsBelow(m, Take(m, n, f).0)
    decreases Size(f), 2
  {
    if f.Node? && m.autoDep(n, f.id) {
      FinalizeClears(m, f);
      FinalizeKeeps(m, f);
      TakeClears(m, n, Finalize(m, f).next);
    }
  }

  lemma {:induction false} FinalizeAllClears(m: Menu, f: Forest)
    requires Parsed(m, f) && IfsPromptless(m)
    ensures NoIfsBelow(m, FinalizeAll(m, f))
    decreases Size(f), 2
  {
    if f.Node? {
      FinalizeClears(m, f);
      FinalizeKeeps(m, f);
      FinalizeAllClears(m, Finalize(m, f).next);
    }
  }

  lemma {:induction false} NoIfsVisible(m: Menu, f: Forest)
    requires NoIfs(m, f)
    ensures Visible(m, f) == Preorder(f)
  {
    if f.Node? {
      NoIfsVisible(m, f.list);
      NoIfsVisible(m, f.next);
    }
  }

  /** The final menu tree has exactly the nodes of the parsed one that are not `if` nodes, in definition order. */
  lemma FinalTree(m: Menu, top: Forest)
    requires IfsPromptless(m) && top.Node? && top.next.Nil? && m.kind(top.id) == OtherNode && Parsed(m, top)
    ensures var final := Finalize(m, top);
            final.next.Nil? && NoIfs(m, final.list) && Preorder(final.list) == Visible(m, top.list)
  {
    FinalizeKeeps(m, top);
    FinalizeClears(m, top);
    NoIfsVisible(m, Finalize(m, top).list);
    assert Visible(m, top)[1..] == Visible(m, top.list);
    assert Visible(m, Finalize(m, top))[1..] == Visible(m, Finalize(m, top).list);
  }
}
