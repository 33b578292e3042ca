/** Post-processing of the menu tree: dependencies are pushed down into the conditions of properties, and the
    properties of all definitions of a symbol are collected. */
module KconfigPropagate {
  import opened Basics
  import opened KconfigModel
  import opened KconfigEval
  import opened KconfigReads
  import opened KconfigMinConfig
  import opened KconfigChoice

  // ---- The meaning of an expression ----

  /** An assignment of values to everything an expression can mention. */
  datatype Valuation = Valuation(sym: Atom -> Tristate, mode: Id -> Tristate, cmp: (Relation, Atom, Atom) -> bool) {
    function Of(e: Expr): Tristate {
      match e
      case Leaf(a) => if a.Nmy? then a.t else sym(a)
      case ChoiceMode(c) => mode(c)
      case And(l, r) => Min(Of(l), Of(r))
      case Or(l, r) => Max(Of(l), Of(r))
      case Not(x) => 2 - Of(x)
      case Compare(rel, l, r) => if cmp(rel, l, r) then 2 else 0
    }
  }

  /** The valuation that a partly filled environment stands for. */
  function Completed(s: Scope): Valuation {
    Valuation(a => var v := s.AtomTri(a); if v.Some? then v.value else 0,
              c => var v := s.Mode(c); if v.Some? then v.value else 0,
              (rel: Relation, l, r) => var v := s.CompareAtoms(l, r); v.Some? && rel.Holds(v.value))
  }

  /** Short circuits only skip operands that do not matter. */
  lemma {:induction false} ShortCircuitsAgree(s: Scope, e: Expr)
    requires s.ExprVal(e).Some?
    ensures s.ExprVal(e) == Some(Completed(s).Of(e))
  {
    match e
    case And(l, r) => ShortCircuitsAgree(s, l); if s.ExprVal(l).value != 0 { ShortCircuitsAgree(s, r); }
    case Or(l, r) => ShortCircuitsAgree(s, l); if s.ExprVal(l).value != 2 { ShortCircuitsAgree(s, r); }
    case Not(x) => ShortCircuitsAgree(s, x);
    case _ =>
  }

  function MakeAnd(a: Expr, b: Expr): (e: Expr)
    ensures forall v: Valuation :: v.Of(e) == Min(v.Of(a), v.Of(b))
  {
    if a == Y then b else if b == Y then a else if a == N || b == N then N else And(a, b)
  }

  function MakeOr(a: Expr, b: Expr): (e: Expr)
    ensures forall v: Valuation :: v.Of(e) == Max(v.Of(a), v.Of(b))
  {
    if a == N then b else if b == N then a else if a == Y || b == Y then Y else Or(a, b)
  }

  // ---- Menu nodes ----

  datatype MenuItem = SymbolNode(id: Id) | ChoiceNode(id: Id) | MenuNode | CommentNode | IfNode {
    predicate SymbolOrChoice() { SymbolNode? || ChoiceNode? }
  }

  datatype Node = Node(item: MenuItem, dep: Expr, prompt: Option<Expr>, visibility: Expr,
                       defaults: seq<Prop<Expr>>, ranges: seq<Prop<Range>>,
                       selects: seq<Prop<Id>>, implies: seq<Prop<Id>>, list: seq<Node>)

  function AddCond<T>(ps: seq<Prop<T>>, dep: Expr): (r: seq<Prop<T>>)
    ensures |r| == |ps|
    ensures forall k :: 0 <= k < |ps| ==> r[k] == Prop(ps[k].body, MakeAnd(ps[k].cond, dep))
  {
    if ps == [] then [] else [Prop(ps[0].body, MakeAnd(ps[0].cond, dep))] + AddCond(ps[1..], dep)
  }

  /** The loop body of `_propagate_deps`. */
  function Propagate(child: Node, basedep: Expr, visibleIf: Expr): Node {
    var dep := MakeAnd(child.dep, basedep);
    if child.item.SymbolOrChoice() then
      child.(dep := dep,
             prompt := if child.prompt.Some? then Some(MakeAnd(child.prompt.value, MakeAnd(visibleIf, dep))) else None,
             defaults := AddCond(child.defaults, dep), ranges := AddCond(child.ranges, dep),
             selects := AddCond(child.selects, dep), implies := AddCond(child.implies, dep))
    else
      child.(dep := dep, prompt := if child.prompt.Some? then Some(MakeAnd(child.prompt.value, dep)) else None)
  }

  /** What a node passes down to its children. */
  function BaseDep(node: Node): Expr { if node.item.ChoiceNode? then ChoiceMode(node.item.id) else node.dep }

  function VisibleIf(node: Node, visibleIf: Expr): Expr {
    if node.item.MenuNode? then MakeAnd(visibleIf, node.visibility) else visibleIf
  }

  /** `_finalize_node` as far as conditions are concerned. */
  function Finalize(node: Node, visibleIf: Expr): Node
    decreases node, 1
  {
    node.(list := FinalizeList(node.list, BaseDep(node), VisibleIf(node, visibleIf)))
  }

  function FinalizeList(nodes: seq<Node>, basedep: Expr, visibleIf: Expr): (r: seq<Node>)
    ensures |r| == |nodes|
    decreases nodes, 0
  {
    if nodes == [] then []
    else [Finalized(nodes[0], basedep, visibleIf)] + FinalizeList(nodes[1..], basedep, visibleIf)
  }

  /** A child, after its parent has pushed its dependencies into it and it has been finalized itself. */
  function Finalized(child: Node, basedep: Expr, visibleIf: Expr): Node
    decreases child, 2
  {
    var c := Propagate(child, basedep, visibleIf);
    c.(list := FinalizeList(child.list, BaseDep(c), VisibleIf(c, visibleIf)))
  }

  lemma {:induction false} FinalizeListAt(nodes: seq<Node>, basedep: Expr, visibleIf: Expr, k: nat)
    requires k < |nodes|
    ensures FinalizeList(nodes, basedep, visibleIf)[k] == Finalized(nodes[k], basedep, visibleIf)
  {
    if k > 0 { FinalizeListAt(nodes[1..], basedep, visibleIf, k - 1); }
  }

  // ---- What the conditions of a finalized node mean ----

  predicate ValidPath(node: Node, path: seq<nat>)
    decreases path
  {
    path != [] ==> path[0] < |node.list| && ValidPath(node.list[path[0]], path[1..])
  }

  function At(node: Node, path: seq<nat>): Node
    requires ValidPath(node, path)
    decreases path
  {
    if path == [] then node else At(node.list[path[0]], path[1..])
  }

  /** The nodes above the one at the end of the path. */
  function Above(node: Node, path: seq<nat>): seq<Node>
    requires ValidPath(node, path)
    decreases path
  {
    if path == [] then [] else [node] + Above(node.list[path[0]], path[1..])
  }

  /** Own dependencies and those of the enclosing nodes, up to the nearest choice, whose mode stands in for the rest. */
  function DepMeaning(v: Valuation, node: Node, above: seq<Node>): Tristate
    decreases |above|
  {
    if above == [] then v.Of(node.dep)
    else
      var parent := above[|above| - 1];
      Min(v.Of(node.dep),
          if parent.item.ChoiceNode? then v.mode(parent.item.id) else DepMeaning(v, parent, above[..|above| - 1]))
  }

  /** The `visible if` of every enclosing menu. */
  function VisibleMeaning(v: Valuation, above: seq<Node>): Tristate {
    if above == [] then 2
    else
      var parent := above[|above| - 1];
      var rest := VisibleMeaning(v, above[..|above| - 1]);
      if parent.item.MenuNode? then Min(rest, v.Of(parent.visibility)) else rest
  }

  function PromptMeaning(v: Valuation, node: Node, above: seq<Node>): Tristate
    requires node.prompt.Some?
  {
    var own := Min(v.Of(node.prompt.value), DepMeaning(v, node, above));
    if node.item.SymbolOrChoice() then Min(own, VisibleMeaning(v, above)) else own
  }

  /** `after` holds the properties of `before`, each of them limited by `dep`. */
  predicate PropsLimited<T(==)>(v: Valuation, before: seq<Prop<T>>, after: seq<Prop<T>>, dep: Tristate) {
    && |after| == |before|
    && forall k :: 0 <= k < |before| ==>
         after[k].body == before[k].body && v.Of(after[k].cond) == Min(v.Of(before[k].cond), dep)
  }

  /** Everything about a finalized node `f` that was parsed as `o` below the nodes `above`. */
  predicate Means(v: Valuation, f: Node, o: Node, above: seq<Node>) {
    var dep := DepMeaning(v, o, above);
    && f.item == o.item && v.Of(f.dep) == dep
    && f.prompt.Some? == o.prompt.Some?
    && (o.prompt.Some? ==> v.Of(f.prompt.value) == PromptMeaning(v, o, above))
    && (o.item.SymbolOrChoice() ==>
          && PropsLimited(v, o.defaults, f.defaults, dep) && PropsLimited(v, o.ranges, f.ranges, dep)
          && PropsLimited(v, o.selects, f.selects, dep) && PropsLimited(v, o.implies, f.implies, dep))
  }

  /** `final` is `node` with its own conditions already right and its children finalized. */
  predicate Ready(v: Valuation, node: Node, final: Node, above: seq<Node>, visibleIf: Expr) {
    && final.item == node.item && final.visibility == node.visibility
    && v.Of(final.dep) == DepMeaning(v, node, above) && v.Of(visibleIf) == VisibleMeaning(v, above)
    && final.list == FinalizeList(node.list, BaseDep(final), VisibleIf(final, visibleIf))
  }

  /** One level down. */
  lemma ChildMeans(v: Valuation, parent: Node, final: Node, above: seq<Node>, visibleIf: Expr, k: nat)
    requires Ready(v, parent, final, above, visibleIf) && k < |parent.list|
    ensures Means(v, final.list[k], parent.list[k], above + [parent])
  {
    var below := above + [parent];
    assert below[|below| - 1] == parent && below[..|below| - 1] == above;
    FinalizeListAt(parent.list, BaseDep(final), VisibleIf(final, visibleIf), k);
  }

  lemma ChildReady(v: Valuation, parent: Node, final: Node, above: seq<Node>, visibleIf: Expr, k: nat)
    requires Ready(v, parent, final, above, visibleIf) && k < |parent.list|
    ensures k < |final.list|
    ensures Ready(v, parent.list[k], final.list[k], above + [parent], VisibleIf(final, visibleIf))
  {
    var below := above + [parent];
    assert below[|below| - 1] == parent && below[..|below| - 1] == above;
    FinalizeListAt(parent.list, BaseDep(final), VisibleIf(final, visibleIf), k);
  }

  lemma {:induction false} DeepReady(v: Valuation, node: Node, final: Node, above: seq<Node>, visibleIf: Expr,
                                     path: seq<nat>) returns (below: Expr)
    requires ValidPath(node, path) && Ready(v, node, final, above, visibleIf)
    ensures ValidPath(final, path) && Ready(v, At(node, path), At(final, path), above + Above(node, path), below)
    decreases path
  {
    if path == [] {
      below := visibleIf;
      assert above + [] == above;
    } else {
      var k := path[0];
      ChildReady(v, node, final, above, visibleIf, k);
      below := DeepReady(v, node.list[k], final.list[k], above + [node], VisibleIf(final, visibleIf), path[1..]);
      assert above + Above(node, path) == (above + [node]) + Above(node.list[k], path[1..]);
    }
  }

  lemma {:induction false} LastStep(node: Node, path: seq<nat>)
    requires path != []
    ensures var init, k := path[..|path| - 1], path[|path| - 1];
            ValidPath(node, path) <==> ValidPath(node, init) && k < |At(node, init).list|
    ensures ValidPath(node, path) ==>
              var init, k := path[..|path| - 1], path[|path| - 1];
              At(node, path) == At(node, init).list[k] && Above(node, path) == Above(node, init) + [At(node, init)]
    decreases path
  {
    if |path| > 1 && path[0] < |node.list| {
      LastStep(node.list[path[0]], path[1..]);
      assert path[1..][..|path| - 2] == path[..|path| - 1][1..];
    }
  }

  /** After finalization every condition means, under every valuation, what the nesting of the menus says it should. */
  lemma FinalizeMeans(v: Valuation, top: Node, path: seq<nat>)
    requires ValidPath(top, path) && path != []
    ensures ValidPath(Finalize(top, Y), path)
    ensures Means(v, At(Finalize(top, Y), path), At(top, path), Above(top, path))
  {
    var final := Finalize(top, Y);
    var init, k := path[..|path| - 1], path[|path| - 1];
    LastStep(top, path);
    LastStep(final, path);
    var visibleIf := DeepReady(v, top, final, [], Y, init);
    assert [] + Above(top, init) == Above(top, init);
    ChildMeans(v, At(top, init), At(final, init), Above(top, init), visibleIf, k);
  }

  // ---- Symbols and choices: the properties of all their definitions together ----

  /** What `_add_props_to_sym` accumulates per symbol, and `_finalize_node` per choice. */
  datatype Props = Props(direct: map<Id, Expr>, rev: map<Id, Expr>, weak: map<Id, Expr>,
                         defaults: map<Id, seq<Prop<Expr>>>, ranges: map<Id, seq<Prop<Range>>>)

  const NOTHING: Props := Props(map[], map[], map[], map[], map[])

  function Dep(m: map<Id, Expr>, i: Id): Expr { if i in m then m[i] else N }

  function List<T>(m: map<Id, seq<T>>, i: Id): seq<T> { if i in m then m[i] else [] }

  /** Reverse dependencies from the selects (or implies) of `sym`. */
  function AddReverse(m: map<Id, Expr>, sym: Id, targets: seq<Prop<Id>>): map<Id, Expr> {
    if targets == [] then m
    else
      var last := targets[|targets| - 1];
      var before := AddReverse(m, sym, targets[..|targets| - 1]);
      before[last.body := MakeOr(Dep(before, last.body), MakeAnd(Leaf(Sym(sym)), last.cond))]
  }

  function AddProps(p: Props, node: Node): Props
    requires node.item.SymbolOrChoice()
  {
    var i := node.item.id;
    var q := p.(direct := p.direct[i := MakeOr(Dep(p.direct, i), node.dep)],
                defaults := p.defaults[i := List(p.defaults, i) + node.defaults]);
    if node.item.ChoiceNode? then q
    else q.(ranges := p.ranges[i := List(p.ranges, i) + node.ranges],
            rev := AddReverse(p.rev, i, node.selects), weak := AddReverse(p.weak, i, node.implies))
  }

  function AddAllProps(p: Props, nodes: seq<Node>): Props
    requires forall n :: n in nodes ==> n.item.SymbolOrChoice()
  {
    if nodes == [] then p else AddProps(AddAllProps(p, nodes[..|nodes| - 1]), nodes[|nodes| - 1])
  }

  // ---- What they mean, in terms of the parsed tree ----

  /** A definition as it was parsed, with the nodes above it. */
  datatype Definition = Definition(node: Node, above: seq<Node>)

  /** The maximum of the dependencies of the definitions of `i`. */
  function MaxDep(v: Valuation, defs: seq<Definition>, i: Id): Tristate {
    if defs == [] then 0
    else
      var d := defs[|defs| - 1];
      var rest := MaxDep(v, defs[..|defs| - 1], i);
      if d.node.item.SymbolOrChoice() && d.node.item.id == i then Max(rest, DepMeaning(v, d.node, d.above)) else rest
  }

  /** The maximum, over the selects of target `i`, of the selecting symbol limited by the condition and by `dep`. */
  function MaxTargets(v: Valuation, sym: Id, targets: seq<Prop<Id>>, dep: Tristate, i: Id): Tristate {
    if targets == [] then 0
    else
      var last := targets[|targets| - 1];
      var rest := MaxTargets(v, sym, targets[..|targets| - 1], dep, i);
      if last.body == i then Max(rest, Min(v.sym(Sym(sym)), Min(v.Of(last.cond), dep))) else rest
  }

  function MaxSelects(v: Valuation, defs: seq<Definition>, i: Id, implies: bool): Tristate {
    if defs == [] then 0
    else
      var d := defs[|defs| - 1];
      var rest := MaxSelects(v, defs[..|defs| - 1], i, implies);
      if d.node.item.SymbolNode? then
        var targets := if implies then d.node.implies else d.node.selects;
        Max(rest, MaxTargets(v, d.node.item.id, targets, DepMeaning(v, d.node, d.above), i))
      else rest
  }

  /** Properties with the values of their conditions. */
  function Valued<T>(v: Valuation, ps: seq<Prop<T>>): seq<(T, Tristate)> {
    seq(|ps|, k requires 0 <= k < |ps| => (ps[k].body, v.Of(ps[k].cond)))
  }

  function Limited<T>(v: Valuation, ps: seq<Prop<T>>, dep: Tristate): seq<(T, Tristate)> {
    seq(|ps|, k requires 0 <= k < |ps| => (ps[k].body, Min(v.Of(ps[k].cond), dep)))
  }

  /** The defaults of all definitions of `i`, in order. */
  function AllDefaults(v: Valuation, defs: seq<Definition>, i: Id): seq<(Expr, Tristate)> {
    if defs == [] then []
    else
      var d := defs[|defs| - 1];
      var rest := AllDefaults(v, defs[..|defs| - 1], i);
      if d.node.item.SymbolOrChoice() && d.node.item.id == i
      then rest + Limited(v, d.node.defaults, DepMeaning(v, d.node, d.above)) else rest
  }

  function AllRanges(v: Valuation, defs: seq<Definition>, i: Id): seq<(Range, Tristate)> {
    if defs == [] then []
    else
      var d := defs[|defs| - 1];
      var rest := AllRanges(v, defs[..|defs| - 1], i);
      if d.node.item.SymbolNode? && d.node.item.id == i
      then rest + Limited(v, d.node.ranges, DepMeaning(v, d.node, d.above)) else rest
  }

  /** Finalized nodes, one for each definition. */
  ghost predicate Match(v: Valuation, nodes: seq<Node>, defs: seq<Definition>) {
    && |nodes| == |defs|
    && forall k :: 0 <= k < |nodes| ==>
         nodes[k].item.SymbolOrChoice() && Means(v, nodes[k], defs[k].node, defs[k].above)
  }

  lemma {:induction false} ReverseMeans(v: Valuation, m: map<Id, Expr>, sym: Id, before: seq<Prop<Id>>,
                                        after: seq<Prop<Id>>, dep: Tristate, i: Id)
    requires PropsLimited(v, before, after, dep)
    ensures v.Of(Dep(AddReverse(m, sym, after), i)) == Max(v.Of(Dep(m, i)), MaxTargets(v, sym, before, dep, i))
    decreases |after|
  {
    if after != [] {
      var n := |after| - 1;
      assert after[n].body == before[n].body && v.Of(after[n].cond) == Min(v.Of(before[n].cond), dep);
      ReverseMeans(v, m, sym, before[..n], after[..n], dep, i);
    }
  }

  lemma ValuedLimited<T>(v: Valuation, before: seq<Prop<T>>, after: seq<Prop<T>>, dep: Tristate)
    requires PropsLimited(v, before, after, dep)
    ensures Valued(v, after) == Limited(v, before, dep)
  {
    forall k | 0 <= k < |after| ensures Valued(v, after)[k] == Limited(v, before, dep)[k] {
      assert after[k].body == before[k].body;
    }
  }

  lemma ValuedConcat<T>(v: Valuation, a: seq<Prop<T>>, b: seq<Prop<T>>)
    ensures Valued(v, a + b) == Valued(v, a) + Valued(v, b)
  {
  }

  /** All properties of item `i` as they should be. */
  ghost predicate Right(v: Valuation, p: Props, defs: seq<Definition>, i: Id) {
    && v.Of(Dep(p.direct, i)) == MaxDep(v, defs, i)
    && v.Of(Dep(p.rev, i)) == MaxSelects(v, defs, i, false)
    && v.Of(Dep(p.weak, i)) == MaxSelects(v, defs, i, true)
    && Valued(v, List(p.defaults, i)) == AllDefaults(v, defs, i)
    && Valued(v, List(p.ranges, i)) == AllRanges(v, defs, i)
  }

  lemma AddedDirect(v: Valuation, p: Props, node: Node, defs: seq<Definition>, d: Definition, i: Id)
    requires node.item.SymbolOrChoice() && Means(v, node, d.node, d.above)
    requires v.Of(Dep(p.direct, i)) == MaxDep(v, defs, i)
    ensures v.Of(Dep(AddProps(p, node).direct, i)) == MaxDep(v, defs + [d], i)
  {
    assert (defs + [d])[..|defs|] == defs;
  }

  lemma AddedReverse(v: Valuation, p: Props, node: Node, defs: seq<Definition>, d: Definition, i: Id)
    requires node.item.SymbolOrChoice() && Means(v, node, d.node, d.above)
    requires v.Of(Dep(p.rev, i)) == MaxSelects(v, defs, i, false) && v.Of(Dep(p.weak, i)) == MaxSelects(v, defs, i, true)
    ensures v.Of(Dep(AddProps(p, node).rev, i)) == MaxSelects(v, defs + [d], i, false)
    ensures v.Of(Dep(AddProps(p, node).weak, i)) == MaxSelects(v, defs + [d], i, true)
  {
    assert (defs + [d])[..|defs|] == defs;
    if node.item.SymbolNode? {
      var dep := DepMeaning(v, d.node, d.above);
      ReverseMeans(v, p.rev, node.item.id, d.node.selects, node.selects, dep, i);
      ReverseMeans(v, p.weak, node.item.id, d.node.implies, node.implies, dep, i);
    }
  }

  /** Properties that are appended keep the values of their conditions. */
  lemma AppendedLimited<T>(v: Valuation, was: seq<Prop<T>>, before: seq<Prop<T>>, after: seq<Prop<T>>, dep: Tristate)
    requires PropsLimited(v, before, after, dep)
    ensures Valued(v, was + after) == Valued(v, was) + Limited(v, before, dep)
  {
    ValuedConcat(v, was, after);
    ValuedLimited(v, before, after, dep);
  }

  lemma AddedDefaults(v: Valuation, p: Props, node: Node, defs: seq<Definition>, d: Definition, i: Id)
    requires node.item.SymbolOrChoice() && Means(v, node, d.node, d.above)
    requires Valued(v, List(p.defaults, i)) == AllDefaults(v, defs, i)
    ensures Valued(v, List(AddProps(p, node).defaults, i)) == AllDefaults(v, defs + [d], i)
  {
    assert (defs + [d])[..|defs|] == defs;
    if node.item.id == i {
      AppendedLimited(v, List(p.defaults, i), d.node.defaults, node.defaults, DepMeaning(v, d.node, d.above));
      assert List(AddProps(p, node).defaults, i) == List(p.defaults, i) + node.defaults;
    } else {
      assert List(AddProps(p, node).defaults, i) == List(p.defaults, i);
    }
  }

  lemma AddedRanges(v: Valuation, p: Props, node: Node, defs: seq<Definition>, d: Definition, i: Id)
    requires node.item.SymbolOrChoice() && Means(v, node, d.node, d.above)
    requires Valued(v, List(p.ranges, i)) == AllRanges(v, defs, i)
    ensures Valued(v, List(AddProps(p, node).ranges, i)) == AllRanges(v, defs + [d], i)
  {
    assert (defs + [d])[..|defs|] == defs;
    if node.item == SymbolNode(i) {
      AppendedLimited(v, List(p.ranges, i), d.node.ranges, node.ranges, DepMeaning(v, d.node, d.above));
      assert List(AddProps(p, node).ranges, i) == List(p.ranges, i) + node.ranges;
    } else {
      assert List(AddProps(p, node).ranges, i) == List(p.ranges, i);
    }
  }

  lemma AddedRight(v: Valuation, p: Props, node: Node, defs: seq<Definition>, d: Definition, i: Id)
    requires node.item.SymbolOrChoice() && Means(v, node, d.node, d.above) && Right(v, p, defs, i)
    ensures Right(v, AddProps(p, node), defs + [d], i)
  {
    AddedDirect(v, p, node, defs, d, i);
    AddedReverse(v, p, node, defs, d, i);
    AddedDefaults(v, p, node, defs, d, i);
    AddedRanges(v, p, node, defs, d, i);
  }

  lemma {:induction false} PropsMean(v: Valuation, nodes: seq<Node>, defs: seq<Definition>, i: Id)
    requires Match(v, nodes, defs)
    ensures forall n :: n in nodes ==> n.item.SymbolOrChoice()
    ensures Right(v, AddAllProps(NOTHING, nodes), defs, i)
    decreases |nodes|
  {
    if nodes != [] {
      var n := |nodes| - 1;
      assert Match(v, nodes[..n], defs[..n]);
      PropsMean(v, nodes[..n], defs[..n], i);
      AddedRight(v, AddAllProps(NOTHING, nodes[..n]), nodes[n], defs[..n], defs[n], i);
      assert defs[..n] + [defs[n]] == defs;
    }
  }

  // ---- The traversal that fills in symbols and choices ----

  /** The definitions in a finalized tree, in the order in which they are dealt with: symbols before the nodes below
      them, choices after. */
  function Dealt(node: Node): (r: seq<Node>)
    ensures forall n :: n in r ==> n.item.SymbolOrChoice()
    decreases node, 1
  {
    (if node.item.SymbolNode? then [node] else []) + DealtIn(node.list) + (if node.item.ChoiceNode? then [node] else [])
  }

  function DealtIn(nodes: seq<Node>): (r: seq<Node>)
    ensures forall n :: n in r ==> n.item.SymbolOrChoice()
    decreases nodes, 0
  {
    if nodes == [] then [] else Dealt(nodes[0]) + DealtIn(nodes[1..])
  }

  /** The same definitions, as they were parsed. */
  function Definitions(node: Node, above: seq<Node>): seq<Definition>
    decreases node, 1
  {
    var own := [Definition(node, above)];
    (if node.item.SymbolNode? then own else []) + DefinitionsIn(node.list, above + [node])
    + (if node.item.ChoiceNode? then own else [])
  }

  function DefinitionsIn(nodes: seq<Node>, above: seq<Node>): seq<Definition>
    decreases nodes, 0
  {
    if nodes == [] then [] else Definitions(nodes[0], above) + DefinitionsIn(nodes[1..], above)
  }

  lemma MatchConcat(v: Valuation, a: seq<Node>, b: seq<Node>, c: seq<Definition>, d: seq<Definition>)
    requires Match(v, a, c) && Match(v, b, d)
    ensures Match(v, a + b, c + d)
  {
  }

  /** The order of a node and the nodes below it. */
  lemma DealtOrder(node: Node)
    ensures Dealt(node) == if node.item.SymbolNode? then [node] + DealtIn(node.list)
                           else if node.item.ChoiceNode? then DealtIn(node.list) + [node] else DealtIn(node.list)
  {
  }

  lemma DefinitionsOrder(node: Node, above: seq<Node>)
    ensures var own, inner := [Definition(node, above)], DefinitionsIn(node.list, above + [node]);
            Definitions(node, above) == if node.item.SymbolNode? then own + inner
                                        else if node.item.ChoiceNode? then inner + own else inner
  {
  }

  lemma OneMatches(v: Valuation, node: Node, final: Node, above: seq<Node>)
    requires Means(v, final, node, above) && node.item.SymbolOrChoice()
    ensures Match(v, [final], [Definition(node, above)])
  {
  }

  /** A node with the nodes below it. */
  lemma NodeMatches(v: Valuation, node: Node, final: Node, above: seq<Node>, inner: seq<Node>, defs: seq<Definition>)
    requires Means(v, final, node, above) && Match(v, inner, defs)
    ensures var own, parsed := [final], [Definition(node, above)];
            if node.item.SymbolNode? then Match(v, own + inner, parsed + defs)
            else node.item.ChoiceNode? ==> Match(v, inner + own, defs + parsed)
  {
    if node.item.SymbolOrChoice() {
      OneMatches(v, node, final, above);
      MatchConcat(v, [final], inner, [Definition(node, above)], defs);
      MatchConcat(v, inner, [final], defs, [Definition(node, above)]);
    }
  }

  lemma {:induction false} TreeMatches(v: Valuation, node: Node, final: Node, above: seq<Node>, visibleIf: Expr)
    requires Ready(v, node, final, above, visibleIf) && Means(v, final, node, above)
    ensures Match(v, Dealt(final), Definitions(node, above))
    decreases node, |node.list| + 1
  {
    ListMatches(v, node, final, above, visibleIf, 0);
    assert final.list[0..] == final.list && node.list[0..] == node.list;
    DealtOrder(final);
    DefinitionsOrder(node, above);
    NodeMatches(v, node, final, above, DealtIn(final.list), DefinitionsIn(node.list, above + [node]));
  }

  lemma {:induction false} ListMatches(v: Valuation, node: Node, final: Node, above: seq<Node>, visibleIf: Expr, k: nat)
    requires Ready(v, node, final, above, visibleIf) && k <= |node.list|
    ensures |final.list| == |node.list|
    ensures Match(v, DealtIn(final.list[k..]), DefinitionsIn(node.list[k..], above + [node]))
    decreases node, |node.list| - k
  {
    if k < |node.list| {
      ChildReady(v, node, final, above, visibleIf, k);
      ChildMeans(v, node, final, above, visibleIf, k);
      TreeMatches(v, node.list[k], final.list[k], above + [node], VisibleIf(final, visibleIf));
      ListMatches(v, node, final, above, visibleIf, k + 1);
      assert final.list[k..][1..] == final.list[k + 1..] && node.list[k..][1..] == node.list[k + 1..];
      MatchConcat(v, Dealt(final.list[k]), DealtIn(final.list[k + 1..]),
                  Definitions(node.list[k], above + [node]), DefinitionsIn(node.list[k + 1..], above + [node]));
    }
  }

  /**
   * In terms of the tree as it was parsed: direct dependencies are the maximum over the definitions of the item, reverse
   * dependencies the maximum over everything that selects or implies it, and defaults and ranges those of all
   * definitions in order; each limited by what the nesting of the menus says.
   */
  lemma ParsedMeans(v: Valuation, top: Node, i: Id)
    ensures Right(v, AddAllProps(NOTHING, DealtIn(Finalize(top, Y).list)), DefinitionsIn(top.list, [top]), i)
  {
    var final := Finalize(top, Y);
    ListMatches(v, top, final, [], Y, 0);
    assert final.list[0..] == final.list && top.list[0..] == top.list && [] + [top] == [top];
    PropsMean(v, DealtIn(final.list), DefinitionsIn(top.list, [top]), i);
  }

  lemma {:induction false} AddAllInOrder(p: Props, a: seq<Node>, b: seq<Node>)
    requires forall n :: n in a + b ==> n.item.SymbolOrChoice()
    ensures (forall n :: n in a ==> n.item.SymbolOrChoice()) && (forall n :: n in b ==> n.item.SymbolOrChoice())
    ensures AddAllProps(p, a + b) == AddAllProps(AddAllProps(p, a), b)
  {
    forall n | n in a || n in b ensures n.item.SymbolOrChoice() { assert n in a + b; }
    if b == [] {
      assert a + b == a;
    } else {
      var init := b[..|b| - 1];
      assert (a + b)[..|a + b| - 1] == a + init;
      AddAllInOrder(p, a, init);
    }
  }

  lemma AddOne(p: Props, node: Node)
    requires node.item.SymbolOrChoice()
    ensures AddAllProps(p, [node]) == AddProps(p, node)
  {
    assert [node][..0] == [];
  }

  /** Symbols are dealt with before the nodes below them, choices after. */
  lemma DealtAdds(p: Props, node: Node, final: Node)
    requires final == node.(list := final.list)
    ensures var before := if node.item.SymbolNode? then AddProps(p, node) else p;
            var inner := AddAllProps(before, DealtIn(final.list));
            AddAllProps(p, Dealt(final)) == if node.item.ChoiceNode? then AddProps(inner, node) else inner
  {
    var inner := DealtIn(final.list);
    if node.item.SymbolNode? {
      AddOne(p, final);
      AddAllInOrder(p, [final], inner);
      assert Dealt(final) == [final] + inner;
    } else if node.item.ChoiceNode? {
      AddOne(AddAllProps(p, inner), final);
      AddAllInOrder(p, inner, [final]);
      assert Dealt(final) == inner + [final];
    } else {
      assert Dealt(final) == inner;
    }
  }

  class Finalizer {
    var props: Props

    constructor ()
      ensures props == NOTHING
    {
      props := NOTHING;
    }

    /** `_add_props_to_sym`. */
    method AddPropsToSym(node: Node)
      requires node.item.SymbolNode?
      modifies this
      ensures props == AddProps(old(props), node)
    {
      AddCommonProps(node);
      var i := node.item.id;
      var ranges := props.ranges[i := List(props.ranges, i) + node.ranges];
      var rev := Reverse(props.rev, i, node.selects);
      var weak := Reverse(props.weak, i, node.implies);
      props := props.(ranges := ranges, rev := rev, weak := weak);
    }

    /** What symbols and choices have in common. */
    method AddCommonProps(node: Node)
      requires node.item.SymbolOrChoice()
      modifies this
      ensures props == AddProps(old(props), node.(item := ChoiceNode(node.item.id)))
    {
      var i := node.item.id;
      props := props.(direct := props.direct[i := MakeOr(Dep(props.direct, i), node.dep)],
                      defaults := props.defaults[i := List(props.defaults, i) + node.defaults]);
    }

    /** The loops over the selects and the implies of a node. */
    method Reverse(m: map<Id, Expr>, sym: Id, targets: seq<Prop<Id>>) returns (r: map<Id, Expr>)
      ensures r == AddReverse(m, sym, targets)
    {
      r := m;
      for k := 0 to |targets|
        invariant r == AddReverse(m, sym, targets[..k])
      {
        assert targets[..k + 1][..k] == targets[..k];
        var t := targets[k];
        r := r[t.body := MakeOr(Dep(r, t.body), MakeAnd(Leaf(Sym(sym)), t.cond))];
      }
      assert targets[..|targets|] == targets;
    }

    /** `_finalize_node`: dependencies go down, properties of symbols and choices are collected. `parsed` is the node
        before its parent extended its conditions. */
    method FinalizeNode(ghost parsed: Node, node: Node, visibleIf: Expr) returns (final: Node)
      requires node.list == parsed.list
      modifies this
      ensures final == Finalize(node, visibleIf)
      ensures props == AddAllProps(old(props), Dealt(final))
      decreases parsed, 1
    {
      ghost var was := props;
      if node.item.SymbolNode? { AddPropsToSym(node); }
      var list := FinalizeChildren(node.list, BaseDep(node), VisibleIf(node, visibleIf));
      if node.item.ChoiceNode? { AddCommonProps(node); }
      final := node.(list := list);
      DealtAdds(was, node, final);
    }

    method FinalizeChildren(nodes: seq<Node>, basedep: Expr, visibleIf: Expr) returns (list: seq<Node>)
      modifies this
      ensures list == FinalizeList(nodes, basedep, visibleIf)
      ensures props == AddAllProps(old(props), DealtIn(list))
      decreases nodes, 0
    {
      if nodes == [] { return []; }
      ghost var was := props;
      var child := Propagate(nodes[0], basedep, visibleIf);
      var first := FinalizeNode(nodes[0], child, visibleIf);
      var rest := FinalizeChildren(nodes[1..], basedep, visibleIf);
      list := [first] + rest;
      assert list[1..] == rest;
      AddAllInOrder(was, Dealt(first), DealtIn(rest));
    }

    /** The whole tree: every item ends up with the properties that the parsed tree gives it. */
    method FinalizeTop(top: Node) returns (final: Node)
      requires props == NOTHING && !top.item.SymbolOrChoice()
      modifies this
      ensures final == Finalize(top, Y)
      ensures forall v: Valuation, i :: Right(v, props, DefinitionsIn(top.list, [top]), i)
    {
      final := FinalizeNode(top, top, Y);
      assert Dealt(final) == DealtIn(final.list);
      forall v: Valuation, i ensures Right(v, props, DefinitionsIn(top.list, [top]), i) { ParsedMeans(v, top, i); }
    }
  }

  // ---- What finalization guarantees to evaluation ----

  /** Every prompt of a symbol or choice is limited by the dependencies of its definition. */
  ghost predicate PromptsLimited(nodes: seq<Node>) {
    forall n, v: Valuation :: n in nodes && n.prompt.Some? ==> v.Of(n.prompt.value) <= v.Of(n.dep)
  }

  /** The dependencies of every definition are among the direct dependencies. */
  lemma {:induction false} DirectCovers(v: Valuation, p: Props, nodes: seq<Node>, node: Node)
    requires (forall n :: n in nodes ==> n.item.SymbolOrChoice()) && node in nodes
    ensures v.Of(node.dep) <= v.Of(Dep(AddAllProps(p, nodes).direct, node.item.id))
  {
    var init := nodes[..|nodes| - 1];
    if node != nodes[|nodes| - 1] {
      assert node in init;
      DirectCovers(v, p, init, node);
    }
  }

  lemma {:induction false} ListLimited(nodes: seq<Node>, basedep: Expr, visibleIf: Expr)
    ensures PromptsLimited(DealtIn(FinalizeList(nodes, basedep, visibleIf)))
    decreases nodes, 0
  {
    if nodes != [] {
      var child := Propagate(nodes[0], basedep, visibleIf);
      var first := Finalized(nodes[0], basedep, visibleIf);
      ListLimited(nodes[0].list, BaseDep(child), VisibleIf(child, visibleIf));
      ListLimited(nodes[1..], basedep, visibleIf);
      var list := FinalizeList(nodes, basedep, visibleIf);
      assert list[0] == first && list[1..] == FinalizeList(nodes[1..], basedep, visibleIf);
    }
  }

  /** The symbols of the configuration come from the definitions in a finalized tree. */
  ghost predicate BuiltFrom(cfg: Config, nodes: seq<Node>)
    requires forall n :: n in nodes ==> n.item.SymbolOrChoice()
  {
    forall i :: 0 <= i < |cfg.items| && cfg.items[i].Symbol? ==>
      && cfg.items[i].direct == Dep(AddAllProps(NOTHING, nodes).direct, i)
      && (forall e :: e in cfg.items[i].prompts ==> exists n :: n in nodes && n.item == SymbolNode(i) && n.prompt == Some(e))
      && (!cfg.items[i].orig.Logical() ==> cfg.items[i].rev == N)
  }

  /** Finalization is what makes prompt conditions imply the direct dependencies. */
  lemma FinalizedIsPropagated(cfg: Config, top: Node)
    requires BuiltFrom(cfg, DealtIn(Finalize(top, Y).list))
    ensures Propagated(cfg)
  {
    var nodes := DealtIn(Finalize(top, Y).list);
    ListLimited(top.list, BaseDep(top), VisibleIf(top, Y));
    forall i, e, s: Scope | 0 <= i < |cfg.items| && cfg.items[i].Symbol? && e in cfg.items[i].prompts && s.cfg == cfg
      ensures Implies(s, e, cfg.items[i].direct)
    {
      var d := cfg.items[i].direct;
      var n :| n in nodes && n.item == SymbolNode(i) && n.prompt == Some(e);
      if s.ExprVal(e).Some? && s.ExprVal(d).Some? {
        ShortCircuitsAgree(s, e);
        ShortCircuitsAgree(s, d);
        DirectCovers(Completed(s), NOTHING, nodes, n);
      }
    }
  }

  /** A finalized node below choice `c`, with no other choice in between. */
  predicate InChoice(node: Node, c: Id)
    decreases node
  {
    && Within(node.dep, c)
    && (node.item.SymbolOrChoice() && node.prompt.Some? ==> Within(node.prompt.value, c))
    && (node.item.ChoiceNode? || forall k :: 0 <= k < |node.list| ==> InChoice(node.list[k], c))
  }

  lemma WithinAnd(a: Expr, b: Expr, c: Id)
    requires Within(b, c)
    ensures Within(MakeAnd(a, b), c)
  {}

  /** Finalization leaves the choice among the conjuncts of the conditions of everything inside it. */
  lemma {:induction false} ListInChoice(nodes: seq<Node>, basedep: Expr, visibleIf: Expr, c: Id)
    requires Within(basedep, c)
    ensures forall k :: 0 <= k < |nodes| ==> InChoice(FinalizeList(nodes, basedep, visibleIf)[k], c)
    decreases nodes, 0
  {
    forall k | 0 <= k < |nodes| ensures InChoice(FinalizeList(nodes, basedep, visibleIf)[k], c) {
      var child := Propagate(nodes[k], basedep, visibleIf);
      FinalizeListAt(nodes, basedep, visibleIf, k);
      WithinAnd(nodes[k].dep, basedep, c);
      WithinAnd(visibleIf, child.dep, c);
      if nodes[k].prompt.Some? { WithinAnd(nodes[k].prompt.value, MakeAnd(visibleIf, child.dep), c); }
      if !child.item.ChoiceNode? { ListInChoice(nodes[k].list, BaseDep(child), VisibleIf(child, visibleIf), c); }
    }
  }

  lemma ChoiceMembersWithin(top: Node, visibleIf: Expr)
    requires top.item.ChoiceNode?
    ensures forall k :: 0 <= k < |top.list| ==> InChoice(Finalize(top, visibleIf).list[k], top.item.id)
  {
    ListInChoice(top.list, BaseDep(top), VisibleIf(top, visibleIf), top.item.id);
  }
}
