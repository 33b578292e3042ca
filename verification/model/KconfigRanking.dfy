/** What loop detection buys: a configuration that passes it, with no choice on a loop, can be evaluated. */
module KconfigRanking {
  import opened Basics
  import opened KconfigModel
  import opened KconfigEval
  import opened KconfigReads
  import opened KconfigScratch
  import opened KconfigLoops
  import opened KconfigBlocks

  /** What an item depends on when loops are looked for, before `_add_choice_deps` runs. */
  function BuildDep(item: Item): set<Id> {
    match item
    case Symbol(_, _, _, _, _, _, _, _, _) => ItemDependsOn(item)
    case Choice(_, prompts, _, picks, _) => ExprsItems(prompts) + CondItems(picks)
  }

  /** The graph of a configuration, whatever order the sets are iterated in. */
  ghost predicate Represents(g: Graph, cfg: Config) {
    && |g.kinds| == |g.deps| == |cfg.items|
    && (forall i :: 0 <= i < |cfg.items| ==>
          g.kinds[i] == match cfg.items[i]
                        case Symbol(_, _, _, _, _, _, _, _, choice) => SymNode(choice)
                        case Choice(_, _, _, _, syms) => ChoiceNode(syms))
    && (forall i: Id, j: Id :: j < |g.deps| ==> (i in g.deps[j] <==> i < |cfg.items| && j in BuildDep(cfg.items[i])))
  }

  /** A set of items closed under dependencies that holds MODULES and no tristate: MODULES does not depend on a tristate,
      whose type would in turn depend on MODULES. */
  ghost predicate ModulesApart(cfg: Config, apart: set<Id>) {
    && (cfg.At(cfg.modules).orig.Logical() ==> cfg.modules in apart)
    && forall i :: i in apart ==>
         i < |cfg.items| && cfg.items[i].orig != TRISTATE
         && forall j :: j in ItemDependsOn(cfg.items[i]) && j < |cfg.items| ==> j in apart
  }

  // ---- What is read ----

  /** A facet of the same item that is always read first. */
  predicate Own(f: Facet, g: Facet) {
    g.id == f.id && ((g.Vis? && !f.Vis?) || (g.Tri? && f.Str?))
  }

  /** A facet of the choice read for a symbol of it, or the other way round. */
  predicate Inner(cfg: Config, f: Facet, g: Facet) {
    match cfg.At(f.id)
    case Symbol(_, _, _, _, _, _, _, _, choice) =>
      Some(g.id) == choice && (g.Vis? || (g.Sel? && f.Tri?))
    case Choice(_, _, _, _, syms) => f.Sel? && g.Vis? && g.id in syms
  }

  /** Of choices, only the visibility is read from outside. */
  predicate Mentioned(cfg: Config, items: set<Id>, g: Facet) {
    g.id in items && (cfg.At(g.id).Choice? ==> g.Vis?)
  }

  /** MODULES, for the sake of a tristate. */
  ghost predicate ForModules(cfg: Config, items: set<Id>, g: Facet) {
    g in ModulesReads(cfg) && exists d :: d in items && cfg.At(d).orig == TRISTATE
  }

  ghost predicate DepRead(cfg: Config, items: set<Id>, g: Facet) {
    Mentioned(cfg, items, g) || ForModules(cfg, items, g)
  }

  ghost predicate Dependency(cfg: Config, f: Facet, g: Facet) {
    || Own(f, g)
    || Inner(cfg, f, g)
    || (f.id < |cfg.items| && Mentioned(cfg, BuildDep(cfg.items[f.id]), g))
    || (f.id < |cfg.items| && ForModules(cfg, {f.id} + ItemDependsOn(cfg.items[f.id]), g))
  }

  lemma {:induction false} ExprRead(cfg: Config, e: Expr, g: Facet)
    requires ExprOk(cfg, e) && g in ExprReads(cfg, e)
    ensures DepRead(cfg, ExprItems(e), g)
  {
    match e
    case ChoiceMode(c) => assert c in ExprItems(e);
    case And(l, r) => if g in ExprReads(cfg, l) { ExprRead(cfg, l, g); } else { ExprRead(cfg, r, g); }
    case Or(l, r) => if g in ExprReads(cfg, l) { ExprRead(cfg, l, g); } else { ExprRead(cfg, r, g); }
    case Not(x) => ExprRead(cfg, x, g);
    case _ =>
  }

  lemma ReadMore(cfg: Config, some: set<Id>, all: set<Id>, g: Facet)
    requires DepRead(cfg, some, g) && some <= all
    ensures DepRead(cfg, all, g)
  {
  }

  lemma CondRead<T>(cfg: Config, ps: seq<Prop<T>>, g: Facet)
    requires g in CondReads(cfg, ps) && forall p :: p in ps ==> ExprOk(cfg, p.cond)
    ensures DepRead(cfg, CondItems(ps), g)
  {
    var p :| p in ps && g in ExprReads(cfg, p.cond);
    ExprRead(cfg, p.cond, g);
    ReadMore(cfg, ExprItems(p.cond), CondItems(ps), g);
  }

  lemma PromptRead(cfg: Config, es: seq<Expr>, g: Facet)
    requires g in PromptReads(cfg, es) && forall e :: e in es ==> ExprOk(cfg, e)
    ensures DepRead(cfg, ExprsItems(es), g)
  {
    var e :| e in es && g in ExprReads(cfg, e);
    ExprRead(cfg, e, g);
    ReadMore(cfg, ExprItems(e), ExprsItems(es), g);
  }

  lemma DefaultRead(cfg: Config, item: Item, g: Facet)
    requires item.Symbol? && g in DefaultReads(cfg, item.defaults)
    requires forall p :: p in item.defaults ==> ExprOk(cfg, p.cond) && ExprOk(cfg, p.body)
    ensures DepRead(cfg, ItemDependsOn(item), g)
  {
    if g in CondReads(cfg, item.defaults) {
      CondRead(cfg, item.defaults, g);
      ReadMore(cfg, CondItems(item.defaults), ItemDependsOn(item), g);
    } else {
      var p :| p in item.defaults && g in ExprReads(cfg, p.body);
      ExprRead(cfg, p.body, g);
      ReadMore(cfg, ExprItems(p.body), ItemDependsOn(item), g);
    }
  }

  lemma RevRead(cfg: Config, item: Item, g: Facet)
    requires item.Symbol? && g in DepReads(cfg, item)
    requires ExprOk(cfg, item.rev) && ExprOk(cfg, item.weak) && ExprOk(cfg, item.direct)
    ensures DepRead(cfg, ItemDependsOn(item), g)
  {
    var e := if g in ExprReads(cfg, item.rev) then item.rev
             else if g in ExprReads(cfg, item.weak) then item.weak else item.direct;
    ExprRead(cfg, e, g);
    ReadMore(cfg, ExprItems(e), ItemDependsOn(item), g);
  }

  /** A read of something that the item mentions. */
  lemma ReadMentioned(cfg: Config, f: Facet, g: Facet)
    requires f.id < |cfg.items| && DepRead(cfg, BuildDep(cfg.items[f.id]), g)
    ensures Dependency(cfg, f, g)
  {
    ReadMoreModules(cfg, f.id, g);
  }

  lemma ReadMoreModules(cfg: Config, i: Id, g: Facet)
    requires i < |cfg.items|
    ensures ForModules(cfg, BuildDep(cfg.items[i]), g) ==> ForModules(cfg, {i} + ItemDependsOn(cfg.items[i]), g)
  {
    assert BuildDep(cfg.items[i]) <= {i} + ItemDependsOn(cfg.items[i]);
  }

  lemma TypeRead(cfg: Config, f: Facet, g: Facet)
    requires WellFormed(cfg) && f.id < |cfg.items|
    requires g in TypeReads(cfg, f.id) || (cfg.items[f.id].Symbol? && cfg.items[f.id].choice.Some?
                                           && g in ModeReads(cfg, cfg.items[f.id].choice.value))
    ensures Dependency(cfg, f, g)
  {
    assert WellFormedItem(cfg, f.id);
    var items := {f.id} + ItemDependsOn(cfg.items[f.id]);
    assert f.id in items;
    if cfg.items[f.id].Symbol? && cfg.items[f.id].choice.Some? {
      assert cfg.items[f.id].choice.value in items;
    }
  }

  lemma VisRead(cfg: Config, i: Id, g: Facet)
    requires WellFormed(cfg) && i < |cfg.items| && g in VisReads(cfg, i)
    ensures Dependency(cfg, Vis(i), g)
  {
    var item := cfg.items[i];
    assert WellFormedItem(cfg, i);
    if g in PromptReads(cfg, item.prompts) {
      PromptRead(cfg, item.prompts, g);
      ReadMore(cfg, ExprsItems(item.prompts), BuildDep(item), g);
      ReadMentioned(cfg, Vis(i), g);
    } else {
      TypeRead(cfg, Vis(i), g);
    }
  }

  lemma TriRead(cfg: Config, i: Id, g: Facet)
    requires WellFormed(cfg) && i < |cfg.items| && g in TriReads(cfg, i)
    ensures Dependency(cfg, Tri(i), g)
  {
    var item := cfg.items[i];
    assert WellFormedItem(cfg, i);
    if g in DefaultReads(cfg, item.defaults) {
      DefaultRead(cfg, item, g);
      ReadMentioned(cfg, Tri(i), g);
    } else if g in DepReads(cfg, item) {
      RevRead(cfg, item, g);
      ReadMentioned(cfg, Tri(i), g);
    } else if g in TypeReads(cfg, i) {
      TypeRead(cfg, Tri(i), g);
    }
  }

  /** A symbol whose text is compared or copied. */
  lemma AtomRead(cfg: Config, a: Atom, g: Facet)
    requires AtomOk(cfg, a) && g in StrReads(cfg, a)
    ensures Mentioned(cfg, AtomItems(a), g)
  {
  }

  lemma TextRead(cfg: Config, i: Id, g: Facet)
    requires WellFormed(cfg) && i < |cfg.items| && cfg.items[i].Symbol? && g in TextReads(cfg, i)
    ensures Dependency(cfg, Str(i), g)
  {
    var item := cfg.items[i];
    assert WellFormedItem(cfg, i);
    if !item.orig.Logical() && g != Vis(i) {
      if g in CondReads(cfg, item.defaults) {
        CondRead(cfg, item.defaults, g);
        ReadMore(cfg, CondItems(item.defaults), BuildDep(item), g);
      } else if g in CondReads(cfg, item.ranges) {
        CondRead(cfg, item.ranges, g);
        ReadMore(cfg, CondItems(item.ranges), BuildDep(item), g);
      } else {
        PlainTextRead(cfg, item, g);
      }
      ReadMentioned(cfg, Str(i), g);
    }
  }

  lemma PlainTextRead(cfg: Config, item: Item, g: Facet)
    requires item.Symbol?
    requires forall p :: p in item.defaults ==> ExprOk(cfg, p.body)
    requires forall p :: p in item.ranges ==> AtomOk(cfg, p.body.low) && AtomOk(cfg, p.body.high)
    requires (exists p :: p in item.defaults && p.body.Leaf? && g in StrReads(cfg, p.body.atom))
          || (exists p :: p in item.ranges && g in StrReads(cfg, p.body.low) + StrReads(cfg, p.body.high))
    ensures DepRead(cfg, BuildDep(item), g)
  {
    if p :| p in item.defaults && p.body.Leaf? && g in StrReads(cfg, p.body.atom) {
      AtomRead(cfg, p.body.atom, g);
      assert g.id in ExprItems(p.body);
    } else {
      var p :| p in item.ranges && g in StrReads(cfg, p.body.low) + StrReads(cfg, p.body.high);
      AtomRead(cfg, if g in StrReads(cfg, p.body.low) then p.body.low else p.body.high, g);
      assert g.id in AtomItems(p.body.low) + AtomItems(p.body.high);
    }
  }

  lemma AsnRead(cfg: Config, i: Id, g: Facet)
    requires WellFormed(cfg) && i < |cfg.items| && g in AsnReads(cfg, i)
    ensures Dependency(cfg, Asn(i), g)
  {
    var item := cfg.items[i];
    assert WellFormedItem(cfg, i);
    if g in TypeReads(cfg, i) {
      TypeRead(cfg, Asn(i), g);
    } else if g != Vis(i) {
      RevRead(cfg, item, g);
      ReadMentioned(cfg, Asn(i), g);
    }
  }

  lemma SelRead(cfg: Config, c: Id, g: Facet)
    requires WellFormed(cfg) && c < |cfg.items| && cfg.items[c].Choice? && g in SelReads(cfg, c)
    ensures Dependency(cfg, Sel(c), g)
  {
    var item := cfg.items[c];
    assert WellFormedItem(cfg, c);
    if g in CondReads(cfg, item.picks) {
      CondRead(cfg, item.picks, g);
      ReadMore(cfg, CondItems(item.picks), BuildDep(item), g);
      ReadMentioned(cfg, Sel(c), g);
    } else if g in ModeReads(cfg, c) {
      assert c in {c} + ItemDependsOn(item);
    } else if p :| p in item.picks && g == Vis(p.body) {
      assert p.body in item.syms;
    }
  }

  /** Every read is of the item itself, within its choice, of something it mentions, or of MODULES for a tristate. */
  lemma ReadsClassified(cfg: Config, f: Facet, g: Facet)
    requires WellFormed(cfg) && g in Reads(cfg, f)
    ensures Dependency(cfg, f, g)
  {
    if f.id >= |cfg.items| {
      assert cfg.At(f.id) == Undefined;
    } else {
      match f
      case Vis(i) => VisRead(cfg, i, g);
      case Tri(i) => TriRead(cfg, i, g);
      case Str(i) => TextRead(cfg, i, g);
      case Asn(i) => AsnRead(cfg, i, g);
      case Sel(i) => SelRead(cfg, i, g);
    }
  }

  // ---- From a graph without loops to a ranking of the facets ----

  ghost function Ancestors(g: Graph, b: Id): set<Id>
    requires g.Valid()
  {
    set a | 0 <= a < |g.kinds| && Reaches(g, a, b)
  }

  /** Blocks that depend on more come later; everything MODULES needs comes before all else. */
  ghost function Level(g: Graph, apart: set<Id>, i: Id): nat
    requires g.Valid()
  {
    if i >= |g.kinds| then 0
    else 1 + |Ancestors(g, Block(g, i))| + if Block(g, i) in apart then 0 else |g.kinds| + 1
  }

  /** Within a block: the choice is seen before its symbols, and they before one is selected. */
  function Stage(cfg: Config, f: Facet): nat {
    match f
    case Vis(i) => if cfg.At(i).Choice? then 0 else 1
    case Sel(_) => 2
    case Tri(_) => 3
    case Str(_) => 4
    case Asn(_) => 4
  }

  ghost function FacetRank(cfg: Config, g: Graph, apart: set<Id>): Ranking
    requires g.Valid()
  {
    (f: Facet) => 5 * Level(g, apart, f.id) + Stage(cfg, f)
  }

  lemma SubsetSize(small: set<Id>, large: set<Id>)
    requires small <= large
    ensures |small| <= |large|
  {
    if small != large {
      var x :| x in large && x !in small;
      SubsetSize(small, large - {x});
    }
  }

  lemma AncestorsBounded(g: Graph, b: Id)
    requires g.Valid()
    ensures |Ancestors(g, b)| <= |g.kinds|
  {
    SizeBelow(Ancestors(g, b), |g.kinds|);
  }

  lemma SizeBelow(xs: set<Id>, n: nat)
    requires forall x :: x in xs ==> x < n
    ensures |xs| <= n
  {
    if n > 0 { SizeBelow(xs - {n - 1}, n - 1); }
  }

  lemma AncestorsGrow(g: Graph, a: Id, b: Id)
    requires g.Valid() && BlockEdge(g, a, b) && !Reaches(g, a, a)
    ensures |Ancestors(g, a)| < |Ancestors(g, b)|
  {
    EdgeReaches(g, a, b);
    EdgeInRange(g, a, b);
    forall x | x in Ancestors(g, a) ensures x in Ancestors(g, b) { ReachesFurther(g, x, a, b); }
    SubsetSize(Ancestors(g, a) + {a}, Ancestors(g, b));
  }

  /** The set that holds MODULES does not split a choice. */
  lemma ApartBlocks(cfg: Config, g: Graph, apart: set<Id>, i: Id)
    requires WellFormed(cfg) && g.Valid() && Represents(g, cfg) && ModulesApart(cfg, apart) && i < |cfg.items|
    ensures i in apart <==> Block(g, i) in apart
  {
    assert WellFormedItem(cfg, i);
    if cfg.items[i].Symbol? && cfg.items[i].choice.Some? {
      var c := cfg.items[i].choice.value;
      assert c in ItemDependsOn(cfg.items[i]) && i in ItemDependsOn(cfg.items[c]);
    }
  }

  /** The blocks of the configuration form no loop. */
  ghost predicate Acyclic(g: Graph)
    requires g.Valid()
  {
    forall b :: !Reaches(g, b, b)
  }

  lemma MentionRises(cfg: Config, g: Graph, apart: set<Id>, i: Id, j: Id)
    requires WellFormed(cfg) && g.Valid() && Represents(g, cfg) && Acyclic(g) && ModulesApart(cfg, apart)
    requires i < |cfg.items| && j in BuildDep(cfg.items[i]) && (j < |cfg.items| ==> Hard(g, j, i))
    ensures Level(g, apart, j) < Level(g, apart, i)
  {
    if j < |cfg.items| {
      assert BlockEdge(g, Block(g, j), Block(g, i));
      AncestorsGrow(g, Block(g, j), Block(g, i));
      AncestorsBounded(g, Block(g, j));
      ApartBlocks(cfg, g, apart, i);
      ApartBlocks(cfg, g, apart, j);
      assert i in apart ==> j in apart;
    }
  }

  /** What a symbol mentions of its own choice is its visibility. */
  lemma OwnChoiceRank(cfg: Config, g: Graph, apart: set<Id>, f: Facet, h: Facet)
    requires g.Valid() && Represents(g, cfg) && Paired(g)
    requires f.id < |cfg.items| && h.id < |cfg.items| && (cfg.items[h.id].Choice? ==> h.Vis?)
    requires f.id in g.deps[h.id] && !Hard(g, h.id, f.id)
    ensures FacetRank(cfg, g, apart)(h) < FacetRank(cfg, g, apart)(f)
  {
    assert Block(g, h.id) == Block(g, f.id);
  }

  lemma MentionedRank(cfg: Config, g: Graph, apart: set<Id>, f: Facet, h: Facet)
    requires WellFormed(cfg) && g.Valid() && Represents(g, cfg) && Paired(g) && Acyclic(g) && ModulesApart(cfg, apart)
    requires f.id < |cfg.items| && Mentioned(cfg, BuildDep(cfg.items[f.id]), h)
    ensures FacetRank(cfg, g, apart)(h) < FacetRank(cfg, g, apart)(f)
  {
    if h.id >= |cfg.items| {
    } else if Hard(g, h.id, f.id) {
      MentionRises(cfg, g, apart, f.id, h.id);
    } else {
      assert f.id in g.deps[h.id];
      OwnChoiceRank(cfg, g, apart, f, h);
    }
  }

  lemma ModulesRank(cfg: Config, g: Graph, apart: set<Id>, f: Facet, h: Facet)
    requires WellFormed(cfg) && g.Valid() && Represents(g, cfg) && ModulesApart(cfg, apart)
    requires f.id < |cfg.items| && ForModules(cfg, {f.id} + ItemDependsOn(cfg.items[f.id]), h)
    ensures FacetRank(cfg, g, apart)(h) < FacetRank(cfg, g, apart)(f)
  {
    assert h.id in apart;
    assert f.id !in apart;
    ApartBlocks(cfg, g, apart, f.id);
    ApartBlocks(cfg, g, apart, h.id);
    AncestorsBounded(g, Block(g, h.id));
  }

  lemma RankRises(cfg: Config, g: Graph, apart: set<Id>, f: Facet, h: Facet)
    requires WellFormed(cfg) && g.Valid() && Represents(g, cfg) && Paired(g) && Acyclic(g) && ModulesApart(cfg, apart)
    requires h in Reads(cfg, f)
    ensures FacetRank(cfg, g, apart)(h) < FacetRank(cfg, g, apart)(f)
  {
    ReadsClassified(cfg, f, h);
    if Own(f, h) {
    } else if Inner(cfg, f, h) {
      InnerRank(cfg, g, apart, f, h);
    } else if Mentioned(cfg, BuildDep(cfg.items[f.id]), h) {
      MentionedRank(cfg, g, apart, f, h);
    } else {
      ModulesRank(cfg, g, apart, f, h);
    }
  }

  lemma InnerRank(cfg: Config, g: Graph, apart: set<Id>, f: Facet, h: Facet)
    requires WellFormed(cfg) && g.Valid() && Represents(g, cfg) && Paired(g) && Inner(cfg, f, h) && !Own(f, h)
    ensures FacetRank(cfg, g, apart)(h) < FacetRank(cfg, g, apart)(f)
  {
    assert f.id < |cfg.items| && WellFormedItem(cfg, f.id);
    assert h.id < |cfg.items| && Block(g, h.id) == Block(g, f.id);
  }

  /** A configuration in which no choice is on a loop and the check finds nothing can be evaluated: its facets can be
      ranked. */
  lemma CheckedIsRanked(cfg: Config, g: Graph, roots: seq<Id>, apart: set<Id>)
    requires WellFormed(cfg) && g.Valid() && Represents(g, cfg) && Covered(g, roots) && ModulesApart(cfg, apart)
    requires Paired(g) && NoChoiceLoop(g) && CheckAll(g, Unvisited(|g.kinds|), roots).0.Clear?
    ensures exists rank :: Ranked(cfg, rank)
  {
    LoopCheckExact(g, roots);
    assert Acyclic(g);
    forall f, h | h in Reads(cfg, f) ensures FacetRank(cfg, g, apart)(h) < FacetRank(cfg, g, apart)(f) {
      RankRises(cfg, g, apart, f, h);
    }
    assert Ranked(cfg, FacetRank(cfg, g, apart));
  }
}
