/** Small configurations in which what the documentation promises does not hold. */
module KconfigWitness {
  import opened Basics
  import opened KconfigModel
  import opened KconfigEval
  import opened KconfigReads
  import opened KconfigScratch
  import opened KconfigCache
  import opened KconfigChoice
  import opened KconfigMinConfig
  import opened KconfigAssignable
  import opened KconfigText
  import opened KconfigSaveLoad
  import KconfigLoops
  import KconfigBlocks
  import KconfigRanking
  import KconfigMissed

  const M: Expr := Leaf(Nmy(1))

  const MODULES: Item := Symbol("MODULES", BOOL, [], [Prop(Y, Y)], [], N, N, Y, None)

  /** A tristate, visible as m and selected as m, with the given default and implied value. */
  function Middle(default: Expr, weak: Expr): Item {
    Symbol("A", TRISTATE, [M], [Prop(default, Y)], [], M, weak, Y, None)
  }

  /** MODULES is y, and there is one such symbol. */
  function Pair(default: Expr, weak: Expr, num: (string, nat) -> Option<int>, show: (int, bool) -> string): Config {
    Config([MODULES, Middle(default, weak)], 0, num, show)
  }

  function Order(f: Facet): nat {
    (if f.id == 0 then 0 else 10) + if f.Vis? then 0 else if f.Tri? then 1 else 2
  }

  lemma PairRanked(cfg: Config, default: Expr, weak: Expr)
    requires cfg == Pair(default, weak, cfg.num, cfg.show) && default in {N, M, Y} && weak in {N, M, Y}
    ensures Ranked(cfg, Order)
  {
    forall f, g | g in Reads(cfg, f) ensures Order(g) < Order(f) {
      assert cfg.At(f.id) == if f.id == 0 then MODULES else if f.id == 1 then Middle(default, weak) else Undefined;
    }
  }

  lemma PairWellFormed(cfg: Config, default: Expr, weak: Expr)
    requires cfg == Pair(default, weak, cfg.num, cfg.show) && default in {N, M, Y} && weak in {N, M, Y}
    requires forall b :: cfg.num("", b).None?
    ensures WellFormed(cfg)
  {
    assert WellFormedItem(cfg, 0) && WellFormedItem(cfg, 1);
  }

  /** MODULES is y, so that the symbol is a tristate, and visible as m. */
  lemma PairValues(cfg: Config, u: User, default: Expr, weak: Expr)
    requires cfg == Pair(default, weak, cfg.num, cfg.show) && WellFormed(cfg) && Ranked(cfg, Order)
    requires UserOk(cfg, u)
    ensures var s := Values(cfg, u, Order); s.TypeNow(1) == Some(TRISTATE) && s.GetTri(Vis(1)) == Some(1)
  {
    var s := Values(cfg, u, Order);
    ModulesIsY(cfg, u, Order);
    OfferedNow(cfg, u, Order, 1);
    assert s.MaxOf([M]) == Some(1) by { assert [M][..0] == []; }
  }

  /** Implied as y, the symbol offers m, but m makes it y. */
  lemma StuckHappens(cfg: Config)
    requires cfg == Pair(N, Y, cfg.num, cfg.show) && forall b :: cfg.num("", b).None?
    ensures Ranked(cfg, Order)
    ensures var u := User(map[], map[]);
            && Offered(Values(cfg, u, Order), 1) == Some([1])
            && Values(cfg, UserAfter(cfg, u, SetSym(1, GivenTri(1))), Order).GetTri(Tri(1)) == Some(2)
  {
    var u := User(map[], map[]);
    PairRanked(cfg, N, Y);
    PairWellFormed(cfg, N, Y);
    PairValues(cfg, u, N, Y);
    assert Stuck(Values(cfg, u, Order), 1);
    SymbolRespected(cfg, u, Order, 1, 1);
  }

  lemma PairPropagated(cfg: Config)
    requires cfg == Pair(Y, N, cfg.num, cfg.show)
    ensures ChoiceFree(cfg) && Propagated(cfg)
  {
  }

  lemma PairIsLost(cfg: Config, u: User)
    requires cfg == Pair(Y, N, cfg.num, cfg.show) && u == User(map[1 := GivenTri(1)], map[])
    requires WellFormed(cfg) && UserOk(cfg, u) && Ranked(cfg, Order)
    ensures Lost(Values(cfg, u, Order), 1)
  {
    PairValues(cfg, u, Y, N);
    var s := Values(cfg, u, Order);
    assert s.FirstActive(Middle(Y, N).defaults, 0) == Some((0, 2));
    assert s.FromDefaults(Middle(Y, N)) == Some(2);
    assert s.Promote(1, 1) == Some(1);
  }

  /** With a default of y and m assigned to it, the symbol is not restored from the minimal configuration. */
  lemma LostHappens(cfg: Config)
    requires cfg == Pair(Y, N, cfg.num, cfg.show) && (forall b :: cfg.num("", b).None?) && ReadsBack(cfg)
    ensures Ranked(cfg, Order)
    ensures var u := User(map[1 := GivenTri(1)], map[]);
            !SameValues(cfg, u, Reloaded(Values(cfg, u, Order)), Order)
  {
    var u := User(map[1 := GivenTri(1)], map[]);
    PairRanked(cfg, Y, N);
    PairWellFormed(cfg, Y, N);
    PairPropagated(cfg);
    PairIsLost(cfg, u);
    MinConfigReload(cfg, u, Order);
  }

  // ---- Values that a file does not keep ----

  /** MODULES, and a visible string, int or hex symbol without defaults. */
  function OneText(t: Type, num: (string, nat) -> Option<int>, show: (int, bool) -> string): Config {
    Config([MODULES, Symbol("A", t, [Y], [], [], N, N, Y, None)], 0, num, show)
  }

  lemma OneTextRanked(cfg: Config, t: Type)
    requires cfg == OneText(t, cfg.num, cfg.show) && (t == STRING || t.Numeric())
    ensures Ranked(cfg, Order)
  {
    forall f, g | g in Reads(cfg, f) ensures Order(g) < Order(f) {
      assert cfg.At(f.id) == if f.id < 2 then cfg.items[f.id] else Undefined;
    }
  }

  lemma OneTextWellFormed(cfg: Config, t: Type)
    requires cfg == OneText(t, cfg.num, cfg.show) && (t == STRING || t.Numeric()) && forall b :: cfg.num("", b).None?
    ensures WellFormed(cfg) && ChoiceFree(cfg) && Propagated(cfg) && Named(cfg)
  {
    assert WellFormedItem(cfg, 0) && WellFormedItem(cfg, 1);
  }

  /** The value is the one that the user gave, and it is written. */
  lemma OneTextValue(s: Scope, t: Type, val: string)
    requires s.cfg == OneText(t, s.cfg.num, s.cfg.show) && (t == STRING || t.Numeric()) && val != ""
    requires s.user.Str(1) == Some(val) && s.EvalVis(1).Some? && s.GetTri(Vis(1)) == s.EvalVis(1)
    requires s.GetStr(Str(1)) == s.EvalStr(1)
    ensures TextOf(s, 1) == Some(val)
  {
    assert s.MaxOf([Y]) == Some(2) by { assert [Y][..0] == []; }
    assert s.FirstActive(s.cfg.items[1].ranges, 0) == Some((0, 0));
    assert s.FirstActive(s.cfg.items[1].defaults, 0) == Some((0, 0));
  }

  lemma OneTextTorn(cfg: Config, t: Type, u: User, val: string)
    requires cfg == OneText(t, cfg.num, cfg.show) && (t == STRING || t.Numeric()) && Breaks(t, val)
    requires WellFormed(cfg) && UserOk(cfg, u) && Ranked(cfg, Order) && u.Str(1) == Some(val)
    ensures Torn(Values(cfg, u, Order), 1)
  {
    var s := Values(cfg, u, Order);
    FullJustified(cfg, u, Order);
    FullHolds(cfg, u, Order, Vis(1));
    FullHolds(cfg, u, Order, Str(1));
    assert Rederived(cfg, u, s.env, Vis(1)) && Rederived(cfg, u, s.env, Str(1));
    OneTextValue(s, t, val);
  }

  /** A value that a line does not keep is not restored from the file. */
  lemma TornHappens(cfg: Config, t: Type, val: string)
    requires cfg == OneText(t, cfg.num, cfg.show) && (t == STRING || t.Numeric()) && Breaks(t, val)
    requires (forall b :: cfg.num("", b).None?) && ReadsBack(cfg) && PlainNumbers(cfg)
    requires ValueOk(cfg, cfg.items[1], GivenStr(val))
    ensures Ranked(cfg, Order)
    ensures var u := User(map[1 := GivenStr(val)], map[]);
            var v := User(Loaded(cfg, MinConfig(Values(cfg, u, Order))), map[]);
            !SameValues(cfg, u, v, Order)
  {
    var u := User(map[1 := GivenStr(val)], map[]);
    OneTextRanked(cfg, t);
    OneTextWellFormed(cfg, t);
    OneTextTorn(cfg, t, u, val);
    FileReloads(cfg, u, Order);
  }

  /** For instance two lines as the value of a string, or a number with a space behind it. */
  lemma BreaksHappen()
    ensures Breaks(STRING, "a\nb") && Breaks(INT, "5 ")
  {
    assert Ends("a\nb"[1]) && Space("5 "[1]);
  }

  // ---- A choice in m mode ----

  /** A tristate symbol of choice 1, selected as `rev` says. */
  function Member(name: string, rev: Expr): Item {
    Symbol(name, TRISTATE, [ChoiceMode(1)], [], [], rev, N, ChoiceMode(1), Some(1))
  }

  const MIDDLE_CHOICE: Item := Choice(TRISTATE, [M], false, [], [2, 3])

  /** MODULES is y; the choice is visible as m; MODULES selects the first of its two symbols. */
  function WithChoice(num: (string, nat) -> Option<int>, show: (int, bool) -> string): Config {
    Config([MODULES, MIDDLE_CHOICE, Member("A", Leaf(Sym(0))), Member("B", N)], 0, num, show)
  }

  function ChoiceOrder(f: Facet): nat {
    (if f.id == 0 then 0 else 5) +
    match f case Vis(i) => (if i == 1 then 0 else 1) case Sel(_) => 2 case Tri(_) => 3 case Str(_) => 4 case Asn(_) => 4
  }

  lemma WithChoiceItems(cfg: Config, i: Id)
    requires cfg == WithChoice(cfg.num, cfg.show)
    ensures cfg.At(i) == if i == 0 then MODULES else if i == 1 then MIDDLE_CHOICE
                         else if i == 2 then Member("A", Leaf(Sym(0))) else if i == 3 then Member("B", N) else Undefined
  {
  }

  lemma MemberReads(cfg: Config, f: Facet, g: Facet)
    requires cfg == WithChoice(cfg.num, cfg.show) && (f.id == 2 || f.id == 3) && g in Reads(cfg, f)
    ensures ChoiceOrder(g) < ChoiceOrder(f)
  {
    WithChoiceItems(cfg, f.id);
    WithChoiceItems(cfg, 0);
    WithChoiceItems(cfg, 1);
  }

  lemma OtherReads(cfg: Config, f: Facet, g: Facet)
    requires cfg == WithChoice(cfg.num, cfg.show) && f.id != 2 && f.id != 3 && g in Reads(cfg, f)
    ensures ChoiceOrder(g) < ChoiceOrder(f)
  {
    WithChoiceItems(cfg, f.id);
    WithChoiceItems(cfg, 0);
  }

  lemma WithChoiceRanked(cfg: Config)
    requires cfg == WithChoice(cfg.num, cfg.show)
    ensures Ranked(cfg, ChoiceOrder)
  {
    forall f, g | g in Reads(cfg, f) ensures ChoiceOrder(g) < ChoiceOrder(f) {
      if f.id == 2 || f.id == 3 { MemberReads(cfg, f, g); } else { OtherReads(cfg, f, g); }
    }
  }

  lemma MemberWellFormed(cfg: Config, i: Id, name: string, rev: Expr)
    requires i < |cfg.items| && 1 < |cfg.items| && cfg.items[1].Choice? && i in cfg.items[1].syms
    requires cfg.items[i] == Member(name, rev) && ExprOk(cfg, rev)
    ensures WellFormedItem(cfg, i)
  {
    assert ChoiceMode(1) in cfg.items[i].prompts && 1 in ExprItems(ChoiceMode(1));
  }

  lemma WithChoiceProper(cfg: Config)
    requires cfg == WithChoice(cfg.num, cfg.show)
    ensures ProperChoice(cfg, 1)
  {
  }

  lemma WithChoiceWellFormed(cfg: Config)
    requires cfg == WithChoice(cfg.num, cfg.show) && forall b :: cfg.num("", b).None?
    ensures WellFormed(cfg)
  {
    assert WellFormedItem(cfg, 0);
    assert WellFormedItem(cfg, 1);
    MemberWellFormed(cfg, 2, "A", Leaf(Sym(0)));
    MemberWellFormed(cfg, 3, "B", N);
  }

  lemma ModulesIsY(cfg: Config, u: User, rank: Ranking)
    requires WellFormed(cfg) && UserOk(cfg, u) && Ranked(cfg, rank) && cfg.modules == 0 && cfg.items != []
    requires cfg.items[0] == MODULES
    ensures Values(cfg, u, rank).GetTri(Tri(0)) == Some(2)
  {
    var s := Values(cfg, u, rank);
    OfferedNow(cfg, u, rank, 0);
    ValueNow(cfg, u, rank, 0);
    assert s.EvalVis(0) == Some(0);
    assert s.FirstActive(MODULES.defaults, 0) == Some((0, 2));
    assert s.FromDefaults(MODULES) == Some(2);
  }

  lemma MiddleChoice(s: Scope)
    requires s.cfg == WithChoice(s.cfg.num, s.cfg.show) && s.GetTri(Tri(0)) == Some(2) && s.user.Tri(1) == None
    ensures s.EvalVis(1) == Some(1)
    ensures s.GetTri(Vis(1)) == Some(1) ==> s.Mode(1) == Some(1)
  {
    WithChoiceItems(s.cfg, 0);
    WithChoiceItems(s.cfg, 1);
    assert s.MaxOf([M]) == Some(1) by { assert [M][..0] == []; }
  }

  lemma MiddleVisible(s: Scope)
    requires s.cfg == WithChoice(s.cfg.num, s.cfg.show) && s.GetTri(Tri(0)) == Some(2) && s.Mode(1) == Some(1)
    ensures s.EvalVis(2) == Some(1)
  {
    WithChoiceItems(s.cfg, 0);
    WithChoiceItems(s.cfg, 2);
    assert s.MaxOf([ChoiceMode(1)]) == Some(1) by { assert [ChoiceMode(1)][..0] == []; }
  }

  lemma WithChoiceMode(cfg: Config, u: User)
    requires cfg == WithChoice(cfg.num, cfg.show) && WellFormed(cfg) && Ranked(cfg, ChoiceOrder) && UserOk(cfg, u)
    requires u.Tri(1) == None
    ensures var s := Values(cfg, u, ChoiceOrder); s.Mode(1) == Some(1) && s.GetTri(Vis(2)) == Some(1)
  {
    ModulesIsY(cfg, u, ChoiceOrder);
    OfferedNow(cfg, u, ChoiceOrder, 1);
    MiddleChoice(Values(cfg, u, ChoiceOrder));
    OfferedNow(cfg, u, ChoiceOrder, 2);
    MiddleVisible(Values(cfg, u, ChoiceOrder));
  }

  /** The symbol is offered y and nothing else, but y makes it m. */
  lemma MiddleMemberHappens(cfg: Config)
    requires cfg == WithChoice(cfg.num, cfg.show) && forall b :: cfg.num("", b).None?
    ensures WellFormed(cfg) && ProperChoice(cfg, 1) && Ranked(cfg, ChoiceOrder)
    ensures var u := User(map[], map[]);
            && Offered(Values(cfg, u, ChoiceOrder), 2) == Some([2])
            && Values(cfg, UserAfter(cfg, u, SetSym(2, GivenTri(2))), ChoiceOrder).GetTri(Tri(2)) == Some(1)
            && !(forall x :: Respects(cfg, u, ChoiceOrder, 2, x))
  {
    var u := User(map[], map[]);
    WithChoiceRanked(cfg);
    WithChoiceWellFormed(cfg);
    WithChoiceProper(cfg);
    WithChoiceMode(cfg, u);
    ModulesIsY(cfg, u, ChoiceOrder);
    MiddleMemberAssigned(cfg, u, ChoiceOrder, 1, 2, 2);
    MiddleMemberRespected(cfg, u, ChoiceOrder, 1, 2);
  }

  // ---- A loop that the check does not report ----

  /** A bool with one prompt, whose condition is also its direct dependency. */
  function Prompted(name: string, e: Expr, choice: Option<Id>): Item {
    Symbol(name, BOOL, [e], [], [], N, N, e, choice)
  }

  const TANGLED_CHOICE: Item := Choice(BOOL, [Y], false, [], [0, 1, 2])

  /** The second symbol of the choice depends on D, and D on the third one. */
  function WithLoop(num: (string, nat) -> Option<int>, show: (int, bool) -> string): Config {
    Config([Prompted("T", ChoiceMode(4), Some(4)),
            Prompted("S", And(ChoiceMode(4), Leaf(Sym(3))), Some(4)),
            Prompted("U", ChoiceMode(4), Some(4)),
            Prompted("D", Leaf(Sym(2)), None),
            TANGLED_CHOICE], 5, num, show)
  }

  const LOOP_GRAPH: KconfigLoops.Graph :=
    KconfigLoops.Graph([KconfigLoops.SymNode(Some(4)), KconfigLoops.SymNode(Some(4)), KconfigLoops.SymNode(Some(4)),
                        KconfigLoops.SymNode(None), KconfigLoops.ChoiceNode([0, 1, 2])],
                       [[], [], [3], [1], [0, 1, 2]])

  lemma PromptedDeps(name: string, e: Expr, choice: Option<Id>)
    ensures KconfigRanking.BuildDep(Prompted(name, e, choice)) == ExprItems(e)
  {
    var item := Prompted(name, e, choice);
    assert ExprsItems(item.prompts) == ExprItems(e) by { assert e in item.prompts; }
    assert CondItems(item.defaults) == {} && CondItems(item.ranges) == {};
  }

  /** What each item depends on. */
  function LoopDeps(i: Id): set<Id> {
    if i == 0 || i == 2 then {4} else if i == 1 then {3, 4} else if i == 3 then {2} else {}
  }

  lemma WithLoopDeps(cfg: Config, i: Id)
    requires cfg == WithLoop(cfg.num, cfg.show) && i < 5
    ensures KconfigRanking.BuildDep(cfg.items[i]) == LoopDeps(i)
  {
    if i == 4 {
      assert ExprsItems([Y]) == {} by { assert ExprItems(Y) == {}; }
      assert CondItems(TANGLED_CHOICE.picks) == {};
    } else {
      PromptedDeps("T", ChoiceMode(4), Some(4));
      PromptedDeps("S", And(ChoiceMode(4), Leaf(Sym(3))), Some(4));
      PromptedDeps("U", ChoiceMode(4), Some(4));
      PromptedDeps("D", Leaf(Sym(2)), None);
    }
  }

  lemma LoopGraphEdges(i: Id, j: Id)
    requires j < 5
    ensures i in LOOP_GRAPH.deps[j] <==> i < 5 && j in LoopDeps(i)
  {
  }

  lemma LoopRepresented(cfg: Config)
    requires cfg == WithLoop(cfg.num, cfg.show)
    ensures KconfigRanking.Represents(LOOP_GRAPH, cfg)
  {
    forall i: Id, j: Id | j < 5
      ensures i in LOOP_GRAPH.deps[j] <==> i < 5 && j in KconfigRanking.BuildDep(cfg.items[i])
    {
      LoopGraphEdges(i, j);
      if i < 5 { WithLoopDeps(cfg, i); }
    }
  }

  lemma LoopGraphValid()
    ensures LOOP_GRAPH.Valid()
  {
    forall i, j | 0 <= j < 5 && i in LOOP_GRAPH.deps[j] ensures i < 5 { LoopGraphEdges(i, j); }
  }

  lemma LoopGraphPaired()
    ensures KconfigBlocks.Paired(LOOP_GRAPH)
  {
  }

  lemma LoopGraphCovered()
    ensures KconfigLoops.Covered(LOOP_GRAPH, [0, 1, 2, 3])
  {
  }

  lemma WithLoopWellFormed(cfg: Config)
    requires cfg == WithLoop(cfg.num, cfg.show) && forall b :: cfg.num("", b).None?
    ensures WellFormed(cfg)
  {
    forall i | 0 <= i < |cfg.items| ensures WellFormedItem(cfg, i) {
      if i < 4 { WithLoopDeps(cfg, i); }
    }
  }

  lemma WithLoopProper(cfg: Config)
    requires cfg == WithLoop(cfg.num, cfg.show)
    ensures ProperChoice(cfg, 4)
  {
  }

  lemma LoopChain(cfg: Config)
    requires cfg == WithLoop(cfg.num, cfg.show)
    ensures KconfigMissed.Chain(cfg, [Vis(1), Tri(3), Vis(3), Tri(2)])
  {
    PromptIsRead(cfg, 1, And(ChoiceMode(4), Leaf(Sym(3))), Tri(3));
    PromptIsRead(cfg, 3, Leaf(Sym(2)), Tri(2));
    assert Vis(3) in Reads(cfg, Tri(3));
  }

  lemma PromptIsRead(cfg: Config, i: Id, e: Expr, g: Facet)
    requires e in cfg.At(i).prompts && g in ExprReads(cfg, e)
    ensures g in Reads(cfg, Vis(i))
  {
  }

  lemma LoopPasses()
    requires LOOP_GRAPH.Valid()
    ensures KconfigLoops.CheckAll(LOOP_GRAPH, KconfigLoops.Unvisited(5), [0, 1, 2, 3]).0 == KconfigLoops.Clear
  {
    KconfigMissed.CrossedIsMissed(LOOP_GRAPH, 0, 1, 2, 3, 4);
  }

  lemma WithLoopUnranked(cfg: Config, rank: Ranking)
    requires cfg == WithLoop(cfg.num, cfg.show)
    ensures !Ranked(cfg, rank)
  {
    LoopChain(cfg);
    KconfigMissed.CrossedHasNoOrder(cfg, 1, 2, 4, [Vis(1), Tri(3), Vis(3), Tri(2)], rank);
  }

  /** A configuration that passes the loop check from all of its symbols and has no evaluation order. */
  lemma MissedLoopHappens(cfg: Config)
    requires cfg == WithLoop(cfg.num, cfg.show) && forall b :: cfg.num("", b).None?
    ensures WellFormed(cfg) && ProperChoice(cfg, 4)
    ensures LOOP_GRAPH.Valid() && KconfigBlocks.Paired(LOOP_GRAPH) && KconfigRanking.Represents(LOOP_GRAPH, cfg)
    ensures KconfigRanking.ModulesApart(cfg, {}) && KconfigLoops.Covered(LOOP_GRAPH, [0, 1, 2, 3])
    ensures KconfigLoops.CheckAll(LOOP_GRAPH, KconfigLoops.Unvisited(5), [0, 1, 2, 3]).0 == KconfigLoops.Clear
    ensures forall rank: Ranking :: !Ranked(cfg, rank)
  {
    WithLoopWellFormed(cfg);
    WithLoopProper(cfg);
    LoopGraphValid();
    LoopGraphPaired();
    LoopGraphCovered();
    LoopRepresented(cfg);
    LoopPasses();
    forall rank: Ranking ensures !Ranked(cfg, rank) { WithLoopUnranked(cfg, rank); }
  }
}
