/** Choices: how the mode of a choice decides the values of its symbols. */
module KconfigChoice {
  import opened Basics
  import opened KconfigModel
  import opened KconfigEval
  import opened KconfigReads
  import opened KconfigScratch

  // ---- All values at once ----

  function AllFacets(cfg: Config): set<Facet> {
    var n := |cfg.items|;
    (set i | 0 <= i < n :: Vis(i)) + (set i | 0 <= i < n :: Tri(i)) + (set i | 0 <= i < n :: Str(i))
    + (set i | 0 <= i < n :: Asn(i)) + (set i | 0 <= i < n :: Sel(i))
  }

  lemma AllFacetsInRange(cfg: Config, f: Facet)
    ensures f in AllFacets(cfg) <==> f.id < |cfg.items|
  {}

  /** The values of all facets, from scratch. */
  ghost function Full(cfg: Config, u: User, rank: Ranking): Env
    requires Ranked(cfg, rank)
  {
    map f | f in AllFacets(cfg) && Real(cfg, f) && Scratch(cfg, u, rank, f).Some? :: Scratch(cfg, u, rank, f).value
  }

  lemma FullHolds(cfg: Config, u: User, rank: Ranking, f: Facet)
    requires WellFormed(cfg) && UserOk(cfg, u) && Ranked(cfg, rank) && Real(cfg, f)
    ensures f in Full(cfg, u, rank) && Shaped(f, Full(cfg, u, rank)[f])
    ensures Scratch(cfg, u, rank, f) == Some(Full(cfg, u, rank)[f])
  {
    AllFacetsInRange(cfg, f);
    ScratchDefined(cfg, u, rank, f);
  }

  /** The values from scratch solve all the equations at once. */
  lemma FullJustified(cfg: Config, u: User, rank: Ranking)
    requires WellFormed(cfg) && UserOk(cfg, u) && Ranked(cfg, rank)
    ensures Justified(cfg, u, Full(cfg, u, rank))
  {
    var full := Full(cfg, u, rank);
    forall f ensures Rederived(cfg, u, full, f) {
      if f in full {
        var below := Below(cfg, u, rank, f);
        forall g | g in below ensures g in full && full[g] == below[g] {
          ReadsReal(cfg, f, g);
          FullHolds(cfg, u, rank, g);
        }
        EvalTransfers(Scope(cfg, u, below), Scope(cfg, u, full), f);
      }
    }
  }

  // ---- Exclusivity ----

  /** The conditions that parsing leaves on the prompts inside a choice: the choice is one of the conjuncts,
      unless the condition has collapsed to n. */
  predicate Within(e: Expr, c: Id) {
    e == N || e == ChoiceMode(c) || (e.And? && (Within(e.left, c) || Within(e.right, c)))
  }

  /** Members are bool or tristate symbols whose prompts are all inside the choice. */
  ghost predicate ProperChoice(cfg: Config, c: Id) {
    && c < |cfg.items| && cfg.items[c].Choice?
    && forall x :: x in cfg.items[c].syms ==>
         && x < |cfg.items| && cfg.items[x].Symbol? && cfg.items[x].orig.Logical() && cfg.items[x].choice == Some(c)
         && forall e :: e in cfg.items[x].prompts ==> Within(e, c)
  }

  lemma {:induction false} WithinBounded(s: Scope, e: Expr, c: Id)
    requires Within(e, c) && s.ExprVal(e).Some? && s.Mode(c).Some?
    ensures s.ExprVal(e).value <= s.Mode(c).value
  {
    if e.And? {
      var a := s.ExprVal(e.left).value;
      if Within(e.left, c) { WithinBounded(s, e.left, c); }
      else if a != 0 { WithinBounded(s, e.right, c); }
    }
  }

  lemma {:induction false} PromptsBounded(s: Scope, es: seq<Expr>, c: Id)
    requires (forall e :: e in es ==> Within(e, c)) && s.MaxOf(es).Some? && s.Mode(c).Some?
    ensures s.MaxOf(es).value <= s.Mode(c).value
  {
    if es != [] {
      PromptsBounded(s, es[..|es| - 1], c);
      assert es[|es| - 1] in es;
      WithinBounded(s, es[|es| - 1], c);
    }
  }

  /** The visibility of a member, as the mode of the choice lets it be. */
  lemma MemberVisibility(s: Scope, c: Id, x: Id)
    requires ProperChoice(s.cfg, c) && x in s.cfg.items[c].syms && s.Mode(c).Some? && s.EvalVis(x).Some?
    ensures s.Mode(c) == Some(0) ==> s.EvalVis(x) == Some(0)
    ensures s.Mode(c) == Some(2) ==> s.EvalVis(x).value != 1
  {
    PromptsBounded(s, s.cfg.items[x].prompts, c);
  }

  lemma {:induction false} FirstVisibleFinds(s: Scope, syms: seq<Id>)
    requires s.FirstVisible(syms).Some?
    ensures match s.FirstVisible(syms).value
            case Some(p) => p in syms && s.GetTri(Vis(p)).Some? && s.GetTri(Vis(p)).value != 0
            case None => forall x :: x in syms ==> s.GetTri(Vis(x)) == Some(0)
  {
    if syms != [] && s.GetTri(Vis(syms[0])) == Some(0) { FirstVisibleFinds(s, syms[1..]); }
  }

  lemma {:induction false} PicksFind(s: Scope, item: Item, k: nat)
    requires item.Choice? && k <= |item.picks| && s.FromPicks(item, k).Some?
    requires forall p :: p in item.picks ==> p.body in item.syms
    ensures match s.FromPicks(item, k).value
            case Some(p) => p in item.syms && s.GetTri(Vis(p)).Some? && s.GetTri(Vis(p)).value != 0
            case None => forall x :: x in item.syms ==> s.GetTri(Vis(x)) == Some(0)
    decreases |item.picks| - k
  {
    if k == |item.picks| {
      FirstVisibleFinds(s, item.syms);
    } else {
      assert item.picks[k] in item.picks;
      if s.ExprVal(item.picks[k].cond) == Some(0) || s.GetTri(Vis(item.picks[k].body)) == Some(0) {
        PicksFind(s, item, k + 1);
      }
    }
  }

  /** In y mode the selection is a visible member, and there is one exactly when some member is visible. */
  lemma SelectionFinds(s: Scope, c: Id)
    requires WellFormed(s.cfg) && UserOk(s.cfg, s.user) && ProperChoice(s.cfg, c)
    requires s.EvalSel(c).Some? && s.Mode(c) == Some(2)
    ensures match s.EvalSel(c).value
            case Some(p) => p in s.cfg.items[c].syms && s.GetTri(Vis(p)).Some? && s.GetTri(Vis(p)).value != 0
            case None => forall x :: x in s.cfg.items[c].syms ==> s.GetTri(Vis(x)) == Some(0)
  {
    assert WellFormedItem(s.cfg, c);
    if s.FromPicks(s.cfg.items[c], 0).Some? { PicksFind(s, s.cfg.items[c], 0); }
  }

  /** The value of a member in a scope whose entries are justified. */
  lemma MemberValue(s: Scope, c: Id, x: Id)
    requires WellFormed(s.cfg) && UserOk(s.cfg, s.user) && ProperChoice(s.cfg, c) && x in s.cfg.items[c].syms
    requires Knows(s, {Vis(c), Sel(c), Vis(x)}) && s.Mode(c).Some?
    requires Rederived(s.cfg, s.user, s.env, Vis(x)) && Rederived(s.cfg, s.user, s.env, Sel(c))
    ensures s.EvalTri(x).Some?
    ensures s.Mode(c) == Some(0) ==> s.EvalTri(x) == Some(0)
    ensures s.Mode(c) == Some(1) ==> s.EvalTri(x).value <= 1
    ensures s.Mode(c) == Some(2) ==> s.EvalTri(x) == Some(if s.GetSel(c) == Some(Some(x)) then 2 else 0)
  {
    assert Vis(x) in {Vis(c), Sel(c), Vis(x)} && Sel(c) in {Vis(c), Sel(c), Vis(x)};
    MemberVisibility(s, c, x);
    if s.Mode(c) == Some(2) { SelectionFinds(s, c); }
  }

  /** What there is to know about a choice and its members. */
  function ChoiceFacets(cfg: Config, c: Id): set<Facet>
    requires ProperChoice(cfg, c)
  {
    ModeReads(cfg, c) + {Sel(c)} + (set x | x in cfg.items[c].syms :: Vis(x)) + (set x | x in cfg.items[c].syms :: Tri(x))
  }

  /** Exactly one member is y, and all others are n. */
  ghost predicate ExactlyOne(s: Scope, c: Id, p: Id)
    requires ProperChoice(s.cfg, c)
  {
    && p in s.cfg.items[c].syms
    && forall x :: x in s.cfg.items[c].syms ==> s.GetTri(Tri(x)) == Some(if x == p then 2 else 0)
  }

  /** In n mode all members are n, in m mode none is y, and in y mode exactly one member is y and the others are n,
      unless no member is visible. A visible user selection is the one chosen. */
  ghost predicate Exclusive(s: Scope, c: Id)
    requires ProperChoice(s.cfg, c)
  {
    var syms := s.cfg.items[c].syms;
    var pick := s.user.Pick(c);
    match s.Mode(c)
    case None => false
    case Some(mode) =>
      && (forall x :: x in syms ==> s.GetTri(Tri(x)).Some?)
      && (mode == 0 ==> forall x :: x in syms ==> s.GetTri(Tri(x)) == Some(0))
      && (mode == 1 ==> forall x :: x in syms ==> s.GetTri(Tri(x)) != Some(2))
      && (mode == 2 && (exists x :: x in syms && s.GetTri(Vis(x)) != Some(0)) ==> exists p :: ExactlyOne(s, c, p))
      && (mode == 2 && !(exists x :: x in syms && s.GetTri(Vis(x)) != Some(0)) ==>
            forall x :: x in syms ==> s.GetTri(Tri(x)) == Some(0))
      && (mode == 2 && pick.Some? && s.GetTri(Vis(pick.value)) != Some(0) ==> ExactlyOne(s, c, pick.value))
  }

  lemma MemberDecided(s: Scope, c: Id, x: Id)
    requires WellFormed(s.cfg) && UserOk(s.cfg, s.user) && ProperChoice(s.cfg, c) && x in s.cfg.items[c].syms
    requires Justified(s.cfg, s.user, s.env) && Knows(s, ChoiceFacets(s.cfg, c))
    ensures s.Mode(c).Some? && s.GetTri(Tri(x)).Some? && s.GetSel(c).Some?
    ensures s.Mode(c) == Some(0) ==> s.GetTri(Tri(x)) == Some(0)
    ensures s.Mode(c) == Some(1) ==> s.GetTri(Tri(x)) != Some(2)
    ensures s.Mode(c) == Some(2) ==> s.GetTri(Tri(x)) == Some(if s.GetSel(c) == Some(Some(x)) then 2 else 0)
  {
    KnowsLess(s, ChoiceFacets(s.cfg, c), ModeReads(s.cfg, c));
    KnowsLess(s, ChoiceFacets(s.cfg, c), {Vis(c), Sel(c), Vis(x), Tri(x)});
    assert Tri(x) in {Vis(c), Sel(c), Vis(x), Tri(x)} && Sel(c) in {Vis(c), Sel(c), Vis(x), Tri(x)};
    ModeKnown(s, c);
    assert Rederived(s.cfg, s.user, s.env, Vis(x)) && Rederived(s.cfg, s.user, s.env, Sel(c));
    assert Rederived(s.cfg, s.user, s.env, Tri(x));
    MemberValue(s, c, x);
  }

  /** Choices are exclusive in every justified environment, such as every cache a run can reach. */
  lemma ChoiceExclusive(s: Scope, c: Id)
    requires WellFormed(s.cfg) && UserOk(s.cfg, s.user) && ProperChoice(s.cfg, c)
    requires Justified(s.cfg, s.user, s.env) && Knows(s, ChoiceFacets(s.cfg, c))
    ensures Exclusive(s, c)
  {
    KnowsLess(s, ChoiceFacets(s.cfg, c), ModeReads(s.cfg, c));
    ModeKnown(s, c);
    forall x | x in s.cfg.items[c].syms
      ensures s.GetTri(Tri(x)).Some? && s.GetSel(c).Some?
      ensures s.Mode(c) == Some(0) ==> s.GetTri(Tri(x)) == Some(0)
      ensures s.Mode(c) == Some(1) ==> s.GetTri(Tri(x)) != Some(2)
      ensures s.Mode(c) == Some(2) ==> s.GetTri(Tri(x)) == Some(if s.GetSel(c) == Some(Some(x)) then 2 else 0)
    {
      MemberDecided(s, c, x);
    }
    if s.Mode(c) == Some(2) {
      assert Sel(c) in ChoiceFacets(s.cfg, c) && Rederived(s.cfg, s.user, s.env, Sel(c));
      SelectionFinds(s, c);
      if s.GetSel(c).value.Some? { assert ExactlyOne(s, c, s.GetSel(c).value.value); }
    }
  }

  /** Evaluation from scratch is such an environment, for every user assignment. */
  lemma ChoiceExclusiveFromScratch(cfg: Config, u: User, rank: Ranking, c: Id)
    requires WellFormed(cfg) && UserOk(cfg, u) && Ranked(cfg, rank) && ProperChoice(cfg, c)
    ensures Exclusive(Scope(cfg, u, Full(cfg, u, rank)), c)
  {
    var s := Scope(cfg, u, Full(cfg, u, rank));
    FullJustified(cfg, u, rank);
    forall g | g in ChoiceFacets(cfg, c) ensures g in s.env && Shaped(g, s.env[g]) {
      if g in ModeReads(cfg, c) {
        assert g in SelReads(cfg, c) && g in Reads(cfg, Sel(c));
        ReadsReal(cfg, Sel(c), g);
      }
      FullHolds(cfg, u, rank, g);
    }
    ChoiceExclusive(s, c);
  }
}
