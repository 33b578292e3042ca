/** The assignable values of symbols and choices are those that an assignment would really give them. */
module KconfigAssignable {
  import opened Basics
  import opened KconfigModel
  import opened KconfigEval
  import opened KconfigReads
  import opened KconfigScratch
  import opened KconfigCache
  import opened KconfigChoice

  // ---- What an assignment leaves alone ----

  /** Nothing that facet `f` looks at directly differs between the two assignments. */
  ghost predicate Agree(cfg: Config, u: User, v: User, f: Facet) {
    && (f.Tri? ==> u.Tri(f.id) == v.Tri(f.id))
    && (f.Str? ==> u.Str(f.id) == v.Str(f.id))
    && (f.Sel? ==> u.Pick(f.id) == v.Pick(f.id))
    && (forall g :: g in Reads(cfg, f) && cfg.At(g.id).Choice? ==> u.Tri(g.id) == v.Tri(g.id))
  }

  ghost predicate AgreeBelow(cfg: Config, u: User, v: User, rank: Ranking, n: nat) {
    forall f :: Real(cfg, f) && rank(f) < n ==> Agree(cfg, u, v, f)
  }

  /** The values of the facets below rank `n`. */
  ghost function Lower(cfg: Config, u: User, rank: Ranking, n: nat): Env
    requires Ranked(cfg, rank)
  {
    map f | f in Full(cfg, u, rank) && rank(f) < n :: Full(cfg, u, rank)[f]
  }

  lemma LowerJustified(cfg: Config, u: User, v: User, rank: Ranking, n: nat)
    requires WellFormed(cfg) && UserOk(cfg, u) && Ranked(cfg, rank) && AgreeBelow(cfg, u, v, rank, n)
    ensures Justified(cfg, v, Lower(cfg, u, rank, n))
  {
    var full, lower := Full(cfg, u, rank), Lower(cfg, u, rank, n);
    FullJustified(cfg, u, rank);
    forall f ensures Rederived(cfg, v, lower, f) {
      if f in lower {
        assert Rederived(cfg, u, full, f);
        assert Agree(cfg, u, v, f);
        EvalTransfers(Scope(cfg, u, full), Scope(cfg, v, lower), f);
      }
    }
  }

  /** Facets of lower rank keep their values. */
  lemma Unaffected(cfg: Config, u: User, v: User, rank: Ranking, n: nat, f: Facet)
    requires WellFormed(cfg) && UserOk(cfg, u) && UserOk(cfg, v) && Ranked(cfg, rank)
    requires AgreeBelow(cfg, u, v, rank, n) && Real(cfg, f) && rank(f) < n
    ensures f in Full(cfg, u, rank) && f in Full(cfg, v, rank) && Full(cfg, v, rank)[f] == Full(cfg, u, rank)[f]
  {
    FullHolds(cfg, u, rank, f);
    FullHolds(cfg, v, rank, f);
    LowerJustified(cfg, u, v, rank, n);
    JustifiedIsScratch(cfg, v, rank, Lower(cfg, u, rank, n), f);
  }

  /** So what a facet reads is the same before and after. */
  lemma ReadsUnaffected(cfg: Config, u: User, v: User, rank: Ranking, f: Facet)
    requires WellFormed(cfg) && UserOk(cfg, u) && UserOk(cfg, v) && Ranked(cfg, rank) && Real(cfg, f)
    requires AgreeBelow(cfg, u, v, rank, rank(f))
    requires forall g :: g in Reads(cfg, f) && cfg.At(g.id).Choice? ==> u.Tri(g.id) == v.Tri(g.id)
    ensures Covers(Scope(cfg, u, Full(cfg, u, rank)), Scope(cfg, v, Full(cfg, v, rank)), Reads(cfg, f))
    ensures Knows(Scope(cfg, u, Full(cfg, u, rank)), Reads(cfg, f))
  {
    forall g | g in Reads(cfg, f)
      ensures Real(cfg, g) && g in Full(cfg, u, rank) && g in Full(cfg, v, rank)
      ensures Shaped(g, Full(cfg, u, rank)[g]) && Full(cfg, v, rank)[g] == Full(cfg, u, rank)[g]
    {
      ReadsReal(cfg, f, g);
      FullHolds(cfg, u, rank, g);
      Unaffected(cfg, u, v, rank, rank(f), g);
    }
  }

  /** The values from scratch for an assignment. */
  ghost function Values(cfg: Config, u: User, rank: Ranking): Scope
    requires Ranked(cfg, rank)
  {
    Scope(cfg, u, Full(cfg, u, rank))
  }

  /** The `assignable` attribute. */
  function Offered(s: Scope, i: Id): Option<seq<Tristate>> {
    if Asn(i) in s.env && s.env[Asn(i)].AsnVal? then Some(s.env[Asn(i)].a) else None
  }

  // ---- Symbols outside choices ----

  /** Visible as m, selected as m, and implied as y: such a symbol is y whatever is assigned to it. */
  predicate Stuck(s: Scope, i: Id) {
    && s.cfg.At(i).Symbol? && s.GetTri(Vis(i)) == Some(1)
    && s.ExprVal(s.cfg.At(i).rev) == Some(1) && s.ExprVal(s.cfg.At(i).weak) == Some(2)
  }

  /** The assignable values against the value that an assignment gives, once the circumstances are known. */
  lemma Weighs(s: Scope, t: Scope, i: Id, vis: Tristate, x: Tristate)
    requires s.cfg == t.cfg && s.cfg.At(i).Symbol? && s.cfg.At(i).choice.None? && vis != 0 && t.user.Tri(i) == Some(x)
    requires var item := s.cfg.At(i);
             && s.ExprVal(item.rev).Some? && t.ExprVal(item.rev) == s.ExprVal(item.rev)
             && s.ExprVal(item.weak).Some? && t.ExprVal(item.weak) == s.ExprVal(item.weak)
             && s.TypeNow(i).Some? && t.TypeNow(i) == s.TypeNow(i)
    requires vis == 1 ==> s.TypeNow(i) == Some(TRISTATE)
    ensures var item := s.cfg.At(i);
            var stuck := vis == 1 && s.ExprVal(item.rev) == Some(1) && s.ExprVal(item.weak) == Some(2);
            && s.SymAssignable(i, vis).Some? && t.PlainTri(i, vis).Some?
            && (!stuck ==> (x in s.SymAssignable(i, vis).value <==> t.PlainTri(i, vis) == Some(x)))
            && (stuck ==> s.SymAssignable(i, vis) == Some([1]) && t.PlainTri(i, vis) == Some(2))
  {
  }

  lemma AssignedOk(cfg: Config, u: User, i: Id, x: Tristate)
    requires UserOk(cfg, u) && cfg.At(i).Symbol? && ValueOk(cfg, cfg.At(i), GivenTri(x)) && cfg.At(i).choice.None?
    ensures var v := UserAfter(cfg, u, SetSym(i, GivenTri(x)));
            && UserOk(cfg, v) && v.Tri(i) == Some(x) && v.picked == u.picked && v.Str(i) == u.Str(i)
            && forall j :: j != i ==> v.Tri(j) == u.Tri(j) && v.Str(j) == u.Str(j)
  {
    if i in u.values { assert ValueOk(cfg, cfg.At(i), u.values[i]); }
  }

  lemma AgreeButSymbol(cfg: Config, u: User, v: User, rank: Ranking, i: Id)
    requires Ranked(cfg, rank) && cfg.At(i).Symbol? && v.picked == u.picked && v.Str(i) == u.Str(i)
    requires forall j :: j != i ==> v.Tri(j) == u.Tri(j) && v.Str(j) == u.Str(j)
    ensures AgreeBelow(cfg, u, v, rank, rank(Tri(i)))
    ensures forall g :: g in Reads(cfg, Tri(i)) && cfg.At(g.id).Choice? ==> u.Tri(g.id) == v.Tri(g.id)
  {
  }

  /** What the value of a symbol and its assignable values depend on, before and after an assignment to it. */
  lemma SameCircumstances(s: Scope, t: Scope, i: Id)
    requires Real(s.cfg, Tri(i)) && Covers(s, t, Reads(s.cfg, Tri(i))) && Knows(s, Reads(s.cfg, Tri(i)))
    ensures var item := s.cfg.At(i);
            && s.GetTri(Vis(i)).Some? && t.GetTri(Vis(i)) == s.GetTri(Vis(i))
            && s.ExprVal(item.rev).Some? && t.ExprVal(item.rev) == s.ExprVal(item.rev)
            && s.ExprVal(item.weak).Some? && t.ExprVal(item.weak) == s.ExprVal(item.weak)
            && s.TypeNow(i).Some? && t.TypeNow(i) == s.TypeNow(i)
  {
    var item, all := s.cfg.At(i), Reads(s.cfg, Tri(i));
    assert Vis(i) in all;
    KnowsLess(s, all, ExprReads(s.cfg, item.rev));
    KnowsLess(s, all, ExprReads(s.cfg, item.weak));
    KnowsLess(s, all, TypeReads(s.cfg, i));
    ExprKnown(s, item.rev);
    ExprKnown(s, item.weak);
    TypeKnown(s, i);
    CoversLess(s, t, all, ExprReads(s.cfg, item.rev));
    CoversLess(s, t, all, ExprReads(s.cfg, item.weak));
    CoversLess(s, t, all, TypeReads(s.cfg, i));
    ExprTransfers(s, t, item.rev);
    ExprTransfers(s, t, item.weak);
    TypeTransfers(s, t, i);
  }

  /** A symbol that is visible as m is not a bool. */
  lemma MiddleVisibility(s: Scope, i: Id)
    requires s.EvalVis(i) == Some(1)
    ensures s.TypeNow(i) == Some(TRISTATE)
  {
  }

  lemma OfferedNow(cfg: Config, u: User, rank: Ranking, i: Id)
    requires WellFormed(cfg) && UserOk(cfg, u) && Ranked(cfg, rank) && Real(cfg, Asn(i))
    ensures var s := Values(cfg, u, rank);
            && s.EvalAsn(i).Some? && Offered(s, i) == s.EvalAsn(i)
            && s.EvalVis(i).Some? && s.GetTri(Vis(i)) == s.EvalVis(i)
  {
    var s := Values(cfg, u, rank);
    FullJustified(cfg, u, rank);
    FullHolds(cfg, u, rank, Asn(i));
    FullHolds(cfg, u, rank, Vis(i));
    assert Rederived(cfg, u, s.env, Asn(i)) && Rederived(cfg, u, s.env, Vis(i));
  }

  lemma ValueNow(cfg: Config, u: User, rank: Ranking, i: Id)
    requires WellFormed(cfg) && UserOk(cfg, u) && Ranked(cfg, rank) && Real(cfg, Tri(i))
    ensures var s := Values(cfg, u, rank); s.EvalTri(i).Some? && s.GetTri(Tri(i)) == s.EvalTri(i)
  {
    var s := Values(cfg, u, rank);
    FullJustified(cfg, u, rank);
    FullHolds(cfg, u, rank, Tri(i));
    assert Rederived(cfg, u, s.env, Tri(i));
  }

  /** The values on both sides of an assignment. */
  lemma Assigned(cfg: Config, u: User, rank: Ranking, i: Id, x: Tristate)
    requires WellFormed(cfg) && UserOk(cfg, u) && Ranked(cfg, rank)
    requires Real(cfg, Tri(i)) && cfg.At(i).choice.None? && ValueOk(cfg, cfg.At(i), GivenTri(x))
    ensures var v := UserAfter(cfg, u, SetSym(i, GivenTri(x)));
            var s, t := Values(cfg, u, rank), Values(cfg, v, rank);
            && UserOk(cfg, v) && v.Tri(i) == Some(x)
            && Covers(s, t, Reads(cfg, Tri(i))) && Knows(s, Reads(cfg, Tri(i)))
  {
    var v := UserAfter(cfg, u, SetSym(i, GivenTri(x)));
    AssignedOk(cfg, u, i, x);
    AgreeButSymbol(cfg, u, v, rank, i);
    ReadsUnaffected(cfg, u, v, rank, Tri(i));
  }

  /**
   * For a visible symbol, the assignable values are exactly those that it has after they have been assigned to it,
   * unless it is stuck: then m is offered and the value stays y.
   */
  lemma SymbolRespected(cfg: Config, u: User, rank: Ranking, i: Id, x: Tristate)
    requires WellFormed(cfg) && UserOk(cfg, u) && Ranked(cfg, rank)
    requires Real(cfg, Tri(i)) && cfg.At(i).choice.None? && ValueOk(cfg, cfg.At(i), GivenTri(x))
    ensures var s := Values(cfg, u, rank);
            var t := Values(cfg, UserAfter(cfg, u, SetSym(i, GivenTri(x))), rank);
            && s.GetTri(Vis(i)).Some? && t.GetTri(Tri(i)).Some? && Offered(s, i).Some?
            && (s.GetTri(Vis(i)) == Some(0) ==> Offered(s, i) == Some([]))
            && (s.GetTri(Vis(i)) != Some(0) && !Stuck(s, i) ==>
                  (x in Offered(s, i).value <==> t.GetTri(Tri(i)) == Some(x)))
            && (Stuck(s, i) ==> Offered(s, i) == Some([1]) && t.GetTri(Tri(i)) == Some(2))
  {
    var v := UserAfter(cfg, u, SetSym(i, GivenTri(x)));
    var s, t := Values(cfg, u, rank), Values(cfg, v, rank);
    Assigned(cfg, u, rank, i, x);
    SameCircumstances(s, t, i);
    OfferedNow(cfg, u, rank, i);
    ValueNow(cfg, v, rank, i);
    var vis := s.GetTri(Vis(i)).value;
    if vis != 0 {
      if vis == 1 { MiddleVisibility(s, i); }
      Weighs(s, t, i, vis, x);
    }
  }

  // ---- Members of a choice ----

  lemma MemberAssignedOk(cfg: Config, u: User, c: Id, i: Id, x: Tristate)
    requires UserOk(cfg, u) && ProperChoice(cfg, c) && i in cfg.items[c].syms && ValueOk(cfg, cfg.At(i), GivenTri(x))
    ensures var v := UserAfter(cfg, u, SetSym(i, GivenTri(x)));
            && UserOk(cfg, v) && v.Tri(i) == Some(x) && (x == 2 ==> v.Pick(c) == Some(i)) && v.Str(i) == u.Str(i)
            && (forall j :: j != i ==> v.Tri(j) == u.Tri(j) && v.Str(j) == u.Str(j))
            && (forall d :: d != c ==> v.Pick(d) == u.Pick(d))
  {
    if i in u.values { assert ValueOk(cfg, cfg.At(i), u.values[i]); }
  }

  lemma AgreeButMember(cfg: Config, u: User, v: User, rank: Ranking, c: Id, i: Id)
    requires Ranked(cfg, rank) && ProperChoice(cfg, c) && i in cfg.items[c].syms && v.Str(i) == u.Str(i)
    requires forall j :: j != i ==> v.Tri(j) == u.Tri(j) && v.Str(j) == u.Str(j)
    requires forall d :: d != c ==> v.Pick(d) == u.Pick(d)
    ensures AgreeBelow(cfg, u, v, rank, rank(Sel(c)))
    ensures forall g :: g in Reads(cfg, Sel(c)) && cfg.At(g.id).Choice? ==> u.Tri(g.id) == v.Tri(g.id)
  {
    assert Sel(c) in Reads(cfg, Tri(i));
  }

  /** The choice stays in its mode, and the member as visible as it is. */
  lemma MemberStays(cfg: Config, u: User, rank: Ranking, c: Id, i: Id, x: Tristate)
    requires WellFormed(cfg) && UserOk(cfg, u) && Ranked(cfg, rank) && ProperChoice(cfg, c) && i in cfg.items[c].syms
    requires Values(cfg, u, rank).Mode(c).Some? && ValueOk(cfg, cfg.At(i), GivenTri(x))
    ensures var v := UserAfter(cfg, u, SetSym(i, GivenTri(x)));
            var s, t := Values(cfg, u, rank), Values(cfg, v, rank);
            && UserOk(cfg, v) && v.Tri(i) == Some(x) && (x == 2 ==> v.Pick(c) == Some(i))
            && t.Mode(c) == s.Mode(c) && t.GetTri(Vis(i)) == s.GetTri(Vis(i))
  {
    var v := UserAfter(cfg, u, SetSym(i, GivenTri(x)));
    var s, t := Values(cfg, u, rank), Values(cfg, v, rank);
    MemberAssignedOk(cfg, u, c, i, x);
    AgreeButMember(cfg, u, v, rank, c, i);
    ReadsUnaffected(cfg, u, v, rank, Sel(c));
    assert Vis(i) in Reads(cfg, Sel(c)) && Vis(i) in s.env;
    CoversLess(s, t, Reads(cfg, Sel(c)), ModeReads(cfg, c));
    ModeTransfers(s, t, c);
  }

  lemma MemberOffered(s: Scope, c: Id, i: Id)
    requires ProperChoice(s.cfg, c) && i in s.cfg.items[c].syms && s.Mode(c) == Some(2)
    requires s.EvalAsn(i).Some? && s.EvalVis(i).Some? && s.GetTri(Vis(i)) == s.EvalVis(i) != Some(0)
    ensures s.EvalAsn(i) == Some([2])
  {
    MemberVisibility(s, c, i);
  }

  /** A visible member of a choice in y mode can be set to y and to nothing else; the others are then n. */
  lemma MemberRespected(cfg: Config, u: User, rank: Ranking, c: Id, i: Id)
    requires WellFormed(cfg) && UserOk(cfg, u) && Ranked(cfg, rank) && ProperChoice(cfg, c) && i in cfg.items[c].syms
    requires var s := Values(cfg, u, rank); s.Mode(c) == Some(2) && s.GetTri(Vis(i)) != Some(0)
    ensures Offered(Values(cfg, u, rank), i) == Some([2])
    ensures ExactlyOne(Values(cfg, UserAfter(cfg, u, SetSym(i, GivenTri(2))), rank), c, i)
  {
    OfferedNow(cfg, u, rank, i);
    MemberOffered(Values(cfg, u, rank), c, i);
    MemberStays(cfg, u, rank, c, i, 2);
    ChoiceExclusiveFromScratch(cfg, UserAfter(cfg, u, SetSym(i, GivenTri(2))), rank, c);
  }

  /** The assignable values of a symbol that is visible as m. */
  function MiddleValues(rev: Tristate, weak: Tristate): seq<Tristate> {
    if rev != 0 then [rev] else if weak == 2 then [0, 2] else [0, 1]
  }

  /** A member that is visible in m mode is a tristate symbol, visible as m. */
  lemma MiddleMember(s: Scope, c: Id, i: Id)
    requires ProperChoice(s.cfg, c) && i in s.cfg.items[c].syms && s.cfg.items[c].orig.Logical()
    requires s.Mode(c) == Some(1) && s.EvalVis(i).Some? && s.EvalVis(i) != Some(0)
    ensures s.EvalVis(i) == Some(1) && s.cfg.items[i].orig == TRISTATE
  {
    PromptsBounded(s, s.cfg.items[i].prompts, c);
  }

  /**
   * A visible member of a choice in m mode can be set to n and to m, and y means m; what it is offered follows from
   * the selects and implies of the symbol instead.
   */
  lemma MiddleMemberAssigned(cfg: Config, u: User, rank: Ranking, c: Id, i: Id, x: Tristate)
    requires WellFormed(cfg) && UserOk(cfg, u) && Ranked(cfg, rank) && ProperChoice(cfg, c) && i in cfg.items[c].syms
    requires cfg.items[c].orig.Logical()
    requires var s := Values(cfg, u, rank); s.Mode(c) == Some(1) && s.GetTri(Vis(i)) != Some(0)
    ensures var s := Values(cfg, u, rank);
            var t := Values(cfg, UserAfter(cfg, u, SetSym(i, GivenTri(x))), rank);
            && t.Mode(c) == Some(1) && t.GetTri(Tri(i)) == Some(if x == 0 then 0 else 1)
            && s.ExprVal(cfg.items[i].rev).Some? && s.ExprVal(cfg.items[i].weak).Some?
            && Offered(s, i) == Some(MiddleValues(s.ExprVal(cfg.items[i].rev).value, s.ExprVal(cfg.items[i].weak).value))
  {
    var s := Values(cfg, u, rank);
    OfferedNow(cfg, u, rank, i);
    MiddleMember(s, c, i);
    MemberStays(cfg, u, rank, c, i, x);
    ValueNow(cfg, UserAfter(cfg, u, SetSym(i, GivenTri(x))), rank, i);
    DepsKnown(cfg, u, rank, i);
  }

  lemma DepsKnown(cfg: Config, u: User, rank: Ranking, i: Id)
    requires WellFormed(cfg) && UserOk(cfg, u) && Ranked(cfg, rank) && Real(cfg, Tri(i))
    ensures var s := Values(cfg, u, rank); s.ExprVal(cfg.items[i].rev).Some? && s.ExprVal(cfg.items[i].weak).Some?
  {
    forall g | g in Reads(cfg, Tri(i)) ensures g in Full(cfg, u, rank) && Shaped(g, Full(cfg, u, rank)[g]) {
      ReadsReal(cfg, Tri(i), g);
      FullHolds(cfg, u, rank, g);
    }
    SameCircumstances(Values(cfg, u, rank), Values(cfg, u, rank), i);
  }

  /** The value `x` is offered exactly if the symbol has it after an assignment. */
  ghost predicate Respects(cfg: Config, u: User, rank: Ranking, i: Id, x: Tristate)
    requires Ranked(cfg, rank)
  {
    var s := Values(cfg, u, rank);
    var t := Values(cfg, UserAfter(cfg, u, SetSym(i, GivenTri(x))), rank);
    Matches(Offered(s, i), t.GetTri(Tri(i)), x)
  }

  predicate Matches(offered: Option<seq<Tristate>>, now: Option<Tristate>, x: Tristate) {
    offered.Some? && (x in offered.value <==> now == Some(x))
  }

  /** What is offered, against n and m. */
  predicate Fair(rev: Tristate, weak: Tristate, x: Tristate) { x in MiddleValues(rev, weak) <==> x != 2 }

  lemma AllFair(rev: Tristate, weak: Tristate)
    ensures (forall x :: Fair(rev, weak, x)) <==> rev == 0 && weak != 2
  {
    assert rev != 0 || weak == 2 ==> !Fair(rev, weak, 0) || !Fair(rev, weak, 1);
  }

  lemma MatchesFairly(rev: Tristate, weak: Tristate, x: Tristate)
    ensures Matches(Some(MiddleValues(rev, weak)), Some(if x == 0 then 0 else 1), x) <==> Fair(rev, weak, x)
  {
  }

  lemma MiddleMemberFair(cfg: Config, u: User, rank: Ranking, c: Id, i: Id, rev: Tristate, weak: Tristate, x: Tristate)
    requires WellFormed(cfg) && UserOk(cfg, u) && Ranked(cfg, rank) && ProperChoice(cfg, c) && i in cfg.items[c].syms
    requires cfg.items[c].orig.Logical()
    requires var s := Values(cfg, u, rank); s.Mode(c) == Some(1) && s.GetTri(Vis(i)) != Some(0)
    requires var s := Values(cfg, u, rank);
             s.ExprVal(cfg.items[i].rev) == Some(rev) && s.ExprVal(cfg.items[i].weak) == Some(weak)
    ensures Respects(cfg, u, rank, i, x) <==> Fair(rev, weak, x)
  {
    MiddleMemberAssigned(cfg, u, rank, c, i, x);
    MatchesFairly(rev, weak, x);
  }

  /** In m mode, what is offered to a visible member is what it can be, if and only if it is not selected, nor implied to y. */
  lemma MiddleMemberRespected(cfg: Config, u: User, rank: Ranking, c: Id, i: Id)
    requires WellFormed(cfg) && UserOk(cfg, u) && Ranked(cfg, rank) && ProperChoice(cfg, c) && i in cfg.items[c].syms
    requires cfg.items[c].orig.Logical()
    requires var s := Values(cfg, u, rank); s.Mode(c) == Some(1) && s.GetTri(Vis(i)) != Some(0)
    ensures (forall x :: Respects(cfg, u, rank, i, x)) <==>
            var s := Values(cfg, u, rank);
            s.ExprVal(cfg.items[i].rev) == Some(0) && s.ExprVal(cfg.items[i].weak) != Some(2)
  {
    DepsKnown(cfg, u, rank, i);
    var s := Values(cfg, u, rank);
    var rev, weak := s.ExprVal(cfg.items[i].rev).value, s.ExprVal(cfg.items[i].weak).value;
    forall x ensures Respects(cfg, u, rank, i, x) <==> Fair(rev, weak, x) {
      MiddleMemberFair(cfg, u, rank, c, i, rev, weak, x);
    }
    AllFair(rev, weak);
    assert (forall x :: Respects(cfg, u, rank, i, x)) ==> forall x :: Fair(rev, weak, x) by {
      if forall x :: Respects(cfg, u, rank, i, x) {
        forall x ensures Fair(rev, weak, x) { assert Respects(cfg, u, rank, i, x); }
      }
    }
  }

  // ---- Modes of choices ----

  lemma ModeAssignedOk(cfg: Config, u: User, c: Id, x: Tristate)
    requires UserOk(cfg, u) && cfg.At(c).Choice? && ValueOk(cfg, cfg.At(c), GivenTri(x))
    ensures var v := UserAfter(cfg, u, SetChoice(c, GivenTri(x)));
            && UserOk(cfg, v) && v.Tri(c) == Some(x) && v.picked == u.picked && v.Str(c) == u.Str(c)
            && forall j :: j != c ==> v.Tri(j) == u.Tri(j) && v.Str(j) == u.Str(j)
  {
    if c in u.values { assert ValueOk(cfg, cfg.At(c), u.values[c]); }
  }

  lemma VisibilityFirst(cfg: Config, rank: Ranking, c: Id, g: Facet)
    requires Ranked(cfg, rank) && cfg.At(c).Choice? && Real(cfg, g) && g.id == c
    ensures rank(Vis(c)) <= rank(g)
  {
    assert Vis(c) in SelReads(cfg, c) && Vis(c) in AsnReads(cfg, c);
    assert Vis(c) in Reads(cfg, Sel(c)) && Vis(c) in Reads(cfg, Asn(c));
  }

  /** What comes no later than the visibility of a choice does not look at its mode. */
  lemma ModeNotRead(cfg: Config, rank: Ranking, c: Id, f: Facet, g: Facet)
    requires WellFormed(cfg) && Ranked(cfg, rank) && cfg.At(c).Choice? && Real(cfg, f) && rank(f) <= rank(Vis(c))
    requires g in Reads(cfg, f)
    ensures g.id != c
  {
    ReadsReal(cfg, f, g);
    if g.id == c { VisibilityFirst(cfg, rank, c, g); }
  }

  lemma AgreeButMode(cfg: Config, u: User, v: User, rank: Ranking, c: Id)
    requires WellFormed(cfg) && Ranked(cfg, rank) && cfg.At(c).Choice? && v.picked == u.picked && v.Str(c) == u.Str(c)
    requires forall j :: j != c ==> v.Tri(j) == u.Tri(j) && v.Str(j) == u.Str(j)
    ensures AgreeBelow(cfg, u, v, rank, rank(Vis(c)) + 1)
  {
    forall f | Real(cfg, f) && rank(f) < rank(Vis(c)) + 1 ensures Agree(cfg, u, v, f) {
      forall g | g in Reads(cfg, f) && cfg.At(g.id).Choice? ensures u.Tri(g.id) == v.Tri(g.id) {
        ModeNotRead(cfg, rank, c, f, g);
      }
    }
  }

  /** The visibility and the type of the choice stay the same. */
  lemma ModeCircumstances(cfg: Config, u: User, v: User, rank: Ranking, c: Id)
    requires WellFormed(cfg) && UserOk(cfg, u) && UserOk(cfg, v) && Ranked(cfg, rank)
    requires c < |cfg.items| && cfg.At(c).Choice? && AgreeBelow(cfg, u, v, rank, rank(Vis(c)) + 1)
    ensures var s, t := Values(cfg, u, rank), Values(cfg, v, rank);
            && s.GetTri(Vis(c)).Some? && t.GetTri(Vis(c)) == s.GetTri(Vis(c))
            && Covers(s, t, TypeReads(cfg, c)) && Knows(s, TypeReads(cfg, c))
  {
    FullHolds(cfg, u, rank, Vis(c));
    Unaffected(cfg, u, v, rank, rank(Vis(c)) + 1, Vis(c));
    forall g | g in TypeReads(cfg, c)
      ensures g in Full(cfg, u, rank) && Shaped(g, Full(cfg, u, rank)[g])
      ensures g in Full(cfg, v, rank) && Full(cfg, v, rank)[g] == Full(cfg, u, rank)[g]
    {
      assert g in Reads(cfg, Vis(c));
      ReadsReal(cfg, Vis(c), g);
      FullHolds(cfg, u, rank, g);
      Unaffected(cfg, u, v, rank, rank(Vis(c)) + 1, g);
    }
  }

  lemma ModeWeighs(s: Scope, t: Scope, c: Id, vis: Tristate, x: Tristate)
    requires s.cfg == t.cfg && s.cfg.At(c).Choice? && ValueOk(s.cfg, s.cfg.At(c), GivenTri(x)) && vis != 0
    requires t.user.Tri(c) == Some(x) && t.GetTri(Vis(c)) == Some(vis)
    requires s.TypeNow(c).Some? && t.TypeNow(c) == s.TypeNow(c)
    requires vis == 1 ==> s.TypeNow(c) == Some(TRISTATE)
    ensures s.ChoiceAssignable(c, vis).Some? && t.Mode(c).Some?
    ensures x in s.ChoiceAssignable(c, vis).value <==> t.Mode(c) == Some(x)
  {
  }

  /** For a visible choice, the assignable modes are exactly those that it has after they have been assigned to it. */
  lemma ModeRespected(cfg: Config, u: User, rank: Ranking, c: Id, x: Tristate)
    requires WellFormed(cfg) && UserOk(cfg, u) && Ranked(cfg, rank)
    requires c < |cfg.items| && cfg.At(c).Choice? && ValueOk(cfg, cfg.At(c), GivenTri(x))
    ensures var s := Values(cfg, u, rank);
            var t := Values(cfg, UserAfter(cfg, u, SetChoice(c, GivenTri(x))), rank);
            && s.GetTri(Vis(c)).Some? && Offered(s, c).Some?
            && (s.GetTri(Vis(c)) == Some(0) ==> Offered(s, c) == Some([]))
            && (s.GetTri(Vis(c)) != Some(0) ==> t.Mode(c).Some? && (x in Offered(s, c).value <==> t.Mode(c) == Some(x)))
  {
    var v := UserAfter(cfg, u, SetChoice(c, GivenTri(x)));
    var s, t := Values(cfg, u, rank), Values(cfg, v, rank);
    ModeAssignedOk(cfg, u, c, x);
    AgreeButMode(cfg, u, v, rank, c);
    ModeCircumstances(cfg, u, v, rank, c);
    TypeKnown(s, c);
    TypeTransfers(s, t, c);
    OfferedNow(cfg, u, rank, c);
    var vis := s.GetTri(Vis(c)).value;
    if vis != 0 {
      if vis == 1 { MiddleVisibility(s, c); }
      ModeWeighs(s, t, c, vis, x);
    }
  }
}
