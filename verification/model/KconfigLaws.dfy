/** What the values of a configuration satisfy, whatever the user assigns. */
module KconfigLaws {
  import opened Basics
  import opened KconfigModel
  import opened KconfigEval
  import opened KconfigReads
  import opened KconfigScratch
  import opened KconfigCache
  import opened KconfigChoice
  import opened KconfigMinConfig
  import opened KconfigAssignable

  // ---- Ranges ----

  lemma ClampHolds(s: Scope, t: Type, low: int, high: int, val: string)
    requires ReadsBack(s.cfg) && t.Numeric() && low <= high
    ensures low <= s.cfg.Numeral(s.Clamp(t, Some((low, high)), val), t) <= high
  {
    assert s.cfg.num(s.cfg.show(low, t == HEX), t.Base()) == Some(low);
    assert s.cfg.num(s.cfg.show(high, t == HEX), t.Base()) == Some(high);
  }

  /** The number that the value stands for is within the range, if that is active and not empty. */
  predicate WithinRange(s: Scope, item: Item, val: string)
    requires item.Symbol?
  {
    s.ActiveRange(item).Some? &&
    match s.ActiveRange(item).value
    case None => true
    case Some((low, high)) => low <= high ==> low <= s.cfg.Numeral(val, item.orig) <= high
  }

  lemma RangeEval(s: Scope, i: Id, vis: Tristate)
    requires ReadsBack(s.cfg) && s.cfg.At(i).Symbol? && s.cfg.At(i).orig.Numeric() && s.NumericStr(i, vis).Some?
    ensures WithinRange(s, s.cfg.At(i), s.NumericStr(i, vis).value)
  {
    var item := s.cfg.At(i);
    var range := s.ActiveRange(item).value;
    if range.Some? && range.value.0 <= range.value.1 && s.DefaultStr(item).Some? {
      ClampHolds(s, item.orig, range.value.0, range.value.1, s.DefaultStr(item).value);
    }
  }

  lemma TextNow(cfg: Config, u: User, rank: Ranking, i: Id)
    requires WellFormed(cfg) && UserOk(cfg, u) && Ranked(cfg, rank) && Real(cfg, Str(i))
    ensures var s := Values(cfg, u, rank); s.EvalStr(i).Some? && s.GetStr(Str(i)) == s.EvalStr(i)
  {
    var s := Values(cfg, u, rank);
    FullJustified(cfg, u, rank);
    FullHolds(cfg, u, rank, Str(i));
    assert Rederived(cfg, u, s.env, Str(i));
  }

  /** An int or hex symbol stays within its active range, whether its value comes from the user or from a default. */
  lemma RangeHolds(cfg: Config, u: User, rank: Ranking, i: Id)
    requires WellFormed(cfg) && UserOk(cfg, u) && Ranked(cfg, rank) && ReadsBack(cfg)
    requires Real(cfg, Str(i)) && cfg.At(i).orig.Numeric()
    ensures var s := Values(cfg, u, rank);
            s.GetStr(Str(i)).Some? && WithinRange(s, cfg.At(i), s.GetStr(Str(i)).value)
  {
    var s := Values(cfg, u, rank);
    TextNow(cfg, u, rank, i);
    RangeEval(s, i, s.GetTri(Vis(i)).value);
  }

  // ---- Assignments to invisible symbols ----

  lemma GivenOk(cfg: Config, u: User, i: Id, x: Given)
    requires UserOk(cfg, u) && cfg.At(i).Symbol? && ValueOk(cfg, cfg.At(i), x)
    requires cfg.At(i).choice.None? || x != GivenTri(2)
    ensures var v := UserAfter(cfg, u, SetSym(i, x));
            && UserOk(cfg, v) && v.picked == u.picked && (forall j :: j != i ==> v.Tri(j) == u.Tri(j) && v.Str(j) == u.Str(j))
  {
  }

  lemma InvisibleJustified(cfg: Config, u: User, v: User, rank: Ranking, i: Id)
    requires WellFormed(cfg) && UserOk(cfg, u) && Ranked(cfg, rank) && Real(cfg, Vis(i)) && cfg.At(i).Symbol?
    requires Values(cfg, u, rank).GetTri(Vis(i)) == Some(0)
    requires v.picked == u.picked && forall j :: j != i ==> v.Tri(j) == u.Tri(j) && v.Str(j) == u.Str(j)
    ensures Justified(cfg, v, Full(cfg, u, rank))
  {
    var full := Full(cfg, u, rank);
    var s, t := Scope(cfg, u, full), Scope(cfg, v, full);
    FullJustified(cfg, u, rank);
    NoModeChanged(cfg, u, v, i);
    forall f ensures Rederived(cfg, v, full, f) {
      if f in full {
        assert Rederived(cfg, u, full, f);
        InvisibleStep(s, t, i, f);
      }
    }
  }

  lemma NoModeChanged(cfg: Config, u: User, v: User, i: Id)
    requires cfg.At(i).Symbol? && forall j :: j != i ==> v.Tri(j) == u.Tri(j)
    ensures forall c :: cfg.At(c).Choice? ==> u.Tri(c) == v.Tri(c)
  {
  }

  lemma InvisibleStep(s: Scope, t: Scope, i: Id, f: Facet)
    requires s.cfg == t.cfg && s.env == t.env && UserOk(s.cfg, s.user) && s.Eval(f).Some?
    requires s.cfg.At(i).Symbol? && s.GetTri(Vis(i)) == Some(0)
    requires t.user.picked == s.user.picked && forall c :: s.cfg.At(c).Choice? ==> s.user.Tri(c) == t.user.Tri(c)
    requires f.id != i ==> s.user.Tri(f.id) == t.user.Tri(f.id) && s.user.Str(f.id) == t.user.Str(f.id)
    ensures t.Eval(f) == s.Eval(f)
  {
    if f == Tri(i) || f == Str(i) { InvisibleValue(s, t, f); } else { EvalTransfers(s, t, f); }
  }

  /**
   * Assigning to an invisible symbol of any type changes no value of any symbol or choice. For a symbol in a choice
   * the value y is excepted, which also makes it the selection of the user.
   */
  lemma InvisibleIgnored(cfg: Config, u: User, rank: Ranking, i: Id, x: Given, f: Facet)
    requires WellFormed(cfg) && UserOk(cfg, u) && Ranked(cfg, rank) && Real(cfg, Vis(i)) && cfg.At(i).Symbol?
    requires cfg.At(i).choice.None? || x != GivenTri(2)
    requires Values(cfg, u, rank).GetTri(Vis(i)) == Some(0) && Real(cfg, f)
    ensures Scratch(cfg, UserAfter(cfg, u, SetSym(i, x)), rank, f) == Scratch(cfg, u, rank, f)
  {
    if ValueOk(cfg, cfg.At(i), x) {
      var v := UserAfter(cfg, u, SetSym(i, x));
      GivenOk(cfg, u, i, x);
      InvisibleJustified(cfg, u, v, rank, i);
      FullHolds(cfg, u, rank, f);
      JustifiedIsScratch(cfg, v, rank, Full(cfg, u, rank), f);
    }
  }
}
