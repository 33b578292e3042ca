/** Which symbols a minimal configuration names: those whose user value cannot be left out. */
module KconfigMinimal {
  import opened Basics
  import opened KconfigModel
  import opened KconfigEval
  import opened KconfigReads
  import opened KconfigScratch
  import opened KconfigCache
  import opened KconfigChoice
  import opened KconfigAssignable
  import opened KconfigMinConfig
  import opened KconfigValues

  /** The user value of a symbol is taken back. */
  lemma UnsetOk(cfg: Config, u: User, i: Id)
    requires UserOk(cfg, u) && cfg.At(i).Symbol?
    ensures var v := UserAfter(cfg, u, UnsetSym(i));
            && UserOk(cfg, v) && v.picked == u.picked && v.Tri(i) == None && v.Str(i) == None
            && (if cfg.At(i).orig.Logical() then u.Str(i) == None else u.Tri(i) == None)
            && forall j :: j != i ==> v.Tri(j) == u.Tri(j) && v.Str(j) == u.Str(j)
  {
    if i in u.values { assert ValueOk(cfg, cfg.At(i), u.values[i]); }
  }

  lemma AgreeButText(cfg: Config, u: User, v: User, rank: Ranking, i: Id)
    requires Ranked(cfg, rank) && cfg.At(i).Symbol? && v.picked == u.picked && v.Tri(i) == u.Tri(i)
    requires forall j :: j != i ==> v.Tri(j) == u.Tri(j) && v.Str(j) == u.Str(j)
    ensures AgreeBelow(cfg, u, v, rank, rank(Str(i)))
    ensures forall g :: g in Reads(cfg, Str(i)) && cfg.At(g.id).Choice? ==> u.Tri(g.id) == v.Tri(g.id)
  {
  }

  /** Both sides, with what they share. */
  ghost predicate Sides(s: Scope, w: Scope, f: Facet) {
    Complete(s) && Complete(w) && s.cfg == w.cfg && Covers(s, w, Reads(s.cfg, f))
  }

  lemma UnsetSides(cfg: Config, u: User, rank: Ranking, i: Id, f: Facet)
    requires WellFormed(cfg) && UserOk(cfg, u) && Ranked(cfg, rank) && Real(cfg, f) && cfg.At(i).Symbol?
    requires f == if cfg.At(i).orig.Logical() then Tri(i) else Str(i)
    ensures Sides(Values(cfg, u, rank), Values(cfg, UserAfter(cfg, u, UnsetSym(i)), rank), f)
  {
    var v := UserAfter(cfg, u, UnsetSym(i));
    UnsetOk(cfg, u, i);
    if f.Tri? { AgreeButSymbol(cfg, u, v, rank, i); } else { AgreeButText(cfg, u, v, rank, i); }
    ScratchComplete(cfg, u, rank);
    ScratchComplete(cfg, v, rank);
    ReadsUnaffected(cfg, u, v, rank, f);
  }

  lemma SharedValue(s: Scope, w: Scope, f: Facet, e: Expr)
    requires Sides(s, w, f) && ExprOk(s.cfg, e) && ExprReads(s.cfg, e) <= Reads(s.cfg, f)
    ensures ValOf(w, e) == ValOf(s, e)
  {
    ExprValued(s, e);
    ExprValued(w, e);
    CoversLess(s, w, Reads(s.cfg, f), ExprReads(s.cfg, e));
    ExprTransfers(s, w, e);
  }

  // ---- Bools and tristates ----

  lemma DefaultReadsWithin(cfg: Config, i: Id, k: nat)
    requires i < |cfg.items| && cfg.items[i].Symbol? && k < |cfg.items[i].defaults|
    ensures ExprReads(cfg, cfg.items[i].defaults[k].cond) <= TriReads(cfg, i)
    ensures ExprReads(cfg, cfg.items[i].defaults[k].body) <= TriReads(cfg, i)
  {
    assert cfg.items[i].defaults[k] in cfg.items[i].defaults;
  }

  lemma SharedDefaults(s: Scope, w: Scope, i: Id, k: nat)
    requires Real(s.cfg, Tri(i)) && Sides(s, w, Tri(i)) && ActiveAt(s, s.cfg.items[i].defaults, k)
    ensures ActiveAt(w, s.cfg.items[i].defaults, k)
    ensures DefaultOf(w, s.cfg.items[i].defaults, k) == DefaultOf(s, s.cfg.items[i].defaults, k)
  {
    var defaults := s.cfg.items[i].defaults;
    assert WellFormedItem(s.cfg, i);
    forall j | 0 <= j < |defaults|
      ensures ValOf(w, defaults[j].cond) == ValOf(s, defaults[j].cond)
      ensures ValOf(w, defaults[j].body) == ValOf(s, defaults[j].body)
    {
      assert defaults[j] in defaults;
      DefaultReadsWithin(s.cfg, i, j);
      SharedValue(s, w, Tri(i), defaults[j].cond);
      SharedValue(s, w, Tri(i), defaults[j].body);
    }
  }

  lemma SharedRest(s: Scope, w: Scope, i: Id)
    requires Real(s.cfg, Tri(i)) && Sides(s, w, Tri(i))
    ensures var item := s.cfg.items[i];
            && ValOf(w, item.rev) == ValOf(s, item.rev) && ValOf(w, item.weak) == ValOf(s, item.weak)
            && ValOf(w, item.direct) == ValOf(s, item.direct)
            && CurrentType(w, i) == CurrentType(s, i) && VisOf(w, i) == VisOf(s, i)
  {
    var item := s.cfg.items[i];
    assert WellFormedItem(s.cfg, i);
    SharedValue(s, w, Tri(i), item.rev);
    SharedValue(s, w, Tri(i), item.weak);
    SharedValue(s, w, Tri(i), item.direct);
    TypeValued(s, i);
    TypeValued(w, i);
    CoversLess(s, w, TriReads(s.cfg, i), TypeReads(s.cfg, i));
    TypeTransfers(s, w, i);
    assert Vis(i) in TriReads(s.cfg, i) && Real(s.cfg, Vis(i));
  }

  /** A visible symbol has dependencies that are not n. */
  lemma VisibleDepends(s: Scope, i: Id)
    requires Complete(s) && Propagated(s.cfg) && Real(s.cfg, Tri(i)) && s.cfg.items[i].choice.None? && VisOf(s, i) != 0
    ensures ValOf(s, s.cfg.items[i].direct) != 0
  {
    var item := s.cfg.items[i];
    assert Real(s.cfg, Vis(i)) && Rederived(s.cfg, s.user, s.env, Vis(i)) && WellFormedItem(s.cfg, i);
    ExprValued(s, item.direct);
    PromptActive(s, item.prompts);
    var e :| e in item.prompts && s.ExprVal(e).Some? && s.ExprVal(e).value != 0;
    assert Implies(s, e, item.direct);
  }

  /** `_str_default` of a bool or tristate. */
  lemma TriDefaultValued(s: Scope, i: Id, k: nat)
    requires Complete(s) && Real(s.cfg, Tri(i)) && ActiveAt(s, s.cfg.items[i].defaults, k)
    ensures var item := s.cfg.items[i];
            TriDefault(s, i) ==
            Some(Raised(Max(Max(ValOf(s, item.rev), ValOf(s, item.weak)), DefaultOf(s, item.defaults, k)),
                        CurrentType(s, i) == BOOL))
  {
    PartsValued(s, i, k);
  }

  lemma TextsDiffer(a: Tristate, b: Tristate)
    ensures TriToStr(a) == TriToStr(b) <==> a == b
  {
  }

  /** What it takes for a bool or tristate to be written. */
  lemma WrittenValued(s: Scope, i: Id, k: nat)
    requires Complete(s) && Real(s.cfg, Tri(i)) && ActiveAt(s, s.cfg.items[i].defaults, k)
    ensures TriDefault(s, i).Some?
    ensures Written(s, i) == Some(VisOf(s, i) > ValOf(s, s.cfg.items[i].rev) && TriDefault(s, i) != Some(TriOf(s, i)))
  {
    var item := s.cfg.items[i];
    assert WellFormedItem(s.cfg, i) && Real(s.cfg, Str(i)) && Real(s.cfg, Vis(i));
    ExprValued(s, item.rev);
    TriDefaultValued(s, i, k);
    StrEquation(s, i);
    TextsDiffer(TriDefault(s, i).value, TriOf(s, i));
  }

  lemma SameMost(d: Tristate, weak: Tristate, direct: Tristate, rev: Tristate, isBool: bool)
    requires direct != 0
    ensures Raised(Max(Implied(d, weak, direct), rev), isBool || weak == 2) == Raised(Max(Max(rev, weak), d), isBool)
  {
  }

  /** Without its user value, a visible symbol has the value that `_str_default` computes. */
  lemma WithoutGiven(s: Scope, w: Scope, i: Id)
    requires Real(s.cfg, Tri(i)) && s.cfg.items[i].choice.None? && Propagated(s.cfg)
    requires Sides(s, w, Tri(i)) && w.user.Tri(i) == None && VisOf(s, i) != 0
    ensures TriDefault(s, i) == Some(TriOf(w, i))
  {
    var item := s.cfg.items[i];
    var k := SomeActive(s, item.defaults, 0);
    SharedDefaults(s, w, i, k);
    SharedRest(s, w, i);
    TriDefaultValued(s, i, k);
    TriLaw(w, i, k);
    VisibleDepends(s, i);
    SameMost(DefaultOf(s, item.defaults, k), ValOf(s, item.weak), ValOf(s, item.direct), ValOf(s, item.rev),
             CurrentType(s, i) == BOOL);
  }

  /**
   * From scratch: a bool or tristate outside choices is written exactly if it is visible beyond its selects and would have
   * another value without its user value.
   */
  lemma LogicalWritten(cfg: Config, u: User, rank: Ranking, i: Id)
    requires WellFormed(cfg) && UserOk(cfg, u) && Ranked(cfg, rank) && Propagated(cfg)
    requires Real(cfg, Tri(i)) && cfg.items[i].choice.None?
    ensures var s, w := Values(cfg, u, rank), Values(cfg, UserAfter(cfg, u, UnsetSym(i)), rank);
            Written(s, i) == Some(VisOf(s, i) > ValOf(s, cfg.items[i].rev) && TriOf(w, i) != TriOf(s, i))
  {
    var s, w := Values(cfg, u, rank), Values(cfg, UserAfter(cfg, u, UnsetSym(i)), rank);
    UnsetOk(cfg, u, i);
    UnsetSides(cfg, u, rank, i, Tri(i));
    var k := SomeActive(s, cfg.items[i].defaults, 0);
    WrittenValued(s, i, k);
    if VisOf(s, i) != 0 { WithoutGiven(s, w, i); }
  }

  // ---- Strings and numbers ----

  /** A string, int or hex symbol is written exactly if it is visible and differs from the text of its default. */
  lemma TextWritten(s: Scope, i: Id, k: nat)
    requires Complete(s) && Propagated(s.cfg) && Real(s.cfg, Str(i)) && !s.cfg.items[i].orig.Logical()
    requires ActiveAt(s, s.cfg.items[i].defaults, k)
    ensures Written(s, i) == Some(VisOf(s, i) != 0 && StrOf(s, i) != DefaultText(s, s.cfg.items[i].defaults, k))
  {
    StrEquation(s, i);
    DefaultTextValued(s, i, k);
  }

  lemma SharedText(s: Scope, w: Scope, f: Facet, a: Atom)
    requires Sides(s, w, f) && AtomOk(s.cfg, a) && StrReads(s.cfg, a) <= Reads(s.cfg, f)
    ensures TextOf(w, a) == TextOf(s, a)
  {
    TextValued(s, a);
    TextValued(w, a);
  }

  lemma SharedTextDefaults(s: Scope, w: Scope, i: Id, k: nat)
    requires Real(s.cfg, Str(i)) && !s.cfg.items[i].orig.Logical() && Sides(s, w, Str(i))
    requires ActiveAt(s, s.cfg.items[i].defaults, k)
    ensures ActiveAt(w, s.cfg.items[i].defaults, k)
    ensures DefaultText(w, s.cfg.items[i].defaults, k) == DefaultText(s, s.cfg.items[i].defaults, k)
  {
    var defaults := s.cfg.items[i].defaults;
    assert WellFormedItem(s.cfg, i);
    forall j | 0 <= j < |defaults| ensures ValOf(w, defaults[j].cond) == ValOf(s, defaults[j].cond) {
      assert defaults[j] in defaults;
      SharedValue(s, w, Str(i), defaults[j].cond);
    }
    if k < |defaults| && defaults[k].body.Leaf? {
      assert defaults[k] in defaults;
      SharedText(s, w, Str(i), defaults[k].body.atom);
    }
  }

  /** From scratch: a string outside choices is written exactly if it is visible and would differ without its user value. */
  lemma StringWritten(cfg: Config, u: User, rank: Ranking, i: Id)
    requires WellFormed(cfg) && UserOk(cfg, u) && Ranked(cfg, rank) && Propagated(cfg)
    requires Real(cfg, Str(i)) && cfg.items[i].orig == STRING
    ensures var s, w := Values(cfg, u, rank), Values(cfg, UserAfter(cfg, u, UnsetSym(i)), rank);
            Written(s, i) == Some(VisOf(s, i) != 0 && StrOf(w, i) != StrOf(s, i))
  {
    var s, w := Values(cfg, u, rank), Values(cfg, UserAfter(cfg, u, UnsetSym(i)), rank);
    UnsetOk(cfg, u, i);
    UnsetSides(cfg, u, rank, i, Str(i));
    var k := SomeActive(s, cfg.items[i].defaults, 0);
    SharedTextDefaults(s, w, i, k);
    TextWritten(s, i, k);
    StringLaw(w, i, k);
  }

  lemma RangeReadsWithin(cfg: Config, i: Id, r: nat)
    requires i < |cfg.items| && cfg.items[i].Symbol? && cfg.items[i].orig.Numeric() && r < |cfg.items[i].ranges|
    ensures StrReads(cfg, cfg.items[i].ranges[r].body.low) <= TextReads(cfg, i)
    ensures StrReads(cfg, cfg.items[i].ranges[r].body.high) <= TextReads(cfg, i)
  {
    var p := cfg.items[i].ranges[r];
    assert p in cfg.items[i].ranges;
    forall g | g in StrReads(cfg, p.body.low) + StrReads(cfg, p.body.high) ensures g in TextReads(cfg, i) {}
  }

  lemma SharedBounds(s: Scope, w: Scope, i: Id, r: nat)
    requires Real(s.cfg, Str(i)) && s.cfg.items[i].orig.Numeric() && Sides(s, w, Str(i))
    requires ActiveAt(s, s.cfg.items[i].ranges, r)
    ensures ActiveAt(w, s.cfg.items[i].ranges, r)
    ensures r < |s.cfg.items[i].ranges| ==> BoundsOf(w, s.cfg.items[i], r) == BoundsOf(s, s.cfg.items[i], r)
  {
    var ranges := s.cfg.items[i].ranges;
    assert WellFormedItem(s.cfg, i);
    forall j | 0 <= j < |ranges| ensures ValOf(w, ranges[j].cond) == ValOf(s, ranges[j].cond) {
      assert ranges[j] in ranges;
      SharedValue(s, w, Str(i), ranges[j].cond);
    }
    if r < |ranges| {
      assert ranges[r] in ranges;
      RangeReadsWithin(s.cfg, i, r);
      SharedText(s, w, Str(i), ranges[r].body.low);
      SharedText(s, w, Str(i), ranges[r].body.high);
    }
  }

  /** The default of a number, brought into the active range. */
  function FittedDefault(s: Scope, item: Item, k: nat, r: nat): string
    requires item.Symbol?
  {
    var text := DefaultText(s, item.defaults, k);
    if r < |item.ranges| then Fitted(s.cfg, item.orig, BoundsOf(s, item, r), text) else text
  }

  /**
   * From scratch: a visible int or hex symbol is written although it would be the same without its user value exactly if
   * its default had to be brought into its range.
   */
  lemma NumberWritten(cfg: Config, u: User, rank: Ranking, i: Id, k: nat, r: nat)
    requires WellFormed(cfg) && UserOk(cfg, u) && Ranked(cfg, rank) && Propagated(cfg)
    requires Real(cfg, Str(i)) && cfg.items[i].orig.Numeric()
    requires ActiveAt(Values(cfg, u, rank), cfg.items[i].defaults, k) && ActiveAt(Values(cfg, u, rank), cfg.items[i].ranges, r)
    ensures var s, w := Values(cfg, u, rank), Values(cfg, UserAfter(cfg, u, UnsetSym(i)), rank);
            var dflt, fitted := DefaultText(s, cfg.items[i].defaults, k), FittedDefault(s, cfg.items[i], k, r);
            && Written(s, i) == Some(VisOf(s, i) != 0 && StrOf(s, i) != dflt)
            && StrOf(w, i) == fitted
            && (Written(s, i) == Some(true) && StrOf(w, i) == StrOf(s, i) <==>
                  VisOf(s, i) != 0 && StrOf(s, i) == fitted && fitted != dflt)
  {
    var s, w := Values(cfg, u, rank), Values(cfg, UserAfter(cfg, u, UnsetSym(i)), rank);
    UnsetOk(cfg, u, i);
    UnsetSides(cfg, u, rank, i, Str(i));
    SharedTextDefaults(s, w, i, k);
    SharedBounds(s, w, i, r);
    TextWritten(s, i, k);
    NumberLaw(w, i, k, r);
  }
}
