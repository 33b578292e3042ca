/** Minimal configurations: which symbols `write_min_config` writes out, and that loading them back into a cleared
    configuration restores every value. Configurations here have no choices. */
module KconfigMinConfig {
  import opened Basics
  import opened KconfigModel
  import opened KconfigEval
  import opened KconfigReads
  import opened KconfigScratch
  import opened KconfigChoice
  import opened KconfigCache

  /** The numeric part of `_str_default` for bools and tristates. */
  function TriDefault(s: Scope, i: Id): Option<Tristate> {
    var item := s.cfg.At(i);
    if !item.Symbol? then None
    else
      var first :- s.FirstActive(item.defaults, 0);
      var val :- s.DefaultAt(item, first);
      var rev :- s.ExprVal(item.rev);
      var weak :- s.ExprVal(item.weak);
      var most := Max(Max(rev, weak), val);
      if most == 1 then
        var t :- s.TypeNow(i);
        Some(if t == BOOL then 2 else 1)
      else Some(most)
  }

  /** `_str_default`: the value a symbol would get without a user value, as the C tools compute it. */
  function StrDefault(s: Scope, i: Id): Option<string> {
    var item := s.cfg.At(i);
    if !item.Symbol? then None
    else if item.orig.Logical() then
      var t :- TriDefault(s, i);
      Some(TriToStr(t))
    else if item.orig == UNKNOWN then Some("")
    else s.DefaultStr(item)
  }

  /** Whether a symbol outside choices gets a line in the minimal configuration. */
  function Written(s: Scope, i: Id): Option<bool> {
    var item := s.cfg.At(i);
    if !item.Symbol? then None
    else
      var vis :- s.GetTri(Vis(i));
      var rev :- s.ExprVal(item.rev);
      if vis <= rev then Some(false)
      else
        var val :- s.AtomStr(Sym(i));
        var def :- StrDefault(s, i);
        Some(val != def)
  }

  /** The user value that loading the text of a value assigns. */
  function Parsed(t: Type, val: string): Given {
    if t.Logical() then GivenTri(if val == "n" then 0 else if val == "m" then 1 else 2) else GivenStr(val)
  }

  /** What loading the minimal configuration into a cleared configuration assigns. `set_value` ignores values that are
      not valid for the type. */
  ghost function Reloaded(s: Scope): User {
    User(map i | 0 <= i < |s.cfg.items| && Loads(s, i) :: Parsed(s.cfg.items[i].orig, s.AtomStr(Sym(i)).value), map[])
  }

  ghost predicate Loads(s: Scope, i: Id) {
    && Written(s, i) == Some(true) && s.AtomStr(Sym(i)).Some?
    && ValueOk(s.cfg, s.cfg.At(i), Parsed(s.cfg.At(i).orig, s.AtomStr(Sym(i)).value))
  }

  // ---- Hypotheses ----

  ghost predicate ChoiceFree(cfg: Config) {
    forall i :: 0 <= i < |cfg.items| ==> cfg.items[i].Symbol? && cfg.items[i].choice.None?
  }

  lemma NoChoices(cfg: Config)
    requires ChoiceFree(cfg)
    ensures forall j: Id :: !cfg.At(j).Choice?
  {
    forall j: Id ensures !cfg.At(j).Choice? { if j < |cfg.items| { assert cfg.items[j].Symbol?; } }
  }

  /** Only bools and tristates are selected, and every prompt condition implies the direct dependencies,
      as dependency propagation makes it. */
  ghost predicate Propagated(cfg: Config) {
    forall i :: 0 <= i < |cfg.items| && cfg.items[i].Symbol? ==>
      && (!cfg.items[i].orig.Logical() ==> cfg.items[i].rev == N)
      && forall e, s: Scope :: e in cfg.items[i].prompts && s.cfg == cfg ==> Implies(s, e, cfg.items[i].direct)
  }

  predicate Implies(s: Scope, e: Expr, d: Expr) {
    s.ExprVal(e).Some? && s.ExprVal(e).value != 0 && s.ExprVal(d).Some? ==> s.ExprVal(d).value != 0
  }

  /** Printing a number and reading it back gives the number. */
  ghost predicate ReadsBack(cfg: Config) {
    && (forall n :: cfg.num(cfg.show(n, false), 10) == Some(n))
    && (forall n :: cfg.num(cfg.show(n, true), 16) == Some(n))
  }

  /** A tristate that is visible and selected to m, that its defaults would make y, and that a user value holds at m.
      It is skipped because its visibility does not exceed its selects. */
  ghost predicate Lost(s: Scope, i: Id) {
    var item := s.cfg.At(i);
    && item.Symbol? && item.orig == TRISTATE
    && s.GetTri(Vis(i)) == Some(1) && s.ExprVal(item.rev) == Some(1) && s.user.Tri(i).Some?
    && s.FromDefaults(item) == Some(2) && s.Promote(i, 1) == Some(1)
  }

  // ---- One step with and without the user's values ----

  /** `a` and `b` differ in the user's values only, and no choice is involved. */
  ghost predicate SameEnv(a: Scope, b: Scope) {
    a.cfg == b.cfg && a.env == b.env && ChoiceFree(a.cfg) && WellFormed(a.cfg)
  }

  lemma SameExpr(a: Scope, b: Scope, e: Expr)
    requires SameEnv(a, b) && a.ExprVal(e).Some?
    ensures b.ExprVal(e) == a.ExprVal(e)
  {
    NoChoices(a.cfg);
    ExprTransfers(a, b, e);
  }

  lemma {:induction false} PromptActive(s: Scope, es: seq<Expr>)
    requires s.MaxOf(es).Some? && s.MaxOf(es).value != 0
    ensures exists e :: e in es && s.ExprVal(e).Some? && s.ExprVal(e).value != 0
  {
    var last := es[|es| - 1];
    if s.ExprVal(last).value == 0 {
      PromptActive(s, es[..|es| - 1]);
      var e :| e in es[..|es| - 1] && s.ExprVal(e).Some? && s.ExprVal(e).value != 0;
      assert e in es;
    } else {
      assert last in es;
    }
  }

  /** What visibility tells about a symbol outside choices. */
  lemma VisibleFacts(s: Scope, i: Id)
    requires WellFormed(s.cfg) && ChoiceFree(s.cfg) && Propagated(s.cfg) && i < |s.cfg.items|
    requires Vis(i) in s.env && Rederived(s.cfg, s.user, s.env, Vis(i)) && s.ExprVal(s.cfg.items[i].direct).Some?
    ensures s.GetTri(Vis(i)).Some?
    ensures s.GetTri(Vis(i)).value != 0 ==> s.ExprVal(s.cfg.items[i].direct).value != 0
    ensures s.GetTri(Vis(i)).value == 1 ==> s.cfg.items[i].orig == TRISTATE && s.TypeNow(i) == Some(TRISTATE)
  {
    var item := s.cfg.items[i];
    if s.GetTri(Vis(i)).value != 0 {
      PromptActive(s, item.prompts);
      var e :| e in item.prompts && s.ExprVal(e).Some? && s.ExprVal(e).value != 0;
      assert Implies(s, e, item.direct);
    }
  }

  /** The numbers that decide the value of a bool or tristate symbol, all of them known. */
  ghost predicate Decided(s: Scope, i: Id, vis: Tristate, val: Tristate, rev: Tristate, weak: Tristate) {
    && i < |s.cfg.items| && s.cfg.items[i].Symbol? && s.cfg.items[i].orig.Logical() && s.cfg.items[i].choice.None?
    && s.GetTri(Vis(i)) == Some(vis) && s.ExprVal(s.cfg.items[i].rev) == Some(rev)
    && s.ExprVal(s.cfg.items[i].weak) == Some(weak) && s.ExprVal(s.cfg.items[i].direct).Some?
    && s.TypeNow(i).Some? && s.FirstActive(s.cfg.items[i].defaults, 0).Some?
    && s.DefaultAt(s.cfg.items[i], s.FirstActive(s.cfg.items[i].defaults, 0).value) == Some(val)
    && (vis != 0 ==> s.ExprVal(s.cfg.items[i].direct).value != 0)
    && (vis == 1 ==> s.TypeNow(i) == Some(TRISTATE))
  }

  /** The value of a bool or tristate symbol as a function of those numbers. */
  function TriRule(given: Option<Tristate>, vis: Tristate, from: Tristate, rev: Tristate, weak: Tristate, bool_: bool): Tristate {
    var base := if vis != 0 && given.Some? then Min(given.value, vis) else from;
    var v := Max(rev, base);
    if v == 1 && (bool_ || weak == 2) then 2 else v
  }

  lemma TriRuleHolds(s: Scope, i: Id, vis: Tristate, val: Tristate, rev: Tristate, weak: Tristate)
    requires Decided(s, i, vis, val, rev, weak)
    ensures s.FromDefaults(s.cfg.items[i]).Some?
    ensures vis != 0 ==> s.FromDefaults(s.cfg.items[i]) == Some(Max(weak, val))
    ensures s.EvalTri(i) ==
            Some(TriRule(s.user.Tri(i), vis, s.FromDefaults(s.cfg.items[i]).value, rev, weak, s.TypeNow(i).value == BOOL))
    ensures TriDefault(s, i) ==
            Some(if Max(Max(rev, weak), val) == 1 && s.TypeNow(i).value == BOOL then 2 else Max(Max(rev, weak), val))
  {}

  /** A value read back from the minimal configuration takes the place of the original user value,
      except for a symbol that is lost. */
  lemma TriReloads(s: Scope, t: Scope, i: Id, vis: Tristate, val: Tristate, rev: Tristate, weak: Tristate)
    requires Decided(s, i, vis, val, rev, weak) && Decided(t, i, vis, val, rev, weak)
    requires s.cfg == t.cfg && s.TypeNow(i) == t.TypeNow(i)
    requires s.FromDefaults(s.cfg.items[i]) == t.FromDefaults(s.cfg.items[i])
    requires s.EvalTri(i).Some? && s.AtomStr(Sym(i)) == Some(TriToStr(s.EvalTri(i).value))
    requires t.user.Tri(i) == if Written(s, i) == Some(true) then s.EvalTri(i) else None
    ensures t.EvalTri(i) == s.EvalTri(i) <==> !Lost(s, i)
  {
    TriRuleHolds(s, i, vis, val, rev, weak);
    TriRuleHolds(t, i, vis, val, rev, weak);
  }

  /** The text of a string, int or hex symbol survives in all cases. */
  lemma TextReloads(s: Scope, t: Scope, i: Id, vis: Tristate)
    requires s.cfg == t.cfg && i < |s.cfg.items| && s.cfg.items[i].Symbol? && s.cfg.items[i].choice.None?
    requires !s.cfg.items[i].orig.Logical() && s.cfg.items[i].orig != UNKNOWN && s.cfg.items[i].rev == N
    requires ReadsBack(s.cfg) && WellFormed(s.cfg) && UserOk(s.cfg, s.user)
    requires s.GetTri(Vis(i)) == Some(vis) && s.TextStr(i, vis).Some? && s.AtomStr(Sym(i)) == s.TextStr(i, vis)
    requires s.DefaultStr(s.cfg.items[i]).Some? && t.DefaultStr(s.cfg.items[i]) == s.DefaultStr(s.cfg.items[i])
    requires s.cfg.items[i].orig.Numeric() ==>
               s.ActiveRange(s.cfg.items[i]).Some? && t.ActiveRange(s.cfg.items[i]) == s.ActiveRange(s.cfg.items[i])
    requires t.user.Str(i) == if Loads(s, i) then s.TextStr(i, vis) else None
    ensures t.TextStr(i, vis) == s.TextStr(i, vis)
  {
    var item := s.cfg.items[i];
    var val := s.TextStr(i, vis).value;
    if item.orig.Numeric() {
      var range := s.ActiveRange(item).value;
      var def := s.DefaultStr(item).value;
      if s.user.Str(i).Some? { assert ValueOk(s.cfg, item, s.user.values[i]); }
      if vis != 0 && val != def && range.Some? {
        assert s.cfg.num(s.cfg.show(range.value.0, item.orig == HEX), item.orig.Base()) == Some(range.value.0);
        assert s.cfg.num(s.cfg.show(range.value.1, item.orig == HEX), item.orig.Base()) == Some(range.value.1);
      }
    }
  }

  // ---- Whole configurations ----

  lemma DecidedTransfers(s: Scope, t: Scope, i: Id, vis: Tristate, val: Tristate, rev: Tristate, weak: Tristate)
    requires SameEnv(s, t) && Decided(s, i, vis, val, rev, weak)
    ensures Decided(t, i, vis, val, rev, weak) && t.TypeNow(i) == s.TypeNow(i)
    ensures t.FromDefaults(s.cfg.items[i]) == s.FromDefaults(s.cfg.items[i])
  {
    var item := s.cfg.items[i];
    NoChoices(s.cfg);
    SameExpr(s, t, item.rev);
    SameExpr(s, t, item.weak);
    SameExpr(s, t, item.direct);
    TypeTransfers(s, t, i);
    FirstActiveTransfers(s, t, item.defaults, 0);
    var first := s.FirstActive(item.defaults, 0).value;
    if first.0 < |item.defaults| { SameExpr(s, t, item.defaults[first.0].body); }
  }

  /** Everything about symbol `i` is known in an environment that holds what its value reads. */
  lemma KnownIsDecided(s: Scope, i: Id) returns (vis: Tristate, val: Tristate, rev: Tristate, weak: Tristate)
    requires WellFormed(s.cfg) && ChoiceFree(s.cfg) && Propagated(s.cfg) && Real(s.cfg, Tri(i))
    requires Knows(s, TriReads(s.cfg, i)) && Rederived(s.cfg, s.user, s.env, Vis(i))
    ensures Decided(s, i, vis, val, rev, weak)
  {
    var item := s.cfg.items[i];
    assert Vis(i) in TriReads(s.cfg, i);
    FirstActiveKnown(s, item.defaults, 0);
    var first := s.FirstActive(item.defaults, 0).value;
    if first.0 < |item.defaults| {
      assert item.defaults[first.0] in item.defaults;
      ExprKnown(s, item.defaults[first.0].body);
    }
    ExprKnown(s, item.rev);
    ExprKnown(s, item.weak);
    ExprKnown(s, item.direct);
    TypeKnown(s, i);
    VisibleFacts(s, i);
    vis, val := s.GetTri(Vis(i)).value, s.DefaultAt(item, first).value;
    rev, weak := s.ExprVal(item.rev).value, s.ExprVal(item.weak).value;
  }

  /** An environment that holds a justified value of every facet. */
  ghost predicate Solved(s: Scope) {
    && WellFormed(s.cfg) && UserOk(s.cfg, s.user) && ChoiceFree(s.cfg) && Propagated(s.cfg) && ReadsBack(s.cfg)
    && Justified(s.cfg, s.user, s.env)
    && (forall f :: Real(s.cfg, f) ==> f in s.env && Shaped(f, s.env[f]))
    && (forall f :: f in s.env ==> Real(s.cfg, f))
  }

  lemma SolvedKnows(s: Scope, f: Facet)
    requires Solved(s) && Real(s.cfg, f)
    ensures Knows(s, Reads(s.cfg, f))
  {
    forall g | g in Reads(s.cfg, f) ensures g in s.env && Shaped(g, s.env[g]) { ReadsReal(s.cfg, f, g); }
  }

  lemma ReloadedTri(s: Scope, i: Id, v: Tristate)
    requires i < |s.cfg.items| && s.cfg.items[i].Symbol? && s.cfg.items[i].orig.Logical()
    requires s.AtomStr(Sym(i)) == Some(TriToStr(v)) && (s.cfg.items[i].orig == BOOL ==> v != 1)
    ensures Reloaded(s).Tri(i) == if Written(s, i) == Some(true) then Some(v) else None
  {
    assert Parsed(s.cfg.items[i].orig, TriToStr(v)) == GivenTri(v);
  }

  lemma TextOfTri(s: Scope, i: Id)
    requires Solved(s) && Real(s.cfg, Tri(i))
    ensures s.EvalTri(i).Some? && s.AtomStr(Sym(i)) == Some(TriToStr(s.EvalTri(i).value))
  {
    assert Real(s.cfg, Str(i));
    assert Rederived(s.cfg, s.user, s.env, Tri(i)) && Rederived(s.cfg, s.user, s.env, Str(i));
  }

  lemma TriStepReloads(s: Scope, t: Scope, i: Id)
    requires Solved(s) && Real(s.cfg, Tri(i)) && t == Scope(s.cfg, Reloaded(s), s.env)
    ensures t.EvalTri(i) == s.EvalTri(i) <==> !Lost(s, i)
  {
    SolvedKnows(s, Tri(i));
    assert Rederived(s.cfg, s.user, s.env, Vis(i));
    TextOfTri(s, i);
    var vis, val, rev, weak := KnownIsDecided(s, i);
    TriRuleHolds(s, i, vis, val, rev, weak);
    ReloadedTri(s, i, s.EvalTri(i).value);
    DecidedTransfers(s, t, i, vis, val, rev, weak);
    TriReloads(s, t, i, vis, val, rev, weak);
  }

  /** Defaults and ranges do not depend on the symbol's own user value. */
  lemma TextDefaultsAgree(s: Scope, t: Scope, i: Id)
    requires Solved(s) && Real(s.cfg, Str(i)) && t == Scope(s.cfg, t.user, s.env)
    requires !s.cfg.items[i].orig.Logical()
    ensures var item := s.cfg.items[i];
            && s.DefaultStr(item).Some? && t.DefaultStr(item) == s.DefaultStr(item)
            && (item.orig.Numeric() && s.ActiveRange(item).Some? ==> t.ActiveRange(item) == s.ActiveRange(item))
  {
    SolvedKnows(s, Str(i));
    NoChoices(s.cfg);
    DefaultStrKnown(s, i);
    DefaultStrTransfers(s, t, i);
    if s.cfg.items[i].orig.Numeric() && s.ActiveRange(s.cfg.items[i]).Some? { NumericTransfers(s, t, i); }
  }

  lemma StrStepReloads(s: Scope, t: Scope, i: Id)
    requires Solved(s) && Real(s.cfg, Str(i)) && t == Scope(s.cfg, Reloaded(s), s.env)
    ensures t.Eval(Str(i)) == s.Eval(Str(i))
  {
    var item := s.cfg.items[i];
    SolvedKnows(s, Str(i));
    if !item.orig.Logical() {
      assert Vis(i) in Reads(s.cfg, Str(i)) && Rederived(s.cfg, s.user, s.env, Str(i));
      TextDefaultsAgree(s, t, i);
      TextReloads(s, t, i, s.GetTri(Vis(i)).value);
    }
  }

  lemma StepReloads(s: Scope, t: Scope, f: Facet)
    requires Solved(s) && Real(s.cfg, f) && t == Scope(s.cfg, Reloaded(s), s.env)
    ensures !(f.Tri? && Lost(s, f.id)) ==> t.Eval(f) == s.Eval(f)
  {
    if f.Tri? {
      TriStepReloads(s, t, f.id);
    } else if f.Str? {
      StrStepReloads(s, t, f.id);
    } else if !f.Sel? {
      OtherStepReloads(s, t, f);
    }
  }

  /** Without choices, one environment covers itself whatever the user's values are. */
  lemma SameEnvCovers(s: Scope, t: Scope, fs: set<Facet>)
    requires ChoiceFree(s.cfg) && t == Scope(s.cfg, t.user, s.env)
    ensures Covers(s, t, fs)
  {
    NoChoices(s.cfg);
  }

  /** Visibilities and assignable values do not depend on the user's values. */
  lemma OtherStepReloads(s: Scope, t: Scope, f: Facet)
    requires Solved(s) && Real(s.cfg, f) && t == Scope(s.cfg, Reloaded(s), s.env) && (f.Vis? || f.Asn?)
    ensures t.Eval(f) == s.Eval(f)
  {
    assert Rederived(s.cfg, s.user, s.env, f);
    SameEnvCovers(s, t, Reads(s.cfg, f));
    if f.Vis? { VisTransfers(s, t, f.id); } else { AsnTransfers(s, t, f.id); }
  }

  lemma ReloadedOk(s: Scope)
    requires Solved(s)
    ensures UserOk(s.cfg, Reloaded(s))
  {}

  /** The solution for the user's values also solves the equations for the reloaded values,
      unless some symbol is lost. */
  lemma ReloadSolves(s: Scope)
    requires Solved(s)
    ensures Justified(s.cfg, Reloaded(s), s.env) <==> forall i :: 0 <= i < |s.cfg.items| ==> !Lost(s, i)
  {
    var t := Scope(s.cfg, Reloaded(s), s.env);
    if forall i :: 0 <= i < |s.cfg.items| ==> !Lost(s, i) {
      forall f ensures Rederived(s.cfg, t.user, t.env, f) {
        if f in t.env {
          assert Rederived(s.cfg, s.user, s.env, f);
          StepReloads(s, t, f);
        }
      }
    } else {
      var i :| 0 <= i < |s.cfg.items| && Lost(s, i);
      TriStepReloads(s, t, i);
      assert Rederived(s.cfg, s.user, s.env, Tri(i));
      assert !Rederived(s.cfg, t.user, t.env, Tri(i));
    }
  }

  ghost predicate SameValues(cfg: Config, u: User, v: User, rank: Ranking)
    requires Ranked(cfg, rank)
  {
    forall f :: Real(cfg, f) ==> Scratch(cfg, u, rank, f) == Scratch(cfg, v, rank, f)
  }

  lemma FullSolved(cfg: Config, u: User, rank: Ranking)
    requires WellFormed(cfg) && UserOk(cfg, u) && Ranked(cfg, rank)
    requires ChoiceFree(cfg) && Propagated(cfg) && ReadsBack(cfg)
    ensures Solved(Scope(cfg, u, Full(cfg, u, rank)))
  {
    FullJustified(cfg, u, rank);
    forall f | Real(cfg, f) ensures f in Full(cfg, u, rank) && Shaped(f, Full(cfg, u, rank)[f]) {
      FullHolds(cfg, u, rank, f);
    }
  }

  /** Clearing all user values and loading the minimal configuration restores every value of every symbol
      if and only if no symbol is lost. */
  lemma MinConfigReload(cfg: Config, u: User, rank: Ranking)
    requires WellFormed(cfg) && UserOk(cfg, u) && Ranked(cfg, rank)
    requires ChoiceFree(cfg) && Propagated(cfg) && ReadsBack(cfg)
    ensures var s := Scope(cfg, u, Full(cfg, u, rank));
            SameValues(cfg, u, Reloaded(s), rank) <==> forall i :: 0 <= i < |cfg.items| ==> !Lost(s, i)
  {
    var full := Full(cfg, u, rank);
    var s := Scope(cfg, u, full);
    var v := Reloaded(s);
    FullSolved(cfg, u, rank);
    ReloadedOk(s);
    ReloadSolves(s);
    if Justified(cfg, v, full) {
      forall f | Real(cfg, f) ensures Scratch(cfg, u, rank, f) == Scratch(cfg, v, rank, f) {
        FullHolds(cfg, u, rank, f);
        JustifiedIsScratch(cfg, v, rank, full, f);
      }
    } else if SameValues(cfg, u, v, rank) {
      SameFull(cfg, u, v, rank);
      FullJustified(cfg, v, rank);
    }
  }

  lemma SameFull(cfg: Config, u: User, v: User, rank: Ranking)
    requires Ranked(cfg, rank) && SameValues(cfg, u, v, rank)
    ensures Full(cfg, u, rank) == Full(cfg, v, rank)
  {
    var a, b := Full(cfg, u, rank), Full(cfg, v, rank);
    forall f | Real(cfg, f) ensures Scratch(cfg, u, rank, f) == Scratch(cfg, v, rank, f) {}
    assert a.Keys == b.Keys;
  }

  /** Without tristates nothing can be lost. */
  lemma BoolsAreNeverLost(s: Scope, i: Id)
    requires forall j :: 0 <= j < |s.cfg.items| ==> s.cfg.items[j].orig != TRISTATE
    ensures !Lost(s, i)
  {}
}
