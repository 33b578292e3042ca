/** Evaluation from scratch: what a facet is worth when nothing is cached. It is well founded whenever the facets
    can be ranked so that each one only reads facets of lower rank. */
module KconfigScratch {
  import opened Basics
  import opened KconfigModel
  import opened KconfigEval
  import opened KconfigReads

  type Ranking = Facet -> nat

  ghost predicate Ranked(cfg: Config, rank: Ranking) {
    forall f, g :: g in Reads(cfg, f) ==> rank(g) < rank(f)
  }

  ghost function Scratch(cfg: Config, u: User, rank: Ranking, f: Facet): Option<Val>
    requires Ranked(cfg, rank)
    decreases rank(f)
  {
    var env := map g | g in Reads(cfg, f) && Scratch(cfg, u, rank, g).Some? :: Scratch(cfg, u, rank, g).value;
    Scope(cfg, u, env).Eval(f)
  }

  /** The environment `Scratch` evaluates `f` in. */
  ghost function Below(cfg: Config, u: User, rank: Ranking, f: Facet): (env: Env)
    requires Ranked(cfg, rank)
    ensures Scope(cfg, u, env).Eval(f) == Scratch(cfg, u, rank, f)
  {
    map g | g in Reads(cfg, f) && Scratch(cfg, u, rank, g).Some? :: Scratch(cfg, u, rank, g).value
  }

  /** The entry for `f`, if there is one, is what one evaluation step yields from the other entries. */
  ghost predicate Rederived(cfg: Config, u: User, env: Env, f: Facet) {
    f in env ==> Scope(cfg, u, env).Eval(f) == Some(env[f])
  }

  ghost predicate Justified(cfg: Config, u: User, env: Env) { forall f :: Rederived(cfg, u, env, f) }

  /** A justified cache holds nothing but values that evaluation from scratch yields. */
  lemma {:induction false} JustifiedIsScratch(cfg: Config, u: User, rank: Ranking, env: Env, f: Facet)
    requires UserOk(cfg, u) && Ranked(cfg, rank) && Justified(cfg, u, env) && f in env
    ensures Scratch(cfg, u, rank, f) == Some(env[f])
    decreases rank(f)
  {
    assert Rederived(cfg, u, env, f);
    var below := Below(cfg, u, rank, f);
    forall g | g in Reads(cfg, f) && g in env ensures g in below && below[g] == env[g] {
      JustifiedIsScratch(cfg, u, rank, env, g);
    }
    EvalTransfers(Scope(cfg, u, env), Scope(cfg, u, below), f);
  }

  // ---- Evaluation from scratch always yields a value ----

  /** The facets an item of this kind has. */
  predicate Proper(cfg: Config, f: Facet) {
    var item := cfg.At(f.id);
    match f
    case Vis(_) => true
    case Tri(_) => item.Symbol? && item.orig.Logical()
    case Str(_) => item.Symbol? && item.orig != UNKNOWN
    case Asn(_) => item.Choice? || item.orig.Logical()
    case Sel(_) => item.Choice?
  }

  predicate Shaped(f: Facet, v: Val) {
    match f
    case Vis(_) => v.TriVal?
    case Tri(_) => v.TriVal?
    case Str(_) => v.StrVal?
    case Asn(_) => v.AsnVal?
    case Sel(_) => v.SelVal?
  }

  /** All of `fs` is known. */
  ghost predicate Knows(s: Scope, fs: set<Facet>) {
    forall g :: g in fs ==> g in s.env && Shaped(g, s.env[g])
  }

  lemma KnowsLess(s: Scope, more: set<Facet>, less: set<Facet>)
    requires Knows(s, more) && less <= more
    ensures Knows(s, less)
  {}

  lemma ModeKnown(s: Scope, c: Id)
    requires Knows(s, ModeReads(s.cfg, c))
    ensures s.Mode(c).Some?
  {
    assert Vis(c) in ModeReads(s.cfg, c);
  }

  lemma TypeKnown(s: Scope, i: Id)
    requires Knows(s, TypeReads(s.cfg, i))
    ensures s.TypeNow(i).Some?
  {
    var item := s.cfg.At(i);
    if item.orig == TRISTATE && item.Symbol? && item.choice.Some? { ModeKnown(s, item.choice.value); }
  }

  lemma {:induction false} ExprKnown(s: Scope, e: Expr)
    requires Knows(s, ExprReads(s.cfg, e))
    ensures s.ExprVal(e).Some?
  {
    match e
    case Leaf(_) =>
    case ChoiceMode(c) => ModeKnown(s, c);
    case And(l, r) => ExprKnown(s, l); ExprKnown(s, r);
    case Or(l, r) => ExprKnown(s, l); ExprKnown(s, r);
    case Not(x) => ExprKnown(s, x);
    case Compare(_, l, r) =>
      KnowsLess(s, ExprReads(s.cfg, e), AtomReads(s.cfg, l) + StrReads(s.cfg, l));
      KnowsLess(s, ExprReads(s.cfg, e), AtomReads(s.cfg, r) + StrReads(s.cfg, r));
      assert s.AtomStr(l).Some? && s.AtomStr(r).Some?;
  }

  lemma {:induction false} MaxOfKnown(s: Scope, es: seq<Expr>)
    requires Knows(s, PromptReads(s.cfg, es))
    ensures s.MaxOf(es).Some?
  {
    if es != [] {
      MaxOfKnown(s, es[..|es| - 1]);
      assert es[|es| - 1] in es;
      ExprKnown(s, es[|es| - 1]);
    }
  }

  lemma {:induction false} FirstActiveKnown<T>(s: Scope, ps: seq<Prop<T>>, k: nat)
    requires k <= |ps|
    requires forall p :: p in ps ==> Knows(s, ExprReads(s.cfg, p.cond))
    ensures s.FirstActive(ps, k).Some?
    ensures k <= s.FirstActive(ps, k).value.0 <= |ps|
    decreases |ps| - k
  {
    if k < |ps| {
      ExprKnown(s, ps[k].cond);
      FirstActiveKnown(s, ps, k + 1);
    }
  }

  lemma VisKnown(s: Scope, i: Id)
    requires Knows(s, VisReads(s.cfg, i))
    ensures s.EvalVis(i).Some?
  {
    var item := s.cfg.At(i);
    MaxOfKnown(s, item.prompts);
    if item.Symbol? && item.choice.Some? { ModeKnown(s, item.choice.value); }
    TypeKnown(s, i);
  }

  lemma TriKnown(s: Scope, i: Id)
    requires Knows(s, TriReads(s.cfg, i)) && Proper(s.cfg, Tri(i))
    ensures s.EvalTri(i).Some?
  {
    var item := s.cfg.At(i);
    assert Vis(i) in TriReads(s.cfg, i);
    FirstActiveKnown(s, item.defaults, 0);
    var first := s.FirstActive(item.defaults, 0).value;
    if first.0 < |item.defaults| {
      var p := item.defaults[first.0];
      assert p in item.defaults;
      ExprKnown(s, p.body);
    }
    ExprKnown(s, item.rev);
    ExprKnown(s, item.weak);
    ExprKnown(s, item.direct);
    TypeKnown(s, i);
    if item.choice.Some? { assert Sel(item.choice.value) in TriReads(s.cfg, i); }
  }

  lemma AtomStrKnown(s: Scope, a: Atom)
    requires Knows(s, StrReads(s.cfg, a))
    ensures s.AtomStr(a).Some?
  {}

  lemma DefaultStrKnown(s: Scope, i: Id)
    requires s.cfg.At(i).Symbol? && !s.cfg.At(i).orig.Logical()
    requires Knows(s, TextReads(s.cfg, i))
    ensures s.DefaultStr(s.cfg.At(i)).Some?
  {
    var item := s.cfg.At(i);
    forall p | p in item.defaults ensures Knows(s, ExprReads(s.cfg, p.cond)) {
      KnowsLess(s, TextReads(s.cfg, i), ExprReads(s.cfg, p.cond));
    }
    FirstActiveKnown(s, item.defaults, 0);
    var first := s.FirstActive(item.defaults, 0).value;
    if first.0 < |item.defaults| && item.defaults[first.0].body.Leaf? {
      var p := item.defaults[first.0];
      KnowsLess(s, TextReads(s.cfg, i), StrReads(s.cfg, p.body.atom));
      AtomStrKnown(s, p.body.atom);
    }
  }

  lemma RangeKnown(s: Scope, item: Item)
    requires item.Symbol?
    requires forall p :: p in item.ranges ==> Knows(s, RangeReads(s.cfg, p))
    ensures s.ActiveRange(item).Some?
  {
    FirstActiveKnown(s, item.ranges, 0);
    var first := s.FirstActive(item.ranges, 0).value;
    if first.0 < |item.ranges| {
      var p := item.ranges[first.0];
      assert Knows(s, RangeReads(s.cfg, p));
      AtomStrKnown(s, p.body.low);
      AtomStrKnown(s, p.body.high);
    }
  }

  lemma StrKnown(s: Scope, i: Id)
    requires Knows(s, TextReads(s.cfg, i)) && Proper(s.cfg, Str(i))
    ensures s.EvalStr(i).Some?
  {
    var item := s.cfg.At(i);
    if item.orig.Logical() {
      assert Tri(i) in TextReads(s.cfg, i);
    } else {
      assert Vis(i) in TextReads(s.cfg, i);
      DefaultStrKnown(s, i);
      forall p | p in item.ranges ensures Knows(s, RangeReads(s.cfg, p)) {
        RangeReadsAreRead(s.cfg, i, p);
        KnowsLess(s, TextReads(s.cfg, i), RangeReads(s.cfg, p));
      }
      RangeKnown(s, item);
    }
  }

  lemma AsnKnown(s: Scope, i: Id)
    requires Knows(s, AsnReads(s.cfg, i)) && Proper(s.cfg, Asn(i))
    ensures s.EvalAsn(i).Some?
  {
    assert Vis(i) in AsnReads(s.cfg, i);
    TypeKnown(s, i);
    var item := s.cfg.At(i);
    if item.Symbol? {
      ExprKnown(s, item.rev);
      ExprKnown(s, item.weak);
    }
  }

  lemma {:induction false} FirstVisibleKnown(s: Scope, syms: seq<Id>)
    requires Knows(s, set x | x in syms :: Vis(x))
    ensures s.FirstVisible(syms).Some?
  {
    if syms != [] {
      assert Vis(syms[0]) in (set x | x in syms :: Vis(x));
      FirstVisibleKnown(s, syms[1..]);
    }
  }

  lemma {:induction false} PicksKnown(s: Scope, c: Id, k: nat)
    requires s.cfg.At(c).Choice? && k <= |s.cfg.At(c).picks| && Knows(s, SelReads(s.cfg, c))
    ensures s.FromPicks(s.cfg.At(c), k).Some?
    decreases |s.cfg.At(c).picks| - k
  {
    var item := s.cfg.At(c);
    if k == |item.picks| {
      FirstVisibleKnown(s, item.syms);
    } else {
      assert item.picks[k] in item.picks;
      ExprKnown(s, item.picks[k].cond);
      assert Vis(item.picks[k].body) in SelReads(s.cfg, c);
      PicksKnown(s, c, k + 1);
    }
  }

  lemma SelKnown(s: Scope, c: Id)
    requires Knows(s, SelReads(s.cfg, c)) && Proper(s.cfg, Sel(c)) && UserOk(s.cfg, s.user)
    ensures s.EvalSel(c).Some?
  {
    ModeKnown(s, c);
    PicksKnown(s, c, 0);
    var pick := s.user.Pick(c);
    assert pick.Some? ==> Vis(pick.value) in SelReads(s.cfg, c);
  }

  lemma EvalKnown(s: Scope, f: Facet)
    requires Knows(s, Reads(s.cfg, f)) && Proper(s.cfg, f) && UserOk(s.cfg, s.user)
    ensures s.Eval(f).Some? && Shaped(f, s.Eval(f).value)
  {
    match f
    case Vis(i) => VisKnown(s, i);
    case Tri(i) => TriKnown(s, i);
    case Str(i) => StrKnown(s, i);
    case Asn(i) => AsnKnown(s, i);
    case Sel(i) => SelKnown(s, i);
  }

  /** A facet that some item of the configuration has. */
  predicate Real(cfg: Config, f: Facet) { f.id < |cfg.items| && Proper(cfg, f) }

  lemma {:induction false} ExprReadsReal(cfg: Config, e: Expr, g: Facet)
    requires WellFormed(cfg) && ExprOk(cfg, e) && g in ExprReads(cfg, e)
    ensures Real(cfg, g)
  {
    match e
    case And(l, r) => if g in ExprReads(cfg, l) { ExprReadsReal(cfg, l, g); } else { ExprReadsReal(cfg, r, g); }
    case Or(l, r) => if g in ExprReads(cfg, l) { ExprReadsReal(cfg, l, g); } else { ExprReadsReal(cfg, r, g); }
    case Not(x) => ExprReadsReal(cfg, x, g);
    case _ =>
  }

  lemma CondReadsReal<T>(cfg: Config, ps: seq<Prop<T>>, g: Facet)
    requires WellFormed(cfg) && g in CondReads(cfg, ps) && forall p :: p in ps ==> ExprOk(cfg, p.cond)
    ensures Real(cfg, g)
  {
    var p :| p in ps && g in ExprReads(cfg, p.cond);
    ExprReadsReal(cfg, p.cond, g);
  }

  lemma VisReadsReal(cfg: Config, i: Id, g: Facet)
    requires WellFormed(cfg) && i < |cfg.items| && g in VisReads(cfg, i)
    ensures Real(cfg, g)
  {
    assert WellFormedItem(cfg, i);
    if e :| e in cfg.items[i].prompts && g in ExprReads(cfg, e) { ExprReadsReal(cfg, e, g); }
  }

  lemma DefaultReadsReal(cfg: Config, ps: seq<Prop<Expr>>, g: Facet)
    requires WellFormed(cfg) && g in DefaultReads(cfg, ps)
    requires forall p :: p in ps ==> ExprOk(cfg, p.cond) && ExprOk(cfg, p.body)
    ensures Real(cfg, g)
  {
    if g in CondReads(cfg, ps) {
      CondReadsReal(cfg, ps, g);
    } else {
      var p :| p in ps && g in ExprReads(cfg, p.body);
      ExprReadsReal(cfg, p.body, g);
    }
  }

  lemma DepReadsReal(cfg: Config, item: Item, g: Facet)
    requires WellFormed(cfg) && item.Symbol? && g in DepReads(cfg, item)
    requires ExprOk(cfg, item.rev) && ExprOk(cfg, item.weak) && ExprOk(cfg, item.direct)
    ensures Real(cfg, g)
  {
    if g in ExprReads(cfg, item.rev) { ExprReadsReal(cfg, item.rev, g); }
    else if g in ExprReads(cfg, item.weak) { ExprReadsReal(cfg, item.weak, g); }
    else { ExprReadsReal(cfg, item.direct, g); }
  }

  lemma TriReadsReal(cfg: Config, i: Id, g: Facet)
    requires WellFormed(cfg) && i < |cfg.items| && g in TriReads(cfg, i)
    ensures Real(cfg, g)
  {
    var item := cfg.items[i];
    assert WellFormedItem(cfg, i);
    if g in DefaultReads(cfg, item.defaults) { DefaultReadsReal(cfg, item.defaults, g); }
    else if g in DepReads(cfg, item) { DepReadsReal(cfg, item, g); }
  }

  lemma TextReadsReal(cfg: Config, i: Id, g: Facet)
    requires WellFormed(cfg) && i < |cfg.items| && g in TextReads(cfg, i) && Proper(cfg, Str(i))
    ensures Real(cfg, g)
  {
    var item := cfg.items[i];
    assert WellFormedItem(cfg, i);
    if !item.orig.Logical() {
      if g in CondReads(cfg, item.defaults) {
        CondReadsReal(cfg, item.defaults, g);
      } else if g in CondReads(cfg, item.ranges) {
        CondReadsReal(cfg, item.ranges, g);
      } else if p :| p in item.defaults && p.body.Leaf? && g in StrReads(cfg, p.body.atom) {
        assert ExprOk(cfg, p.body);
      } else if p :| p in item.ranges && g in StrReads(cfg, p.body.low) + StrReads(cfg, p.body.high) {
        assert AtomOk(cfg, p.body.low) && AtomOk(cfg, p.body.high);
      }
    }
  }

  /** Only facets that exist are ever read. */
  lemma ReadsReal(cfg: Config, f: Facet, g: Facet)
    requires WellFormed(cfg) && Real(cfg, f) && g in Reads(cfg, f)
    ensures Real(cfg, g)
  {
    match f
    case Vis(i) => VisReadsReal(cfg, i, g);
    case Tri(i) => TriReadsReal(cfg, i, g);
    case Str(i) => TextReadsReal(cfg, i, g);
    case Asn(i) =>
      var item := cfg.items[i];
      assert WellFormedItem(cfg, i);
      if item.Symbol? && g in ExprReads(cfg, item.rev) { ExprReadsReal(cfg, item.rev, g); }
      else if item.Symbol? && g in ExprReads(cfg, item.weak) { ExprReadsReal(cfg, item.weak, g); }
    case Sel(i) =>
      var item := cfg.items[i];
      assert WellFormedItem(cfg, i);
      if g in CondReads(cfg, item.picks) { CondReadsReal(cfg, item.picks, g); }
  }

  /** Every facet of every item has a value from scratch. */
  lemma {:induction false} ScratchDefined(cfg: Config, u: User, rank: Ranking, f: Facet)
    requires WellFormed(cfg) && UserOk(cfg, u) && Ranked(cfg, rank) && Real(cfg, f)
    ensures Scratch(cfg, u, rank, f).Some? && Shaped(f, Scratch(cfg, u, rank, f).value)
    decreases rank(f)
  {
    var below := Below(cfg, u, rank, f);
    forall g | g in Reads(cfg, f) ensures g in below && Shaped(g, below[g]) {
      ReadsReal(cfg, f, g);
      ScratchDefined(cfg, u, rank, g);
    }
    EvalKnown(Scope(cfg, u, below), f);
  }
}
