/** Which facets the evaluation of a facet may read, and that nothing else matters to it. */
module KconfigReads {
  import opened Basics
  import opened KconfigModel
  import opened KconfigEval

  function AtomReads(cfg: Config, a: Atom): set<Facet> {
    if a.Sym? && cfg.At(a.id).orig.Logical() then {Tri(a.id)} else {}
  }

  function StrReads(cfg: Config, a: Atom): set<Facet> {
    if a.Sym? && cfg.At(a.id).orig != UNKNOWN then {Str(a.id)} else {}
  }

  function ModulesReads(cfg: Config): set<Facet> { AtomReads(cfg, Sym(cfg.modules)) }

  function ModeReads(cfg: Config, c: Id): set<Facet> {
    {Vis(c)} + if cfg.At(c).orig == TRISTATE then ModulesReads(cfg) else {}
  }

  function TypeReads(cfg: Config, i: Id): set<Facet> {
    var item := cfg.At(i);
    if item.orig != TRISTATE then {}
    else ModulesReads(cfg) + if item.Symbol? && item.choice.Some? then ModeReads(cfg, item.choice.value) else {}
  }

  function ExprReads(cfg: Config, e: Expr): set<Facet> {
    match e
    case Leaf(a) => AtomReads(cfg, a)
    case ChoiceMode(c) => ModeReads(cfg, c)
    case And(l, r) => ExprReads(cfg, l) + ExprReads(cfg, r)
    case Or(l, r) => ExprReads(cfg, l) + ExprReads(cfg, r)
    case Not(x) => ExprReads(cfg, x)
    case Compare(_, l, r) => AtomReads(cfg, l) + StrReads(cfg, l) + AtomReads(cfg, r) + StrReads(cfg, r)
  }

  function CondReads<T(==)>(cfg: Config, ps: seq<Prop<T>>): set<Facet> {
    set p, g | p in ps && g in ExprReads(cfg, p.cond) :: g
  }

  function PromptReads(cfg: Config, es: seq<Expr>): set<Facet> {
    set e, g | e in es && g in ExprReads(cfg, e) :: g
  }

  function VisReads(cfg: Config, i: Id): set<Facet> {
    var item := cfg.At(i);
    PromptReads(cfg, item.prompts) + TypeReads(cfg, i)
    + if item.Symbol? && item.choice.Some? then ModeReads(cfg, item.choice.value) else {}
  }

  function DefaultReads(cfg: Config, ps: seq<Prop<Expr>>): set<Facet> {
    CondReads(cfg, ps) + (set p, g | p in ps && g in ExprReads(cfg, p.body) :: g)
  }

  function DepReads(cfg: Config, item: Item): set<Facet>
    requires item.Symbol?
  {
    ExprReads(cfg, item.rev) + ExprReads(cfg, item.weak) + ExprReads(cfg, item.direct)
  }

  function TriReads(cfg: Config, i: Id): set<Facet> {
    var item := cfg.At(i);
    if !item.Symbol? then {}
    else
      {Vis(i)} + TypeReads(cfg, i) + DefaultReads(cfg, item.defaults) + DepReads(cfg, item)
      + if item.choice.Some? then {Sel(item.choice.value)} else {}
  }

  function TextReads(cfg: Config, i: Id): set<Facet> {
    var item := cfg.At(i);
    if !item.Symbol? then {}
    else if item.orig.Logical() then {Tri(i)}
    else
      {Vis(i)} + CondReads(cfg, item.defaults) + CondReads(cfg, item.ranges)
      + (set p, g | p in item.defaults && p.body.Leaf? && g in StrReads(cfg, p.body.atom) :: g)
      + (set p, g | p in item.ranges && g in StrReads(cfg, p.body.low) + StrReads(cfg, p.body.high) :: g)
  }

  function AsnReads(cfg: Config, i: Id): set<Facet> {
    var item := cfg.At(i);
    {Vis(i)} + TypeReads(cfg, i)
    + if item.Symbol? then ExprReads(cfg, item.rev) + ExprReads(cfg, item.weak) else {}
  }

  function SelReads(cfg: Config, c: Id): set<Facet> {
    var item := cfg.At(c);
    if !item.Choice? then {}
    else ModeReads(cfg, c) + CondReads(cfg, item.picks)
         + (set p | p in item.picks :: Vis(p.body)) + (set s | s in item.syms :: Vis(s))
  }

  /** Every facet the evaluation of `f` may look at. */
  function Reads(cfg: Config, f: Facet): set<Facet> {
    match f
    case Vis(i) => VisReads(cfg, i)
    case Tri(i) => TriReads(cfg, i)
    case Str(i) => TextReads(cfg, i)
    case Asn(i) => AsnReads(cfg, i)
    case Sel(i) => SelReads(cfg, i)
  }

  // ---- What a well-formed configuration and user assignment look like ----

  predicate AtomOk(cfg: Config, a: Atom) { a.Sym? ==> cfg.At(a.id).Symbol? }

  /** Symbol references are to symbols, choice references to choices. */
  predicate ExprOk(cfg: Config, e: Expr) {
    match e
    case Leaf(a) => AtomOk(cfg, a)
    case ChoiceMode(c) => cfg.At(c).Choice?
    case And(l, r) => ExprOk(cfg, l) && ExprOk(cfg, r)
    case Or(l, r) => ExprOk(cfg, l) && ExprOk(cfg, r)
    case Not(x) => ExprOk(cfg, x)
    case Compare(_, l, r) => AtomOk(cfg, l) && AtomOk(cfg, r)
  }

  /** Symbols name the choice that lists them, and some condition of a choice symbol mentions its choice:
      the parser ANDs the choice into the conditions of its members before `_build_dep` runs. Choice defaults
      are members. String, int and hex defaults are single symbols, and "" is not a number. */
  ghost predicate WellFormed(cfg: Config) {
    && cfg.At(cfg.modules).Symbol?
    && (forall i :: 0 <= i < |cfg.items| ==> WellFormedItem(cfg, i))
    && (forall b :: cfg.num("", b).None?)
  }

  ghost predicate WellFormedItem(cfg: Config, i: Id)
    requires i < |cfg.items|
  {
    var item := cfg.items[i];
    && (forall e :: e in item.prompts ==> ExprOk(cfg, e))
    && match item
       case Symbol(_, orig, _, defaults, ranges, rev, weak, direct, choice) =>
         && (forall p :: p in defaults ==> ExprOk(cfg, p.cond) && ExprOk(cfg, p.body))
         && (!orig.Logical() ==> forall p :: p in defaults ==> p.body.Leaf?)
         && (forall p :: p in ranges ==> ExprOk(cfg, p.cond) && AtomOk(cfg, p.body.low) && AtomOk(cfg, p.body.high))
         && ExprOk(cfg, rev) && ExprOk(cfg, weak) && ExprOk(cfg, direct)
         && (choice.Some? ==>
               && choice.value < |cfg.items| && cfg.items[choice.value].Choice?
               && i in cfg.items[choice.value].syms
               && choice.value in ItemDependsOn(item))
       case Choice(_, _, _, picks, syms) =>
         && (forall p :: p in picks ==> ExprOk(cfg, p.cond) && p.body in syms)
         && (forall s :: s in syms ==> s < |cfg.items| && cfg.items[s].Symbol?)
  }

  /** What `set_value` lets through: picks are members, and numeric user values are numbers. */
  ghost predicate UserOk(cfg: Config, u: User) {
    && (forall c :: c in u.picked ==> cfg.At(c).Choice? && u.picked[c] in cfg.At(c).syms)
    && (forall i :: i in u.values ==> ValueOk(cfg, cfg.At(i), u.values[i]))
  }

  predicate ValueOk(cfg: Config, item: Item, v: Given) {
    match item.orig
    case BOOL => v == GivenTri(0) || v == GivenTri(2)
    case TRISTATE => v.GivenTri?
    case STRING => v.GivenStr? && item.Symbol?
    case INT => v.GivenStr? && item.Symbol? && cfg.num(v.s, 10).Some?
    case HEX => v.GivenStr? && item.Symbol? && cfg.num(v.s, 16).Some? && cfg.num(v.s, 16).value >= 0
    case UNKNOWN => false
  }

  // ---- Evaluation depends on the facets it reads, and on nothing else ----

  /** `b` knows at least what `a` knows about the facets in `fs`, and agrees on the modes of choices among them. */
  ghost predicate Covers(a: Scope, b: Scope, fs: set<Facet>) {
    && a.cfg == b.cfg
    && (forall g {:trigger g in fs} {:trigger g in a.env} :: g in fs && g in a.env ==> g in b.env && b.env[g] == a.env[g])
    && (forall g :: g in fs && a.cfg.At(g.id).Choice? ==> a.user.Tri(g.id) == b.user.Tri(g.id))
  }

  lemma ModeTransfers(a: Scope, b: Scope, c: Id)
    requires Covers(a, b, ModeReads(a.cfg, c)) && a.Mode(c).Some?
    ensures b.Mode(c) == a.Mode(c)
  {
    assert Vis(c) in ModeReads(a.cfg, c);
  }

  lemma TypeTransfers(a: Scope, b: Scope, i: Id)
    requires Covers(a, b, TypeReads(a.cfg, i)) && a.TypeNow(i).Some?
    ensures b.TypeNow(i) == a.TypeNow(i)
  {
    var item := a.cfg.At(i);
    if item.orig == TRISTATE && item.Symbol? && item.choice.Some? {
      ModeTransfers(a, b, item.choice.value);
    }
  }

  /** `Covers` passes to any smaller set of facets. */
  lemma CoversLess(a: Scope, b: Scope, more: set<Facet>, less: set<Facet>)
    requires Covers(a, b, more) && less <= more
    ensures Covers(a, b, less)
  {}

  lemma AtomStrTransfers(a: Scope, b: Scope, atom: Atom)
    requires Covers(a, b, StrReads(a.cfg, atom)) && a.AtomStr(atom).Some?
    ensures b.AtomStr(atom) == a.AtomStr(atom)
  {}

  lemma AtomNumTransfers(a: Scope, b: Scope, atom: Atom)
    requires Covers(a, b, AtomReads(a.cfg, atom) + StrReads(a.cfg, atom)) && a.AtomNum(atom).Some?
    ensures b.AtomNum(atom) == a.AtomNum(atom)
  {
    if !a.cfg.AtomType(atom).Logical() { AtomStrTransfers(a, b, atom); }
  }

  lemma CompareTransfers(a: Scope, b: Scope, rel: Relation, l: Atom, r: Atom)
    requires Covers(a, b, ExprReads(a.cfg, Compare(rel, l, r))) && a.CompareAtoms(l, r).Some?
    ensures b.CompareAtoms(l, r) == a.CompareAtoms(l, r)
  {
    var all := ExprReads(a.cfg, Compare(rel, l, r));
    CoversLess(a, b, all, AtomReads(a.cfg, l) + StrReads(a.cfg, l));
    CoversLess(a, b, all, AtomReads(a.cfg, r) + StrReads(a.cfg, r));
    if a.AtomStr(l).Some? { AtomStrTransfers(a, b, l); }
    if a.AtomStr(r).Some? { AtomStrTransfers(a, b, r); }
    if a.AtomNum(l).Some? { AtomNumTransfers(a, b, l); }
    if a.AtomNum(r).Some? { AtomNumTransfers(a, b, r); }
  }

  lemma {:induction false} ExprTransfers(a: Scope, b: Scope, e: Expr)
    requires Covers(a, b, ExprReads(a.cfg, e)) && a.ExprVal(e).Some?
    ensures b.ExprVal(e) == a.ExprVal(e)
  {
    match e
    case Leaf(_) =>
    case ChoiceMode(c) => ModeTransfers(a, b, c);
    case And(l, r) =>
      ExprTransfers(a, b, l);
      if a.ExprVal(l).value != 0 { ExprTransfers(a, b, r); }
    case Or(l, r) =>
      ExprTransfers(a, b, l);
      if a.ExprVal(l).value != 2 { ExprTransfers(a, b, r); }
    case Not(x) => ExprTransfers(a, b, x);
    case Compare(rel, l, r) => CompareTransfers(a, b, rel, l, r);
  }

  lemma {:induction false} MaxOfTransfers(a: Scope, b: Scope, es: seq<Expr>)
    requires Covers(a, b, PromptReads(a.cfg, es)) && a.MaxOf(es).Some?
    ensures b.MaxOf(es) == a.MaxOf(es)
  {
    if es != [] {
      MaxOfTransfers(a, b, es[..|es| - 1]);
      assert es[|es| - 1] in es;
      ExprTransfers(a, b, es[|es| - 1]);
    }
  }

  lemma {:induction false} FirstActiveTransfers<T>(a: Scope, b: Scope, ps: seq<Prop<T>>, k: nat)
    requires k <= |ps| && a.FirstActive(ps, k).Some?
    requires forall p :: p in ps ==> Covers(a, b, ExprReads(a.cfg, p.cond))
    ensures b.FirstActive(ps, k) == a.FirstActive(ps, k)
    ensures k <= a.FirstActive(ps, k).value.0 <= |ps|
    decreases |ps| - k
  {
    if k < |ps| {
      ExprTransfers(a, b, ps[k].cond);
      if a.ExprVal(ps[k].cond).value == 0 { FirstActiveTransfers(a, b, ps, k + 1); }
    }
  }

  lemma VisTransfers(a: Scope, b: Scope, i: Id)
    requires Covers(a, b, VisReads(a.cfg, i)) && a.EvalVis(i).Some?
    ensures b.EvalVis(i) == a.EvalVis(i)
  {
    var item := a.cfg.At(i);
    MaxOfTransfers(a, b, item.prompts);
    var vis := a.MaxOf(item.prompts).value;
    if item.Symbol? && item.choice.Some? && a.Mode(item.choice.value).Some? {
      ModeTransfers(a, b, item.choice.value);
    }
    if a.TypeNow(i).Some? { TypeTransfers(a, b, i); }
  }

  lemma FromDefaultsTransfers(a: Scope, b: Scope, i: Id)
    requires a.cfg.At(i).Symbol?
    requires Covers(a, b, TriReads(a.cfg, i)) && a.FromDefaults(a.cfg.At(i)).Some?
    ensures b.FromDefaults(a.cfg.At(i)) == a.FromDefaults(a.cfg.At(i))
  {
    var item := a.cfg.At(i);
    FirstActiveTransfers(a, b, item.defaults, 0);
    var first := a.FirstActive(item.defaults, 0).value;
    if first.0 < |item.defaults| { ExprTransfers(a, b, item.defaults[first.0].body); }
    ExprTransfers(a, b, item.weak);
    if a.ExprVal(item.weak).value != 0 { ExprTransfers(a, b, item.direct); }
  }

  lemma PromoteTransfers(a: Scope, b: Scope, i: Id, val: Tristate)
    requires a.cfg.At(i).Symbol?
    requires Covers(a, b, TriReads(a.cfg, i)) && a.Promote(i, val).Some?
    ensures b.Promote(i, val) == a.Promote(i, val)
  {
    if val == 1 {
      TypeTransfers(a, b, i);
      if a.TypeNow(i).value != BOOL { ExprTransfers(a, b, a.cfg.At(i).weak); }
    }
  }

  lemma TriTransfers(a: Scope, b: Scope, i: Id)
    requires Covers(a, b, TriReads(a.cfg, i)) && a.EvalTri(i).Some?
    requires a.user.Tri(i) == b.user.Tri(i)
    ensures b.EvalTri(i) == a.EvalTri(i)
  {
    var item := a.cfg.At(i);
    assert Vis(i) in TriReads(a.cfg, i);
    var vis := a.GetTri(Vis(i)).value;
    if item.choice.None? {
      if !(vis != 0 && a.user.Tri(i).Some?) { FromDefaultsTransfers(a, b, i); }
      ExprTransfers(a, b, item.rev);
      var base := if vis != 0 && a.user.Tri(i).Some? then Min(a.user.Tri(i).value, vis) else a.FromDefaults(item).value;
      var rev := a.ExprVal(item.rev).value;
      PromoteTransfers(a, b, i, if rev != 0 then Max(rev, base) else base);
    } else {
      assert Sel(item.choice.value) in TriReads(a.cfg, i);
    }
  }

  lemma DefaultStrTransfers(a: Scope, b: Scope, i: Id)
    requires a.cfg.At(i).Symbol? && !a.cfg.At(i).orig.Logical()
    requires Covers(a, b, TextReads(a.cfg, i)) && a.DefaultStr(a.cfg.At(i)).Some?
    ensures b.DefaultStr(a.cfg.At(i)) == a.DefaultStr(a.cfg.At(i))
  {
    var item := a.cfg.At(i);
    forall p | p in item.defaults ensures Covers(a, b, ExprReads(a.cfg, p.cond)) {
      CoversLess(a, b, TextReads(a.cfg, i), ExprReads(a.cfg, p.cond));
    }
    FirstActiveTransfers(a, b, item.defaults, 0);
    var first := a.FirstActive(item.defaults, 0).value;
    if first.0 < |item.defaults| && item.defaults[first.0].body.Leaf? {
      var p := item.defaults[first.0];
      CoversLess(a, b, TextReads(a.cfg, i), StrReads(a.cfg, p.body.atom));
      AtomStrTransfers(a, b, p.body.atom);
    }
  }

  function RangeReads(cfg: Config, p: Prop<Range>): set<Facet> {
    ExprReads(cfg, p.cond) + StrReads(cfg, p.body.low) + StrReads(cfg, p.body.high)
  }

  lemma RangeReadsAreRead(cfg: Config, i: Id, p: Prop<Range>)
    requires cfg.At(i).Symbol? && !cfg.At(i).orig.Logical() && p in cfg.At(i).ranges
    ensures RangeReads(cfg, p) <= TextReads(cfg, i)
  {
    forall g | g in RangeReads(cfg, p) ensures g in TextReads(cfg, i) {
      if g in ExprReads(cfg, p.cond) {
        assert g in CondReads(cfg, cfg.At(i).ranges);
      } else {
        assert g in StrReads(cfg, p.body.low) + StrReads(cfg, p.body.high);
      }
    }
  }

  lemma RangeTransfers(a: Scope, b: Scope, item: Item)
    requires item.Symbol? && a.ActiveRange(item).Some?
    requires forall p :: p in item.ranges ==> Covers(a, b, RangeReads(a.cfg, p))
    ensures b.ActiveRange(item) == a.ActiveRange(item)
  {
    FirstActiveTransfers(a, b, item.ranges, 0);
    var first := a.FirstActive(item.ranges, 0).value;
    if first.0 < |item.ranges| {
      var p := item.ranges[first.0];
      assert Covers(a, b, RangeReads(a.cfg, p));
      AtomStrTransfers(a, b, p.body.low);
      AtomStrTransfers(a, b, p.body.high);
    }
  }

  lemma NumericTransfers(a: Scope, b: Scope, i: Id)
    requires a.cfg.At(i).Symbol? && !a.cfg.At(i).orig.Logical()
    requires Covers(a, b, TextReads(a.cfg, i)) && a.ActiveRange(a.cfg.At(i)).Some?
    ensures b.ActiveRange(a.cfg.At(i)) == a.ActiveRange(a.cfg.At(i))
  {
    forall p | p in a.cfg.At(i).ranges ensures Covers(a, b, RangeReads(a.cfg, p)) {
      RangeReadsAreRead(a.cfg, i, p);
      CoversLess(a, b, TextReads(a.cfg, i), RangeReads(a.cfg, p));
    }
    RangeTransfers(a, b, a.cfg.At(i));
  }

  lemma StrTransfers(a: Scope, b: Scope, i: Id)
    requires Covers(a, b, TextReads(a.cfg, i)) && a.EvalStr(i).Some?
    requires a.user.Str(i) == b.user.Str(i)
    ensures b.EvalStr(i) == a.EvalStr(i)
  {
    var item := a.cfg.At(i);
    if item.orig.Logical() {
      assert Tri(i) in TextReads(a.cfg, i);
    } else {
      assert Vis(i) in TextReads(a.cfg, i);
      if a.DefaultStr(item).Some? { DefaultStrTransfers(a, b, i); }
      if item.orig.Numeric() { NumericTransfers(a, b, i); }
    }
  }

  lemma AsnTransfers(a: Scope, b: Scope, i: Id)
    requires Covers(a, b, AsnReads(a.cfg, i)) && a.EvalAsn(i).Some?
    ensures b.EvalAsn(i) == a.EvalAsn(i)
  {
    var item := a.cfg.At(i);
    assert Vis(i) in AsnReads(a.cfg, i);
    if a.TypeNow(i).Some? { TypeTransfers(a, b, i); }
    if item.Symbol? {
      if a.ExprVal(item.rev).Some? { ExprTransfers(a, b, item.rev); }
      if a.ExprVal(item.weak).Some? { ExprTransfers(a, b, item.weak); }
    }
  }

  lemma {:induction false} FirstVisibleTransfers(a: Scope, b: Scope, syms: seq<Id>)
    requires Covers(a, b, set s | s in syms :: Vis(s)) && a.FirstVisible(syms).Some?
    ensures b.FirstVisible(syms) == a.FirstVisible(syms)
  {
    if syms != [] {
      assert Vis(syms[0]) in (set s | s in syms :: Vis(s));
      if a.GetTri(Vis(syms[0])).value == 0 { FirstVisibleTransfers(a, b, syms[1..]); }
    }
  }

  lemma {:induction false} PicksTransfer(a: Scope, b: Scope, item: Item, k: nat)
    requires item.Choice? && k <= |item.picks| && a.FromPicks(item, k).Some?
    requires forall p :: p in item.picks ==> Covers(a, b, ExprReads(a.cfg, p.cond)) && Covers(a, b, {Vis(p.body)})
    requires Covers(a, b, set s | s in item.syms :: Vis(s))
    ensures b.FromPicks(item, k) == a.FromPicks(item, k)
    decreases |item.picks| - k
  {
    if k == |item.picks| {
      FirstVisibleTransfers(a, b, item.syms);
    } else {
      var p := item.picks[k];
      assert p in item.picks;
      ExprTransfers(a, b, p.cond);
      assert Vis(p.body) in {Vis(p.body)};
      if a.ExprVal(p.cond).value == 0 || a.GetTri(Vis(p.body)).value == 0 { PicksTransfer(a, b, item, k + 1); }
    }
  }

  lemma SelTransfers(a: Scope, b: Scope, c: Id)
    requires Covers(a, b, SelReads(a.cfg, c)) && a.EvalSel(c).Some?
    requires a.user.Pick(c) == b.user.Pick(c) && UserOk(a.cfg, a.user)
    ensures b.EvalSel(c) == a.EvalSel(c)
  {
    ModeTransfers(a, b, c);
    var pick := a.user.Pick(c);
    assert pick.Some? ==> Vis(pick.value) in SelReads(a.cfg, c);
    var item := a.cfg.At(c);
    forall p | p in item.picks ensures Covers(a, b, ExprReads(a.cfg, p.cond)) && Covers(a, b, {Vis(p.body)}) {
      CoversLess(a, b, SelReads(a.cfg, c), ExprReads(a.cfg, p.cond));
      assert Vis(p.body) in SelReads(a.cfg, c);
    }
    if a.FromPicks(item, 0).Some? { PicksTransfer(a, b, item, 0); }
  }

  /** The facets in `Reads`, the item's own user value and the modes of the choices read determine a facet. */
  lemma EvalTransfers(a: Scope, b: Scope, f: Facet)
    requires Covers(a, b, Reads(a.cfg, f)) && a.Eval(f).Some? && UserOk(a.cfg, a.user)
    requires f.Tri? ==> a.user.Tri(f.id) == b.user.Tri(f.id)
    requires f.Str? ==> a.user.Str(f.id) == b.user.Str(f.id)
    requires f.Sel? ==> a.user.Pick(f.id) == b.user.Pick(f.id)
    ensures b.Eval(f) == a.Eval(f)
  {
    match f
    case Vis(i) => VisTransfers(a, b, i);
    case Tri(i) => TriTransfers(a, b, i);
    case Str(i) => StrTransfers(a, b, i);
    case Asn(i) => AsnTransfers(a, b, i);
    case Sel(i) => SelTransfers(a, b, i);
  }

  // ---- Everything read is a dependency ----

  lemma {:induction false} ExprReadIsItem(cfg: Config, e: Expr, g: Facet)
    requires g in ExprReads(cfg, e)
    ensures g.id in ExprItems(e) || g.id == cfg.modules
  {
    match e
    case And(l, r) => if g in ExprReads(cfg, l) { ExprReadIsItem(cfg, l, g); } else { ExprReadIsItem(cfg, r, g); }
    case Or(l, r) => if g in ExprReads(cfg, l) { ExprReadIsItem(cfg, l, g); } else { ExprReadIsItem(cfg, r, g); }
    case Not(x) => ExprReadIsItem(cfg, x, g);
    case _ =>
  }

  lemma CondReadIsItem<T>(cfg: Config, ps: seq<Prop<T>>, g: Facet)
    requires g in CondReads(cfg, ps)
    ensures g.id in CondItems(ps) || g.id == cfg.modules
  {
    var p :| p in ps && g in ExprReads(cfg, p.cond);
    ExprReadIsItem(cfg, p.cond, g);
  }

  lemma PromptReadIsItem(cfg: Config, es: seq<Expr>, g: Facet)
    requires g in PromptReads(cfg, es)
    ensures g.id in ExprsItems(es) || g.id == cfg.modules
  {
    var e :| e in es && g in ExprReads(cfg, e);
    ExprReadIsItem(cfg, e, g);
  }

  lemma VisReadIsItem(cfg: Config, i: Id, g: Facet)
    requires WellFormed(cfg) && i < |cfg.items| && g in VisReads(cfg, i)
    ensures g.id == i || g.id == cfg.modules || g.id in ItemDependsOn(cfg.items[i])
  {
    assert WellFormedItem(cfg, i);
    if g in PromptReads(cfg, cfg.items[i].prompts) { PromptReadIsItem(cfg, cfg.items[i].prompts, g); }
  }

  lemma DefaultReadIsItem(cfg: Config, item: Item, g: Facet)
    requires item.Symbol? && g in DefaultReads(cfg, item.defaults)
    ensures g.id == cfg.modules || g.id in ItemDependsOn(item)
  {
    if g in CondReads(cfg, item.defaults) {
      CondReadIsItem(cfg, item.defaults, g);
    } else {
      var p :| p in item.defaults && g in ExprReads(cfg, p.body);
      ExprReadIsItem(cfg, p.body, g);
    }
  }

  lemma DepReadIsItem(cfg: Config, item: Item, g: Facet)
    requires item.Symbol? && g in DepReads(cfg, item)
    ensures g.id == cfg.modules || g.id in ItemDependsOn(item)
  {
    if g in ExprReads(cfg, item.rev) { ExprReadIsItem(cfg, item.rev, g); }
    else if g in ExprReads(cfg, item.weak) { ExprReadIsItem(cfg, item.weak, g); }
    else { ExprReadIsItem(cfg, item.direct, g); }
  }

  lemma TriReadIsItem(cfg: Config, i: Id, g: Facet)
    requires WellFormed(cfg) && i < |cfg.items| && g in TriReads(cfg, i)
    ensures g.id == i || g.id == cfg.modules || g.id in ItemDependsOn(cfg.items[i])
  {
    var item := cfg.items[i];
    assert WellFormedItem(cfg, i);
    if g in DefaultReads(cfg, item.defaults) { DefaultReadIsItem(cfg, item, g); }
    else if g in DepReads(cfg, item) { DepReadIsItem(cfg, item, g); }
  }

  lemma TextReadIsItem(cfg: Config, i: Id, g: Facet)
    requires WellFormed(cfg) && i < |cfg.items| && g in TextReads(cfg, i)
    ensures g.id == i || g.id == cfg.modules || g.id in ItemDependsOn(cfg.items[i])
  {
    var item := cfg.items[i];
    if item.Symbol? && !item.orig.Logical() {
      if g in CondReads(cfg, item.defaults) {
        CondReadIsItem(cfg, item.defaults, g);
      } else if g in CondReads(cfg, item.ranges) {
        CondReadIsItem(cfg, item.ranges, g);
      } else if g != Vis(i) {
        if p :| p in item.defaults && p.body.Leaf? && g in StrReads(cfg, p.body.atom) {
          assert g.id in ExprItems(p.body);
        } else {
          var p :| p in item.ranges && g in StrReads(cfg, p.body.low) + StrReads(cfg, p.body.high);
          assert g.id in AtomItems(p.body.low) + AtomItems(p.body.high);
        }
      }
    }
  }

  lemma SelReadIsItem(cfg: Config, c: Id, g: Facet)
    requires WellFormed(cfg) && c < |cfg.items| && g in SelReads(cfg, c)
    ensures g.id == c || g.id == cfg.modules || g.id in ItemDependsOn(cfg.items[c])
  {
    var item := cfg.items[c];
    assert WellFormedItem(cfg, c);
    if g in CondReads(cfg, item.picks) {
      CondReadIsItem(cfg, item.picks, g);
    } else if g in (set p | p in item.picks :: Vis(p.body)) {
      var p :| p in item.picks && g == Vis(p.body);
      assert p.body in item.syms;
    }
  }

  /** Everything read belongs to the item itself, to an item it is a dependent of, or to MODULES. */
  lemma ReadsAreDependencies(cfg: Config, f: Facet, g: Facet)
    requires WellFormed(cfg) && f.id < |cfg.items| && g in Reads(cfg, f)
    ensures g.id == f.id || g.id == cfg.modules || g.id in ItemDependsOn(cfg.items[f.id])
  {
    match f
    case Vis(i) => VisReadIsItem(cfg, i, g);
    case Tri(i) => TriReadIsItem(cfg, i, g);
    case Str(i) => TextReadIsItem(cfg, i, g);
    case Asn(i) =>
      var item := cfg.items[i];
      assert WellFormedItem(cfg, i);
      if item.Symbol? && g in ExprReads(cfg, item.rev) { ExprReadIsItem(cfg, item.rev, g); }
      else if item.Symbol? && g in ExprReads(cfg, item.weak) { ExprReadIsItem(cfg, item.weak, g); }
    case Sel(i) => SelReadIsItem(cfg, i, g);
  }
}
