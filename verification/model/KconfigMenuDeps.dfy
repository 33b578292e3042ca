/** What it takes for an item to go into the implicit submenu of a symbol, and what that means for its visibility. */
module KconfigMenuDeps {
  import opened Basics
  import opened KconfigModel
  import opened KconfigEval
  import opened KconfigReads
  import opened KconfigValues

  /** The other side of a comparison with symbol `x`. */
  function Other(l: Atom, r: Atom, x: Id): Option<Atom> {
    if r == Sym(x) then Some(l) else if l == Sym(x) then Some(r) else None
  }

  /** `_expr_depends_on`. */
  predicate DependsOn(e: Expr, x: Id) {
    match e
    case Leaf(a) => a == Sym(x)
    case And(l, r) => DependsOn(l, x) || DependsOn(r, x)
    case Compare(rel, l, r) =>
      var a := Other(l, r, x);
      && (rel == EQUAL || rel == UNEQUAL) && a.Some?
      && ((rel == EQUAL && a.value == Nmy(1)) || a.value == Nmy(2) || (rel == UNEQUAL && a.value == Nmy(0)))
    case _ => false
  }

  /** All that is asked about `x` is that it is not y, which holds while `x` is n. */
  predicate AllowsOff(e: Expr, x: Id) {
    match e
    case And(l, r) => (DependsOn(l, x) ==> AllowsOff(l, x)) && (DependsOn(r, x) ==> AllowsOff(r, x))
    case Compare(rel, l, r) => rel == UNEQUAL && Other(l, r, x) == Some(Nmy(2))
    case _ => false
  }

  /** A comparison of a bool or tristate with a constant, written either way. */
  lemma ConstantCompared(s: Scope, rel: Relation, l: Atom, r: Atom, x: Id, t: Tristate)
    requires Complete(s) && s.cfg.At(x).Symbol? && s.cfg.At(x).orig.Logical()
    requires (rel == EQUAL || rel == UNEQUAL) && Other(l, r, x) == Some(Nmy(t))
    ensures ValOf(s, Compare(rel, l, r)) == if (rel == EQUAL) == (TriOf(s, x) == t) then 2 else 0
  {
    CompareLaw(s, rel, l, r);
    ExprLaw(s, Leaf(Sym(x)));
    ExprLaw(s, Leaf(Nmy(t)));
  }

  /** A condition that depends on a symbol is n while the symbol is n, unless it only asks that the symbol is not y. */
  lemma {:induction false} OffHides(s: Scope, e: Expr, x: Id)
    requires Complete(s) && ExprOk(s.cfg, e) && s.cfg.At(x).Symbol? && s.cfg.At(x).orig.Logical()
    requires DependsOn(e, x) && !AllowsOff(e, x) && TriOf(s, x) == 0
    ensures ValOf(s, e) == 0
  {
    ExprLaw(s, e);
    match e
    case And(l, r) => OffHides(s, if DependsOn(l, x) && !AllowsOff(l, x) then l else r, x);
    case Compare(rel, l, r) => ConstantCompared(s, rel, l, r, x, Other(l, r, x).value.t);
    case _ =>
  }

  /** Such a condition counts as a dependency and holds while the symbol is n. */
  lemma NotYesShows(s: Scope, x: Id)
    requires Complete(s) && s.cfg.At(x).Symbol? && s.cfg.At(x).orig.Logical() && TriOf(s, x) == 0
    ensures DependsOn(Compare(UNEQUAL, Sym(x), Nmy(2)), x) && ValOf(s, Compare(UNEQUAL, Sym(x), Nmy(2))) == 2
  {
    ConstantCompared(s, UNEQUAL, Sym(x), Nmy(2), x, 2);
  }
}
