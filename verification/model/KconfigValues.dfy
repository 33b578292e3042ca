/** What the values of a configuration are, said item by item for all values at once: the rules of the language. */
module KconfigValues {
  import opened Basics
  import opened KconfigModel
  import opened KconfigEval
  import opened KconfigReads
  import opened KconfigScratch
  import opened KconfigCache
  import opened KconfigChoice
  import opened KconfigAssignable
  import KconfigPropagate

  // ---- All values at once ----

  /** Every item has its values, and each follows from the others. */
  ghost predicate Complete(s: Scope) {
    && WellFormed(s.cfg) && UserOk(s.cfg, s.user) && Justified(s.cfg, s.user, s.env)
    && forall f :: Real(s.cfg, f) ==> f in s.env && Shaped(f, s.env[f])
  }

  lemma ScratchComplete(cfg: Config, u: User, rank: Ranking)
    requires WellFormed(cfg) && UserOk(cfg, u) && Ranked(cfg, rank)
    ensures Complete(Values(cfg, u, rank))
  {
    FullJustified(cfg, u, rank);
    forall f | Real(cfg, f) ensures f in Full(cfg, u, rank) && Shaped(f, Full(cfg, u, rank)[f]) {
      FullHolds(cfg, u, rank, f);
    }
  }

  /** The value of an expression, without short circuits. */
  function ValOf(s: Scope, e: Expr): Tristate { KconfigPropagate.Completed(s).Of(e) }

  function VisOf(s: Scope, i: Id): Tristate { if s.GetTri(Vis(i)).Some? then s.GetTri(Vis(i)).value else 0 }

  function TriOf(s: Scope, i: Id): Tristate { if s.GetTri(Tri(i)).Some? then s.GetTri(Tri(i)).value else 0 }

  function StrOf(s: Scope, i: Id): string { if s.GetStr(Str(i)).Some? then s.GetStr(Str(i)).value else "" }

  function SelOf(s: Scope, c: Id): Option<Id> { if s.GetSel(c).Some? then s.GetSel(c).value else None }

  function ModeOf(s: Scope, c: Id): Tristate { KconfigPropagate.Completed(s).mode(c) }

  lemma ExprValued(s: Scope, e: Expr)
    requires Complete(s) && ExprOk(s.cfg, e)
    ensures s.ExprVal(e) == Some(ValOf(s, e))
  {
    forall g | g in ExprReads(s.cfg, e) ensures g in s.env && Shaped(g, s.env[g]) { ExprReadsReal(s.cfg, e, g); }
    ExprKnown(s, e);
    KconfigPropagate.ShortCircuitsAgree(s, e);
  }

  /** Modules are off, or the item is in a choice in y mode: a tristate is a bool. */
  function CurrentType(s: Scope, i: Id): Type {
    var item := s.cfg.At(i);
    if item.orig != TRISTATE then item.orig
    else if (item.Symbol? && item.choice.Some? && ModeOf(s, item.choice.value) == 2)
            || ValOf(s, Leaf(Sym(s.cfg.modules))) == 0 then BOOL
    else TRISTATE
  }

  lemma ModeValued(s: Scope, c: Id)
    requires Complete(s) && s.cfg.At(c).Choice?
    ensures s.Mode(c) == Some(ModeOf(s, c))
  {
    ExprValued(s, ChoiceMode(c));
  }

  lemma TypeValued(s: Scope, i: Id)
    requires Complete(s)
    ensures s.TypeNow(i) == Some(CurrentType(s, i))
  {
    var item := s.cfg.At(i);
    ExprValued(s, Leaf(Sym(s.cfg.modules)));
    if item.orig == TRISTATE && item.Symbol? && item.choice.Some? {
      assert WellFormedItem(s.cfg, i);
      ModeValued(s, item.choice.value);
    }
  }

  // ---- Properties ----

  /** The conditions before position `k` are n, and that at `k`, if there is one, is not. */
  ghost predicate ActiveAt<T(!new)>(s: Scope, ps: seq<Prop<T>>, k: nat) {
    && k <= |ps|
    && (forall j :: 0 <= j < k ==> ValOf(s, ps[j].cond) == 0)
    && (k < |ps| ==> ValOf(s, ps[k].cond) != 0)
  }

  ghost predicate ConditionsOk<T(!new)>(s: Scope, ps: seq<Prop<T>>) {
    forall j :: 0 <= j < |ps| ==> ExprOk(s.cfg, ps[j].cond)
  }

  lemma {:induction false} ActiveFound<T(!new)>(s: Scope, ps: seq<Prop<T>>, k: nat, j: nat)
    requires Complete(s) && ConditionsOk(s, ps) && ActiveAt(s, ps, k) && j <= k
    ensures s.FirstActive(ps, j) == Some((k, if k < |ps| then ValOf(s, ps[k].cond) else 0))
    decreases k - j
  {
    if j < |ps| { ExprValued(s, ps[j].cond); }
    if j < k { ActiveFound(s, ps, k, j + 1); }
  }

  /** There always is such a position. */
  lemma {:induction false} SomeActive<T(!new)>(s: Scope, ps: seq<Prop<T>>, from: nat) returns (k: nat)
    requires from <= |ps| && forall j :: 0 <= j < from ==> ValOf(s, ps[j].cond) == 0
    ensures ActiveAt(s, ps, k)
    decreases |ps| - from
  {
    k := from;
    if from < |ps| && ValOf(s, ps[from].cond) == 0 { k := SomeActive(s, ps, from + 1); }
  }

  // ---- Tristate values ----

  /** The value of the default that is in force, limited by its condition; n if there is none. */
  function DefaultOf(s: Scope, defaults: seq<Prop<Expr>>, k: nat): Tristate {
    if k < |defaults| then Min(ValOf(s, defaults[k].body), ValOf(s, defaults[k].cond)) else 0
  }

  /** An imply raises a default where the direct dependencies allow it. */
  function Implied(dflt: Tristate, weak: Tristate, direct: Tristate): Tristate {
    if direct != 0 then Max(dflt, weak) else dflt
  }

  /** A value that the user gave, as far as visibility allows, or the default. */
  function Chosen(given: Option<Tristate>, vis: Tristate, dflt: Tristate): Tristate {
    if given.Some? && vis != 0 then Min(given.value, vis) else dflt
  }

  /** A bool that would be m is y. */
  function Raised(x: Tristate, noMiddle: bool): Tristate { if x == 1 && noMiddle then 2 else x }

  /** One step, from the numbers that it needs. */
  lemma TriFromParts(s: Scope, i: Id, vis: Tristate, rev: Tristate, weak: Tristate, direct: Tristate, dflt: Tristate, t: Type)
    requires s.cfg.At(i).Symbol? && s.cfg.At(i).orig.Logical() && s.cfg.At(i).choice.None?
    requires var item := s.cfg.At(i);
             && s.GetTri(Vis(i)) == Some(vis) && s.ExprVal(item.rev) == Some(rev) && s.ExprVal(item.weak) == Some(weak)
             && s.ExprVal(item.direct) == Some(direct) && s.TypeNow(i) == Some(t)
             && s.FirstActive(item.defaults, 0).Some?
             && s.DefaultAt(item, s.FirstActive(item.defaults, 0).value) == Some(dflt)
    ensures s.EvalTri(i) == Some(Raised(Max(Chosen(s.user.Tri(i), vis, Implied(dflt, weak, direct)), rev),
                                        t == BOOL || weak == 2))
  {
  }

  lemma TriEquation(s: Scope, i: Id)
    requires Complete(s) && Real(s.cfg, Tri(i))
    ensures s.EvalTri(i) == Some(TriOf(s, i))
    ensures s.GetTri(Vis(i)) == Some(VisOf(s, i))
  {
    assert Real(s.cfg, Vis(i)) && Rederived(s.cfg, s.user, s.env, Tri(i));
  }

  lemma PartsValued(s: Scope, i: Id, k: nat)
    requires Complete(s) && Real(s.cfg, Tri(i)) && ActiveAt(s, s.cfg.items[i].defaults, k)
    ensures var item := s.cfg.items[i];
            && s.ExprVal(item.rev) == Some(ValOf(s, item.rev)) && s.ExprVal(item.weak) == Some(ValOf(s, item.weak))
            && s.ExprVal(item.direct) == Some(ValOf(s, item.direct)) && s.TypeNow(i) == Some(CurrentType(s, i))
            && s.FirstActive(item.defaults, 0) ==
               Some((k, if k < |item.defaults| then ValOf(s, item.defaults[k].cond) else 0))
            && (k < |item.defaults| ==> s.ExprVal(item.defaults[k].body) == Some(ValOf(s, item.defaults[k].body)))
  {
    var item := s.cfg.items[i];
    assert WellFormedItem(s.cfg, i);
    ExprValued(s, item.rev);
    ExprValued(s, item.weak);
    ExprValued(s, item.direct);
    TypeValued(s, i);
    forall j | 0 <= j < |item.defaults| ensures ExprOk(s.cfg, item.defaults[j].cond) {
      assert item.defaults[j] in item.defaults;
    }
    ActiveFound(s, item.defaults, k, 0);
    if k < |item.defaults| {
      assert item.defaults[k] in item.defaults;
      ExprValued(s, item.defaults[k].body);
    }
  }

  /**
   * A bool or tristate outside choices: what the user gave as far as it is visible, or else the first default whose
   * condition is not n, limited by that condition and raised by implies; at least what selects demand; and y for m where
   * there is no m.
   */
  lemma TriLaw(s: Scope, i: Id, k: nat)
    requires Complete(s) && Real(s.cfg, Tri(i)) && s.cfg.items[i].choice.None?
    requires ActiveAt(s, s.cfg.items[i].defaults, k)
    ensures var item := s.cfg.items[i];
            var weak := ValOf(s, item.weak);
            var dflt := Implied(DefaultOf(s, item.defaults, k), weak, ValOf(s, item.direct));
            TriOf(s, i) == Raised(Max(Chosen(s.user.Tri(i), VisOf(s, i), dflt), ValOf(s, item.rev)),
                                  CurrentType(s, i) == BOOL || weak == 2)
  {
    var item := s.cfg.items[i];
    TriEquation(s, i);
    PartsValued(s, i, k);
    TriFromParts(s, i, VisOf(s, i), ValOf(s, item.rev), ValOf(s, item.weak), ValOf(s, item.direct),
                 DefaultOf(s, item.defaults, k), CurrentType(s, i));
  }

  /** From scratch, a symbol that nothing but its defaults decides. */
  lemma DefaultDecides(cfg: Config, u: User, rank: Ranking, i: Id, k: nat)
    requires WellFormed(cfg) && UserOk(cfg, u) && Ranked(cfg, rank)
    requires Real(cfg, Tri(i)) && cfg.items[i].choice.None?
    requires var s := Values(cfg, u, rank);
             && (VisOf(s, i) == 0 || u.Tri(i).None?)
             && ValOf(s, cfg.items[i].rev) == 0 && ValOf(s, cfg.items[i].weak) == 0
             && ActiveAt(s, cfg.items[i].defaults, k)
    ensures var s, defaults := Values(cfg, u, rank), cfg.items[i].defaults;
            if k == |defaults| then TriOf(s, i) == 0
            else
              var x := Min(ValOf(s, defaults[k].body), ValOf(s, defaults[k].cond));
              TriOf(s, i) == if x == 1 && CurrentType(s, i) == BOOL then 2 else x
  {
    ScratchComplete(cfg, u, rank);
    TriLaw(Values(cfg, u, rank), i, k);
  }

  // ---- Visibility ----

  /** The largest of the values of some expressions, n without any. */
  ghost predicate Largest(s: Scope, es: seq<Expr>, m: Tristate) {
    (forall j :: 0 <= j < |es| ==> ValOf(s, es[j]) <= m) && (m == 0 || exists j :: 0 <= j < |es| && ValOf(s, es[j]) == m)
  }

  lemma {:induction false} LargestFound(s: Scope, es: seq<Expr>, m: Tristate)
    requires Complete(s) && (forall e :: e in es ==> ExprOk(s.cfg, e)) && Largest(s, es, m)
    ensures s.MaxOf(es) == Some(m)
    decreases |es|
  {
    if es != [] {
      var n := |es| - 1;
      assert es[n] in es;
      ExprValued(s, es[n]);
      var rest := es[..n];
      if Largest(s, rest, m) {
        LargestFound(s, rest, m);
      } else {
        var j :| 0 <= j < |es| && ValOf(s, es[j]) == m;
        assert j == n;
        LargestBelow(s, rest, m);
      }
    }
  }

  /** Values that stay below `m` have a maximum below it. */
  lemma {:induction false} LargestBelow(s: Scope, es: seq<Expr>, m: Tristate)
    requires Complete(s) && (forall e :: e in es ==> ExprOk(s.cfg, e)) && forall j :: 0 <= j < |es| ==> ValOf(s, es[j]) <= m
    ensures s.MaxOf(es).Some? && s.MaxOf(es).value <= m
    decreases |es|
  {
    if es != [] {
      var n := |es| - 1;
      assert es[n] in es;
      ExprValued(s, es[n]);
      LargestBelow(s, es[..n], m);
    }
  }

  /** A member of a choice that the mode of the choice hides: only tristates have a middle. */
  predicate ModeHides(s: Scope, item: Item, m: Tristate) {
    && item.Symbol? && item.choice.Some?
    && (if item.orig == TRISTATE then m == 1 && ModeOf(s, item.choice.value) == 2
        else s.cfg.At(item.choice.value).orig == TRISTATE && ModeOf(s, item.choice.value) != 2)
  }

  /** Visibility is the largest of the prompt conditions, y for m unless the current type is tristate. */
  lemma VisLaw(s: Scope, i: Id, m: Tristate)
    requires Complete(s) && Real(s.cfg, Vis(i)) && Largest(s, s.cfg.items[i].prompts, m)
    ensures VisOf(s, i) ==
            if ModeHides(s, s.cfg.items[i], m) then 0 else Raised(m, CurrentType(s, i) != TRISTATE)
  {
    var item := s.cfg.items[i];
    assert Rederived(s.cfg, s.user, s.env, Vis(i)) && WellFormedItem(s.cfg, i);
    LargestFound(s, item.prompts, m);
    TypeValued(s, i);
    if item.Symbol? && item.choice.Some? { ModeValued(s, item.choice.value); }
  }

  // ---- Choices ----

  /** The mode of a choice: what the user gave, but not n for one that is not optional, as far as it is visible. */
  lemma ModeLaw(s: Scope, c: Id)
    requires Complete(s) && c < |s.cfg.items| && s.cfg.items[c].Choice?
    ensures var given := s.user.Tri(c);
            var wanted := Max(if s.cfg.items[c].optional then 0 else 1, if given.Some? then given.value else 0);
            ModeOf(s, c) == Raised(Min(wanted, VisOf(s, c)), CurrentType(s, c) == BOOL)
  {
    assert Real(s.cfg, Vis(c));
    ModeValued(s, c);
    TypeValued(s, c);
    ExprValued(s, Leaf(Sym(s.cfg.modules)));
  }

  /** Default `k` of a choice is the first whose condition is not n and whose symbol is visible. */
  ghost predicate PickedAt(s: Scope, picks: seq<Prop<Id>>, k: nat) {
    && k <= |picks|
    && (forall j :: 0 <= j < k ==> ValOf(s, picks[j].cond) == 0 || VisOf(s, picks[j].body) == 0)
    && (k < |picks| ==> ValOf(s, picks[k].cond) != 0 && VisOf(s, picks[k].body) != 0)
  }

  /** Member `k` is the first that is visible. */
  ghost predicate VisibleAt(s: Scope, syms: seq<Id>, k: nat) {
    && k <= |syms|
    && (forall j :: 0 <= j < k ==> VisOf(s, syms[j]) == 0)
    && (k < |syms| ==> VisOf(s, syms[k]) != 0)
  }

  /** The selection that the defaults give, or else the first visible member. */
  function FromDefaultsOf(item: Item, k: nat, j: nat): Option<Id>
    requires item.Choice?
  {
    if k < |item.picks| then Some(item.picks[k].body) else if j < |item.syms| then Some(item.syms[j]) else None
  }

  lemma MemberVisValued(s: Scope, c: Id, x: Id)
    requires Complete(s) && c < |s.cfg.items| && s.cfg.items[c].Choice? && x in s.cfg.items[c].syms
    ensures s.GetTri(Vis(x)) == Some(VisOf(s, x))
  {
    assert WellFormedItem(s.cfg, c);
    assert Real(s.cfg, Vis(x));
  }

  lemma {:induction false} VisibleFound(s: Scope, c: Id, from: nat, j: nat)
    requires Complete(s) && c < |s.cfg.items| && s.cfg.items[c].Choice?
    requires VisibleAt(s, s.cfg.items[c].syms, j) && from <= j
    ensures s.FirstVisible(s.cfg.items[c].syms[from..]) ==
            Some(if j < |s.cfg.items[c].syms| then Some(s.cfg.items[c].syms[j]) else None)
    decreases j - from
  {
    var syms := s.cfg.items[c].syms;
    if from < |syms| {
      MemberVisValued(s, c, syms[from]);
      assert syms[from..][1..] == syms[from + 1..];
      if from < j { VisibleFound(s, c, from + 1, j); }
    }
  }

  lemma PickValued(s: Scope, c: Id, k: nat)
    requires Complete(s) && c < |s.cfg.items| && s.cfg.items[c].Choice? && k < |s.cfg.items[c].picks|
    ensures var p := s.cfg.items[c].picks[k];
            s.ExprVal(p.cond) == Some(ValOf(s, p.cond)) && s.GetTri(Vis(p.body)) == Some(VisOf(s, p.body))
  {
    var item := s.cfg.items[c];
    assert WellFormedItem(s.cfg, c) && item.picks[k] in item.picks;
    ExprValued(s, item.picks[k].cond);
    MemberVisValued(s, c, item.picks[k].body);
  }

  lemma {:induction false} PickFound(s: Scope, c: Id, from: nat, k: nat, j: nat)
    requires Complete(s) && c < |s.cfg.items| && s.cfg.items[c].Choice?
    requires PickedAt(s, s.cfg.items[c].picks, k) && VisibleAt(s, s.cfg.items[c].syms, j) && from <= k
    ensures s.FromPicks(s.cfg.items[c], from) == Some(FromDefaultsOf(s.cfg.items[c], k, j))
    decreases k - from
  {
    var item := s.cfg.items[c];
    if from == |item.picks| {
      VisibleFound(s, c, 0, j);
      assert item.syms[0..] == item.syms;
    } else {
      PickValued(s, c, from);
      if from < k { PickFound(s, c, from + 1, k, j); }
    }
  }

  /** In y mode the user's selection counts if it is visible, and else the one from the defaults; in no other mode is
      there a selection. */
  lemma SelectionLaw(s: Scope, c: Id, k: nat, j: nat)
    requires Complete(s) && Real(s.cfg, Sel(c))
    requires PickedAt(s, s.cfg.items[c].picks, k) && VisibleAt(s, s.cfg.items[c].syms, j)
    ensures var pick := s.user.Pick(c);
            SelOf(s, c) == if ModeOf(s, c) != 2 then None
                           else if pick.Some? && VisOf(s, pick.value) != 0 then pick
                           else FromDefaultsOf(s.cfg.items[c], k, j)
  {
    assert Rederived(s.cfg, s.user, s.env, Sel(c));
    ModeValued(s, c);
    PickFound(s, c, 0, k, j);
    if s.user.Pick(c).Some? { MemberVisValued(s, c, s.user.Pick(c).value); }
  }

  /** A member is y if it is visible as y and selected, and m if it is visible as m and the user gave it a value. */
  lemma MemberLaw(s: Scope, i: Id)
    requires Complete(s) && Real(s.cfg, Tri(i)) && s.cfg.items[i].choice.Some?
    ensures var given := s.user.Tri(i);
            TriOf(s, i) == if VisOf(s, i) == 2 then if SelOf(s, s.cfg.items[i].choice.value) == Some(i) then 2 else 0
                           else if VisOf(s, i) == 1 && given.Some? && given.value != 0 then 1 else 0
  {
    TriEquation(s, i);
    assert WellFormedItem(s.cfg, i);
    assert Real(s.cfg, Sel(s.cfg.items[i].choice.value));
  }

  /** From scratch, `unset_value` of a choice leaves it with the mode and the selection of its defaults. */
  lemma UnsetChoiceLaw(cfg: Config, u: User, rank: Ranking, c: Id, k: nat, j: nat)
    requires WellFormed(cfg) && UserOk(cfg, u) && Ranked(cfg, rank) && Real(cfg, Sel(c))
    requires var s := Values(cfg, UserAfter(cfg, u, UnsetChoice(c)), rank);
             PickedAt(s, cfg.items[c].picks, k) && VisibleAt(s, cfg.items[c].syms, j)
    ensures var s := Values(cfg, UserAfter(cfg, u, UnsetChoice(c)), rank);
            var wanted := if cfg.items[c].optional then 0 else 1;
            && ModeOf(s, c) == Raised(Min(wanted, VisOf(s, c)), CurrentType(s, c) == BOOL)
            && SelOf(s, c) == if ModeOf(s, c) == 2 then FromDefaultsOf(cfg.items[c], k, j) else None
  {
    var v := UserAfter(cfg, u, UnsetChoice(c));
    assert UserOk(cfg, v);
    ScratchComplete(cfg, v, rank);
    ModeLaw(Values(cfg, v, rank), c);
    SelectionLaw(Values(cfg, v, rank), c, k, j);
  }

  // ---- Assignable values ----

  /** The values that are offered come in ascending order; none are offered exactly if the item is invisible. */
  lemma OfferedLaw(s: Scope, i: Id)
    requires Complete(s) && Real(s.cfg, Asn(i))
    ensures Offered(s, i).Some?
    ensures var offered := Offered(s, i).value;
            && (offered == [] <==> VisOf(s, i) == 0)
            && forall j, k :: 0 <= j < k < |offered| ==> offered[j] < offered[k]
  {
    assert Real(s.cfg, Vis(i)) && Rederived(s.cfg, s.user, s.env, Asn(i));
  }

  /** The values that fit a type: a bool is never m, and a hex number not negative. */
  predicate FitsType(cfg: Config, t: Type, v: Given) {
    match v
    case GivenTri(x) => t.Logical() && (x == 1 ==> t == TRISTATE)
    case GivenStr(text) =>
      var n := cfg.num(text, t.Base());
      t == STRING || (t.Numeric() && n.Some? && (n.value < 0 ==> t == INT))
  }

  /** From scratch, `set_value` accepts exactly the values that fit the type of the symbol, and keeps only those. */
  lemma AcceptLaw(cfg: Config, u: User, rank: Ranking, i: Id, v: Given)
    requires Ranked(cfg, rank) && cfg.At(i).Symbol?
    ensures Observed(cfg, rank, u, SetSym(i, v)) == Some(Accepted(FitsType(cfg, cfg.At(i).orig, v)))
    ensures var w := UserAfter(cfg, u, SetSym(i, v));
            if FitsType(cfg, cfg.At(i).orig, v) then w.values == u.values[i := v] else w == u
  {
  }

  // ---- Texts ----

  /** The text of a symbol or a constant. */
  function TextOf(s: Scope, a: Atom): string {
    match a
    case Sym(i) =>
      if s.cfg.At(i).orig != UNKNOWN then StrOf(s, i) else if s.cfg.At(i).Symbol? then s.cfg.At(i).name else ""
    case Nmy(t) => if t == 0 then "n" else if t == 1 then "m" else "y"
    case Quoted(text) => text
  }

  lemma TextValued(s: Scope, a: Atom)
    requires Complete(s) && AtomOk(s.cfg, a)
    ensures s.AtomStr(a) == Some(TextOf(s, a))
  {
    if a.Sym? && s.cfg.At(a.id).orig != UNKNOWN { assert Real(s.cfg, Str(a.id)); }
  }

  /** The text of the default that is in force, "" without one. */
  function DefaultText(s: Scope, defaults: seq<Prop<Expr>>, k: nat): string {
    if k < |defaults| && defaults[k].body.Leaf? then TextOf(s, defaults[k].body.atom) else ""
  }

  lemma DefaultTextValued(s: Scope, i: Id, k: nat)
    requires Complete(s) && Real(s.cfg, Str(i)) && ActiveAt(s, s.cfg.items[i].defaults, k)
    ensures s.DefaultStr(s.cfg.items[i]) == Some(DefaultText(s, s.cfg.items[i].defaults, k))
  {
    var defaults := s.cfg.items[i].defaults;
    assert WellFormedItem(s.cfg, i);
    forall j | 0 <= j < |defaults| ensures ExprOk(s.cfg, defaults[j].cond) && ExprOk(s.cfg, defaults[j].body) {
      assert defaults[j] in defaults;
    }
    ActiveFound(s, defaults, k, 0);
    if k < |defaults| && defaults[k].body.Leaf? { TextValued(s, defaults[k].body.atom); }
  }

  lemma StrEquation(s: Scope, i: Id)
    requires Complete(s) && Real(s.cfg, Str(i))
    ensures s.EvalStr(i) == Some(StrOf(s, i)) && s.GetTri(Vis(i)) == Some(VisOf(s, i))
    ensures s.cfg.items[i].orig.Logical() ==> s.GetTri(Tri(i)) == Some(TriOf(s, i))
  {
    assert Real(s.cfg, Vis(i)) && Rederived(s.cfg, s.user, s.env, Str(i));
    if s.cfg.items[i].orig.Logical() { assert Real(s.cfg, Tri(i)); }
  }

  /** The text of a bool or tristate is its value; a string is what the user gave if it is visible, or its default. */
  lemma StringLaw(s: Scope, i: Id, k: nat)
    requires Complete(s) && Real(s.cfg, Str(i)) && !s.cfg.items[i].orig.Numeric()
    requires ActiveAt(s, s.cfg.items[i].defaults, k)
    ensures var given := s.user.Str(i);
            StrOf(s, i) == if s.cfg.items[i].orig.Logical() then TextOf(s, Nmy(TriOf(s, i)))
                           else if given.Some? && VisOf(s, i) != 0 then given.value
                           else DefaultText(s, s.cfg.items[i].defaults, k)
  {
    StrEquation(s, i);
    DefaultTextValued(s, i, k);
  }

  /** The bounds of the range that is in force. */
  function BoundsOf(s: Scope, item: Item, r: nat): (int, int)
    requires item.Symbol? && r < |item.ranges|
  {
    (s.cfg.Numeral(TextOf(s, item.ranges[r].body.low), item.orig),
     s.cfg.Numeral(TextOf(s, item.ranges[r].body.high), item.orig))
  }

  lemma BoundsValued(s: Scope, i: Id, r: nat)
    requires Complete(s) && Real(s.cfg, Str(i)) && ActiveAt(s, s.cfg.items[i].ranges, r)
    ensures s.ActiveRange(s.cfg.items[i]) ==
            Some(if r < |s.cfg.items[i].ranges| then Some(BoundsOf(s, s.cfg.items[i], r)) else None)
  {
    var ranges := s.cfg.items[i].ranges;
    assert WellFormedItem(s.cfg, i);
    forall j | 0 <= j < |ranges|
      ensures ExprOk(s.cfg, ranges[j].cond) && AtomOk(s.cfg, ranges[j].body.low) && AtomOk(s.cfg, ranges[j].body.high)
    {
      assert ranges[j] in ranges;
    }
    ActiveFound(s, ranges, r, 0);
    if r < |ranges| {
      TextValued(s, ranges[r].body.low);
      TextValued(s, ranges[r].body.high);
    }
  }

  /** A number is brought into the range, and written out only if that changes it. */
  function Fitted(cfg: Config, t: Type, bounds: (int, int), text: string): string {
    var n := cfg.Numeral(text, t);
    if n < bounds.0 then cfg.show(bounds.0, t == HEX) else if n > bounds.1 then cfg.show(bounds.1, t == HEX) else text
  }

  /** An int or hex symbol: what the user gave if it is visible and within the active range, or else its default,
      brought into the range. */
  lemma NumberLaw(s: Scope, i: Id, k: nat, r: nat)
    requires Complete(s) && Real(s.cfg, Str(i)) && s.cfg.items[i].orig.Numeric()
    requires ActiveAt(s, s.cfg.items[i].defaults, k) && ActiveAt(s, s.cfg.items[i].ranges, r)
    ensures var item, given := s.cfg.items[i], s.user.Str(i);
            var dflt := DefaultText(s, item.defaults, k);
            if r == |item.ranges| then
              StrOf(s, i) == if given.Some? && given.value != "" && VisOf(s, i) != 0 then given.value else dflt
            else
              var bounds := BoundsOf(s, item, r);
              StrOf(s, i) ==
              if given.Some? && given.value != "" && VisOf(s, i) != 0
                 && bounds.0 <= s.cfg.Numeral(given.value, item.orig) <= bounds.1
              then given.value else Fitted(s.cfg, item.orig, bounds, dflt)
  {
    StrEquation(s, i);
    DefaultTextValued(s, i, k);
    BoundsValued(s, i, r);
  }

  // ---- Comparisons ----

  /** `a` comes before `b` in the order of code points. */
  ghost predicate Precedes(a: string, b: string) {
    exists k :: Differ(a, b, k) && (k == |a| || (k < |b| && a[k] < b[k]))
  }

  /** The strings are the same up to position `k`, and not beyond. */
  predicate Differ(a: string, b: string, k: int) {
    && 0 <= k <= |a| && k <= |b| && (forall i :: 0 <= i < k ==> a[i] == b[i])
    && (if k < |a| && k < |b| then a[k] != b[k] else |a| != |b|)
  }

  lemma {:induction false} StrCmpMeans(a: string, b: string) returns (k: int)
    ensures StrCmp(a, b) == 0 <==> a == b
    ensures StrCmp(a, b) != 0 ==> Differ(a, b, k) && (StrCmp(a, b) < 0 <==> k == |a| || (k < |b| && a[k] < b[k]))
  {
    k := 0;
    if a != [] && b != [] && a[0] == b[0] {
      var j := StrCmpMeans(a[1..], b[1..]);
      if StrCmp(a, b) == 0 {
        assert a == [a[0]] + a[1..] && b == [b[0]] + b[1..];
      } else {
        k := j + 1;
        forall i | 0 < i < k ensures a[i] == b[i] { assert a[1..][i - 1] == b[1..][i - 1]; }
      }
    }
  }

  lemma DifferOnce(a: string, b: string, k: int, j: int)
    requires Differ(a, b, k) && Differ(a, b, j)
    ensures k == j
  {
  }

  lemma StrCmpOrders(a: string, b: string)
    ensures StrCmp(a, b) == 0 <==> a == b
    ensures StrCmp(a, b) < 0 <==> Precedes(a, b)
  {
    var k := StrCmpMeans(a, b);
    if Precedes(a, b) {
      var j :| Differ(a, b, j) && (j == |a| || (j < |b| && a[j] < b[j]));
      assert a != b;
      DifferOnce(a, b, k, j);
    }
  }

  predicate Related(rel: Relation, before: bool, same: bool) {
    match rel
    case EQUAL => same
    case UNEQUAL => !same
    case LESS => before
    case LESS_EQUAL => before || same
    case GREATER => !before && !same
    case GREATER_EQUAL => !before
  }

  /** The number that a symbol or constant stands for, if it stands for one. */
  function NumberOf(s: Scope, a: Atom): Option<int> {
    var t := s.cfg.AtomType(a);
    if t.Logical() then Some(ValOf(s, Leaf(a))) else s.cfg.num(TextOf(s, a), t.Base())
  }

  lemma AtomValued(s: Scope, a: Atom)
    requires Complete(s) && AtomOk(s.cfg, a)
    ensures s.AtomNum(a) == Some(NumberOf(s, a)) && s.AtomStr(a) == Some(TextOf(s, a))
  {
    TextValued(s, a);
    ExprValued(s, Leaf(a));
  }

  /** Numbers are compared as numbers, unless both sides are strings; all else is compared as text. */
  lemma CompareLaw(s: Scope, rel: Relation, l: Atom, r: Atom)
    requires Complete(s) && AtomOk(s.cfg, l) && AtomOk(s.cfg, r)
    ensures var a, b := NumberOf(s, l), NumberOf(s, r);
            var numbers := a.Some? && b.Some? && !(s.cfg.AtomType(l) == STRING && s.cfg.AtomType(r) == STRING);
            var holds := if numbers then Related(rel, a.value < b.value, a.value == b.value)
                         else Related(rel, Precedes(TextOf(s, l), TextOf(s, r)), TextOf(s, l) == TextOf(s, r));
            ValOf(s, Compare(rel, l, r)) == if holds then 2 else 0
  {
    AtomValued(s, l);
    AtomValued(s, r);
    ExprValued(s, Compare(rel, l, r));
    StrCmpOrders(TextOf(s, l), TextOf(s, r));
  }

  // ---- Expressions ----

  /** Conjunction is the minimum, disjunction the maximum, negation swaps n and y; short circuits do not matter. */
  lemma ExprLaw(s: Scope, e: Expr)
    requires Complete(s) && ExprOk(s.cfg, e)
    ensures s.ExprVal(e) == Some(ValOf(s, e))
    ensures match e
            case Leaf(a) => ValOf(s, e) == (if a.Nmy? then a.t
                                          else if a.Sym? && s.cfg.At(a.id).orig.Logical() then TriOf(s, a.id) else 0)
            case ChoiceMode(c) => ValOf(s, e) == ModeOf(s, c)
            case And(l, r) =>
              && ValOf(s, e) <= ValOf(s, l) && ValOf(s, e) <= ValOf(s, r)
              && (ValOf(s, e) == ValOf(s, l) || ValOf(s, e) == ValOf(s, r))
            case Or(l, r) =>
              && ValOf(s, e) >= ValOf(s, l) && ValOf(s, e) >= ValOf(s, r)
              && (ValOf(s, e) == ValOf(s, l) || ValOf(s, e) == ValOf(s, r))
            case Not(x) => ValOf(s, e) + ValOf(s, x) == 2
            case Compare(_, _, _) => ValOf(s, e) != 1
  {
    ExprValued(s, e);
  }

  // ---- Dependencies bound values ----

  /** The defaults of `i` are limited by its direct dependencies. */
  lemma {:induction false} DefaultsWithin(v: KconfigPropagate.Valuation, defs: seq<KconfigPropagate.Definition>, i: Id, k: nat)
    requires k < |KconfigPropagate.AllDefaults(v, defs, i)|
    ensures KconfigPropagate.AllDefaults(v, defs, i)[k].1 <= KconfigPropagate.MaxDep(v, defs, i)
    decreases |defs|
  {
    var init := defs[..|defs| - 1];
    if k < |KconfigPropagate.AllDefaults(v, init, i)| { DefaultsWithin(v, init, i, k); }
  }

  /** The properties of the symbols are those collected from a finalized tree. */
  ghost predicate Collected(cfg: Config, top: KconfigPropagate.Node) {
    var nodes := KconfigPropagate.DealtIn(KconfigPropagate.Finalize(top, Y).list);
    && KconfigPropagate.BuiltFrom(cfg, nodes)
    && forall i :: 0 <= i < |cfg.items| && cfg.items[i].Symbol? ==>
         cfg.items[i].defaults == KconfigPropagate.List(
           KconfigPropagate.AddAllProps(KconfigPropagate.NOTHING, nodes).defaults, i)
  }

  lemma DefaultWithin(s: Scope, top: KconfigPropagate.Node, i: Id, k: nat)
    requires Collected(s.cfg, top) && i < |s.cfg.items| && s.cfg.items[i].Symbol?
    ensures DefaultOf(s, s.cfg.items[i].defaults, k) <= ValOf(s, s.cfg.items[i].direct)
  {
    var v, defaults := KconfigPropagate.Completed(s), s.cfg.items[i].defaults;
    if k < |defaults| {
      var defs := KconfigPropagate.DefinitionsIn(top.list, [top]);
      KconfigPropagate.ParsedMeans(v, top, i);
      DefaultsWithin(v, defs, i, k);
      assert KconfigPropagate.Valued(v, defaults)[k].1 == ValOf(s, defaults[k].cond);
    }
  }

  lemma PromptWithin(s: Scope, top: KconfigPropagate.Node, i: Id, j: nat)
    requires Collected(s.cfg, top) && i < |s.cfg.items| && s.cfg.items[i].Symbol? && j < |s.cfg.items[i].prompts|
    ensures ValOf(s, s.cfg.items[i].prompts[j]) <= ValOf(s, s.cfg.items[i].direct)
  {
    var nodes := KconfigPropagate.DealtIn(KconfigPropagate.Finalize(top, Y).list);
    var e := s.cfg.items[i].prompts[j];
    assert e in s.cfg.items[i].prompts;
    var n :| n in nodes && n.item == KconfigPropagate.SymbolNode(i) && n.prompt == Some(e);
    KconfigPropagate.ListLimited(top.list, KconfigPropagate.BaseDep(top), KconfigPropagate.VisibleIf(top, Y));
    KconfigPropagate.DirectCovers(KconfigPropagate.Completed(s), KconfigPropagate.NOTHING, nodes, n);
  }

  /** Visibility does not exceed the direct dependencies, but for y in the place of m. */
  lemma VisWithin(s: Scope, top: KconfigPropagate.Node, i: Id)
    requires Complete(s) && Collected(s.cfg, top) && Real(s.cfg, Vis(i)) && s.cfg.items[i].Symbol?
    requires s.cfg.items[i].choice.None?
    ensures VisOf(s, i) <= Raised(ValOf(s, s.cfg.items[i].direct), CurrentType(s, i) != TRISTATE)
  {
    var item := s.cfg.items[i];
    forall j | 0 <= j < |item.prompts| ensures ValOf(s, item.prompts[j]) <= ValOf(s, item.direct) {
      PromptWithin(s, top, i, j);
    }
    assert Rederived(s.cfg, s.user, s.env, Vis(i)) && WellFormedItem(s.cfg, i);
    LargestBelow(s, item.prompts, ValOf(s, item.direct));
    TypeValued(s, i);
  }

  /**
   * Of the symbols of a finalized tree: one that nothing selects does not exceed its direct dependencies, whatever the
   * user, the defaults and the implies say, but for y in the place of m where there is no m.
   */
  lemma DirectBounds(s: Scope, top: KconfigPropagate.Node, i: Id)
    requires Complete(s) && Collected(s.cfg, top) && Real(s.cfg, Tri(i)) && s.cfg.items[i].choice.None?
    requires ValOf(s, s.cfg.items[i].rev) == 0
    ensures var direct := ValOf(s, s.cfg.items[i].direct);
            var noMiddle := CurrentType(s, i) == BOOL || ValOf(s, s.cfg.items[i].weak) == 2;
            && TriOf(s, i) <= Raised(direct, noMiddle)
            && (TriOf(s, i) > direct <==> direct == 1 && noMiddle && TriOf(s, i) != 0)
  {
    var k := SomeActive(s, s.cfg.items[i].defaults, 0);
    TriLaw(s, i, k);
    DefaultWithin(s, top, i, k);
    VisWithin(s, top, i);
  }
}
