/** Evaluation of one cached attribute ("facet") of one item, given the attributes already known.
    A function returns None exactly when it needs an attribute that `env` does not hold, so the same
    functions describe evaluation with a partly filled cache and evaluation from scratch. */
module KconfigEval {
  import opened Basics
  import opened KconfigModel

  /** `_cached_vis`, `_cached_tri_val`, `_cached_str_val`, `_cached_assignable`, `_cached_selection`. */
  datatype Facet = Vis(id: Id) | Tri(id: Id) | Str(id: Id) | Asn(id: Id) | Sel(id: Id)

  datatype Val = TriVal(t: Tristate) | StrVal(s: string) | AsnVal(a: seq<Tristate>) | SelVal(pick: Option<Id>)

  type Env = map<Facet, Val>

  datatype Scope = Scope(cfg: Config, user: User, env: Env) {

    function GetTri(f: Facet): Option<Tristate> {
      if f in env && env[f].TriVal? then Some(env[f].t) else None
    }

    function GetStr(f: Facet): Option<string> {
      if f in env && env[f].StrVal? then Some(env[f].s) else None
    }

    function GetSel(c: Id): Option<Option<Id>> {
      if Sel(c) in env && env[Sel(c)].SelVal? then Some(env[Sel(c)].pick) else None
    }

    // ---- Expressions ----

    function AtomTri(a: Atom): Option<Tristate> {
      match a
      case Sym(i) => if cfg.At(i).orig.Logical() then GetTri(Tri(i)) else Some(0)
      case Nmy(t) => Some(t)
      case Quoted(_) => Some(0)
    }

    function AtomStr(a: Atom): Option<string> {
      match a
      case Sym(i) =>
        var item := cfg.At(i);
        if item.orig == UNKNOWN then Some(if item.Symbol? then item.name else "") else GetStr(Str(i))
      case Nmy(t) => Some(TriToStr(t))
      case Quoted(s) => Some(s)
    }

    /** `_sym_to_num`; the inner None is a ValueError. */
    function AtomNum(a: Atom): Option<Option<int>> {
      if cfg.AtomType(a).Logical() then
        var t :- AtomTri(a);
        Some(Some(t))
      else
        var s :- AtomStr(a);
        Some(cfg.num(s, cfg.AtomType(a).Base()))
    }

    function CompareStr(l: Atom, r: Atom): Option<int> {
      var a :- AtomStr(l);
      var b :- AtomStr(r);
      Some(StrCmp(a, b))
    }

    function CompareToNum(a: int, l: Atom, r: Atom): Option<int> {
      var b :- AtomNum(r);
      if b.None? then CompareStr(l, r) else Some(a - b.value)
    }

    function CompareAtoms(l: Atom, r: Atom): Option<int> {
      if cfg.AtomType(l) == STRING && cfg.AtomType(r) == STRING then CompareStr(l, r)
      else
        var a :- AtomNum(l);
        if a.None? then CompareStr(l, r) else CompareToNum(a.value, l, r)
    }

    /** `expr_value`, short circuits included. */
    function ExprVal(e: Expr): Option<Tristate> {
      match e
      case Leaf(a) => AtomTri(a)
      case ChoiceMode(c) => Mode(c)
      case And(l, r) =>
        var a :- ExprVal(l);
        if a == 0 then Some(0)
        else
          var b :- ExprVal(r);
          Some(Min(a, b))
      case Or(l, r) =>
        var a :- ExprVal(l);
        if a == 2 then Some(2)
        else
          var b :- ExprVal(r);
          Some(Max(a, b))
      case Not(x) =>
        var a :- ExprVal(x);
        Some(2 - a)
      case Compare(rel, l, r) =>
        var comp :- CompareAtoms(l, r);
        Some(if rel.Holds(comp) then 2 else 0)
    }

    // ---- Types and choice modes ----

    /** The type of a tristate item outside a y-mode choice. */
    function ModulesType(): Option<Type> {
      var m :- AtomTri(Sym(cfg.modules));
      Some(if m == 0 then BOOL else TRISTATE)
    }

    /** `Symbol.type` and `Choice.type`. */
    function TypeNow(i: Id): Option<Type> {
      var item := cfg.At(i);
      if item.orig != TRISTATE then Some(item.orig)
      else if item.Symbol? && item.choice.Some? then
        var mode :- Mode(item.choice.value);
        if mode == 2 then Some(BOOL) else ModulesType()
      else ModulesType()
    }

    /** `Choice.tri_value`, which is not cached. */
    function Mode(c: Id): Option<Tristate> {
      var item := cfg.At(c);
      if item.Symbol? then Some(0)
      else
        var wanted := if item.optional then 0 else 1;
        var given := user.Tri(c);
        var vis :- GetTri(Vis(c));
        var val := Min(if given.Some? then Max(wanted, given.value) else wanted, vis);
        if val != 1 || item.orig == BOOL then Some(if val == 1 then 2 else val)
        else if item.orig == TRISTATE then
          var t :- ModulesType();
          Some(if t == BOOL then 2 else 1)
        else Some(1)
    }

    // ---- Loops over properties ----

    /** The maximum of the values of the prompt conditions. */
    function MaxOf(es: seq<Expr>): Option<Tristate> {
      if es == [] then Some(0)
      else
        var a :- MaxOf(es[..|es| - 1]);
        var b :- ExprVal(es[|es| - 1]);
        Some(Max(a, b))
    }

    /** The first property from position `k` on whose condition is not n, with the value of the condition;
        |ps| when there is none. */
    function FirstActive<T>(ps: seq<Prop<T>>, k: nat): Option<(nat, Tristate)>
      requires k <= |ps|
      decreases |ps| - k
    {
      if k == |ps| then Some((k, 0))
      else
        var v :- ExprVal(ps[k].cond);
        if v != 0 then Some((k, v)) else FirstActive(ps, k + 1)
    }

    // ---- Visibility ----

    /** Choice symbols that `_visibility` hides because of the mode of their choice. */
    function Hidden(item: Item, vis: Tristate): Option<bool> {
      if item.Symbol? && item.choice.Some? then
        var tristateChoice := cfg.At(item.choice.value).orig == TRISTATE;
        if tristateChoice && item.orig != TRISTATE then
          var mode :- Mode(item.choice.value);
          Some(mode != 2)
        else if item.orig == TRISTATE && vis == 1 then
          var mode :- Mode(item.choice.value);
          Some(mode == 2)
        else Some(false)
      else Some(false)
    }

    function EvalVis(i: Id): Option<Tristate> {
      var item := cfg.At(i);
      var vis :- MaxOf(item.prompts);
      var hidden :- Hidden(item, vis);
      if hidden then Some(0)
      else if vis == 1 then
        var t :- TypeNow(i);
        Some(if t != TRISTATE then 2 else 1)
      else Some(vis)
    }

    // ---- Tristate values ----

    /** The value from defaults and implies, without a user value. */
    function FromDefaults(item: Item): Option<Tristate>
      requires item.Symbol?
    {
      var first :- FirstActive(item.defaults, 0);
      var val :- DefaultAt(item, first);
      var weak :- ExprVal(item.weak);
      if weak == 0 then Some(val)
      else
        var direct :- ExprVal(item.direct);
        Some(if direct != 0 then Max(weak, val) else val)
    }

    function DefaultAt(item: Item, first: (nat, Tristate)): Option<Tristate>
      requires item.Symbol?
    {
      if first.0 < |item.defaults| then
        var v :- ExprVal(item.defaults[first.0].body);
        Some(Min(v, first.1))
      else Some(0)
    }

    /** m becomes y for bools, and for symbols implied to y. */
    function Promote(i: Id, val: Tristate): Option<Tristate> {
      var item := cfg.At(i);
      if val != 1 || !item.Symbol? then Some(val)
      else
        var t :- TypeNow(i);
        if t == BOOL then Some(2)
        else
          var weak :- ExprVal(item.weak);
          Some(if weak == 2 then 2 else 1)
    }

    /** The tristate value of a symbol outside choices. */
    function PlainTri(i: Id, vis: Tristate): Option<Tristate> {
      var item := cfg.At(i);
      if !item.Symbol? then None
      else
        var given := user.Tri(i);
        var base :- if vis != 0 && given.Some? then Some(Min(given.value, vis)) else FromDefaults(item);
        var rev :- ExprVal(item.rev);
        Promote(i, if rev != 0 then Max(rev, base) else base)
    }

    function EvalTri(i: Id): Option<Tristate> {
      var item := cfg.At(i);
      if !item.Symbol? || !item.orig.Logical() then None
      else
        var vis :- GetTri(Vis(i));
        if item.choice.None? then PlainTri(i, vis)
        else if vis == 2 then
          var sel :- GetSel(item.choice.value);
          Some(if sel == Some(i) then 2 else 0)
        else
          var given := user.Tri(i);
          Some(if vis != 0 && given.Some? && given.value != 0 then 1 else 0)
    }

    // ---- String values ----

    /** The active range of an int or hex symbol, if any. */
    function ActiveRange(item: Item): Option<Option<(int, int)>>
      requires item.Symbol?
    {
      var first :- FirstActive(item.ranges, 0);
      if first.0 < |item.ranges| then
        var low :- AtomStr(item.ranges[first.0].body.low);
        var high :- AtomStr(item.ranges[first.0].body.high);
        Some(Some((cfg.Numeral(low, item.orig), cfg.Numeral(high, item.orig))))
      else Some(None)
    }

    /** The string of the first active default, "" without one. */
    function DefaultStr(item: Item): Option<string>
      requires item.Symbol?
    {
      var first :- FirstActive(item.defaults, 0);
      if first.0 < |item.defaults| && item.defaults[first.0].body.Leaf? then
        AtomStr(item.defaults[first.0].body.atom)
      else Some("")
    }

    function Clamp(t: Type, range: Option<(int, int)>, val: string): string {
      if range.None? then val
      else
        var n := cfg.Numeral(val, t);
        if n < range.value.0 then cfg.show(range.value.0, t == HEX)
        else if n > range.value.1 then cfg.show(range.value.1, t == HEX)
        else val
    }

    predicate InRange(t: Type, range: Option<(int, int)>, val: string) {
      range.None? || range.value.0 <= cfg.Numeral(val, t) <= range.value.1
    }

    function NumericStr(i: Id, vis: Tristate): Option<string> {
      var item := cfg.At(i);
      if !item.Symbol? then None
      else
        var range :- ActiveRange(item);
        var given := user.Str(i);
        if vis != 0 && given.Some? && given.value != "" && InRange(item.orig, range, given.value) then given
        else
          var val :- DefaultStr(item);
          Some(Clamp(item.orig, range, val))
    }

    /** The value of a string, int or hex symbol of visibility `vis`. */
    function TextStr(i: Id, vis: Tristate): Option<string> {
      var item := cfg.At(i);
      if item.orig.Numeric() then NumericStr(i, vis)
      else if !item.Symbol? then None
      else
        var given := user.Str(i);
        if vis != 0 && given.Some? then given else DefaultStr(item)
    }

    function EvalStr(i: Id): Option<string> {
      var item := cfg.At(i);
      if !item.Symbol? || item.orig == UNKNOWN then None
      else if item.orig.Logical() then
        var t :- GetTri(Tri(i));
        Some(TriToStr(t))
      else
        var vis :- GetTri(Vis(i));
        TextStr(i, vis)
    }

    // ---- Assignable values ----

    /** Whether m is not a value the symbol can have: bool, or implied to y. */
    function NoMiddle(i: Id, weak: Expr): Option<bool> {
      var t :- TypeNow(i);
      if t == BOOL then Some(true)
      else
        var w :- ExprVal(weak);
        Some(w == 2)
    }

    function SymAssignable(i: Id, vis: Tristate): Option<seq<Tristate>> {
      var item := cfg.At(i);
      if !item.Symbol? then None
      else
        var rev :- ExprVal(item.rev);
        if vis == 2 then
          if item.choice.Some? || rev == 2 then Some([2])
          else
            var noMiddle :- NoMiddle(i, item.weak);
            Some((if rev == 0 then [0] else []) + (if noMiddle then [] else [1]) + [2])
        else if rev == 0 then
          var weak :- ExprVal(item.weak);
          Some(if weak != 2 then [0, 1] else [0, 2])
        else Some([rev])
    }

    function ChoiceAssignable(c: Id, vis: Tristate): Option<seq<Tristate>> {
      var item := cfg.At(c);
      if !item.Choice? then None
      else if vis == 2 then
        var t :- TypeNow(c);
        Some((if item.optional then [0] else []) + (if t == BOOL then [] else [1]) + [2])
      else Some(if item.optional then [0, 1] else [1])
    }

    function EvalAsn(i: Id): Option<seq<Tristate>> {
      var item := cfg.At(i);
      if item.Symbol? && !item.orig.Logical() then None
      else
        var vis :- GetTri(Vis(i));
        if vis == 0 then Some([])
        else if item.Symbol? then SymAssignable(i, vis)
        else ChoiceAssignable(i, vis)
    }

    // ---- Selections ----

    function FirstVisible(syms: seq<Id>): Option<Option<Id>> {
      if syms == [] then Some(None)
      else
        var vis :- GetTri(Vis(syms[0]));
        if vis != 0 then Some(Some(syms[0])) else FirstVisible(syms[1..])
    }

    /** `_selection_from_defaults`, with the defaults from position `k` on. */
    function FromPicks(item: Item, k: nat): Option<Option<Id>>
      requires item.Choice? && k <= |item.picks|
      decreases |item.picks| - k
    {
      if k == |item.picks| then FirstVisible(item.syms)
      else
        var v :- ExprVal(item.picks[k].cond);
        if v == 0 then FromPicks(item, k + 1)
        else
          var vis :- GetTri(Vis(item.picks[k].body));
          if vis != 0 then Some(Some(item.picks[k].body)) else FromPicks(item, k + 1)
    }

    function EvalSel(c: Id): Option<Option<Id>> {
      var item := cfg.At(c);
      if !item.Choice? then None
      else
        var mode :- Mode(c);
        if mode != 2 then Some(None) else PickInY(item, user.Pick(c))
    }

    /** In y mode: the user's selection if it is visible, else the one that the defaults give. */
    function PickInY(item: Item, pick: Option<Id>): Option<Option<Id>>
      requires item.Choice?
    {
      if pick.None? then FromPicks(item, 0)
      else
        var vis :- GetTri(Vis(pick.value));
        if vis != 0 then Some(pick) else FromPicks(item, 0)
    }

    /** One evaluation step of any facet. */
    function Eval(f: Facet): Option<Val> {
      match f
      case Vis(i) => var v :- EvalVis(i); Some(TriVal(v))
      case Tri(i) => var v :- EvalTri(i); Some(TriVal(v))
      case Str(i) => var v :- EvalStr(i); Some(StrVal(v))
      case Asn(i) => var v :- EvalAsn(i); Some(AsnVal(v))
      case Sel(i) => var v :- EvalSel(i); Some(SelVal(v))
    }
  }
}
