/** The parsed configuration: tristate values, expressions, symbols and choices.
    Symbols and choices share one index space, because `_dependents` mixes them. */
module KconfigModel {

  import opened Basics

  /** n, m and y are 0, 1 and 2. */
  type Tristate = x: int | 0 <= x <= 2

  function Min(a: Tristate, b: Tristate): Tristate { if a <= b then a else b }

  function Max(a: Tristate, b: Tristate): Tristate { if a <= b then b else a }

  function TriToStr(t: Tristate): string { if t == 0 then "n" else if t == 1 then "m" else "y" }

  type Id = nat

  datatype Type = UNKNOWN | BOOL | TRISTATE | STRING | INT | HEX {
    predicate Logical() { BOOL? || TRISTATE? }

    predicate Numeric() { INT? || HEX? }

    /** `_TYPE_TO_BASE`; 0 lets the format of the string decide. */
    function Base(): nat { if HEX? then 16 else if INT? then 10 else 0 }
  }

  datatype Relation = EQUAL | UNEQUAL | LESS | LESS_EQUAL | GREATER | GREATER_EQUAL {
    predicate Holds(comp: int) {
      match this
      case EQUAL => comp == 0
      case UNEQUAL => comp != 0
      case LESS => comp < 0
      case LESS_EQUAL => comp <= 0
      case GREATER => comp > 0
      case GREATER_EQUAL => comp >= 0
    }
  }

  /** A symbol reference, one of the constants n/m/y, or any other quoted constant. */
  datatype Atom = Sym(id: Id) | Nmy(t: Tristate) | Quoted(text: string)

  datatype Expr =
    | Leaf(atom: Atom)
    | ChoiceMode(choice: Id)
    | And(left: Expr, right: Expr)
    | Or(left: Expr, right: Expr)
    | Not(operand: Expr)
    | Compare(rel: Relation, lhs: Atom, rhs: Atom)

  const N: Expr := Leaf(Nmy(0))
  const Y: Expr := Leaf(Nmy(2))

  /** A property together with the condition it applies under. */
  datatype Prop<+T> = Prop(body: T, cond: Expr)

  datatype Range = Range(low: Atom, high: Atom)

  /** `prompts` holds the prompt conditions of all the menu nodes of the item. */
  datatype Item =
    | Symbol(name: string, orig: Type, prompts: seq<Expr>, defaults: seq<Prop<Expr>>, ranges: seq<Prop<Range>>,
             rev: Expr, weak: Expr, direct: Expr, choice: Option<Id>)
    | Choice(orig: Type, prompts: seq<Expr>, optional: bool, picks: seq<Prop<Id>>, syms: seq<Id>)

  const Undefined: Item := Symbol("", UNKNOWN, [], [], [], N, N, N, None)

  /** `num(s, base)` is Python's `int(s, base)`, None for a ValueError; `show(n, hex)` is `hex(n)` or `str(n)`. */
  datatype Config = Config(items: seq<Item>, modules: Id,
                           num: (string, nat) -> Option<int>, show: (int, bool) -> string)
  {
    function At(i: Id): Item { if i < |items| then items[i] else Undefined }

    /** The number a string stands for; 0 when it is not one, like strtoll() on it. */
    function Numeral(s: string, t: Type): int {
      var n := num(s, t.Base());
      if n.Some? then n.value else 0
    }

    function AtomType(a: Atom): Type {
      match a
      case Sym(i) => At(i).orig
      case Nmy(_) => TRISTATE
      case Quoted(_) => UNKNOWN
    }
  }

  /** What the user assigned: values of symbols and modes of choices, and the selections of choices. */
  datatype Given = GivenTri(t: Tristate) | GivenStr(s: string)
  datatype User = User(values: map<Id, Given>, picked: map<Id, Id>) {
    function Tri(i: Id): Option<Tristate> {
      if i in values && values[i].GivenTri? then Some(values[i].t) else None
    }

    function Str(i: Id): Option<string> {
      if i in values && values[i].GivenStr? then Some(values[i].s) else None
    }

    function Pick(c: Id): Option<Id> { if c in picked then Some(picked[c]) else None }
  }

  /** `_strcmp`: -1, 0 or 1 by code point order. */
  function StrCmp(a: string, b: string): int {
    if a == [] && b == [] then 0
    else if a == [] then -1
    else if b == [] then 1
    else if a[0] < b[0] then -1
    else if a[0] > b[0] then 1
    else StrCmp(a[1..], b[1..])
  }

  // ---- The dependency graph (_build_dep and _add_choice_deps) ----

  function AtomItems(a: Atom): set<Id> { if a.Sym? then {a.id} else {} }

  /** The items an expression mentions; `_depend_on` adds a dependent to each of them. */
  function ExprItems(e: Expr): set<Id> {
    match e
    case Leaf(a) => AtomItems(a)
    case ChoiceMode(c) => {c}
    case And(l, r) => ExprItems(l) + ExprItems(r)
    case Or(l, r) => ExprItems(l) + ExprItems(r)
    case Not(x) => ExprItems(x)
    case Compare(_, l, r) => AtomItems(l) + AtomItems(r)
  }

  function ExprsItems(es: seq<Expr>): set<Id> { set e, i | e in es && i in ExprItems(e) :: i }

  function CondItems<T(==)>(ps: seq<Prop<T>>): set<Id> { set p, i | p in ps && i in ExprItems(p.cond) :: i }

  function ItemDependsOn(item: Item): set<Id> {
    match item
    case Symbol(_, _, prompts, defaults, ranges, rev, weak, direct, _) =>
      ExprsItems(prompts)
      + CondItems(defaults) + (set p, i | p in defaults && i in ExprItems(p.body) :: i)
      + ExprItems(rev) + ExprItems(weak)
      + CondItems(ranges) + (set p, i | p in ranges && i in AtomItems(p.body.low) + AtomItems(p.body.high) :: i)
      + ExprItems(direct)
    case Choice(_, prompts, _, picks, syms) =>
      ExprsItems(prompts) + CondItems(picks) + (set i | i in syms)
  }

  /** `Symbol._dependents` and `Choice._dependents`, after `_add_choice_deps`. */
  function Dependents(cfg: Config, j: Id): (r: set<Id>) {
    set i | 0 <= i < |cfg.items| && j in ItemDependsOn(cfg.items[i])
  }
}
