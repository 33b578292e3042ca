/** The evaluator as it runs: values are computed on demand and cached, and a change of a user value invalidates the
    caches of the items that may depend on it, stopping at items that have no cached visibility. */
module KconfigCache {
  import opened Basics
  import opened KconfigModel
  import opened KconfigEval
  import opened KconfigReads
  import opened KconfigScratch

  ghost predicate Extends(before: Env, after: Env) {
    forall f {:trigger f in before} :: f in before ==> f in after && after[f] == before[f]
  }

  /** `_cached_vis` is set on every item that has any cached value. */
  ghost predicate Marked(cfg: Config, env: Env, f: Facet) {
    f in env ==> f.id < |cfg.items| && Vis(f.id) in env
  }

  ghost predicate Flagged(cfg: Config, env: Env) { forall f :: Marked(cfg, env, f) }

  /** Everything below rank `r`. */
  ghost predicate Under(rank: Ranking, fs: set<Facet>, r: nat) {
    forall g :: g in fs ==> rank(g) < r
  }

  /** The ranks of what the value of a symbol reads, property by property. */
  ghost predicate SymUnder(cfg: Config, rank: Ranking, item: Item, r: nat)
    requires item.Symbol?
  {
    && (forall p :: p in item.defaults ==> Under(rank, ExprReads(cfg, p.cond), r) && Under(rank, ExprReads(cfg, p.body), r))
    && Under(rank, ExprReads(cfg, item.rev), r) && Under(rank, ExprReads(cfg, item.weak), r)
    && Under(rank, ExprReads(cfg, item.direct), r)
  }

  lemma SymReadsUnder(cfg: Config, rank: Ranking, i: Id)
    requires Ranked(cfg, rank) && cfg.At(i).Symbol?
    ensures SymUnder(cfg, rank, cfg.At(i), rank(Tri(i))) && Under(rank, TypeReads(cfg, i), rank(Tri(i)))
    ensures rank(Vis(i)) < rank(Tri(i))
    ensures cfg.At(i).choice.Some? ==> rank(Sel(cfg.At(i).choice.value)) < rank(Tri(i))
  {
    var item := cfg.At(i);
    assert forall g :: g in TriReads(cfg, i) ==> g in Reads(cfg, Tri(i));
    assert Vis(i) in Reads(cfg, Tri(i));
    assert item.choice.Some? ==> Sel(item.choice.value) in Reads(cfg, Tri(i));
    forall p, g | p in item.defaults && g in ExprReads(cfg, p.cond) + ExprReads(cfg, p.body)
      ensures g in Reads(cfg, Tri(i))
    {}
  }

  /** The ranks of what the selection of a choice reads. */
  ghost predicate PicksUnder(cfg: Config, rank: Ranking, item: Item, r: nat)
    requires item.Choice?
  {
    && (forall p :: p in item.picks ==> Under(rank, ExprReads(cfg, p.cond), r) && rank(Vis(p.body)) < r)
    && (forall s :: s in item.syms ==> rank(Vis(s)) < r)
  }

  lemma PicksReadsUnder(cfg: Config, rank: Ranking, c: Id)
    requires Ranked(cfg, rank) && cfg.At(c).Choice?
    ensures PicksUnder(cfg, rank, cfg.At(c), rank(Sel(c))) && Under(rank, ModeReads(cfg, c), rank(Sel(c)))
  {
    var item := cfg.At(c);
    assert forall g :: g in SelReads(cfg, c) ==> g in Reads(cfg, Sel(c));
    forall p | p in item.picks ensures Under(rank, ExprReads(cfg, p.cond), rank(Sel(c))) && rank(Vis(p.body)) < rank(Sel(c)) {
      assert Vis(p.body) in SelReads(cfg, c);
    }
    forall s | s in item.syms ensures rank(Vis(s)) < rank(Sel(c)) {
      assert Vis(s) in SelReads(cfg, c);
    }
  }

  /** The ranks of what the text of a string, int or hex symbol reads. */
  ghost predicate TextUnder(cfg: Config, rank: Ranking, item: Item, r: nat)
    requires item.Symbol?
  {
    && (forall p :: p in item.defaults ==>
          Under(rank, ExprReads(cfg, p.cond), r) && (p.body.Leaf? ==> Under(rank, StrReads(cfg, p.body.atom), r)))
    && (forall p :: p in item.ranges ==> Under(rank, RangeReads(cfg, p), r))
  }

  lemma TextReadsUnder(cfg: Config, rank: Ranking, i: Id)
    requires Ranked(cfg, rank) && cfg.At(i).Symbol? && !cfg.At(i).orig.Logical()
    ensures TextUnder(cfg, rank, cfg.At(i), rank(Str(i))) && rank(Vis(i)) < rank(Str(i))
  {
    var item := cfg.At(i);
    assert forall g :: g in TextReads(cfg, i) ==> g in Reads(cfg, Str(i));
    assert Vis(i) in TextReads(cfg, i);
    forall p | p in item.defaults
      ensures Under(rank, ExprReads(cfg, p.cond), rank(Str(i)))
      ensures p.body.Leaf? ==> Under(rank, StrReads(cfg, p.body.atom), rank(Str(i)))
    {}
    forall p | p in item.ranges ensures Under(rank, RangeReads(cfg, p), rank(Str(i))) {
      RangeReadsAreRead(cfg, i, p);
    }
  }

  lemma AddEntry(cfg: Config, u: User, env: Env, f: Facet, v: Val)
    requires UserOk(cfg, u) && Justified(cfg, u, env) && Scope(cfg, u, env).Eval(f) == Some(v)
    ensures Justified(cfg, u, env[f := v]) && Extends(env, env[f := v])
  {
    var a, b := Scope(cfg, u, env), Scope(cfg, u, env[f := v]);
    assert Rederived(cfg, u, env, f);
    forall g ensures Rederived(cfg, u, b.env, g) {
      assert Rederived(cfg, u, env, g);
      if g in b.env { EvalTransfers(a, b, g); }
    }
  }

  // ---- Invalidation ----

  /** `b` is `a` with all facets of some items removed. */
  ghost predicate Wiped(a: Env, b: Env) {
    && (forall f :: f in b ==> f in a && b[f] == a[f])
    && (forall f, g :: f in b && g in a && f.id == g.id ==> g in b)
  }

  ghost predicate Absent(env: Env, i: Id) { forall f :: f in env ==> f.id != i }

  /** Nothing that depends on item `j` is cached. */
  ghost predicate Cut(cfg: Config, env: Env, j: Id) { forall i :: i in Dependents(cfg, j) ==> Absent(env, i) }

  /** Whoever depended on an item wiped between `a` and `b` is not cached in `b`. */
  ghost predicate Closed(cfg: Config, a: Env, b: Env) {
    && (forall f :: f in a && f !in b ==> Cut(cfg, b, f.id))
    && (forall f :: f in a && f !in b && f.id == cfg.modules ==> b == map[])
  }

  /** The number of items with a cached visibility. */
  ghost function Cached(env: Env): nat { |set f | f in env && f.Vis?| }

  lemma WipedShrinks(a: Env, b: Env)
    requires Wiped(a, b)
    ensures Cached(b) <= Cached(a)
    ensures forall i :: Vis(i) in a && Vis(i) !in b ==> Cached(b) < Cached(a)
  {
    var before, after := set f | f in a && f.Vis?, set f | f in b && f.Vis?;
    SubsetShrinks(before, after);
    forall i | Vis(i) in a && Vis(i) !in b ensures Cached(b) < Cached(a) {
      assert Vis(i) in before && Vis(i) !in after;
      SubsetShrinks(before - {Vis(i)}, after);
    }
  }

  lemma {:induction false} SubsetShrinks<T>(more: set<T>, less: set<T>)
    requires less <= more
    ensures |less| <= |more|
  {
    if x :| x in less { SubsetShrinks(more - {x}, less - {x}); }
  }

  /** `Closed`, except that the dependents of item `i` are still being dealt with. */
  ghost predicate ClosedBut(cfg: Config, a: Env, b: Env, i: Id) {
    && (forall f :: f in a && f !in b && f.id != i ==> Cut(cfg, b, f.id))
    && (forall f :: f in a && f !in b && f.id == cfg.modules ==> b == map[])
  }

  lemma WipedFurther(cfg: Config, a: Env, b: Env, c: Env, i: Id)
    requires Wiped(a, b) && ClosedBut(cfg, a, b, i) && Wiped(b, c) && Closed(cfg, b, c)
    ensures Wiped(a, c) && ClosedBut(cfg, a, c, i)
    ensures forall k :: Absent(b, k) ==> Absent(c, k)
  {
    forall f | f in a && f !in c && f.id != i ensures Cut(cfg, c, f.id) {
      if f !in b { assert Cut(cfg, b, f.id); }
    }
  }

  /** `u` and `v` agree about item `i`. */
  predicate SameUser(u: User, v: User, i: Id) {
    u.Tri(i) == v.Tri(i) && u.Str(i) == v.Str(i) && u.Pick(i) == v.Pick(i)
  }

  /** Removing items together with everything that depends on them leaves a justified cache,
      even when the user values of removed items change. */
  lemma InvalidationJustifies(cfg: Config, u: User, v: User, a: Env, b: Env)
    requires WellFormed(cfg) && UserOk(cfg, u) && Justified(cfg, u, a) && Flagged(cfg, a)
    requires Wiped(a, b) && Closed(cfg, a, b)
    requires forall i :: !SameUser(u, v, i) ==> Absent(b, i) && (cfg.At(i).Choice? ==> Cut(cfg, b, i))
    ensures Justified(cfg, v, b)
  {
    var before, after := Scope(cfg, u, a), Scope(cfg, v, b);
    forall f ensures Rederived(cfg, v, b, f) {
      if f in b {
        assert Rederived(cfg, u, a, f) && Marked(cfg, a, f);
        forall g | g in Reads(cfg, f)
          ensures g in a ==> g in b && b[g] == a[g]
          ensures cfg.At(g.id).Choice? ==> u.Tri(g.id) == v.Tri(g.id)
        {
          ReadsAreDependencies(cfg, f, g);
          if g.id in ItemDependsOn(cfg.items[f.id]) { assert f.id in Dependents(cfg, g.id); }
          assert SameUser(u, v, g.id) || Absent(b, g.id);
        }
        assert SameUser(u, v, f.id);
        EvalTransfers(before, after, f);
      }
    }
  }

  /** User values have no effect on symbols without a prompt, so nothing needs to be invalidated for them. */
  lemma PromptlessJustifies(cfg: Config, u: User, v: User, a: Env, s: Id)
    requires WellFormed(cfg) && UserOk(cfg, u) && Justified(cfg, u, a) && Flagged(cfg, a)
    requires cfg.At(s).Symbol? && cfg.At(s).prompts == []
    requires forall i :: i != s ==> SameUser(u, v, i)
    requires u.Pick(s) == v.Pick(s)
    ensures Justified(cfg, v, a)
  {
    var before, after := Scope(cfg, u, a), Scope(cfg, v, a);
    forall f ensures Rederived(cfg, v, a, f) {
      if f in a {
        assert Rederived(cfg, u, a, f) && Marked(cfg, a, f);
        forall g | g in Reads(cfg, f) && cfg.At(g.id).Choice? ensures u.Tri(g.id) == v.Tri(g.id) {
          assert SameUser(u, v, g.id);
        }
        assert f.id != s ==> SameUser(u, v, f.id);
        if f == Tri(s) || f == Str(s) {
          assert Rederived(cfg, u, a, Vis(s));
          InvisibleValue(before, after, f);
        } else {
          EvalTransfers(before, after, f);
        }
      }
    }
  }

  /** The user value of an invisible symbol has no effect on the symbol. */
  lemma InvisibleValue(before: Scope, after: Scope, f: Facet)
    requires f.Tri? || f.Str?
    requires before.cfg.At(f.id).Symbol? && before.GetTri(Vis(f.id)) == Some(0)
    requires before.env == after.env && Covers(before, after, Reads(before.cfg, f))
    requires before.Eval(f).Some?
    ensures after.Eval(f) == before.Eval(f)
  {
    var item := before.cfg.At(f.id);
    if f.Tri? && item.choice.None? {
      FromDefaultsTransfers(before, after, f.id);
      ExprTransfers(before, after, item.rev);
      var base, rev := before.FromDefaults(item).value, before.ExprVal(item.rev).value;
      PromoteTransfers(before, after, f.id, if rev != 0 then Max(rev, base) else base);
    } else if f.Str? && !item.orig.Logical() {
      if before.DefaultStr(item).Some? { DefaultStrTransfers(before, after, f.id); }
      if item.orig.Numeric() { NumericTransfers(before, after, f.id); }
    }
  }

  // ---- Operations ----

  datatype Op = SetSym(i: Id, v: Given) | UnsetSym(i: Id) | SetChoice(c: Id, v: Given) | UnsetChoice(c: Id) | Get(f: Facet)

  datatype Observation = Accepted(ok: bool) | Done | Value(v: Val)

  predicate OpOk(cfg: Config, op: Op) {
    match op
    case SetSym(i, _) => i < |cfg.items| && cfg.At(i).Symbol?
    case UnsetSym(i) => i < |cfg.items| && cfg.At(i).Symbol?
    case SetChoice(c, _) => c < |cfg.items| && cfg.At(c).Choice?
    case UnsetChoice(c) => c < |cfg.items| && cfg.At(c).Choice?
    case Get(f) => Real(cfg, f)
  }

  /** What the operations do to the user's assignment; caching plays no part in it. */
  function UserAfter(cfg: Config, u: User, op: Op): User {
    match op
    case SetSym(i, v) =>
      var item := cfg.At(i);
      if !ValueOk(cfg, item, v) then u
      else User(u.values[i := v],
                if item.Symbol? && item.choice.Some? && v == GivenTri(2) then u.picked[item.choice.value := i] else u.picked)
    case UnsetSym(i) => User(u.values - {i}, u.picked)
    case SetChoice(c, v) => if ValueOk(cfg, cfg.At(c), v) then User(u.values[c := v], u.picked) else u
    case UnsetChoice(c) => User(u.values - {c}, u.picked - {c})
    case Get(_) => u
  }

  /** What a caller sees, by evaluation from scratch. */
  ghost function Observed(cfg: Config, rank: Ranking, u: User, op: Op): Option<Observation>
    requires Ranked(cfg, rank)
  {
    match op
    case SetSym(i, v) => Some(Accepted(ValueOk(cfg, cfg.At(i), v)))
    case SetChoice(c, v) => Some(Accepted(ValueOk(cfg, cfg.At(c), v)))
    case Get(f) =>
      var v :- Scratch(cfg, u, rank, f);
      Some(Value(v))
    case _ => Some(Done)
  }

  /** `seen` is what evaluation from scratch shows at each of the operations. */
  ghost predicate Explains(cfg: Config, rank: Ranking, u: User, ops: seq<Op>, seen: seq<Observation>)
    requires Ranked(cfg, rank)
  {
    && |seen| == |ops|
    && (ops != [] ==>
          var last := |ops| - 1;
          && Explains(cfg, rank, u, ops[..last], seen[..last])
          && Observed(cfg, rank, UserAfterAll(cfg, u, ops[..last]), ops[last]) == Some(seen[last]))
  }

  ghost function UserAfterAll(cfg: Config, u: User, ops: seq<Op>): User {
    if ops == [] then u else UserAfter(cfg, UserAfterAll(cfg, u, ops[..|ops| - 1]), ops[|ops| - 1])
  }

  class Kconfig {
    const cfg: Config
    ghost const rank: Ranking
    var user: User
    var cache: Env

    ghost predicate Valid()
      reads this
    {
      && WellFormed(cfg) && Ranked(cfg, rank) && UserOk(cfg, user)
      && Justified(cfg, user, cache) && Flagged(cfg, cache)
    }

    ghost function Now(): Scope
      reads this
    {
      Scope(cfg, user, cache)
    }

    constructor (cfg: Config, ghost rank: Ranking)
      requires WellFormed(cfg) && Ranked(cfg, rank)
      ensures Valid() && this.cfg == cfg && this.rank == rank
      ensures user == User(map[], map[]) && cache == map[]
    {
      this.cfg, this.rank := cfg, rank;
      user, cache := User(map[], map[]), map[];
    }

    // ---- Reading ----

    method AtomTriValue(a: Atom, ghost r: nat) returns (v: Tristate)
      requires Valid() && AtomOk(cfg, a) && Under(rank, AtomReads(cfg, a), r)
      modifies `cache
      ensures Valid() && Extends(old(cache), cache) && Now().AtomTri(a) == Some(v)
      decreases r, 2
    {
      match a
      case Sym(i) =>
        if cfg.At(i).orig.Logical() {
          assert Tri(i) in AtomReads(cfg, a);
          v := TriValue(i);
        } else {
          v := 0;
        }
      case Nmy(t) => v := t;
      case Quoted(_) => v := 0;
    }

    method AtomStrValue(a: Atom, ghost r: nat) returns (v: string)
      requires Valid() && AtomOk(cfg, a) && Under(rank, StrReads(cfg, a), r)
      modifies `cache
      ensures Valid() && Extends(old(cache), cache) && Now().AtomStr(a) == Some(v)
      decreases r, 2
    {
      match a
      case Sym(i) =>
        if cfg.At(i).orig == UNKNOWN {
          v := cfg.At(i).name;
        } else {
          assert Str(i) in StrReads(cfg, a);
          v := StrValue(i);
        }
      case Nmy(t) => v := TriToStr(t);
      case Quoted(s) => v := s;
    }

    method AtomNumValue(a: Atom, ghost r: nat) returns (n: Option<int>)
      requires Valid() && AtomOk(cfg, a) && Under(rank, AtomReads(cfg, a), r) && Under(rank, StrReads(cfg, a), r)
      modifies `cache
      ensures Valid() && Extends(old(cache), cache) && Now().AtomNum(a) == Some(n)
      decreases r, 3
    {
      if cfg.AtomType(a).Logical() {
        var t := AtomTriValue(a, r);
        n := Some(t);
      } else {
        var s := AtomStrValue(a, r);
        n := cfg.num(s, cfg.AtomType(a).Base());
      }
    }

    method CompareStrings(l: Atom, right: Atom, ghost r: nat) returns (comp: int)
      requires Valid() && AtomOk(cfg, l) && AtomOk(cfg, right)
      requires Under(rank, StrReads(cfg, l), r) && Under(rank, StrReads(cfg, right), r)
      modifies `cache
      ensures Valid() && Extends(old(cache), cache) && Now().CompareStr(l, right) == Some(comp)
      decreases r, 3
    {
      var a := AtomStrValue(l, r);
      ghost var mid := Now();
      var b := AtomStrValue(right, r);
      AtomStrTransfers(mid, Now(), l);
      comp := StrCmp(a, b);
    }

    method CompareAtomValues(l: Atom, right: Atom, ghost r: nat) returns (comp: int)
      requires Valid() && AtomOk(cfg, l) && AtomOk(cfg, right)
      requires Under(rank, AtomReads(cfg, l), r) && Under(rank, StrReads(cfg, l), r)
      requires Under(rank, AtomReads(cfg, right), r) && Under(rank, StrReads(cfg, right), r)
      modifies `cache
      ensures Valid() && Extends(old(cache), cache) && Now().CompareAtoms(l, right) == Some(comp)
      decreases r, 5
    {
      if cfg.AtomType(l) == STRING && cfg.AtomType(right) == STRING {
        comp := CompareStrings(l, right, r);
        return;
      }
      var a := AtomNumValue(l, r);
      ghost var first := Now();
      if a.None? {
        comp := CompareStrings(l, right, r);
      } else {
        comp := CompareToNumber(a.value, l, right, r);
      }
      AtomNumTransfers(first, Now(), l);
    }

    /** The left operand is the number `a`; the right one may still turn out not to be a number. */
    method CompareToNumber(a: int, l: Atom, right: Atom, ghost r: nat) returns (comp: int)
      requires Valid() && AtomOk(cfg, l) && AtomOk(cfg, right) && Under(rank, StrReads(cfg, l), r)
      requires Under(rank, AtomReads(cfg, right), r) && Under(rank, StrReads(cfg, right), r)
      modifies `cache
      ensures Valid() && Extends(old(cache), cache) && Now().CompareToNum(a, l, right) == Some(comp)
      decreases r, 4
    {
      var b := AtomNumValue(right, r);
      ghost var mid := Now();
      if b.None? {
        comp := CompareStrings(l, right, r);
        AtomNumTransfers(mid, Now(), right);
      } else {
        comp := a - b.value;
      }
      NumCompared(Now(), a, l, right, b, comp);
    }

    static lemma NumCompared(s: Scope, a: int, l: Atom, r: Atom, b: Option<int>, comp: int)
      requires s.AtomNum(r) == Some(b)
      requires if b.None? then s.CompareStr(l, r) == Some(comp) else comp == a - b.value
      ensures s.CompareToNum(a, l, r) == Some(comp)
    {}

    method ExprValue(e: Expr, ghost r: nat) returns (v: Tristate)
      requires Valid() && ExprOk(cfg, e) && Under(rank, ExprReads(cfg, e), r)
      modifies `cache
      ensures Valid() && Extends(old(cache), cache) && Now().ExprVal(e) == Some(v)
      decreases r, 6, e
    {
      match e
      case Leaf(a) => v := AtomTriValue(a, r);
      case ChoiceMode(c) => v := ModeValue(c, r);
      case And(left, right) =>
        var a := ExprValue(left, r);
        if a == 0 { return 0; }
        ghost var mid := Now();
        var b := ExprValue(right, r);
        ExprTransfers(mid, Now(), left);
        v := Min(a, b);
      case Or(left, right) =>
        var a := ExprValue(left, r);
        if a == 2 { return 2; }
        ghost var mid := Now();
        var b := ExprValue(right, r);
        ExprTransfers(mid, Now(), left);
        v := Max(a, b);
      case Not(x) =>
        var a := ExprValue(x, r);
        v := 2 - a;
      case Compare(rel, left, right) =>
        var comp := CompareAtomValues(left, right, r);
        v := if rel.Holds(comp) then 2 else 0;
    }

    method ModulesTypeValue(ghost r: nat) returns (t: Type)
      requires Valid() && Under(rank, ModulesReads(cfg), r)
      modifies `cache
      ensures Valid() && Extends(old(cache), cache) && Now().ModulesType() == Some(t)
      decreases r, 3
    {
      var m := AtomTriValue(Sym(cfg.modules), r);
      t := if m == 0 then BOOL else TRISTATE;
    }

    method ModeValue(c: Id, ghost r: nat) returns (v: Tristate)
      requires Valid() && cfg.At(c).Choice? && Under(rank, ModeReads(cfg, c), r)
      modifies `cache
      ensures Valid() && Extends(old(cache), cache) && Now().Mode(c) == Some(v)
      decreases r, 4
    {
      var item := cfg.At(c);
      v := if item.optional then 0 else 1;
      var given := user.Tri(c);
      if given.Some? { v := Max(v, given.value); }
      assert Vis(c) in ModeReads(cfg, c);
      var vis := Visibility(c);
      v := Min(v, vis);
      if v == 1 {
        if item.orig == BOOL {
          v := 2;
        } else if item.orig == TRISTATE {
          var t := ModulesTypeValue(r);
          v := if t == BOOL then 2 else 1;
        }
      }
    }

    method TypeValue(i: Id, ghost r: nat) returns (t: Type)
      requires Valid() && i < |cfg.items| && Under(rank, TypeReads(cfg, i), r)
      modifies `cache
      ensures Valid() && Extends(old(cache), cache) && Now().TypeNow(i) == Some(t)
      decreases r, 5
    {
      var item := cfg.At(i);
      if item.orig != TRISTATE { return item.orig; }
      if item.Symbol? && item.choice.Some? {
        assert WellFormedItem(cfg, i);
        var mode := ModeValue(item.choice.value, r);
        if mode == 2 { return BOOL; }
        ghost var mid := Now();
        t := ModulesTypeValue(r);
        ModeTransfers(mid, Now(), item.choice.value);
      } else {
        t := ModulesTypeValue(r);
      }
    }

    method FirstActiveProp<T>(ps: seq<Prop<T>>, ghost r: nat) returns (k: nat, v: Tristate)
      requires Valid()
      requires forall p :: p in ps ==> ExprOk(cfg, p.cond) && Under(rank, ExprReads(cfg, p.cond), r)
      modifies `cache
      ensures Valid() && Extends(old(cache), cache)
      ensures k <= |ps| && Now().FirstActive(ps, 0) == Some((k, v))
      decreases r, 7
    {
      k, v := 0, 0;
      while k < |ps|
        invariant Valid() && Extends(old(cache), cache) && k <= |ps|
        invariant Inactive(Now(), ps, k) && v == 0
        decreases |ps| - k
      {
        ghost var before := Now();
        v := ExprValue(ps[k].cond, r);
        KeepInactive(before, Now(), ps, k);
        if v != 0 { break; }
        k := k + 1;
      }
      SkipInactive(Now(), ps, 0, k);
    }

    /** The conditions of the first `k` properties are n. */
    static ghost predicate Inactive<T>(s: Scope, ps: seq<Prop<T>>, k: nat) {
      k <= |ps| && forall j :: 0 <= j < k ==> s.ExprVal(ps[j].cond) == Some(0)
    }

    static lemma KeepInactive<T>(a: Scope, b: Scope, ps: seq<Prop<T>>, k: nat)
      requires a.cfg == b.cfg && a.user == b.user && Extends(a.env, b.env) && Inactive(a, ps, k)
      ensures Inactive(b, ps, k)
    {
      forall j | 0 <= j < k ensures b.ExprVal(ps[j].cond) == Some(0) { ExprTransfers(a, b, ps[j].cond); }
    }

    static lemma {:induction false} SkipInactive<T>(s: Scope, ps: seq<Prop<T>>, j: nat, k: nat)
      requires j <= k && Inactive(s, ps, k)
      ensures s.FirstActive(ps, j) == s.FirstActive(ps, k)
      decreases k - j
    {
      if j < k { SkipInactive(s, ps, j + 1, k); }
    }

    /** The maximum of the prompt conditions. */
    method PromptMax(es: seq<Expr>, ghost r: nat) returns (vis: Tristate)
      requires Valid()
      requires forall e :: e in es ==> ExprOk(cfg, e) && Under(rank, ExprReads(cfg, e), r)
      modifies `cache
      ensures Valid() && Extends(old(cache), cache) && Now().MaxOf(es) == Some(vis)
      decreases r, 7
    {
      vis := 0;
      for k := 0 to |es|
        invariant Valid() && Extends(old(cache), cache)
        invariant Now().MaxOf(es[..k]) == Some(vis)
      {
        ghost var before := Now();
        var v := ExprValue(es[k], r);
        MaxOfTransfers(before, Now(), es[..k]);
        assert es[..k + 1][..k] == es[..k];
        vis := Max(vis, v);
      }
      assert es[..|es|] == es;
    }

    method HiddenByMode(i: Id, vis: Tristate, ghost r: nat) returns (hidden: bool)
      requires Valid() && i < |cfg.items| && Under(rank, VisReads(cfg, i), r)
      modifies `cache
      ensures Valid() && Extends(old(cache), cache) && Now().Hidden(cfg.At(i), vis) == Some(hidden)
      decreases r, 7
    {
      var item := cfg.At(i);
      hidden := false;
      if item.Symbol? && item.choice.Some? {
        assert WellFormedItem(cfg, i);
        if cfg.At(item.choice.value).orig == TRISTATE && item.orig != TRISTATE {
          var mode := ModeValue(item.choice.value, r);
          hidden := mode != 2;
        } else if item.orig == TRISTATE && vis == 1 {
          var mode := ModeValue(item.choice.value, r);
          hidden := mode == 2;
        }
      }
    }

    lemma HiddenTransfers(a: Scope, b: Scope, i: Id, vis: Tristate)
      requires Covers(a, b, VisReads(a.cfg, i)) && a.Hidden(a.cfg.At(i), vis).Some?
      ensures b.Hidden(a.cfg.At(i), vis) == a.Hidden(a.cfg.At(i), vis)
    {
      var item := a.cfg.At(i);
      if item.Symbol? && item.choice.Some? && a.Mode(item.choice.value).Some? {
        ModeTransfers(a, b, item.choice.value);
      }
    }

    method Visibility(i: Id) returns (v: Tristate)
      requires Valid() && i < |cfg.items|
      modifies `cache
      ensures Valid() && Extends(old(cache), cache) && Now().GetTri(Vis(i)) == Some(v)
      decreases rank(Vis(i)), 10
    {
      assert Rederived(cfg, user, cache, Vis(i));
      if Vis(i) in cache { return cache[Vis(i)].t; }
      ghost var r := rank(Vis(i));
      var item := cfg.At(i);
      assert WellFormedItem(cfg, i);
      assert forall g :: g in VisReads(cfg, i) ==> g in Reads(cfg, Vis(i));
      v := PromptMax(item.prompts, r);
      ghost var first := Now();
      var hidden := HiddenByMode(i, v, r);
      ghost var second := Now();
      MaxOfTransfers(first, second, item.prompts);
      var prompted := v;
      if hidden {
        v := 0;
      } else if v == 1 {
        var t := TypeValue(i, r);
        MaxOfTransfers(second, Now(), item.prompts);
        HiddenTransfers(second, Now(), i, prompted);
        if t != TRISTATE { v := 2; }
      }
      Store(Vis(i), TriVal(v));
    }

    /** Records a value that has just been computed. */
    method Store(f: Facet, v: Val)
      requires Valid() && f.id < |cfg.items| && Now().Eval(f) == Some(v)
      requires f.Vis? || Vis(f.id) in cache
      modifies `cache
      ensures Valid() && Extends(old(cache), cache) && cache == old(cache)[f := v]
    {
      AddEntry(cfg, user, cache, f, v);
      cache := cache[f := v];
      forall g ensures Marked(cfg, cache, g) { assert Marked(cfg, old(cache), g); }
    }

    method TriValue(i: Id) returns (v: Tristate)
      requires Valid() && i < |cfg.items| && Proper(cfg, Tri(i))
      modifies `cache
      ensures Valid() && Extends(old(cache), cache) && Now().GetTri(Tri(i)) == Some(v)
      decreases rank(Tri(i)), 10
    {
      assert Rederived(cfg, user, cache, Tri(i));
      if Tri(i) in cache { return cache[Tri(i)].t; }
      ghost var r := rank(Tri(i));
      var item := cfg.At(i);
      assert WellFormedItem(cfg, i);
      SymReadsUnder(cfg, rank, i);
      var vis := Visibility(i);
      if item.choice.None? {
        v := PlainTriValue(i, vis, r);
      } else {
        v := MemberTriValue(i, vis, r);
      }
      Store(Tri(i), TriVal(v));
    }

    /** The value of a choice symbol, which is y if it is selected in y mode. */
    method MemberTriValue(i: Id, vis: Tristate, ghost r: nat) returns (v: Tristate)
      requires Valid() && i < |cfg.items| && cfg.At(i).Symbol? && cfg.At(i).orig.Logical() && cfg.At(i).choice.Some?
      requires r == rank(Tri(i)) && Now().GetTri(Vis(i)) == Some(vis)
      modifies `cache
      ensures Valid() && Extends(old(cache), cache) && Now().EvalTri(i) == Some(v)
      decreases r, 9
    {
      var c := cfg.At(i).choice.value;
      assert WellFormedItem(cfg, i) && Sel(c) in Reads(cfg, Tri(i));
      if vis == 2 {
        var sel := Selection(c);
        v := if sel == Some(i) then 2 else 0;
      } else {
        var given := user.Tri(i);
        v := if vis != 0 && given.Some? && given.value != 0 then 1 else 0;
      }
    }

    method PlainTriValue(i: Id, vis: Tristate, ghost r: nat) returns (v: Tristate)
      requires Valid() && i < |cfg.items| && cfg.At(i).Symbol?
      requires SymUnder(cfg, rank, cfg.At(i), r) && Under(rank, TypeReads(cfg, i), r)
      modifies `cache
      ensures Valid() && Extends(old(cache), cache) && Now().PlainTri(i, vis) == Some(v)
      decreases r, 9
    {
      var item := cfg.At(i);
      assert WellFormedItem(cfg, i);
      var given := user.Tri(i);
      var base;
      if vis != 0 && given.Some? {
        base := Min(given.value, vis);
      } else {
        base := FromDefaultsValue(i, r);
      }
      ghost var first := Now();
      var rev := ExprValue(item.rev, r);
      ghost var second := Now();
      v := if rev != 0 then Max(rev, base) else base;
      v := PromoteValue(i, v, r);
      ExprTransfers(second, Now(), item.rev);
      if !(vis != 0 && given.Some?) { FromDefaultsTransfers(first, Now(), i); }
    }

    method FromDefaultsValue(i: Id, ghost r: nat) returns (val: Tristate)
      requires Valid() && i < |cfg.items| && cfg.At(i).Symbol? && SymUnder(cfg, rank, cfg.At(i), r)
      modifies `cache
      ensures Valid() && Extends(old(cache), cache) && Now().FromDefaults(cfg.At(i)) == Some(val)
      decreases r, 8
    {
      var item := cfg.At(i);
      assert WellFormedItem(cfg, i);
      ghost var first;
      val, first := DefaultValue(i, r);
      ghost var s0 := Now();
      var weak := ExprValue(item.weak, r);
      ghost var s1 := Now();
      DefaultTransfers(s0, s1, item, first);
      if weak != 0 {
        var direct := ExprValue(item.direct, r);
        DefaultTransfers(s1, Now(), item, first);
        ExprTransfers(s1, Now(), item.weak);
        if direct != 0 { val := Max(weak, val); }
      }
    }

    /** The value of the first active default; n without one. */
    method DefaultValue(i: Id, ghost r: nat) returns (val: Tristate, ghost first: (nat, Tristate))
      requires Valid() && i < |cfg.items| && cfg.At(i).Symbol? && SymUnder(cfg, rank, cfg.At(i), r)
      modifies `cache
      ensures Valid() && Extends(old(cache), cache)
      ensures Now().FirstActive(cfg.At(i).defaults, 0) == Some(first) && Now().DefaultAt(cfg.At(i), first) == Some(val)
      decreases r, 8, 0
    {
      var item := cfg.At(i);
      assert WellFormedItem(cfg, i);
      var k, cond := FirstActiveProp(item.defaults, r);
      first := (k, cond);
      val := 0;
      if k < |item.defaults| {
        ghost var mid := Now();
        var p := item.defaults[k];
        assert p in item.defaults;
        var v := ExprValue(p.body, r);
        val := Min(v, cond);
        FirstActiveTransfers(mid, Now(), item.defaults, 0);
      }
    }

    static lemma DefaultTransfers(a: Scope, b: Scope, item: Item, first: (nat, Tristate))
      requires a.cfg == b.cfg && a.user == b.user && Extends(a.env, b.env) && item.Symbol?
      requires a.FirstActive(item.defaults, 0) == Some(first) && a.DefaultAt(item, first).Some?
      ensures b.FirstActive(item.defaults, 0) == Some(first) && b.DefaultAt(item, first) == a.DefaultAt(item, first)
    {
      FirstActiveTransfers(a, b, item.defaults, 0);
      if first.0 < |item.defaults| { ExprTransfers(a, b, item.defaults[first.0].body); }
    }

    method PromoteValue(i: Id, val: Tristate, ghost r: nat) returns (v: Tristate)
      requires Valid() && i < |cfg.items| && cfg.At(i).Symbol?
      requires Under(rank, ExprReads(cfg, cfg.At(i).weak), r) && Under(rank, TypeReads(cfg, i), r)
      modifies `cache
      ensures Valid() && Extends(old(cache), cache) && Now().Promote(i, val) == Some(v)
      decreases r, 8
    {
      v := val;
      if val == 1 {
        assert WellFormedItem(cfg, i);
        var t := TypeValue(i, r);
        if t == BOOL { return 2; }
        ghost var mid := Now();
        var weak := ExprValue(cfg.At(i).weak, r);
        TypeTransfers(mid, Now(), i);
        if weak == 2 { v := 2; }
      }
    }

    method DefaultStrValue(i: Id, ghost r: nat) returns (val: string)
      requires Valid() && i < |cfg.items| && cfg.At(i).Symbol? && !cfg.At(i).orig.Logical()
      requires TextUnder(cfg, rank, cfg.At(i), r)
      modifies `cache
      ensures Valid() && Extends(old(cache), cache) && Now().DefaultStr(cfg.At(i)) == Some(val)
      decreases r, 8
    {
      var item := cfg.At(i);
      assert WellFormedItem(cfg, i);
      val := "";
      var k, _ := FirstActiveProp(item.defaults, r);
      if k < |item.defaults| {
        var p := item.defaults[k];
        assert p in item.defaults;
        ghost var mid := Now();
        val := AtomStrValue(p.body.atom, r);
        FirstActiveTransfers(mid, Now(), item.defaults, 0);
      }
    }

    method ActiveRangeValue(i: Id, ghost r: nat) returns (range: Option<(int, int)>)
      requires Valid() && i < |cfg.items| && cfg.At(i).Symbol?
      requires TextUnder(cfg, rank, cfg.At(i), r)
      modifies `cache
      ensures Valid() && Extends(old(cache), cache) && Now().ActiveRange(cfg.At(i)) == Some(range)
      decreases r, 8
    {
      var item := cfg.At(i);
      assert WellFormedItem(cfg, i);
      var k, _ := FirstActiveProp(item.ranges, r);
      if k < |item.ranges| {
        var p := item.ranges[k];
        assert Under(rank, RangeReads(cfg, p), r);
        ghost var s0 := Now();
        var low := AtomStrValue(p.body.low, r);
        ghost var s1 := Now();
        var high := AtomStrValue(p.body.high, r);
        FirstActiveTransfers(s0, Now(), item.ranges, 0);
        AtomStrTransfers(s1, Now(), p.body.low);
        range := Some((cfg.Numeral(low, item.orig), cfg.Numeral(high, item.orig)));
      } else {
        range := None;
      }
    }

    method NumericStrValue(i: Id, vis: Tristate, ghost r: nat) returns (val: string)
      requires Valid() && i < |cfg.items| && cfg.At(i).Symbol? && cfg.At(i).orig.Numeric()
      requires TextUnder(cfg, rank, cfg.At(i), r)
      modifies `cache
      ensures Valid() && Extends(old(cache), cache) && Now().NumericStr(i, vis) == Some(val)
      decreases r, 9, 0
    {
      var item := cfg.At(i);
      var range := ActiveRangeValue(i, r);
      var given := user.Str(i);
      if vis != 0 && given.Some? && given.value != "" {
        assert ValueOk(cfg, item, user.values[i]);
        var n := cfg.num(given.value, item.orig.Base()).value;
        if range.None? || range.value.0 <= n <= range.value.1 { return given.value; }
      }
      ghost var mid := Now();
      val := DefaultStrValue(i, r);
      NumericTransfers(mid, Now(), i);
      val := Clamped(item.orig, range, val);
    }

    method Clamped(t: Type, range: Option<(int, int)>, val: string) returns (v: string)
      ensures v == Now().Clamp(t, range, val)
    {
      v := val;
      if range.Some? {
        var n := cfg.Numeral(val, t);
        if n < range.value.0 {
          v := cfg.show(range.value.0, t == HEX);
        } else if n > range.value.1 {
          v := cfg.show(range.value.1, t == HEX);
        }
      }
    }

    /** The value of a string, int or hex symbol. */
    method TextValue(i: Id, vis: Tristate, ghost r: nat) returns (v: string)
      requires Valid() && i < |cfg.items| && cfg.At(i).Symbol? && !cfg.At(i).orig.Logical()
      requires TextUnder(cfg, rank, cfg.At(i), r)
      modifies `cache
      ensures Valid() && Extends(old(cache), cache) && Now().TextStr(i, vis) == Some(v)
      decreases r, 9, 1
    {
      var given := user.Str(i);
      if cfg.At(i).orig.Numeric() {
        v := NumericStrValue(i, vis, r);
      } else if vis != 0 && given.Some? {
        v := given.value;
      } else {
        v := DefaultStrValue(i, r);
      }
    }

    method StrValue(i: Id) returns (v: string)
      requires Valid() && i < |cfg.items| && Proper(cfg, Str(i))
      modifies `cache
      ensures Valid() && Extends(old(cache), cache) && Now().GetStr(Str(i)) == Some(v)
      decreases rank(Str(i)), 10
    {
      assert Rederived(cfg, user, cache, Str(i));
      if Str(i) in cache { return cache[Str(i)].s; }
      var item := cfg.At(i);
      if item.orig.Logical() {
        assert Tri(i) in Reads(cfg, Str(i));
        var t := TriValue(i);
        v := TriToStr(t);
        assert Marked(cfg, cache, Tri(i));
      } else {
        TextReadsUnder(cfg, rank, i);
        var vis := Visibility(i);
        v := TextValue(i, vis, rank(Str(i)));
      }
      Store(Str(i), StrVal(v));
    }

    method SymAssignableValue(i: Id, vis: Tristate, ghost r: nat) returns (v: seq<Tristate>)
      requires Valid() && i < |cfg.items| && cfg.At(i).Symbol? && Under(rank, AsnReads(cfg, i), r)
      modifies `cache
      ensures Valid() && Extends(old(cache), cache) && Now().SymAssignable(i, vis) == Some(v)
      decreases r, 9
    {
      var item := cfg.At(i);
      assert WellFormedItem(cfg, i);
      var rev := ExprValue(item.rev, r);
      ghost var first := Now();
      if vis == 2 {
        if item.choice.Some? || rev == 2 { return [2]; }
        var t := TypeValue(i, r);
        ghost var second := Now();
        var noMiddle := t == BOOL;
        if !noMiddle {
          var weak := ExprValue(item.weak, r);
          noMiddle := weak == 2;
        }
        TypeTransfers(second, Now(), i);
        ExprTransfers(first, Now(), item.rev);
        v := (if rev == 0 then [0] else []) + (if noMiddle then [] else [1]) + [2];
      } else if rev == 0 {
        var weak := ExprValue(item.weak, r);
        ExprTransfers(first, Now(), item.rev);
        v := if weak != 2 then [0, 1] else [0, 2];
      } else {
        v := [rev];
      }
    }

    method Assignable(i: Id) returns (v: seq<Tristate>)
      requires Valid() && i < |cfg.items| && Proper(cfg, Asn(i))
      modifies `cache
      ensures Valid() && Extends(old(cache), cache) && Asn(i) in cache && cache[Asn(i)] == AsnVal(v)
      decreases rank(Asn(i)), 10
    {
      assert Rederived(cfg, user, cache, Asn(i));
      if Asn(i) in cache { return cache[Asn(i)].a; }
      ghost var r := rank(Asn(i));
      var item := cfg.At(i);
      assert Vis(i) in Reads(cfg, Asn(i));
      assert Under(rank, AsnReads(cfg, i), r);
      var vis := Visibility(i);
      v := [];
      if vis != 0 {
        if item.Symbol? {
          v := SymAssignableValue(i, vis, r);
        } else if vis == 2 {
          var t := TypeValue(i, r);
          v := (if item.optional then [0] else []) + (if t == BOOL then [] else [1]) + [2];
        } else {
          v := if item.optional then [0, 1] else [1];
        }
      }
      Store(Asn(i), AsnVal(v));
    }

    /** Whether a choice default applies. */
    method Applies(p: Prop<Id>, ghost r: nat) returns (yes: bool)
      requires Valid() && ExprOk(cfg, p.cond) && p.body < |cfg.items|
      requires Under(rank, ExprReads(cfg, p.cond), r) && rank(Vis(p.body)) < r
      modifies `cache
      ensures Valid() && Extends(old(cache), cache)
      ensures if yes then Chosen(Now(), p) else Passed(Now(), p)
      decreases r, 8
    {
      var v := ExprValue(p.cond, r);
      if v == 0 { return false; }
      ghost var mid := Now();
      var vis := Visibility(p.body);
      ExprTransfers(mid, Now(), p.cond);
      yes := vis != 0;
    }

    /** `_selection_from_defaults`. */
    method SelectionFromDefaults(c: Id, ghost r: nat) returns (pick: Option<Id>)
      requires Valid() && c < |cfg.items| && cfg.At(c).Choice? && PicksUnder(cfg, rank, cfg.At(c), r)
      modifies `cache
      ensures Valid() && Extends(old(cache), cache) && Now().FromPicks(cfg.At(c), 0) == Some(pick)
      decreases r, 9
    {
      var item := cfg.At(c);
      assert WellFormedItem(cfg, c);
      for k := 0 to |item.picks|
        invariant Valid() && Extends(old(cache), cache)
        invariant forall p :: p in item.picks[..k] ==> Passed(Now(), p)
      {
        ghost var before := Now();
        var p := item.picks[k];
        assert p in item.picks;
        var yes := Applies(p, r);
        KeepPassed(before, Now(), item.picks[..k]);
        if yes {
          SkipPassed(Now(), item, 0, k);
          return Some(p.body);
        }
        assert item.picks[..k + 1] == item.picks[..k] + [p];
      }
      ghost var before := Now();
      pick := FirstVisibleSym(c, r);
      assert item.picks[..|item.picks|] == item.picks;
      KeepPassed(before, Now(), item.picks);
      SkipPassed(Now(), item, 0, |item.picks|);
    }

    method FirstVisibleSym(c: Id, ghost r: nat) returns (pick: Option<Id>)
      requires Valid() && c < |cfg.items| && cfg.At(c).Choice? && PicksUnder(cfg, rank, cfg.At(c), r)
      modifies `cache
      ensures Valid() && Extends(old(cache), cache) && Now().FirstVisible(cfg.At(c).syms) == Some(pick)
      decreases r, 8
    {
      var item := cfg.At(c);
      assert WellFormedItem(cfg, c);
      for k := 0 to |item.syms|
        invariant Valid() && Extends(old(cache), cache)
        invariant forall x :: x in item.syms[..k] ==> Invisible(Now(), x)
      {
        ghost var before := Now();
        var x := item.syms[k];
        assert x in item.syms;
        var vis := Visibility(x);
        KeepInvisible(before, Now(), item.syms[..k]);
        if vis != 0 {
          FirstVisibleAt(Now(), item.syms, k);
          return Some(x);
        }
        NextInvisible(Now(), item.syms, k);
      }
      FirstVisibleAt(Now(), item.syms, |item.syms|);
      pick := None;
    }

    static predicate Invisible(s: Scope, x: Id) { s.GetTri(Vis(x)) == Some(0) }

    static lemma KeepInvisible(a: Scope, b: Scope, syms: seq<Id>)
      requires Extends(a.env, b.env) && forall x :: x in syms ==> Invisible(a, x)
      ensures forall x :: x in syms ==> Invisible(b, x)
    {}

    static lemma NextInvisible(s: Scope, syms: seq<Id>, k: nat)
      requires k < |syms| && Invisible(s, syms[k]) && forall x :: x in syms[..k] ==> Invisible(s, x)
      ensures forall x :: x in syms[..k + 1] ==> Invisible(s, x)
    {
      assert syms[..k + 1] == syms[..k] + [syms[k]];
    }

    static lemma {:induction false} FirstVisibleAt(s: Scope, syms: seq<Id>, k: nat)
      requires k <= |syms| && forall x :: x in syms[..k] ==> Invisible(s, x)
      requires k < |syms| ==> s.GetTri(Vis(syms[k])).Some? && s.GetTri(Vis(syms[k])).value != 0
      ensures s.FirstVisible(syms) == Some(if k < |syms| then Some(syms[k]) else None)
    {
      if k > 0 {
        assert syms[..k] == [syms[0]] + syms[1..][..k - 1];
        assert Invisible(s, syms[0]);
        FirstVisibleAt(s, syms[1..], k - 1);
      }
    }

    /** A choice default that does not apply: its condition is n or its symbol is invisible. */
    static predicate Passed(s: Scope, p: Prop<Id>) {
      s.ExprVal(p.cond).Some? && (s.ExprVal(p.cond).value != 0 ==> s.GetTri(Vis(p.body)) == Some(0))
    }

    static predicate Chosen(s: Scope, p: Prop<Id>) {
      s.ExprVal(p.cond).Some? && s.ExprVal(p.cond).value != 0
      && s.GetTri(Vis(p.body)).Some? && s.GetTri(Vis(p.body)).value != 0
    }

    static lemma KeepPassed(a: Scope, b: Scope, ps: seq<Prop<Id>>)
      requires a.cfg == b.cfg && a.user == b.user && Extends(a.env, b.env)
      requires forall p :: p in ps ==> Passed(a, p)
      ensures forall p :: p in ps ==> Passed(b, p)
    {
      forall p | p in ps ensures Passed(b, p) { ExprTransfers(a, b, p.cond); }
    }

    static lemma {:induction false} SkipPassed(s: Scope, item: Item, j: nat, k: nat)
      requires item.Choice? && j <= k <= |item.picks|
      requires forall p :: p in item.picks[..k] ==> Passed(s, p)
      ensures s.FromPicks(item, j) == s.FromPicks(item, k)
      decreases k - j
    {
      if j < k {
        assert item.picks[..k][j] == item.picks[j] && item.picks[j] in item.picks[..k];
        SkipPassed(s, item, j + 1, k);
      }
    }

    method Selection(c: Id) returns (pick: Option<Id>)
      requires Valid() && c < |cfg.items| && cfg.At(c).Choice?
      modifies `cache
      ensures Valid() && Extends(old(cache), cache) && Now().GetSel(c) == Some(pick)
      decreases rank(Sel(c)), 11
    {
      assert Rederived(cfg, user, cache, Sel(c));
      if Sel(c) in cache { return cache[Sel(c)].pick; }
      ghost var r := rank(Sel(c));
      PicksReadsUnder(cfg, rank, c);
      var mode := ModeValue(c, r);
      ghost var first := Now();
      assert Vis(c) in cache;
      pick := None;
      if mode == 2 {
        pick := SelectionInY(c, r);
        ModeTransfers(first, Now(), c);
      }
      Store(Sel(c), SelVal(pick));
    }

    method SelectionInY(c: Id, ghost r: nat) returns (pick: Option<Id>)
      requires Valid() && c < |cfg.items| && cfg.At(c).Choice? && PicksUnder(cfg, rank, cfg.At(c), r)
      modifies `cache
      ensures Valid() && Extends(old(cache), cache) && Now().PickInY(cfg.At(c), user.Pick(c)) == Some(pick)
      decreases r, 10
    {
      var picked := user.Pick(c);
      if picked.Some? {
        assert WellFormedItem(cfg, c) && picked.value in cfg.At(c).syms;
        var vis := Visibility(picked.value);
        if vis != 0 { return picked; }
      }
      pick := SelectionFromDefaults(c, r);
    }

    // ---- Invalidation ----

    /** `_rec_invalidate` of a symbol or a choice. It terminates on the cycles between choices and their symbols,
        because it only follows dependents that still have a cached visibility. */
    method RecInvalidate(i: Id)
      requires WellFormed(cfg) && Flagged(cfg, cache)
      modifies `cache
      ensures Flagged(cfg, cache) && Wiped(old(cache), cache) && Closed(cfg, old(cache), cache)
      ensures Absent(cache, i) && Cut(cfg, cache, i)
      ensures i == cfg.modules ==> cache == map[]
      decreases Cached(cache) + if Vis(i) in cache then 0 else 1
    {
      if i == cfg.modules {
        cache := map[];
        return;
      }
      cache := map f | f in cache && f.id != i :: cache[f];
      WipedShrinks(old(cache), cache);
      forall f ensures Marked(cfg, cache, f) { assert Marked(cfg, old(cache), f); }
      var rest := Dependents(cfg, i);
      while rest != {}
        invariant Flagged(cfg, cache) && Wiped(old(cache), cache) && Absent(cache, i)
        invariant forall k :: k in Dependents(cfg, i) ==> k in rest || Absent(cache, k)
        invariant ClosedBut(cfg, old(cache), cache, i)
        decreases rest
      {
        var k :| k in rest;
        rest := rest - {k};
        if Vis(k) in cache {
          WipedShrinks(old(cache), cache);
          ghost var before := cache;
          RecInvalidate(k);
          WipedFurther(cfg, old(cache), before, cache, i);
        } else {
          forall f | f in cache ensures f.id != k { assert Marked(cfg, cache, f); }
        }
      }
    }

    // ---- Assignment ----

    /** `Symbol.set_value`. */
    method SetSymValue(i: Id, v: Given) returns (ok: bool)
      requires Valid() && OpOk(cfg, SetSym(i, v))
      modifies this
      ensures Valid() && ok == ValueOk(cfg, cfg.At(i), v)
      ensures user == UserAfter(cfg, old(user), SetSym(i, v))
    {
      var item := cfg.At(i);
      assert WellFormedItem(cfg, i);
      if i in user.values && user.values[i] == v && item.choice.None? {
        assert user.values[i := v] == user.values;
        return true;
      }
      if !ValueOk(cfg, item, v) { return false; }
      if item.choice.Some? && v == GivenTri(2) {
        SelectInChoice(i);
      } else {
        ghost var u := user;
        user := User(user.values[i := v], user.picked);
        InvalidateIfPrompted(i, u);
      }
      return true;
    }

    /** Setting a choice symbol to y also makes it the user selection of its choice. */
    method SelectInChoice(i: Id)
      requires Valid() && OpOk(cfg, UnsetSym(i)) && cfg.At(i).choice.Some? && ValueOk(cfg, cfg.At(i), GivenTri(2))
      modifies this
      ensures Valid() && user == UserAfter(cfg, old(user), SetSym(i, GivenTri(2)))
    {
      var c := cfg.At(i).choice.value;
      assert WellFormedItem(cfg, i);
      ghost var u := user;
      user := User(user.values[i := GivenTri(2)], user.picked[c := i]);
      assert i in Dependents(cfg, c);
      InvalidateChoice(c, u);
    }

    /** `Choice._rec_invalidate`, after the user values of the choice or of its symbols have changed from `u`. */
    method InvalidateChoice(c: Id, ghost u: User)
      requires WellFormed(cfg) && Ranked(cfg, rank) && UserOk(cfg, u) && UserOk(cfg, user)
      requires Justified(cfg, u, cache) && Flagged(cfg, cache)
      requires forall j :: !SameUser(u, user, j) ==> j == c || (j in Dependents(cfg, c) && cfg.At(j).Symbol?)
      modifies `cache
      ensures Valid()
    {
      ghost var a := cache;
      RecInvalidate(c);
      InvalidationJustifies(cfg, u, user, a, cache);
    }

    /** `_rec_invalidate_if_has_prompt`, after the user value of symbol `i` has changed from what it was in `u`. */
    method InvalidateIfPrompted(i: Id, ghost u: User)
      requires WellFormed(cfg) && Ranked(cfg, rank) && UserOk(cfg, u) && UserOk(cfg, user)
      requires Justified(cfg, u, cache) && Flagged(cfg, cache)
      requires OpOk(cfg, UnsetSym(i)) && u.Pick(i) == user.Pick(i) && forall j :: j != i ==> SameUser(u, user, j)
      modifies `cache
      ensures Valid()
    {
      if cfg.At(i).prompts != [] {
        ghost var a := cache;
        RecInvalidate(i);
        InvalidationJustifies(cfg, u, user, a, cache);
      } else {
        PromptlessJustifies(cfg, u, user, cache, i);
      }
    }

    /** `Symbol.unset_value`. */
    method UnsetSymValue(i: Id)
      requires Valid() && OpOk(cfg, UnsetSym(i))
      modifies this
      ensures Valid() && user == UserAfter(cfg, old(user), UnsetSym(i))
    {
      if i in user.values {
        ghost var u := user;
        user := User(user.values - {i}, user.picked);
        InvalidateIfPrompted(i, u);
      } else {
        assert user.values - {i} == user.values;
      }
    }

    /** `Choice.set_value`. */
    method SetChoiceValue(c: Id, v: Given) returns (ok: bool)
      requires Valid() && OpOk(cfg, SetChoice(c, v))
      modifies this
      ensures Valid() && ok == ValueOk(cfg, cfg.At(c), v)
      ensures user == UserAfter(cfg, old(user), SetChoice(c, v))
    {
      if c in user.values && user.values[c] == v {
        assert user.values[c := v] == user.values;
        return true;
      }
      if !ValueOk(cfg, cfg.At(c), v) { return false; }
      ghost var u := user;
      user := User(user.values[c := v], user.picked);
      InvalidateChoice(c, u);
      return true;
    }

    /** `Choice.unset_value`. */
    method UnsetChoiceValue(c: Id)
      requires Valid() && OpOk(cfg, UnsetChoice(c))
      modifies this
      ensures Valid() && user == UserAfter(cfg, old(user), UnsetChoice(c))
    {
      if c in user.values || c in user.picked {
        ghost var u := user;
        user := User(user.values - {c}, user.picked - {c});
        InvalidateChoice(c, u);
      } else {
        assert user.values - {c} == user.values && user.picked - {c} == user.picked;
      }
    }

    // ---- Whole runs ----

    /** Any of the cached properties, read from outside. */
    method Read(f: Facet) returns (v: Val)
      requires Valid() && OpOk(cfg, Get(f))
      modifies `cache
      ensures Valid() && Extends(old(cache), cache) && Scratch(cfg, user, rank, f) == Some(v)
    {
      match f {
        case Vis(i) => var t := Visibility(i); v := TriVal(t);
        case Tri(i) => var t := TriValue(i); v := TriVal(t);
        case Str(i) => var s := StrValue(i); v := StrVal(s);
        case Asn(i) => var a := Assignable(i); v := AsnVal(a);
        case Sel(i) => var p := Selection(i); v := SelVal(p);
      }
      JustifiedIsScratch(cfg, user, rank, cache, f);
    }

    method Perform(op: Op) returns (o: Observation)
      requires Valid() && OpOk(cfg, op)
      modifies this
      ensures Valid() && user == UserAfter(cfg, old(user), op)
      ensures Observed(cfg, rank, old(user), op) == Some(o)
    {
      o := Done;
      match op {
        case SetSym(i, v) => var ok := SetSymValue(i, v); o := Accepted(ok);
        case UnsetSym(i) => UnsetSymValue(i);
        case SetChoice(c, v) => var ok := SetChoiceValue(c, v); o := Accepted(ok);
        case UnsetChoice(c) => UnsetChoiceValue(c);
        case Get(f) => var v := Read(f); o := Value(v);
      }
    }

    /** Performs the operations in order. Whatever was cached and invalidated in between, every value a caller reads
        is the one that evaluation from scratch yields at that point. */
    method Run(ops: seq<Op>) returns (seen: seq<Observation>)
      requires Valid() && forall op :: op in ops ==> OpOk(cfg, op)
      modifies this
      ensures Valid() && user == UserAfterAll(cfg, old(user), ops)
      ensures Explains(cfg, rank, old(user), ops, seen)
    {
      seen := [];
      for k := 0 to |ops|
        invariant Valid() && user == UserAfterAll(cfg, old(user), ops[..k])
        invariant Explains(cfg, rank, old(user), ops[..k], seen)
      {
        var op := ops[k];
        assert op in ops;
        assert ops[..k + 1][..k] == ops[..k];
        var o := Perform(op);
        assert (seen + [o])[..k] == seen;
        seen := seen + [o];
      }
      assert ops[..|ops|] == ops;
    }
  }
}
