/** Expressions as text: the printer `expr_str` and the recursive-descent parser, over tokens. */
module KconfigExprText {
  import opened Basics
  import opened KconfigModel
  import opened KconfigPropagate

  datatype Token = Operand(atom: Atom) | AndSign | OrSign | NotSign | OpenParen | CloseParen | RelSign(rel: Relation)

  /** Choices cannot be named in Kconfig files. */
  predicate ChoiceFreeExpr(e: Expr) {
    match e
    case Leaf(_) => true
    case ChoiceMode(_) => false
    case And(l, r) => ChoiceFreeExpr(l) && ChoiceFreeExpr(r)
    case Or(l, r) => ChoiceFreeExpr(l) && ChoiceFreeExpr(r)
    case Not(x) => ChoiceFreeExpr(x)
    case Compare(_, _, _) => true
  }

  // ---- Printing ----

  function Print(e: Expr): seq<Token>
    requires ChoiceFreeExpr(e)
    decreases e, 0
  {
    match e
    case Leaf(a) => [Operand(a)]
    case And(l, r) => InAnd(l) + [AndSign] + InAnd(r)
    case Or(l, r) => InOr(l) + [OrSign] + InOr(r)
    case Not(x) => if x.Leaf? then [NotSign, Operand(x.atom)] else [NotSign] + Parens(x)
    case Compare(rel, l, r) => [Operand(l), RelSign(rel), Operand(r)]
  }

  function Parens(e: Expr): seq<Token>
    requires ChoiceFreeExpr(e)
    decreases e, 1
  {
    [OpenParen] + Print(e) + [CloseParen]
  }

  /** `_parenthesize(e, OR)`, for the operands of an AND. */
  function InAnd(e: Expr): seq<Token>
    requires ChoiceFreeExpr(e)
    decreases e, 2
  {
    if e.Or? then Parens(e) else Print(e)
  }

  /** `_parenthesize(e, AND)`, for the operands of an OR. */
  function InOr(e: Expr): seq<Token>
    requires ChoiceFreeExpr(e)
    decreases e, 2
  {
    if e.And? then Parens(e) else Print(e)
  }

  // ---- Parsing ----

  datatype Parsed = Ok(e: Expr, rest: seq<Token>) | Malformed

  /** `transform` is the MODULES symbol when a plain m is to be rewritten to m && MODULES. */
  type Transform = Option<Id>

  function PlainAtom(a: Atom, transform: Transform): Expr {
    if transform.Some? && a == Nmy(1) then And(Leaf(a), Leaf(Sym(transform.value))) else Leaf(a)
  }

  function ParseExpr(ts: seq<Token>, transform: Transform): (r: Parsed)
    ensures r.Ok? ==> |r.rest| < |ts|
    decreases |ts|, 2
  {
    match ParseAnd(ts, transform)
    case Malformed => Malformed
    case Ok(left, rest) =>
      if rest != [] && rest[0] == OrSign then
        match ParseExpr(rest[1..], transform)
        case Malformed => Malformed
        case Ok(right, after) => Ok(Or(left, right), after)
      else Ok(left, rest)
  }

  function ParseAnd(ts: seq<Token>, transform: Transform): (r: Parsed)
    ensures r.Ok? ==> |r.rest| < |ts|
    decreases |ts|, 1
  {
    match ParseFactor(ts, transform)
    case Malformed => Malformed
    case Ok(left, rest) =>
      if rest != [] && rest[0] == AndSign then
        match ParseAnd(rest[1..], transform)
        case Malformed => Malformed
        case Ok(right, after) => Ok(And(left, right), after)
      else Ok(left, rest)
  }

  function ParseFactor(ts: seq<Token>, transform: Transform): (r: Parsed)
    ensures r.Ok? ==> |r.rest| < |ts|
    decreases |ts|, 0
  {
    if ts == [] then Malformed
    else
      match ts[0]
      case Operand(a) =>
        if |ts| < 2 || !ts[1].RelSign? then Ok(PlainAtom(a, transform), ts[1..])
        else if |ts| < 3 || !ts[2].Operand? then Malformed
        else Ok(Compare(ts[1].rel, a, ts[2].atom), ts[3..])
      case NotSign =>
        (match ParseFactor(ts[1..], transform)
         case Malformed => Malformed
         case Ok(x, rest) => Ok(Not(x), rest))
      case OpenParen =>
        (match ParseExpr(ts[1..], transform)
         case Malformed => Malformed
         case Ok(e, rest) => if rest != [] && rest[0] == CloseParen then Ok(e, rest[1..]) else Malformed)
      case _ => Malformed
  }

  // ---- The form that parsing gives back ----

  /** `e` with its AND and OR chains grouped to the right. */
  function Regroup(e: Expr, transform: Transform): Expr
    decreases e, 0
  {
    match e
    case Leaf(a) => PlainAtom(a, transform)
    case And(l, r) => AndThen(l, Regroup(r, transform), transform)
    case Or(l, r) => OrThen(l, Regroup(r, transform), transform)
    case Not(x) => Not(Regroup(x, transform))
    case _ => e
  }

  /** The operands of the AND chain `l`, followed by `tail`. */
  function AndThen(l: Expr, tail: Expr, transform: Transform): Expr
    decreases l, 1
  {
    if l.And? then AndThen(l.left, AndThen(l.right, tail, transform), transform) else And(Regroup(l, transform), tail)
  }

  function OrThen(l: Expr, tail: Expr, transform: Transform): Expr
    decreases l, 1
  {
    if l.Or? then OrThen(l.left, OrThen(l.right, tail, transform), transform) else Or(Regroup(l, transform), tail)
  }

  // ---- Printing and parsing back ----

  /** Tokens that may follow an expression without being taken for a part of it. */
  predicate EndsExpr(rest: seq<Token>) { rest == [] || rest[0] == CloseParen }

  predicate EndsAnd(rest: seq<Token>) { rest != [] ==> !rest[0].RelSign? && rest[0] != AndSign }

  predicate EndsFactor(rest: seq<Token>) { rest != [] ==> !rest[0].RelSign? }

  lemma {:induction false} FactorBack(e: Expr, rest: seq<Token>, t: Transform)
    requires ChoiceFreeExpr(e) && !e.And? && !e.Or? && EndsFactor(rest)
    ensures ParseFactor(Print(e) + rest, t) == Ok(Regroup(e, t), rest)
    decreases e, 0
  {
    var ts := Print(e) + rest;
    match e
    case Leaf(a) =>
      assert ts[0] == Operand(a) && ts[1..] == rest;
    case Compare(rel, l, r) =>
      assert ts[0] == Operand(l) && ts[1] == RelSign(rel) && ts[2] == Operand(r) && ts[3..] == rest;
    case Not(x) =>
      if x.Leaf? {
        assert ts[1..] == Print(x) + rest;
        FactorBack(x, rest, t);
      } else {
        assert ts[1..] == Parens(x) + rest;
        ParensBack(x, rest, t);
      }
  }

  lemma {:induction false} ParensBack(e: Expr, rest: seq<Token>, t: Transform)
    requires ChoiceFreeExpr(e)
    ensures ParseFactor(Parens(e) + rest, t) == Ok(Regroup(e, t), rest)
    decreases e, 5
  {
    var ts := Parens(e) + rest;
    assert ts[0] == OpenParen && ts[1..] == Print(e) + ([CloseParen] + rest);
    ExprBack(e, [CloseParen] + rest, t);
    assert ([CloseParen] + rest)[1..] == rest;
  }

  /** An operand of an AND on its own. */
  lemma {:induction false} AndOperand(l: Expr, rest: seq<Token>, t: Transform)
    requires ChoiceFreeExpr(l) && !l.And? && EndsFactor(rest)
    ensures ParseFactor(InAnd(l) + rest, t) == Ok(Regroup(l, t), rest)
    decreases l, 6
  {
    if l.Or? { ParensBack(l, rest, t); } else { FactorBack(l, rest, t); }
  }

  lemma PrintAnd(l: Expr, r: Expr, rest: seq<Token>)
    requires ChoiceFreeExpr(l) && ChoiceFreeExpr(r)
    ensures InAnd(And(l, r)) + rest == InAnd(l) + ([AndSign] + (InAnd(r) + rest))
  {
  }

  lemma PrintOr(l: Expr, r: Expr, rest: seq<Token>)
    requires ChoiceFreeExpr(l) && ChoiceFreeExpr(r)
    ensures InOr(Or(l, r)) + rest == InOr(l) + ([OrSign] + (InOr(r) + rest))
  {
  }

  /** What follows && is taken up by the same conjunction. */
  lemma AndSignContinues(ts: seq<Token>, left: Expr, more: seq<Token>, x: Expr, rest: seq<Token>, t: Transform)
    requires ParseFactor(ts, t) == Ok(left, [AndSign] + more) && ParseAnd(more, t) == Ok(x, rest)
    ensures ParseAnd(ts, t) == Ok(And(left, x), rest)
  {
    assert ([AndSign] + more)[1..] == more;
  }

  /** An operand of an AND, followed by && and more. */
  lemma {:induction false} AndContinues(l: Expr, more: seq<Token>, x: Expr, rest: seq<Token>, t: Transform)
    requires ChoiceFreeExpr(l) && ParseAnd(more, t) == Ok(x, rest)
    ensures ParseAnd(InAnd(l) + ([AndSign] + more), t) == Ok(AndThen(l, x, t), rest)
    decreases l, 7
  {
    var after := [AndSign] + more;
    if l.And? {
      AndContinues(l.right, more, x, rest, t);
      AndContinues(l.left, InAnd(l.right) + after, AndThen(l.right, x, t), rest, t);
      PrintAnd(l.left, l.right, after);
    } else {
      AndOperand(l, after, t);
      AndSignContinues(InAnd(l) + after, Regroup(l, t), more, x, rest, t);
    }
  }

  /** The last operand of an AND. */
  lemma {:induction false} AndEnds(e: Expr, rest: seq<Token>, t: Transform)
    requires ChoiceFreeExpr(e) && EndsAnd(rest)
    ensures ParseAnd(InAnd(e) + rest, t) == Ok(Regroup(e, t), rest)
    decreases e, 8
  {
    if e.And? {
      AndBack(e, rest, t);
    } else {
      AndOperand(e, rest, t);
    }
  }

  /** An operand of an OR on its own. */
  lemma {:induction false} OrOperand(l: Expr, rest: seq<Token>, t: Transform)
    requires ChoiceFreeExpr(l) && !l.Or? && EndsAnd(rest)
    ensures ParseAnd(InOr(l) + rest, t) == Ok(Regroup(l, t), rest)
    decreases l, 8
  {
    if l.And? { ParensBack(l, rest, t); } else { FactorBack(l, rest, t); }
  }

  lemma OrSignContinues(ts: seq<Token>, left: Expr, more: seq<Token>, x: Expr, rest: seq<Token>, t: Transform)
    requires ParseAnd(ts, t) == Ok(left, [OrSign] + more) && ParseExpr(more, t) == Ok(x, rest)
    ensures ParseExpr(ts, t) == Ok(Or(left, x), rest)
  {
    assert ([OrSign] + more)[1..] == more;
  }

  lemma {:induction false} OrContinues(l: Expr, more: seq<Token>, x: Expr, rest: seq<Token>, t: Transform)
    requires ChoiceFreeExpr(l) && ParseExpr(more, t) == Ok(x, rest)
    ensures ParseExpr(InOr(l) + ([OrSign] + more), t) == Ok(OrThen(l, x, t), rest)
    decreases l, 9
  {
    var after := [OrSign] + more;
    if l.Or? {
      OrContinues(l.right, more, x, rest, t);
      OrContinues(l.left, InOr(l.right) + after, OrThen(l.right, x, t), rest, t);
      PrintOr(l.left, l.right, after);
    } else {
      OrOperand(l, after, t);
      OrSignContinues(InOr(l) + after, Regroup(l, t), more, x, rest, t);
    }
  }

  lemma {:induction false} OrEnds(e: Expr, rest: seq<Token>, t: Transform)
    requires ChoiceFreeExpr(e) && EndsExpr(rest)
    ensures ParseExpr(InOr(e) + rest, t) == Ok(Regroup(e, t), rest)
    decreases e, 10
  {
    if e.Or? {
      OrEnds(e.right, rest, t);
      OrContinues(e.left, InOr(e.right) + rest, Regroup(e.right, t), rest, t);
      PrintOr(e.left, e.right, rest);
    } else {
      OrOperand(e, rest, t);
    }
  }

  lemma {:induction false} ExprBack(e: Expr, rest: seq<Token>, t: Transform)
    requires ChoiceFreeExpr(e) && EndsExpr(rest)
    ensures ParseExpr(Print(e) + rest, t) == Ok(Regroup(e, t), rest)
    decreases e, 4
  {
    if e.Or? {
      OrEnds(e.right, rest, t);
      OrContinues(e.left, InOr(e.right) + rest, Regroup(e.right, t), rest, t);
      PrintOr(e.left, e.right, rest);
    } else {
      assert ParseAnd(Print(e) + rest, t) == Ok(Regroup(e, t), rest) by {
        if e.And? { AndBack(e, rest, t); } else { FactorBack(e, rest, t); }
      }
    }
  }

  lemma {:induction false} AndBack(e: Expr, rest: seq<Token>, t: Transform)
    requires ChoiceFreeExpr(e) && e.And? && EndsAnd(rest)
    ensures ParseAnd(Print(e) + rest, t) == Ok(Regroup(e, t), rest)
    decreases e, 3
  {
    AndEnds(e.right, rest, t);
    AndContinues(e.left, InAnd(e.right) + rest, Regroup(e.right, t), rest, t);
    PrintAnd(e.left, e.right, rest);
  }

  /** Parsing what was printed consumes all of it and gives the expression back, grouped to the right. */
  lemma PrintParse(e: Expr, t: Transform)
    requires ChoiceFreeExpr(e)
    ensures ParseExpr(Print(e), t) == Ok(Regroup(e, t), [])
  {
    ExprBack(e, [], t);
    assert Print(e) + [] == Print(e);
  }

  // ---- What is parsed back is grouped to the right ----

  /** At every depth, no OR has an OR as its left operand, and no AND has an AND there, except for `spared`. */
  predicate RightGrouped(e: Expr, spared: Option<Expr>) {
    match e
    case And(l, r) => (l.And? ==> Some(l) == spared) && RightGrouped(l, spared) && RightGrouped(r, spared)
    case Or(l, r) => !l.Or? && RightGrouped(l, spared) && RightGrouped(r, spared)
    case Not(x) => RightGrouped(x, spared)
    case _ => true
  }

  /** What a plain m is rewritten to, if it is. */
  function RewrittenM(t: Transform): Option<Expr> { if t.Some? then Some(PlainAtom(Nmy(1), t)) else None }

  /** The form decides the kind of the root. */
  lemma {:induction false} RegroupRoot(e: Expr, t: Transform)
    ensures Regroup(e, t).Or? <==> e.Or?
    ensures Regroup(e, t).And? <==> e.And? || (t.Some? && e == Leaf(Nmy(1)))
  {
    match e
    case And(l, r) => AndThenRoot(l, Regroup(r, t), t);
    case Or(l, r) => OrThenRoot(l, Regroup(r, t), t);
    case _ =>
  }

  lemma {:induction false} AndThenRoot(l: Expr, tail: Expr, t: Transform)
    ensures AndThen(l, tail, t).And?
  {
    if l.And? { AndThenRoot(l.left, AndThen(l.right, tail, t), t); }
  }

  lemma {:induction false} OrThenRoot(l: Expr, tail: Expr, t: Transform)
    ensures OrThen(l, tail, t).Or?
  {
    if l.Or? { OrThenRoot(l.left, OrThen(l.right, tail, t), t); }
  }

  /** Under every transform the regrouped form is right-grouped, but for a plain m that was rewritten. */
  lemma {:induction false} RegroupIsGrouped(e: Expr, t: Transform)
    ensures RightGrouped(Regroup(e, t), RewrittenM(t))
    decreases e, 0
  {
    match e
    case And(l, r) =>
      RegroupIsGrouped(r, t);
      AndThenIsGrouped(l, Regroup(r, t), t);
    case Or(l, r) =>
      RegroupIsGrouped(r, t);
      OrThenIsGrouped(l, Regroup(r, t), t);
    case Not(x) => RegroupIsGrouped(x, t);
    case _ =>
  }

  lemma {:induction false} AndThenIsGrouped(l: Expr, tail: Expr, t: Transform)
    requires RightGrouped(tail, RewrittenM(t))
    ensures RightGrouped(AndThen(l, tail, t), RewrittenM(t))
    decreases l, 1
  {
    if l.And? {
      AndThenIsGrouped(l.right, tail, t);
      AndThenIsGrouped(l.left, AndThen(l.right, tail, t), t);
    } else {
      RegroupIsGrouped(l, t);
      RegroupRoot(l, t);
    }
  }

  lemma {:induction false} OrThenIsGrouped(l: Expr, tail: Expr, t: Transform)
    requires RightGrouped(tail, RewrittenM(t))
    ensures RightGrouped(OrThen(l, tail, t), RewrittenM(t))
    decreases l, 1
  {
    if l.Or? {
      OrThenIsGrouped(l.right, tail, t);
      OrThenIsGrouped(l.left, OrThen(l.right, tail, t), t);
    } else {
      RegroupIsGrouped(l, t);
      RegroupRoot(l, t);
    }
  }

  /** Some AND chain has a plain m in it that is not its last operand. */
  predicate EarlyM(e: Expr)
    decreases e, 0
  {
    match e
    case And(l, r) => EarlyIn(l) || EarlyM(r)
    case Or(l, r) => EarlyM(l) || EarlyM(r)
    case Not(x) => EarlyM(x)
    case _ => false
  }

  /** ... if the operands of `l` are not the last ones of their chain. */
  predicate EarlyIn(l: Expr)
    decreases l, 1
  {
    if l.And? then EarlyIn(l.left) || EarlyIn(l.right) else l == Leaf(Nmy(1)) || EarlyM(l)
  }

  /** The regrouped form is right-grouped without exception if and only if no m is rewritten early in an AND chain. */
  lemma {:induction false} RegroupExact(e: Expr, t: Transform)
    ensures RightGrouped(Regroup(e, t), None) <==> t.None? || !EarlyM(e)
    decreases e, 0
  {
    match e
    case And(l, r) =>
      RegroupExact(r, t);
      AndThenExact(l, Regroup(r, t), t);
    case Or(l, r) =>
      RegroupExact(r, t);
      OrThenExact(l, Regroup(r, t), t);
    case Not(x) => RegroupExact(x, t);
    case _ =>
  }

  lemma {:induction false} AndThenExact(l: Expr, tail: Expr, t: Transform)
    ensures RightGrouped(AndThen(l, tail, t), None) <==> (t.None? || !EarlyIn(l)) && RightGrouped(tail, None)
    decreases l, 1
  {
    if l.And? {
      AndThenExact(l.right, tail, t);
      AndThenExact(l.left, AndThen(l.right, tail, t), t);
    } else {
      RegroupExact(l, t);
      RegroupRoot(l, t);
    }
  }

  lemma {:induction false} OrThenExact(l: Expr, tail: Expr, t: Transform)
    ensures RightGrouped(OrThen(l, tail, t), None) <==> (t.None? || !EarlyM(l)) && RightGrouped(tail, None)
    decreases l, 1
  {
    if l.Or? {
      OrThenExact(l.right, tail, t);
      OrThenExact(l.left, OrThen(l.right, tail, t), t);
    } else {
      RegroupExact(l, t);
      RegroupRoot(l, t);
    }
  }

  /** With m rewritten, `m && m` comes back with an AND on the left. */
  lemma EarlyMHappens(t: Transform)
    requires t.Some?
    ensures var m := Leaf(Nmy(1)); ParseExpr(Print(And(m, m)), t).Ok? && !RightGrouped(ParseExpr(Print(And(m, m)), t).e, None)
  {
    var m := Leaf(Nmy(1));
    PrintParse(And(m, m), t);
    RegroupExact(And(m, m), t);
  }

  // ---- Regrouping changes nothing that matters ----

  /** The value of an expression in which a plain m stands for m && MODULES. */
  function Transformed(v: Valuation, e: Expr, t: Transform): Tristate {
    match e
    case Leaf(a) => v.Of(PlainAtom(a, t))
    case And(l, r) => Min(Transformed(v, l, t), Transformed(v, r, t))
    case Or(l, r) => Max(Transformed(v, l, t), Transformed(v, r, t))
    case Not(x) => 2 - Transformed(v, x, t)
    case _ => v.Of(e)
  }

  lemma {:induction false} AndThenMeans(v: Valuation, l: Expr, tail: Expr, t: Transform)
    ensures v.Of(AndThen(l, tail, t)) == Min(Transformed(v, l, t), v.Of(tail))
    decreases l, 1
  {
    if l.And? {
      AndThenMeans(v, l.right, tail, t);
      AndThenMeans(v, l.left, AndThen(l.right, tail, t), t);
    } else {
      RegroupMeans(v, l, t);
    }
  }

  lemma {:induction false} OrThenMeans(v: Valuation, l: Expr, tail: Expr, t: Transform)
    ensures v.Of(OrThen(l, tail, t)) == Max(Transformed(v, l, t), v.Of(tail))
    decreases l, 1
  {
    if l.Or? {
      OrThenMeans(v, l.right, tail, t);
      OrThenMeans(v, l.left, OrThen(l.right, tail, t), t);
    } else {
      RegroupMeans(v, l, t);
    }
  }

  /** The parsed form has the same value under every valuation, with a plain m limited by MODULES if asked for. */
  lemma {:induction false} RegroupMeans(v: Valuation, e: Expr, t: Transform)
    ensures v.Of(Regroup(e, t)) == Transformed(v, e, t)
    ensures t.None? ==> v.Of(Regroup(e, t)) == v.Of(e)
    decreases e, 0
  {
    match e
    case And(l, r) => RegroupMeans(v, r, t); AndThenMeans(v, l, Regroup(r, t), t); PlainMeans(v, e);
    case Or(l, r) => RegroupMeans(v, r, t); OrThenMeans(v, l, Regroup(r, t), t); PlainMeans(v, e);
    case Not(x) => RegroupMeans(v, x, t);
    case _ =>
  }

  lemma {:induction false} PlainMeans(v: Valuation, e: Expr)
    ensures Transformed(v, e, None) == v.Of(e)
    decreases e, 0
  {
    match e
    case And(l, r) => PlainMeans(v, l); PlainMeans(v, r);
    case Or(l, r) => PlainMeans(v, l); PlainMeans(v, r);
    case Not(x) => PlainMeans(v, x);
    case _ =>
  }

  /** `split_expr(e, AND)`. */
  function SplitAnd(e: Expr): seq<Expr> { if e.And? then SplitAnd(e.left) + SplitAnd(e.right) else [e] }

  /** `split_expr(e, OR)`. */
  function SplitOr(e: Expr): seq<Expr> { if e.Or? then SplitOr(e.left) + SplitOr(e.right) else [e] }

  function RegroupAll(es: seq<Expr>): (r: seq<Expr>)
    ensures |r| == |es| && forall k :: 0 <= k < |es| ==> r[k] == Regroup(es[k], None)
  {
    seq(|es|, k requires 0 <= k < |es| => Regroup(es[k], None))
  }

  lemma RegroupAllConcat(a: seq<Expr>, b: seq<Expr>)
    ensures RegroupAll(a + b) == RegroupAll(a) + RegroupAll(b)
  {
  }

  lemma {:induction false} AndThenSplits(l: Expr, tail: Expr)
    ensures SplitAnd(AndThen(l, tail, None)) == RegroupAll(SplitAnd(l)) + SplitAnd(tail)
    decreases l, 1
  {
    if l.And? {
      AndThenSplits(l.right, tail);
      AndThenSplits(l.left, AndThen(l.right, tail, None));
      RegroupAllConcat(SplitAnd(l.left), SplitAnd(l.right));
    } else {
      RegroupKeepsHead(l);
    }
  }

  lemma {:induction false} OrThenSplits(l: Expr, tail: Expr)
    ensures SplitOr(OrThen(l, tail, None)) == RegroupAll(SplitOr(l)) + SplitOr(tail)
    decreases l, 1
  {
    if l.Or? {
      OrThenSplits(l.right, tail);
      OrThenSplits(l.left, OrThen(l.right, tail, None));
      RegroupAllConcat(SplitOr(l.left), SplitOr(l.right));
    } else {
      RegroupKeepsHead(l);
    }
  }

  lemma RegroupKeepsHead(e: Expr)
    ensures Regroup(e, None).And? <==> e.And?
    ensures Regroup(e, None).Or? <==> e.Or?
  {
    if e.And? { AndThenIsAnd(e.left, Regroup(e.right, None)); }
    if e.Or? { OrThenIsOr(e.left, Regroup(e.right, None)); }
  }

  lemma {:induction false} AndThenIsAnd(l: Expr, tail: Expr)
    ensures AndThen(l, tail, None).And?
  {
    if l.And? { AndThenIsAnd(l.left, AndThen(l.right, tail, None)); }
  }

  lemma {:induction false} OrThenIsOr(l: Expr, tail: Expr)
    ensures OrThen(l, tail, None).Or?
  {
    if l.Or? { OrThenIsOr(l.left, OrThen(l.right, tail, None)); }
  }

  /** The top-level operands are the same and in the same order. */
  lemma {:induction false} RegroupSplits(e: Expr)
    ensures SplitAnd(Regroup(e, None)) == RegroupAll(SplitAnd(e))
    ensures SplitOr(Regroup(e, None)) == RegroupAll(SplitOr(e))
    decreases e
  {
    RegroupKeepsHead(e);
    if e.And? {
      RegroupSplits(e.right);
      AndThenSplits(e.left, Regroup(e.right, None));
      RegroupAllConcat(SplitAnd(e.left), SplitAnd(e.right));
    } else if e.Or? {
      RegroupSplits(e.right);
      OrThenSplits(e.left, Regroup(e.right, None));
      RegroupAllConcat(SplitOr(e.left), SplitOr(e.right));
    }
  }

  lemma {:induction false} AndThenPrints(l: Expr, tail: Expr)
    requires ChoiceFreeExpr(l) && ChoiceFreeExpr(tail)
    ensures ChoiceFreeExpr(AndThen(l, tail, None)) && AndThen(l, tail, None).And?
    ensures Print(AndThen(l, tail, None)) == InAnd(l) + ([AndSign] + InAnd(tail))
    decreases l, 2
  {
    if l.And? {
      AndThenPrints(l.right, tail);
      AndThenPrints(l.left, AndThen(l.right, tail, None));
      PrintAnd(l.left, l.right, [AndSign] + InAnd(tail));
    } else {
      RegroupPrintsWithin(l);
      assert Print(And(Regroup(l, None), tail)) == InAnd(l) + ([AndSign] + InAnd(tail));
    }
  }

  lemma {:induction false} OrThenPrints(l: Expr, tail: Expr)
    requires ChoiceFreeExpr(l) && ChoiceFreeExpr(tail)
    ensures ChoiceFreeExpr(OrThen(l, tail, None)) && OrThen(l, tail, None).Or?
    ensures Print(OrThen(l, tail, None)) == InOr(l) + ([OrSign] + InOr(tail))
    decreases l, 2
  {
    if l.Or? {
      OrThenPrints(l.right, tail);
      OrThenPrints(l.left, OrThen(l.right, tail, None));
      PrintOr(l.left, l.right, [OrSign] + InOr(tail));
    } else {
      RegroupPrintsWithin(l);
      assert Print(Or(Regroup(l, None), tail)) == InOr(l) + ([OrSign] + InOr(tail));
    }
  }

  /** The parsed form prints as the text it was parsed from: the text is a canonical form. */
  lemma {:induction false} RegroupPrints(e: Expr)
    requires ChoiceFreeExpr(e)
    ensures ChoiceFreeExpr(Regroup(e, None)) && Print(Regroup(e, None)) == Print(e)
    decreases e, 0
  {
    match e
    case And(l, r) =>
      RegroupPrintsWithin(r);
      AndThenPrints(l, Regroup(r, None));
      assert Print(e) == InAnd(l) + ([AndSign] + InAnd(r));
    case Or(l, r) =>
      RegroupPrintsWithin(r);
      OrThenPrints(l, Regroup(r, None));
      assert Print(e) == InOr(l) + ([OrSign] + InOr(r));
    case Not(x) => RegroupPrints(x); RegroupKeepsLeaf(x);
    case _ =>
  }

  lemma {:induction false} RegroupPrintsWithin(e: Expr)
    requires ChoiceFreeExpr(e)
    ensures ChoiceFreeExpr(Regroup(e, None))
    ensures InAnd(Regroup(e, None)) == InAnd(e) && InOr(Regroup(e, None)) == InOr(e)
    decreases e, 1
  {
    RegroupPrints(e);
    RegroupKeepsHead(e);
  }

  lemma RegroupKeepsLeaf(e: Expr)
    ensures Regroup(e, None).Leaf? <==> e.Leaf?
  {
    RegroupKeepsHead(e);
  }

  // ---- The parser as it runs, with a cursor into the tokens of a line ----

  class Parser {
    const tokens: seq<Token>
    var next: nat

    ghost predicate Valid()
      reads this
    {
      next <= |tokens|
    }

    constructor (tokens: seq<Token>)
      ensures Valid() && this.tokens == tokens && next == 0
    {
      this.tokens, next := tokens, 0;
    }

    /** What is still to be parsed. */
    ghost function Rest(): seq<Token>
      requires Valid()
      reads this
    {
      tokens[next..]
    }

    /** `_check_token`. */
    method CheckToken(t: Token) returns (found: bool)
      requires Valid()
      modifies `next
      ensures Valid() && found == (old(Rest()) != [] && old(Rest())[0] == t)
      ensures Rest() == if found then old(Rest())[1..] else old(Rest())
    {
      found := next < |tokens| && tokens[next] == t;
      if found { next := next + 1; }
    }

    /** `_parse_expr`. */
    method Expression(transform: Transform) returns (r: Option<Expr>)
      requires Valid()
      modifies `next
      ensures Valid()
      ensures match ParseExpr(old(Rest()), transform)
              case Malformed => r == None
              case Ok(e, rest) => r == Some(e) && Rest() == rest
      decreases |tokens| - next, 2
    {
      var left := Conjunction(transform);
      if left.None? { return None; }
      var more := CheckToken(OrSign);
      if !more { return left; }
      var right := Expression(transform);
      if right.None? { return None; }
      r := Some(Or(left.value, right.value));
    }

    /** `_parse_and_expr`. */
    method Conjunction(transform: Transform) returns (r: Option<Expr>)
      requires Valid()
      modifies `next
      ensures Valid()
      ensures match ParseAnd(old(Rest()), transform)
              case Malformed => r == None
              case Ok(e, rest) => r == Some(e) && Rest() == rest
      decreases |tokens| - next, 1
    {
      var left := Factor(transform);
      if left.None? { return None; }
      var more := CheckToken(AndSign);
      if !more { return left; }
      var right := Conjunction(transform);
      if right.None? { return None; }
      r := Some(And(left.value, right.value));
    }

    /** `_parse_factor`. */
    method Factor(transform: Transform) returns (r: Option<Expr>)
      requires Valid()
      modifies `next
      ensures Valid()
      ensures match ParseFactor(old(Rest()), transform)
              case Malformed => r == None
              case Ok(e, rest) => r == Some(e) && Rest() == rest
      decreases |tokens| - next, 0
    {
      if next == |tokens| { return None; }
      var token := tokens[next];
      next := next + 1;
      match token {
        case Operand(a) =>
          if next == |tokens| || !tokens[next].RelSign? { return Some(PlainAtom(a, transform)); }
          var rel := tokens[next].rel;
          next := next + 1;
          if next == |tokens| || !tokens[next].Operand? { return None; }
          r := Some(Compare(rel, a, tokens[next].atom));
          next := next + 1;
        case NotSign =>
          var x := Factor(transform);
          if x.None? { return None; }
          r := Some(Not(x.value));
        case OpenParen =>
          r := Expression(transform);
          if r.None? { return None; }
          var closed := CheckToken(CloseParen);
          if !closed { return None; }
        case _ => return None;
      }
    }
  }
}
