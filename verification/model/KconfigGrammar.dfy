/** The grammar of expressions, and that the parser accepts exactly what it generates. */
module KconfigGrammar {
  import opened Basics
  import opened KconfigModel
  import opened KconfigExprText

  // ---- The grammar ----

  /** An operand, a relation between two, a negation or an expression in parentheses. */
  datatype FactorTree =
    | Single(atom: Atom)
    | Relates(left: Atom, rel: Relation, right: Atom)
    | Negated(factor: FactorTree)
    | Enclosed(tree: ExprTree)

  /** Factors with `&&` in between. */
  datatype AndTree = Factor(only: FactorTree) | Both(first: FactorTree, others: AndTree)

  /** Conjunctions with `||` in between. */
  datatype ExprTree = Conjunction(conj: AndTree) | Either(first: AndTree, others: ExprTree)

  function FactorTokens(f: FactorTree): seq<Token> {
    match f
    case Single(a) => [Operand(a)]
    case Relates(l, rel, r) => [Operand(l), RelSign(rel), Operand(r)]
    case Negated(x) => [NotSign] + FactorTokens(x)
    case Enclosed(d) => [OpenParen] + Tokens(d) + [CloseParen]
  }

  function AndTokens(c: AndTree): seq<Token> {
    match c
    case Factor(f) => FactorTokens(f)
    case Both(f, more) => FactorTokens(f) + [AndSign] + AndTokens(more)
  }

  function Tokens(d: ExprTree): seq<Token> {
    match d
    case Conjunction(c) => AndTokens(c)
    case Either(c, more) => AndTokens(c) + [OrSign] + Tokens(more)
  }

  /** The expressions that they stand for; a plain m is rewritten where that is asked for. */
  function FactorExpr(f: FactorTree, t: Transform): Expr {
    match f
    case Single(a) => if t.Some? && a == Nmy(1) then And(Leaf(Nmy(1)), Leaf(Sym(t.value))) else Leaf(a)
    case Relates(l, rel, r) => Compare(rel, l, r)
    case Negated(x) => Not(FactorExpr(x, t))
    case Enclosed(d) => ExprOf(d, t)
  }

  function AndExpr(c: AndTree, t: Transform): Expr {
    match c
    case Factor(f) => FactorExpr(f, t)
    case Both(f, more) => And(FactorExpr(f, t), AndExpr(more, t))
  }

  function ExprOf(d: ExprTree, t: Transform): Expr {
    match d
    case Conjunction(c) => AndExpr(c, t)
    case Either(c, more) => Or(AndExpr(c, t), ExprOf(more, t))
  }

  // ---- What the grammar generates is parsed ----

  predicate Stops(rest: seq<Token>) { EndsAnd(rest) && (rest != [] ==> rest[0] != OrSign) }

  lemma NegatedAccepted(inner: seq<Token>, e: Expr, rest: seq<Token>, t: Transform)
    requires ParseFactor(inner + rest, t) == Ok(e, rest)
    ensures ParseFactor([NotSign] + inner + rest, t) == Ok(Not(e), rest)
  {
    var ts := [NotSign] + inner + rest;
    assert ts[1..] == inner + rest;
  }

  lemma EnclosedAccepted(inner: seq<Token>, e: Expr, rest: seq<Token>, t: Transform)
    requires ParseExpr(inner + ([CloseParen] + rest), t) == Ok(e, [CloseParen] + rest)
    ensures ParseFactor([OpenParen] + inner + [CloseParen] + rest, t) == Ok(e, rest)
  {
    var ts, after := [OpenParen] + inner + [CloseParen] + rest, [CloseParen] + rest;
    assert ts[1..] == inner + after && after[1..] == rest;
  }

  lemma {:induction false} FactorAccepted(f: FactorTree, rest: seq<Token>, t: Transform)
    requires EndsFactor(rest)
    ensures ParseFactor(FactorTokens(f) + rest, t) == Ok(FactorExpr(f, t), rest)
    decreases f
  {
    var ts := FactorTokens(f) + rest;
    match f
    case Single(_) => assert ts[1..] == rest;
    case Relates(_, _, _) => assert ts[3..] == rest;
    case Negated(x) =>
      FactorAccepted(x, rest, t);
      NegatedAccepted(FactorTokens(x), FactorExpr(x, t), rest, t);
    case Enclosed(d) =>
      Accepted(d, [CloseParen] + rest, t);
      EnclosedAccepted(Tokens(d), ExprOf(d, t), rest, t);
  }

  lemma {:induction false} AndAccepted(c: AndTree, rest: seq<Token>, t: Transform)
    requires EndsAnd(rest)
    ensures ParseAnd(AndTokens(c) + rest, t) == Ok(AndExpr(c, t), rest)
    decreases c
  {
    match c
    case Factor(f) => FactorAccepted(f, rest, t);
    case Both(f, more) =>
      var after := [AndSign] + (AndTokens(more) + rest);
      assert AndTokens(c) + rest == FactorTokens(f) + after && after[1..] == AndTokens(more) + rest;
      FactorAccepted(f, after, t);
      AndAccepted(more, rest, t);
  }

  lemma {:induction false} Accepted(d: ExprTree, rest: seq<Token>, t: Transform)
    requires Stops(rest)
    ensures ParseExpr(Tokens(d) + rest, t) == Ok(ExprOf(d, t), rest)
    decreases d
  {
    match d
    case Conjunction(c) => AndAccepted(c, rest, t);
    case Either(c, more) =>
      var after := [OrSign] + (Tokens(more) + rest);
      assert Tokens(d) + rest == AndTokens(c) + after && after[1..] == Tokens(more) + rest;
      AndAccepted(c, after, t);
      Accepted(more, rest, t);
  }

  // ---- What is parsed is generated by the grammar ----

  lemma Joined(ts: seq<Token>, a: seq<Token>, rest: seq<Token>, sign: Token, b: seq<Token>, after: seq<Token>)
    requires ts == a + rest && rest != [] && rest[0] == sign && rest[1..] == b + after
    ensures ts == a + [sign] + b + after
  {
    assert rest == [sign] + rest[1..];
  }

  lemma Opened(ts: seq<Token>, inner: seq<Token>, after: seq<Token>)
    requires ts != [] && ts[0] == OpenParen && ts[1..] == inner + after && after != [] && after[0] == CloseParen
    ensures ts == [OpenParen] + inner + [CloseParen] + after[1..]
  {
    assert ts == [OpenParen] + ts[1..] && after == [CloseParen] + after[1..];
  }

  lemma Led(ts: seq<Token>, inner: seq<Token>, after: seq<Token>)
    requires ts != [] && ts[1..] == inner + after
    ensures ts == [ts[0]] + inner + after
  {
    assert ts == [ts[0]] + ts[1..];
  }

  lemma OperandGenerated(ts: seq<Token>, t: Transform) returns (f: FactorTree)
    requires ts != [] && ts[0].Operand? && ParseFactor(ts, t).Ok?
    ensures ts == FactorTokens(f) + ParseFactor(ts, t).rest && ParseFactor(ts, t).e == FactorExpr(f, t)
  {
    if |ts| < 2 || !ts[1].RelSign? {
      f := Single(ts[0].atom);
      assert ts == [ts[0]] + ts[1..];
    } else {
      f := Relates(ts[0].atom, ts[1].rel, ts[2].atom);
      assert ts == [ts[0], ts[1], ts[2]] + ts[3..];
    }
  }

  lemma {:induction false} FactorGenerated(ts: seq<Token>, t: Transform) returns (f: FactorTree)
    requires ParseFactor(ts, t).Ok?
    ensures ts == FactorTokens(f) + ParseFactor(ts, t).rest && ParseFactor(ts, t).e == FactorExpr(f, t)
    decreases |ts|, 0
  {
    match ts[0]
    case Operand(_) =>
      f := OperandGenerated(ts, t);
    case NotSign =>
      var x := FactorGenerated(ts[1..], t);
      f := Negated(x);
      Led(ts, FactorTokens(x), ParseFactor(ts[1..], t).rest);
    case OpenParen =>
      var d := Generated(ts[1..], t);
      f := Enclosed(d);
      Opened(ts, Tokens(d), ParseExpr(ts[1..], t).rest);
  }

  lemma {:induction false} AndGenerated(ts: seq<Token>, t: Transform) returns (c: AndTree)
    requires ParseAnd(ts, t).Ok?
    ensures ts == AndTokens(c) + ParseAnd(ts, t).rest && ParseAnd(ts, t).e == AndExpr(c, t)
    decreases |ts|, 1
  {
    var f := FactorGenerated(ts, t);
    var rest := ParseFactor(ts, t).rest;
    if rest != [] && rest[0] == AndSign {
      var more := AndGenerated(rest[1..], t);
      c := Both(f, more);
      Joined(ts, FactorTokens(f), rest, AndSign, AndTokens(more), ParseAnd(ts, t).rest);
    } else {
      c := Factor(f);
    }
  }

  lemma {:induction false} Generated(ts: seq<Token>, t: Transform) returns (d: ExprTree)
    requires ParseExpr(ts, t).Ok?
    ensures ts == Tokens(d) + ParseExpr(ts, t).rest && ParseExpr(ts, t).e == ExprOf(d, t)
    decreases |ts|, 2
  {
    var c := AndGenerated(ts, t);
    var rest := ParseAnd(ts, t).rest;
    if rest != [] && rest[0] == OrSign {
      var more := Generated(rest[1..], t);
      d := Either(c, more);
      Joined(ts, AndTokens(c), rest, OrSign, Tokens(more), ParseExpr(ts, t).rest);
    } else {
      d := Conjunction(c);
    }
  }

  /** A whole line of tokens is accepted, as `e`, exactly if the grammar generates it from a tree that stands for `e`. */
  lemma ParserExact(ts: seq<Token>, t: Transform, e: Expr)
    ensures ParseExpr(ts, t) == Ok(e, []) <==> exists d :: Tokens(d) == ts && ExprOf(d, t) == e
  {
    if ParseExpr(ts, t) == Ok(e, []) {
      var d := Generated(ts, t);
      assert Tokens(d) + [] == Tokens(d);
    }
    if d :| Tokens(d) == ts && ExprOf(d, t) == e {
      Accepted(d, [], t);
      assert Tokens(d) + [] == Tokens(d);
    }
  }
}
