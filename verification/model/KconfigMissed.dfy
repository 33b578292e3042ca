/** Loops through choices that the loop check does not report. */
module KconfigMissed {
  import opened Basics
  import opened KconfigModel
  import opened KconfigEval
  import opened KconfigReads
  import opened KconfigScratch
  import opened KconfigLoops
  import opened KconfigBlocks

  // ---- The search finishes symbols of the choice one by one ----

  /** In the choice `c`, `s` depends on `d` and `d` on `u`, and nothing else does. */
  ghost predicate Tangled(g: Graph, s: Id, u: Id, d: Id, c: Id) {
    && g.Valid() && s < |g.kinds| && u < |g.kinds| && d < |g.kinds| && c < |g.kinds|
    && s != u && s != d && s != c && u != d && u != c && d != c
    && g.kinds[c].ChoiceNode? && g.kinds[d] == SymNode(None)
    && g.kinds[s] == SymNode(Some(c)) && g.kinds[u] == SymNode(Some(c))
    && g.deps[s] == [] && g.deps[u] == [d] && g.deps[d] == [s]
  }

  /** One item of the search, once the search below it is known. */
  lemma Finishes(g: Graph, col: Colours, call: Call, calls: seq<Call>, mid: Colours, after: Colours)
    requires g.Valid() && |col| == |g.kinds| && call.node < |col| && col[call.node] == 0
    requires Next(g, call) == calls && VisitAll(g, col[call.node := 1], calls, call.node) == (Clear, mid)
    requires after == mid[call.node := 2]
    ensures Visit(g, col, call) == (Clear, after)
  {}

  lemma SearchesOne(g: Graph, col: Colours, call: Call, cur: Id, after: Colours)
    requires g.Valid() && |col| == |g.kinds| && call.node < |col| && Visit(g, col, call) == (Clear, after)
    ensures VisitAll(g, col, [call], cur) == (Clear, after)
  {}

  lemma SearchesTwo(g: Graph, col: Colours, a: Call, b: Call, cur: Id, mid: Colours, after: Colours)
    requires g.Valid() && |col| == |g.kinds| && a.node < |col| && b.node < |col|
    requires Visit(g, col, a) == (Clear, mid) && Visit(g, mid, b) == (Clear, after)
    ensures VisitAll(g, col, [a, b], cur) == (Clear, after)
  {
    SearchesOne(g, mid, b, cur, after);
    assert [a, b][1..] == [b];
  }

  lemma NextOfSym(g: Graph, x: Id, ignoreChoice: bool)
    requires g.Valid() && x < |g.kinds| && g.kinds[x].SymNode?
    requires ignoreChoice || g.kinds[x].choice.None?
    ensures g.deps[x] == [] ==> Next(g, Check(x, ignoreChoice, None)) == []
    ensures |g.deps[x]| == 1 ==> Next(g, Check(x, ignoreChoice, None)) == [Check(g.deps[x][0], false, None)]
  {
    if |g.deps[x]| == 1 {
      assert Calls(g.deps[x][1..], false, None) == [];
      assert Calls(g.deps[x], false, None) == [Check(g.deps[x][0], false, None)];
    }
  }

  lemma FinishesD(g: Graph, s: Id, u: Id, d: Id, c: Id, col: Colours)
    requires Tangled(g, s, u, d, c) && |col| == |g.kinds| && col[s] == 2 && col[d] == 0
    ensures Visit(g, col, Check(d, false, None)) == (Clear, col[d := 2])
  {
    var grey := col[d := 1];
    SearchesOne(g, grey, Check(s, false, None), d, grey);
    NextOfSym(g, d, false);
    Finishes(g, col, Check(d, false, None), [Check(s, false, None)], grey, col[d := 2]);
  }

  lemma FinishesU(g: Graph, s: Id, u: Id, d: Id, c: Id, col: Colours)
    requires Tangled(g, s, u, d, c) && |col| == |g.kinds| && col[s] == 2 && col[u] == 0 && col[d] == 0
    ensures Visit(g, col, Check(u, true, None)) == (Clear, col[u := 2][d := 2])
  {
    var grey := col[u := 1];
    FinishesD(g, s, u, d, c, grey);
    SearchesOne(g, grey, Check(d, false, None), u, grey[d := 2]);
    NextOfSym(g, u, true);
    Finishes(g, col, Check(u, true, None), [Check(d, false, None)], grey[d := 2], grey[d := 2][u := 2]);
    SwapColours(col, u, d);
  }

  lemma SwapColours(col: Colours, u: Id, d: Id)
    requires u < |col| && d < |col| && u != d
    ensures col[u := 1][d := 2][u := 2] == col[u := 2][d := 2]
  {}

  lemma FinishesS(g: Graph, s: Id, u: Id, d: Id, c: Id, col: Colours)
    requires Tangled(g, s, u, d, c) && |col| == |g.kinds| && col[s] == 0
    ensures Visit(g, col, Check(s, true, None)) == (Clear, col[s := 2])
  {
    NextOfSym(g, s, true);
    Finishes(g, col, Check(s, true, None), [], col[s := 1], col[s := 2]);
  }

  /** However the choice is entered, if `s` and `u` are searched in this order. */
  lemma FinishesC(g: Graph, s: Id, u: Id, d: Id, c: Id, call: Call, col: Colours)
    requires Tangled(g, s, u, d, c) && |col| == |g.kinds| && call.node == c
    requires Next(g, call) == [Check(s, true, None), Check(u, true, None)]
    requires col[s] == 0 && col[u] == 0 && col[d] == 0 && col[c] == 0
    ensures Visit(g, col, call) == (Clear, col[s := 2][u := 2][d := 2][c := 2])
  {
    var ofS, ofU := Check(s, true, None), Check(u, true, None);
    var grey := col[c := 1];
    var mid := grey[s := 2][u := 2][d := 2];
    FinishesS(g, s, u, d, c, grey);
    FinishesU(g, s, u, d, c, grey[s := 2]);
    SearchesTwo(g, grey, ofS, ofU, c, grey[s := 2], mid);
    Finishes(g, col, call, [ofS, ofU], mid, mid[c := 2]);
    SameColours(col, s, u, d, c);
  }

  lemma SameColours(col: Colours, s: Id, u: Id, d: Id, c: Id)
    requires s < |col| && u < |col| && d < |col| && c < |col|
    ensures col[c := 1][s := 2][u := 2][d := 2][c := 2] == col[s := 2][u := 2][d := 2][c := 2]
  {}

  /** The search starts at `t`, from which the choice is entered. */
  lemma FinishesT(g: Graph, t: Id, s: Id, u: Id, d: Id, c: Id, call: Call, col: Colours, after: Colours)
    requires Tangled(g, s, u, d, c) && t < |g.kinds| == |col| && t != s && t != u && t != d && t != c
    requires call.node == c && Next(g, Check(t, false, None)) == [call]
    requires Next(g, call) == [Check(s, true, None), Check(u, true, None)]
    requires col[t] == 0 && col[s] == 0 && col[u] == 0 && col[d] == 0 && col[c] == 0
    requires after == col[t := 1][s := 2][u := 2][d := 2][c := 2][t := 2]
    ensures Visit(g, col, Check(t, false, None)) == (Clear, after)
  {
    var grey := col[t := 1];
    FinishesC(g, s, u, d, c, call, grey);
    SearchesOne(g, grey, call, t, grey[s := 2][u := 2][d := 2][c := 2]);
    Finishes(g, col, Check(t, false, None), [call], grey[s := 2][u := 2][d := 2][c := 2], after);
  }

  lemma {:induction false} RestIsDone(g: Graph, col: Colours, roots: seq<Id>)
    requires g.Valid() && |col| == |g.kinds| && forall k :: 0 <= k < |roots| ==> roots[k] < |col| && col[roots[k]] == 2
    ensures CheckAll(g, col, roots) == (Clear, col)
  {
    if roots != [] { RestIsDone(g, col, roots[1..]); }
  }

  lemma TangleIsMissed(g: Graph, t: Id, s: Id, u: Id, d: Id, c: Id, call: Call)
    requires Tangled(g, s, u, d, c) && t < |g.kinds| && t != s && t != u && t != d && t != c
    requires call.node == c && Next(g, Check(t, false, None)) == [call]
    requires Next(g, call) == [Check(s, true, None), Check(u, true, None)]
    ensures CheckAll(g, Unvisited(|g.kinds|), [t, s, u, d]).0 == Clear
  {
    var col := Unvisited(|g.kinds|);
    var after := col[t := 1][s := 2][u := 2][d := 2][c := 2][t := 2];
    FinishesT(g, t, s, u, d, c, call, col, after);
    RestIsDone(g, after, [s, u, d]);
    assert [t, s, u, d][1..] == [s, u, d];
  }

  /** The block of the choice depends on itself. */
  lemma TangleIsLoop(g: Graph, s: Id, u: Id, d: Id, c: Id)
    requires Tangled(g, s, u, d, c)
    ensures Reaches(g, c, c)
  {
    assert Hard(g, u, d) && Hard(g, d, s);
    assert Block(g, u) == c && Block(g, d) == d && Block(g, s) == c;
    EdgeReaches(g, c, d);
    EdgeReaches(g, d, c);
    ReachesFurther(g, c, d, c);
  }

  /**
   * Entered from another of its symbols: the search skips `t`, finishes `s` before it looks at `u`, and never notices
   * that `s` depends on `d`, `d` on `u`, and `u`, through the selection of the choice, on `s`.
   */
  lemma CrossedIsMissed(g: Graph, t: Id, s: Id, u: Id, d: Id, c: Id)
    requires Tangled(g, s, u, d, c) && t < |g.kinds| && t != s && t != u && t != d && t != c
    requires g.kinds[c] == ChoiceNode([t, s, u]) && g.kinds[t] == SymNode(Some(c)) && g.deps[t] == []
    ensures CheckAll(g, Unvisited(|g.kinds|), [t, s, u, d]).0 == Clear && Reaches(g, c, c)
  {
    assert [t, s, u][1..] == [s, u] && [s, u][1..] == [u] && [u][1..] == [];
    assert Calls([u], true, Some(t)) == [Check(u, true, None)];
    assert Calls([s, u], true, Some(t)) == [Check(s, true, None), Check(u, true, None)];
    TangleIsMissed(g, t, s, u, d, c, Check(c, false, Some(t)));
    TangleIsLoop(g, s, u, d, c);
  }

  /** Entered from a symbol in a condition of the choice: no symbol is skipped, and the loop is missed all the same. */
  lemma EnteredIsMissed(g: Graph, t: Id, s: Id, u: Id, d: Id, c: Id)
    requires Tangled(g, s, u, d, c) && t < |g.kinds| && t != s && t != u && t != d && t != c
    requires g.kinds[c] == ChoiceNode([s, u]) && g.kinds[t] == SymNode(None) && g.deps[t] == [c]
    ensures CheckAll(g, Unvisited(|g.kinds|), [t, s, u, d]).0 == Clear && Reaches(g, c, c)
  {
    assert [s, u][1..] == [u] && [u][1..] == [];
    assert Calls([u], true, None) == [Check(u, true, None)];
    assert Calls([s, u], true, None) == [Check(s, true, None), Check(u, true, None)];
    NextOfSym(g, t, false);
    TangleIsMissed(g, t, s, u, d, c, Check(c, false, None));
    TangleIsLoop(g, s, u, d, c);
  }

  // ---- What depends on a choice itself is not searched at all ----

  /** The choice `c` depends on `t`, and `t` on the mode of `c`. */
  ghost predicate Mutual(g: Graph, t: Id, s: Id, c: Id) {
    && g.Valid() && t < |g.kinds| && s < |g.kinds| && c < |g.kinds| && t != s && t != c && s != c
    && g.kinds[t] == SymNode(None) && g.kinds[s] == SymNode(Some(c)) && g.kinds[c] == ChoiceNode([s])
    && g.deps[t] == [c] && g.deps[s] == [] && t in g.deps[c]
  }

  lemma MutualIsMissed(g: Graph, t: Id, s: Id, c: Id)
    requires Mutual(g, t, s, c)
    ensures CheckAll(g, Unvisited(|g.kinds|), [t, s]).0 == Clear && Reaches(g, c, c)
  {
    var col := Unvisited(|g.kinds|);
    var ofC, ofS := Check(c, false, None), Check(s, true, None);
    var one, two := col[t := 1], col[t := 1][c := 1];
    NextOfSym(g, s, true);
    Finishes(g, two, ofS, [], two[s := 1], two[s := 2]);
    SearchesOne(g, two, ofS, c, two[s := 2]);
    assert [s][1..] == [] && Calls([s], true, None) == [ofS];
    Finishes(g, one, ofC, [ofS], two[s := 2], two[s := 2][c := 2]);
    SearchesOne(g, one, ofC, t, two[s := 2][c := 2]);
    NextOfSym(g, t, false);
    Finishes(g, col, Check(t, false, None), [ofC], two[s := 2][c := 2], two[s := 2][c := 2][t := 2]);
    RestIsDone(g, two[s := 2][c := 2][t := 2], [s]);
    assert [t, s][1..] == [s];
    assert Hard(g, t, c) && Hard(g, c, t) && Block(g, t) == t && Block(g, c) == c;
    EdgeReaches(g, c, t);
    EdgeReaches(g, t, c);
    ReachesFurther(g, c, t, c);
  }

  // ---- Configurations with such loops have no evaluation order ----

  /** Each facet is read for the one before it. */
  ghost predicate Chain(cfg: Config, fs: seq<Facet>) {
    fs != [] && forall k :: 0 <= k < |fs| - 1 ==> fs[k + 1] in Reads(cfg, fs[k])
  }

  lemma {:induction false} ChainDescends(cfg: Config, rank: Ranking, fs: seq<Facet>)
    requires Ranked(cfg, rank) && Chain(cfg, fs)
    ensures rank(fs[|fs| - 1]) + |fs| - 1 <= rank(fs[0])
    decreases |fs|
  {
    if |fs| > 1 {
      var rest := fs[1..];
      forall k | 0 <= k < |rest| - 1 ensures rest[k + 1] in Reads(cfg, rest[k]) {
        assert fs[k + 1 + 1] in Reads(cfg, fs[k + 1]);
      }
      ChainDescends(cfg, rank, rest);
      assert fs[0 + 1] in Reads(cfg, fs[0]);
    }
  }

  /**
   * If the visibility of a symbol of a choice needs, by however many steps, the value of a symbol of that choice, there
   * is no evaluation order: the value needs the selection of the choice, and that the visibility.
   */
  lemma CrossedHasNoOrder(cfg: Config, s: Id, u: Id, c: Id, fs: seq<Facet>, rank: Ranking)
    requires cfg.At(u).Symbol? && cfg.At(u).choice == Some(c) && cfg.At(c).Choice? && s in cfg.At(c).syms
    requires Chain(cfg, fs) && fs[0] == Vis(s) && fs[|fs| - 1] == Tri(u)
    ensures !Ranked(cfg, rank)
  {
    if Ranked(cfg, rank) {
      var circle := fs + [Sel(c), Vis(s)];
      SelectionReads(cfg, u, s, c);
      forall k | 0 <= k < |circle| - 1 ensures circle[k + 1] in Reads(cfg, circle[k]) {
        if k < |fs| - 1 { assert fs[k + 1] in Reads(cfg, fs[k]); }
      }
      ChainDescends(cfg, rank, circle);
    }
  }

  lemma SelectionReads(cfg: Config, u: Id, s: Id, c: Id)
    requires cfg.At(u).Symbol? && cfg.At(u).choice == Some(c) && cfg.At(c).Choice? && s in cfg.At(c).syms
    ensures Sel(c) in Reads(cfg, Tri(u)) && Vis(s) in Reads(cfg, Sel(c))
  {}
}
