/** Which loops the check finds, when the symbols of a choice count as one block with it. */
module KconfigBlocks {
  import opened Basics
  import opened KconfigModel
  import opened KconfigLoops

  // ---- Blocks ----

  /** A choice with its symbols, or a symbol outside choices. */
  function Block(g: Graph, x: Id): Id
    requires g.Valid() && x < |g.kinds|
  {
    if g.kinds[x].SymNode? && g.kinds[x].choice.Some? then g.kinds[x].choice.value else x
  }

  /** Each symbol of a choice is in that choice alone. */
  ghost predicate Paired(g: Graph) {
    forall c, s :: 0 <= c < |g.kinds| && g.kinds[c].ChoiceNode? && s in g.kinds[c].syms ==>
      s < |g.kinds| && g.kinds[s] == SymNode(Some(c))
  }

  /** `y` depends on `x`, other than as a symbol on its choice. */
  predicate Hard(g: Graph, x: Id, y: Id)
    requires g.Valid() && x < |g.kinds|
  {
    y in g.deps[x] && !(g.kinds[x].ChoiceNode? && y in g.kinds[x].syms)
  }

  /** Something in block `b` depends on something in block `a`. */
  ghost predicate BlockEdge(g: Graph, a: Id, b: Id)
    requires g.Valid()
  {
    exists x: Id, y: Id :: x < |g.kinds| && y < |g.kinds| && Block(g, x) == a && Block(g, y) == b && Hard(g, x, y)
  }

  ghost predicate BlockPath(g: Graph, p: seq<Id>)
    requires g.Valid()
  {
    |p| >= 2 && forall k :: 0 <= k < |p| - 1 ==> BlockEdge(g, p[k], p[k + 1])
  }

  /** Block `b` depends on block `a`, directly or not. */
  ghost predicate Reaches(g: Graph, a: Id, b: Id)
    requires g.Valid()
  {
    exists p :: BlockPath(g, p) && p[0] == a && p[|p| - 1] == b
  }

  /** No choice depends on itself or its symbols. */
  ghost predicate NoChoiceLoop(g: Graph)
    requires g.Valid()
  {
    forall c :: 0 <= c < |g.kinds| && g.kinds[c].ChoiceNode? ==> !Reaches(g, c, c)
  }

  lemma EdgeReaches(g: Graph, a: Id, b: Id)
    requires g.Valid() && BlockEdge(g, a, b)
    ensures Reaches(g, a, b)
  {
    assert BlockPath(g, [a, b]) && [a, b][0] == a && [a, b][1] == b;
  }

  lemma ReachesFurther(g: Graph, a: Id, b: Id, c: Id)
    requires g.Valid() && Reaches(g, a, b) && Reaches(g, b, c)
    ensures Reaches(g, a, c)
  {
    var p :| BlockPath(g, p) && p[0] == a && p[|p| - 1] == b;
    var q :| BlockPath(g, q) && q[0] == b && q[|q| - 1] == c;
    var r := p + q[1..];
    forall k | 0 <= k < |r| - 1 ensures BlockEdge(g, r[k], r[k + 1]) {
      if k >= |p| - 1 { assert r[k] == q[k - |p| + 1] && r[k + 1] == q[k - |p| + 2]; }
    }
    assert BlockPath(g, r) && r[0] == a && r[|r| - 1] == c;
  }

  // ---- What is reported is a loop of blocks ----

  lemma EdgeOfBlocks(g: Graph, x: Id, y: Id)
    requires g.Valid() && Paired(g) && x < |g.kinds| && y < |g.kinds| && Edge(g, x, y)
    ensures Block(g, x) == Block(g, y) || BlockEdge(g, Block(g, x), Block(g, y))
  {
    if Hard(g, x, y) { assert BlockEdge(g, Block(g, x), Block(g, y)); }
  }

  /** Along a chain of the search, blocks stay the same or depend on each other. */
  lemma {:induction false} LinkedReaches(g: Graph, w: seq<Id>)
    requires g.Valid() && Paired(g) && w != [] && Linked(g, w)
    ensures var last := |w| - 1; Block(g, w[last]) == Block(g, w[0]) || Reaches(g, Block(g, w[last]), Block(g, w[0]))
    decreases |w|
  {
    if |w| > 1 {
      var rest := w[1..];
      forall k | 0 <= k < |rest| - 1 ensures Edge(g, rest[k + 1], rest[k]) { assert Edge(g, w[k + 2], w[k + 1]); }
      LinkedReaches(g, rest);
      EdgeOfBlocks(g, w[1], w[0]);
      var a, b, c := Block(g, w[|w| - 1]), Block(g, w[1]), Block(g, w[0]);
      if b != c {
        EdgeReaches(g, b, c);
        if a != b { ReachesFurther(g, a, b, c); }
      }
    }
  }

  /** The item that `loop[k]` depends on. */
  function Above(loop: seq<Id>, k: nat): Id
    requires k < |loop|
  {
    if k + 1 < |loop| then loop[k + 1] else loop[0]
  }

  /** The item that depends on `loop[k]`. */
  function Under(loop: seq<Id>, k: nat): Id
    requires k < |loop|
  {
    if k > 0 then loop[k - 1] else loop[|loop| - 1]
  }

  lemma AroundIsLinked(g: Graph, loop: seq<Id>, k: nat)
    requires g.Valid() && Loop(g, loop) && k < |loop|
    ensures Linked(g, loop[k + 1..] + loop[..k + 1])
  {
    var w := loop[k + 1..] + loop[..k + 1];
    forall j | 0 <= j < |w| - 1 ensures Edge(g, w[j + 1], w[j]) {
      var i := j + k + 1;
      if i + 1 < |loop| {
        assert w[j] == loop[i] && w[j + 1] == loop[i + 1];
      } else if i + 1 > |loop| {
        assert w[j] == loop[i - |loop|] && w[j + 1] == loop[i + 1 - |loop|];
      }
    }
  }

  /** The two ends of a hard edge of a loop are in blocks that depend on themselves. */
  lemma HardLoop(g: Graph, loop: seq<Id>, k: nat)
    requires g.Valid() && Paired(g) && Loop(g, loop) && k < |loop| && Hard(g, Above(loop, k), loop[k])
    ensures Reaches(g, Block(g, loop[k]), Block(g, loop[k]))
  {
    var w := loop[k + 1..] + loop[..k + 1];
    AroundIsLinked(g, loop, k);
    LinkedReaches(g, w);
    assert w[0] == Above(loop, k) && w[|w| - 1] == loop[k];
    var a, b := Block(g, Above(loop, k)), Block(g, loop[k]);
    assert BlockEdge(g, a, b);
    EdgeReaches(g, a, b);
    if a != b { ReachesFurther(g, b, a, b); }
  }

  /** The search does not turn round between a symbol and its choice. */
  predicate Sharp(g: Graph, loop: seq<Id>) {
    forall k, j :: 0 <= k < |loop| == 2 && 0 <= j < 2 && k != j
      && loop[k] < |g.kinds| == |g.deps| && loop[j] < |g.kinds| && g.kinds[loop[k]].SymNode? && g.kinds[loop[j]].ChoiceNode?
      ==> loop[j] in g.deps[loop[k]]
  }

  lemma TurnIsSharp(g: Graph, first: Call, second: Call, third: Call)
    requires g.Valid() && first.node < |g.kinds| && second in Next(g, first) && third in Next(g, second)
    requires third.node == first.node
    ensures Sharp(g, [first.node, second.node])
  {
  }

  ghost predicate CallsOn(g: Graph, call: Call, x: Id)
    requires g.Valid() && call.node < |g.kinds|
  {
    exists c :: c in Next(g, call) && c.node == x
  }

  /** How short loops come about. */
  ghost predicate Turned(g: Graph, call: Call, v: Verdict)
    requires g.Valid() && call.node < |g.kinds|
  {
    && (v.Raised? ==> Sharp(g, v.loop))
    && (v.Open? && |v.loop| == 2 ==> CallsOn(g, call, v.loop[0]))
  }

  lemma {:induction false} VisitSharp(g: Graph, col: Colours, call: Call)
    requires g.Valid() && |col| == |g.kinds| && call.node < |col| && forall y :: 0 <= y < |col| ==> col[y] <= 2
    ensures var v := Visit(g, col, call).0;
            Turned(g, call, v) && (v.Open? && |v.loop| == 1 ==> v.loop[0] == call.node)
    decreases Whites(col), 1, 0
  {
    VisitSound(g, col, call);
    var x := call.node;
    if col[x] == 0 {
      var grey := col[x := 1];
      assert x in Whites(col) && Whites(grey) == Whites(col) - {x};
      VisitAllSharp(g, grey, Next(g, call), call);
    }
  }

  lemma {:induction false} VisitAllSharp(g: Graph, col: Colours, calls: seq<Call>, call: Call)
    requires g.Valid() && |col| == |g.kinds| && forall y :: 0 <= y < |col| ==> col[y] <= 2
    requires call.node < |col| && col[call.node] == 1
    requires forall c :: c in calls ==> c.node < |col| && c in Next(g, call)
    ensures Turned(g, call, VisitAll(g, col, calls, call.node).0)
    decreases Whites(col), 2, |calls|
  {
    if calls != [] {
      assert calls[0] in calls;
      var (v, after) := Visit(g, col, calls[0]);
      VisitSharp(g, col, calls[0]);
      VisitSound(g, col, calls[0]);
      if v.Clear? {
        VisitAllSharp(g, after, calls[1..], call);
      } else if v.Open? {
        if v.loop[0] == call.node && |v.loop| == 2 {
          var third :| third in Next(g, calls[0]) && third.node == v.loop[0];
          TurnIsSharp(g, call, calls[0], third);
          assert v.loop == [call.node, calls[0].node];
        }
      }
    }
  }

  lemma {:induction false} CheckAllSharp(g: Graph, col: Colours, roots: seq<Id>)
    requires g.Valid() && |col| == |g.kinds| && forall k :: 0 <= k < |roots| ==> roots[k] < |col|
    requires forall y :: 0 <= y < |col| ==> col[y] == 0 || col[y] == 2
    ensures var v := CheckAll(g, col, roots).0; v.Raised? ==> Sharp(g, v.loop)
    decreases |roots|
  {
    if roots != [] {
      var call := Check(roots[0], false, None);
      VisitSharp(g, col, call);
      VisitSound(g, col, call);
      var (v, after) := Visit(g, col, call);
      if v.Clear? {
        forall y | 0 <= y < |after| ensures after[y] == 0 || after[y] == 2 { assert after[y] != 1; }
        CheckAllSharp(g, after, roots[1..]);
      }
    }
  }

  lemma LoopEdges(g: Graph, loop: seq<Id>, k: nat)
    requires g.Valid() && Loop(g, loop) && k < |loop|
    ensures loop[k] < |g.kinds| && Above(loop, k) < |g.kinds| && Under(loop, k) < |g.kinds|
    ensures Edge(g, Above(loop, k), loop[k]) && Edge(g, loop[k], Under(loop, k))
  {
    if k + 1 < |loop| { assert Edge(g, loop[k + 1], loop[k]); }
    if k > 0 { assert Edge(g, loop[k - 1 + 1], loop[k - 1]); }
  }

  /** A symbol between soft edges lies between its choice and its choice. */
  lemma SoftSymbol(g: Graph, loop: seq<Id>, k: nat)
    requires g.Valid() && Paired(g) && Loop(g, loop) && k < |loop| && g.kinds[loop[k]].SymNode?
    requires !Hard(g, Above(loop, k), loop[k]) && !Hard(g, loop[k], Under(loop, k))
    ensures Above(loop, k) == Under(loop, k) && g.kinds[Above(loop, k)].ChoiceNode?
  {
    LoopEdges(g, loop, k);
  }

  lemma SoftTurns(g: Graph, loop: seq<Id>, k: nat)
    requires g.Valid() && Paired(g) && Loop(g, loop) && Distinct(loop) && k < |loop| && g.kinds[loop[k]].SymNode?
    requires !Hard(g, Above(loop, k), loop[k]) && !Hard(g, loop[k], Under(loop, k))
    ensures |loop| == 2 && !Sharp(g, loop)
  {
    SoftSymbol(g, loop, k);
    LoopEdges(g, loop, k);
    var above := if k + 1 < |loop| then k + 1 else 0;
    var under := if k > 0 then k - 1 else |loop| - 1;
    assert loop[above] == loop[under] && above == under;
    assert loop[1 - k] !in g.deps[loop[k]];
  }

  /** So some edge of every loop that the search reports is hard. */
  lemma SomeHard(g: Graph, loop: seq<Id>) returns (k: nat)
    requires g.Valid() && Paired(g) && Loop(g, loop) && Distinct(loop) && Sharp(g, loop)
    ensures k < |loop| && Hard(g, Above(loop, k), loop[k])
  {
    LoopEdges(g, loop, 0);
    k := 0;
    if !Hard(g, Above(loop, 0), loop[0]) {
      var i := if g.kinds[loop[0]].SymNode? then 0 else 1;
      if |loop| > 1 { LoopEdges(g, loop, 1); }
      assert i < |loop| && g.kinds[loop[i]].SymNode?;
      if Hard(g, Above(loop, i), loop[i]) { return i; }
      k := if i > 0 then i - 1 else |loop| - 1;
      if !Hard(g, loop[i], loop[k]) { SoftTurns(g, loop, i); }
    }
  }

  // ---- A check that finds nothing leaves no loop, choices aside ----

  lemma PathTurned(g: Graph, p: seq<Id>, k: nat)
    requires g.Valid() && BlockPath(g, p) && p[0] == p[|p| - 1] && k < |p|
    ensures Reaches(g, p[k], p[k])
  {
    var q := p[k..] + p[1..k + 1];
    forall j | 0 <= j < |q| - 1 ensures BlockEdge(g, q[j], q[j + 1]) {
      if j + k < |p| - 1 { assert q[j] == p[j + k] && q[j + 1] == p[j + k + 1]; }
      else if j + k == |p| - 1 { assert q[j] == p[0] && q[j + 1] == p[1]; }
      else { assert q[j] == p[j + k + 1 - |p|] && q[j + 1] == p[j + k + 2 - |p|]; }
    }
    assert |q| == |p| && q[0] == p[k] && q[|q| - 1] == p[k];
    assert BlockPath(g, q);
  }

  /** Outside choices, blocks are symbols. */
  lemma PlainEdge(g: Graph, a: Id, b: Id)
    requires g.Valid() && BlockEdge(g, a, b) && a < |g.kinds| && b < |g.kinds|
    requires g.kinds[a].SymNode? && g.kinds[b].SymNode?
    ensures b in g.deps[a]
  {
  }

  lemma EdgeInRange(g: Graph, a: Id, b: Id)
    requires g.Valid() && BlockEdge(g, a, b)
    ensures a < |g.kinds| && b < |g.kinds|
  {
  }

  lemma PathIsPlain(g: Graph, p: seq<Id>)
    requires g.Valid() && BlockPath(g, p) && p[0] == p[|p| - 1]
    requires forall k :: 0 <= k < |p| ==> p[k] < |g.kinds| && g.kinds[p[k]].SymNode?
    ensures exists loop :: PlainLoop(g, loop)
  {
    var m := |p| - 1;
    var loop := seq(m, k requires 0 <= k < m => p[m - 1 - k]);
    forall k | 0 <= k < m ensures p[k + 1] in g.deps[p[k]] {
      assert BlockEdge(g, p[k], p[k + 1]);
      PlainEdge(g, p[k], p[k + 1]);
    }
    forall k | 0 <= k < |loop| - 1 ensures loop[k] in g.deps[loop[k + 1]] {
      assert loop[k] == p[m - 2 - k + 1] && loop[k + 1] == p[m - 2 - k];
    }
    assert loop[|loop| - 1] == p[0] && loop[0] == p[m - 1];
    assert p[m - 1 + 1] in g.deps[p[m - 1]];
    assert PlainLoop(g, loop);
  }

  lemma BlockLoopIsPlain(g: Graph, b: Id)
    requires g.Valid() && NoChoiceLoop(g) && Reaches(g, b, b)
    ensures exists loop :: PlainLoop(g, loop)
  {
    var p :| BlockPath(g, p) && p[0] == b && p[|p| - 1] == b;
    forall k | 0 <= k < |p| ensures p[k] < |g.kinds| && g.kinds[p[k]].SymNode? {
      PathTurned(g, p, k);
      if k < |p| - 1 { EdgeInRange(g, p[k], p[k + 1]); } else { EdgeInRange(g, p[k - 1], p[k]); }
    }
    PathIsPlain(g, p);
  }

  /** A loop that the check reports is a loop of blocks: a symbol and its choice alone are not reported. */
  lemma RaisedIsBlockLoop(g: Graph, roots: seq<Id>)
    requires g.Valid() && Paired(g) && Covered(g, roots)
    requires CheckAll(g, Unvisited(|g.kinds|), roots).0.Raised?
    ensures exists b :: Reaches(g, b, b)
  {
    var loop := CheckAll(g, Unvisited(|g.kinds|), roots).0.loop;
    LoopCheck(g, roots);
    CheckAllSharp(g, Unvisited(|g.kinds|), roots);
    var k := SomeHard(g, loop);
    HardLoop(g, loop, k);
  }

  /** As long as no choice is on a loop, the check reports a loop exactly if there is one. */
  lemma LoopCheckExact(g: Graph, roots: seq<Id>)
    requires g.Valid() && Paired(g) && Covered(g, roots) && NoChoiceLoop(g)
    ensures CheckAll(g, Unvisited(|g.kinds|), roots).0.Raised? <==> exists b :: Reaches(g, b, b)
  {
    LoopCheck(g, roots);
    if CheckAll(g, Unvisited(|g.kinds|), roots).0.Raised? { RaisedIsBlockLoop(g, roots); }
    if b :| Reaches(g, b, b) { BlockLoopIsPlain(g, b); }
  }

  // ---- The search as it runs ----

  /** `_check_dep_loop_sym` and `_check_dep_loop_choice`, with the colours in place. */
  method CheckItem(g: Graph, visited: array<nat>, call: Call) returns (v: Verdict)
    requires g.Valid() && visited.Length == |g.kinds| && call.node < visited.Length
    modifies visited
    ensures (v, visited[..]) == Visit(g, old(visited[..]), call)
    decreases Whites(visited[..]), 1
  {
    var x := call.node;
    if visited[x] == 0 {
      ghost var before := visited[..];
      visited[x] := 1;
      ghost var grey := visited[..];
      assert grey == before[x := 1] && x in Whites(before) && Whites(grey) == Whites(before) - {x};
      var calls := Next(g, call);
      for k := 0 to |calls|
        invariant Whites(visited[..]) <= Whites(grey)
        invariant VisitAll(g, grey, calls, x) == VisitAll(g, visited[..], calls[k..], x)
      {
        assert calls[k] in calls && calls[k..][1..] == calls[k + 1..];
        v := CheckItem(g, visited, calls[k]);
        match v {
          case Clear =>
          case Open(loop) => return FoundDepLoop(loop, x);
          case Raised(_) => return;
        }
      }
      visited[x] := 2;
      v := Clear;
    } else if visited[x] == 2 {
      v := Clear;
    } else {
      v := Open([x]);
    }
  }

  /** The loop check of a configuration: raises the first loop found from any of the symbols. */
  method CheckConfiguration(g: Graph, roots: seq<Id>) returns (v: Verdict)
    requires g.Valid() && Covered(g, roots)
    ensures !v.Open? && (v.Raised? ==> Loop(g, v.loop) && Distinct(v.loop))
    ensures v.Clear? ==> forall loop :: !PlainLoop(g, loop)
    ensures Paired(g) && v.Raised? ==> exists b :: Reaches(g, b, b)
    ensures Paired(g) && NoChoiceLoop(g) ==> (v.Raised? <==> exists b :: Reaches(g, b, b))
    ensures v == CheckAll(g, Unvisited(|g.kinds|), roots).0
  {
    var visited := new nat[|g.kinds|](_ => 0);
    assert visited[..] == Unvisited(|g.kinds|);
    LoopCheck(g, roots);
    if Paired(g) && CheckAll(g, Unvisited(|g.kinds|), roots).0.Raised? { RaisedIsBlockLoop(g, roots); }
    if Paired(g) && NoChoiceLoop(g) { LoopCheckExact(g, roots); }
    for k := 0 to |roots|
      invariant CheckAll(g, Unvisited(|g.kinds|), roots) == CheckAll(g, visited[..], roots[k..])
    {
      assert roots[k..][1..] == roots[k + 1..];
      v := CheckItem(g, visited, Check(roots[k], false, None));
      if !v.Clear? { return; }
    }
    v := Clear;
  }
}
