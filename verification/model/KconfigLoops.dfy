/** Dependency loop detection: a depth-first search that colours items while it walks the `_dependents` sets. */
module KconfigLoops {
  import opened Basics
  import opened KconfigModel

  /** A symbol with its choice, or a choice with its symbols. */
  datatype Kind = SymNode(choice: Option<Id>) | ChoiceNode(syms: seq<Id>)

  /** `deps[x]` lists `x._dependents` in the order the search iterates over it. */
  datatype Graph = Graph(kinds: seq<Kind>, deps: seq<seq<Id>>) {
    ghost predicate Valid() {
      && |deps| == |kinds|
      && (forall x, d :: 0 <= x < |deps| && d in deps[x] ==> d < |kinds|)
      && (forall x :: 0 <= x < |kinds| ==>
            match kinds[x]
            case SymNode(choice) => choice.Some? ==> choice.value < |kinds| && kinds[choice.value].ChoiceNode?
            case ChoiceNode(syms) => forall s :: s in syms ==> s < |kinds| && kinds[s].SymNode?)
    }
  }

  /** `_check_dep_loop_sym(sym, ignore_choice)` or `_check_dep_loop_choice(choice, skip)`. */
  datatype Call = Check(node: Id, ignoreChoice: bool, skip: Option<Id>)

  /** `Open` is a loop still being collected on the way back; `Raised` is the exception that reports it. */
  datatype Verdict = Clear | Open(loop: seq<Id>) | Raised(loop: seq<Id>)

  /** `_found_dep_loop`. */
  function FoundDepLoop(loop: seq<Id>, cur: Id): Verdict
    requires loop != []
  {
    if cur != loop[0] then Open(loop + [cur]) else Raised(loop)
  }

  function Calls(xs: seq<Id>, ignoreChoice: bool, skip: Option<Id>): (calls: seq<Call>)
    ensures forall c :: c in calls ==> c.node in xs && Some(c.node) != skip && c == Check(c.node, ignoreChoice, None)
    ensures forall x :: x in xs && Some(x) != skip ==> Check(x, ignoreChoice, None) in calls
  {
    if xs == [] then []
    else (if Some(xs[0]) == skip then [] else [Check(xs[0], ignoreChoice, None)]) + Calls(xs[1..], ignoreChoice, skip)
  }

  /** The calls that a search at an unvisited item makes, in order. */
  function Next(g: Graph, call: Call): (calls: seq<Call>)
    requires g.Valid() && call.node < |g.kinds|
    ensures forall c :: c in calls ==> c.node < |g.kinds| && Edge(g, call.node, c.node)
    ensures g.kinds[call.node].SymNode? ==> forall d :: d in g.deps[call.node] ==> Check(d, false, None) in calls
  {
    match g.kinds[call.node]
    case SymNode(choice) =>
      Calls(g.deps[call.node], false, None)
      + (if choice.Some? && !call.ignoreChoice then [Check(choice.value, false, Some(call.node))] else [])
    case ChoiceNode(syms) => Calls(syms, true, call.skip)
  }

  /** What the search treats as a dependency: `y` depends on `x`, or one of them is the choice of the other. */
  predicate Edge(g: Graph, x: Id, y: Id)
    requires g.Valid() && x < |g.kinds|
  {
    || y in g.deps[x]
    || match g.kinds[x] {
         case SymNode(choice) => choice == Some(y)
         case ChoiceNode(syms) => y in syms
       }
  }

  type Colours = seq<nat>

  function Whites(col: Colours): set<nat> { set i | 0 <= i < |col| && col[i] == 0 }

  ghost predicate SameGreys(a: Colours, b: Colours) {
    |a| == |b| && forall y :: 0 <= y < |a| ==> (a[y] == 1 <==> b[y] == 1)
  }

  /** The search below one item, with `_visited` as `col`: 0 unvisited, 1 on the stack, 2 finished. */
  function Visit(g: Graph, col: Colours, call: Call): (r: (Verdict, Colours))
    requires g.Valid() && |col| == |g.kinds| && call.node < |col|
    ensures |r.1| == |col| && Whites(r.1) <= Whites(col) && (r.0.Clear? || r.0.loop != [])
    ensures r.0.Clear? ==> SameGreys(col, r.1)
    decreases Whites(col), 1, 0
  {
    var x := call.node;
    if col[x] == 0 then
      var grey := col[x := 1];
      assert x in Whites(col) && Whites(grey) == Whites(col) - {x};
      var (v, after) := VisitAll(g, grey, Next(g, call), x);
      if v.Clear? then (Clear, after[x := 2]) else (v, after)
    else if col[x] == 2 then (Clear, col)
    else (Open([x]), col)
  }

  function VisitAll(g: Graph, col: Colours, calls: seq<Call>, cur: Id): (r: (Verdict, Colours))
    requires g.Valid() && |col| == |g.kinds| && forall c :: c in calls ==> c.node < |col|
    ensures |r.1| == |col| && Whites(r.1) <= Whites(col) && (r.0.Clear? || r.0.loop != [])
    ensures r.0.Clear? ==> SameGreys(col, r.1)
    decreases Whites(col), 2, |calls|
  {
    if calls == [] then (Clear, col)
    else
      var (v, after) := Visit(g, col, calls[0]);
      match v
      case Clear => VisitAll(g, after, calls[1..], cur)
      case Open(loop) => (FoundDepLoop(loop, cur), after)
      case Raised(_) => (v, after)
  }

  /** The whole check: from every defined symbol in turn, sharing the colours. */
  function CheckAll(g: Graph, col: Colours, roots: seq<Id>): (r: (Verdict, Colours))
    requires g.Valid() && |col| == |g.kinds| && forall k :: 0 <= k < |roots| ==> roots[k] < |col|
    ensures |r.1| == |col|
    decreases |roots|
  {
    if roots == [] then (Clear, col)
    else
      var (v, after) := Visit(g, col, Check(roots[0], false, None));
      if v.Clear? then CheckAll(g, after, roots[1..]) else (v, after)
  }

  // ---- What is reported is a loop ----

  /** Each item depends on the next one. */
  ghost predicate Linked(g: Graph, loop: seq<Id>)
    requires g.Valid()
  {
    && (forall k :: 0 <= k < |loop| ==> loop[k] < |g.kinds|)
    && forall k :: 0 <= k < |loop| - 1 ==> Edge(g, loop[k + 1], loop[k])
  }

  /** ... and the last one on the first. */
  ghost predicate Loop(g: Graph, loop: seq<Id>)
    requires g.Valid()
  {
    loop != [] && Linked(g, loop) && Edge(g, loop[0], loop[|loop| - 1])
  }

  ghost predicate Distinct(xs: seq<Id>) { forall i, j :: 0 <= i < j < |xs| ==> xs[i] != xs[j] }

  /** A loop under construction: it starts at an item on the stack, goes through items found on the way and ends at `x`. */
  ghost predicate Opened(g: Graph, col: Colours, loop: seq<Id>, x: Id)
    requires g.Valid() && |col| == |g.kinds|
  {
    && loop != [] && Linked(g, loop) && Distinct(loop) && loop[|loop| - 1] == x
    && col[loop[0]] == 1
    && forall k :: 1 <= k < |loop| ==> col[loop[k]] == 0
  }

  ghost predicate Genuine(g: Graph, v: Verdict)
    requires g.Valid()
  {
    v.Raised? ==> Loop(g, v.loop) && Distinct(v.loop)
  }

  lemma {:induction false} VisitSound(g: Graph, col: Colours, call: Call)
    requires g.Valid() && |col| == |g.kinds| && call.node < |col| && forall y :: 0 <= y < |col| ==> col[y] <= 2
    ensures Genuine(g, Visit(g, col, call).0)
    ensures Visit(g, col, call).0.Open? ==> Opened(g, col, Visit(g, col, call).0.loop, call.node)
    ensures forall y :: 0 <= y < |col| ==> Visit(g, col, call).1[y] <= 2
    decreases Whites(col), 1, 0
  {
    var x := call.node;
    if col[x] == 0 {
      var grey := col[x := 1];
      assert x in Whites(col) && Whites(grey) == Whites(col) - {x};
      VisitAllSound(g, grey, Next(g, call), x);
    }
  }

  lemma {:induction false} VisitAllSound(g: Graph, col: Colours, calls: seq<Call>, cur: Id)
    requires g.Valid() && |col| == |g.kinds| && forall y :: 0 <= y < |col| ==> col[y] <= 2
    requires cur < |col| && col[cur] == 1 && forall c :: c in calls ==> c.node < |col| && Edge(g, cur, c.node)
    ensures Genuine(g, VisitAll(g, col, calls, cur).0)
    ensures forall y :: 0 <= y < |col| ==> VisitAll(g, col, calls, cur).1[y] <= 2
    ensures VisitAll(g, col, calls, cur).0.Open? ==> Opened(g, col[cur := 0], VisitAll(g, col, calls, cur).0.loop, cur)
    decreases Whites(col), 2, |calls|
  {
    if calls != [] {
      var (v, after) := Visit(g, col, calls[0]);
      assert calls[0] in calls;
      VisitSound(g, col, calls[0]);
      if v.Clear? {
        VisitAllSound(g, after, calls[1..], cur);
        var r := VisitAll(g, after, calls[1..], cur);
        if r.0.Open? { OpenedEarlier(g, col, after, r.0.loop, cur); }
      } else if v.Open? {
        OpenedFurther(g, col, v.loop, calls[0].node, cur);
      }
    }
  }

  lemma OpenedFurther(g: Graph, col: Colours, loop: seq<Id>, x: Id, cur: Id)
    requires g.Valid() && |col| == |g.kinds| && Opened(g, col, loop, x)
    requires cur < |col| && col[cur] == 1 && Edge(g, cur, x)
    ensures Genuine(g, FoundDepLoop(loop, cur))
    ensures cur != loop[0] ==> Opened(g, col[cur := 0], loop + [cur], cur)
  {}

  lemma OpenedEarlier(g: Graph, before: Colours, after: Colours, loop: seq<Id>, x: Id)
    requires g.Valid() && |before| == |after| == |g.kinds| && x < |before| && Opened(g, after[x := 0], loop, x)
    requires SameGreys(before, after) && Whites(after) <= Whites(before)
    ensures Opened(g, before[x := 0], loop, x)
  {
    forall k | 1 <= k < |loop| ensures before[x := 0][loop[k]] == 0 {
      assert loop[k] == x || loop[k] in Whites(after);
    }
  }

  lemma {:induction false} CheckAllSound(g: Graph, col: Colours, roots: seq<Id>)
    requires g.Valid() && |col| == |g.kinds| && forall k :: 0 <= k < |roots| ==> roots[k] < |col|
    requires forall y :: 0 <= y < |col| ==> col[y] == 0 || col[y] == 2
    ensures var v := CheckAll(g, col, roots).0; Genuine(g, v) && !v.Open?
    decreases |roots|
  {
    if roots != [] {
      var call := Check(roots[0], false, None);
      VisitSound(g, col, call);
      var (v, after) := Visit(g, col, call);
      if v.Clear? {
        forall y | 0 <= y < |after| ensures after[y] == 0 || after[y] == 2 { assert after[y] != 1; }
        CheckAllSound(g, after, roots[1..]);
      }
    }
  }

  // ---- A check that finds nothing yields an order ----

  /** `done` lists the finished items, and whatever depends on a finished symbol was finished before it. */
  ghost predicate Ordered(g: Graph, col: Colours, done: seq<Id>)
    requires g.Valid() && |col| == |g.kinds|
  {
    && (forall x :: 0 <= x < |col| ==> (col[x] == 2 <==> x in done))
    && (forall k :: 0 <= k < |done| ==> done[k] < |g.kinds| && Settled(g, done, k))
  }

  ghost predicate Settled(g: Graph, done: seq<Id>, k: nat)
    requires g.Valid() && k < |done| && done[k] < |g.kinds|
  {
    && done[k] !in done[..k]
    && (g.kinds[done[k]].SymNode? ==> forall d :: d in g.deps[done[k]] ==> d in done[..k])
  }

  lemma {:induction false} VisitOrders(g: Graph, col: Colours, call: Call, done: seq<Id>) returns (done': seq<Id>)
    requires g.Valid() && |col| == |g.kinds| && call.node < |col|
    requires Ordered(g, col, done) && Visit(g, col, call).0.Clear?
    ensures Ordered(g, Visit(g, col, call).1, done') && done <= done' && Visit(g, col, call).1[call.node] == 2
    decreases Whites(col), 1, 0
  {
    var x := call.node;
    done' := done;
    if col[x] == 0 {
      var grey := col[x := 1];
      assert x in Whites(col) && Whites(grey) == Whites(col) - {x};
      var calls := Next(g, call);
      done' := VisitAllOrders(g, grey, calls, x, done);
      var after := VisitAll(g, grey, calls, x).1;
      assert after[x] == 1;
      var all := done' + [x];
      forall k | 0 <= k < |all| ensures all[k] < |g.kinds| && Settled(g, all, k) {
        if k < |done'| {
          assert Settled(g, done', k) && all[..k] == done'[..k];
        } else {
          assert all[..k] == done';
          forall d | g.kinds[x].SymNode? && d in g.deps[x] ensures d in done' {
            assert Check(d, false, None) in calls;
          }
        }
      }
      done' := all;
    }
  }

  lemma {:induction false} VisitAllOrders(g: Graph, col: Colours, calls: seq<Call>, cur: Id, done: seq<Id>)
    returns (done': seq<Id>)
    requires g.Valid() && |col| == |g.kinds| && forall c :: c in calls ==> c.node < |col|
    requires Ordered(g, col, done) && VisitAll(g, col, calls, cur).0.Clear?
    ensures Ordered(g, VisitAll(g, col, calls, cur).1, done') && done <= done'
    ensures forall c :: c in calls ==> c.node in done'
    decreases Whites(col), 2, |calls|
  {
    done' := done;
    if calls != [] {
      var (v, after) := Visit(g, col, calls[0]);
      assert calls[0] in calls;
      var mid := VisitOrders(g, col, calls[0], done);
      done' := VisitAllOrders(g, after, calls[1..], cur, mid);
      assert calls[0].node in mid;
    }
  }

  lemma {:induction false} CheckAllOrders(g: Graph, col: Colours, roots: seq<Id>, done: seq<Id>) returns (done': seq<Id>)
    requires g.Valid() && |col| == |g.kinds| && forall k :: 0 <= k < |roots| ==> roots[k] < |col|
    requires Ordered(g, col, done) && CheckAll(g, col, roots).0.Clear?
    ensures Ordered(g, CheckAll(g, col, roots).1, done') && done <= done' && forall k :: 0 <= k < |roots| ==> roots[k] in done'
    decreases |roots|
  {
    done' := done;
    if roots != [] {
      var call := Check(roots[0], false, None);
      var mid := VisitOrders(g, col, call, done);
      done' := CheckAllOrders(g, Visit(g, col, call).1, roots[1..], mid);
      assert roots[0] in mid;
    }
  }

  /** The position at which `x` was finished. */
  ghost function Position(done: seq<Id>, x: Id): (k: nat)
    requires x in done
    ensures k < |done| && done[k] == x && x !in done[..k]
  {
    if done[0] == x then 0 else 1 + Position(done[1..], x)
  }

  lemma {:induction false} PositionBefore(done: seq<Id>, x: Id, k: nat)
    requires k <= |done| && x in done[..k]
    ensures x in done && Position(done, x) < k
  {
    if done[0] != x {
      assert done[..k] == [done[0]] + done[1..][..k - 1];
      PositionBefore(done[1..], x, k - 1);
    }
  }

  /** Dependents of finished symbols are finished earlier. */
  lemma DependentsFirst(g: Graph, col: Colours, done: seq<Id>, x: Id, d: Id)
    requires g.Valid() && |col| == |g.kinds| && Ordered(g, col, done)
    requires x in done && x < |g.kinds| && g.kinds[x].SymNode? && d in g.deps[x]
    ensures d in done && Position(done, d) < Position(done, x)
  {
    var k := Position(done, x);
    assert Settled(g, done, k);
    PositionBefore(done, d, k);
  }

  /** A loop made of nothing but dependents of symbols. */
  ghost predicate PlainLoop(g: Graph, loop: seq<Id>)
    requires g.Valid()
  {
    && loop != [] && (forall k :: 0 <= k < |loop| ==> loop[k] < |g.kinds| && g.kinds[loop[k]].SymNode?)
    && (forall k :: 0 <= k < |loop| - 1 ==> loop[k] in g.deps[loop[k + 1]])
    && loop[|loop| - 1] in g.deps[loop[0]]
  }

  lemma {:induction false} Climb(g: Graph, col: Colours, done: seq<Id>, loop: seq<Id>, k: nat)
    requires g.Valid() && |col| == |g.kinds| && Ordered(g, col, done) && PlainLoop(g, loop) && k < |loop|
    requires forall j :: 0 <= j < |loop| ==> loop[j] in done
    ensures Position(done, loop[0]) + k <= Position(done, loop[k])
  {
    if k > 0 {
      Climb(g, col, done, loop, k - 1);
      DependentsFirst(g, col, done, loop[k], loop[k - 1]);
    }
  }

  function Unvisited(n: nat): Colours { seq(n, _ => 0) }

  /** The check run on all symbols of a configuration. */
  ghost predicate Covered(g: Graph, roots: seq<Id>) {
    && (forall k :: 0 <= k < |roots| ==> roots[k] < |g.kinds|)
    && (forall x :: 0 <= x < |g.kinds| && g.kinds[x].SymNode? ==> x in roots)
  }

  /** A loop that the check reports is one: distinct items, each depending on the next and the last on the first.
      And a check that reports nothing leaves no loop among the dependents of symbols. */
  lemma LoopCheck(g: Graph, roots: seq<Id>)
    requires g.Valid() && Covered(g, roots)
    ensures var v := CheckAll(g, Unvisited(|g.kinds|), roots).0;
            && !v.Open?
            && (v.Raised? ==> Loop(g, v.loop) && Distinct(v.loop))
            && (v.Clear? ==> forall loop :: !PlainLoop(g, loop))
  {
    var col := Unvisited(|g.kinds|);
    CheckAllSound(g, col, roots);
    if CheckAll(g, col, roots).0.Clear? {
      var done := CheckAllOrders(g, col, roots, []);
      var after := CheckAll(g, col, roots).1;
      forall loop ensures !PlainLoop(g, loop) {
        if PlainLoop(g, loop) {
          forall j | 0 <= j < |loop| ensures loop[j] in done { assert loop[j] in roots; }
          OrderedHasNoLoop(g, after, done, loop);
        }
      }
    }
  }

  lemma OrderedHasNoLoop(g: Graph, col: Colours, done: seq<Id>, loop: seq<Id>)
    requires g.Valid() && |col| == |g.kinds| && Ordered(g, col, done)
    requires forall j :: 0 <= j < |loop| ==> loop[j] in done
    ensures !PlainLoop(g, loop)
  {
    if PlainLoop(g, loop) {
      Climb(g, col, done, loop, |loop| - 1);
      DependentsFirst(g, col, done, loop[0], loop[|loop| - 1]);
    }
  }
}
