/** The stack of active exception priorities of a PE, kept as a bit map, and the interrupt priority mask. */
module ExceptionPriorities {
  import opened Bits

  type Priority = nat
  type Index = nat

  const HIGHEST_NS_PRIORITY: Priority := 0x80

  /** The platform's priority table. */
  datatype Platform = Platform(priBits: nat, levels: nat, registered: Index -> bool) {
    predicate WellFormed() { 1 <= priBits <= 7 && levels <= 32 }

    /** The distance of neighbouring priorities. */
    function Unit(): (u: nat)
      requires WellFormed()
      ensures u > 0
    {
      match priBits case 1 => 64 case 2 => 32 case 3 => 16 case 4 => 8 case 5 => 4 case 6 => 2 case _ => 1
    }

    /** The bits in use of the lower seven. */
    function PriToIdx(p: Priority): Index
      requires WellFormed()
    {
      (p % 0x80) / Unit()
    }

    /** The check in `pri_to_idx`. */
    predicate Known(p: Priority)
      requires WellFormed()
    {
      PriToIdx(p) < levels && registered(PriToIdx(p))
    }
  }

  /** There are as many indices as the bits in use allow. */
  lemma UnitIs(c: Platform)
    requires c.WellFormed()
    ensures c.Unit() * Power(c.priBits) == 0x80
  {
    assert Power(1) == 2 && Power(2) == 4 && Power(3) == 8 && Power(4) == 16;
    assert Power(5) == 2 * Power(4) && Power(6) == 2 * Power(5) && Power(7) == 2 * Power(6);
  }

  /** A priority lies in the unit of its index, and so does its alias with bit 7 set. */
  lemma IndexIs(c: Platform, p: Priority)
    requires c.WellFormed() && p < 0x80
    ensures var i := c.PriToIdx(p); i * c.Unit() <= p < i * c.Unit() + c.Unit()
    ensures c.PriToIdx(p + 0x80) == c.PriToIdx(p)
  {
    assert p % 0x80 == p && (p + 0x80) % 0x80 == p;
    match c.priBits
    case 1 => assert p / 64 * 64 <= p < p / 64 * 64 + 64;
    case 2 => assert p / 32 * 32 <= p < p / 32 * 32 + 32;
    case 3 => assert p / 16 * 16 <= p < p / 16 * 16 + 16;
    case 4 => assert p / 8 * 8 <= p < p / 8 * 8 + 8;
    case 5 => assert p / 4 * 4 <= p < p / 4 * 4 + 4;
    case 6 => assert p / 2 * 2 <= p < p / 2 * 2 + 2;
    case _ =>
  }

  /** The data of a PE, and its priority mask register. */
  datatype Pe = Pe(active: nat, initMask: Priority, nsMask: Priority, mask: Priority)

  datatype Outcome = Returns(after: Pe) | Halts

  /** Bit 7 is clear. */
  predicate IsSecure(p: Priority) { p % 0x100 < 0x80 }

  // ---- The calls; `run` is the running priority that the interrupt controller reports ----

  function Activate(c: Platform, s: Pe, p: Priority, run: Priority): Outcome
    requires c.WellFormed()
  {
    if p >= run || !c.Known(p) then Halts else ActivateAt(s, p, c.PriToIdx(p))
  }

  function ActivateAt(s: Pe, p: Priority, i: Index): Outcome
    requires i < 32
  {
    if (s.active != 0 && i >= Ctz(s.active)) || p >= s.mask then Halts
    else Returns(Pe(Or(s.active, Power(i)), if s.active == 0 then s.mask % 0x100 else s.initMask, s.nsMask, p))
  }

  function Deactivate(c: Platform, s: Pe, p: Priority, run: Priority): Outcome
    requires c.WellFormed()
  {
    if p >= run || !c.Known(p) then Halts else DeactivateAt(s, p, c.PriToIdx(p))
  }

  function DeactivateAt(s: Pe, p: Priority, i: Index): Outcome {
    if s.active == 0 || i != Ctz(s.active) || s.mask > p then Halts
    else
      var active := And(s.active, s.active - 1);
      Returns(s.(active := active, mask := if active == 0 then s.initMask else p))
  }

  function ExitedNormalWorld(s: Pe, run: Priority): Outcome {
    if IsSecure(run) || s.active != 0 then Returns(s)
    else if s.nsMask != 0 || IsSecure(s.mask) then Halts
    else Returns(s.(nsMask := s.mask % 0x100, mask := HIGHEST_NS_PRIORITY))
  }

  function EnteringNormalWorld(s: Pe, run: Priority): Outcome {
    if IsSecure(run) || s.active != 0 || s.nsMask == 0 then Returns(s)
    else if s.mask != HIGHEST_NS_PRIORITY && s.mask != s.nsMask then Halts
    else Returns(s.(nsMask := 0, mask := s.nsMask))
  }

  function AllowNsPreemption(s: Pe): Outcome {
    if s.nsMask == 0 || s.active != 0 then Halts
    else Returns(s.(nsMask := 0, mask := s.nsMask))
  }

  datatype Op =
    | ActivateCall(p: Priority, run: Priority)
    | DeactivateCall(p: Priority, run: Priority)
    | ExitCall(run: Priority)
    | EnterCall(run: Priority)
    | AllowCall

  function Step(c: Platform, s: Pe, op: Op): Outcome
    requires c.WellFormed()
  {
    match op
    case ActivateCall(p, run) => Activate(c, s, p, run)
    case DeactivateCall(p, run) => Deactivate(c, s, p, run)
    case ExitCall(run) => ExitedNormalWorld(s, run)
    case EnterCall(run) => EnteringNormalWorld(s, run)
    case AllowCall => AllowNsPreemption(s)
  }

  function Run(c: Platform, s: Pe, ops: seq<Op>): Outcome
    requires c.WellFormed()
    decreases |ops|
  {
    if ops == [] then Returns(s)
    else
      match Step(c, s, ops[0])
      case Halts => Halts
      case Returns(s1) => Run(c, s1, ops[1..])
  }

  // ---- The stack that the bit map stands for ----

  /** The active priorities with their indices, the latest on top. */
  datatype Stack = Empty | Push(rest: Stack, top: Index, priority: Priority)

  /** A plain stack: only a higher (numerically lower) priority is pushed, only the top is popped. */
  function Stacked(c: Platform, stack: Stack, op: Op): (bool, Stack)
    requires c.WellFormed()
  {
    match op
    case ActivateCall(p, _) => (stack.Empty? || c.PriToIdx(p) < stack.top, Push(stack, c.PriToIdx(p), p))
    case DeactivateCall(p, _) =>
      if stack.Push? && stack.top == c.PriToIdx(p) then (true, stack.rest) else (false, stack)
    case _ => (true, stack)
  }

  function StackedAll(c: Platform, stack: Stack, ops: seq<Op>): (bool, Stack)
    requires c.WellFormed()
    decreases |ops|
  {
    if ops == [] then (true, stack)
    else
      var (ok, next) := Stacked(c, stack, ops[0]);
      if ok then StackedAll(c, next, ops[1..]) else (false, stack)
  }

  predicate Ordered(levels: nat, stack: Stack) {
    stack.Push? ==>
      && stack.top < levels <= 32
      && (stack.rest.Push? ==> stack.top < stack.rest.top)
      && Ordered(levels, stack.rest)
  }

  function Encode(levels: nat, stack: Stack): nat
    requires Ordered(levels, stack)
  {
    if stack.Empty? then 0 else Or(Encode(levels, stack.rest), Power(stack.top))
  }

  /** The mask underneath the activations. */
  function Base(s: Pe): Priority { if s.active == 0 then s.mask else s.initMask }

  /** The mask that the normal world is to find again. */
  function Original(s: Pe): Priority { if s.nsMask != 0 then s.nsMask else Base(s) }

  /** The stack is in order and the bits stand for it. */
  predicate Tracks(levels: nat, active: nat, stack: Stack) {
    Ordered(levels, stack) && active == Encode(levels, stack)
  }

  predicate Masked(s: Pe) {
    && Base(s) <= 0xff
    && (s.nsMask != 0 ==> Base(s) == HIGHEST_NS_PRIORITY && s.nsMask <= 0xff)
  }

  predicate Inv(c: Platform, s: Pe, stack: Stack) {
    Tracks(c.levels, s.active, stack) && Masked(s)
  }

  /** The mask is not above the priority on top. Only secure priorities have been activated. */
  predicate Guarded(c: Platform, s: Pe, stack: Stack)
    requires c.WellFormed()
  {
    AllSecure(c, stack) && (stack.Push? ==> s.mask <= stack.priority)
  }

  predicate AllSecure(c: Platform, stack: Stack)
    requires c.WellFormed()
  {
    stack.Push? ==> stack.priority < 0x80 && stack.top == c.PriToIdx(stack.priority) && AllSecure(c, stack.rest)
  }

  /** The call is made with a secure priority, if with any. */
  predicate SecureCall(op: Op) { op.ActivateCall? || op.DeactivateCall? ==> op.p < 0x80 }

  // ---- Bits and stack agree ----

  /** Indices above `i` leave the bits up to that of `i` clear. */
  lemma {:induction false} EncodeAbove(levels: nat, stack: Stack, i: Index)
    requires Ordered(levels, stack) && (stack.Push? ==> i < stack.top)
    ensures Clear(Encode(levels, stack), i + 1)
  {
    if stack.Push? {
      EncodeAbove(levels, stack.rest, i);
      HigherBit(Encode(levels, stack.rest), stack.top, i + 1);
    } else {
      ZeroClear(i + 1);
    }
  }

  lemma {:induction false} ZeroClear(n: nat)
    ensures Clear(0, n)
  {
    if n > 0 { ZeroClear(n - 1); }
  }

  /** The bits fit the 32 bits of `ehf_pri_bits_t`. */
  lemma {:induction false} EncodeFits(levels: nat, stack: Stack)
    requires Ordered(levels, stack)
    ensures Encode(levels, stack) < Power(32)
  {
    if stack.Push? {
      EncodeFits(levels, stack.rest);
      BitOrder(stack.top, 32);
      OrFits(Encode(levels, stack.rest), Power(stack.top), 32);
    }
  }

  /** The lowest set bit is the top of the stack, and clearing it pops the stack. */
  lemma {:induction false} TopIsLowest(levels: nat, stack: Stack)
    requires Ordered(levels, stack) && stack.Push?
    ensures Pops(Encode(levels, stack), stack.top, Encode(levels, stack.rest))
  {
    EncodeAbove(levels, stack.rest, stack.top);
    PushedBit(Encode(levels, stack.rest), stack.top);
  }

  /** A lower index means a lower priority number. */
  lemma IndexOrder(c: Platform, p: Priority, q: Priority)
    requires c.WellFormed() && p < 0x80 && q < 0x80 && c.PriToIdx(p) < c.PriToIdx(q)
    ensures p < q
  {
    if p >= q { DivideOrder(q, p, c.Unit()); }
  }

  lemma DivideOrder(a: nat, b: nat, u: nat)
    requires a <= b && u > 0
    ensures a / u <= b / u
  {
    if a / u > b / u { TimesOrder(b / u + 1, a / u, u); }
  }

  lemma TimesOrder(x: nat, y: nat, u: nat)
    requires x <= y
    ensures x * u <= y * u
  {
  }

  // ---- Each call ----

  /** Bits and stack are empty together. */
  lemma {:induction false} EmptyTogether(levels: nat, active: nat, stack: Stack)
    requires Tracks(levels, active, stack)
    ensures active == 0 <==> stack.Empty?
    ensures stack.Push? ==> Pops(active, stack.top, Encode(levels, stack.rest))
  {
    if stack.Push? { TopIsLowest(levels, stack); }
  }

  lemma {:induction false} PushTracks(levels: nat, active: nat, stack: Stack, i: Index, p: Priority)
    requires Tracks(levels, active, stack) && i < levels <= 32 && (stack.Push? ==> i < stack.top)
    ensures Tracks(levels, Or(active, Power(i)), Push(stack, i, p))
  {
  }

  lemma {:induction false} ActivateTracks(levels: nat, s: Pe, stack: Stack, p: Priority, i: Index)
    requires Tracks(levels, s.active, stack) && i < levels <= 32 && ActivateAt(s, p, i).Returns?
    ensures stack.Push? ==> i < stack.top
    ensures var active := ActivateAt(s, p, i).after.active; active != 0 && Tracks(levels, active, Push(stack, i, p))
  {
    EmptyTogether(levels, s.active, stack);
    PushTracks(levels, s.active, stack, i, p);
    EmptyTogether(levels, Or(s.active, Power(i)), Push(stack, i, p));
  }

  lemma {:induction false} ActivateMasks(s: Pe, p: Priority, i: Index)
    requires Masked(s) && i < 32 && ActivateAt(s, p, i).Returns? && ActivateAt(s, p, i).after.active != 0
    ensures var s1 := ActivateAt(s, p, i).after;
            Masked(s1) && s1.mask == p < s.mask && Base(s1) == Base(s) && s1.nsMask == s.nsMask
  {
  }

  /** The exact condition. */
  lemma {:induction false} ActivateHalts(c: Platform, s: Pe, stack: Stack, p: Priority, run: Priority)
    requires c.WellFormed() && Inv(c, s, stack)
    ensures Activate(c, s, p, run).Halts? <==>
            || p >= run || c.PriToIdx(p) >= c.levels || !c.registered(c.PriToIdx(p))
            || (stack.Push? && c.PriToIdx(p) >= stack.top) || p >= s.mask
  {
    EmptyTogether(c.levels, s.active, stack);
  }

  /** An activation that succeeds pushes a higher priority and masks everything that is not higher still. */
  lemma {:induction false} ActivateKeeps(c: Platform, s: Pe, stack: Stack, p: Priority, run: Priority)
    requires c.WellFormed() && Inv(c, s, stack) && Activate(c, s, p, run).Returns?
    ensures var s1 := Activate(c, s, p, run).after; var next := Push(stack, c.PriToIdx(p), p);
            && (stack.Push? ==> next.top < stack.top)
            && Inv(c, s1, next) && (Guarded(c, s, stack) && p < 0x80 ==> Guarded(c, s1, next))
            && s1.mask == p < s.mask && Base(s1) == Base(s) && s1.nsMask == s.nsMask
  {
    ActivateTracks(c.levels, s, stack, p, c.PriToIdx(p));
    ActivateMasks(s, p, c.PriToIdx(p));
  }

  lemma {:induction false} DeactivateTracks(levels: nat, s: Pe, stack: Stack, p: Priority, i: Index)
    requires Tracks(levels, s.active, stack)
    ensures DeactivateAt(s, p, i).Halts? <==> stack.Empty? || stack.top != i || s.mask > p
    ensures DeactivateAt(s, p, i).Returns? ==> Tracks(levels, DeactivateAt(s, p, i).after.active, stack.rest)
  {
    EmptyTogether(levels, s.active, stack);
  }

  lemma {:induction false} DeactivateMasks(s: Pe, p: Priority, i: Index)
    requires Masked(s) && DeactivateAt(s, p, i).Returns?
    ensures var s1 := DeactivateAt(s, p, i).after;
            && Masked(s1) && Base(s1) == Base(s) && s1.nsMask == s.nsMask
            && s1.mask == if s1.active == 0 then s.initMask else p
  {
  }

  /** The exact condition; a priority that is deactivated as it was activated does not fail over the mask. */
  lemma {:induction false} DeactivateHalts(c: Platform, s: Pe, stack: Stack, p: Priority, run: Priority)
    requires c.WellFormed() && Inv(c, s, stack)
    ensures Deactivate(c, s, p, run).Halts? <==>
            || p >= run || c.PriToIdx(p) >= c.levels || !c.registered(c.PriToIdx(p))
            || stack.Empty? || stack.top != c.PriToIdx(p) || s.mask > p
    ensures Guarded(c, s, stack) && stack.Push? && p == stack.priority ==>
            (Deactivate(c, s, p, run).Halts? <==> p >= run || c.PriToIdx(p) >= c.levels || !c.registered(c.PriToIdx(p)))
  {
    DeactivateTracks(c.levels, s, stack, p, c.PriToIdx(p));
  }

  /** A deactivation that succeeds pops the top. */
  lemma {:induction false} DeactivateKeeps(c: Platform, s: Pe, stack: Stack, p: Priority, run: Priority)
    requires c.WellFormed() && Inv(c, s, stack) && Deactivate(c, s, p, run).Returns?
    ensures var s1 := Deactivate(c, s, p, run).after;
            && stack.Push? && stack.top == c.PriToIdx(p)
            && Inv(c, s1, stack.rest) && (Guarded(c, s, stack) && p < 0x80 ==> Guarded(c, s1, stack.rest))
            && s1.mask == (if stack.rest.Empty? then s.initMask else p)
            && Base(s1) == Base(s) && s1.nsMask == s.nsMask
  {
    DeactivateTracks(c.levels, s, stack, p, c.PriToIdx(p));
    DeactivateMasks(s, p, c.PriToIdx(p));
    EmptyTogether(c.levels, Deactivate(c, s, p, run).after.active, stack.rest);
    if Guarded(c, s, stack) && p < 0x80 && stack.rest.Push? { PopGuards(c, stack, p); }
  }

  lemma PopGuards(c: Platform, stack: Stack, p: Priority)
    requires c.WellFormed() && AllSecure(c, stack) && Ordered(c.levels, stack) && p < 0x80
    requires stack.Push? && stack.rest.Push? && stack.top == c.PriToIdx(p)
    ensures p < stack.rest.priority
  {
    IndexOrder(c, p, stack.rest.priority);
  }

  /**
   * Leaving the normal world with nothing active stashes its mask and holds off non-secure interrupts. It is stopped
   * exactly if a mask is stashed already or the mask is in the secure range; otherwise nothing happens.
   */
  lemma {:induction false} ExitHides(c: Platform, s: Pe, stack: Stack, run: Priority)
    requires c.WellFormed() && Inv(c, s, stack)
    ensures var idle := stack.Empty? && run % 0x100 >= 0x80; var out := ExitedNormalWorld(s, run);
            && (out.Halts? <==> idle && (s.nsMask != 0 || s.mask < 0x80))
            && (idle && out.Returns? ==> out.after == Pe(0, s.initMask, s.mask, HIGHEST_NS_PRIORITY) && s.mask != 0)
            && (!idle ==> out.after == s)
  {
    EmptyTogether(c.levels, s.active, stack);
  }

  /** Leaving the normal world hides its mask without losing it. */
  lemma {:induction false} ExitKeeps(c: Platform, s: Pe, stack: Stack, run: Priority)
    requires c.WellFormed() && Inv(c, s, stack) && ExitedNormalWorld(s, run).Returns?
    ensures var s1 := ExitedNormalWorld(s, run).after;
            Inv(c, s1, stack) && Original(s1) == Original(s) && (Guarded(c, s, stack) ==> Guarded(c, s1, stack))
  {
    EmptyTogether(c.levels, s.active, stack);
  }

  /** Entering the normal world never finds a foreign mask. */
  lemma {:induction false} EnterKeeps(c: Platform, s: Pe, stack: Stack, run: Priority)
    requires c.WellFormed() && Inv(c, s, stack)
    ensures var out := EnteringNormalWorld(s, run);
            && out.Returns? && Inv(c, out.after, stack) && Original(out.after) == Original(s)
            && (Guarded(c, s, stack) ==> Guarded(c, out.after, stack))
            && (stack.Empty? && run % 0x100 >= 0x80 ==>
                  out.after == s.(nsMask := 0, mask := Original(s)))
            && (!(stack.Empty? && run % 0x100 >= 0x80) ==> out.after == s)
  {
    EmptyTogether(c.levels, s.active, stack);
  }

  lemma {:induction false} AllowKeeps(c: Platform, s: Pe, stack: Stack)
    requires c.WellFormed() && Inv(c, s, stack)
    ensures AllowNsPreemption(s).Halts? <==> s.nsMask == 0 || stack.Push?
    ensures var out := AllowNsPreemption(s);
            out.Returns? ==>
              && Inv(c, out.after, stack) && Original(out.after) == out.after.mask == Original(s)
              && (Guarded(c, s, stack) ==> Guarded(c, out.after, stack))
  {
    EmptyTogether(c.levels, s.active, stack);
  }

  // ---- Whole runs ----

  lemma {:induction false} StepKeeps(c: Platform, s: Pe, stack: Stack, op: Op)
    requires c.WellFormed() && Inv(c, s, stack) && Step(c, s, op).Returns?
    ensures var s1 := Step(c, s, op).after; var (ok, next) := Stacked(c, stack, op);
            && ok && Inv(c, s1, next) && Original(s1) == Original(s)
            && (Guarded(c, s, stack) && SecureCall(op) ==> Guarded(c, s1, next))
  {
    match op
    case ActivateCall(p, run) => ActivateKeeps(c, s, stack, p, run);
    case DeactivateCall(p, run) => DeactivateKeeps(c, s, stack, p, run);
    case ExitCall(run) => ExitKeeps(c, s, stack, run);
    case EnterCall(run) => EnterKeeps(c, s, stack, run);
    case AllowCall => AllowKeeps(c, s, stack);
  }

  /**
   * Every run that is not stopped is last-in-first-out: the bits do what a plain stack does. Throughout, the mask
   * that the normal world is to find again stays the same. With secure priorities, the mask never rises above the
   * priority on top.
   */
  lemma {:induction false} RunLifo(c: Platform, s: Pe, stack: Stack, ops: seq<Op>)
    requires c.WellFormed() && Inv(c, s, stack) && Run(c, s, ops).Returns?
    ensures var s1 := Run(c, s, ops).after; var (ok, end) := StackedAll(c, stack, ops);
            && ok && Inv(c, s1, end) && Original(s1) == Original(s)
            && (Guarded(c, s, stack) && (forall op :: op in ops ==> SecureCall(op)) ==> Guarded(c, s1, end))
    decreases |ops|
  {
    if ops != [] {
      StepKeeps(c, s, stack, ops[0]);
      RunLifo(c, Step(c, s, ops[0]).after, Stacked(c, stack, ops[0]).1, ops[1..]);
    }
  }

  /** Once everything is deactivated and no mask is stashed, the mask from the start is back. */
  lemma {:induction false} RunRestores(c: Platform, s: Pe, ops: seq<Op>)
    requires c.WellFormed() && s.active == 0 && s.nsMask == 0 && s.mask <= 0xff && Run(c, s, ops).Returns?
    ensures var s1 := Run(c, s, ops).after; s1.active == 0 && s1.nsMask == 0 ==> s1.mask == s.mask
  {
    RunLifo(c, s, Empty, ops);
  }

  // ---- While the mask of the normal world is stashed ----

  /** Non-secure interrupts are held off as long as a mask is stashed. */
  predicate Hidden(s: Pe) { s.nsMask != 0 ==> s.mask <= HIGHEST_NS_PRIORITY }

  /** A deactivation sets the mask to its own priority, which must not be a non-secure one. */
  predicate NoLower(op: Op) { op.DeactivateCall? ==> op.p <= HIGHEST_NS_PRIORITY }

  /** The exact condition under which a call goes on holding them off. */
  lemma {:induction false} StepHidden(c: Platform, s: Pe, stack: Stack, op: Op)
    requires c.WellFormed() && Inv(c, s, stack) && Hidden(s) && Step(c, s, op).Returns?
    ensures var s1 := Step(c, s, op).after;
            && (Hidden(s1) <==> NoLower(op) || s.nsMask == 0 || stack.rest.Empty?)
            && (!op.EnterCall? && !op.AllowCall? && s.nsMask != 0 ==> s1.nsMask == s.nsMask)
  {
    EmptyTogether(c.levels, s.active, stack);
    match op
    case ActivateCall(p, run) => ActivateKeeps(c, s, stack, p, run);
    case DeactivateCall(p, run) => DeactivateKeeps(c, s, stack, p, run);
    case _ =>
  }

  /** In every run that is not stopped, the mask stays at or above the non-secure range while one is stashed. */
  lemma {:induction false} RunHidden(c: Platform, s: Pe, stack: Stack, ops: seq<Op>)
    requires c.WellFormed() && Inv(c, s, stack) && Hidden(s) && Run(c, s, ops).Returns?
    requires forall op :: op in ops ==> NoLower(op)
    ensures var s1 := Run(c, s, ops).after;
            && Hidden(s1)
            && (s.nsMask != 0 && (forall op :: op in ops ==> !op.EnterCall? && !op.AllowCall?) ==> s1.nsMask == s.nsMask)
    decreases |ops|
  {
    if ops != [] {
      assert ops[0] in ops;
      StepKeeps(c, s, stack, ops[0]);
      StepHidden(c, s, stack, ops[0]);
      RunHidden(c, Step(c, s, ops[0]).after, Stacked(c, stack, ops[0]).1, ops[1..]);
    }
  }

  /** From leaving the normal world until it is entered or preemption is allowed, its interrupts are held off. */
  lemma {:induction false} ExitedRunHidden(c: Platform, s: Pe, run: Priority, ops: seq<Op>)
    requires c.WellFormed() && s.active == 0 && s.nsMask == 0 && s.mask <= 0xff && run % 0x100 >= 0x80
    requires Run(c, s, [ExitCall(run)] + ops).Returns?
    requires forall op :: op in ops ==> NoLower(op) && !op.EnterCall? && !op.AllowCall?
    ensures var s1 := Run(c, s, [ExitCall(run)] + ops).after; s1.mask <= HIGHEST_NS_PRIORITY && s1.nsMask == s.mask
  {
    assert ([ExitCall(run)] + ops)[1..] == ops;
    ExitHides(c, s, Empty, run);
    ExitKeeps(c, s, Empty, run);
    RunHidden(c, ExitedNormalWorld(s, run).after, Empty, ops);
  }

  // ---- What deactivation does not restore ----

  /**
   * Activating and deactivating a priority leaves everything as it was, except that the mask comes back only if no
   * other priority was active: otherwise it stays at the priority that has been deactivated.
   */
  lemma {:induction false} PairRestores(c: Platform, s: Pe, stack: Stack, p: Priority, run: Priority)
    requires c.WellFormed() && Inv(c, s, stack) && Activate(c, s, p, run).Returns?
    ensures var out := Deactivate(c, Activate(c, s, p, run).after, p, run);
            && out.Returns? && Inv(c, out.after, stack) && out.after.active == s.active && Base(out.after) == Base(s)
            && out.after.mask == (if stack.Empty? then s.mask else p)
            && (out.after.mask == s.mask <==> stack.Empty?)
  {
    var s1, next := Activate(c, s, p, run).after, Push(stack, c.PriToIdx(p), p);
    ActivateKeeps(c, s, stack, p, run);
    DeactivateHalts(c, s1, next, p, run);
    DeactivateKeeps(c, s1, next, p, run);
    EmptyTogether(c.levels, s.active, stack);
  }

  /** Hence below another active priority, a priority can be activated only once. */
  lemma {:induction false} SecondActivationHalts(c: Platform, s: Pe, stack: Stack, p: Priority, run: Priority)
    requires c.WellFormed() && Inv(c, s, stack) && Activate(c, s, p, run).Returns?
    ensures Run(c, s, [ActivateCall(p, run), DeactivateCall(p, run), ActivateCall(p, run)]).Halts? <==> stack.Push?
  {
    PairRestores(c, s, stack, p, run);
    var ops := [ActivateCall(p, run), DeactivateCall(p, run), ActivateCall(p, run)];
    var s1 := Activate(c, s, p, run).after;
    var s2 := Deactivate(c, s1, p, run).after;
    EmptyTogether(c.levels, s.active, stack);
    RunStep(c, s, ops);
    RunStep(c, s1, ops[1..]);
    RunStep(c, s2, ops[2..]);
  }

  lemma RunStep(c: Platform, s: Pe, ops: seq<Op>)
    requires c.WellFormed() && ops != []
    ensures Run(c, s, ops) ==
            match Step(c, s, ops[0]) case Halts => Halts case Returns(s1) => Run(c, s1, ops[1..])
  {
  }

  /** With 0x40 active, 0x20 is activated and deactivated: the mask does not come back, and 0x20 is refused. */
  lemma NestedPairHappens(c: Platform)
    requires c.priBits == 3 && c.levels == 8 && c.registered(2) && c.registered(4)
    ensures var start, low, high := Pe(0, 0, 0, 0xff), ActivateCall(0x40, 0xff), ActivateCall(0x20, 0xff);
            && Run(c, start, [low]).Returns? && Run(c, start, [low]).after.mask == 0x40
            && Run(c, start, [low, high, DeactivateCall(0x20, 0xff)]).Returns?
            && Run(c, start, [low, high, DeactivateCall(0x20, 0xff)]).after.mask == 0x20
            && Run(c, start, [low, high, DeactivateCall(0x20, 0xff), high]).Halts?
  {
    var start := Pe(0, 0, 0, 0xff);
    var low, high, undo := ActivateCall(0x40, 0xff), ActivateCall(0x20, 0xff), DeactivateCall(0x20, 0xff);
    assert c.PriToIdx(0x40) == 4 && c.PriToIdx(0x20) == 2;
    var one := Activate(c, start, 0x40, 0xff).after;
    ActivateKeeps(c, start, Empty, 0x40, 0xff);
    var stack := Push(Empty, 4, 0x40);
    EmptyTogether(c.levels, one.active, stack);
    assert Activate(c, one, 0x20, 0xff).Returns?;
    PairRestores(c, one, stack, 0x20, 0xff);
    SecondActivationHalts(c, one, stack, 0x20, 0xff);
    RunFrom(c, start, one, low, []);
    RunFrom(c, start, one, low, [high, undo]);
    RunFrom(c, start, one, low, [high, undo, high]);
    var two := Activate(c, one, 0x20, 0xff).after;
    RunFrom(c, one, two, high, [undo]);
    RunFrom(c, two, Deactivate(c, two, 0x20, 0xff).after, undo, []);
  }

  lemma RunFrom(c: Platform, s: Pe, s1: Pe, op: Op, ops: seq<Op>)
    requires c.WellFormed() && Step(c, s, op) == Returns(s1)
    ensures Run(c, s, [op] + ops) == Run(c, s1, ops)
  {
    assert ([op] + ops)[1..] == ops;
  }

  /** The two activations of the run below, after the normal world has been left. */
  lemma TwoActivated(c: Platform, hidden: Pe) returns (one: Pe, two: Pe)
    requires c.priBits == 3 && c.levels == 8 && c.registered(2) && c.registered(4) && hidden == Pe(0, 0, 0xff, 0x80)
    ensures Step(c, hidden, ActivateCall(0x40, 0xff)) == Returns(one)
    ensures Step(c, one, ActivateCall(0x20, 0xff)) == Returns(two)
    ensures Inv(c, two, Push(Push(Empty, 4, 0x40), 2, 0x20)) && two.mask == 0x20 && two.nsMask == 0xff
  {
    assert c.PriToIdx(0x40) == 4 && c.PriToIdx(0x20) == 2;
    ActivateHalts(c, hidden, Empty, 0x40, 0xff);
    ActivateKeeps(c, hidden, Empty, 0x40, 0xff);
    one := Activate(c, hidden, 0x40, 0xff).after;
    var stack := Push(Empty, 4, 0x40);
    ActivateHalts(c, one, stack, 0x20, 0xff);
    ActivateKeeps(c, one, stack, 0x20, 0xff);
    two := Activate(c, one, 0x20, 0xff).after;
  }

  lemma AliasDeactivated(c: Platform, two: Pe) returns (three: Pe)
    requires c.priBits == 3 && c.levels == 8 && c.registered(2) && c.registered(4)
    requires Inv(c, two, Push(Push(Empty, 4, 0x40), 2, 0x20)) && two.mask == 0x20
    ensures Step(c, two, DeactivateCall(0xa0, 0xff)) == Returns(three) && three.mask == 0xa0 && three.nsMask == two.nsMask
  {
    assert c.PriToIdx(0xa0) == 2;
    DeactivateHalts(c, two, Push(Push(Empty, 4, 0x40), 2, 0x20), 0xa0, 0xff);
    three := Deactivate(c, two, 0xa0, 0xff).after;
    DeactivateKeeps(c, two, Push(Push(Empty, 4, 0x40), 2, 0x20), 0xa0, 0xff);
  }

  lemma FourSteps(c: Platform, start: Pe, a: Op, s1: Pe, b: Op, s2: Pe, d: Op, s3: Pe, e: Op, s4: Pe)
    requires c.WellFormed() && Step(c, start, a) == Returns(s1) && Step(c, s1, b) == Returns(s2)
    requires Step(c, s2, d) == Returns(s3) && Step(c, s3, e) == Returns(s4)
    ensures Run(c, start, [a, b, d, e]) == Returns(s4)
  {
    RunFrom(c, start, s1, a, [b, d, e]);
    RunFrom(c, s1, s2, b, [d, e]);
    RunFrom(c, s2, s3, d, [e]);
    RunFrom(c, s3, s4, e, []);
  }

  /** A deactivation with a non-secure alias of the top priority, in turn, lowers the mask while one is stashed. */
  lemma AliasUnhides(c: Platform)
    requires c.priBits == 3 && c.levels == 8 && c.registered(2) && c.registered(4)
    ensures var ops := [ExitCall(0xff), ActivateCall(0x40, 0xff), ActivateCall(0x20, 0xff), DeactivateCall(0xa0, 0xff)];
            var out := Run(c, Pe(0, 0, 0, 0xff), ops);
            out.Returns? && out.after.nsMask == 0xff && out.after.mask == 0xa0
  {
    var start, hidden := Pe(0, 0, 0, 0xff), Pe(0, 0, 0xff, 0x80);
    var one, two := TwoActivated(c, hidden);
    var three := AliasDeactivated(c, two);
    FourSteps(c, start, ExitCall(0xff), hidden, ActivateCall(0x40, 0xff), one, ActivateCall(0x20, 0xff), two,
              DeactivateCall(0xa0, 0xff), three);
  }
}
