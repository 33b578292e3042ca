/** What the memory of the images holds over whole runs, and when a call stops the system. */
module FwuContents {
  import opened Basics
  import opened FwuModel
  import opened FwuInvariant

  /** For each image, the bytes that normal-world copy requests have supplied since its first block. */
  type History = map<Id, seq<Byte>>

  /** What an image has already been given when a copy is requested. */
  function Given(s: State, h: History, id: Id): seq<Byte>
    requires id in s.progress
  {
    if s.progress[id].state == COPYING && id in h then h[id] else []
  }

  /** A successful copy adds its block, clipped to what the image still lacks. */
  function Record(p: Platform, s: State, h: History, op: Op): History {
    match Step(p, s, op)
    case Halts => h
    case Returns(code, s1) =>
      if op.CopyCall? && code == Success && op.id in s.progress && op.id in s1.progress then
        var lacking := s1.progress[op.id].size - |Given(s, h, op.id)|;
        h[op.id := Given(s, h, op.id) + Bytes(s.memory, op.src, if 0 <= lacking < op.block then lacking else op.block)]
      else h
  }

  /** The image holds exactly what was supplied for it; once authenticated, that is authentic. */
  predicate Holds(p: Platform, s: State, h: History, id: Id)
    requires id in p.images && id in s.progress
  {
    p.images[id].secure && s.progress[id].state in {COPYING, COPIED, AUTHENTICATED} ==>
      && id in h
      && h[id] == Bytes(s.memory, p.images[id].base, s.progress[id].copied)
      && (s.progress[id].state == AUTHENTICATED ==> p.authentic(id, h[id]))
  }

  ghost predicate AllHold(p: Platform, s: State, h: History)
    requires s.progress.Keys == p.images.Keys
  {
    forall id :: id in p.images ==> Holds(p, s, h, id)
  }

  /** `[at, at + n)` has no byte in common with the memory set aside for the image. */
  predicate Outside(image: Image, at: int, n: nat) {
    at + n <= image.base || image.base + image.maxSize <= at
  }

  /**
   * What the running software may write between calls: the normal world nothing that is set aside for a secure
   * image, the secure image that runs also its own memory.
   */
  ghost predicate Permitted(p: Platform, s: State, op: Op) {
    && Covered(p, s, op)
    && (op.Store? ==>
          || (forall id :: p.Secure(id) ==> Outside(p.images[id], op.at, |op.data|))
          || (s.secureWorld && Within(p, s, s.lastExecuted, op.at, |op.data|)))
  }

  predicate Within(p: Platform, s: State, id: Id, at: int, n: nat) {
    && id in p.images && id in s.progress
    && p.images[id].base <= at && at + n <= p.images[id].base + s.progress[id].size
  }

  // ---- Writes leave other images alone ----

  lemma Untouched(memory: Memory, at: int, data: seq<Byte>, base: int, n: nat)
    requires base + n <= at || at + |data| <= base
    ensures Bytes(Overwrite(memory, at, data), base, n) == Bytes(memory, base, n)
  {
  }

  lemma Written(memory: Memory, at: int, data: seq<Byte>)
    ensures Bytes(Overwrite(memory, at, data), at, |data|) == data
  {
  }

  /** Only image `id` changes, and memory only within its extent. */
  lemma OthersHold(p: Platform, s: State, h: History, s1: State, h1: History, id: Id, at: int, data: seq<Byte>)
    requires Inv(p, s) && AllHold(p, s, h) && InUse(p, s.progress, id)
    requires id in s1.progress && s1.progress == s.progress[id := s1.progress[id]]
    requires Within(p, s, id, at, |data|)
    requires s1.memory == Overwrite(s.memory, at, data)
    requires h1 == h || (id in h1 && h1 == h[id := h1[id]])
    requires Holds(p, s1, h1, id)
    ensures AllHold(p, s1, h1)
  {
    forall other | other in p.images ensures Holds(p, s1, h1, other) {
      assert Holds(p, s, h, other);
      if other != id && p.images[other].secure && s.progress[other].state in {COPYING, COPIED, AUTHENTICATED} {
        assert InUse(p, s.progress, other) && Apart(p, s.progress, id, other);
        assert Counted(p.images[other], s.progress[other]) && Fits(p.images[other], s.progress[other]);
        Untouched(s.memory, at, data, p.images[other].base, s.progress[other].copied);
      }
    }
  }

  /** Only image `id` changes, and memory not at all. */
  lemma QuietHold(p: Platform, s: State, h: History, s1: State, id: Id)
    requires s.progress.Keys == p.images.Keys && AllHold(p, s, h) && id in p.images
    requires id in s1.progress && s1.progress == s.progress[id := s1.progress[id]] && s1.memory == s.memory
    requires Holds(p, s1, h, id)
    ensures AllHold(p, s1, h)
  {
    forall other | other in p.images ensures Holds(p, s1, h, other) {
      assert Holds(p, s, h, other);
    }
  }

  // ---- Each call ----

  lemma Appended(memory: Memory, base: int, n: nat, data: seq<Byte>)
    ensures Bytes(Overwrite(memory, base + n, data), base, n + |data|) == Bytes(memory, base, n) + data
  {
  }

  /** A block that is copied ends up behind the earlier ones, and nowhere else. */
  lemma BlockHolds(p: Platform, s: State, h: History, id: Id, data: seq<Byte>, slots: seq<Id>, earlier: seq<Byte>)
    requires p.WellFormed() && Inv(p, s) && AllHold(p, s, h) && p.Secure(id)
    requires s.progress[id].state == RESET || s.progress[id].state == COPYING
    requires s.progress[id].copied + |data| <= s.progress[id].size
    requires ApartFrom(p, s.progress, id)
    requires earlier == Bytes(s.memory, p.images[id].base, s.progress[id].copied)
    ensures var s1 := Copied(p, s.(slots := slots), id, data);
            s1.progress.Keys == p.images.Keys && AllHold(p, s1, h[id := earlier + data])
  {
    var s1 := Copied(p, s.(slots := slots), id, data);
    var base, n := p.images[id].base, s.progress[id].copied;
    Appended(s.memory, base, n, data);
    forall other | other in p.images ensures Holds(p, s1, h[id := earlier + data], other) {
      assert Holds(p, s, h, other);
      if other != id && p.images[other].secure && s.progress[other].state in {COPYING, COPIED, AUTHENTICATED} {
        assert InUse(p, s.progress, other) && Apart(p, s.progress, id, other);
        assert Counted(p.images[other], s.progress[other]) && Fits(p.images[other], s.progress[other]);
        Untouched(s.memory, base + n, data, p.images[other].base, s.progress[other].copied);
      }
    }
  }

  /** The same history whether it is described by the block asked for or by what was taken. */
  lemma CopyBlockHolds(p: Platform, s: State, h: History, id: Id, src: Address, block: Word32, mapped: bool, preLoad: bool)
    requires p.WellFormed() && Inv(p, s) && AllHold(p, s, h) && p.Secure(id) && block > 0
    requires var g := s.progress[id];
             ((g.state == RESET && g.copied == 0) || g.state == COPYING) && g.copied < g.size <= p.images[id].maxSize
    requires ApartFrom(p, s.progress, id)
    ensures var out := CopyBlock(p, s, id, src, block, mapped, preLoad);
            && out.Returns? && out.after.progress.Keys == p.images.Keys
            && |Given(s, h, id)| == s.progress[id].copied
            && AllHold(p, out.after,
                       if out.code == Success
                       then h[id := Given(s, h, id) + Bytes(s.memory, src, Clip(s.progress[id], block))] else h)
  {
    assert Holds(p, s, h, id);
    var g := s.progress[id];
    assert Given(s, h, id) == Bytes(s.memory, p.images[id].base, g.copied);
    if mapped && AddLoaded(s.slots, id).Some? {
      var slots := AddLoaded(s.slots, id).value;
      if g.state == RESET && !preLoad {
        QuietHold(p, s, h, s.(slots := slots), id);
      } else {
        BlockHolds(p, s, h, id, Bytes(s.memory, src, Clip(g, block)), slots, Given(s, h, id));
      }
    }
  }

  lemma CopyHolds(p: Platform, s: State, h: History, id: Id, src: Address, block: Word32, size: Word32,
                  mapped: bool, preLoad: bool)
    requires p.WellFormed() && Inv(p, s) && AllHold(p, s, h)
    ensures var out := Copy(p, s, id, src, block, size, mapped, preLoad);
            out.Returns? ==>
              && out.after.progress.Keys == p.images.Keys
              && AllHold(p, out.after, Record(p, s, h, CopyCall(id, src, block, size, mapped, preLoad)))
  {
    var out := Copy(p, s, id, src, block, size, mapped, preLoad);
    if out.Returns? && out.after != s {
      if s.progress[id].state == COPYING {
        NextCopyHolds(p, s, h, id, src, block, size, mapped, preLoad);
      } else if CheckOverlaps(p, s.progress[id := s.progress[id].(size := size)], s.slots, id) == Clear {
        StartedCopyHolds(p, s, h, id, src, block, size, mapped, preLoad);
      } else {
        QuietHold(p, s, h, out.after, id);
      }
    }
  }

  lemma NextCopyHolds(p: Platform, s: State, h: History, id: Id, src: Address, block: Word32, size: Word32,
                      mapped: bool, preLoad: bool)
    requires p.WellFormed() && Inv(p, s) && AllHold(p, s, h) && InUse(p, s.progress, id)
    requires s.progress[id].state == COPYING && !s.secureWorld
    requires src != 0 && block != 0 && src + (block - 1) < ADDRESS_SPACE
    ensures var out := Copy(p, s, id, src, block, size, mapped, preLoad);
            && out.Returns? && out.after.progress.Keys == p.images.Keys
            && AllHold(p, out.after, Record(p, s, h, CopyCall(id, src, block, size, mapped, preLoad)))
  {
    assert Counted(p.images[id], s.progress[id]) && Fits(p.images[id], s.progress[id]);
    CopyBlockHolds(p, s, h, id, src, block, mapped, preLoad);
  }

  lemma StartedCopyHolds(p: Platform, s: State, h: History, id: Id, src: Address, block: Word32, size: Word32,
                         mapped: bool, preLoad: bool)
    requires p.WellFormed() && Inv(p, s) && AllHold(p, s, h) && p.Secure(id) && s.progress[id].state == RESET
    requires !s.secureWorld && src != 0 && block != 0 && src + (block - 1) < ADDRESS_SPACE
    requires 0 < size <= p.images[id].maxSize
    requires CheckOverlaps(p, s.progress[id := s.progress[id].(size := size)], s.slots, id) == Clear
    ensures var out := Copy(p, s, id, src, block, size, mapped, preLoad);
            && out.Returns? && out.after.progress.Keys == p.images.Keys
            && AllHold(p, out.after, Record(p, s, h, CopyCall(id, src, block, size, mapped, preLoad)))
  {
    FirstCopyHolds(p, s, h, id, src, block, size, mapped, preLoad);
  }

  lemma FirstCopyHolds(p: Platform, s: State, h: History, id: Id, src: Address, block: Word32, size: Word32,
                       mapped: bool, preLoad: bool)
    requires p.WellFormed() && Inv(p, s) && AllHold(p, s, h) && p.Secure(id) && s.progress[id].state == RESET
    requires block > 0 && 0 < size <= p.images[id].maxSize
    requires CheckOverlaps(p, s.progress[id := s.progress[id].(size := size)], s.slots, id) == Clear
    ensures var s1 := With(s, id, Progress(RESET, size, 0));
            var out := CopyBlock(p, s1, id, src, block, mapped, preLoad);
            && out.Returns? && out.after.progress.Keys == p.images.Keys
            && AllHold(p, out.after,
                       if out.code == Success
                       then h[id := Given(s, h, id) + Bytes(s.memory, src, Clip(s1.progress[id], block))] else h)
  {
    var sized := s.progress[id].(size := size);
    var s1 := With(s, id, sized.(copied := 0));
    ResetSizeInv(p, s, id, sized.(copied := 0));
    ClearApart(p, s, id, sized);
    StillApart(p, s, id, sized);
    QuietHold(p, s, h, s1, id);
    CopyBlockHolds(p, s1, h, id, src, block, mapped, preLoad);
  }

  /** A failed authentication of a copied image clears its extent, and touches nothing else. */
  lemma AuthFailedHolds(p: Platform, s: State, h: History, id: Id)
    requires p.WellFormed() && Inv(p, s) && AllHold(p, s, h) && p.Secure(id) && s.progress[id].state == COPIED
    requires AuthCopied(p, s, id, true).code == AuthFailed
    ensures var s1 := AuthCopied(p, s, id, true).after; s1.progress.Keys == p.images.Keys && AllHold(p, s1, h)
  {
    var s1 := AuthCopied(p, s, id, true).after;
    OthersHold(p, s, h, s1, h, id, p.images[id].base, Zeros(s.progress[id].size));
  }

  lemma AuthHolds(p: Platform, s: State, h: History, id: Id, src: Address, size: Word32, mapped: bool, postLoad: bool)
    requires p.WellFormed() && Inv(p, s) && AllHold(p, s, h) && !(s.secureWorld && p.Secure(id))
    ensures var out := Auth(p, s, id, src, size, mapped, postLoad);
            out.Returns? ==> out.after.progress.Keys == p.images.Keys && AllHold(p, out.after, h)
  {
    AuthAffects(p, s, id, src, size, mapped, postLoad);
    var out := Auth(p, s, id, src, size, mapped, postLoad);
    if out.Returns? && out.after != s {
      if p.images[id].secure && out.code == AuthFailed {
        AuthFailedHolds(p, s, h, id);
      } else {
        assert Fits(p.images[id], s.progress[id]) && Holds(p, s, h, id);
        QuietHold(p, s, h, out.after, id);
      }
    }
  }

  lemma ResetHolds(p: Platform, s: State, h: History, id: Id)
    requires p.WellFormed() && Inv(p, s) && AllHold(p, s, h)
    ensures var out := Reset(p, s, id);
            out.Returns? ==> out.after.progress.Keys == p.images.Keys && AllHold(p, out.after, h)
  {
    var out := Reset(p, s, id);
    if out.Returns? && out.after != s {
      var g := s.progress[id];
      assert Counted(p.images[id], g) && Fits(p.images[id], g);
      if g.copied == 0 {
        QuietHold(p, s, h, out.after, id);
      } else {
        OthersHold(p, s, h, out.after, h, id, p.images[id].base, Zeros(g.copied));
      }
    }
  }

  lemma StoreHolds(p: Platform, s: State, h: History, op: Op)
    requires p.WellFormed() && Inv(p, s) && AllHold(p, s, h) && op.Store? && Permitted(p, s, op)
    ensures AllHold(p, Step(p, s, op).after, h)
  {
    var s1 := Step(p, s, op).after;
    if s.secureWorld && Within(p, s, s.lastExecuted, op.at, |op.data|) {
      assert InUse(p, s.progress, s.lastExecuted);
      OthersHold(p, s, h, s1, h, s.lastExecuted, op.at, op.data);
    } else {
      forall id | id in p.images ensures Holds(p, s1, h, id) {
        assert Holds(p, s, h, id) && Counted(p.images[id], s.progress[id]) && Fits(p.images[id], s.progress[id]);
        if p.images[id].secure && s.progress[id].state in {COPYING, COPIED, AUTHENTICATED} {
          assert p.Secure(id) && Outside(p.images[id], op.at, |op.data|);
          Untouched(s.memory, op.at, op.data, p.images[id].base, s.progress[id].copied);
        }
      }
    }
  }

  lemma StepHolds(p: Platform, s: State, h: History, op: Op)
    requires p.WellFormed() && Inv(p, s) && AllHold(p, s, h) && Permitted(p, s, op)
    ensures var out := Step(p, s, op);
            out.Returns? ==> out.after.progress.Keys == p.images.Keys && AllHold(p, out.after, Record(p, s, h, op))
  {
    match op
    case CopyCall(id, src, block, size, mapped, preLoad) => CopyHolds(p, s, h, id, src, block, size, mapped, preLoad);
    case AuthCall(id, src, size, mapped, postLoad) => AuthHolds(p, s, h, id, src, size, mapped, postLoad);
    case ExecuteCall(id) =>
      var s1 := Execute(p, s, id).after;
      if s1 != s { QuietHold(p, s, h, s1, id); }
    case ResumeCall =>
      var out := Resume(p, s);
      if out.Returns? && out.after != s { QuietHold(p, s, h, out.after, s.lastExecuted); }
    case DoneCall =>
      var out := ImageDone(p, s);
      if out.Returns? && out.after != s { QuietHold(p, s, h, out.after, s.lastExecuted); }
    case ResetCall(id) => ResetHolds(p, s, h, id);
    case Store(at, data) => StoreHolds(p, s, h, op);
  }

  // ---- Whole runs ----

  ghost predicate AllPermitted(p: Platform, s: State, ops: seq<Op>)
    decreases |ops|
  {
    ops != [] ==>
      && Permitted(p, s, ops[0])
      && (Step(p, s, ops[0]).Returns? ==> AllPermitted(p, Step(p, s, ops[0]).after, ops[1..]))
  }

  function RecordAll(p: Platform, s: State, h: History, ops: seq<Op>): History
    decreases |ops|
  {
    if ops == [] || Step(p, s, ops[0]).Halts? then h
    else RecordAll(p, Step(p, s, ops[0]).after, Record(p, s, h, ops[0]), ops[1..])
  }

  lemma {:induction false} RunKeeps(p: Platform, s: State, h: History, ops: seq<Op>)
    requires p.WellFormed() && Inv(p, s) && AllHold(p, s, h) && AllPermitted(p, s, ops)
    ensures var out := Run(p, s, ops);
            out.Returns? ==> Inv(p, out.after) && AllHold(p, out.after, RecordAll(p, s, h, ops))
    decreases |ops|
  {
    if ops != [] && Step(p, s, ops[0]).Returns? {
      StepInv(p, s, ops[0]);
      StepHolds(p, s, h, ops[0]);
      RunKeeps(p, Step(p, s, ops[0]).after, Record(p, s, h, ops[0]), ops[1..]);
    }
  }

  /** Whatever is called in whatever order, every reachable state is sound. */
  lemma RunSafe(p: Platform, s: State, ops: seq<Op>)
    requires p.WellFormed() && Initial(p, s) && AllPermitted(p, s, ops)
    ensures var out := Run(p, s, ops);
            out.Returns? ==> Inv(p, out.after) && AllHold(p, out.after, RecordAll(p, s, map[], ops))
  {
    InitialInv(p, s);
    RunKeeps(p, s, map[], ops);
  }

  /** A secure image that starts to run holds, in full, what was supplied for it, and that is authentic. */
  lemma ExecutesAuthentic(p: Platform, s: State, ops: seq<Op>, id: Id)
    requires p.WellFormed() && Initial(p, s) && AllPermitted(p, s, ops)
    requires Run(p, s, ops).Returns? && Execute(p, Run(p, s, ops).after, id).code == Success
    ensures var now, h := Run(p, s, ops).after, RecordAll(p, s, map[], ops);
            && p.Secure(id) && p.images[id].executable && id in now.progress && id in h
            && Bytes(now.memory, p.images[id].base, now.progress[id].size) == h[id]
            && p.authentic(id, h[id])
  {
    RunSafe(p, s, ops);
    var now := Run(p, s, ops).after;
    assert Fits(p.images[id], now.progress[id]);
    assert Holds(p, now, RecordAll(p, s, map[], ops), id);
  }

  // ---- Calls that stop the system ----

  /** A copy stops the system only in the overlap check; the checks of a copy under way never fail. */
  lemma CopyHalts(p: Platform, s: State, id: Id, src: Address, block: Word32, size: Word32, mapped: bool, preLoad: bool)
    requires p.WellFormed() && Booked(p, s)
    ensures Copy(p, s, id, src, block, size, mapped, preLoad).Halts? <==>
            && !s.secureWorld && p.Secure(id) && s.progress[id].state == RESET
            && src != 0 && block != 0 && src + (block - 1) < ADDRESS_SPACE && 0 < size <= p.images[id].maxSize
            && CheckOverlaps(p, s.progress[id := s.progress[id].(size := size)], s.slots, id) == Broken
  {
    if p.Secure(id) {
      assert Counted(p.images[id], s.progress[id]);
    }
  }

  /** The slot that makes the overlap check fail: the image is in RESET, or does not end above its base. */
  ghost predicate BreaksAt(p: Platform, progress: map<Id, Progress>, slots: seq<Id>, id: Id, i: int)
    requires id in p.images && progress.Keys == p.images.Keys && Slotted(p, slots)
  {
    && 0 <= i < |slots| && slots[i] != INVALID_IMAGE_ID && slots[i] != id
    && (|| progress[slots[i]].state == RESET
        || (progress[slots[i]].size > 0 &&
            LastByte(p.images[slots[i]].base, progress[slots[i]].size) <= p.images[slots[i]].base))
    && forall j :: 0 <= j < i ==> CheckSlot(p, progress, slots[j], id) == Clear
  }

  lemma {:induction false} CheckBreaks(p: Platform, progress: map<Id, Progress>, slots: seq<Id>, id: Id)
    requires id in p.images && progress.Keys == p.images.Keys && Slotted(p, slots)
    ensures CheckOverlaps(p, progress, slots, id) == Broken <==> exists i :: BreaksAt(p, progress, slots, id, i)
  {
    if slots != [] {
      var rest := slots[1..];
      CheckBreaks(p, progress, rest, id);
      if CheckSlot(p, progress, slots[0], id) == Clear {
        if i :| BreaksAt(p, progress, rest, id, i) {
          assert forall j :: 0 < j < i + 1 ==> slots[j] == rest[j - 1];
          assert BreaksAt(p, progress, slots, id, i + 1);
        }
        if i :| BreaksAt(p, progress, slots, id, i) {
          assert forall j :: 0 <= j < i - 1 ==> rest[j] == slots[j + 1];
          assert BreaksAt(p, progress, rest, id, i - 1);
        }
      } else if CheckSlot(p, progress, slots[0], id) == Broken {
        assert BreaksAt(p, progress, slots, id, 0);
      }
    }
  }

  /** An authentication stops the system exactly if the image is found authentic and the post-load hook fails. */
  lemma AuthHalts(p: Platform, s: State, id: Id, src: Address, size: Word32, mapped: bool, postLoad: bool)
    requires p.WellFormed() && Booked(p, s)
    ensures Auth(p, s, id, src, size, mapped, postLoad).Halts? <==>
            !postLoad && Auth(p, s, id, src, size, mapped, true).Returns?
            && Auth(p, s, id, src, size, mapped, true).code == Success
    ensures Auth(p, s, id, src, size, mapped, true).Returns?
    ensures Auth(p, s, id, src, size, mapped, true).code == Success <==>
            && id in p.images
            && (if !s.secureWorld && p.images[id].secure then
                  s.progress[id].state == COPIED &&
                  p.authentic(id, Bytes(s.memory, p.images[id].base, s.progress[id].size))
                else
                  && s.progress[id].state == RESET && mapped
                  && src != 0 && size != 0 && src + (size - 1) < ADDRESS_SPACE
                  && (id in s.slots || INVALID_IMAGE_ID in s.slots)
                  && p.authentic(id, Bytes(s.memory, src, size)))
  {
  }

  /** The secure world can always yield; the normal world can resume exactly an interrupted image. */
  lemma ResumeHalts(p: Platform, s: State)
    requires p.WellFormed() && Booked(p, s)
    ensures Resume(p, s).Halts? <==>
            !s.secureWorld && s.lastExecuted in p.images && s.progress[s.lastExecuted].state != INTERRUPTED
  {
  }

  /** Reset never meets a running secure image, and always finds the slot of an image that is in use. */
  lemma ResetHalts(p: Platform, s: State, id: Id)
    requires p.WellFormed() && Booked(p, s)
    ensures Reset(p, s, id).Halts? <==>
            !s.secureWorld && id in p.images && !p.images[id].secure && s.progress[id].state == EXECUTED
    ensures Reset(p, s, id).Returns? ==>
            Reset(p, s, id).code == if id in p.images && !s.secureWorld then Success else NotPermitted
  {
    if id in p.images {
      assert Counted(p.images[id], s.progress[id]) && Listed(p, s, id);
      if s.progress[id].state == EXECUTED && p.images[id].secure {
        assert InUse(p, s.progress, id);
      }
    }
  }

  /** A reset leaves nothing of what had been copied, and a failed authentication nothing of the image. */
  lemma ResetClears(p: Platform, s: State, id: Id)
    requires p.WellFormed() && Booked(p, s) && InUse(p, s.progress, id) && !s.secureWorld
    ensures var out := Reset(p, s, id);
            && out.Returns? && out.after.progress[id] == Progress(RESET, 0, 0) && id !in out.after.slots
            && Bytes(out.after.memory, p.images[id].base, s.progress[id].copied) == Zeros(s.progress[id].copied)
    ensures var out := AuthCopied(p, s, id, true);
            s.progress[id].state == COPIED && out.code == AuthFailed ==>
            && out.after.progress[id].state == RESET && id !in out.after.slots
            && Bytes(out.after.memory, p.images[id].base, s.progress[id].size) == Zeros(s.progress[id].size)
  {
    ResetHalts(p, s, id);
    assert Counted(p.images[id], s.progress[id]) && Listed(p, s, id);
    RemoveKeeps(p, s.slots, id);
    Written(s.memory, p.images[id].base, Zeros(s.progress[id].copied));
    Written(s.memory, p.images[id].base, Zeros(s.progress[id].size));
  }

  // ---- Which images are listed ----

  /** Only images in use are listed. */
  ghost predicate NoneStalled(p: Platform, s: State) {
    forall id :: id in p.images && id in s.slots ==> id in s.progress && s.progress[id].state != RESET
  }

  predicate PreLoads(op: Op) { op.CopyCall? ==> op.preLoad }

  lemma RemovedNoneStalled(p: Platform, s: State, s1: State, id: Id)
    requires p.WellFormed() && Slotted(p, s.slots) && NoneStalled(p, s) && id in p.images && id in s.slots
    requires id in s1.progress && s1.progress == s.progress[id := s1.progress[id]]
    requires s1.slots == RemoveLoaded(s.slots, id).value
    ensures NoneStalled(p, s1)
  {
    RemoveKeeps(p, s.slots, id);
  }

  lemma CopyNoneStalled(p: Platform, s: State, id: Id, src: Address, block: Word32, size: Word32, mapped: bool)
    requires p.WellFormed() && Booked(p, s) && NoneStalled(p, s)
    ensures var out := Copy(p, s, id, src, block, size, mapped, true); out.Returns? ==> NoneStalled(p, out.after)
  {
    var out := Copy(p, s, id, src, block, size, mapped, true);
    if out.Returns? && out.after != s {
      assert Counted(p.images[id], s.progress[id]) && Listed(p, s, id);
      if out.code == Success {
        AddKeeps(p, s.slots, id);
      }
    }
  }

  lemma AuthNoneStalled(p: Platform, s: State, id: Id, src: Address, size: Word32, mapped: bool, postLoad: bool)
    requires p.WellFormed() && Booked(p, s) && NoneStalled(p, s)
    ensures var out := Auth(p, s, id, src, size, mapped, postLoad); out.Returns? ==> NoneStalled(p, out.after)
  {
    var out := Auth(p, s, id, src, size, mapped, postLoad);
    if out.Returns? && out.after != s {
      assert Counted(p.images[id], s.progress[id]) && Listed(p, s, id);
      if s.progress[id].state == COPIED {
        RemoveKeeps(p, s.slots, id);
      } else {
        AddKeeps(p, s.slots, id);
        RemoveKeeps(p, AddLoaded(s.slots, id).value, id);
      }
    }
  }

  /** Unless a pre-load hook fails, an image is listed exactly while it is in use. */
  lemma StepNoneStalled(p: Platform, s: State, op: Op)
    requires p.WellFormed() && Booked(p, s) && NoneStalled(p, s) && PreLoads(op)
    ensures Step(p, s, op).Returns? ==> NoneStalled(p, Step(p, s, op).after)
  {
    match op
    case CopyCall(id, src, block, size, mapped, preLoad) => CopyNoneStalled(p, s, id, src, block, size, mapped);
    case AuthCall(id, src, size, mapped, postLoad) => AuthNoneStalled(p, s, id, src, size, mapped, postLoad);
    case DoneCall =>
      var out := ImageDone(p, s);
      if out.Returns? && out.after != s { RemovedNoneStalled(p, s, out.after, s.lastExecuted); }
    case ResetCall(id) =>
      var out := Reset(p, s, id);
      if out.Returns? && out.after != s { RemovedNoneStalled(p, s, out.after, id); }
    case _ =>
  }

  lemma {:induction false} RunNoneStalled(p: Platform, s: State, ops: seq<Op>)
    requires p.WellFormed() && Booked(p, s) && NoneStalled(p, s)
    requires forall op :: op in ops ==> PreLoads(op)
    ensures Run(p, s, ops).Returns? ==> NoneStalled(p, Run(p, s, ops).after)
    decreases |ops|
  {
    if ops != [] && Step(p, s, ops[0]).Returns? {
      assert ops[0] in ops;
      StepBooked(p, s, ops[0]);
      StepNoneStalled(p, s, ops[0]);
      RunNoneStalled(p, Step(p, s, ops[0]).after, ops[1..]);
    }
  }
}
