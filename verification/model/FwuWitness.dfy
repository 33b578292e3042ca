/** Runs from the start in which a call stops the system. */
module FwuWitness {
  import opened Basics
  import opened FwuModel
  import opened FwuInvariant

  /** A first block of `id` that covers the whole image, from the normal world. */
  function WholeCopy(id: Id, src: Address, size: Word32, preLoad: bool): Op {
    CopyCall(id, src, size, size, true, preLoad)
  }

  /** The arguments are ones that a copy accepts. */
  predicate Acceptable(p: Platform, id: Id, src: Address, size: Word32) {
    p.Secure(id) && src != 0 && 0 < size <= p.images[id].maxSize && src + (size - 1) < ADDRESS_SPACE
  }

  lemma RunFrom(p: Platform, s: State, s1: State, code: Code, op: Op, ops: seq<Op>)
    requires Step(p, s, op) == Returns(code, s1)
    ensures Run(p, s, [op] + ops) == Run(p, s1, ops)
  {
    assert ([op] + ops)[1..] == ops;
  }

  lemma RunStops(p: Platform, s: State, op: Op, ops: seq<Op>)
    requires Step(p, s, op) == Halts
    ensures Run(p, s, [op] + ops) == Halts
  {
  }

  /** The first copy of a run finds no other image. */
  lemma FirstCopy(p: Platform, s: State, id: Id, src: Address, size: Word32, preLoad: bool)
    requires p.WellFormed() && Initial(p, s) && s.slots != [] && Acceptable(p, id, src, size)
    ensures var out := Step(p, s, WholeCopy(id, src, size, preLoad));
            && out.Returns? && out.after.slots == s.slots[0 := id] && !out.after.secureWorld
            && out.after.progress.Keys == p.images.Keys && out.after.lastExecuted == s.lastExecuted
            && (forall other :: other in p.images && other != id ==> out.after.progress[other] == s.progress[other])
            && (if preLoad then
                  && out.after.progress[id] == Progress(COPIED, size, size)
                  && out.after.memory == Overwrite(s.memory, p.images[id].base, Bytes(s.memory, src, size))
                else out.after.progress[id] == Progress(RESET, size, 0))
  {
    ClearChecked(p, s.progress[id := s.progress[id].(size := size)], s.slots, id);
  }

  /** The overlap check fails over the first slot. */
  lemma FirstSlotBreaks(p: Platform, s: State, id: Id, src: Address, size: Word32)
    requires s.progress.Keys == p.images.Keys && s.slots != [] && !s.secureWorld && Acceptable(p, id, src, size)
    requires s.progress[id].state == RESET && s.slots[0] != id && s.slots[0] != INVALID_IMAGE_ID
    requires s.slots[0] in p.images
    requires var g := s.progress[s.slots[0]];
             g.state == RESET || (g.size == 1 && p.images[s.slots[0]].base + 1 <= ADDRESS_SPACE)
    ensures Step(p, s, WholeCopy(id, src, size, true)) == Halts
  {
    assert CheckSlot(p, s.progress[id := s.progress[id].(size := size)], s.slots[0], id) == Broken;
  }

  /** An image whose pre-load hook fails stays listed in RESET; the next copy of another image stops the system. */
  lemma PreLoadFailureHalts(p: Platform, s: State, one: Id, other: Id, src: Address, size: Word32)
    requires p.WellFormed() && Initial(p, s) && s.slots != [] && one != other
    requires Acceptable(p, one, src, size) && Acceptable(p, other, src, size)
    ensures Run(p, s, [WholeCopy(one, src, size, false), WholeCopy(other, src, size, true)]) == Halts
  {
    FirstCopy(p, s, one, src, size, false);
    var out := Step(p, s, WholeCopy(one, src, size, false));
    FirstSlotBreaks(p, out.after, other, src, size);
    RunFrom(p, s, out.after, out.code, WholeCopy(one, src, size, false), [WholeCopy(other, src, size, true)]);
    RunStops(p, out.after, WholeCopy(other, src, size, true), []);
  }

  /** After an image of one byte has been copied, the next copy of another image stops the system. */
  lemma OneByteImageHalts(p: Platform, s: State, one: Id, other: Id, src: Address, size: Word32)
    requires p.WellFormed() && Initial(p, s) && s.slots != [] && one != other
    requires Acceptable(p, one, src, 1) && Acceptable(p, other, src, size)
    ensures Run(p, s, [WholeCopy(one, src, 1, true), WholeCopy(other, src, size, true)]) == Halts
  {
    FirstCopy(p, s, one, src, 1, true);
    var out := Step(p, s, WholeCopy(one, src, 1, true));
    FirstSlotBreaks(p, out.after, other, src, size);
    RunFrom(p, s, out.after, out.code, WholeCopy(one, src, 1, true), [WholeCopy(other, src, size, true)]);
    RunStops(p, out.after, WholeCopy(other, src, size, true), []);
  }

  /** Copied, authenticated and executed. */
  function Started(id: Id, src: Address, size: Word32): seq<Op> {
    [WholeCopy(id, src, size, true), AuthCall(id, 0, 0, true, true), ExecuteCall(id)]
  }

  lemma StartedRuns(p: Platform, s: State, id: Id, src: Address, size: Word32, s1: State)
    requires p.WellFormed() && Initial(p, s) && s.slots != [] && Acceptable(p, id, src, size)
    requires p.images[id].executable && p.authentic(id, Bytes(s.memory, src, size))
    requires Step(p, s, WholeCopy(id, src, size, true)) == Returns(Success, s1)
    ensures var now := Run(p, s, Started(id, src, size));
            now.Returns? && now.after.secureWorld && now.after.lastExecuted == id
  {
    FirstCopy(p, s, id, src, size, true);
    assert Bytes(s1.memory, p.images[id].base, size) == Bytes(s.memory, src, size);
    CopiedRuns(p, s1, id);
    RunFrom(p, s, s1, Success, WholeCopy(id, src, size, true), [AuthCall(id, 0, 0, true, true), ExecuteCall(id)]);
  }

  lemma CopiedRuns(p: Platform, s: State, id: Id)
    requires p.Secure(id) && p.images[id].executable && id in s.progress && !s.secureWorld
    requires s.progress[id].state == COPIED
    requires p.authentic(id, Bytes(s.memory, p.images[id].base, s.progress[id].size))
    ensures var now := Run(p, s, [AuthCall(id, 0, 0, true, true), ExecuteCall(id)]);
            now.Returns? && now.after.secureWorld && now.after.lastExecuted == id
  {
    var s1 := With(s, id, s.progress[id].(state := AUTHENTICATED));
    RunFrom(p, s, s1, Success, AuthCall(id, 0, 0, true, true), [ExecuteCall(id)]);
    RunFrom(p, s1, Step(p, s1, ExecuteCall(id)).after, Success, ExecuteCall(id), []);
  }

  /** The secure world yields, the image is reset, and then resumed. */
  lemma ResetThenResumed(p: Platform, s: State, id: Id)
    requires p.WellFormed() && Booked(p, s) && s.secureWorld && s.lastExecuted == id
    ensures Run(p, s, [ResumeCall, ResetCall(id), ResumeCall]) == Halts
  {
    assert p.Secure(id) && Listed(p, s, id);
    var s1 := Step(p, s, ResumeCall).after;
    assert s1.progress[id].state == INTERRUPTED && id in s1.slots;
    var s2 := Step(p, s1, ResetCall(id)).after;
    RunFrom(p, s, s1, Success, ResumeCall, [ResetCall(id), ResumeCall]);
    RunFrom(p, s1, s2, Success, ResetCall(id), [ResumeCall]);
    RunStops(p, s2, ResumeCall, []);
  }

  /** So an image that has been reset after an interruption stops the system when it is resumed. */
  lemma ResumeAfterResetHalts(p: Platform, s: State, id: Id, src: Address, size: Word32)
    requires p.WellFormed() && Initial(p, s) && s.slots != [] && Acceptable(p, id, src, size)
    requires p.images[id].executable && p.authentic(id, Bytes(s.memory, src, size))
    ensures Run(p, s, Started(id, src, size) + [ResumeCall, ResetCall(id), ResumeCall]) == Halts
  {
    FirstCopy(p, s, id, src, size, true);
    var s1 := Step(p, s, WholeCopy(id, src, size, true)).after;
    StartedRuns(p, s, id, src, size, s1);
    InitialInv(p, s);
    RunBooked(p, s, Started(id, src, size));
    ResetThenResumed(p, Run(p, s, Started(id, src, size)).after, id);
    RunAppended(p, s, Started(id, src, size), [ResumeCall, ResetCall(id), ResumeCall]);
  }

  lemma {:induction false} RunAppended(p: Platform, s: State, first: seq<Op>, ops: seq<Op>)
    requires Run(p, s, first).Returns?
    ensures Run(p, s, first + ops) == Run(p, Run(p, s, first).after, ops)
    decreases |first|
  {
    if first == [] {
      assert first + ops == ops;
    } else {
      assert (first + ops)[1..] == first[1..] + ops;
      RunAppended(p, Step(p, s, first[0]).after, first[1..], ops);
    }
  }
}
