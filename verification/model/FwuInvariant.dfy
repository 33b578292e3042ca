/** What every step of the firmware update service keeps. */
module FwuInvariant {
  import opened Basics
  import opened FwuModel

  // ---- The invariant ----

  /** No image is listed twice. */
  ghost predicate Slotted(p: Platform, slots: seq<Id>) {
    && (forall i :: 0 <= i < |slots| ==> slots[i] == INVALID_IMAGE_ID || slots[i] in p.images)
    && (forall i, j :: 0 <= i < j < |slots| && slots[i] == slots[j] ==> slots[i] == INVALID_IMAGE_ID)
  }

  /** What the state of an image says about the bytes that have been copied. */
  predicate Counted(image: Image, g: Progress) {
    if image.secure then
      g.state == COPYING ==> 0 < g.copied < g.size
    else
      g.copied == 0 && (g.state == RESET || g.state == AUTHENTICATED || g.state == EXECUTED)
  }

  /** A secure image in use fits into the memory set aside for it and, once copied, is there in full. */
  predicate Fits(image: Image, g: Progress) {
    image.secure ==>
      match g.state
      case RESET => true
      case COPYING => g.size <= image.maxSize
      case _ => 0 < g.copied == g.size <= image.maxSize
  }

  /** An image that is in use is listed. */
  predicate Listed(p: Platform, s: State, id: Id)
    requires id in p.images && id in s.progress
  {
    if p.images[id].secure then s.progress[id].state != RESET ==> id in s.slots
    else s.progress[id].state == AUTHENTICATED <==> id in s.slots
  }

  predicate InUse(p: Platform, progress: map<Id, Progress>, id: Id) {
    p.Secure(id) && id in progress && progress[id].state != RESET
  }

  /** Two images occupy disjoint memory. */
  predicate Apart(p: Platform, progress: map<Id, Progress>, i: Id, j: Id)
    requires i in p.images && i in progress && j in p.images && j in progress
  {
    || p.images[i].base + progress[i].size <= p.images[j].base
    || p.images[j].base + progress[j].size <= p.images[i].base
  }

  ghost predicate AllApart(p: Platform, progress: map<Id, Progress>) {
    forall i, j :: InUse(p, progress, i) && InUse(p, progress, j) && i != j ==> Apart(p, progress, i, j)
  }

  ghost predicate ApartFrom(p: Platform, progress: map<Id, Progress>, id: Id)
    requires id in p.images && id in progress
  {
    forall other :: InUse(p, progress, other) && other != id ==> Apart(p, progress, id, other)
  }

  /** The secure world runs exactly while one secure image, the last executed one, is EXECUTED. */
  ghost predicate Worlds(p: Platform, s: State) {
    && (s.lastExecuted in p.images ==> Runnable(p, s))
    && (s.secureWorld ==> Runnable(p, s) && s.progress[s.lastExecuted].state == EXECUTED)
    && (forall id :: InUse(p, s.progress, id) && s.progress[id].state == EXECUTED ==>
          s.secureWorld && id == s.lastExecuted)
  }

  ghost predicate EachBooked(p: Platform, s: State)
    requires s.progress.Keys == p.images.Keys
  {
    forall id :: id in p.images ==> Counted(p.images[id], s.progress[id]) && Listed(p, s, id)
  }

  /** The bookkeeping, which every call keeps. */
  ghost predicate Booked(p: Platform, s: State) {
    && s.progress.Keys == p.images.Keys
    && Slotted(p, s.slots)
    && EachBooked(p, s)
    && Worlds(p, s)
  }

  ghost predicate EachFits(p: Platform, progress: map<Id, Progress>)
    requires progress.Keys == p.images.Keys
  {
    forall id :: id in p.images ==> Fits(p.images[id], progress[id])
  }

  /** The invariant: images in use also fit, and occupy disjoint memory. */
  ghost predicate Inv(p: Platform, s: State) {
    Booked(p, s) && EachFits(p, s.progress) && AllApart(p, s.progress)
  }

  lemma InitialInv(p: Platform, s: State)
    requires p.WellFormed() && Initial(p, s)
    ensures Inv(p, s)
  {
    assert forall id :: id in p.images ==> id !in s.slots;
  }

  // ---- One image changes ----

  /** The same images are listed, `id` aside. */
  ghost predicate OthersListed(was: seq<Id>, now: seq<Id>, id: Id) {
    forall other :: other != id && other != INVALID_IMAGE_ID ==> (other in was <==> other in now)
  }

  lemma BookedChanged(p: Platform, s: State, s1: State, id: Id)
    requires p.WellFormed() && Booked(p, s) && id in p.images
    requires id in s1.progress && s1.progress == s.progress[id := s1.progress[id]]
    requires Counted(p.images[id], s1.progress[id]) && Listed(p, s1, id)
    requires Slotted(p, s1.slots) && OthersListed(s.slots, s1.slots, id)
    requires Worlds(p, s1)
    ensures Booked(p, s1)
  {
    forall other | other in p.images
      ensures Counted(p.images[other], s1.progress[other]) && Listed(p, s1, other)
    {
      assert Counted(p.images[other], s.progress[other]) && Listed(p, s, other);
    }
  }

  lemma FitsChanged(p: Platform, s: State, s1: State, id: Id)
    requires Inv(p, s) && Booked(p, s1) && id in p.images
    requires s1.progress == s.progress[id := s1.progress[id]] && Fits(p.images[id], s1.progress[id])
    requires InUse(p, s1.progress, id) ==> ApartFrom(p, s1.progress, id)
    ensures Inv(p, s1)
  {
    forall i, j | InUse(p, s1.progress, i) && InUse(p, s1.progress, j) && i != j
      ensures Apart(p, s1.progress, i, j)
    {
      if i != id && j != id {
        assert InUse(p, s.progress, i) && InUse(p, s.progress, j);
        assert Apart(p, s.progress, i, j);
      }
    }
  }

  /** An image that keeps its size, or goes out of use, stays apart from the others. */
  lemma SizeKept(p: Platform, s: State, s1: State, id: Id)
    requires Inv(p, s) && Booked(p, s1) && id in p.images
    requires s1.progress == s.progress[id := s1.progress[id]] && Fits(p.images[id], s1.progress[id])
    requires InUse(p, s1.progress, id) ==> InUse(p, s.progress, id) && s1.progress[id].size == s.progress[id].size
    ensures Inv(p, s1)
  {
    forall other | InUse(p, s1.progress, id) && InUse(p, s1.progress, other) && other != id
      ensures Apart(p, s1.progress, id, other)
    {
      assert InUse(p, s.progress, other) && Apart(p, s.progress, id, other);
    }
    FitsChanged(p, s, s1, id);
  }

  lemma AddKeeps(p: Platform, slots: seq<Id>, id: Id)
    requires p.WellFormed() && Slotted(p, slots) && id in p.images && AddLoaded(slots, id).Some?
    ensures var now := AddLoaded(slots, id).value;
            Slotted(p, now) && id in now && OthersListed(slots, now, id) && (id in slots ==> now == slots)
  {
    if id !in slots {
      var k := Find(slots, INVALID_IMAGE_ID);
      var now := slots[k := id];
      assert now[k] == id;
      OthersKept(slots, k, id, id);
    }
  }

  lemma RemoveKeeps(p: Platform, slots: seq<Id>, id: Id)
    requires p.WellFormed() && Slotted(p, slots) && id in p.images && id in slots
    ensures var now := RemoveLoaded(slots, id);
            now.Some? && Slotted(p, now.value) && id !in now.value && OthersListed(slots, now.value, id)
  {
    OthersKept(slots, Find(slots, id), INVALID_IMAGE_ID, id);
  }

  lemma OthersKept(slots: seq<Id>, k: nat, x: Id, id: Id)
    requires k < |slots| && (slots[k] == id || slots[k] == INVALID_IMAGE_ID) && (x == id || x == INVALID_IMAGE_ID)
    ensures OthersListed(slots, slots[k := x], id)
  {
    var now := slots[k := x];
    forall other | other != id && other != INVALID_IMAGE_ID ensures other in slots <==> other in now {
      if other in slots {
        var i :| 0 <= i < |slots| && slots[i] == other;
        assert now[i] == other;
      }
      if other in now {
        var i :| 0 <= i < |now| && now[i] == other;
        assert slots[i] == other;
      }
    }
  }

  // ---- The overlap check ----

  /** The check passes exactly if it passes for every slot. */
  lemma {:induction false} ClearChecked(p: Platform, progress: map<Id, Progress>, slots: seq<Id>, id: Id)
    requires id in p.images && id in progress
    ensures CheckOverlaps(p, progress, slots, id) == Clear <==>
            forall slot :: slot in slots ==> CheckSlot(p, progress, slot, id) == Clear
  {
    if slots != [] {
      ClearChecked(p, progress, slots[1..], id);
      assert forall slot :: slot in slots <==> slot == slots[0] || slot in slots[1..];
    }
  }

  /** Images that are in use fit below the end of the address space. */
  lemma LastByteFits(p: Platform, progress: map<Id, Progress>, id: Id)
    requires p.WellFormed() && p.Secure(id) && id in progress
    requires 0 < progress[id].size <= p.images[id].maxSize
    ensures LastByte(p.images[id].base, progress[id].size) == p.images[id].base + progress[id].size - 1
  {
  }

  lemma ClearApart(p: Platform, s: State, id: Id, g: Progress)
    requires p.WellFormed() && Inv(p, s) && p.Secure(id)
    requires 0 < g.size <= p.images[id].maxSize
    requires CheckOverlaps(p, s.progress[id := g], s.slots, id) == Clear
    ensures ApartFrom(p, s.progress[id := g], id)
  {
    var progress := s.progress[id := g];
    ClearChecked(p, progress, s.slots, id);
    forall other | InUse(p, progress, other) && other != id ensures Apart(p, progress, id, other) {
      assert Listed(p, s, other) && Counted(p.images[other], s.progress[other]) && Fits(p.images[other], s.progress[other]);
      assert CheckSlot(p, progress, other, id) == Clear;
      LastByteFits(p, progress, id);
      LastByteFits(p, progress, other);
    }
  }

  // ---- Each call keeps the bookkeeping ----

  /** An image that is neither EXECUTED before nor after does not matter to the worlds. */
  lemma WorldsKept(p: Platform, s: State, s1: State, id: Id)
    requires s.progress.Keys == p.images.Keys && Worlds(p, s) && id in p.images
    requires id in s1.progress && s1.progress == s.progress[id := s1.progress[id]]
    requires s1.secureWorld == s.secureWorld && s1.lastExecuted == s.lastExecuted
    requires p.images[id].secure ==> s.progress[id].state != EXECUTED && s1.progress[id].state != EXECUTED
    ensures Worlds(p, s1)
  {
    forall other | InUse(p, s1.progress, other) && s1.progress[other].state == EXECUTED
      ensures s1.secureWorld && other == s1.lastExecuted
    {
      assert InUse(p, s.progress, other) && s.progress[other].state == EXECUTED;
    }
  }

  lemma CopyBlockBooked(p: Platform, s: State, id: Id, src: Address, block: Word32, mapped: bool, preLoad: bool)
    requires p.WellFormed() && Booked(p, s) && p.Secure(id) && block > 0
    requires var g := s.progress[id]; (g.state == RESET || g.state == COPYING) && g.copied < g.size
    ensures var out := CopyBlock(p, s, id, src, block, mapped, preLoad); out.Returns? && Booked(p, out.after)
  {
    if mapped && AddLoaded(s.slots, id).Some? {
      AddKeeps(p, s.slots, id);
      var out := CopyBlock(p, s, id, src, block, mapped, preLoad);
      assert out.after.progress == s.progress[id := out.after.progress[id]];
      WorldsKept(p, s, out.after, id);
      BookedChanged(p, s, out.after, id);
    }
  }

  /** The recorded size of an image in RESET is of no consequence. */
  lemma ResetSizeBooked(p: Platform, s: State, id: Id, g: Progress)
    requires p.WellFormed() && Booked(p, s) && p.Secure(id) && s.progress[id].state == g.state == RESET
    ensures Booked(p, With(s, id, g))
  {
    WorldsKept(p, s, With(s, id, g), id);
    BookedChanged(p, s, With(s, id, g), id);
  }

  lemma CopyBooked(p: Platform, s: State, id: Id, src: Address, block: Word32, size: Word32, mapped: bool, preLoad: bool)
    requires p.WellFormed() && Booked(p, s)
    ensures var out := Copy(p, s, id, src, block, size, mapped, preLoad); out.Returns? ==> Booked(p, out.after)
  {
    var out := Copy(p, s, id, src, block, size, mapped, preLoad);
    if out.Returns? && out.after != s {
      var g := s.progress[id];
      if g.state == COPYING {
        CopyBlockBooked(p, s, id, src, block, mapped, preLoad);
      } else {
        ResetSizeBooked(p, s, id, g.(size := 0));
        var sized := g.(size := size, copied := 0);
        ResetSizeBooked(p, s, id, sized);
        CopyBlockBooked(p, With(s, id, sized), id, src, block, mapped, preLoad);
      }
    }
  }

  /** The entry of one image changes, from the state for authentication to the state after it. */
  predicate AuthEffect(p: Platform, s: State, s1: State, id: Id) {
    && id in p.images && id in s.progress && id in s1.progress
    && s1.progress == s.progress[id := s1.progress[id]]
    && s1.lastExecuted == s.lastExecuted && s1.secureWorld == s.secureWorld
    && AuthState(p, s, id) && s1.progress[id].copied == s.progress[id].copied
    && (s.progress[id].state == COPIED ==> s1.progress[id].size == s.progress[id].size)
    && (s1.progress[id].state == AUTHENTICATED || s1.progress[id].state == RESET)
  }

  lemma AuthAffects(p: Platform, s: State, id: Id, src: Address, size: Word32, mapped: bool, postLoad: bool)
    requires p.WellFormed() && Booked(p, s)
    ensures var out := Auth(p, s, id, src, size, mapped, postLoad);
            out.Returns? && out.after != s ==>
              && AuthEffect(p, s, out.after, id)
              && Slotted(p, out.after.slots) && OthersListed(s.slots, out.after.slots, id)
              && (id in out.after.slots <==> out.after.progress[id].state == AUTHENTICATED)
  {
    var out := Auth(p, s, id, src, size, mapped, postLoad);
    if out.Returns? && out.after != s {
      assert Listed(p, s, id);
      if s.progress[id].state == COPIED {
        RemoveKeeps(p, s.slots, id);
      } else {
        AddKeeps(p, s.slots, id);
        RemoveKeeps(p, AddLoaded(s.slots, id).value, id);
      }
    }
  }

  lemma AffectedBooked(p: Platform, s: State, s1: State, id: Id)
    requires p.WellFormed() && Booked(p, s) && AuthEffect(p, s, s1, id)
    requires Slotted(p, s1.slots) && OthersListed(s.slots, s1.slots, id)
    requires id in s1.slots <==> s1.progress[id].state == AUTHENTICATED
    ensures Booked(p, s1)
  {
    assert Counted(p.images[id], s.progress[id]);
    WorldsKept(p, s, s1, id);
    BookedChanged(p, s, s1, id);
  }

  lemma AffectedInv(p: Platform, s: State, s1: State, id: Id)
    requires Inv(p, s) && Booked(p, s1) && AuthEffect(p, s, s1, id) && !(s.secureWorld && p.Secure(id))
    ensures Inv(p, s1)
  {
    assert Fits(p.images[id], s.progress[id]);
    SizeKept(p, s, s1, id);
  }

  /** In place or not, by whichever world. */
  lemma AuthBooked(p: Platform, s: State, id: Id, src: Address, size: Word32, mapped: bool, postLoad: bool)
    requires p.WellFormed() && Booked(p, s)
    ensures var out := Auth(p, s, id, src, size, mapped, postLoad); out.Returns? ==> Booked(p, out.after)
  {
    AuthAffects(p, s, id, src, size, mapped, postLoad);
    var out := Auth(p, s, id, src, size, mapped, postLoad);
    if out.Returns? && out.after != s { AffectedBooked(p, s, out.after, id); }
  }

  /** The image that runs now is the only one that does. */
  lemma RunsBooked(p: Platform, s: State, s1: State, id: Id)
    requires p.WellFormed() && Booked(p, s) && InUse(p, s.progress, id) && s.progress[id].state != COPYING
    requires InUse(p, s1.progress, id) && s1.progress[id].state != COPYING && s1.slots == s.slots
    requires s1.progress == s.progress[id := s.progress[id].(state := s1.progress[id].state)]
    requires s1.lastExecuted == id && p.images[id].executable
    requires s1.secureWorld == (s1.progress[id].state == EXECUTED)
    requires !s.secureWorld || s.lastExecuted == id
    ensures Booked(p, s1)
  {
    assert Counted(p.images[id], s.progress[id]) && Listed(p, s, id);
    forall other | InUse(p, s1.progress, other) && other != id ensures s1.progress[other].state != EXECUTED {
      assert InUse(p, s.progress, other) && s.progress[other] == s1.progress[other];
    }
    BookedChanged(p, s, s1, id);
  }

  lemma ExecuteBooked(p: Platform, s: State, id: Id)
    requires p.WellFormed() && Booked(p, s)
    ensures var out := Execute(p, s, id); out.Returns? && Booked(p, out.after)
  {
    var s1 := Execute(p, s, id).after;
    if s1 != s {
      RunsBooked(p, s, s1, id);
    }
  }

  lemma ResumeBooked(p: Platform, s: State)
    requires p.WellFormed() && Booked(p, s)
    ensures var out := Resume(p, s); out.Returns? ==> Booked(p, out.after)
  {
    var out := Resume(p, s);
    if out.Returns? && out.after != s {
      RunsBooked(p, s, out.after, s.lastExecuted);
    }
  }

  /** The secure world can always end; its image is found in the slots. */
  lemma DoneBooked(p: Platform, s: State)
    requires p.WellFormed() && Booked(p, s)
    ensures var out := ImageDone(p, s);
            out.Returns? && Booked(p, out.after) && out.code == if s.secureWorld then Success else NotPermitted
  {
    if s.secureWorld {
      var id := s.lastExecuted;
      assert InUse(p, s.progress, id) && Listed(p, s, id);
      RemoveKeeps(p, s.slots, id);
      var s1 := ImageDone(p, s).after;
      forall other | InUse(p, s1.progress, other) ensures s1.progress[other].state != EXECUTED {
        assert InUse(p, s.progress, other) && s.progress[other] == s1.progress[other];
      }
      BookedChanged(p, s, s1, id);
    }
  }

  lemma ResetBooked(p: Platform, s: State, id: Id)
    requires p.WellFormed() && Booked(p, s)
    ensures var out := Reset(p, s, id); out.Returns? ==> Booked(p, out.after)
  {
    var out := Reset(p, s, id);
    if out.Returns? && out.after != s {
      assert Listed(p, s, id);
      RemoveKeeps(p, s.slots, id);
      WorldsKept(p, s, out.after, id);
      BookedChanged(p, s, out.after, id);
    }
  }

  lemma StoreBooked(p: Platform, s: State, at: int, data: seq<Byte>)
    requires Booked(p, s)
    ensures Booked(p, s.(memory := Overwrite(s.memory, at, data)))
  {
    var s1 := s.(memory := Overwrite(s.memory, at, data));
    forall id | id in p.images ensures Counted(p.images[id], s1.progress[id]) && Listed(p, s1, id) {
      assert Counted(p.images[id], s.progress[id]) && Listed(p, s, id);
    }
  }

  lemma StepBooked(p: Platform, s: State, op: Op)
    requires p.WellFormed() && Booked(p, s)
    ensures var out := Step(p, s, op); out.Returns? ==> Booked(p, out.after)
  {
    match op
    case CopyCall(id, src, block, size, mapped, preLoad) => CopyBooked(p, s, id, src, block, size, mapped, preLoad);
    case AuthCall(id, src, size, mapped, postLoad) => AuthBooked(p, s, id, src, size, mapped, postLoad);
    case ExecuteCall(id) => ExecuteBooked(p, s, id);
    case ResumeCall => ResumeBooked(p, s);
    case DoneCall => DoneBooked(p, s);
    case ResetCall(id) => ResetBooked(p, s, id);
    case Store(at, data) => StoreBooked(p, s, at, data);
  }

  /** Whatever is called in whatever order. */
  lemma {:induction false} RunBooked(p: Platform, s: State, ops: seq<Op>)
    requires p.WellFormed() && Booked(p, s)
    ensures var out := Run(p, s, ops); out.Returns? ==> Booked(p, out.after)
    decreases |ops|
  {
    if ops != [] && Step(p, s, ops[0]).Returns? {
      StepBooked(p, s, ops[0]);
      RunBooked(p, Step(p, s, ops[0]).after, ops[1..]);
    }
  }

  // ---- Each call keeps the images apart ----

  lemma CopyBlockInv(p: Platform, s: State, id: Id, src: Address, block: Word32, mapped: bool, preLoad: bool)
    requires p.WellFormed() && Inv(p, s) && p.Secure(id) && block > 0
    requires var g := s.progress[id];
             (g.state == RESET || g.state == COPYING) && g.copied < g.size <= p.images[id].maxSize
    requires ApartFrom(p, s.progress, id)
    ensures var out := CopyBlock(p, s, id, src, block, mapped, preLoad); out.Returns? && Inv(p, out.after)
  {
    CopyBlockBooked(p, s, id, src, block, mapped, preLoad);
    var s1 := CopyBlock(p, s, id, src, block, mapped, preLoad).after;
    if s1.progress != s.progress {
      forall other | InUse(p, s1.progress, other) && other != id ensures Apart(p, s1.progress, id, other) {
        assert InUse(p, s.progress, other) && Apart(p, s.progress, id, other);
      }
      FitsChanged(p, s, s1, id);
    }
  }

  lemma ResetSizeInv(p: Platform, s: State, id: Id, g: Progress)
    requires p.WellFormed() && Inv(p, s) && p.Secure(id) && s.progress[id].state == g.state == RESET
    ensures Inv(p, With(s, id, g))
  {
    ResetSizeBooked(p, s, id, g);
    SizeKept(p, s, With(s, id, g), id);
  }

  lemma CopyInv(p: Platform, s: State, id: Id, src: Address, block: Word32, size: Word32, mapped: bool, preLoad: bool)
    requires p.WellFormed() && Inv(p, s)
    ensures var out := Copy(p, s, id, src, block, size, mapped, preLoad); out.Returns? ==> Inv(p, out.after)
  {
    var out := Copy(p, s, id, src, block, size, mapped, preLoad);
    if out.Returns? && out.after != s {
      var g := s.progress[id];
      if g.state == COPYING {
        assert InUse(p, s.progress, id) && Fits(p.images[id], g);
        CopyBlockInv(p, s, id, src, block, mapped, preLoad);
      } else {
        var sized := g.(size := size);
        ResetSizeInv(p, s, id, g.(size := 0));
        ResetSizeInv(p, s, id, sized.(copied := 0));
        if CheckOverlaps(p, s.progress[id := sized], s.slots, id) == Clear {
          ClearApart(p, s, id, sized);
          StillApart(p, s, id, sized);
          CopyBlockInv(p, With(s, id, sized.(copied := 0)), id, src, block, mapped, preLoad);
        }
      }
    }
  }

  lemma StillApart(p: Platform, s: State, id: Id, g: Progress)
    requires id in p.images && ApartFrom(p, s.progress[id := g], id)
    ensures ApartFrom(p, s.progress[id := g.(copied := 0)], id)
  {
    var now := s.progress[id := g.(copied := 0)];
    forall other | InUse(p, now, other) && other != id ensures Apart(p, now, id, other) {
      assert InUse(p, s.progress[id := g], other) && Apart(p, s.progress[id := g], id, other);
    }
  }

  lemma AuthInv(p: Platform, s: State, id: Id, src: Address, size: Word32, mapped: bool, postLoad: bool)
    requires p.WellFormed() && Inv(p, s) && !(s.secureWorld && p.Secure(id))
    ensures var out := Auth(p, s, id, src, size, mapped, postLoad); out.Returns? ==> Inv(p, out.after)
  {
    AuthAffects(p, s, id, src, size, mapped, postLoad);
    AuthBooked(p, s, id, src, size, mapped, postLoad);
    var out := Auth(p, s, id, src, size, mapped, postLoad);
    if out.Returns? && out.after != s { AffectedInv(p, s, out.after, id); }
  }

  /** Steps that concern the running image alone. */
  lemma RunningInv(p: Platform, s: State, op: Op)
    requires p.WellFormed() && Inv(p, s) && (op.ExecuteCall? || op.ResumeCall? || op.DoneCall?)
    ensures var out := Step(p, s, op); out.Returns? ==> Inv(p, out.after)
  {
    StepBooked(p, s, op);
    var out := Step(p, s, op);
    if out.Returns? && out.after != s {
      var id := if op.ExecuteCall? then op.id else s.lastExecuted;
      assert Fits(p.images[id], s.progress[id]);
      SizeKept(p, s, out.after, id);
    }
  }

  lemma ResetInv(p: Platform, s: State, id: Id)
    requires p.WellFormed() && Inv(p, s)
    ensures var out := Reset(p, s, id); out.Returns? ==> Inv(p, out.after)
  {
    ResetBooked(p, s, id);
    var out := Reset(p, s, id);
    if out.Returns? && out.after != s {
      SizeKept(p, s, out.after, id);
    }
  }

  /** In-place authentication of a secure image by the secure world is not covered. */
  predicate Covered(p: Platform, s: State, op: Op) {
    op.AuthCall? ==> !(s.secureWorld && p.Secure(op.id))
  }

  lemma StepInv(p: Platform, s: State, op: Op)
    requires p.WellFormed() && Inv(p, s) && Covered(p, s, op)
    ensures var out := Step(p, s, op); out.Returns? ==> Inv(p, out.after)
  {
    match op
    case CopyCall(id, src, block, size, mapped, preLoad) => CopyInv(p, s, id, src, block, size, mapped, preLoad);
    case AuthCall(id, src, size, mapped, postLoad) => AuthInv(p, s, id, src, size, mapped, postLoad);
    case ResetCall(id) => ResetInv(p, s, id);
    case Store(at, data) => StoreBooked(p, s, at, data);
    case _ => RunningInv(p, s, op);
  }
}
