/** What a copy request answers and does, and how an image comes in block by block. */
module FwuCopy {
  import opened Basics
  import opened FwuModel
  import opened FwuInvariant

  // ---- The overlap check ----

  predicate Addressed(src: Address, n: Word32) { src != 0 && n != 0 && src + n <= ADDRESS_SPACE }

  /** A slot with an image that is not in use, has one byte, or goes past the end of the address space. */
  predicate Faulty(p: Platform, progress: map<Id, Progress>, slot: Id, id: Id)
    requires progress.Keys == p.images.Keys
  {
    && slot in p.images && slot != id
    && (progress[slot].state == RESET || progress[slot].size == 1
        || p.images[slot].base + progress[slot].size > ADDRESS_SPACE)
  }

  /** A slot with another image that shares a byte with the first `size` bytes of `id`. */
  predicate Colliding(p: Platform, progress: map<Id, Progress>, slot: Id, id: Id, size: Word32)
    requires progress.Keys == p.images.Keys && id in p.images
  {
    && slot in p.images && slot != id && progress[slot].size > 0
    && p.images[slot].base < p.images[id].base + size
    && p.images[id].base < p.images[slot].base + progress[slot].size
  }

  predicate Passes(p: Platform, progress: map<Id, Progress>, slot: Id, id: Id, size: Word32)
    requires progress.Keys == p.images.Keys && id in p.images
  {
    !Faulty(p, progress, slot, id) && !Colliding(p, progress, slot, id, size)
  }

  /** No slot stands against a first block of `id`. */
  ghost predicate AllPass(p: Platform, progress: map<Id, Progress>, slots: seq<Id>, id: Id, size: Word32)
    requires progress.Keys == p.images.Keys && id in p.images
  {
    forall i :: 0 <= i < |slots| ==> Passes(p, progress, slots[i], id, size)
  }

  /** Slot `i` is the first that stands against it. */
  ghost predicate FirstAgainst(p: Platform, progress: map<Id, Progress>, slots: seq<Id>, id: Id, size: Word32, i: int)
    requires progress.Keys == p.images.Keys && id in p.images
  {
    0 <= i < |slots| && !Passes(p, progress, slots[i], id, size) && AllPass(p, progress, slots[..i], id, size)
  }

  lemma SlotVerdict(p: Platform, progress: map<Id, Progress>, slot: Id, id: Id, size: Word32)
    requires p.WellFormed() && progress.Keys == p.images.Keys && p.Secure(id)
    requires slot == INVALID_IMAGE_ID || slot in p.images
    requires 0 < size <= p.images[id].maxSize
    ensures CheckSlot(p, progress[id := progress[id].(size := size)], slot, id) ==
            if Faulty(p, progress, slot, id) then Broken
            else if Colliding(p, progress, slot, id, size) then Overlapping else Clear
  {
  }

  lemma {:induction false} AllPassClear(p: Platform, progress: map<Id, Progress>, slots: seq<Id>, id: Id, size: Word32)
    requires p.WellFormed() && progress.Keys == p.images.Keys && p.Secure(id) && Slotted(p, slots)
    requires 0 < size <= p.images[id].maxSize && AllPass(p, progress, slots, id, size)
    ensures CheckOverlaps(p, progress[id := progress[id].(size := size)], slots, id) == Clear
    decreases |slots|
  {
    if slots != [] {
      SlotVerdict(p, progress, slots[0], id, size);
      AllPassClear(p, progress, slots[1..], id, size);
    }
  }

  /** The verdict is that of the first slot that does not pass. */
  lemma {:induction false} FirstDecides(p: Platform, progress: map<Id, Progress>, slots: seq<Id>, id: Id, size: Word32, i: int)
    requires p.WellFormed() && progress.Keys == p.images.Keys && p.Secure(id) && Slotted(p, slots)
    requires 0 < size <= p.images[id].maxSize && FirstAgainst(p, progress, slots, id, size, i)
    ensures CheckOverlaps(p, progress[id := progress[id].(size := size)], slots, id) ==
            if Faulty(p, progress, slots[i], id) then Broken else Overlapping
    decreases i
  {
    SlotVerdict(p, progress, slots[0], id, size);
    if i > 0 {
      assert slots[..i][0] == slots[0];
      assert slots[1..][..i - 1] == slots[..i][1..];
      FirstDecides(p, progress, slots[1..], id, size, i - 1);
    }
  }

  lemma {:induction false} SomeFirst(p: Platform, progress: map<Id, Progress>, slots: seq<Id>, id: Id, size: Word32, n: nat)
    returns (i: int)
    requires progress.Keys == p.images.Keys && id in p.images && n <= |slots|
    requires AllPass(p, progress, slots[..n], id, size) && !AllPass(p, progress, slots, id, size)
    ensures FirstAgainst(p, progress, slots, id, size, i)
    decreases |slots| - n
  {
    if n == |slots| {
      assert false;
    } else if Passes(p, progress, slots[n], id, size) {
      assert slots[..n + 1] == slots[..n] + [slots[n]];
      i := SomeFirst(p, progress, slots, id, size, n + 1);
    } else {
      i := n;
    }
  }

  // ---- What a copy answers ----

  /** The normal world may copy a secure image that is not complete. */
  predicate MayCopy(p: Platform, s: State, id: Id)
    requires s.progress.Keys == p.images.Keys
  {
    !s.secureWorld && p.Secure(id) && s.progress[id].state in {RESET, COPYING}
  }

  predicate Starts(p: Platform, s: State, id: Id, src: Address, block: Word32, size: Word32)
    requires s.progress.Keys == p.images.Keys
  {
    && MayCopy(p, s, id) && s.progress[id].state == RESET
    && Addressed(src, block) && 0 < size <= p.images[id].maxSize
  }

  predicate Room(slots: seq<Id>, id: Id) { id in slots || INVALID_IMAGE_ID in slots }

  /** A copy under way goes on exactly if its source is mapped. */
  lemma NextBlock(p: Platform, s: State, id: Id, src: Address, block: Word32, size: Word32, mapped: bool, preLoad: bool)
    requires p.WellFormed() && Booked(p, s) && MayCopy(p, s, id) && s.progress[id].state == COPYING
    ensures var out := Copy(p, s, id, src, block, size, mapped, preLoad);
            && out.Returns?
            && out.code == (if Addressed(src, block) && mapped then Success else NoMemory)
            && (out.code == NoMemory ==> out.after == s)
  {
    assert Counted(p.images[id], s.progress[id]) && Listed(p, s, id);
  }

  /** A first block that the slots let pass. */
  lemma FirstBlock(p: Platform, s: State, id: Id, src: Address, block: Word32, size: Word32, mapped: bool, preLoad: bool)
    requires p.WellFormed() && Booked(p, s) && Starts(p, s, id, src, block, size)
    requires AllPass(p, s.progress, s.slots, id, size)
    ensures var out := Copy(p, s, id, src, block, size, mapped, preLoad);
            && out.Returns?
            && out.code == (if !mapped || !Room(s.slots, id) then NoMemory
                            else if preLoad then Success else NotPermitted)
  {
    AllPassClear(p, s.progress, s.slots, id, size);
  }

  /** A first block that slot `i` stands against. */
  lemma AgainstBlock(p: Platform, s: State, id: Id, src: Address, block: Word32, size: Word32, mapped: bool, preLoad: bool,
                     i: int)
    requires p.WellFormed() && Booked(p, s) && Starts(p, s, id, src, block, size)
    requires FirstAgainst(p, s.progress, s.slots, id, size, i)
    ensures var out := Copy(p, s, id, src, block, size, mapped, preLoad);
            if Faulty(p, s.progress, s.slots[i], id) then out.Halts?
            else out == Returns(NotPermitted, s.(progress := s.progress[id := s.progress[id].(size := 0)]))
  {
    FirstDecides(p, s.progress, s.slots, id, size, i);
  }

  ghost predicate Stopped(p: Platform, s: State, id: Id, size: Word32, faulty: bool)
    requires s.progress.Keys == p.images.Keys && id in p.images
  {
    exists i :: FirstAgainst(p, s.progress, s.slots, id, size, i) && Faulty(p, s.progress, s.slots[i], id) == faulty
  }

  /** The exact condition for each answer of a copy. */
  lemma CopyOutcome(p: Platform, s: State, id: Id, src: Address, block: Word32, size: Word32, mapped: bool, preLoad: bool)
    requires p.WellFormed() && Booked(p, s)
    ensures var out := Copy(p, s, id, src, block, size, mapped, preLoad);
            && (out.Halts? <==> Starts(p, s, id, src, block, size) && Stopped(p, s, id, size, true))
            && (out.Returns? ==> out.code in {Success, NoMemory, NotPermitted})
            && (out.Returns? && out.code == Success <==>
                  && MayCopy(p, s, id) && Addressed(src, block) && mapped
                  && (|| s.progress[id].state == COPYING
                      || (&& 0 < size <= p.images[id].maxSize && preLoad && Room(s.slots, id)
                          && AllPass(p, s.progress, s.slots, id, size))))
            && (out.Returns? && out.code == NoMemory <==>
                  && MayCopy(p, s, id)
                  && (|| !Addressed(src, block)
                      || (s.progress[id].state == COPYING && !mapped)
                      || (s.progress[id].state == RESET && (size == 0 || size > p.images[id].maxSize))
                      || (&& s.progress[id].state == RESET && AllPass(p, s.progress, s.slots, id, size)
                          && (!mapped || !Room(s.slots, id)))))
            && (out.Returns? && out.code == NotPermitted <==>
                  || !MayCopy(p, s, id)
                  || (&& Starts(p, s, id, src, block, size)
                      && (|| Stopped(p, s, id, size, false)
                          || (&& AllPass(p, s.progress, s.slots, id, size) && mapped && Room(s.slots, id)
                              && !preLoad))))
  {
    if Starts(p, s, id, src, block, size) {
      if AllPass(p, s.progress, s.slots, id, size) {
        FirstBlock(p, s, id, src, block, size, mapped, preLoad);
      } else {
        var i := SomeFirst(p, s.progress, s.slots, id, size, 0);
        AgainstBlock(p, s, id, src, block, size, mapped, preLoad, i);
      }
    } else if MayCopy(p, s, id) && s.progress[id].state == COPYING {
      NextBlock(p, s, id, src, block, size, mapped, preLoad);
    }
  }

  // ---- What a copy does ----

  /** The bytes from `to` on are those that lay from `src` on, `n` of them; all others are as they were. */
  ghost predicate Moved(was: Memory, now: Memory, src: int, to: int, n: int) {
    forall a {:trigger now(a)} :: now(a) == if to <= a < to + n then was(src + (a - to)) else was(a)
  }

  /** The image is listed, in the first free slot if it was not. */
  ghost predicate NowListed(was: seq<Id>, now: seq<Id>, id: Id) {
    if id in was then now == was
    else exists i :: 0 <= i < |was| && was[i] == INVALID_IMAGE_ID && INVALID_IMAGE_ID !in was[..i] && now == was[i := id]
  }

  lemma {:induction false} FindFirst(slots: seq<Id>, id: Id)
    ensures id !in slots[..Find(slots, id)]
    decreases |slots|
  {
    if slots != [] && slots[0] != id {
      FindFirst(slots[1..], id);
      var k := Find(slots[1..], id);
      assert slots[..1 + k] == [slots[0]] + slots[1..][..k];
    }
  }

  /** The bytes that were there, and the size that the image is to have. */
  function Before(s: State, id: Id): Word32
    requires id in s.progress
  {
    if s.progress[id].state == COPYING then s.progress[id].copied else 0
  }

  function Wanted(s: State, id: Id, size: Word32): Word32
    requires id in s.progress
  {
    if s.progress[id].state == COPYING then s.progress[id].size else size
  }

  ghost predicate Advanced(p: Platform, s: State, s1: State, id: Id, src: Address, size: Word32, n: int)
    requires id in p.images && id in s.progress
  {
    var had, all := Before(s, id), Wanted(s, id, size);
    && 0 < n <= all - had
    && s1.progress == s.progress[id := Progress(if had + n == all then COPIED else COPYING, all, had + n)]
    && Moved(s.memory, s1.memory, src, p.images[id].base + had, n)
    && NowListed(s.slots, s1.slots, id)
    && s1.lastExecuted == s.lastExecuted && s1.secureWorld == s.secureWorld
  }

  lemma BlockMoves(was: Memory, src: int, to: int, n: nat)
    ensures Moved(was, Overwrite(was, to, Bytes(was, src, n)), src, to, n)
  {
    var data := Bytes(was, src, n);
    forall a ensures Overwrite(was, to, data)(a) == if to <= a < to + n then was(src + (a - to)) else was(a) {
      if to <= a < to + n { assert data[a - to] == was(src + (a - to)); }
    }
  }

  lemma AddedIsListed(slots: seq<Id>, id: Id)
    requires AddLoaded(slots, id).Some?
    ensures NowListed(slots, AddLoaded(slots, id).value, id)
  {
    FindFirst(slots, INVALID_IMAGE_ID);
  }

  lemma BlockAdvances(p: Platform, s: State, id: Id, src: Address, block: Word32, mapped: bool, preLoad: bool, n: Word32)
    requires id in p.images && id in s.progress && s.progress[id].copied < s.progress[id].size && block > 0
    requires n == Clip(s.progress[id], block)
    requires CopyBlock(p, s, id, src, block, mapped, preLoad).code == Success
    ensures var s1, g := CopyBlock(p, s, id, src, block, mapped, preLoad).after, s.progress[id];
            && 0 < n <= g.size - g.copied
            && s1.progress == s.progress[id := Progress(if g.copied + n == g.size then COPIED else COPYING,
                                                        g.size, g.copied + n)]
            && Moved(s.memory, s1.memory, src, p.images[id].base + g.copied, n)
            && NowListed(s.slots, s1.slots, id)
            && s1.lastExecuted == s.lastExecuted && s1.secureWorld == s.secureWorld
  {
    AddedIsListed(s.slots, id);
    BlockMoves(s.memory, src, p.images[id].base + s.progress[id].copied, n);
  }

  lemma FirstAdvances(p: Platform, s: State, id: Id, src: Address, block: Word32, size: Word32, mapped: bool, preLoad: bool)
    requires p.WellFormed() && Booked(p, s) && Starts(p, s, id, src, block, size)
    requires Copy(p, s, id, src, block, size, mapped, preLoad).Returns?
    requires Copy(p, s, id, src, block, size, mapped, preLoad).code == Success
    ensures Advanced(p, s, Copy(p, s, id, src, block, size, mapped, preLoad).after, id, src, size,
                     if size < block then size else block)
  {
    var n: Word32 := if size < block then size else block;
    var s0 := With(s, id, s.progress[id].(size := size, copied := 0));
    BlockAdvances(p, s0, id, src, block, mapped, preLoad, n);
    var s1 := CopyBlock(p, s0, id, src, block, mapped, preLoad).after;
    assert s0.progress[id := s1.progress[id]] == s.progress[id := s1.progress[id]];
  }

  /** A copy that succeeds takes the block, or as much of it as the image lacks. */
  lemma CopyAdvances(p: Platform, s: State, id: Id, src: Address, block: Word32, size: Word32, mapped: bool, preLoad: bool)
    requires p.WellFormed() && Booked(p, s)
    requires Copy(p, s, id, src, block, size, mapped, preLoad).Returns?
    requires Copy(p, s, id, src, block, size, mapped, preLoad).code == Success
    ensures id in p.images && id in s.progress
    ensures var lacking := Wanted(s, id, size) - Before(s, id);
            Advanced(p, s, Copy(p, s, id, src, block, size, mapped, preLoad).after, id, src, size,
                     if lacking < block then lacking else block)
  {
    if s.progress[id].state == COPYING {
      BlockAdvances(p, s, id, src, block, mapped, preLoad, Clip(s.progress[id], block));
    } else {
      FirstAdvances(p, s, id, src, block, size, mapped, preLoad);
    }
  }

  /** A copy that is refused leaves everything but the record of an image that is in RESET. */
  lemma RefusalKeeps(p: Platform, s: State, id: Id, src: Address, block: Word32, size: Word32, mapped: bool, preLoad: bool)
    requires p.WellFormed() && Booked(p, s)
    requires Copy(p, s, id, src, block, size, mapped, preLoad).Returns?
    requires Copy(p, s, id, src, block, size, mapped, preLoad).code != Success
    ensures var s1 := Copy(p, s, id, src, block, size, mapped, preLoad).after;
            && s1.memory == s.memory && s1.lastExecuted == s.lastExecuted && s1.secureWorld == s.secureWorld
            && (s1.slots == s.slots || (!preLoad && mapped && NowListed(s.slots, s1.slots, id)))
            && (|| s1 == s
                || (&& id in s.progress && s.progress[id].state == RESET && id in s1.progress
                    && s1.progress[id].state == RESET && s1.progress == s.progress[id := s1.progress[id]]))
  {
    if MayCopy(p, s, id) && s.progress[id].state == COPYING {
      NextBlock(p, s, id, src, block, size, mapped, preLoad);
    }
    FindFirst(s.slots, INVALID_IMAGE_ID);
  }

  // ---- Block by block ----

  /** A request for a further block of `id`, from memory that is not set aside for it. */
  predicate Supplies(p: Platform, id: Id, op: Op) {
    && op.CopyCall? && op.id == id && op.mapped && id in p.images && Addressed(op.src, op.block)
    && (op.src + op.block <= p.images[id].base || p.images[id].base + p.images[id].maxSize <= op.src)
  }

  ghost predicate AllSupply(p: Platform, id: Id, ops: seq<Op>) {
    forall k :: 0 <= k < |ops| ==> Supplies(p, id, ops[k])
  }

  /** The blocks make up `n` bytes, and the last one is needed for that. */
  predicate Split(ops: seq<Op>, n: int)
    decreases |ops|
  {
    && ops != [] && ops[0].CopyCall?
    && if |ops| == 1 then 0 < n <= ops[0].block
       else ops[0].block < n && Split(ops[1..], n - ops[0].block)
  }

  /** What lies in the blocks, one after the other. */
  function Supplied(memory: Memory, ops: seq<Op>): (data: seq<Byte>)
    requires forall k :: 0 <= k < |ops| ==> ops[k].CopyCall?
    decreases |ops|
  {
    if ops == [] then [] else Bytes(memory, ops[0].src, ops[0].block) + Supplied(memory, ops[1..])
  }

  ghost predicate SameOutside(was: Memory, now: Memory, at: int, n: int) {
    forall a :: a < at || at + n <= a ==> now(a) == was(a)
  }

  /** Copying into an image does not change what its blocks will supply. */
  lemma {:induction false} SuppliedKept(p: Platform, id: Id, was: Memory, now: Memory, ops: seq<Op>)
    requires id in p.images && AllSupply(p, id, ops) && SameOutside(was, now, p.images[id].base, p.images[id].maxSize)
    ensures Supplied(was, ops) == Supplied(now, ops)
    decreases |ops|
  {
    if ops != [] {
      assert Supplies(p, id, ops[0]);
      SuppliedKept(p, id, was, now, ops[1..]);
      assert Bytes(was, ops[0].src, ops[0].block) == Bytes(now, ops[0].src, ops[0].block);
    }
  }

  /** From `s` to `s1`, the image got `n` more bytes, `data`, and is complete. */
  ghost predicate Completed(p: Platform, s: State, s1: State, id: Id, had: int, n: int, data: seq<Byte>)
    requires id in p.images && 0 <= n <= |data| && 0 <= had + n < 0x1_0000_0000
  {
    && s1.progress == s.progress[id := Progress(COPIED, had + n, had + n)]
    && NowListed(s.slots, s1.slots, id)
    && s1.lastExecuted == s.lastExecuted && s1.secureWorld == s.secureWorld
    && Bytes(s1.memory, p.images[id].base + had, n) == data[..n]
    && SameOutside(s.memory, s1.memory, p.images[id].base + had, n)
  }

  /** A block and, behind it, the rest. */
  lemma MovedThenFilled(m0: Memory, m1: Memory, m2: Memory, src: int, to: int, m: nat, n: nat, rest: seq<Byte>)
    requires Moved(m0, m1, src, to, m) && m < n <= m + |rest|
    requires SameOutside(m1, m2, to + m, n - m) && Bytes(m2, to + m, n - m) == rest[..n - m]
    ensures Bytes(m2, to, n) == (Bytes(m0, src, m) + rest)[..n]
    ensures SameOutside(m0, m2, to, n)
  {
    var data := Bytes(m0, src, m) + rest;
    forall k | 0 <= k < n ensures Bytes(m2, to, n)[k] == data[k] {
      if k < m {
        assert m2(to + k) == m1(to + k) == m0(src + k);
      } else {
        assert Bytes(m2, to + m, n - m)[k - m] == rest[k - m];
      }
    }
    forall a | a < to || to + n <= a ensures m2(a) == m0(a) { assert m2(a) == m1(a); }
  }

  lemma StaysListed(was: seq<Id>, mid: seq<Id>, now: seq<Id>, id: Id)
    requires NowListed(was, mid, id) && NowListed(mid, now, id)
    ensures NowListed(was, now, id)
  {
    if id !in was {
      var i :| 0 <= i < |was| && was[i] == INVALID_IMAGE_ID && INVALID_IMAGE_ID !in was[..i] && mid == was[i := id];
      assert mid[i] == id;
    }
  }

  /** The rest is copied after a block that does not complete the image. */
  lemma AdvancedThenCompleted(p: Platform, s: State, s1: State, s2: State, id: Id, op: Op, size: Word32, n: int,
                              rest: seq<Byte>)
    requires id in p.images && id in s.progress && op.CopyCall?
    requires Advanced(p, s, s1, id, op.src, size, op.block)
    requires n == Wanted(s, id, size) - Before(s, id) && op.block < n <= op.block + |rest|
    requires Completed(p, s1, s2, id, Before(s, id) + op.block, n - op.block, rest)
    ensures Completed(p, s, s2, id, Before(s, id), n, Bytes(s.memory, op.src, op.block) + rest)
  {
    var to := p.images[id].base + Before(s, id);
    MovedThenFilled(s.memory, s1.memory, s2.memory, op.src, to, op.block, n, rest);
    StaysListed(s.slots, s1.slots, s2.slots, id);
  }

  lemma LastCompletes(p: Platform, s: State, s1: State, id: Id, op: Op, size: Word32, n: Word32)
    requires id in p.images && id in s.progress && op.CopyCall?
    requires n == Wanted(s, id, size) - Before(s, id) && n <= op.block
    requires Advanced(p, s, s1, id, op.src, size, n)
    ensures Completed(p, s, s1, id, Before(s, id), n, Bytes(s.memory, op.src, op.block))
  {
    var to := p.images[id].base + Before(s, id);
    forall k | 0 <= k < n ensures Bytes(s1.memory, to, n)[k] == Bytes(s.memory, op.src, op.block)[k] {
      assert s1.memory(to + k) == s.memory(op.src + k);
    }
  }

  /** A block is taken, of the `n` bytes that are lacking. */
  ghost predicate Taken(p: Platform, s: State, s1: State, id: Id, op: Op, n: int) {
    && op.CopyCall? && id in p.images && id in s.progress
    && n == Wanted(s, id, op.size) - Before(s, id) && Wanted(s, id, op.size) <= p.images[id].maxSize
    && Advanced(p, s, s1, id, op.src, op.size, if n < op.block then n else op.block)
  }

  lemma AcceptedFits(p: Platform, s: State, id: Id, op: Op)
    requires p.WellFormed() && Inv(p, s) && Supplies(p, id, op)
    requires Step(p, s, op).Returns? && Step(p, s, op).code == Success
    ensures id in s.progress && Wanted(s, id, op.size) <= p.images[id].maxSize
  {
    assert Fits(p.images[id], s.progress[id]);
  }

  lemma AcceptedIsTaken(p: Platform, s: State, id: Id, op: Op) returns (s1: State)
    requires p.WellFormed() && Inv(p, s) && Supplies(p, id, op) && id in s.progress
    requires Step(p, s, op).Returns? && Step(p, s, op).code == Success
    ensures Step(p, s, op) == Returns(Success, s1) && Inv(p, s1)
    ensures Taken(p, s, s1, id, op, Wanted(s, id, op.size) - Before(s, id))
  {
    s1 := Step(p, s, op).after;
    AcceptedFits(p, s, id, op);
    CopyAdvances(p, s, id, op.src, op.block, op.size, op.mapped, op.preLoad);
    CopyInv(p, s, id, op.src, op.block, op.size, op.mapped, op.preLoad);
  }

  /** After a block that does not complete the image, the next one is accepted, whatever size it gives. */
  lemma NextAccepted(p: Platform, s: State, s1: State, id: Id, op: Op, n: int, next: Op)
    requires p.WellFormed() && Inv(p, s1) && !s1.secureWorld && p.Secure(id)
    requires Taken(p, s, s1, id, op, n) && op.block < n && Supplies(p, id, next)
    ensures Step(p, s1, next).Returns? && Step(p, s1, next).code == Success
    ensures Wanted(s1, id, next.size) - Before(s1, id) == n - op.block && Before(s1, id) == Before(s, id) + op.block
  {
    NextBlock(p, s1, id, next.src, next.block, next.size, next.mapped, next.preLoad);
  }

  /** All blocks are taken, one after the other, through these states. */
  ghost predicate AllTaken(p: Platform, states: seq<State>, id: Id, ops: seq<Op>, n: int)
    decreases |ops|
  {
    && ops != [] && |states| == |ops| + 1
    && Taken(p, states[0], states[1], id, ops[0], n)
    && (|ops| > 1 ==> AllTaken(p, states[1..], id, ops[1..], n - ops[0].block))
  }

  lemma RunFirst(p: Platform, s: State, s1: State, code: Code, ops: seq<Op>)
    requires ops != [] && Step(p, s, ops[0]) == Returns(code, s1)
    ensures Run(p, s, ops) == Run(p, s1, ops[1..])
  {
  }

  /** The first block is taken, and if there are others, the next one is accepted. */
  lemma FirstTaken(p: Platform, s: State, id: Id, ops: seq<Op>, n: int) returns (s1: State)
    requires p.WellFormed() && Inv(p, s) && !s.secureWorld && p.Secure(id) && AllSupply(p, id, ops) && Split(ops, n)
    requires n == Wanted(s, id, ops[0].size) - Before(s, id)
    requires Step(p, s, ops[0]).Returns? && Step(p, s, ops[0]).code == Success
    ensures Inv(p, s1) && !s1.secureWorld && Taken(p, s, s1, id, ops[0], n) && Run(p, s, ops) == Run(p, s1, ops[1..])
    ensures |ops| > 1 ==>
            && Step(p, s1, ops[1]).Returns? && Step(p, s1, ops[1]).code == Success
            && Wanted(s1, id, ops[1].size) - Before(s1, id) == n - ops[0].block
  {
    assert Supplies(p, id, ops[0]);
    s1 := AcceptedIsTaken(p, s, id, ops[0]);
    RunFirst(p, s, s1, Success, ops);
    if |ops| > 1 {
      assert Supplies(p, id, ops[1]);
      NextAccepted(p, s, s1, id, ops[0], n, ops[1]);
    }
  }

  lemma {:induction false} BlocksTaken(p: Platform, s: State, id: Id, ops: seq<Op>, n: int) returns (states: seq<State>)
    requires p.WellFormed() && Inv(p, s) && !s.secureWorld && p.Secure(id) && AllSupply(p, id, ops) && Split(ops, n)
    requires n == Wanted(s, id, ops[0].size) - Before(s, id)
    requires Step(p, s, ops[0]).Returns? && Step(p, s, ops[0]).code == Success
    ensures AllTaken(p, states, id, ops, n) && states[0] == s
    ensures Run(p, s, ops) == Returns(Success, states[|ops|])
    decreases |ops|
  {
    var s1 := FirstTaken(p, s, id, ops, n);
    if |ops| == 1 {
      states := [s, s1];
    } else {
      var rest := BlocksTaken(p, s1, id, ops[1..], n - ops[0].block);
      states := [s] + rest;
      assert states[1..] == rest;
    }
  }

  lemma TakenOutside(p: Platform, s: State, s1: State, id: Id, op: Op, n: int)
    requires Taken(p, s, s1, id, op, n)
    ensures SameOutside(s.memory, s1.memory, p.images[id].base, p.images[id].maxSize)
  {
  }

  lemma FirstThenRest(p: Platform, s: State, s1: State, last: State, id: Id, ops: seq<Op>, n: int)
    requires |ops| > 1 && AllSupply(p, id, ops) && ops[0].block < n && Taken(p, s, s1, id, ops[0], n)
    requires n - ops[0].block <= |Supplied(s1.memory, ops[1..])|
    requires Completed(p, s1, last, id, Before(s, id) + ops[0].block, n - ops[0].block, Supplied(s1.memory, ops[1..]))
    ensures n <= |Supplied(s.memory, ops)|
    ensures Completed(p, s, last, id, Before(s, id), n, Supplied(s.memory, ops))
  {
    TakenOutside(p, s, s1, id, ops[0], n);
    SuppliedKept(p, id, s.memory, s1.memory, ops[1..]);
    AdvancedThenCompleted(p, s, s1, last, id, ops[0], ops[0].size, n, Supplied(s.memory, ops[1..]));
  }

  lemma LastOfAll(p: Platform, s: State, s1: State, id: Id, ops: seq<Op>, n: int)
    requires |ops| == 1 && AllSupply(p, id, ops) && Split(ops, n) && Taken(p, s, s1, id, ops[0], n)
    ensures n <= |Supplied(s.memory, ops)|
    ensures Completed(p, s, s1, id, Before(s, id), n, Supplied(s.memory, ops))
  {
    LastCompletes(p, s, s1, id, ops[0], ops[0].size, n);
    assert Supplied(s.memory, ops) == Bytes(s.memory, ops[0].src, ops[0].block);
  }

  lemma {:induction false} TakenComplete(p: Platform, states: seq<State>, id: Id, ops: seq<Op>, n: int)
    requires AllSupply(p, id, ops) && Split(ops, n) && AllTaken(p, states, id, ops, n)
    ensures n <= |Supplied(states[0].memory, ops)|
    ensures Completed(p, states[0], states[|ops|], id, Before(states[0], id), n, Supplied(states[0].memory, ops))
    decreases |ops|
  {
    if |ops| == 1 {
      LastOfAll(p, states[0], states[1], id, ops, n);
    } else {
      TakenComplete(p, states[1..], id, ops[1..], n - ops[0].block);
      FirstThenRest(p, states[0], states[1], states[|ops|], id, ops, n);
    }
  }

  lemma AcceptedMay(p: Platform, s: State, id: Id, op: Op)
    requires Supplies(p, id, op) && Step(p, s, op).Returns? && Step(p, s, op).code == Success
    ensures !s.secureWorld && p.Secure(id)
  {
  }

  /**
   * Any split of the image into blocks, supplied one after the other: once the first is accepted, the run ends with the
   * image complete, and its memory holds what lay in the blocks.
   */
  lemma BlocksComplete(p: Platform, s: State, id: Id, ops: seq<Op>, size: Word32) returns (last: State)
    requires p.WellFormed() && Inv(p, s) && id in s.progress && s.progress[id].state == RESET
    requires Split(ops, size) && AllSupply(p, id, ops) && ops[0].size == size
    requires Step(p, s, ops[0]).Returns? && Step(p, s, ops[0]).code == Success
    ensures Run(p, s, ops) == Returns(Success, last) && size <= |Supplied(s.memory, ops)|
    ensures id in p.images && Completed(p, s, last, id, 0, size, Supplied(s.memory, ops))
  {
    assert Supplies(p, id, ops[0]);
    AcceptedMay(p, s, id, ops[0]);
    var states := BlocksTaken(p, s, id, ops, size);
    TakenComplete(p, states, id, ops, size);
    last := states[|ops|];
  }
}
