/** The answers of the other calls, and an image from its first block to the end of its execution. */
module FwuLife {
  import opened Basics
  import opened FwuModel
  import opened FwuInvariant
  import opened FwuCopy
  import FwuWitness

  // ---- Authentication ----

  /** The image is authenticated where it was copied to, or at an address that the call gives. */
  predicate InPlace(p: Platform, s: State, id: Id)
    requires id in p.images
  {
    s.secureWorld || !p.images[id].secure
  }

  /** The bytes that are authenticated. */
  function Candidate(p: Platform, s: State, id: Id, src: Address, size: Word32): seq<Byte>
    requires id in p.images && id in s.progress
  {
    if InPlace(p, s, id) then Bytes(s.memory, src, size) else Bytes(s.memory, p.images[id].base, s.progress[id].size)
  }

  predicate MayAuth(p: Platform, s: State, id: Id)
    requires s.progress.Keys == p.images.Keys
  {
    id in p.images && s.progress[id].state == if InPlace(p, s, id) then RESET else COPIED
  }

  /** The exact condition for each answer of an authentication. */
  lemma AuthOutcome(p: Platform, s: State, id: Id, src: Address, size: Word32, mapped: bool, postLoad: bool)
    requires p.WellFormed() && Booked(p, s)
    ensures var out := Auth(p, s, id, src, size, mapped, postLoad);
            if !MayAuth(p, s, id) then out == Returns(NotPermitted, s)
            else if InPlace(p, s, id) && (!Addressed(src, size) || !mapped || !Room(s.slots, id)) then
              out == Returns(NoMemory, s)
            else if !p.authentic(id, Candidate(p, s, id, src, size)) then out.Returns? && out.code == AuthFailed
            else if postLoad then out.Returns? && out.code == Success
            else out.Halts?
  {
  }

  /** What changes with the state of one image and its slot. */
  ghost predicate Restated(s: State, s1: State, id: Id, g: Progress) {
    s1.progress == s.progress[id := g] && s1.lastExecuted == s.lastExecuted && s1.secureWorld == s.secureWorld
  }

  /** An authentic image is listed; its contents stay as they are. */
  lemma AuthSucceeds(p: Platform, s: State, id: Id, src: Address, size: Word32, mapped: bool, postLoad: bool)
    requires p.WellFormed() && Booked(p, s)
    requires Auth(p, s, id, src, size, mapped, postLoad).Returns?
    requires Auth(p, s, id, src, size, mapped, postLoad).code == Success
    ensures id in p.images && id in s.progress
    ensures var s1, g := Auth(p, s, id, src, size, mapped, postLoad).after, s.progress[id];
            && Restated(s, s1, id, Progress(AUTHENTICATED, if InPlace(p, s, id) then size else g.size, g.copied))
            && s1.memory == s.memory && NowListed(s.slots, s1.slots, id)
  {
    assert Listed(p, s, id);
    if InPlace(p, s, id) {
      AddedIsListed(s.slots, id);
      var g := s.progress[id];
      assert s.progress[id := g.(size := size)][id := Progress(AUTHENTICATED, size, g.copied)]
          == s.progress[id := Progress(AUTHENTICATED, size, g.copied)];
    }
  }

  /** An image that is not authentic is not listed, and what was copied of it is gone. */
  lemma AuthFails(p: Platform, s: State, id: Id, src: Address, size: Word32, mapped: bool, postLoad: bool)
    requires p.WellFormed() && Booked(p, s)
    requires Auth(p, s, id, src, size, mapped, postLoad).Returns?
    requires Auth(p, s, id, src, size, mapped, postLoad).code == AuthFailed
    ensures id in p.images && id in s.progress
    ensures var s1, g := Auth(p, s, id, src, size, mapped, postLoad).after, s.progress[id];
            && Restated(s, s1, id, Progress(RESET, if InPlace(p, s, id) then size else g.size, g.copied))
            && id !in s1.slots && OthersListed(s.slots, s1.slots, id)
            && (if InPlace(p, s, id) then s1.memory == s.memory
                else Bytes(s1.memory, p.images[id].base, g.size) == Zeros(g.size)
                     && SameOutside(s.memory, s1.memory, p.images[id].base, g.size))
  {
    assert Listed(p, s, id);
    if InPlace(p, s, id) {
      AddKeeps(p, s.slots, id);
      RemoveKeeps(p, AddLoaded(s.slots, id).value, id);
    } else {
      RemoveKeeps(p, s.slots, id);
    }
  }

  // ---- The two worlds ----

  /** The secure world yields and is resumed: the same state again. */
  lemma ResumeSwitches(p: Platform, s: State)
    requires p.WellFormed() && Booked(p, s) && s.secureWorld
    ensures s.lastExecuted in s.progress
    ensures var g := s.progress[s.lastExecuted];
            Step(p, s, ResumeCall) ==
            Returns(Success, s.(secureWorld := false, progress := s.progress[s.lastExecuted := g.(state := INTERRUPTED)]))
    ensures Run(p, s, [ResumeCall, ResumeCall]) == Returns(Success, s)
  {
    var id, s1 := s.lastExecuted, Step(p, s, ResumeCall).after;
    RunFirst(p, s, s1, Success, [ResumeCall, ResumeCall]);
    RunFirst(p, s1, s, Success, [ResumeCall, ResumeCall][1..]);
    assert s.progress[id := s.progress[id].(state := INTERRUPTED)][id := s.progress[id]] == s.progress;
  }

  /** The secure world yields and is resumed, `k` times. */
  function Yields(k: nat): seq<Op> { if k == 0 then [] else [ResumeCall, ResumeCall] + Yields(k - 1) }

  lemma {:induction false} YieldsKeep(p: Platform, s: State, k: nat)
    requires p.WellFormed() && Booked(p, s) && s.secureWorld
    ensures Run(p, s, Yields(k)) == Returns(Success, s)
    decreases k
  {
    if k > 0 {
      ResumeSwitches(p, s);
      FwuWitness.RunAppended(p, s, [ResumeCall, ResumeCall], Yields(k - 1));
      YieldsKeep(p, s, k - 1);
    }
  }

  // ---- From the first block to the end ----

  /** An authentic image in memory is authenticated and starts to run. */
  lemma CopiedStarts(p: Platform, s: State, id: Id, auth: Op) returns (s1: State)
    requires p.WellFormed() && Booked(p, s) && !s.secureWorld && p.Secure(id) && p.images[id].executable
    requires s.progress[id].state == COPIED
    requires p.authentic(id, Bytes(s.memory, p.images[id].base, s.progress[id].size))
    requires auth.AuthCall? && auth.id == id && auth.postLoad
    ensures Run(p, s, [auth, ExecuteCall(id)]) == Returns(Success, s1) && Booked(p, s1)
    ensures s1.progress == s.progress[id := s.progress[id].(state := EXECUTED)]
    ensures s1 == State(s1.progress, s.slots, s.memory, id, true)
  {
    var g := s.progress[id];
    var s0 := Step(p, s, auth).after;
    AuthBooked(p, s, id, auth.src, auth.size, auth.mapped, auth.postLoad);
    s1 := Step(p, s0, ExecuteCall(id)).after;
    ExecuteBooked(p, s0, id);
    RunFirst(p, s, s0, Success, [auth, ExecuteCall(id)]);
    assert [auth, ExecuteCall(id)][1..] == [ExecuteCall(id)];
    RunFirst(p, s0, s1, Success, [ExecuteCall(id)]);
    assert s0.progress[id := g.(state := EXECUTED)] == s.progress[id := g.(state := EXECUTED)];
  }

  /** The image that runs ends: its slot is free, and the normal world runs. */
  lemma RunningEnds(p: Platform, s: State) returns (s1: State)
    requires p.WellFormed() && Booked(p, s) && s.secureWorld
    ensures Run(p, s, [DoneCall]) == Returns(Success, s1) && s.lastExecuted in s.progress
    ensures s1.progress == s.progress[s.lastExecuted := s.progress[s.lastExecuted].(state := RESET)]
    ensures s1.memory == s.memory && !s1.secureWorld && s1.lastExecuted == INVALID_IMAGE_ID
    ensures s.lastExecuted in s.slots && s.lastExecuted !in s1.slots
    ensures s1.slots == s.slots[Find(s.slots, s.lastExecuted) := INVALID_IMAGE_ID]
  {
    assert Listed(p, s, s.lastExecuted);
    s1 := Step(p, s, DoneCall).after;
    DoneBooked(p, s);
    RemoveKeeps(p, s.slots, s.lastExecuted);
    RunFirst(p, s, s1, Success, [DoneCall]);
  }

  /** A slot taken by the image and freed again. */
  lemma FreedAgain(was: seq<Id>, mid: seq<Id>, id: Id)
    requires id != INVALID_IMAGE_ID && id !in was && NowListed(was, mid, id) && id in mid
    ensures mid[Find(mid, id) := INVALID_IMAGE_ID] == was
  {
    var i :| 0 <= i < |was| && was[i] == INVALID_IMAGE_ID && INVALID_IMAGE_ID !in was[..i] && mid == was[i := id];
    var k := Find(mid, id);
    assert k == i;
  }

  /**
   * An image comes in block by block, is authenticated, runs, yields and is resumed any number of times, and ends. It is
   * then in RESET, no slot is taken that was not taken before, its memory holds what was supplied, and nothing else has
   * changed.
   */
  lemma LifeCycle(p: Platform, s: State, id: Id, ops: seq<Op>, size: Word32, auth: Op, k: nat) returns (last: State)
    requires p.WellFormed() && Inv(p, s) && id in s.progress && s.progress[id].state == RESET && id !in s.slots
    requires Split(ops, size) && AllSupply(p, id, ops) && ops[0].size == size && id in p.images && p.images[id].executable
    requires Step(p, s, ops[0]).Returns? && Step(p, s, ops[0]).code == Success
    requires auth.AuthCall? && auth.id == id && auth.postLoad
    requires size <= |Supplied(s.memory, ops)| && p.authentic(id, Supplied(s.memory, ops)[..size])
    ensures Run(p, s, ops + [auth, ExecuteCall(id)] + Yields(k) + [DoneCall]) == Returns(Success, last)
    ensures last.progress == s.progress[id := Progress(RESET, size, size)]
    ensures last.slots == s.slots && !last.secureWorld && last.lastExecuted == INVALID_IMAGE_ID
    ensures Bytes(last.memory, p.images[id].base, size) == Supplied(s.memory, ops)[..size]
    ensures SameOutside(s.memory, last.memory, p.images[id].base, size)
  {
    assert Supplies(p, id, ops[0]);
    AcceptedMay(p, s, id, ops[0]);
    var s1 := BlocksComplete(p, s, id, ops, size);
    RunBooked(p, s, ops);
    var s2 := CopiedStarts(p, s1, id, auth);
    YieldsKeep(p, s2, k);
    last := RunningEnds(p, s2);
    FreedAgain(s.slots, s1.slots, id);
    FwuWitness.RunAppended(p, s, ops, [auth, ExecuteCall(id)]);
    FwuWitness.RunAppended(p, s, ops + [auth, ExecuteCall(id)], Yields(k));
    FwuWitness.RunAppended(p, s, ops + [auth, ExecuteCall(id)] + Yields(k), [DoneCall]);
  }
}
