/** The firmware update service as BL1 runs it, updating its tables in place. */
module FwuService {
  import opened Basics
  import opened FwuModel
  import opened FwuInvariant
  import opened FwuContents

  class Service {
    const platform: Platform
    const loadedIds: array<Id>
    var progress: map<Id, Progress>
    var memory: Memory
    var lastExecuted: Id
    var secureWorld: bool

    ghost function Now(): State
      reads this, loadedIds
    {
      State(progress, loadedIds[..], memory, lastExecuted, secureWorld)
    }

    /** The call had the outcome `out`; nothing is said of a system that has stopped. */
    ghost predicate Did(out: Outcome, r: Option<Code>)
      reads this, loadedIds
    {
      match out
      case Halts => r == None
      case Returns(code, after) => r == Some(code) && Now() == after
    }

    constructor (platform: Platform, capacity: nat, started: set<Id>, memory: Memory)
      requires platform.WellFormed()
      requires forall id :: id in started ==> id in platform.images && !platform.images[id].secure
      ensures this.platform == platform && fresh(loadedIds) && loadedIds.Length == capacity
      ensures Initial(platform, Now()) && Now().memory == memory
      ensures forall id :: id in platform.images ==> (progress[id].state == EXECUTED <==> id in started)
    {
      this.platform, this.memory := platform, memory;
      loadedIds := new Id[capacity](_ => INVALID_IMAGE_ID);
      progress := map id | id in platform.images :: Progress(if id in started then EXECUTED else RESET, 0, 0);
      lastExecuted, secureWorld := INVALID_IMAGE_ID, false;
    }

    /** The first slot that holds `id`. */
    method FindSlot(id: Id) returns (i: nat)
      ensures i == Find(loadedIds[..], id)
    {
      i := 0;
      while i < loadedIds.Length && loadedIds[i] != id
        invariant i <= loadedIds.Length
        invariant Find(loadedIds[..], id) == i + Find(loadedIds[i..], id)
      {
        assert loadedIds[i..][1..] == loadedIds[i + 1..];
        i := i + 1;
      }
    }

    method AddLoadedId(id: Id) returns (ok: bool)
      modifies loadedIds
      ensures match AddLoaded(old(loadedIds[..]), id)
              case None => !ok && loadedIds[..] == old(loadedIds[..])
              case Some(slots) => ok && loadedIds[..] == slots
    {
      var i := FindSlot(id);
      if i < loadedIds.Length { return true; }
      i := FindSlot(INVALID_IMAGE_ID);
      if i == loadedIds.Length { return false; }
      loadedIds[i] := id;
      ok := true;
    }

    method RemoveLoadedId(id: Id) returns (ok: bool)
      modifies loadedIds
      ensures match RemoveLoaded(old(loadedIds[..]), id)
              case None => !ok && loadedIds[..] == old(loadedIds[..])
              case Some(slots) => ok && loadedIds[..] == slots
    {
      var i := FindSlot(id);
      ok := i < loadedIds.Length;
      if ok { loadedIds[i] := INVALID_IMAGE_ID; }
    }

    method CheckImage(id: Id) returns (v: Verdict)
      requires id in platform.images && id in progress
      ensures v == CheckOverlaps(platform, progress, loadedIds[..], id)
    {
      var i := 0;
      assert loadedIds[0..] == loadedIds[..];
      while i < loadedIds.Length
        invariant 0 <= i <= loadedIds.Length
        invariant CheckOverlaps(platform, progress, loadedIds[..], id)
               == CheckOverlaps(platform, progress, loadedIds[i..], id)
      {
        assert loadedIds[i..][1..] == loadedIds[i + 1..];
        v := CheckSlot(platform, progress, loadedIds[i], id);
        if v != Clear { return; }
        i := i + 1;
      }
      v := Clear;
    }

    method ImageCopy(id: Id, src: Address, block: Word32, size: Word32, mapped: bool, preLoad: bool)
      returns (r: Option<Code>)
      modifies this, loadedIds
      ensures Did(Copy(platform, old(Now()), id, src, block, size, mapped, preLoad), r)
    {
      if id !in platform.images || id !in progress || secureWorld || !platform.images[id].secure {
        return Some(NotPermitted);
      }
      if progress[id].state != RESET && progress[id].state != COPYING { return Some(NotPermitted); }
      if src == 0 || block == 0 || src + (block - 1) >= ADDRESS_SPACE { return Some(NoMemory); }
      if progress[id].state == COPYING {
        if progress[id].copied == 0 || progress[id].size == 0 || progress[id].copied >= progress[id].size {
          return None;
        }
      } else {
        if size == 0 || size > platform.images[id].maxSize { return Some(NoMemory); }
        progress := progress[id := progress[id].(size := size)];
        var v := CheckImage(id);
        if v == Broken { return None; }
        if v == Overlapping {
          progress := progress[id := progress[id].(size := 0)];
          assert progress == old(progress)[id := old(progress)[id].(size := 0)];
          return Some(NotPermitted);
        }
        progress := progress[id := progress[id].(copied := 0)];
        assert progress == old(progress)[id := old(progress)[id].(size := size, copied := 0)];
      }
      r := ImageCopyBlock(id, src, block, mapped, preLoad);
    }

    method ImageCopyBlock(id: Id, src: Address, block: Word32, mapped: bool, preLoad: bool) returns (r: Option<Code>)
      requires id in platform.images && id in progress && progress[id].copied < progress[id].size
      modifies this, loadedIds
      ensures Did(CopyBlock(platform, old(Now()), id, src, block, mapped, preLoad), r)
    {
      var remaining := progress[id].size - progress[id].copied;
      var taken := if block > remaining then remaining else block;
      if !mapped { return Some(NoMemory); }
      var added := AddLoadedId(id);
      if !added { return Some(NoMemory); }
      if progress[id].state == RESET && !preLoad { return Some(NotPermitted); }
      var data := Bytes(memory, src, taken);
      memory := Overwrite(memory, platform.images[id].base + progress[id].copied, data);
      progress := progress[id := progress[id].(copied := progress[id].copied + taken,
                                               state := if taken == remaining then COPIED else COPYING)];
      r := Some(Success);
    }

    method ImageAuth(id: Id, src: Address, size: Word32, mapped: bool, postLoad: bool) returns (r: Option<Code>)
      modifies this, loadedIds
      ensures Did(Auth(platform, old(Now()), id, src, size, mapped, postLoad), r)
    {
      if id !in platform.images || id !in progress { return Some(NotPermitted); }
      var expected := if secureWorld then RESET else if platform.images[id].secure then COPIED else RESET;
      if progress[id].state != expected { return Some(NotPermitted); }
      if progress[id].state == COPIED {
        r := ImageAuthCopied(id, postLoad);
        return;
      }
      if src == 0 || size == 0 || src + (size - 1) >= ADDRESS_SPACE || !mapped { return Some(NoMemory); }
      var added := AddLoadedId(id);
      if !added { return Some(NoMemory); }
      progress := progress[id := progress[id].(size := size)];
      if platform.authentic(id, Bytes(memory, src, size)) {
        r := MarkAuthenticated(id, postLoad);
      } else {
        var _ := RemoveLoadedId(id);
        r := Some(AuthFailed);
      }
    }

    method ImageAuthCopied(id: Id, postLoad: bool) returns (r: Option<Code>)
      requires id in platform.images && id in progress
      modifies this, loadedIds
      ensures Did(AuthCopied(platform, old(Now()), id, postLoad), r)
    {
      var base := platform.images[id].base;
      if platform.authentic(id, Bytes(memory, base, progress[id].size)) {
        r := MarkAuthenticated(id, postLoad);
      } else {
        memory := Overwrite(memory, base, Zeros(progress[id].size));
        progress := progress[id := progress[id].(state := RESET)];
        var _ := RemoveLoadedId(id);
        r := Some(AuthFailed);
      }
    }

    method MarkAuthenticated(id: Id, postLoad: bool) returns (r: Option<Code>)
      requires id in progress
      modifies this
      ensures Did(Authenticated(old(Now()), id, postLoad), r)
    {
      progress := progress[id := progress[id].(state := AUTHENTICATED)];
      r := if postLoad then Some(Success) else None;
    }

    method ImageExecute(id: Id) returns (r: Option<Code>)
      modifies this
      ensures Did(Execute(platform, old(Now()), id), r)
    {
      if id !in platform.images || id !in progress || secureWorld || !platform.images[id].secure
        || !platform.images[id].executable || progress[id].state != AUTHENTICATED { return Some(NotPermitted); }
      progress := progress[id := progress[id].(state := EXECUTED)];
      lastExecuted, secureWorld := id, true;
      r := Some(Success);
    }

    method ImageResume() returns (r: Option<Code>)
      modifies this
      ensures Did(Resume(platform, old(Now())), r)
    {
      if !secureWorld && lastExecuted !in platform.images { return Some(NotPermitted); }
      if lastExecuted !in platform.images || lastExecuted !in progress || !platform.images[lastExecuted].secure
        || !platform.images[lastExecuted].executable { return None; }
      if secureWorld {
        if progress[lastExecuted].state != EXECUTED { return None; }
        progress := progress[lastExecuted := progress[lastExecuted].(state := INTERRUPTED)];
      } else {
        if progress[lastExecuted].state != INTERRUPTED { return None; }
        progress := progress[lastExecuted := progress[lastExecuted].(state := EXECUTED)];
      }
      secureWorld := !secureWorld;
      r := Some(Success);
    }

    method SecImageDone() returns (r: Option<Code>)
      modifies this, loadedIds
      ensures Did(ImageDone(platform, old(Now())), r)
    {
      if !secureWorld { return Some(NotPermitted); }
      if lastExecuted !in platform.images || lastExecuted !in progress || !platform.images[lastExecuted].secure
        || !platform.images[lastExecuted].executable || progress[lastExecuted].state != EXECUTED { return None; }
      var found := RemoveLoadedId(lastExecuted);
      if !found { return None; }
      progress := progress[lastExecuted := progress[lastExecuted].(state := RESET)];
      lastExecuted, secureWorld := INVALID_IMAGE_ID, false;
      r := Some(Success);
    }

    method ImageReset(id: Id) returns (r: Option<Code>)
      modifies this, loadedIds
      ensures Did(Reset(platform, old(Now()), id), r)
    {
      if id !in platform.images || id !in progress || secureWorld { return Some(NotPermitted); }
      if progress[id].state == RESET { return Some(Success); }
      if progress[id].state == EXECUTED { return None; }
      var found := RemoveLoadedId(id);
      if !found { return Some(NotPermitted); }
      if progress[id].copied != 0 {
        if !platform.images[id].secure { return None; }
        memory := Overwrite(memory, platform.images[id].base, Zeros(progress[id].copied));
      }
      progress := progress[id := Progress(RESET, 0, 0)];
      r := Some(Success);
    }

    method Perform(op: Op) returns (r: Option<Code>)
      modifies this, loadedIds
      ensures Did(Step(platform, old(Now()), op), r)
    {
      match op {
        case CopyCall(id, src, block, size, mapped, preLoad) => r := ImageCopy(id, src, block, size, mapped, preLoad);
        case AuthCall(id, src, size, mapped, postLoad) => r := ImageAuth(id, src, size, mapped, postLoad);
        case ExecuteCall(id) => r := ImageExecute(id);
        case ResumeCall => r := ImageResume();
        case DoneCall => r := SecImageDone();
        case ResetCall(id) => r := ImageReset(id);
        case Store(at, data) =>
          memory := Overwrite(memory, at, data);
          r := Some(Success);
      }
    }

    /** A whole run, from the start: unless the system stops, the images are sound and hold what they were given. */
    method Serve(ops: seq<Op>) returns (stopped: bool)
      requires platform.WellFormed() && Initial(platform, Now()) && AllPermitted(platform, Now(), ops)
      modifies this, loadedIds
      ensures stopped == Run(platform, old(Now()), ops).Halts?
      ensures !stopped ==>
        && Now() == Run(platform, old(Now()), ops).after
        && Inv(platform, Now())
        && AllHold(platform, Now(), RecordAll(platform, old(Now()), map[], ops))
    {
      RunSafe(platform, Now(), ops);
      var i := 0;
      assert ops[0..] == ops;
      while i < |ops|
        invariant 0 <= i <= |ops|
        invariant Run(platform, Now(), ops[i..]) == Run(platform, old(Now()), ops)
      {
        assert ops[i..][0] == ops[i] && ops[i..][1..] == ops[i + 1..];
        var r := Perform(ops[i]);
        if r == None { return true; }
        i := i + 1;
      }
      stopped := false;
    }
  }
}
