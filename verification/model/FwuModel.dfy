/** The BL1 firmware update service as a transition system over image descriptors, load slots and memory. */
module FwuModel {
  import opened Basics

  type Id = Word32
  type Address = x: int | 0 <= x < ADDRESS_SPACE

  const ADDRESS_SPACE: int := 0x1_0000_0000_0000_0000

  datatype ImageState = RESET | COPIED | COPYING | AUTHENTICATED | EXECUTED | INTERRUPTED

  /** The part of an image descriptor that the service does not change. */
  datatype Image = Image(secure: bool, executable: bool, base: Address, maxSize: Word32)

  /** The part that it does change. */
  datatype Progress = Progress(state: ImageState, size: Word32, copied: Word32)

  /** The descriptor table, and what `auth_mod_verify_img` makes of the contents of an image. */
  datatype Platform = Platform(images: map<Id, Image>, authentic: (Id, seq<Byte>) -> bool) {
    predicate WellFormed() {
      && INVALID_IMAGE_ID !in images
      && forall id :: id in images && images[id].secure ==> images[id].base + images[id].maxSize <= ADDRESS_SPACE
    }

    predicate Secure(id: Id) { id in images && images[id].secure }
  }

  type Memory = int -> Byte

  datatype State = State(
    progress: map<Id, Progress>,
    slots: seq<Id>,
    memory: Memory,
    lastExecuted: Id,
    secureWorld: bool)

  datatype Code = Success | NotPermitted | NoMemory | AuthFailed

  /** A call returns, or stops the system in a failed assertion or in the platform's error handler. */
  datatype Outcome = Returns(code: Code, after: State) | Halts

  // ---- Memory ----

  function Bytes(memory: Memory, at: int, n: nat): (bytes: seq<Byte>)
    ensures |bytes| == n && forall k :: 0 <= k < n ==> bytes[k] == memory(at + k)
  {
    seq(n, k => memory(at + k))
  }

  function Overwrite(memory: Memory, at: int, data: seq<Byte>): Memory {
    a => if at <= a < at + |data| then data[a - at] else memory(a)
  }

  function Zeros(n: nat): (z: seq<Byte>)
    ensures |z| == n && forall k :: 0 <= k < n ==> z[k] == 0
  {
    seq(n, _ => 0)
  }

  // ---- The slots of the images that are loaded ----

  /** The first slot that holds `id`, or the number of slots. */
  function Find(slots: seq<Id>, id: Id): (i: nat)
    ensures i <= |slots| && (i < |slots| <==> id in slots)
    ensures i < |slots| ==> slots[i] == id
  {
    if slots == [] then 0 else if slots[0] == id then 0 else 1 + Find(slots[1..], id)
  }

  function AddLoaded(slots: seq<Id>, id: Id): Option<seq<Id>> {
    if id in slots then Some(slots)
    else if INVALID_IMAGE_ID in slots then Some(slots[Find(slots, INVALID_IMAGE_ID) := id])
    else None
  }

  function RemoveLoaded(slots: seq<Id>, id: Id): Option<seq<Id>> {
    if id in slots then Some(slots[Find(slots, id) := INVALID_IMAGE_ID]) else None
  }

  // ---- The overlap check ----

  datatype Verdict = Clear | Overlapping | Broken

  /** The address of the last byte, in the arithmetic of the machine. */
  function LastByte(base: Address, size: Word32): int { (base + size - 1) % ADDRESS_SPACE }

  /** How the image in one slot stands to the image that is to be loaded. */
  function CheckSlot(p: Platform, progress: map<Id, Progress>, slot: Id, id: Id): Verdict
    requires id in p.images && id in progress
  {
    if slot == INVALID_IMAGE_ID || slot == id then Clear
    else if slot !in p.images || slot !in progress || progress[slot].state == RESET then Broken
    else if progress[slot].size == 0 then Clear
    else
      var base, last := p.images[slot].base, LastByte(p.images[slot].base, progress[slot].size);
      if last <= base then Broken
      else if last < p.images[id].base || LastByte(p.images[id].base, progress[id].size) < base then Clear
      else Overlapping
  }

  function CheckOverlaps(p: Platform, progress: map<Id, Progress>, slots: seq<Id>, id: Id): Verdict
    requires id in p.images && id in progress
  {
    if slots == [] then Clear
    else
      var first := CheckSlot(p, progress, slots[0], id);
      if first != Clear then first else CheckOverlaps(p, progress, slots[1..], id)
  }

  // ---- The calls ----

  function With(s: State, id: Id, g: Progress): State {
    s.(progress := s.progress[id := g])
  }

  function Min(a: int, b: int): int { if a < b then a else b }

  function Copy(p: Platform, s: State, id: Id, src: Address, block: Word32, size: Word32,
                mapped: bool, preLoad: bool): Outcome
  {
    if id !in p.images || id !in s.progress || s.secureWorld || !p.images[id].secure then Returns(NotPermitted, s)
    else
      var g := s.progress[id];
      if g.state != RESET && g.state != COPYING then Returns(NotPermitted, s)
      else if src == 0 || block == 0 || src + (block - 1) >= ADDRESS_SPACE then Returns(NoMemory, s)
      else if g.state == COPYING then
        if g.copied == 0 || g.size == 0 || g.copied >= g.size then Halts
        else CopyBlock(p, s, id, src, block, mapped, preLoad)
      else if size == 0 || size > p.images[id].maxSize then Returns(NoMemory, s)
      else
        var s1 := With(s, id, g.(size := size));
        match CheckOverlaps(p, s1.progress, s.slots, id)
        case Broken => Halts
        case Overlapping => Returns(NotPermitted, With(s, id, g.(size := 0)))
        case Clear => CopyBlock(p, With(s, id, g.(size := size, copied := 0)), id, src, block, mapped, preLoad)
  }

  /** From the clipping of the block to the end. */
  function CopyBlock(p: Platform, s: State, id: Id, src: Address, block: Word32, mapped: bool, preLoad: bool): Outcome
    requires id in p.images && id in s.progress && s.progress[id].copied < s.progress[id].size
  {
    var g := s.progress[id];
    if !mapped then Returns(NoMemory, s)
    else
      match AddLoaded(s.slots, id)
      case None => Returns(NoMemory, s)
      case Some(slots) =>
        if g.state == RESET && !preLoad then Returns(NotPermitted, s.(slots := slots))
        else Returns(Success, Copied(p, s.(slots := slots), id, Bytes(s.memory, src, Clip(g, block))))
  }

  /** The number of bytes that a call copies. */
  function Clip(g: Progress, block: Word32): Word32
    requires g.copied < g.size
  {
    Min(block, g.size - g.copied)
  }

  function Copied(p: Platform, s: State, id: Id, data: seq<Byte>): State
    requires id in p.images && id in s.progress && s.progress[id].copied + |data| <= s.progress[id].size
  {
    var g := s.progress[id];
    var now := g.copied + |data|;
    With(s.(memory := Overwrite(s.memory, p.images[id].base + g.copied, data)), id,
         g.(copied := now, state := if now == g.size then COPIED else COPYING))
  }

  /** The state in which an image may be authenticated. */
  predicate AuthState(p: Platform, s: State, id: Id)
    requires id in p.images && id in s.progress
  {
    s.progress[id].state == if !s.secureWorld && p.images[id].secure then COPIED else RESET
  }

  function Auth(p: Platform, s: State, id: Id, src: Address, size: Word32, mapped: bool, postLoad: bool): Outcome {
    if id !in p.images || id !in s.progress || !AuthState(p, s, id) then Returns(NotPermitted, s)
    else if s.progress[id].state == COPIED then
      AuthCopied(p, s, id, postLoad)
    else if src == 0 || size == 0 || src + (size - 1) >= ADDRESS_SPACE || !mapped then Returns(NoMemory, s)
    else
      match AddLoaded(s.slots, id)
      case None => Returns(NoMemory, s)
      case Some(slots) =>
        var s1 := With(s.(slots := slots), id, s.progress[id].(size := size));
        if p.authentic(id, Bytes(s.memory, src, size)) then Authenticated(s1, id, postLoad)
        else Returns(AuthFailed, Unlisted(s1, id))
  }

  function AuthCopied(p: Platform, s: State, id: Id, postLoad: bool): Outcome
    requires id in p.images && id in s.progress
  {
    var base, g := p.images[id].base, s.progress[id];
    if p.authentic(id, Bytes(s.memory, base, g.size)) then Authenticated(s, id, postLoad)
    else
      var cleared := s.(memory := Overwrite(s.memory, base, Zeros(g.size)));
      Returns(AuthFailed, Unlisted(With(cleared, id, g.(state := RESET)), id))
  }

  function Authenticated(s: State, id: Id, postLoad: bool): Outcome
    requires id in s.progress
  {
    if postLoad then Returns(Success, With(s, id, s.progress[id].(state := AUTHENTICATED))) else Halts
  }

  /** The slot of `id` is freed if it has one. */
  function Unlisted(s: State, id: Id): State {
    match RemoveLoaded(s.slots, id)
    case None => s
    case Some(slots) => s.(slots := slots)
  }

  function Execute(p: Platform, s: State, id: Id): Outcome {
    if id !in p.images || id !in s.progress || s.secureWorld || !p.images[id].secure || !p.images[id].executable
      || s.progress[id].state != AUTHENTICATED then Returns(NotPermitted, s)
    else
      Returns(Success, With(s, id, s.progress[id].(state := EXECUTED)).(lastExecuted := id, secureWorld := true))
  }

  /** The last executed image is one that could have been executed. */
  predicate Runnable(p: Platform, s: State) {
    p.Secure(s.lastExecuted) && s.lastExecuted in s.progress && p.images[s.lastExecuted].executable
  }

  function Resume(p: Platform, s: State): Outcome {
    if !s.secureWorld && s.lastExecuted !in p.images then Returns(NotPermitted, s)
    else if !Runnable(p, s) then Halts
    else
      var g := s.progress[s.lastExecuted];
      if g.state != (if s.secureWorld then EXECUTED else INTERRUPTED) then Halts
      else
        var now := if s.secureWorld then INTERRUPTED else EXECUTED;
        Returns(Success, With(s, s.lastExecuted, g.(state := now)).(secureWorld := !s.secureWorld))
  }

  function ImageDone(p: Platform, s: State): Outcome {
    if !s.secureWorld then Returns(NotPermitted, s)
    else if !Runnable(p, s) || s.progress[s.lastExecuted].state != EXECUTED then Halts
    else
      match RemoveLoaded(s.slots, s.lastExecuted)
      case None => Halts
      case Some(slots) =>
        Returns(Success, With(s, s.lastExecuted, s.progress[s.lastExecuted].(state := RESET))
                         .(slots := slots, lastExecuted := INVALID_IMAGE_ID, secureWorld := false))
  }

  function Reset(p: Platform, s: State, id: Id): Outcome {
    if id !in p.images || id !in s.progress || s.secureWorld then Returns(NotPermitted, s)
    else
      var g := s.progress[id];
      if g.state == RESET then Returns(Success, s)
      else if g.state == EXECUTED then Halts
      else
        match RemoveLoaded(s.slots, id)
        case None => Returns(NotPermitted, s)
        case Some(slots) =>
          if g.copied != 0 && !p.images[id].secure then Halts
          else Returns(Success, With(s.(slots := slots, memory := Wiped(p, s.memory, id, g)), id, Progress(RESET, 0, 0)))
  }

  function Wiped(p: Platform, memory: Memory, id: Id, g: Progress): Memory
    requires id in p.images
  {
    if g.copied == 0 then memory else Overwrite(memory, p.images[id].base, Zeros(g.copied))
  }

  // ---- Runs ----

  /** A call with its arguments and the answers of the platform's hooks, or a write to memory by the running world. */
  datatype Op =
    | CopyCall(id: Id, src: Address, block: Word32, size: Word32, mapped: bool, preLoad: bool)
    | AuthCall(id: Id, src: Address, size: Word32, mapped: bool, postLoad: bool)
    | ExecuteCall(id: Id)
    | ResumeCall
    | DoneCall
    | ResetCall(id: Id)
    | Store(at: int, data: seq<Byte>)

  function Step(p: Platform, s: State, op: Op): Outcome {
    match op
    case CopyCall(id, src, block, size, mapped, preLoad) => Copy(p, s, id, src, block, size, mapped, preLoad)
    case AuthCall(id, src, size, mapped, postLoad) => Auth(p, s, id, src, size, mapped, postLoad)
    case ExecuteCall(id) => Execute(p, s, id)
    case ResumeCall => Resume(p, s)
    case DoneCall => ImageDone(p, s)
    case ResetCall(id) => Reset(p, s, id)
    case Store(at, data) => Returns(Success, s.(memory := Overwrite(s.memory, at, data)))
  }

  function Run(p: Platform, s: State, ops: seq<Op>): Outcome
    decreases |ops|
  {
    if ops == [] then Returns(Success, s)
    else
      match Step(p, s, ops[0])
      case Halts => Halts
      case Returns(_, s1) => Run(p, s1, ops[1..])
  }

  /** Secure images start in RESET; BL1 itself may have started a non-secure image. */
  ghost predicate Initial(p: Platform, s: State) {
    && s.progress.Keys == p.images.Keys
    && (forall id :: id in s.progress ==>
          s.progress[id].copied == 0 &&
          (s.progress[id].state == RESET || (!p.images[id].secure && s.progress[id].state == EXECUTED)))
    && (forall i :: 0 <= i < |s.slots| ==> s.slots[i] == INVALID_IMAGE_ID)
    && s.lastExecuted == INVALID_IMAGE_ID
    && !s.secureWorld
  }
}
