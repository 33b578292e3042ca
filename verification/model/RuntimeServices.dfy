/** The dispatch of secure monitor calls: a table indexed by owning entity and call type. */
module RuntimeServices {
  import opened Basics

  type Fid = Word32

  const MAX_RT_SVCS: nat := 128
  const OEN_LIMIT: nat := 64

  /** A descriptor; `initFails` is the answer of its initialisation routine, if it has one. */
  datatype Service = Service(startOen: Byte, endOen: Byte, callType: Byte, hasInit: bool, hasHandle: bool, initFails: bool) {
    predicate Valid() {
      startOen <= endOen < OEN_LIMIT && callType <= 1 && (hasInit || hasHandle)
    }

    predicate Ready() { !(hasInit && initFails) }

    /** Owning entities in the wrong order or out of range, an unknown call type, or neither of the two routines. */
    predicate Rejected() {
      startOen > endOen || endOen >= 64 || callType > 1 || (!hasInit && !hasHandle)
    }

    /** The service is meant to handle the calls with this identifier. */
    predicate Covers(fid: Fid) {
      startOen <= Oen(fid) <= endOen && callType == CallType(fid)
    }
  }

  /** Bits 29 to 24 of a function identifier (section 2.5 of Arm DEN0028). */
  function Oen(fid: Fid): nat { fid / 0x100_0000 % 0x40 }

  /** Bit 31: fast calls have it set. */
  function CallType(fid: Fid): nat { fid / 0x8000_0000 }

  function UniqueOen(oen: nat, callType: nat): nat { callType % 2 * 64 + oen % 64 }

  /** Where the two fields lie in an identifier, whatever the calling convention and the function number are. */
  lemma FieldsOf(callType: nat, convention: nat, oen: nat, number: nat)
    requires callType < 2 && convention < 2 && oen < 64 && number < 0x100_0000
    ensures var fid := callType * 0x8000_0000 + convention * 0x4000_0000 + oen * 0x100_0000 + number;
            fid < 0x1_0000_0000 && Oen(fid) == oen && CallType(fid) == callType
  {
    var fid := callType * 0x8000_0000 + convention * 0x4000_0000 + oen * 0x100_0000 + number;
    var high := callType * 0x80 + convention * 0x40 + oen;
    assert fid == high * 0x100_0000 + number;
    assert fid / 0x100_0000 == high;
  }

  // ---- The plain search ----

  /** The service covers the call, and its initialisation, if it has one, has not failed. */
  predicate Serves(d: Service, fid: Fid) { d.Covers(fid) && (d.hasInit ==> !d.initFails) }

  /** `k` is the last service that was initialised and covers the call. */
  ghost predicate IsLast(services: seq<Service>, fid: Fid, k: int) {
    && 0 <= k < |services| && Serves(services[k], fid)
    && forall j :: k < j < |services| ==> !Serves(services[j], fid)
  }

  ghost predicate NoneCovers(services: seq<Service>, fid: Fid) {
    forall j :: 0 <= j < |services| ==> !Serves(services[j], fid)
  }

  // ---- The table ----

  /** The range of a service in the table. */
  predicate InRange(d: Service, i: nat) {
    UniqueOen(d.startOen, d.callType) <= i <= UniqueOen(d.endOen, d.callType)
  }

  /** What the services write to entry `i`, the last one winning. */
  function Entry(services: seq<Service>, i: nat): Byte
    requires |services| < MAX_RT_SVCS
  {
    if services == [] then 255
    else
      var k := |services| - 1;
      if services[k].Ready() && InRange(services[k], i) then k else Entry(services[..k], i)
  }

  /** Fast calls follow the yielding ones in the table. */
  lemma UniqueOenIs(oen: nat, callType: nat)
    requires oen < 64 && callType < 2
    ensures UniqueOen(oen, callType) == if callType == 0 then oen else 64 + oen
  {
    if callType == 0 { assert callType % 2 * 64 == 0; } else { assert callType % 2 * 64 == 64; }
  }

  /** The ranges of a call type do not run into those of the other one. */
  lemma RangeCovers(d: Service, fid: Fid)
    requires d.Valid()
    ensures InRange(d, UniqueOen(Oen(fid), CallType(fid))) <==> d.Covers(fid)
    ensures UniqueOen(Oen(fid), CallType(fid)) < MAX_RT_SVCS
  {
    UniqueOenIs(Oen(fid), CallType(fid));
    UniqueOenIs(d.startOen, d.callType);
    UniqueOenIs(d.endOen, d.callType);
    if d.callType == 0 {
      if CallType(fid) == 0 { assert d.Covers(fid) <==> d.startOen <= Oen(fid) <= d.endOen; }
    } else {
      if CallType(fid) == 1 { assert d.Covers(fid) <==> d.startOen <= Oen(fid) <= d.endOen; }
    }
  }

  /** The table gives what a search over all services gives. */
  lemma {:induction false} EntryIsLast(services: seq<Service>, fid: Fid)
    requires |services| < MAX_RT_SVCS && forall j :: 0 <= j < |services| ==> services[j].Valid()
    ensures var e := Entry(services, UniqueOen(Oen(fid), CallType(fid)));
            if e < |services| then IsLast(services, fid, e) else e == 255 && NoneCovers(services, fid)
  {
    if services != [] {
      var k := |services| - 1;
      RangeCovers(services[k], fid);
      EntryIsLast(services[..k], fid);
    }
  }

  datatype Lookup = Handler(index: nat) | Unknown | Halted

  class Dispatcher {
    const services: seq<Service>
    const indices: array<Byte>

    /** The table as it is after `runtime_svc_init`; without services it is left as it was. */
    ghost predicate Filled()
      reads indices
    {
      && indices.Length == MAX_RT_SVCS && |services| < MAX_RT_SVCS
      && (forall j :: 0 <= j < |services| ==> services[j].Valid())
      && (services != [] ==> forall i :: 0 <= i < MAX_RT_SVCS ==> indices[i] == Entry(services, i))
    }

    constructor (services: seq<Service>)
      ensures this.services == services && fresh(indices) && indices.Length == MAX_RT_SVCS
    {
      this.services := services;
      indices := new Byte[MAX_RT_SVCS](_ => 0);
    }

    /** `runtime_svc_init`; it stops the system exactly if there are too many services or one is not valid. */
    method Init() returns (halted: bool)
      requires indices.Length == MAX_RT_SVCS
      modifies indices
      ensures halted <==> |services| >= MAX_RT_SVCS || exists j :: 0 <= j < |services| && services[j].Rejected()
      ensures !halted ==> Filled()
    {
      if |services| >= MAX_RT_SVCS { return true; }
      if |services| == 0 { return false; }
      Clear();
      var index := 0;
      while index < |services|
        invariant 0 <= index <= |services|
        invariant forall j :: 0 <= j < index ==> services[j].Valid()
        invariant forall i :: 0 <= i < MAX_RT_SVCS ==> indices[i] == Entry(services[..index], i)
      {
        if !services[index].Valid() { return true; }
        Register(index);
        index := index + 1;
      }
      assert services[..|services|] == services;
      halted := false;
    }

    /** All entries become 255. */
    method Clear()
      requires indices.Length == MAX_RT_SVCS
      modifies indices
      ensures forall i :: 0 <= i < MAX_RT_SVCS ==> indices[i] == 255
    {
      var i := 0;
      while i < MAX_RT_SVCS
        invariant 0 <= i <= MAX_RT_SVCS && forall j :: 0 <= j < i ==> indices[j] == 255
      {
        indices[i] := 255;
        i := i + 1;
      }
    }

    /** One service enters its index in its range, if it could be initialised. */
    method Register(index: nat)
      requires indices.Length == MAX_RT_SVCS && index < |services| < MAX_RT_SVCS && services[index].Valid()
      requires forall i :: 0 <= i < MAX_RT_SVCS ==> indices[i] == Entry(services[..index], i)
      modifies indices
      ensures forall i :: 0 <= i < MAX_RT_SVCS ==> indices[i] == Entry(services[..index + 1], i)
    {
      var d := services[index];
      var upTo := services[..index + 1];
      assert upTo[..index] == services[..index] && upTo[index] == d;
      if d.hasInit && d.initFails { return; }
      var start, end := UniqueOen(d.startOen, d.callType), UniqueOen(d.endOen, d.callType);
      var i := start;
      while i <= end
        invariant start <= i <= end + 1 <= MAX_RT_SVCS
        invariant forall j :: start <= j < i ==> indices[j] == index
        invariant forall j :: 0 <= j < MAX_RT_SVCS && !(start <= j < i) ==> indices[j] == old(indices[j])
      {
        indices[i] := index;
        i := i + 1;
      }
    }

    /** `get_handler_for_smc_fid`: the last initialised service that covers the call, if there is one. */
    method FindHandler(fid: Fid) returns (r: Lookup)
      requires Filled()
      ensures r.Unknown? <==> NoneCovers(services, fid)
      ensures r.Handler? ==> IsLast(services, fid, r.index) && services[r.index].hasHandle
      ensures r.Halted? <==> exists k :: IsLast(services, fid, k) && !services[k].hasHandle
    {
      EntryIsLast(services, fid);
      var index := indices[UniqueOen(Oen(fid), CallType(fid))];
      if index >= |services| { return Unknown; }
      assert IsLast(services, fid, index);
      if !services[index].hasHandle { return Halted; }
      r := Handler(index);
    }
  }
}
