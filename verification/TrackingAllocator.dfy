// The TensorRT allocator callbacks and the runner's device buffers over one
// registry (apps/resnet50_int8_g1_5.cpp), as a state machine.
//
// Every call in progress is a claim; any number of them interleave, one step at
// a time. A step is what one call does under one lock, or one CUDA call.
module TrackingAllocator {
  import opened Registry

  // ---- allocation ids ---------------------------------------------------------

  function Digit(d: nat): char
    requires d < 10
  {
    "0123456789"[d]
  }

  function Decimal(n: nat): (r: string)
    ensures r != []
  {
    if n < 10 then [Digit(n)] else Decimal(n / 10) + [Digit(n % 10)]
  }

  lemma {:induction false} DecimalInjective(m: nat, n: nat)
    requires Decimal(m) == Decimal(n)
    ensures m == n
  {
    var a, b := Decimal(m), Decimal(n);
    assert a[|a| - 1] == Digit(m % 10) && b[|b| - 1] == Digit(n % 10);
    if m >= 10 && n >= 10 {
      assert a[..|a| - 1] == Decimal(m / 10) && b[..|b| - 1] == Decimal(n / 10);
      DecimalInjective(m / 10, n / 10);
    } else {
      assert |a| == 1 <==> m < 10;
      assert |b| == 1 <==> n < 10;
    }
  }

  const PREFIX := "trt-internal-"

  function InternalId(n: nat): string { PREFIX + Decimal(n) }

  predicate IsInternalId(id: string) { PREFIX <= id }

  lemma InternalIds(m: nat, n: nat)
    ensures IsInternalId(InternalId(m))
    ensures InternalId(m) == InternalId(n) ==> m == n
  {
    assert InternalId(m)[|PREFIX|..] == Decimal(m) && InternalId(n)[|PREFIX|..] == Decimal(n);
    if InternalId(m) == InternalId(n) {
      DecimalInjective(m, n);
    }
  }

  // ---- state --------------------------------------------------------------------

  datatype Kind = Internal | Runner

  // How far a call, or what it allocated, has come.
  datatype Stage =
    | Fresh        // after cudaMalloc
    | Named        // has its id
    | Registered   // add_allocation succeeded
    | Failing      // in the catch clause, before deactivate_allocation
    | Undone       // in the catch clause, before cudaFree
    | Returned     // recorded, its pointer given out
    | Freed        // deallocate, after cudaFree
    | Cleared      // deallocate, after the record was marked inactive
    | Held         // a constructed DeviceBuffer
    | Window       // DeviceBuffer::release, after cudaFree
    | Dead

  // `number` is what the id was made of; `entry` and `record` are where it is
  // in the registry and in the records; -1 if nowhere.
  datatype Claim = Claim(
    kind: Kind, va: Address, size: Address, id: string, stage: Stage, number: int, entry: int, record: int)

  datatype Record = Record(va: Address, id: string, claim: nat, active: bool)

  // The allocator's mutex: open, taken by a deallocate that has not freed yet, or
  // held by one past cudaFree of this record.
  datatype Lock = Open | Entered(va: Address) | Freeing(record: nat)

  datatype State = State(
    claims: seq<Claim>, live: map<nat, nat>, registry: seq<Descriptor>, owners: seq<nat>,
    records: seq<Record>, nextId: nat, lock: Lock)

  predicate Owns(c: Claim) {
    c.stage in {Fresh, Named, Registered, Failing, Undone, Returned, Held}
  }

  predicate Listed(c: Claim) {
    c.entry >= 0 && c.stage in {Registered, Failing, Returned, Freed, Cleared, Held, Window}
  }

  predicate InRange(va: nat, c: Claim) { c.va <= va < c.va + c.size }

  predicate Apart(b: nat, n: nat, b': nat, n': nat) { b + n <= b' || b' + n' <= b }

  predicate FreeRange(live: map<nat, nat>, va: nat, size: nat) {
    forall b | b in live :: Apart(va, size, b, live[b])
  }

  // `text` is the phase of a TensorRT allocation, the label of a device buffer.
  function DescriptorOf(c: Claim, device: int, text: string): Descriptor {
    match c.kind
    case Internal =>
      Descriptor(c.id, device, c.va, c.size, 0, "TensorRT IGpuAllocator", "TENSORRT_INTERNAL_UNKNOWN", text,
                 "TensorRT allocate callback to matching deallocate callback", true)
    case Runner =>
      Descriptor(c.id, device, c.va, c.size, 0, "G1.5 runner", text, "allocate_bindings",
                 "runner cudaMalloc to runner cudaFree", true)
  }

  // The record deallocate takes: the last active one with the address.
  function LastActive(records: seq<Record>, va: nat): (r: nat)
    ensures r <= |records|
    ensures r < |records| ==> records[r].active && records[r].va == va
    ensures r == |records| ==> forall i | 0 <= i < |records| :: !(records[i].active && records[i].va == va)
    ensures forall i | r < i < |records| :: !(records[i].active && records[i].va == va)
  {
    if records == [] then 0
    else
      var n := |records| - 1;
      if records[n].active && records[n].va == va then n
      else
        var r := LastActive(records[..n], va);
        assert forall i | 0 <= i < n :: records[..n][i] == records[i];
        if r == n then n + 1 else r
  }

  // deactivate_allocation
  function Deactivated(s: seq<Descriptor>, id: string): seq<Descriptor> {
    var k := Find(s, id);
    if k < |s| then ClearedAt(s, k) else s
  }

  // ---- steps --------------------------------------------------------------------

  datatype Step =
    | Malloc(kind: Kind, va: Address, size: Address, id: string)
    | Name(k: nat)
    | NameFails(k: nat)
    | Add(k: nat, text: string)
    | AddFails(k: nat)
    | Push(k: nat)
    | PushFails(k: nat)
    | Undo(k: nat)
    | Drop(k: nat)
    | Enter(va: Address)
    | Leave
    | Free
    | Clear
    | Deactivate
    | BufferFree(k: nat)
    | BufferDeactivate(k: nat)

  function SetStage(s: State, k: nat, stage: Stage): State
    requires k < |s.claims|
  {
    s.(claims := s.claims[k := s.claims[k].(stage := stage)])
  }

  predicate At(s: State, k: nat, kind: Kind, stage: Stage) {
    k < |s.claims| && s.claims[k].kind == kind && s.claims[k].stage == stage
  }

  // May the step be taken? A failing step may be taken whenever the call is at
  // that point: memory may run out at any time.
  ghost predicate Enabled(s: State, device: int, step: Step) {
    match step
    case Malloc(kind, va, size, id) =>
      && va != 0 && size > 0 && va + size <= ADDRESSES && FreeRange(s.live, va, size)
      && (kind == Runner ==> !IsInternalId(id))
    case Name(k) => At(s, k, Internal, Fresh) && s.lock.Open?
    case NameFails(k) => At(s, k, Internal, Fresh) && s.lock.Open?
    case Add(k, text) => CanAdd(s, k) && Addable(s.registry, DescriptorOf(s.claims[k], device, text))
    case AddFails(k) => CanAdd(s, k)
    case Push(k) => At(s, k, Internal, Registered) && s.lock.Open?
    case PushFails(k) => At(s, k, Internal, Registered) && s.lock.Open?
    case Undo(k) => At(s, k, Internal, Failing)
    case Drop(k) => At(s, k, Internal, Undone)
    case Enter(va) => s.lock.Open?
    case Leave => s.lock.Entered?
    case Free => s.lock.Entered? && LastActive(s.records, s.lock.va) < |s.records| && s.lock.va in s.live
    case Clear => s.lock.Freeing? && s.lock.record < |s.records| && s.records[s.lock.record].active
    case Deactivate => s.lock.Freeing? && s.lock.record < |s.records| && !s.records[s.lock.record].active
    case BufferFree(k) => At(s, k, Runner, Held)
    case BufferDeactivate(k) => At(s, k, Runner, Window)
  }

  // About to call add_allocation.
  predicate CanAdd(s: State, k: nat) {
    At(s, k, Internal, Named) || At(s, k, Runner, Fresh)
  }

  function Unmap(live: map<nat, nat>, va: nat): map<nat, nat> {
    live - {va}
  }

  function After(s: State, device: int, step: Step): State {
    match step
    case Malloc(kind, va, size, id) =>
      s.(claims := s.claims + [Claim(kind, va, size, if kind == Internal then "" else id, Fresh, -1, -1, -1)],
         live := s.live[va := size])
    case Name(k) =>
      if k >= |s.claims| then s
      else s.(claims := s.claims[k := s.claims[k].(id := InternalId(s.nextId), number := s.nextId, stage := Named)],
              nextId := s.nextId + 1)
    case NameFails(k) =>
      if k >= |s.claims| then s else SetStage(s, k, Dead).(live := Unmap(s.live, s.claims[k].va))
    case Add(k, text) =>
      if k >= |s.claims| then s
      else
        var c := s.claims[k];
        s.(claims := s.claims[k := c.(entry := |s.registry|, stage := if c.kind == Internal then Registered else Held)],
           registry := s.registry + [DescriptorOf(c, device, text)], owners := s.owners + [k])
    case AddFails(k) =>
      if k >= |s.claims| then s
      else if s.claims[k].kind == Internal then SetStage(s, k, Failing)
      else SetStage(s, k, Dead).(live := Unmap(s.live, s.claims[k].va))
    case Push(k) =>
      if k >= |s.claims| then s
      else
        var c := s.claims[k];
        s.(claims := s.claims[k := c.(record := |s.records|, stage := Returned)],
           records := s.records + [Record(c.va, c.id, k, true)])
    case PushFails(k) => if k >= |s.claims| then s else SetStage(s, k, Failing)
    case Undo(k) =>
      if k >= |s.claims| then s
      else SetStage(s, k, Undone).(registry := Deactivated(s.registry, s.claims[k].id))
    case Drop(k) =>
      if k >= |s.claims| then s else SetStage(s, k, Dead).(live := Unmap(s.live, s.claims[k].va))
    case Enter(va) => s.(lock := Entered(va))
    case Leave => s.(lock := Open)
    case Free =>
      if !s.lock.Entered? then s
      else
        var r := LastActive(s.records, s.lock.va);
        if r >= |s.records| || s.records[r].claim >= |s.claims| then s
        else SetStage(s, s.records[r].claim, Freed).(live := Unmap(s.live, s.lock.va), lock := Freeing(r))
    case Clear =>
      if !s.lock.Freeing? || s.lock.record >= |s.records| then s
      else
        var r := s.lock.record;
        var t := s.(records := s.records[r := s.records[r].(active := false)]);
        if s.records[r].claim < |s.claims| then SetStage(t, s.records[r].claim, Cleared) else t
    case Deactivate =>
      if !s.lock.Freeing? || s.lock.record >= |s.records| then s
      else
        var r := s.records[s.lock.record];
        var t := s.(registry := Deactivated(s.registry, r.id), lock := Open);
        if r.claim < |s.claims| then SetStage(t, r.claim, Dead) else t
    case BufferFree(k) =>
      if k >= |s.claims| then s else SetStage(s, k, Window).(live := Unmap(s.live, s.claims[k].va))
    case BufferDeactivate(k) =>
      if k >= |s.claims| then s
      else SetStage(s, k, Dead).(registry := Deactivated(s.registry, s.claims[k].id))
  }

  const START := State([], map[], [], [], [], 0, Open)

  // ---- what every step keeps -------------------------------------------------------

  // One claim against the shared state.
  ghost predicate ClaimOk(s: State, k: nat)
    requires k < |s.claims| && |s.owners| == |s.registry|
  {
    var c := s.claims[k];
    && c.va != 0 && c.size > 0 && c.va + c.size <= ADDRESSES
    && (Owns(c) ==> c.va in s.live && s.live[c.va] == c.size)
    && (c.kind == Runner ==> !IsInternalId(c.id) && c.number == -1 && c.stage in {Fresh, Held, Window, Dead})
    && (c.kind == Internal ==> c.stage != Held && c.stage != Window && -1 <= c.number < s.nextId)
    && (c.kind == Internal ==> if c.number == -1 then c.id == "" && c.stage in {Fresh, Dead} && c.entry == -1
                               else c.id == InternalId(c.number) && c.stage != Fresh)
    && -1 <= c.entry < |s.registry| && -1 <= c.record < |s.records|
    && (c.stage in {Fresh, Named} ==> c.entry == -1)
    && (c.stage in {Registered, Returned, Freed, Cleared, Held, Window} ==> c.entry >= 0)
    && (c.stage in {Returned, Freed, Cleared} ==> c.record >= 0)
    && (c.record >= 0 ==> c.kind == Internal && c.stage in {Returned, Freed, Cleared, Dead})
    && (c.entry >= 0 ==> s.owners[c.entry] == k)
    && (c.record >= 0 ==> s.records[c.record].claim == k)
    && (c.stage in {Freed, Cleared} ==> s.lock == Freeing(c.record))
  }

  // One registry entry: whose it is, and when it is active.
  ghost predicate EntryOk(s: State, device: int, i: nat)
    requires i < |s.registry| && |s.owners| == |s.registry|
  {
    var e, k := s.registry[i], s.owners[i];
    && k < |s.claims| && s.claims[k].entry == i
    && e.id == s.claims[k].id && e.base == s.claims[k].va && e.size == s.claims[k].size && e.device == device
    && (e.active <==> Listed(s.claims[k]))
  }

  ghost predicate RecordOk(s: State, r: nat)
    requires r < |s.records|
  {
    var x := s.records[r];
    && x.claim < |s.claims| && s.claims[x.claim].record == r
    && x.va == s.claims[x.claim].va && x.id == s.claims[x.claim].id
    && (x.active <==> s.claims[x.claim].stage in {Returned, Freed})
  }

  // Two claims never own a common byte; a range the allocator is giving back is
  // not owned by a call that has its id.
  ghost predicate PairOk(s: State, j: nat, k: nat)
    requires j < |s.claims| && k < |s.claims|
  {
    var c, d := s.claims[j], s.claims[k];
    && (j != k && Owns(c) && Owns(d) ==> Apart(c.va, c.size, d.va, d.size))
    && (j != k && c.kind == Internal && d.kind == Internal && c.number >= 0 ==> c.number != d.number)
    && (c.stage in {Freed, Cleared} && Owns(d) && d.kind == Internal && d.stage != Fresh ==>
          Apart(c.va, c.size, d.va, d.size))
  }

  ghost predicate LockOk(s: State) {
    s.lock.Freeing? ==> && s.lock.record < |s.records| && s.records[s.lock.record].claim < |s.claims|
                        && s.claims[s.records[s.lock.record].claim].stage in {Freed, Cleared}
  }

  ghost predicate Inv(s: State, device: int) {
    && Consistent(s.registry) && |s.owners| == |s.registry|
    && (forall k: nat {:trigger ClaimOk(s, k)} | k < |s.claims| :: ClaimOk(s, k))
    && (forall i: nat {:trigger EntryOk(s, device, i)} | i < |s.registry| :: EntryOk(s, device, i))
    && (forall r: nat {:trigger RecordOk(s, r)} | r < |s.records| :: RecordOk(s, r))
    && (forall j: nat, k: nat {:trigger PairOk(s, j, k)} | j < |s.claims| && k < |s.claims| :: PairOk(s, j, k))
    && LockOk(s)
  }

  lemma StartOk(device: int)
    ensures Inv(START, device)
  {
  }

  lemma MallocKeeps(s: State, device: int, step: Step)
    requires Inv(s, device) && Enabled(s, device, step) && step.Malloc?
    ensures Inv(After(s, device, step), device)
  {
    var t := After(s, device, step);
    forall k: nat | k < |t.claims| ensures ClaimOk(t, k) {
      assert k < |s.claims| ==> ClaimOk(s, k);
    }
    forall i: nat | i < |t.registry| ensures EntryOk(t, device, i) {
      assert i < |s.registry| ==> EntryOk(s, device, i);
    }
    forall r: nat | r < |t.records| ensures RecordOk(t, r) {
      assert r < |s.records| ==> RecordOk(s, r);
    }
    forall j: nat, k: nat | j < |t.claims| && k < |t.claims| ensures PairOk(t, j, k) {
      assert j < |s.claims| && k < |s.claims| ==> PairOk(s, j, k);
      assert (j < |s.claims| ==> ClaimOk(s, j)) && (k < |s.claims| ==> ClaimOk(s, k));
    }
  }

  lemma NameKeeps(s: State, device: int, n: nat)
    requires Inv(s, device) && At(s, n, Internal, Fresh) && s.lock.Open?
    ensures Inv(After(s, device, Name(n)), device)
  {
    var t := After(s, device, Name(n));
    assert ClaimOk(s, n);
    InternalIds(s.nextId, s.nextId);
    forall k: nat | k < |t.claims| ensures ClaimOk(t, k) {
      assert k < |s.claims| ==> ClaimOk(s, k);
    }
    forall i: nat | i < |t.registry| ensures EntryOk(t, device, i) {
      assert i < |s.registry| ==> EntryOk(s, device, i);
    }
    forall r: nat | r < |t.records| ensures RecordOk(t, r) {
      assert r < |s.records| ==> RecordOk(s, r);
    }
    forall j: nat, k: nat | j < |t.claims| && k < |t.claims| ensures PairOk(t, j, k) {
      assert j < |s.claims| && k < |s.claims| ==> PairOk(s, j, k);
      assert ClaimOk(s, j) && ClaimOk(s, k);
    }
  }

  function Forgotten(s: State, k: nat, stage: Stage): State
    requires k < |s.claims|
  {
    SetStage(s, k, stage).(live := Unmap(s.live, s.claims[k].va))
  }

  // cudaFree of an owned range, which leaves the claim dead or in its window.
  lemma ForgetKeeps(s: State, device: int, n: nat, stage: Stage)
    requires Inv(s, device) && n < |s.claims| && Owns(s.claims[n])
             && ((stage == Dead && !Listed(s.claims[n])) || (stage == Window && s.claims[n].stage == Held))
    ensures Inv(Forgotten(s, n, stage), device)
  {
    var t := Forgotten(s, n, stage);
    assert ClaimOk(s, n);
    assert s.claims[n].record == -1;
    forall k: nat | k < |t.claims| ensures ClaimOk(t, k) {
      assert k < |s.claims| ==> ClaimOk(s, k);
      assert PairOk(s, n, k);
    }
    forall i: nat | i < |t.registry| ensures EntryOk(t, device, i) {
      assert i < |s.registry| ==> EntryOk(s, device, i);
    }
    forall r: nat | r < |t.records| ensures RecordOk(t, r) {
      assert r < |s.records| ==> RecordOk(s, r);
    }
    forall j: nat, k: nat | j < |t.claims| && k < |t.claims| ensures PairOk(t, j, k) {
      assert j < |s.claims| && k < |s.claims| ==> PairOk(s, j, k);
    }
  }

  function Listing(s: State, k: nat, d: Descriptor): State
    requires k < |s.claims|
  {
    var c := s.claims[k];
    s.(claims := s.claims[k := c.(entry := |s.registry|, stage := if c.kind == Internal then Registered else Held)],
       registry := s.registry + [d], owners := s.owners + [k])
  }

  lemma ListingKeeps(s: State, device: int, n: nat, d: Descriptor)
    requires Inv(s, device) && CanAdd(s, n) && Addable(s.registry, d)
    requires d.id == s.claims[n].id && d.device == device && d.base == s.claims[n].va && d.size == s.claims[n].size
    ensures Inv(Listing(s, n, d), device)
  {
    var t := Listing(s, n, d);
    assert ClaimOk(s, n);
    AddKeepsConsistent(s.registry, d);
    forall k: nat | k < |t.claims| ensures ClaimOk(t, k) {
      assert k < |s.claims| ==> ClaimOk(s, k);
    }
    forall i: nat | i < |t.registry| ensures EntryOk(t, device, i) {
      assert i < |s.registry| ==> EntryOk(s, device, i);
    }
    forall r: nat | r < |t.records| ensures RecordOk(t, r) {
      assert r < |s.records| ==> RecordOk(s, r);
    }
    forall j: nat, k: nat | j < |t.claims| && k < |t.claims| ensures PairOk(t, j, k) {
      assert j < |s.claims| && k < |s.claims| ==> PairOk(s, j, k);
    }
  }

  lemma FailKeeps(s: State, device: int, n: nat)
    requires Inv(s, device) && (At(s, n, Internal, Registered) || At(s, n, Internal, Named))
    ensures Inv(SetStage(s, n, Failing), device)
  {
    var t := SetStage(s, n, Failing);
    assert ClaimOk(s, n);
    forall k: nat | k < |t.claims| ensures ClaimOk(t, k) {
      assert k < |s.claims| ==> ClaimOk(s, k);
    }
    forall i: nat | i < |t.registry| ensures EntryOk(t, device, i) {
      assert i < |s.registry| ==> EntryOk(s, device, i);
    }
    forall r: nat | r < |t.records| ensures RecordOk(t, r) {
      assert r < |s.records| ==> RecordOk(s, r);
    }
    forall j: nat, k: nat | j < |t.claims| && k < |t.claims| ensures PairOk(t, j, k) {
      assert j < |s.claims| && k < |s.claims| ==> PairOk(s, j, k);
    }
  }

  lemma PushKeeps(s: State, device: int, n: nat)
    requires Inv(s, device) && At(s, n, Internal, Registered)
    ensures Inv(After(s, device, Push(n)), device)
  {
    var t := After(s, device, Push(n));
    assert ClaimOk(s, n);
    forall k: nat | k < |t.claims| ensures ClaimOk(t, k) {
      assert k < |s.claims| ==> ClaimOk(s, k);
    }
    forall i: nat | i < |t.registry| ensures EntryOk(t, device, i) {
      assert i < |s.registry| ==> EntryOk(s, device, i);
    }
    forall r: nat | r < |t.records| ensures RecordOk(t, r) {
      assert r < |s.records| ==> RecordOk(s, r);
    }
    forall j: nat, k: nat | j < |t.claims| && k < |t.claims| ensures PairOk(t, j, k) {
      assert j < |s.claims| && k < |s.claims| ==> PairOk(s, j, k);
    }
  }

  lemma LockKeeps(s: State, device: int, lock: Lock)
    requires Inv(s, device) && !s.lock.Freeing? && !lock.Freeing?
    ensures Inv(s.(lock := lock), device)
  {
    var t := s.(lock := lock);
    forall k: nat | k < |t.claims| ensures ClaimOk(t, k) {
      assert k < |s.claims| ==> ClaimOk(s, k);
    }
    forall i: nat | i < |t.registry| ensures EntryOk(t, device, i) {
      assert i < |s.registry| ==> EntryOk(s, device, i);
    }
    forall r: nat | r < |t.records| ensures RecordOk(t, r) {
      assert r < |s.records| ==> RecordOk(s, r);
    }
    forall j: nat, k: nat | j < |t.claims| && k < |t.claims| ensures PairOk(t, j, k) {
      assert j < |s.claims| && k < |s.claims| ==> PairOk(s, j, k);
    }
  }

  // deactivate_allocation of a claim's id reaches the claim's own entry, or none.
  lemma FindsOwnEntry(s: State, device: int, n: nat)
    requires Inv(s, device) && n < |s.claims| && s.claims[n].id != ""
    requires s.claims[n].entry >= 0 || s.claims[n].kind == Internal
    ensures Find(s.registry, s.claims[n].id) == if s.claims[n].entry >= 0 then s.claims[n].entry else |s.registry|
  {
    var c := s.claims[n];
    assert ClaimOk(s, n);
    var i := Find(s.registry, c.id);
    if c.entry >= 0 {
      assert EntryOk(s, device, c.entry);
    } else if i < |s.registry| {
      OtherIdsDiffer(s, device, n, i);
    }
  }

  lemma OtherIdsDiffer(s: State, device: int, n: nat, i: nat)
    requires Inv(s, device) && n < |s.claims| && i < |s.registry|
    requires s.claims[n].kind == Internal && s.claims[n].id != "" && s.claims[n].entry == -1
    ensures s.registry[i].id != s.claims[n].id
  {
    assert ClaimOk(s, n) && EntryOk(s, device, i);
    var j := s.owners[i];
    assert ClaimOk(s, j) && PairOk(s, n, j);
    InternalIds(s.claims[n].number, s.claims[n].number);
    if s.claims[j].kind == Internal {
      InternalIds(s.claims[n].number, s.claims[j].number);
    }
  }

  function Delisted(s: State, k: nat, stage: Stage, lock: Lock): State
    requires k < |s.claims|
  {
    SetStage(s, k, stage).(registry := Deactivated(s.registry, s.claims[k].id), lock := lock)
  }

  // Only the claim's own entry changes, if it has one.
  lemma DelistsOwn(s: State, device: int, n: nat)
    requires Inv(s, device) && n < |s.claims| && s.claims[n].stage in {Failing, Window, Cleared}
    ensures var t, e := Deactivated(s.registry, s.claims[n].id), s.claims[n].entry;
            && Consistent(t) && |t| == |s.registry|
            && forall i: nat | i < |t| :: t[i] == if i == e then s.registry[i].(active := false) else s.registry[i]
  {
    assert ClaimOk(s, n);
    NamedId(s, device, n);
    FindsOwnEntry(s, device, n);
    if s.claims[n].entry >= 0 {
      ClearKeepsConsistent(s.registry, s.claims[n].entry);
    }
  }

  // The three ways to give an entry up: catch clause, DeviceBuffer, deallocate.
  predicate MayDelist(s: State, n: nat, stage: Stage, lock: Lock)
    requires n < |s.claims|
  {
    || (s.claims[n].stage == Failing && stage == Undone && lock == s.lock)
    || (s.claims[n].stage == Window && stage == Dead && lock == s.lock)
    || (s.claims[n].stage == Cleared && stage == Dead && lock == Open)
  }

  lemma DelistKeepsClaim(s: State, device: int, n: nat, stage: Stage, lock: Lock, k: nat)
    requires Inv(s, device) && n < |s.claims| && MayDelist(s, n, stage, lock) && k < |s.claims|
    requires |Delisted(s, n, stage, lock).registry| == |s.registry|
    ensures ClaimOk(Delisted(s, n, stage, lock), k)
  {
    assert ClaimOk(s, k) && ClaimOk(s, n);
    OneFreeing(s, device, n, k);
  }

  lemma DelistKeepsEntry(s: State, device: int, n: nat, stage: Stage, lock: Lock, i: nat)
    requires Inv(s, device) && n < |s.claims| && MayDelist(s, n, stage, lock) && i < |s.registry|
    requires |Delisted(s, n, stage, lock).registry| == |s.registry|
    requires Delisted(s, n, stage, lock).registry[i] ==
             if i == s.claims[n].entry then s.registry[i].(active := false) else s.registry[i]
    ensures EntryOk(Delisted(s, n, stage, lock), device, i)
  {
    assert ClaimOk(s, n) && EntryOk(s, device, i);
  }

  lemma DelistKeepsRecord(s: State, device: int, n: nat, stage: Stage, lock: Lock, r: nat)
    requires Inv(s, device) && n < |s.claims| && MayDelist(s, n, stage, lock) && r < |s.records|
    ensures RecordOk(Delisted(s, n, stage, lock), r)
  {
    assert RecordOk(s, r);
  }

  lemma DelistKeepsPair(s: State, device: int, n: nat, stage: Stage, lock: Lock, j: nat, k: nat)
    requires Inv(s, device) && n < |s.claims| && MayDelist(s, n, stage, lock) && j < |s.claims| && k < |s.claims|
    ensures PairOk(Delisted(s, n, stage, lock), j, k)
  {
    assert PairOk(s, j, k);
  }

  lemma DelistKeeps(s: State, device: int, n: nat, stage: Stage, lock: Lock)
    requires Inv(s, device) && n < |s.claims| && MayDelist(s, n, stage, lock)
    ensures Inv(Delisted(s, n, stage, lock), device)
  {
    var t := Delisted(s, n, stage, lock);
    assert ClaimOk(s, n);
    DelistsOwn(s, device, n);
    forall k: nat | k < |t.claims| ensures ClaimOk(t, k) {
      DelistKeepsClaim(s, device, n, stage, lock, k);
    }
    forall i: nat | i < |t.registry| ensures EntryOk(t, device, i) {
      DelistKeepsEntry(s, device, n, stage, lock, i);
    }
    forall r: nat | r < |t.records| ensures RecordOk(t, r) {
      DelistKeepsRecord(s, device, n, stage, lock, r);
    }
    forall j: nat, k: nat | j < |t.claims| && k < |t.claims| ensures PairOk(t, j, k) {
      DelistKeepsPair(s, device, n, stage, lock, j, k);
    }
  }

  lemma NamedId(s: State, device: int, n: nat)
    requires Inv(s, device) && n < |s.claims| && s.claims[n].stage in {Failing, Window, Cleared}
    ensures s.claims[n].id != ""
  {
    assert ClaimOk(s, n);
    if s.claims[n].entry >= 0 {
      assert EntryOk(s, device, s.claims[n].entry);
      assert WellFormed(s.registry[s.claims[n].entry]);
    }
  }

  // At most one claim is being freed by deallocate.
  lemma OneFreeing(s: State, device: int, n: nat, k: nat)
    requires Inv(s, device) && n < |s.claims| && k < |s.claims|
    ensures s.claims[n].stage in {Freed, Cleared} && s.claims[k].stage in {Freed, Cleared} ==> n == k
  {
    assert ClaimOk(s, n) && ClaimOk(s, k);
  }

  lemma FreeKeeps(s: State, device: int)
    requires Inv(s, device) && Enabled(s, device, Free)
    ensures Inv(After(s, device, Free), device)
  {
    var r := LastActive(s.records, s.lock.va);
    assert RecordOk(s, r);
    var n := s.records[r].claim;
    assert ClaimOk(s, n) && s.claims[n].stage == Returned;
    var t := SetStage(s, n, Freed).(live := Unmap(s.live, s.claims[n].va), lock := Freeing(r));
    assert t == After(s, device, Free);
    forall k: nat | k < |t.claims| ensures ClaimOk(t, k) {
      assert ClaimOk(s, k);
      assert PairOk(s, n, k);
    }
    forall i: nat | i < |t.registry| ensures EntryOk(t, device, i) {
      assert EntryOk(s, device, i);
    }
    forall r: nat | r < |t.records| ensures RecordOk(t, r) {
      assert RecordOk(s, r);
    }
    forall j: nat, k: nat | j < |t.claims| && k < |t.claims| ensures PairOk(t, j, k) {
      assert PairOk(s, j, k);
    }
  }

  lemma ClearKeeps(s: State, device: int)
    requires Inv(s, device) && Enabled(s, device, Clear)
    ensures Inv(After(s, device, Clear), device)
  {
    var r := s.lock.record;
    assert RecordOk(s, r);
    var n := s.records[r].claim;
    assert ClaimOk(s, n) && s.claims[n].stage == Freed;
    var t := SetStage(s, n, Cleared).(records := s.records[r := s.records[r].(active := false)]);
    assert t == After(s, device, Clear);
    forall k: nat | k < |t.claims| ensures ClaimOk(t, k) {
      assert ClaimOk(s, k);
    }
    forall i: nat | i < |t.registry| ensures EntryOk(t, device, i) {
      assert EntryOk(s, device, i);
    }
    forall r: nat | r < |t.records| ensures RecordOk(t, r) {
      assert RecordOk(s, r);
    }
    forall j: nat, k: nat | j < |t.claims| && k < |t.claims| ensures PairOk(t, j, k) {
      assert PairOk(s, j, k);
    }
  }

  lemma AddFailsKeeps(s: State, device: int, k: nat)
    requires Inv(s, device) && Enabled(s, device, AddFails(k))
    ensures Inv(After(s, device, AddFails(k)), device)
  {
    assert ClaimOk(s, k);
    if s.claims[k].kind == Internal {
      FailKeeps(s, device, k);
    } else {
      ForgetKeeps(s, device, k, Dead);
    }
  }

  lemma DeactivateKeeps(s: State, device: int)
    requires Inv(s, device) && Enabled(s, device, Deactivate)
    ensures Inv(After(s, device, Deactivate), device)
  {
    var r := s.lock.record;
    assert RecordOk(s, r);
    DelistKeeps(s, device, s.records[r].claim, Dead, Open);
  }

  // Every step keeps the invariant.
  lemma StepKeeps(s: State, device: int, step: Step)
    requires Inv(s, device) && Enabled(s, device, step)
    ensures Inv(After(s, device, step), device)
  {
    match step
    case Malloc(_, _, _, _) => MallocKeeps(s, device, step);
    case Name(k) => NameKeeps(s, device, k);
    case NameFails(k) => ForgetKeeps(s, device, k, Dead);
    case Add(k, text) => ListingKeeps(s, device, k, DescriptorOf(s.claims[k], device, text));
    case AddFails(k) => AddFailsKeeps(s, device, k);
    case Push(k) => PushKeeps(s, device, k);
    case PushFails(k) => FailKeeps(s, device, k);
    case Undo(k) => DelistKeeps(s, device, k, Undone, s.lock);
    case Drop(k) => ForgetKeeps(s, device, k, Dead);
    case Enter(va) => LockKeeps(s, device, Entered(va));
    case Leave => LockKeeps(s, device, Open);
    case Free => FreeKeeps(s, device);
    case Clear => ClearKeeps(s, device);
    case Deactivate => DeactivateKeeps(s, device);
    case BufferFree(k) => ForgetKeeps(s, device, k, Window);
    case BufferDeactivate(k) => DelistKeeps(s, device, k, Dead, s.lock);
  }

  // ---- runs ----------------------------------------------------------------------

  // Any interleaving of any number of calls, from the empty process.
  function RunOf(device: int, steps: seq<Step>): State {
    if steps == [] then START
    else After(RunOf(device, steps[..|steps| - 1]), device, steps[|steps| - 1])
  }

  ghost predicate Legal(device: int, steps: seq<Step>) {
    steps == [] ||
    (Legal(device, steps[..|steps| - 1]) && Enabled(RunOf(device, steps[..|steps| - 1]), device, steps[|steps| - 1]))
  }

  lemma {:induction false} RunKeeps(device: int, steps: seq<Step>)
    requires Legal(device, steps)
    ensures Inv(RunOf(device, steps), device)
  {
    if steps == [] {
      StartOk(device);
    } else {
      var n := |steps| - 1;
      RunKeeps(device, steps[..n]);
      StepKeeps(RunOf(device, steps[..n]), device, steps[n]);
    }
  }

  // ---- what holds in every reachable state ---------------------------------------------

  ghost predicate SeesOverlap(s: State, device: int, k: nat)
    requires k < |s.claims|
  {
    exists i :: 0 <= i < |s.registry| && Overlaps(DescriptorOf(s.claims[k], device, "-"), s.registry[i])
  }

  // j's memory is freed and its registry entry still active, over a byte of k.
  predicate StaleOver(s: State, j: nat, k: nat)
    requires k < |s.claims|
  {
    && j < |s.claims| && s.claims[j].stage in {Freed, Cleared, Window}
    && !Apart(s.claims[j].va, s.claims[j].size, s.claims[k].va, s.claims[k].size)
  }

  lemma OverlapIsStale(s: State, device: int, k: nat, i: nat)
    requires Inv(s, device) && CanAdd(s, k) && i < |s.registry|
    requires Overlaps(DescriptorOf(s.claims[k], device, "-"), s.registry[i])
    ensures StaleOver(s, s.owners[i], k)
    ensures s.claims[k].kind == Internal ==> s.claims[s.owners[i]].stage == Window
  {
    var j := s.owners[i];
    assert EntryOk(s, device, i);
    assert ClaimOk(s, j);
    assert ClaimOk(s, k);
    assert PairOk(s, j, k);
    OverlapMeetsStale(s, device, j, k, i);
  }

  lemma OverlapMeetsStale(s: State, device: int, j: nat, k: nat, i: nat)
    requires |s.owners| == |s.registry| && i < |s.registry| && j < |s.claims| && j == s.owners[i] && CanAdd(s, k)
    requires EntryOk(s, device, i) && ClaimOk(s, j) && ClaimOk(s, k) && PairOk(s, j, k)
    requires Overlaps(DescriptorOf(s.claims[k], device, "-"), s.registry[i])
    ensures StaleOver(s, j, k)
    ensures s.claims[k].kind == Internal ==> s.claims[j].stage == Window
  {
    RangesMeet(DescriptorOf(s.claims[k], device, "-"), s.registry[i]);
  }

  lemma RangesMeet(d: Descriptor, e: Descriptor)
    requires d.size > 0 && e.size > 0 && Overlaps(d, e)
    ensures !Apart(e.base, e.size, d.base, d.size)
  {
  }

  lemma StaleIsOverlap(s: State, device: int, j: nat, k: nat)
    requires Inv(s, device) && CanAdd(s, k) && StaleOver(s, j, k)
    ensures SeesOverlap(s, device, k)
  {
    assert ClaimOk(s, j) && ClaimOk(s, k);
    var i: nat := s.claims[j].entry;
    assert EntryOk(s, device, i);
    assert Overlaps(DescriptorOf(s.claims[k], device, "-"), s.registry[i]);
  }

  // add_allocation of the allocator meets an overlap exactly when a DeviceBuffer
  // is between its cudaFree and its deactivate_allocation over the same bytes.
  lemma AllocatorOverlapExactly(s: State, device: int, k: nat)
    requires Inv(s, device) && At(s, k, Internal, Named)
    ensures SeesOverlap(s, device, k) <==> exists j: nat :: StaleOver(s, j, k) && s.claims[j].stage == Window
  {
    if SeesOverlap(s, device, k) {
      var i: nat :| i < |s.registry| && Overlaps(DescriptorOf(s.claims[k], device, "-"), s.registry[i]);
      OverlapIsStale(s, device, k, i);
    }
    if j: nat :| StaleOver(s, j, k) && s.claims[j].stage == Window {
      StaleIsOverlap(s, device, j, k);
    }
  }

  // That of a DeviceBuffer also while a deallocate is between the two.
  lemma BufferOverlapExactly(s: State, device: int, k: nat)
    requires Inv(s, device) && At(s, k, Runner, Fresh)
    ensures SeesOverlap(s, device, k) <==> exists j: nat :: StaleOver(s, j, k)
  {
    if SeesOverlap(s, device, k) {
      var i: nat :| i < |s.registry| && Overlaps(DescriptorOf(s.claims[k], device, "-"), s.registry[i]);
      OverlapIsStale(s, device, k, i);
    }
    if j: nat :| StaleOver(s, j, k) {
      StaleIsOverlap(s, device, j, k);
    }
  }

  predicate ReleasesBuffer(steps: seq<Step>) {
    exists i :: 0 <= i < |steps| && steps[i].BufferFree?
  }

  lemma {:induction false} NoReleaseNoWindow(device: int, steps: seq<Step>, k: nat)
    requires Legal(device, steps) && !ReleasesBuffer(steps) && k < |RunOf(device, steps).claims|
    ensures RunOf(device, steps).claims[k].stage != Window
  {
    if steps != [] {
      var n := |steps| - 1;
      var s := RunOf(device, steps[..n]);
      assert !steps[n].BufferFree? && !ReleasesBuffer(steps[..n]);
      if k < |s.claims| {
        NoReleaseNoWindow(device, steps[..n], k);
      }
      OnlyReleaseOpens(s, device, steps[n], k);
    }
  }

  lemma OnlyReleaseOpens(s: State, device: int, step: Step, k: nat)
    requires !step.BufferFree? && k < |After(s, device, step).claims|
    requires k < |s.claims| ==> s.claims[k].stage != Window
    ensures After(s, device, step).claims[k].stage != Window
  {
  }

  // In a run that releases no DeviceBuffer, no interleaving and no reuse of
  // addresses makes the allocator's add_allocation meet an overlap.
  lemma AllocatorNeverOverlaps(device: int, steps: seq<Step>, k: nat)
    requires Legal(device, steps) && !ReleasesBuffer(steps) && At(RunOf(device, steps), k, Internal, Named)
    ensures !SeesOverlap(RunOf(device, steps), device, k)
  {
    var s := RunOf(device, steps);
    RunKeeps(device, steps);
    AllocatorOverlapExactly(s, device, k);
    forall j: nat | j < |s.claims| ensures s.claims[j].stage != Window {
      NoReleaseNoWindow(device, steps, j);
    }
  }

  // Nor does it ever meet its own id.
  lemma AllocatorIdIsNew(s: State, device: int, k: nat, i: nat)
    requires Inv(s, device) && At(s, k, Internal, Named) && i < |s.registry|
    ensures s.registry[i].id != s.claims[k].id
  {
    assert ClaimOk(s, k);
    assert PREFIX[0] == 't' && s.claims[k].id != "";
    OtherIdsDiffer(s, device, k, i);
  }

  // A pointer given out has exactly one active record and exactly one active
  // registry entry; every byte behind it is looked up as its allocation.
  lemma ReturnedIsTracked(s: State, device: int, k: nat, va: Address, bit: nat)
    requires Inv(s, device) && At(s, k, Internal, Returned) && device >= 0 && bit < 8
    ensures var c := s.claims[k];
            && 0 <= c.record < |s.records| && s.records[c.record] == Record(c.va, c.id, k, true)
            && (forall r | 0 <= r < |s.records| && s.records[r].active && s.records[r].va == c.va :: r == c.record)
            && 0 <= c.entry < |s.registry| && s.registry[c.entry].active
            && (forall i | 0 <= i < |s.registry| && s.registry[i].active && s.registry[i].id == c.id :: i == c.entry)
            && (InRange(va, c) ==> (&& Reverse(s.registry, device, va, bit).Ok?
                                    && Reverse(s.registry, device, va, bit).value.id == c.id
                                    && Reverse(s.registry, device, va, bit).value.offset == va - c.va))
  {
    var c := s.claims[k];
    assert ClaimOk(s, k);
    assert RecordOk(s, c.record) && EntryOk(s, device, c.entry);
    forall r: nat | r < |s.records| && s.records[r].active && s.records[r].va == c.va ensures r == c.record {
      assert RecordOk(s, r);
      var j := s.records[r].claim;
      assert ClaimOk(s, j) && PairOk(s, j, k);
    }
    if InRange(va, c) {
      HolderIsUnique(s.registry, c.entry, va);
    }
  }

  // Freed memory is listed as active only while a deallocate that holds the mutex,
  // or a DeviceBuffer, is between cudaFree and deactivate_allocation.
  lemma DeadButActiveExactly(s: State, device: int, i: nat)
    requires Inv(s, device) && i < |s.registry|
    ensures s.owners[i] < |s.claims|
    ensures var c := s.claims[s.owners[i]];
            (s.registry[i].active && !Owns(c) <==> c.stage == Window || (c.record >= 0 && s.lock == Freeing(c.record)))
  {
    assert EntryOk(s, device, i);
    var k := s.owners[i];
    assert ClaimOk(s, k);
    if s.claims[k].record >= 0 && s.lock == Freeing(s.claims[k].record) {
      assert RecordOk(s, s.claims[k].record);
    }
  }

  // deallocate finds a record exactly for a pointer that was returned and not yet
  // given back, and then cudaFree is called on live memory.
  lemma DeallocateFindsReturned(s: State, device: int)
    requires Inv(s, device) && s.lock.Entered?
    ensures LastActive(s.records, s.lock.va) < |s.records| <==>
              exists k: nat :: At(s, k, Internal, Returned) && s.claims[k].va == s.lock.va
    ensures LastActive(s.records, s.lock.va) < |s.records| ==> s.lock.va in s.live
  {
    var r := LastActive(s.records, s.lock.va);
    if r < |s.records| {
      assert RecordOk(s, r);
      var k := s.records[r].claim;
      assert ClaimOk(s, k);
      assert At(s, k, Internal, Returned);
    }
    if k: nat :| At(s, k, Internal, Returned) && s.claims[k].va == s.lock.va {
      assert ClaimOk(s, k);
      assert RecordOk(s, s.claims[k].record);
    }
  }

  // ---- the two windows are real -------------------------------------------------------

  lemma Onward(device: int, steps: seq<Step>, step: Step, t: State) returns (more: seq<Step>)
    requires Legal(device, steps) && Enabled(RunOf(device, steps), device, step)
    requires After(RunOf(device, steps), device, step) == t
    ensures more == steps + [step] && Legal(device, more) && RunOf(device, more) == t
  {
    more := steps + [step];
    assert more[..|steps|] == steps;
  }

  // The run of a race: a held DeviceBuffer of id b, its release after cudaFree,
  // and a new allocation over the same range.
  function Buffer(stage: Stage, entry: int): Claim {
    Claim(Runner, 4096, 256, "b", stage, -1, entry, -1)
  }

  function HeldBuffer(device: int): State {
    State([Buffer(Held, 0)], map[4096 := 256], [DescriptorOf(Buffer(Fresh, -1), device, "l")], [0], [], 0, Open)
  }

  function Reused(device: int): State {
    var again := Claim(Internal, 4096, 256, InternalId(0), Named, 0, -1, -1);
    HeldBuffer(device).(claims := [Buffer(Window, 0), again], nextId := 1)
  }

  lemma HoldRun(device: int) returns (steps: seq<Step>)
    requires device >= 0
    ensures Legal(device, steps) && RunOf(device, steps) == HeldBuffer(device)
  {
    steps := Onward(device, [], Malloc(Runner, 4096, 256, "b"),
                    START.(claims := [Buffer(Fresh, -1)], live := map[4096 := 256]));
    steps := Onward(device, steps, Step.Add(0, "l"), HeldBuffer(device));
  }

  lemma ReuseRun(device: int) returns (steps: seq<Step>)
    requires device >= 0
    ensures Legal(device, steps) && RunOf(device, steps) == Reused(device)
  {
    var held := HeldBuffer(device);
    var again := Claim(Internal, 4096, 256, "", Fresh, -1, -1, -1);
    steps := HoldRun(device);
    steps := Onward(device, steps, BufferFree(0), held.(claims := [Buffer(Window, 0)], live := map[]));
    steps := Onward(device, steps, Malloc(Internal, 4096, 256, ""), held.(claims := [Buffer(Window, 0), again]));
    steps := Onward(device, steps, Name(1), Reused(device));
  }

  // A DeviceBuffer is released while TensorRT allocates: the driver hands out the
  // same range again and the registry refuses it.
  lemma ReleaseRaces(device: int)
    requires device >= 0
    ensures exists steps, k: nat :: Legal(device, steps) && At(RunOf(device, steps), k, Internal, Named)
                                    && SeesOverlap(RunOf(device, steps), device, k)
  {
    var steps := ReuseRun(device);
    var s := Reused(device);
    assert Overlaps(DescriptorOf(s.claims[1], device, "-"), s.registry[0]);
    assert At(RunOf(device, steps), 1, Internal, Named) && SeesOverlap(RunOf(device, steps), device, 1);
  }
}
