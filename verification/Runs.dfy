/** Runs of the allocator: any interleaving of the operations of any number of tasks, with accesses by the
    programs and changes the processes make to their own VMAs. */
module Runs {
  import opened Kutils
  import opened Regions
  import opened Areas
  import opened Vmas
  import opened StoredPages
  import opened PageRemoval
  import opened Paging
  import opened GenericMalloc
  import opened Invariant
  import opened FlatHeap
  import opened Effects

  datatype Op =
    | OpMalloc(task: Task, size: nat, io: Io)
    | OpFree(task: Task, ptr: nat, io: Io)
    | OpFault(task: Task, vma: VmaRef, page: nat, io: Io)
    | OpRead(task: Task, address: nat)
    | OpWrite(task: Task, address: nat, value: Byte)
    | OpRemap(mm: int, list: seq<Vma>)

  /** A store goes to the page that is in the page tables, whichever thread it was put there for. */
  ghost function Written(s: State, mm: int, address: nat, value: Byte): State
    requires InTables(s.mem, mm, PageFloor(address))
  {
    s.(mem := Store(s.mem, Holder(s.mem, mm, PageFloor(address)), address, value))
  }

  /** What a load returns. */
  ghost function ReadByte(m: Memory, mm: int, address: nat): Byte
    requires InTables(m, mm, PageFloor(address))
  {
    ByteAt(m, Holder(m, mm, PageFloor(address)), address)
  }

  ghost function Step(s: State, op: Op): State
    requires op.OpWrite? ==> InTables(s.mem, op.task.mm, PageFloor(op.address))
  {
    match op
    case OpMalloc(task, size, io) => Malloc(s, task, size, io)
    case OpFree(task, ptr, io) => Free(s, task.pid, ptr, io)
    case OpFault(task, vma, page, io) => Fault(s, task.pid, vma, page, io)
    case OpRead(_, _) => s
    case OpWrite(task, address, value) => Written(s, task.mm, address, value)
    case OpRemap(mm, list) => s.(lists := s.lists[mm := list])
  }

  /** What the kernel and the hardware see to: a thread keeps its process, faults are delivered for pages that are
      not in the page tables of the process, accesses go to pages that are, and a process leaves the areas' VMAs
      alone. Anything may fail, but no release may leave a slot that refers to a VMA it closes, or drop a buffer
      with a page in it. */
  ghost predicate Delivered(s: State, op: Op) {
    match op
    case OpMalloc(task, size, _) => size > 0 && OfProcess(s, task)
    case OpFree(task, ptr, io) =>
      OfProcess(s, task) && !FreeDangles(s, task.pid, ptr, io) && !FreeOrphans(s, task.pid, ptr, io)
    case OpFault(task, vma, page, _) => FaultDelivered(s, task, vma, page)
    case OpRead(task, address) => InTables(s.mem, task.mm, PageFloor(address))
    case OpWrite(task, address, _) => InTables(s.mem, task.mm, PageFloor(address))
    case OpRemap(mm, list) => VmasOk(list) && AreasPlaced(s.areas, s.lists[mm := list])
  }

  // ----- What is asked of a process -----

  /** An allocation by one of its threads fits its area. */
  predicate FitsIn(s: State, op: Op, mm: int) {
    op.OpMalloc? && op.task.mm == mm ==> Fits(s, op.task, op.size)
  }

  /** get_user_pages finds the pages mapped in it. */
  predicate PagesFound(op: Op, mm: int) {
    match op
    case OpMalloc(task, _, io) => task.mm == mm ==> Finds(io)
    case OpFree(task, _, io) => task.mm == mm ==> Finds(io)
    case OpFault(task, _, _, io) => task.mm == mm ==> Finds(io)
    case _ => true
  }

  /** A block of the thread lies on the page. */
  ghost predicate HasBlockOn(areas: seq<AreaState>, task: Task, page: nat) {
    exists b :: IsLive(areas, b) && b.mm == task.mm && b.pid == task.pid && OnPage(b.AsRegion(), page)
  }

  /** A thread that faults and is let through touches a block of its own. */
  ghost predicate TouchesOwn(s: State, op: Op, mm: int) {
    op.OpFault? && op.task.mm == mm && ValidAddress(s.areas, op.vma, op.page) ==> HasBlockOn(s.areas, op.task, op.page)
  }

  ghost predicate Run(s: State, ops: seq<Op>)
    decreases |ops|
  {
    ops == [] || (Delivered(s, ops[0]) && Run(Step(s, ops[0]), ops[1..]))
  }

  /** Every allocation that a thread of the process makes in the run fits when it is made. */
  ghost predicate AllFit(s: State, ops: seq<Op>, mm: int)
    requires Run(s, ops)
    decreases |ops|
  {
    ops == [] || (FitsIn(s, ops[0], mm) && AllFit(Step(s, ops[0]), ops[1..], mm))
  }

  /** Its pages are found, and each of its threads faults only on its own blocks. */
  ghost predicate Behaved(s: State, ops: seq<Op>, mm: int)
    requires Run(s, ops)
    decreases |ops|
  {
    ops == [] || (PagesFound(ops[0], mm) && TouchesOwn(s, ops[0], mm) && Behaved(Step(s, ops[0]), ops[1..], mm))
  }

  ghost function After(s: State, ops: seq<Op>): State
    requires Run(s, ops)
    decreases |ops|
  {
    if ops == [] then s else After(Step(s, ops[0]), ops[1..])
  }

  /** What an operation does to the flat heap of a process. Where a new block goes is the allocator's choice; a
      release in another process finds nothing in this heap. */
  ghost function HeapStep(h: Heap, s: State, op: Op, mm: int): Heap {
    match op
    case OpMalloc(task, size, _) => HeapAfterMalloc(h, s, task, size, mm)
    case OpFree(task, ptr, _) => HeapFree(h, task.pid, ptr)
    case OpWrite(task, address, value) => if task.mm == mm then HeapWrite(h, address, value) else h
    case _ => h
  }

  ghost function HeapAfter(h: Heap, s: State, ops: seq<Op>, mm: int): Heap
    requires Run(s, ops)
    decreases |ops|
  {
    if ops == [] then h else HeapAfter(HeapStep(h, s, ops[0], mm), Step(s, ops[0]), ops[1..], mm)
  }

  ghost predicate Good(s: State, h: Heap, mm: int) {
    Inv(s) && AllContained(s.areas, mm) && OwnSlots(s, mm) && Refines(s, h, mm) && HeapOk(h)
  }

  // ----- One step -----

  /** Every operation keeps the invariant, also when it does not fit. */
  lemma StepInv(s: State, op: Op)
    requires Inv(s) && Delivered(s, op)
    ensures Inv(Step(s, op))
  {
    match op
    case OpMalloc(task, size, io) => MallocInv(s, task, size, io);
    case OpFree(task, ptr, io) => FreeInv(s, task.pid, ptr, io);
    case OpFault(task, vma, page, io) => FaultInv(s, task, vma, page, io);
    case OpRead(_, _) =>
    case OpWrite(task, address, value) =>
      StoreInv(s, Holder(s.mem, task.mm, PageFloor(address)), address, value);
    case OpRemap(mm, list) =>
  }

  lemma StepContained(s: State, op: Op, mm: int)
    requires Inv(s) && Delivered(s, op) && FitsIn(s, op, mm) && AllContained(s.areas, mm)
    ensures AllContained(Step(s, op).areas, mm)
  {
    match op
    case OpMalloc(task, size, io) => CreateRegionContainedIff(s, task, size, mm);
    case OpFree(task, ptr, io) => FreeContained(s, task.pid, ptr, io, mm);
    case _ =>
  }

  // ----- Slots hold their own thread's pages -----

  lemma FewerHeldOn(m: Memory, n: Memory, p: int, v: VmaRef, page: nat)
    requires SlotsFewer(m, n) && HoldsOn(n, p, v, page)
    ensures HoldsOn(m, p, v, page)
  {
    assert SlotsAmong(n.buffers[p], m.buffers[p]);
  }

  lemma OwnsStays(before: seq<AreaState>, after: seq<AreaState>, pid: int, v: VmaRef, address: nat)
    requires SamePlaces(before, after) && Owns(before, pid, v, address)
    ensures Owns(after, pid, v, address)
  {
    var i :| 0 <= i < |before| && before[i].pid == pid && before[i].mm == v.mm && before[i].vmStart == v.start
             && v.start <= address < before[i].vmEnd;
    assert v.start <= address < after[i].vmEnd;
  }

  lemma FewerOwnSlots(s: State, t: State, mm: int)
    requires OwnSlots(s, mm) && SamePlaces(s.areas, t.areas) && SlotsFewer(s.mem, t.mem)
    ensures OwnSlots(t, mm)
  {
    forall p, v: VmaRef, page | v.mm == mm && HoldsOn(t.mem, p, v, page)
      ensures Owns(t.areas, p, v, page)
    {
      FewerHeldOn(s.mem, t.mem, p, v, page);
      OwnsStays(s.areas, t.areas, p, v, page);
    }
  }

  /** An area of the same thread is on the same VMA. */
  ghost predicate HasLike(areas: seq<AreaState>, a: AreaState) {
    exists i :: 0 <= i < |areas| && areas[i].pid == a.pid && areas[i].mm == a.mm && areas[i].vmStart == a.vmStart
  }

  ghost predicate AreasAmong(before: seq<AreaState>, after: seq<AreaState>) {
    forall j :: 0 <= j < |after| ==> HasLike(before, after[j])
  }

  lemma LeftOwnSlots(s: State, t: State, mm: int)
    requires Inv(s) && OwnSlots(s, mm) && SlotsPlaced(t) && SlotsFewer(s.mem, t.mem) && AreasAmong(s.areas, t.areas)
    ensures OwnSlots(t, mm)
  {
    forall p, v: VmaRef, page | v.mm == mm && HoldsOn(t.mem, p, v, page)
      ensures Owns(t.areas, p, v, page)
    {
      FewerHeldOn(s.mem, t.mem, p, v, page);
      assert BufferPlaced(t.areas, t.mem.buffers[p]);
      LeftOwns(s, t.areas, p, v, page);
    }
  }

  lemma LeftOwns(s: State, after: seq<AreaState>, p: int, v: VmaRef, page: nat)
    requires AreasPlaced(s.areas, s.lists) && AreasAmong(s.areas, after)
    requires Owns(s.areas, p, v, page) && OnArea(after, v, page)
    ensures Owns(after, p, v, page)
  {
    var i :| 0 <= i < |s.areas| && s.areas[i].pid == p && s.areas[i].mm == v.mm && s.areas[i].vmStart == v.start;
    var j :| 0 <= j < |after| && after[j].mm == v.mm && after[j].vmStart == v.start && v.start <= page < after[j].vmEnd;
    assert HasLike(s.areas, after[j]);
    forall k | 0 <= k < |s.areas| && k != i
      ensures s.areas[k].mm != v.mm || s.areas[k].vmStart != v.start
    {
      DistinctPlaces(s.areas, s.lists, i, k);
    }
  }

  lemma FreeAmong(s: State, pid: int, ptr: nat, io: Io)
    requires MemoryOk(s.mem)
    ensures AreasAmong(s.areas, Free(s, pid, ptr, io).areas)
    ensures SlotsFewer(s.mem, Free(s, pid, ptr, io).mem)
  {
    var m := UnmapBoth(s.mem, s.lists, pid, io).mem;
    var u := RemoveStoragePages(s.(mem := m), pid, ptr);
    UnmapBothFewer(s.mem, s.lists, pid, io);
    PagesOnly(s.(mem := m), pid, ptr);
    RemoveAmong(u, pid, ptr);
    FewerTwice(s.mem, m, u.mem, RemoveRegion(u, pid, ptr).mem);
  }

  lemma PagesOnly(s: State, pid: int, ptr: nat)
    ensures RemoveStoragePages(s, pid, ptr).areas == s.areas
    ensures RemoveStoragePages(s, pid, ptr).mem.buffers == s.mem.buffers
  {
  }

  lemma FewerTwice(m: Memory, n: Memory, n': Memory, o: Memory)
    requires SlotsFewer(m, n) && n'.buffers == n.buffers
    requires forall p :: p in o.buffers ==> p in n'.buffers && o.buffers[p] == n'.buffers[p]
    ensures SlotsFewer(m, o)
  {
  }

  lemma RemoveAmong(s: State, pid: int, ptr: nat)
    ensures AreasAmong(s.areas, RemoveRegion(s, pid, ptr).areas)
    ensures forall p :: p in RemoveRegion(s, pid, ptr).mem.buffers ==>
              p in s.mem.buffers && RemoveRegion(s, pid, ptr).mem.buffers[p] == s.mem.buffers[p]
  {
    RemoveRegionIs(s, pid, ptr);
    var i := AreaAt(s.areas, pid, ptr);
    if i < |s.areas| && RegionAt(s.areas[i].regions, ptr) < |s.areas[i].regions| {
      FoundAmong(s, i, RegionAt(s.areas[i].regions, ptr));
    } else {
      forall j | 0 <= j < |s.areas|
        ensures HasLike(s.areas, s.areas[j])
      {
      }
    }
  }

  lemma FoundAmong(s: State, i: nat, j: nat)
    requires i < |s.areas| && j < |s.areas[i].regions|
    ensures AreasAmong(s.areas, RemoveFound(s, i, j).areas)
    ensures forall p :: p in RemoveFound(s, i, j).mem.buffers ==>
              p in s.mem.buffers && RemoveFound(s, i, j).mem.buffers[p] == s.mem.buffers[p]
  {
    var t := WithFreed(s, i, j);
    var after := RemoveFound(s, i, j).areas;
    if t.areas[i].regions == [] {
      RemoveVmaOfEmpty(t, i);
      forall k | 0 <= k < |after|
        ensures HasLike(s.areas, after[k])
      {
        assert after[k] == s.areas[if k < i then k else k + 1];
      }
    } else {
      forall k | 0 <= k < |after|
        ensures HasLike(s.areas, after[k])
      {
        assert s.areas[k].pid == after[k].pid && s.areas[k].mm == after[k].mm && s.areas[k].vmStart == after[k].vmStart;
      }
    }
  }

  /** While regions lie inside their VMAs, a page with an address of a thread's block is in the VMA of that block's
      area, whatever VMA the kernel finds. */
  lemma OwnBlockOwnVma(s: State, task: Task, v: VmaRef, page: nat)
    requires Inv(s) && AllContained(s.areas, task.mm) && Aligned(page) && v.mm == task.mm
    requires HasBlockOn(s.areas, task, page) && OnArea(s.areas, v, page)
    ensures Owns(s.areas, task.pid, v, page)
  {
    var b :| IsLive(s.areas, b) && b.mm == task.mm && b.pid == task.pid && OnPage(b.AsRegion(), page);
    var x := b.AsRegion();
    var i :| 0 <= i < |s.areas| && s.areas[i].mm == b.mm && s.areas[i].pid == b.pid && x in s.areas[i].regions;
    assert AreaOk(s.areas[i]) && Contained(s.areas[i]);
    LiveInside(s.areas[i], x);
    PageOfBlock(s.areas[i], x, page);
    var j :| 0 <= j < |s.areas| && s.areas[j].mm == v.mm && s.areas[j].vmStart == v.start
             && v.start <= page < s.areas[j].vmEnd;
    if i != j {
      AreasDisjoint(s, i, j);
    }
  }

  lemma PageOfBlock(a: AreaState, x: Region, page: nat)
    requires AreaOk(a) && a.vmStart <= x.start && x.End() <= a.vmEnd && Aligned(page) && OnPage(x, page)
    ensures a.vmStart <= page < a.vmEnd
  {
    if page < a.vmStart {
      AlignedApart(page, a.vmStart);
    }
  }

  /** The slots after a fault are those before it and the page faulted. */
  lemma FaultHolds(s: State, task: Task, v: VmaRef, page: nat, io: Io)
    requires Inv(s) && FaultDelivered(s, task, v, page) && ValidAddress(s.areas, v, page)
    ensures forall p, w, at :: HoldsOn(Fault(s, task.pid, v, page, io).mem, p, w, at) ==>
              HoldsOn(s.mem, p, w, at) || (p == task.pid && w == v && at == page)
  {
    PlacedExists(s, task.pid);
    NotInTables(s, task, page);
    GetPageKeeps(s.mem, s.lists, task.pid, page, v, io);
    GetPageSlots(s.mem, s.lists, task.pid, page, v, io);
  }

  lemma FaultOwnSlots(s: State, op: Op, mm: int)
    requires Inv(s) && op.OpFault? && Delivered(s, op) && TouchesOwn(s, op, mm)
    requires AllContained(s.areas, mm) && OwnSlots(s, mm)
    ensures OwnSlots(Step(s, op), mm)
  {
    if ValidAddress(s.areas, op.vma, op.page) {
      FaultHolds(s, op.task, op.vma, op.page, op.io);
      DeliveredOnArea(s, op.vma, op.page);
      if op.task.mm == mm {
        OwnBlockOwnVma(s, op.task, op.vma, op.page);
      }
    }
  }

  lemma StepOwnSlots(s: State, op: Op, mm: int)
    requires Inv(s) && Delivered(s, op) && TouchesOwn(s, op, mm) && AllContained(s.areas, mm) && OwnSlots(s, mm)
    ensures OwnSlots(Step(s, op), mm)
  {
    match op
    case OpMalloc(task, size, io) => MallocOwnSlots(s, task, size, io, mm);
    case OpFree(task, ptr, io) =>
      StepInv(s, op);
      FreeAmong(s, task.pid, ptr, io);
      LeftOwnSlots(s, Step(s, op), mm);
    case OpFault(_, _, _, _) => FaultOwnSlots(s, op, mm);
    case OpWrite(_, _, _) => FewerOwnSlots(s, Step(s, op), mm);
    case _ =>
  }

  lemma MallocOwnSlots(s: State, task: Task, size: nat, io: Io, mm: int)
    requires Inv(s) && OfProcess(s, task) && size > 0 && OwnSlots(s, mm)
    ensures OwnSlots(Malloc(s, task, size, io), mm)
  {
    var c := CreateRegion(s, task, size);
    CreatePlaces(s, task, size);
    CreateRegionInv(s, task, size);
    UnmapBothFewer(c.mem, c.lists, task.pid, io);
    FewerOwnSlots(s, Malloc(s, task, size, io), mm);
  }

  lemma CreatePlaces(s: State, task: Task, size: nat)
    requires Inv(s) && KnowsTask(s.areas, task) && size > 0
    ensures SamePlaces(s.areas, CreateRegion(s, task, size).areas) && CreateRegion(s, task, size).mem == s.mem
  {
    ContainerKeeps(s, task, size);
    var (c, i) := Container(s, task, size);
    UpdatedPlaces(c.areas, i, AllocIn(c.areas[i], size));
    SamePlacesTrans(s.areas, c.areas, CreateRegion(s, task, size).areas);
  }

  // ----- Refinement -----

  lemma StepHeapOk(s: State, h: Heap, op: Op, mm: int)
    requires Good(s, h, mm) && Delivered(s, op) && FitsIn(s, op, mm) && PagesFound(op, mm)
    ensures HeapOk(HeapStep(h, s, op, mm))
  {
    match op
    case OpMalloc(task, size, io) =>
      MallocRefines(s, h, task, size, io, mm);
      if task.mm == mm {
        HeapMallocOk(h, NewBlock(s, task, size));
      }
    case _ =>
  }

  lemma HeapMallocOk(h: Heap, b: Block)
    requires HeapOk(h) && DisjointFrom(h, b) && b.size > 0
    ensures HeapOk(HeapMalloc(h, b))
  {
  }

  /** Each operation of the allocator, in whatever process, is one operation of the flat heap of every process. */
  lemma StepRefines(s: State, h: Heap, op: Op, mm: int)
    requires Good(s, h, mm) && Delivered(s, op)
    requires FitsIn(s, op, mm) && PagesFound(op, mm) && TouchesOwn(s, op, mm)
    ensures Good(Step(s, op), HeapStep(h, s, op, mm), mm)
  {
    StepInv(s, op);
    StepContained(s, op, mm);
    StepOwnSlots(s, op, mm);
    StepHeapOk(s, h, op, mm);
    match op
    case OpMalloc(task, size, io) => MallocRefines(s, h, task, size, io, mm);
    case OpFree(task, ptr, io) => FreeRefines(s, h, task, ptr, io, mm);
    case OpFault(task, vma, page, io) => FaultRefines(s, h, task, vma, page, io, mm);
    case OpRead(_, _) =>
    case OpWrite(task, address, value) =>
      WriteRefines(s, h, Holder(s.mem, task.mm, PageFloor(address)), task.mm, address, value, mm);
    case OpRemap(_, _) =>
  }

  // ----- Whole runs -----

  /** Over every run, whether its allocations fit or not and whatever threads touch: areas and VMAs satisfy their
      invariants, no page is in the page tables twice, the index names exactly the stored pages, the accounting law
      holds, and no area's regions run past its VMA by more than its holes and its surplus. */
  lemma {:induction false} RunInv(s: State, ops: seq<Op>)
    requires Inv(s) && Run(s, ops)
    ensures Inv(After(s, ops))
    ensures forall i :: 0 <= i < |After(s, ops).areas| ==> var a := After(s, ops).areas[i];
              && a.freeSpace == a.size - Used(a.regions) + a.surplus
              && EndOf(a.regions, a.vmStart) <= a.vmEnd + Holes(a.regions) + a.surplus
    decreases |ops|
  {
    if ops != [] {
      StepInv(s, ops[0]);
      RunInv(Step(s, ops[0]), ops[1..]);
    } else {
      forall i | 0 <= i < |s.areas|
        ensures var a := s.areas[i];
                EndOf(a.regions, a.vmStart) <= a.vmEnd + Holes(a.regions) + a.surplus
      {
        assert AreaOk(s.areas[i]);
        ContainmentBound(s.areas[i]);
      }
    }
  }

  /** The allocator refines the flat heap of each process over every run in which the process's own allocations fit
      and its threads fault only on their own blocks. Blocks of all its threads are kept apart. */
  lemma {:induction false} RunRefines(s: State, h: Heap, ops: seq<Op>, mm: int)
    requires Good(s, h, mm) && Run(s, ops) && AllFit(s, ops, mm) && Behaved(s, ops, mm)
    ensures Good(After(s, ops), HeapAfter(h, s, ops, mm), mm)
    decreases |ops|
  {
    if ops != [] {
      StepRefines(s, h, ops[0], mm);
      RunRefines(Step(s, ops[0]), HeapStep(h, s, ops[0], mm), ops[1..], mm);
    }
  }

  ghost function EmptyHeap(): Heap {
    Heap(iset{}, map[])
  }

  lemma InitialGood(lists: VmaLists, mm: int)
    requires ListsOk(lists)
    ensures Good(Initial(lists), EmptyHeap(), mm)
  {
    InitialInv(lists);
  }

  /** Over such runs from the start, no two blocks in use in a process share an address, whichever threads they
      belong to. */
  lemma BlocksStayApart(lists: VmaLists, ops: seq<Op>, b: Block, c: Block)
    requires ListsOk(lists) && b.mm == c.mm && b != c
    requires Run(Initial(lists), ops) && AllFit(Initial(lists), ops, b.mm) && Behaved(Initial(lists), ops, b.mm)
    requires IsLive(After(Initial(lists), ops).areas, b) && IsLive(After(Initial(lists), ops).areas, c)
    ensures Apart(b, c)
  {
    InitialGood(lists, b.mm);
    RunRefines(Initial(lists), EmptyHeap(), ops, b.mm);
    var h := HeapAfter(EmptyHeap(), Initial(lists), ops, b.mm);
    assert b in h.live && c in h.live;
  }

  lemma {:induction false} RunSplit(s: State, h: Heap, a: seq<Op>, b: seq<Op>, mm: int)
    requires Run(s, a + b)
    ensures Run(s, a) && Run(After(s, a), b)
    ensures AllFit(s, a + b, mm) ==> AllFit(s, a, mm) && AllFit(After(s, a), b, mm)
    ensures Behaved(s, a + b, mm) ==> Behaved(s, a, mm) && Behaved(After(s, a), b, mm)
    ensures After(s, a + b) == After(After(s, a), b)
    ensures HeapAfter(h, s, a + b, mm) == HeapAfter(HeapAfter(h, s, a, mm), After(s, a), b, mm)
    decreases |a|
  {
    if a == [] {
      assert a + b == b;
    } else {
      assert (a + b)[0] == a[0] && (a + b)[1..] == a[1..] + b;
      RunSplit(Step(s, a[0]), HeapStep(h, s, a[0], mm), a[1..], b, mm);
    }
  }

  /** The operation neither writes the address in the block's process nor releases the block. */
  predicate LeavesAlone(op: Op, b: Block, address: nat) {
    && (op.OpWrite? ==> op.task.mm != b.mm || op.address != address)
    && (op.OpFree? ==> op.task.pid != b.pid || op.ptr != b.start)
  }

  /** A byte outlives every operation that neither writes it nor releases its block. */
  lemma HeapStepKeeps(h: Heap, s: State, op: Op, b: Block, address: nat)
    requires HeapOk(h) && b in h.live && b.Has(address) && address in h.bytes && LeavesAlone(op, b, address)
    ensures var g := HeapStep(h, s, op, b.mm); b in g.live && address in g.bytes && g.bytes[address] == h.bytes[address]
  {
    if op.OpFree? {
      forall c | c in h.live && c.pid == op.task.pid && c.start == op.ptr
        ensures !c.Has(address)
      {
        assert c != b;
      }
    }
  }

  lemma {:induction false} ValueStays(s: State, h: Heap, ops: seq<Op>, b: Block, address: nat, value: Byte)
    requires Good(s, h, b.mm) && Run(s, ops) && AllFit(s, ops, b.mm) && Behaved(s, ops, b.mm)
    requires b in h.live && b.Has(address) && address in h.bytes && h.bytes[address] == value
    requires forall op :: op in ops ==> LeavesAlone(op, b, address)
    ensures var g := HeapAfter(h, s, ops, b.mm); b in g.live && address in g.bytes && g.bytes[address] == value
    decreases |ops|
  {
    if ops != [] {
      assert LeavesAlone(ops[0], b, address);
      StepRefines(s, h, ops[0], b.mm);
      HeapStepKeeps(h, s, ops[0], b, address);
      ValueStays(Step(s, ops[0]), HeapStep(h, s, ops[0], b.mm), ops[1..], b, address, value);
    }
  }

  /** What a load of any thread of the process returns is what the heap has. */
  lemma ReadAgrees(s: State, h: Heap, b: Block, address: nat)
    requires Good(s, h, b.mm) && b in h.live && b.Has(address) && address in h.bytes
    ensures ByteAt(s.mem, b.pid, address) == h.bytes[address]
    ensures InTables(s.mem, b.mm, PageFloor(address)) ==> ReadByte(s.mem, b.mm, address) == h.bytes[address]
  {
    if InTables(s.mem, b.mm, PageFloor(address)) {
      HolderOwns(s, b, address, Holder(s.mem, b.mm, PageFloor(address)));
    }
  }

  lemma ValueAfterWrite(s: State, h: Heap, w: Op, between: seq<Op>, b: Block)
    requires w.OpWrite? && w.task.mm == b.mm && Good(s, h, b.mm) && b in h.live && b.Has(w.address)
    requires Run(s, [w] + between) && AllFit(s, [w] + between, b.mm) && Behaved(s, [w] + between, b.mm)
    requires forall op :: op in between ==> LeavesAlone(op, b, w.address)
    ensures var t := After(s, [w] + between);
            && ByteAt(t.mem, b.pid, w.address) == w.value
            && (InTables(t.mem, b.mm, PageFloor(w.address)) ==> ReadByte(t.mem, b.mm, w.address) == w.value)
  {
    var ops := [w] + between;
    assert ops[0] == w && ops[1..] == between;
    StepRefines(s, h, w, b.mm);
    var s1, h1 := Step(s, w), HeapStep(h, s, w, b.mm);
    assert InLive(h, w.address);
    ValueStays(s1, h1, between, b, w.address, w.value);
    RunRefines(s1, h1, between, b.mm);
    ReadAgrees(After(s1, between), HeapAfter(h1, s1, between, b.mm), b, w.address);
  }

  /** A read returns the last value written, in every run of the allocator from its start: whatever comes between
      the write and the read (evictions, reloads, failures, splits, merges, releases of other blocks, and anything
      at all in other processes), unless it writes the byte again or releases the block. All threads of the process
      are asked to make allocations that fit and to fault only on their own blocks; any of them may write and read
      the byte. */
  lemma ReadReturnsLastWrite(lists: VmaLists, before: seq<Op>, w: Op, between: seq<Op>, b: Block)
    requires ListsOk(lists) && w.OpWrite? && w.task.mm == b.mm && b.Has(w.address)
    requires Run(Initial(lists), before + ([w] + between))
    requires AllFit(Initial(lists), before + ([w] + between), b.mm)
    requires Behaved(Initial(lists), before + ([w] + between), b.mm)
    requires Run(Initial(lists), before) && IsLive(After(Initial(lists), before).areas, b)
    requires forall op :: op in between ==> LeavesAlone(op, b, w.address)
    ensures var t := After(Initial(lists), before + ([w] + between));
            && ByteAt(t.mem, b.pid, w.address) == w.value
            && (InTables(t.mem, b.mm, PageFloor(w.address)) ==> ReadByte(t.mem, b.mm, w.address) == w.value)
  {
    var s, h := Initial(lists), EmptyHeap();
    InitialGood(lists, b.mm);
    RunSplit(s, h, before, [w] + between, b.mm);
    RunRefines(s, h, before, b.mm);
    ValueAfterWrite(After(s, before), HeapAfter(h, s, before, b.mm), w, between, b);
  }

  /** A byte of a block in use can be accessed as long as the VMA of the block's area reaches it: a fault on its
      page is accepted and, when no call fails, leaves the page in the page tables for the block's thread. */
  lemma InsideIsAccessible(s: State, i: nat, x: Region, address: nat)
    requires Inv(s) && i < |s.areas| && x in s.areas[i].regions && !x.free
    requires x.start <= address < x.End() && address < s.areas[i].vmEnd
    requires !InTables(s.mem, s.areas[i].mm, PageFloor(address))
    ensures var a := s.areas[i];
            var page := PageFloor(address);
            var op := OpFault(Task(a.pid, a.mm), VmaRef(a.mm, a.vmStart), page, AllSucceed());
            && Delivered(s, op)
            && !FaultFails(s, a.pid, op.vma, page, op.io)
            && HeldBy(Step(s, op).mem, a.pid, a.mm, page)
  {
    var a := s.areas[i];
    var task, v := Task(a.pid, a.mm), VmaRef(a.mm, a.vmStart);
    var page := PageFloor(address);
    assert AreaOk(a);
    InsidePage(a, x, address);
    OwnDelivered(s, i, page);
    PlacedExists(s, a.pid);
    NotInTables(s, task, page);
    GetPageSlots(s.mem, s.lists, a.pid, page, v, AllSucceed());
  }

  /** The kernel finds an area's VMA for the thread of that area. */
  lemma OwnDelivered(s: State, i: nat, page: nat)
    requires Inv(s) && i < |s.areas| && Aligned(page) && s.areas[i].vmStart <= page < s.areas[i].vmEnd
    requires !InTables(s.mem, s.areas[i].mm, page)
    ensures FaultDelivered(s, Task(s.areas[i].pid, s.areas[i].mm), VmaRef(s.areas[i].mm, s.areas[i].vmStart), page)
  {
    var a := s.areas[i];
    assert Vma(a.vmStart, a.vmEnd) in ListOf(s.lists, a.mm);
    forall j | 0 <= j < |s.areas| && s.areas[j].pid == a.pid
      ensures s.areas[j].mm == a.mm
    {
      SamePidSameProcess(s, i, j);
    }
    if a.pid in s.mem.buffers {
      assert BufferKnown(s.areas, a.pid, s.mem.buffers[a.pid]);
    }
  }

  lemma InsidePage(a: AreaState, x: Region, address: nat)
    requires AreaOk(a) && x in a.regions && !x.free && x.start <= address < x.End() && address < a.vmEnd
    ensures a.vmStart <= PageFloor(address) < a.vmEnd && Accepts(a.regions, PageFloor(address))
  {
    var k :| 0 <= k < |a.regions| && a.regions[k] == x;
    TilesBounds(a.regions, a.vmStart, k);
    PageInsideVma(a, address);
    PageSpan(x, PageFloor(address));
  }

  /** So while the process's allocations have fitted, every byte of its blocks is accessible to their threads. */
  lemma LiveIsAccessible(s: State, b: Block, address: nat) returns (v: VmaRef)
    requires Inv(s) && AllContained(s.areas, b.mm) && IsLive(s.areas, b) && b.Has(address)
    requires !InTables(s.mem, b.mm, PageFloor(address))
    ensures var op := OpFault(Task(b.pid, b.mm), v, PageFloor(address), AllSucceed());
            && Delivered(s, op)
            && !FaultFails(s, b.pid, v, PageFloor(address), AllSucceed())
            && HeldBy(Step(s, op).mem, b.pid, b.mm, PageFloor(address))
  {
    var x := b.AsRegion();
    var i :| 0 <= i < |s.areas| && s.areas[i].mm == b.mm && s.areas[i].pid == b.pid && x in s.areas[i].regions;
    var a := s.areas[i];
    assert AreaOk(a) && Contained(a);
    v := VmaRef(a.mm, a.vmStart);
    LiveInside(a, x);
    InsideIsAccessible(s, i, x, address);
  }

  /** The same over runs from the start. */
  lemma LiveStaysAccessible(lists: VmaLists, ops: seq<Op>, b: Block, address: nat) returns (v: VmaRef)
    requires ListsOk(lists) && Run(Initial(lists), ops)
    requires AllFit(Initial(lists), ops, b.mm) && Behaved(Initial(lists), ops, b.mm)
    requires var s := After(Initial(lists), ops);
             IsLive(s.areas, b) && b.Has(address) && !InTables(s.mem, b.mm, PageFloor(address))
    ensures var s := After(Initial(lists), ops);
            var op := OpFault(Task(b.pid, b.mm), v, PageFloor(address), AllSucceed());
            && Delivered(s, op)
            && !FaultFails(s, b.pid, v, PageFloor(address), AllSucceed())
            && HeldBy(Step(s, op).mem, b.pid, b.mm, PageFloor(address))
  {
    InitialGood(lists, b.mm);
    RunRefines(Initial(lists), EmptyHeap(), ops, b.mm);
    v := LiveIsAccessible(After(Initial(lists), ops), b, address);
  }

  /** What malloc does and returns. Room is made in area `i`, as in `c`, and that area hands out the block at `place`,
      which no block in use started at or overlaps. NULL is returned exactly when one of the pid's pages cannot be
      evicted, although the block stays in use; otherwise `place` is, and no page of the pid is left mapped. If the
      process's regions lie inside their VMAs then, the block meets no block that was in use in the process. */
  lemma MallocReturns(s: State, task: Task, size: nat, io: Io) returns (c: State, i: nat, place: nat)
    requires Inv(s) && OfProcess(s, task) && size > 0
    ensures var t := Malloc(s, task, size, io);
            var start := MallocResult(s, task, size, io);
            && place >= 4096 && start == (if BothStuck(s.mem, task.pid, io) then 0 else place)
            && Handed(s, c, t, task, size, i, place)
            && t.mem == UnmapBoth(s.mem, t.lists, task.pid, io).mem
            && (forall b :: IsLive(t.areas, b) <==> IsLive(s.areas, b) || b == Block(task.mm, task.pid, place, size))
            && (start != 0 ==> SlotsFree(t.mem, task.pid))
            && (AllContained(t.areas, task.mm) ==>
                 forall b :: IsLive(s.areas, b) && b.mm == task.mm ==>
                   b.start + b.size <= place || place + size <= b.start)
  {
    c, i := Container(s, task, size).0, Container(s, task, size).1;
    place := NewRegion(s, task, size).start;
    CreateHands(s, task, size);
    assert c.mem == s.mem;
    HandedAfter(s, c, CreateRegion(s, task, size), Malloc(s, task, size, io), task, size, i, place);
    MallocEvicts(s, task, size, io);
    NewLive(s, task, size);
  }

  /** Only areas and VMA lists matter to what has been handed out. */
  lemma HandedAfter(s: State, c: State, d: State, t: State, task: Task, size: nat, i: nat, place: nat)
    requires Handed(s, c, d, task, size, i, place) && t.areas == d.areas && t.lists == d.lists
    ensures Handed(s, c, t, task, size, i, place)
  {
  }

  /** The eviction at the end of malloc decides what is returned. */
  lemma MallocEvicts(s: State, task: Task, size: nat, io: Io)
    requires Inv(s) && OfProcess(s, task) && size > 0
    ensures NewRegion(s, task, size).start >= 4096
    ensures MallocResult(s, task, size, io) ==
            if BothStuck(s.mem, task.pid, io) then 0 else NewRegion(s, task, size).start
    ensures !BothStuck(s.mem, task.pid, io) ==> SlotsFree(Malloc(s, task, size, io).mem, task.pid)
  {
    var d := CreateRegion(s, task, size);
    assert d.mem == s.mem by {
      ContainerKeeps(s, task, size);
    }
    CreateRegionInv(s, task, size);
    PlacedExists(d, task.pid);
    UnmapBothFrees(d.mem, d.lists, task.pid, io);
    NewRegionInUse(s, task, size);
  }

  lemma NewLive(s: State, task: Task, size: nat)
    requires Inv(s) && OfProcess(s, task) && size > 0
    ensures var t, place := CreateRegion(s, task, size).areas, NewRegion(s, task, size).start;
            && (forall b :: IsLive(t, b) <==> IsLive(s.areas, b) || b == Block(task.mm, task.pid, place, size))
            && (AllContained(t, task.mm) ==>
                 forall b :: IsLive(s.areas, b) && b.mm == task.mm ==>
                   b.start + b.size <= place || place + size <= b.start)
  {
    var t, n := CreateRegion(s, task, size).areas, NewBlock(s, task, size);
    forall b
      ensures IsLive(t, b) <==> IsLive(s.areas, b) || b == n
    {
      CreatedLive(s, task, size, b);
    }
    forall b | AllContained(t, task.mm) && IsLive(s.areas, b) && b.mm == task.mm
      ensures Apart(n, b)
    {
      NewBlockApart(s, task, size, b);
    }
  }

  lemma NewRegionInUse(s: State, task: Task, size: nat)
    requires Inv(s) && KnowsTask(s.areas, task) && size > 0
    ensures IsLive(CreateRegion(s, task, size).areas, NewBlock(s, task, size))
    ensures NewRegion(s, task, size).start >= PAGE_SIZE
  {
    ContainerKeeps(s, task, size);
    var (c, i) := Container(s, task, size);
    AllocLive(s, c, i, size, NewBlock(s, task, size));
    assert AreaOk(c.areas[i]);
    PlacedStart(c.areas[i].regions, c.areas[i].vmStart, size);
    VmaAboveFirstPage(c, i);
  }

  lemma PlacedStart(rs: seq<Region>, base: nat, size: nat)
    requires RegionsOk(rs, base)
    ensures base <= Placed(rs, base, size).start
  {
    var k := FirstFit(rs, size);
    if k < |rs| {
      TilesBounds(rs, base, k);
    } else if |rs| > 0 {
      TilesBounds(rs, base, |rs| - 1);
    }
  }

  lemma VmaAboveFirstPage(s: State, i: nat)
    requires ListsOk(s.lists) && AreasPlaced(s.areas, s.lists) && i < |s.areas|
    ensures s.areas[i].vmStart >= PAGE_SIZE
  {
    var list := ListOf(s.lists, s.areas[i].mm);
    var j :| 0 <= j < |list| && list[j] == Vma(s.areas[i].vmStart, s.areas[i].vmEnd);
  }
}
