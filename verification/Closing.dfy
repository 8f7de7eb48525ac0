/** What a release and the closing of a VMA leave in storage, and which faults are accepted afterwards. */
module Closing {
  import opened Kutils
  import opened Regions
  import opened Areas
  import opened Vmas
  import opened StoredPages
  import opened PageRemoval
  import opened Paging
  import opened GenericMalloc
  import opened Invariant
  import opened FlatHeap
  import opened Effects
  import opened Runs

  /** A fault on a page of an area is accepted exactly when a block in use of that area lies on the page. */
  lemma AcceptedIffUsed(s: State, i: nat, page: nat)
    requires Inv(s) && i < |s.areas| && Aligned(page)
    ensures ValidAddress(s.areas, VmaRef(s.areas[i].mm, s.areas[i].vmStart), page) <==>
            exists r :: r in Live(s.areas[i].regions) && OnPage(r, page)
  {
    var v := VmaRef(s.areas[i].mm, s.areas[i].vmStart);
    assert AreaOk(s.areas[i]);
    ValidIsOnPage(s.areas[i].regions, s.areas[i].vmStart, page);
    if ValidAddress(s.areas, v, page) {
      var j :| 0 <= j < |s.areas| && s.areas[j].mm == v.mm && s.areas[j].vmStart == v.start
               && Accepts(s.areas[j].regions, page);
      if i != j {
        DistinctPlaces(s.areas, s.lists, i, j);
      }
    }
  }

  /** When a fault is answered with SIGBUS: no block in use of an area on the VMA lies on the page, the page to be
      evicted cannot be saved, or the page faulted cannot be loaded or inserted. */
  lemma FaultFailsIff(s: State, task: Task, v: VmaRef, page: nat, io: Io)
    requires Inv(s) && FaultDelivered(s, task, v, page)
    ensures FaultFails(s, task.pid, v, page, io) <==>
            || !BlockOn(s.areas, v, page) || OldestStuck(s.mem, task.pid, io)
            || (Key(task.pid, page) in s.mem.backing.store && !io.load) || !io.insert
    ensures BlockOn(s.areas, v, page) && OldestStuck(s.mem, task.pid, io) ==>
              Exchanged(Fault(s, task.pid, v, page, io).mem.buffers[task.pid], s.mem.buffers[task.pid])
    ensures Fault(s, task.pid, v, page, io) ==
            if BlockOn(s.areas, v, page) then s.(mem := GetPage(s.mem, s.lists, task.pid, page, v, io).mem) else s
  {
    ValidIffBlockOn(s, v, page);
    PlacedExists(s, task.pid);
    NotInTables(s, task, page);
    GetPageFails(s.mem, s.lists, task.pid, page, v, io);
  }

  /** Every page lying wholly inside a released block has left storage; all that is asked is that the block start
      inside its VMA, as otherwise free does not find it. */
  lemma FreeDropsInnerPages(s: State, i: nat, x: Region, io: Io, k: Key)
    requires Inv(s) && i < |s.areas| && x in s.areas[i].regions && x.start < s.areas[i].vmEnd
    requires k.pid == s.areas[i].pid && x.start <= k.start && k.start + PAGE_SIZE <= x.End()
    ensures k !in Free(s, k.pid, x.start, io).mem.backing.store
  {
    var t := s.(mem := UnmapBoth(s.mem, s.lists, k.pid, io).mem);
    UnmapBothInv(s, k.pid, io);
    InnerPagesGo(t, i, x, k);
    RemoveRegionStore(RemoveStoragePages(t, k.pid, x.start), k.pid, x.start);
  }

  lemma InnerPagesGo(s: State, i: nat, x: Region, k: Key)
    requires Inv(s) && i < |s.areas| && x in s.areas[i].regions && x.start < s.areas[i].vmEnd
    requires k.pid == s.areas[i].pid && x.start <= k.start && k.start + PAGE_SIZE <= x.End()
    ensures k !in RemoveStoragePages(s, k.pid, x.start).mem.backing.store
  {
    RegionFound(s, i, x);
    RemovePagesIs(s, k.pid, x.start);
    InnerPagesGoFrom(s, i, RegionAt(s.areas[i].regions, x.start), k);
  }

  lemma InnerPagesGoFrom(s: State, i: nat, j: nat, k: Key)
    requires Inv(s) && i < |s.areas| && j < |s.areas[i].regions| && k.pid == s.areas[i].pid
    requires var x := s.areas[i].regions[j]; x.start <= k.start && k.start + PAGE_SIZE <= x.End()
    ensures k !in DropRegion(s.mem.backing, k.pid, s.areas[i].regions, j).store
  {
    var a := s.areas[i];
    assert AreaOk(a);
    InnerPagesDropped(s.mem.backing, k.pid, a.regions, a.vmStart, j, k);
  }

  /** After a release whose saves succeed no page of the pid is mapped. */
  lemma FreeUnmaps(s: State, pid: int, ptr: nat, io: Io)
    requires Inv(s) && NoneFails(io)
    ensures SlotsFree(Free(s, pid, ptr, io).mem, pid)
  {
    PlacedExists(s, pid);
    UnmapBothFrees(s.mem, s.lists, pid, io);
    var t := s.(mem := UnmapBoth(s.mem, s.lists, pid, io).mem);
    RemovalMapsNothing(RemoveStoragePages(t, pid, ptr), pid, ptr);
  }

  lemma RemovalMapsNothing(s: State, pid: int, ptr: nat)
    requires SlotsFree(s.mem, pid)
    ensures SlotsFree(RemoveRegion(s, pid, ptr).mem, pid)
  {
    RemoveRegionIs(s, pid, ptr);
    var i := AreaAt(s.areas, pid, ptr);
    if i < |s.areas| && RegionAt(s.areas[i].regions, ptr) < |s.areas[i].regions| {
      var t := WithFreed(s, i, RegionAt(s.areas[i].regions, ptr));
      if t.areas[i].regions == [] {
        RemoveVmaOfEmpty(t, i);
      }
    }
  }

  /** What leaves storage in a release can be removed with the region released. */
  lemma DroppedRemovable(s: State, pid: int, ptr: nat, k: Key)
    requires Inv(s)
    requires k in s.mem.backing.store && k !in RemoveStoragePages(s, pid, ptr).mem.backing.store
    ensures var i := AreaAt(s.areas, pid, ptr);
            i < |s.areas| && var j := RegionAt(s.areas[i].regions, ptr);
            j < |s.areas[i].regions| && CanRemove(k.start, j, s.areas[i].regions) && Aligned(k.start)
  {
    var i := AreaAt(s.areas, pid, ptr);
    if i < |s.areas| {
      var rs := s.areas[i].regions;
      var j := RegionAt(rs, ptr);
      if j < |rs| {
        DropPagesExactly(s.mem.backing, pid, rs, j, PageFloor(rs[j].start), PageCeil(rs[j].End()));
      }
    }
  }

  /** A page dropped by a release is refused by the fault handler as soon as the release is done. */
  lemma DroppedPagesRefused(s: State, pid: int, ptr: nat, io: Io, k: Key)
    requires Inv(s)
    requires k in UnmapBoth(s.mem, s.lists, pid, io).mem.backing.store
    requires k !in Free(s, pid, ptr, io).mem.backing.store
    ensures AreaAt(s.areas, pid, ptr) < |s.areas|
    ensures var a := s.areas[AreaAt(s.areas, pid, ptr)];
            !ValidAddress(Free(s, pid, ptr, io).areas, VmaRef(a.mm, a.vmStart), k.start)
  {
    var t := s.(mem := UnmapBoth(s.mem, s.lists, pid, io).mem);
    UnmapBothInv(s, pid, io);
    RemoveRegionStore(RemoveStoragePages(t, pid, ptr), pid, ptr);
    DroppedRemovable(t, pid, ptr, k);
    var i := AreaAt(t.areas, pid, ptr);
    var a := t.areas[i];
    var j := RegionAt(a.regions, ptr);
    assert RegionsOk(a.regions, a.vmStart) by {
      assert AreaOk(a);
    }
    DroppedIsInvalid(a.regions, a.vmStart, j, k.start);
    ReleasedAreaRefuses(RemoveStoragePages(t, pid, ptr), pid, ptr, i, j, k.start);
  }

  lemma ReleasedAreaRefuses(s: State, pid: int, ptr: nat, i: nat, j: nat, page: nat)
    requires AreasPlaced(s.areas, s.lists)
    requires i == AreaAt(s.areas, pid, ptr) < |s.areas|
    requires j == RegionAt(s.areas[i].regions, ptr) < |s.areas[i].regions|
    requires !Accepts(Release(s.areas[i].regions, j), page)
    ensures !ValidAddress(RemoveRegion(s, pid, ptr).areas, VmaRef(s.areas[i].mm, s.areas[i].vmStart), page)
  {
    var t := WithFreed(s, i, j);
    var v := VmaRef(s.areas[i].mm, s.areas[i].vmStart);
    PlacedStays(s.areas, s.lists, i, t.areas[i]);
    forall m | 0 <= m < |t.areas| && m != i
      ensures t.areas[m].mm != v.mm || t.areas[m].vmStart != v.start
    {
      DistinctPlaces(t.areas, t.lists, i, m);
    }
    assert !ValidAddress(t.areas, v, page);
    if t.areas[i].regions == [] {
      FewerAccept(t.areas, i, v, page);
    }
  }

  lemma FewerAccept(areas: seq<AreaState>, i: nat, v: VmaRef, page: nat)
    requires i < |areas| && !ValidAddress(areas, v, page)
    ensures !ValidAddress(areas[..i] + areas[i + 1..], v, page)
  {
    var rest := areas[..i] + areas[i + 1..];
    assert forall m :: 0 <= m < |rest| ==> rest[m] == areas[if m < i then m else m + 1];
  }

  // ----- How long a page stays refused -----

  /** A block in use of an area on VMA `v` lies on the page. */
  ghost predicate BlockOn(areas: seq<AreaState>, v: VmaRef, page: nat) {
    exists i, r :: 0 <= i < |areas| && areas[i].mm == v.mm && areas[i].vmStart == v.start
                   && r in Live(areas[i].regions) && OnPage(r, page)
  }

  lemma ValidIffBlockOn(s: State, v: VmaRef, page: nat)
    requires AllAreasOk(s.areas) && Aligned(page)
    ensures ValidAddress(s.areas, v, page) <==> BlockOn(s.areas, v, page)
  {
    forall i | 0 <= i < |s.areas|
      ensures Accepts(s.areas[i].regions, page) <==> exists r :: r in Live(s.areas[i].regions) && OnPage(r, page)
    {
      assert AreaOk(s.areas[i]);
      ValidIsOnPage(s.areas[i].regions, s.areas[i].vmStart, page);
    }
  }

  /** The operation allocates a block of a process on one of its pages. */
  predicate PutsOn(s: State, op: Op, mm: int, page: nat) {
    op.OpMalloc? && op.task.mm == mm && OnPage(NewRegion(s, op.task, op.size), page)
  }

  lemma MallocBlocks(s: State, task: Task, size: nat, v: VmaRef, page: nat)
    requires Inv(s) && KnowsTask(s.areas, task) && size > 0
    requires BlockOn(CreateRegion(s, task, size).areas, v, page)
    ensures BlockOn(s.areas, v, page) || (task.mm == v.mm && OnPage(NewRegion(s, task, size), page))
  {
    ContainerKeeps(s, task, size);
    ContainerOfTask(s, task, size);
    var (c, i) := Container(s, task, size);
    AllocBlocks(s, c, i, size, v, page);
  }

  lemma AllocBlocks(s: State, c: State, i: nat, size: nat, v: VmaRef, page: nat)
    requires ContainerOk(s, c, i) && 0 < size <= c.areas[i].freeSpace
    requires BlockOn(c.areas[i := AllocIn(c.areas[i], size)], v, page)
    ensures var a := c.areas[i];
            BlockOn(s.areas, v, page) || (a.mm == v.mm && OnPage(Placed(a.regions, a.vmStart, size), page))
  {
    var t := c.areas[i := AllocIn(c.areas[i], size)];
    var j, r :| 0 <= j < |t| && t[j].mm == v.mm && t[j].vmStart == v.start
                && r in Live(t[j].regions) && OnPage(r, page);
    assert AreaOk(c.areas[i]);
    PlaceLive(c.areas[i].regions, c.areas[i].vmStart, size);
    if !(j == i && r == Placed(c.areas[i].regions, c.areas[i].vmStart, size)) {
      assert r in Live(c.areas[j].regions);
      assert j < |s.areas| && c.areas[j].regions == s.areas[j].regions;
      assert r in Live(s.areas[j].regions);
    }
  }

  /** The area an allocation is made in belongs to the task's process. */
  lemma ContainerOfTask(s: State, task: Task, size: nat)
    requires KnowsTask(s.areas, task)
    ensures var (c, i) := Container(s, task, size); c.areas[i].mm == task.mm
  {
  }

  lemma FreeBlocks(s: State, pid: int, ptr: nat, io: Io, v: VmaRef, page: nat)
    requires Inv(s) && BlockOn(Free(s, pid, ptr, io).areas, v, page)
    ensures BlockOn(s.areas, v, page)
  {
    var u := RemoveStoragePages(s.(mem := UnmapBoth(s.mem, s.lists, pid, io).mem), pid, ptr);
    var i := AreaAt(s.areas, pid, ptr);
    RemoveRegionIs(u, pid, ptr);
    if i < |s.areas| && RegionAt(s.areas[i].regions, ptr) < |s.areas[i].regions| {
      FoundBlocks(u, i, RegionAt(s.areas[i].regions, ptr), v, page);
    }
  }

  lemma FoundBlocks(s: State, i: nat, j: nat, v: VmaRef, page: nat)
    requires AllAreasOk(s.areas) && i < |s.areas| && j < |s.areas[i].regions|
    requires BlockOn(RemoveFound(s, i, j).areas, v, page)
    ensures BlockOn(s.areas, v, page)
  {
    var t := WithFreed(s, i, j);
    var after := RemoveFound(s, i, j).areas;
    if t.areas[i].regions == [] {
      RemoveVmaOfEmpty(t, i);
      assert forall k :: 0 <= k < |after| ==> after[k] == t.areas[if k < i then k else k + 1];
    }
    var k, r :| 0 <= k < |t.areas| && t.areas[k].mm == v.mm && t.areas[k].vmStart == v.start
                && r in Live(t.areas[k].regions) && OnPage(r, page);
    assert AreaOk(s.areas[i]);
    ReleaseDropsOneBlock(s.areas[i].regions, s.areas[i].vmStart, j);
    assert r in Live(s.areas[k].regions);
  }

  lemma StepStaysRefused(s: State, op: Op, v: VmaRef, page: nat)
    requires Inv(s) && Delivered(s, op) && !BlockOn(s.areas, v, page) && !PutsOn(s, op, v.mm, page)
    ensures !BlockOn(Step(s, op).areas, v, page)
  {
    if BlockOn(Step(s, op).areas, v, page) {
      match op
      case OpMalloc(task, size, io) => MallocBlocks(s, task, size, v, page);
      case OpFree(task, ptr, io) => FreeBlocks(s, task.pid, ptr, io, v, page);
      case _ =>
    }
  }

  /** No allocation of the run puts a block of the process on the page. */
  ghost predicate NeverPutsOn(s: State, ops: seq<Op>, mm: int, page: nat)
    requires Run(s, ops)
    decreases |ops|
  {
    ops == [] || (!PutsOn(s, ops[0], mm, page) && NeverPutsOn(Step(s, ops[0]), ops[1..], mm, page))
  }

  /** A page that is refused stays refused, over any run of operations by anyone, until an allocation puts a
      block on it. */
  lemma {:induction false} RefusedUntilPutOn(s: State, ops: seq<Op>, v: VmaRef, page: nat)
    requires Inv(s) && Run(s, ops) && Aligned(page)
    requires !ValidAddress(s.areas, v, page) && NeverPutsOn(s, ops, v.mm, page)
    ensures !ValidAddress(After(s, ops).areas, v, page)
    decreases |ops|
  {
    if ops != [] {
      var t := Step(s, ops[0]);
      ValidIffBlockOn(s, v, page);
      StepStaysRefused(s, ops[0], v, page);
      StepInv(s, ops[0]);
      ValidIffBlockOn(t, v, page);
      RefusedUntilPutOn(t, ops[1..], v, page);
    }
  }

  /** So a page dropped by a release is refused until it is allocated again. */
  lemma DroppedStaysRefused(s: State, pid: int, ptr: nat, io: Io, k: Key, ops: seq<Op>)
    requires Inv(s) && !FreeDangles(s, pid, ptr, io) && Run(Free(s, pid, ptr, io), ops)
    requires k in UnmapBoth(s.mem, s.lists, pid, io).mem.backing.store
    requires k !in Free(s, pid, ptr, io).mem.backing.store
    requires AreaAt(s.areas, pid, ptr) < |s.areas| ==>
               NeverPutsOn(Free(s, pid, ptr, io), ops, s.areas[AreaAt(s.areas, pid, ptr)].mm, k.start)
    ensures AreaAt(s.areas, pid, ptr) < |s.areas|
    ensures var a := s.areas[AreaAt(s.areas, pid, ptr)];
            !ValidAddress(After(Free(s, pid, ptr, io), ops).areas, VmaRef(a.mm, a.vmStart), k.start)
  {
    DroppedPagesRefused(s, pid, ptr, io, k);
    UnmapBothInv(s, pid, io);
    FreeInv(s, pid, ptr, io);
    var a := s.areas[AreaAt(s.areas, pid, ptr)];
    RefusedUntilPutOn(Free(s, pid, ptr, io), ops, VmaRef(a.mm, a.vmStart), k.start);
  }

  // ----- close_vma -----

  /** Every region of the area starts inside its VMA. */
  ghost predicate StartInside(a: AreaState) {
    forall r :: r in a.regions ==> a.vmStart <= r.start < a.vmEnd
  }

  /** The state after one turn of the loop of `close_vma` in which the lookup finds the region. */
  function AfterTurn(s: State, i: nat): State
    requires i < |s.areas| && s.areas[i].regions != []
  {
    var a := s.areas[i];
    s.(areas := s.areas[i := a.(regions := a.regions[1..])],
       mem := s.mem.(backing := DropRegion(s.mem.backing, a.pid, a.regions, 0)))
  }

  /** The lookup by address finds the region at the front. */
  lemma TurnFinds(s: State, i: nat, before: VmaLists)
    requires ListsOk(before) && AreasPlaced(s.areas, before) && i < |s.areas| && s.areas[i].regions != []
    requires StartInside(s.areas[i])
    ensures CloseRegions(s, i) == CloseRegions(AfterTurn(s, i), i)
    ensures AreasPlaced(AfterTurn(s, i).areas, before) && StartInside(AfterTurn(s, i).areas[i])
  {
    var a := s.areas[i];
    assert a.regions[0] in a.regions;
    AreaAtFinds(s.(lists := before), i, a.regions[0].start);
    assert RegionAt(a.regions, a.regions[0].start) == 0;
    PlacedStays(s.areas, before, i, a.(regions := a.regions[1..]));
  }

  /** The lookups by address in the loop of `close_vma` find each region in turn, so the loop is the removal
      of all pages front to back. `before` is the VMA lists as they were while the area's VMA was still listed;
      when the close handler runs it no longer is. */
  lemma {:induction false} CloseRegionsFinds(s: State, i: nat, before: VmaLists)
    requires ListsOk(before) && AreasPlaced(s.areas, before) && i < |s.areas| && StartInside(s.areas[i])
    ensures CloseRegions(s, i) == Emptied(s, i)
    decreases |s.areas[i].regions|
  {
    if s.areas[i].regions == [] {
      assert s.areas[i := s.areas[i]] == s.areas;
    } else {
      TurnFinds(s, i, before);
      CloseRegionsFinds(AfterTurn(s, i), i, before);
      EmptiedAfterTurn(s, i);
    }
  }

  /** The area without its regions, and storage without their pages. */
  function Emptied(s: State, i: nat): State
    requires i < |s.areas|
  {
    var a := s.areas[i];
    s.(areas := s.areas[i := a.(regions := [])],
       mem := s.mem.(backing := DropAll(s.mem.backing, a.pid, a.regions)))
  }

  lemma EmptiedAfterTurn(s: State, i: nat)
    requires i < |s.areas| && s.areas[i].regions != []
    ensures Emptied(AfterTurn(s, i), i) == Emptied(s, i)
  {
    assert AfterTurn(s, i).areas[i := s.areas[i].(regions := [])] == s.areas[i := s.areas[i].(regions := [])];
  }

  /** Which pages of storage the closing of area `i` leaves. */
  ghost predicate PageOutlives(s: State, i: nat, k: Key)
    requires i < |s.areas|
  {
    k in s.mem.backing.store
    && (k.pid == s.areas[i].pid ==> forall r :: r in s.areas[i].regions ==> !OnPage(r, k.start))
  }

  /** The buffer of the pid of area `i` goes if the pid has no other area; all others stay as they are. */
  ghost predicate BufferLeaves(s: State, m: Memory, i: nat)
    requires i < |s.areas|
  {
    && (forall q :: q in m.buffers <==>
         q in s.mem.buffers
         && (q != s.areas[i].pid || exists k :: 0 <= k < |s.areas| && k != i && s.areas[k].pid == q))
    && (forall q :: q in m.buffers ==> m.buffers[q] == s.mem.buffers[q])
  }

  /** When an area closes with its regions still listed, each starting inside the VMA, no page on which any
      of them lay stays in storage, and every other stored page stays as it was. */
  lemma CloseVmaComplete(s: State, i: nat, before: VmaLists, k: Key)
    requires Inv(s.(lists := before)) && i < |s.areas|
    requires StartInside(s.areas[i])
    ensures var t := CloseVma(s, i);
            && t.areas == s.areas[..i] + s.areas[i + 1..] && t.lists == s.lists
            && BufferLeaves(s, t.mem, i)
            && BackingOk(t.mem.backing)
            && (k in t.mem.backing.store <==> PageOutlives(s, i, k))
            && (k in t.mem.backing.store ==> t.mem.backing.store[k] == s.mem.backing.store[k])
  {
    var a := s.areas[i];
    assert AreaOk(a);
    CloseRegionsFinds(s, i, before);
    OtherAreaOf(s.areas, i);
    DropAllComplete(s.mem.backing, a.pid, a.regions, a.vmStart);
    if PageOutlives(s, i, k) {
      DropAllSpares(s.mem.backing, a.pid, a.regions, a.vmStart, k);
    }
  }

  /** The same for do_munmap, which takes the VMA out of the process's list before it calls the close handler. */
  lemma RemoveVmaComplete(s: State, i: nat, k: Key)
    requires Inv(s) && i < |s.areas|
    requires StartInside(s.areas[i])
    ensures var a := s.areas[i];
            var t := RemoveVma(s, i);
            && t.areas == s.areas[..i] + s.areas[i + 1..]
            && VmaGone(s.lists, t.lists, a.mm, Vma(a.vmStart, a.vmEnd))
            && BufferLeaves(s, t.mem, i)
            && BackingOk(t.mem.backing)
            && (k in t.mem.backing.store <==> PageOutlives(s, i, k))
            && (k in t.mem.backing.store ==> t.mem.backing.store[k] == s.mem.backing.store[k])
  {
    var a := s.areas[i];
    var lists := s.lists[a.mm := Remove(ListOf(s.lists, a.mm), a.vmStart)];
    VmaLeaves(s, i);
    assert s.(lists := lists).(lists := s.lists) == s;
    CloseVmaComplete(s.(lists := lists), i, s.lists, k);
  }
}
