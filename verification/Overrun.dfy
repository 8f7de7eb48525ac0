/** Allocations that do not fit: what a block past the end of its VMA is worth, and two runs of the allocator, all
    calls succeeding, that hand one out. */
module Overrun {
  import opened Kutils
  import opened Regions
  import opened Areas
  import opened Vmas
  import opened Paging
  import opened GenericMalloc
  import opened Invariant
  import opened FlatHeap
  import opened Runs
  import opened Concrete

  // ----- What does not fit -----

  /** An allocation fits exactly when the block handed out ends inside the VMA of its area. */
  lemma FitsIffInside(s: State, task: Task, size: nat, io: Io)
    requires Inv(s) && KnowsTask(s.areas, task) && size > 0 && AllContained(s.areas, task.mm)
    ensures var n := NewBlock(s, task, size);
            var i := Container(s, task, size).1;
            var t := Malloc(s, task, size, io);
            && i < |t.areas| && n.AsRegion() in t.areas[i].regions
            && (Fits(s, task, size) <==> n.start + n.size <= t.areas[i].vmEnd)
  {
    ContainerKeeps(s, task, size);
    var (c, i) := Container(s, task, size);
    var a := c.areas[i];
    assert AreaOk(a) && AllContained(c.areas, task.mm) && Contained(a);
    PlaceAddsOneBlock(a.regions, a.vmStart, size);
    assert Placed(a.regions, a.vmStart, size) in Live(AllocIn(a, size).regions);
    var k := FirstFit(a.regions, size);
    if k < |a.regions| {
      TilesBounds(a.regions, a.vmStart, k);
    }
  }

  /** The kernel finds a VMA with the handler for an address, by the process's list, exactly when the VMA of some
      area of the process holds the address, whichever thread the area is of. So bytes past the end of a block's VMA
      are out of reach, or in the VMA of another area. */
  lemma DeliveredIffInProcess(s: State, task: Task, address: nat)
    requires Inv(s) && OfProcess(s, task)
    ensures (exists v :: FaultDelivered(s, task, v, PageFloor(address))) <==>
            && !InTables(s.mem, task.mm, PageFloor(address))
            && exists i :: 0 <= i < |s.areas| && s.areas[i].mm == task.mm
                           && s.areas[i].vmStart <= address < s.areas[i].vmEnd
  {
    var page := PageFloor(address);
    if exists v :: FaultDelivered(s, task, v, page) {
      var v :| FaultDelivered(s, task, v, page);
      DeliveredOnArea(s, v, page);
      OnAreaHolds(s.areas, v, address);
    }
    if i :| 0 <= i < |s.areas| && s.areas[i].mm == task.mm && s.areas[i].vmStart <= address < s.areas[i].vmEnd {
      if !InTables(s.mem, task.mm, page) {
        AreaDelivers(s, task, i, address);
      }
    }
  }

  lemma OnAreaHolds(areas: seq<AreaState>, v: VmaRef, address: nat)
    requires AllAreasOk(areas) && OnArea(areas, v, PageFloor(address))
    ensures exists i :: 0 <= i < |areas| && areas[i].mm == v.mm && areas[i].vmStart <= address < areas[i].vmEnd
  {
    var page := PageFloor(address);
    var i :| 0 <= i < |areas| && areas[i].mm == v.mm && areas[i].vmStart == v.start && v.start <= page < areas[i].vmEnd;
    assert AreaOk(areas[i]);
    PageBefore(page, areas[i].vmEnd, address);
  }

  lemma AreaDelivers(s: State, task: Task, i: nat, address: nat)
    requires Inv(s) && OfProcess(s, task) && i < |s.areas| && s.areas[i].mm == task.mm
    requires s.areas[i].vmStart <= address < s.areas[i].vmEnd && !InTables(s.mem, task.mm, PageFloor(address))
    ensures FaultDelivered(s, task, VmaRef(s.areas[i].mm, s.areas[i].vmStart), PageFloor(address))
  {
    var a := s.areas[i];
    assert AreaOk(a);
    PageInsideVma(a, address);
    assert Vma(a.vmStart, a.vmEnd) in ListOf(s.lists, a.mm);
  }

  lemma PageBefore(page: nat, end: nat, address: nat)
    requires Aligned(page) && Aligned(end) && page < end && page == PageFloor(address)
    ensures address < end
  {
    AlignedApart(page, end);
  }

  /** A block that starts past the end of its VMA is not released: free looks for its area by the address, and does
      not find it. No flat heap agrees with that. (Once a later extension of the VMA reaches the block, it is found.) */
  lemma PastEndNotFreed(s: State, i: nat, x: Region, io: Io)
    requires i < |s.areas| && x in s.areas[i].regions && !x.free && s.areas[i].vmEnd <= x.start
    ensures var a := s.areas[i];
            var t := Free(s, a.pid, x.start, io);
            && IsLive(t.areas, Block(a.mm, a.pid, x.start, x.size))
            && forall h :: !Refines(t, HeapFree(h, a.pid, x.start), a.mm)
  {
    var a := s.areas[i];
    var pid := a.pid;
    var b := Block(a.mm, pid, x.start, x.size);
    var u := RemoveStoragePages(s.(mem := UnmapBoth(s.mem, s.lists, pid, io).mem), pid, x.start);
    var k := AreaAt(s.areas, pid, x.start);
    RemoveRegionIs(u, pid, x.start);
    assert x == b.AsRegion();
    if k < |s.areas| && RegionAt(s.areas[k].regions, x.start) < |s.areas[k].regions| {
      var j := RegionAt(s.areas[k].regions, x.start);
      RemoveFoundLive(u, k, j, b);
      assert WithFreed(u, k, j).areas[i] == a;
    }
    assert IsLive(Free(s, pid, x.start, io).areas, b);
  }

  // ----- The count of free bytes forgets an exact fit -----

  /** Two pages are allocated, the first is released and allocated again, and a third page is asked for. */
  function OverrunOps(): seq<Op> {
    [Get(1, 4096), Get(1, 4096), GiveBack(1, 4096), Get(1, 4096), Get(1, 4096)]
  }

  function OverrunStates(): seq<State> {
    var x, y, z := Region(4096, 4096, false), Region(8192, 4096, false), Region(12288, 4096, false);
    [Initial(map[]),
     OneArea(OneVma(), 4096, 0, [x]),
     OneArea(OneVma(), 0, 0, [x, y]),
     OneArea(OneVma(), 4096, 0, [Region(4096, 4096, true), y]),
     OneArea(OneVma(), 4096, 4096, [x, y]),
     OneArea(OneVma(), 0, 4096, [x, y, z])]
  }

  function PastEndState(): State {
    OverrunStates()[5]
  }

  lemma Overrun0()
    ensures Link(OverrunStates(), OverrunOps(), 0)
  {
    FirstMalloc(4096);
  }

  lemma Overrun1()
    ensures Link(OverrunStates(), OverrunOps(), 1)
  {
    PlacesOfRun();
    MallocInOneArea(OneVma(), 4096, 0, [Region(4096, 4096, false)], 4096);
  }

  lemma Overrun2()
    ensures Link(OverrunStates(), OverrunOps(), 2)
  {
    FreeFirst(OneVma(), 0, 4096);
  }

  lemma Overrun3()
    ensures Link(OverrunStates(), OverrunOps(), 3)
  {
    PlacesOfRun();
    MallocInOneArea(OneVma(), 4096, 0, [Region(4096, 4096, true), Region(8192, 4096, false)], 4096);
  }

  lemma Overrun4()
    ensures Link(OverrunStates(), OverrunOps(), 4)
  {
    PlacesOfRun();
    MallocInOneArea(OneVma(), 4096, 4096, [Region(4096, 4096, false), Region(8192, 4096, false)], 4096);
  }

  lemma OverrunStep(i: nat)
    requires i < 5
    ensures Link(OverrunStates(), OverrunOps(), i)
  {
    match i
    case 0 => Overrun0();
    case 1 => Overrun1();
    case 2 => Overrun2();
    case 3 => Overrun3();
    case _ => Overrun4();
  }

  lemma OverrunRuns()
    ensures Run(Initial(map[]), OverrunOps()) && After(Initial(map[]), OverrunOps()) == PastEndState()
  {
    forall i: nat | i < 5
      ensures Link(OverrunStates(), OverrunOps(), i)
    {
      OverrunStep(i);
    }
    LinksRun(OverrunStates(), OverrunOps());
  }

  /** A block in a state with one area, part of it past the end of the VMA. */
  lemma PastEnd(lists: VmaLists, freeSpace: nat, surplus: nat, rs: seq<Region>, n: nat)
    requires n < |rs| && !rs[n].free && rs[|rs| - 1].End() > 12288 && ListOf(lists, 1) == [Vma(4096, 12288)]
    ensures var s := OneArea(lists, freeSpace, surplus, rs);
            && !AllContained(s.areas, 1)
            && IsLive(s.areas, Block(1, 1, rs[n].start, rs[n].size))
            && forall v :: !FaultDelivered(s, Task(1, 1), v, 12288)
  {
    var s := OneArea(lists, freeSpace, surplus, rs);
    assert !Contained(s.areas[0]);
    assert Region(rs[n].start, rs[n].size, false) == rs[n] && rs[n] in s.areas[0].regions;
  }

  /** The exact fit was not subtracted from the free bytes, so the third page is handed out although the VMA is
      full. It lies past the end of the VMA, and no fault on it can be delivered. */
  lemma ExactFitOverrun()
    ensures Run(Initial(map[]), OverrunOps())
    ensures var s := After(Initial(map[]), OverrunOps());
            && !AllContained(s.areas, 1)
            && IsLive(s.areas, Block(1, 1, 12288, 4096))
            && forall v :: !FaultDelivered(s, Task(1, 1), v, 12288)
  {
    OverrunRuns();
    PastEnd(OneVma(), 0, 4096, PastEndState().areas[0].regions, 2);
  }

  /** The third page released: nothing happens. */
  lemma ThirdPageStays(io: Io)
    ensures Moves(PastEndState(), OpFree(Task(1, 1), 12288, io), PastEndState())
    ensures forall h :: !Refines(PastEndState(), HeapFree(h, 1, 12288), 1)
  {
    var z := Region(12288, 4096, false);
    assert AreaAt(PastEndState().areas, 1, 12288) == 1;
    assert z == PastEndState().areas[0].regions[2];
    PastEndNotFreed(PastEndState(), 0, z, io);
  }

  lemma HeapAfterLast(s: State, h: Heap, ops: seq<Op>, op: Op, mm: int)
    requires Run(s, ops + [op])
    ensures Run(s, ops)
    ensures HeapAfter(h, s, ops + [op], mm) == HeapStep(HeapAfter(h, s, ops, mm), After(s, ops), op, mm)
  {
    RunSplit(s, h, ops, [op], mm);
    var t := After(s, ops);
    assert [op][1..] == [];
    assert HeapAfter(HeapAfter(h, s, ops, mm), t, [op], mm) == HeapStep(HeapAfter(h, s, ops, mm), t, op, mm);
  }

  /** A run may end with a release that does nothing, although it names a block in use. */
  lemma EndsUnrefined(s: State, ops: seq<Op>, task: Task, ptr: nat, io: Io, t: State)
    requires Run(s, ops) && After(s, ops) == t && Moves(t, OpFree(task, ptr, io), t)
    requires forall h :: !Refines(t, HeapFree(h, task.pid, ptr), task.mm)
    ensures var all := ops + [OpFree(task, ptr, io)];
            Run(s, all) && After(s, all) == t && !Refines(t, HeapAfter(EmptyHeap(), s, all, task.mm), task.mm)
  {
    RunAppend(s, ops, OpFree(task, ptr, io), t);
    HeapAfterLast(s, EmptyHeap(), ops, OpFree(task, ptr, io), task.mm);
  }

  /** The flat heap breaks when the program releases that page: the allocator does nothing, and the block the
      program gave back stays in use. */
  lemma OverrunNeverFreed(io: Io)
    ensures var ops := OverrunOps() + [OpFree(Task(1, 1), 12288, io)];
            && Run(Initial(map[]), ops)
            && After(Initial(map[]), ops) == PastEndState()
            && !Refines(PastEndState(), HeapAfter(EmptyHeap(), Initial(map[]), ops, 1), 1)
  {
    OverrunRuns();
    ThirdPageStays(io);
    EndsUnrefined(Initial(map[]), OverrunOps(), Task(1, 1), 12288, io, PastEndState());
  }

  // ----- A hole is not room -----

  /** A page and a byte are allocated, the page is released, and 8000 bytes are asked for. */
  function HoleOps(): seq<Op> {
    [Get(1, 4096), Get(1, 1), GiveBack(1, 4096), Get(1, 8000)]
  }

  function HoleStates(): seq<State> {
    var x, y, hole := Region(4096, 4096, false), Region(8192, 1, false), Region(4096, 4096, true);
    [Initial(map[]),
     OneArea(OneVma(), 4096, 0, [x]),
     OneArea(OneVma(), 4095, 0, [x, y]),
     OneArea(OneVma(), 8191, 0, [hole, y]),
     HoleEnd()]
  }

  lemma PlacesOfHoleRun()
    ensures var x, y, hole := Region(4096, 4096, false), Region(8192, 1, false), Region(4096, 4096, true);
            && Place([x], 4096, 1) == [x, y] && !ExactFit([x], 1)
            && Place([hole, y], 4096, 8000) == [hole, y, Region(8193, 8000, false)] && !ExactFit([hole, y], 8000)
  {
    var x, y, hole := Region(4096, 4096, false), Region(8192, 1, false), Region(4096, 4096, true);
    assert [x][1..] == [] && [hole, y][1..] == [y] && [y][1..] == [];
    assert FirstFit([y], 8000) == 1;
  }

  lemma Hole0()
    ensures Link(HoleStates(), HoleOps(), 0)
  {
    FirstMalloc(4096);
  }

  lemma Hole1()
    ensures Link(HoleStates(), HoleOps(), 1)
  {
    PlacesOfHoleRun();
    MallocInOneArea(OneVma(), 4096, 0, [Region(4096, 4096, false)], 1);
  }

  lemma Hole2()
    ensures Link(HoleStates(), HoleOps(), 2)
  {
    FreeFirst(OneVma(), 4095, 1);
  }

  lemma Hole3()
    ensures Link(HoleStates(), HoleOps(), 3)
  {
    PlacesOfHoleRun();
    MallocInOneArea(OneVma(), 8191, 0, [Region(4096, 4096, true), Region(8192, 1, false)], 8000);
  }

  lemma HoleStep(i: nat)
    requires i < 4
    ensures Link(HoleStates(), HoleOps(), i)
  {
    match i
    case 0 => Hole0();
    case 1 => Hole1();
    case 2 => Hole2();
    case _ => Hole3();
  }

  lemma HoleRuns()
    ensures Run(Initial(map[]), HoleOps()) && After(Initial(map[]), HoleOps()) == HoleEnd()
  {
    forall i: nat | i < 4
      ensures Link(HoleStates(), HoleOps(), i)
    {
      HoleStep(i);
    }
    LinksRun(HoleStates(), HoleOps());
  }

  function HoleEnd(): State {
    OneArea(OneVma(), 191, 0, HoleEndRegions())
  }

  function HoleEndRegions(): seq<Region> {
    [Region(4096, 4096, true), Region(8192, 1, false), Region(8193, 8000, false)]
  }

  lemma HoleEndPast()
    ensures var s := HoleEnd();
            && |s.areas| == 1 && s.areas[0].surplus == 0 && !AllContained(s.areas, 1)
            && IsLive(s.areas, Block(1, 1, 8193, 8000))
            && forall v :: !FaultDelivered(s, Task(1, 1), v, 12288)
  {
    PastEnd(OneVma(), 191, 0, HoleEndRegions(), 2);
  }

  /** A run that overruns with no exact fit. The hole counts as free, so the request is taken, but it is too small
      for the block. */
  lemma HoleOverrunRun()
    ensures Run(Initial(map[]), HoleOps())
    ensures var s := After(Initial(map[]), HoleOps());
            && |s.areas| == 1 && s.areas[0].surplus == 0 && !AllContained(s.areas, 1)
            && IsLive(s.areas, Block(1, 1, 8193, 8000))
            && forall v :: !FaultDelivered(s, Task(1, 1), v, 12288)
  {
    HoleRuns();
    HoleEndPast();
  }
}
