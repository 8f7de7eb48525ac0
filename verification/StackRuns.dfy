/** Runs that release in stack order: their allocations always fit. */
module StackRuns {
  import opened Regions
  import opened Areas
  import opened Paging
  import opened GenericMalloc
  import opened Invariant
  import opened Runs

  /** A release in the process, if it releases anything, takes the last region of its area. */
  predicate TakesLast(s: State, op: Op, mm: int) {
    op.OpFree? && op.task.mm == mm ==>
      var i := AreaAt(s.areas, op.task.pid, op.ptr);
      i < |s.areas| ==> RegionAt(s.areas[i].regions, op.ptr) >= |s.areas[i].regions| - 1
  }

  ghost predicate StackRun(s: State, ops: seq<Op>, mm: int)
    requires Run(s, ops)
    decreases |ops|
  {
    ops == [] || (TakesLast(s, ops[0], mm) && StackRun(Step(s, ops[0]), ops[1..], mm))
  }

  predicate Tight(a: AreaState) {
    Holes(a.regions) == 0 && a.surplus == 0
  }

  ghost predicate AllTight(areas: seq<AreaState>, mm: int) {
    forall i :: 0 <= i < |areas| && areas[i].mm == mm ==> Tight(areas[i])
  }

  lemma {:induction false} NoHoleFits(rs: seq<Region>, size: nat)
    requires Holes(rs) == 0 && size > 0
    ensures FirstFit(rs, size) == |rs|
  {
    if rs != [] {
      NoHoleFits(rs[1..], size);
    }
  }

  lemma AllocTight(a: AreaState, size: nat)
    requires AreaOk(a) && Tight(a) && 0 < size <= a.freeSpace
    ensures Tight(AllocIn(a, size))
    ensures FirstFit(a.regions, size) == |a.regions|
  {
    NoHoleFits(a.regions, size);
    PlaceSums(a.regions, a.vmStart, size);
  }

  lemma FreeLastTight(a: AreaState, i: nat)
    requires AreaOk(a) && Tight(a) && i == |a.regions| - 1
    ensures Tight(FreeIn(a, i))
  {
    var h := RunStart(a.regions, i);
    assert a.regions == a.regions[..h] + a.regions[h..];
    SumsConcat(a.regions[..h], a.regions[h..]);
  }

  lemma EmptyTight(a: AreaState)
    requires a.regions == [] && a.surplus == 0
    ensures Tight(a)
  {
  }

  lemma SameTight(a: AreaState, b: AreaState)
    requires Tight(a) && b.regions == a.regions && b.surplus == a.surplus
    ensures Tight(b)
  {
  }

  lemma TightAfter(s: State, c: State, i: nat, mm: int)
    requires ContainerOk(s, c, i) && AllTight(s.areas, mm)
    ensures AllTight(c.areas, mm)
  {
    forall j | 0 <= j < |c.areas| && c.areas[j].mm == mm
      ensures Tight(c.areas[j])
    {
      if j < |s.areas| {
        SameTight(s.areas[j], c.areas[j]);
      } else {
        EmptyTight(c.areas[j]);
      }
    }
  }

  lemma ContainerTight(s: State, task: Task, size: nat, mm: int)
    requires Inv(s) && KnowsTask(s.areas, task) && size > 0 && AllTight(s.areas, mm)
    ensures var (c, i) := Container(s, task, size);
            AllTight(c.areas, mm) && AreaOk(c.areas[i]) && c.areas[i].mm == task.mm
  {
    ContainerKeeps(s, task, size);
    var (c, i) := Container(s, task, size);
    TightAfter(s, c, i, mm);
  }

  lemma CreateTight(s: State, task: Task, size: nat, mm: int)
    requires Inv(s) && KnowsTask(s.areas, task) && size > 0 && AllTight(s.areas, mm)
    ensures task.mm == mm ==> Fits(s, task, size)
    ensures AllTight(CreateRegion(s, task, size).areas, mm)
  {
    ContainerTight(s, task, size, mm);
    var (c, i) := Container(s, task, size);
    if task.mm == mm {
      AllocTight(c.areas[i], size);
      TightFits(c.areas[i], size);
    }
  }

  lemma TightFits(a: AreaState, size: nat)
    requires AreaOk(a) && Tight(a) && size <= a.freeSpace
    ensures HasRoom(a, size)
  {
    EndIsTotal(a.regions, a.vmStart);
  }

  lemma RemoveRegionTight(s: State, task: Task, ptr: nat, mm: int)
    requires AllAreasOk(s.areas) && AllTight(s.areas, mm) && KnowsTask(s.areas, task)
    requires TakesLast(s, OpFree(task, ptr, AllSucceed()), mm)
    ensures AllTight(RemoveRegion(s, task.pid, ptr).areas, mm)
  {
    var i := AreaAt(s.areas, task.pid, ptr);
    if i < |s.areas| {
      var j := RegionAt(s.areas[i].regions, ptr);
      assert AreaOk(s.areas[i]);
      if j < |s.areas[i].regions| {
        if task.mm == mm {
          FreeLastTight(s.areas[i], j);
        }
        TightRest(WithFreed(s, i, j).areas, i, mm);
      }
    }
  }

  lemma TightRest(areas: seq<AreaState>, i: nat, mm: int)
    requires AllTight(areas, mm) && i < |areas|
    ensures AllTight(areas[..i] + areas[i + 1..], mm)
  {
    var rest := areas[..i] + areas[i + 1..];
    assert forall j :: 0 <= j < |rest| ==> rest[j] == areas[if j < i then j else j + 1];
  }

  lemma FreeTight(s: State, task: Task, ptr: nat, io: Io, mm: int)
    requires Inv(s) && KnowsTask(s.areas, task)
    requires AllTight(s.areas, mm) && TakesLast(s, OpFree(task, ptr, io), mm)
    ensures AllTight(Free(s, task.pid, ptr, io).areas, mm)
  {
    var t := s.(mem := UnmapBoth(s.mem, s.lists, task.pid, io).mem);
    RemoveRegionTight(RemoveStoragePages(t, task.pid, ptr), task, ptr, mm);
  }

  /** A process whose threads release in stack order never makes an allocation that does not fit, whatever other
      processes do. */
  lemma {:induction false} StackRunsFit(s: State, ops: seq<Op>, mm: int)
    requires Inv(s) && AllTight(s.areas, mm) && Run(s, ops) && StackRun(s, ops, mm)
    ensures AllFit(s, ops, mm)
    decreases |ops|
  {
    if ops != [] {
      StepInv(s, ops[0]);
      match ops[0] {
        case OpMalloc(task, size, io) => CreateTight(s, task, size, mm);
        case OpFree(task, ptr, io) => FreeTight(s, task, ptr, io, mm);
        case _ =>
      }
      StackRunsFit(Step(s, ops[0]), ops[1..], mm);
    }
  }
}
