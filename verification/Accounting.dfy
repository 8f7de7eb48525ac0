/** The accounting law over whole runs: what the count of free bytes of an area is, from the operations of the run
    and the region lists they met. */
module Accounting {
  import opened Regions
  import opened Areas
  import opened Paging
  import opened GenericMalloc
  import opened Invariant
  import opened FlatHeap
  import opened Effects
  import opened Runs

  /** The area is on VMA `v`. */
  predicate IsOn(a: AreaState, v: VmaRef) {
    a.mm == v.mm && a.vmStart == v.start
  }

  /** The request goes to the area on `v`, whose lowest region with room for it has just its size. */
  ghost predicate ExactOn(s: State, pid: int, size: nat, v: VmaRef) {
    exists i: nat :: Takes(s, pid, size, i) && IsOn(s.areas[i], v) && TakesExact(s.areas[i].regions, size)
  }

  /** `ptr` is region `j` of area `i`, on `v`, which is free already. */
  ghost predicate FreeAgain(areas: seq<AreaState>, pid: int, ptr: nat, v: VmaRef, i: nat, j: nat) {
    Found(areas, pid, ptr, i, j) && IsOn(areas[i], v) && areas[i].regions[j].free
  }

  /** The bytes that an operation leaves counted free in the area on `v` although it found them free, or hands them
      out: the request where it is an exact fit, and the region where it is released again. */
  ghost function Forgotten(s: State, op: Op, v: VmaRef): nat {
    match op
    case OpMalloc(task, size, _) => if ExactOn(s, task.pid, size, v) then size else 0
    case OpFree(task, ptr, _) =>
      if i: nat, j: nat :| FreeAgain(s.areas, task.pid, ptr, v, i, j) then s.areas[i].regions[j].size else 0
    case _ => 0
  }

  /** The sum so far is `n`; it starts from nothing when the VMA gets its area. */
  ghost function SumAfter(s: State, op: Op, v: VmaRef, n: nat): nat {
    if HasHandler(s.areas, v) then n + Forgotten(s, op, v) else 0
  }

  /** The sum over a run, from `n` on. */
  ghost function AllForgotten(s: State, ops: seq<Op>, v: VmaRef, n: nat): nat
    requires Run(s, ops)
    decreases |ops|
  {
    if ops == [] then n else AllForgotten(Step(s, ops[0]), ops[1..], v, SumAfter(s, ops[0], v, n))
  }

  /** The surplus of the area on `v`, if there is one. */
  ghost predicate Books(areas: seq<AreaState>, v: VmaRef, n: nat) {
    forall i :: 0 <= i < |areas| && IsOn(areas[i], v) ==> areas[i].surplus == n
  }

  // ----- One step -----

  lemma MallocForgets(s: State, task: Task, size: nat, io: Io, v: VmaRef, n: nat)
    requires Inv(s) && OfProcess(s, task) && size > 0 && Books(s.areas, v, n)
    ensures Books(Malloc(s, task, size, io).areas, v, SumAfter(s, OpMalloc(task, size, io), v, n))
  {
    var (c, i) := Container(s, task, size);
    assert ContainerOk(s, c, i) by {
      ContainerKeeps(s, task, size);
    }
    AllocForgets(s, c, i, size, v, n);
    MallocSum(s, task, size, io, v, n);
    MallocAreas(s, task, size, io);
  }

  lemma MallocAreas(s: State, task: Task, size: nat, io: Io)
    ensures var (c, i) := Container(s, task, size);
            Malloc(s, task, size, io).areas == c.areas[i := AllocIn(c.areas[i], size)]
  {
  }

  lemma MallocSum(s: State, task: Task, size: nat, io: Io, v: VmaRef, n: nat)
    requires AreasSound(s) && size > 0
    ensures SumAfter(s, OpMalloc(task, size, io), v, n) ==
            if HasHandler(s.areas, v) then n + Exact(s.areas, Container(s, task, size).1, size, v) else 0
  {
    var (c, i) := Container(s, task, size);
    assert if NoneTakes(s, task.pid, size) then i == |s.areas| else Takes(s, task.pid, size, i) by {
      ContainerExactly(s, task, size);
    }
    TakesOnce(s, task.pid, size, i, v);
  }

  /** What a request forgets in the area it goes to. */
  ghost function Exact(areas: seq<AreaState>, i: nat, size: nat, v: VmaRef): nat {
    if i < |areas| && IsOn(areas[i], v) && TakesExact(areas[i].regions, size) then size else 0
  }

  lemma AllocForgets(s: State, c: State, i: nat, size: nat, v: VmaRef, n: nat)
    requires ContainerOk(s, c, i) && 0 < size <= c.areas[i].freeSpace && Books(s.areas, v, n)
    ensures Books(c.areas[i := AllocIn(c.areas[i], size)], v,
                  if HasHandler(s.areas, v) then n + Exact(s.areas, i, size, v) else 0)
  {
    assert AreaOk(c.areas[i]);
    AllocInOk(c.areas[i], size);
    var t := c.areas[i := AllocIn(c.areas[i], size)];
    forall k | 0 <= k < |t| && IsOn(t[k], v)
      ensures t[k].surplus == if HasHandler(s.areas, v) then n + Exact(s.areas, i, size, v) else 0
    {
      if k < |s.areas| {
        OldForgets(s, c, i, size, v, k);
      } else {
        NewPlace(s, c, i, v);
      }
    }
  }

  lemma OldForgets(s: State, c: State, i: nat, size: nat, v: VmaRef, k: nat)
    requires ContainerOk(s, c, i) && k < |s.areas| && IsOn(c.areas[k], v)
    ensures IsOn(s.areas[k], v) && c.areas[k].surplus == s.areas[k].surplus
    ensures Exact(s.areas, i, size, v) == if k == i && TakesExact(c.areas[k].regions, size) then size else 0
  {
    if k != i {
      DistinctPlaces(c.areas, c.lists, i, k);
    }
  }

  /** The request goes to one area. */
  lemma TakesOnce(s: State, pid: int, size: nat, i: nat, v: VmaRef)
    requires if NoneTakes(s, pid, size) then i == |s.areas| else Takes(s, pid, size, i)
    ensures (if ExactOn(s, pid, size, v) then size else 0) == Exact(s.areas, i, size, v)
  {
  }

  /** A new area is on a VMA that had none. */
  lemma NewPlace(s: State, c: State, i: nat, v: VmaRef)
    requires ContainerOk(s, c, i) && i == |s.areas| < |c.areas| && IsOn(c.areas[i], v)
    ensures !HasHandler(s.areas, v)
  {
    forall k | 0 <= k < |s.areas|
      ensures !IsOn(s.areas[k], v)
    {
      DistinctPlaces(c.areas, c.lists, i, k);
    }
  }

  lemma FreeForgets(s: State, task: Task, ptr: nat, io: Io, v: VmaRef, n: nat)
    requires Inv(s) && Books(s.areas, v, n)
    ensures Books(Free(s, task.pid, ptr, io).areas, v, SumAfter(s, OpFree(task, ptr, io), v, n))
  {
    FreeAreas(s, task.pid, ptr, io);
    if FindsRegion(s.areas, task.pid, ptr) {
      FoundSum(s, task, ptr, io, v, n);
    } else {
      NoneForgotten(s, task, ptr, io, v);
      NothingForgotten(s.areas, v, n);
    }
  }

  lemma FoundSum(s: State, task: Task, ptr: nat, io: Io, v: VmaRef, n: nat)
    requires AreasSound(s) && Books(s.areas, v, n) && FindsRegion(s.areas, task.pid, ptr)
    ensures var i := AreaAt(s.areas, task.pid, ptr);
            Books(RemoveFound(s, i, RegionAt(s.areas[i].regions, ptr)).areas, v,
                  SumAfter(s, OpFree(task, ptr, io), v, n))
  {
    var i := AreaAt(s.areas, task.pid, ptr);
    FoundForgets(s, i, RegionAt(s.areas[i].regions, ptr), v, n);
    ForgottenBy(s, task, ptr, io, v);
  }

  /** Evicting pages and removing stored ones leaves the areas alone. */
  lemma FreeAreas(s: State, pid: int, ptr: nat, io: Io)
    ensures Free(s, pid, ptr, io).areas ==
            if FindsRegion(s.areas, pid, ptr) then
              var i := AreaAt(s.areas, pid, ptr);
              RemoveFound(s, i, RegionAt(s.areas[i].regions, ptr)).areas
            else s.areas
  {
    var u := RemoveStoragePages(s.(mem := UnmapBoth(s.mem, s.lists, pid, io).mem), pid, ptr);
    assert u.areas == s.areas;
    RemoveRegionIs(u, pid, ptr);
    if FindsRegion(s.areas, pid, ptr) {
      var i := AreaAt(s.areas, pid, ptr);
      FoundAreas(u, i, RegionAt(s.areas[i].regions, ptr));
      FoundAreas(s, i, RegionAt(s.areas[i].regions, ptr));
    }
  }

  lemma FoundAreas(s: State, i: nat, j: nat)
    requires i < |s.areas| && j < |s.areas[i].regions|
    ensures var f := FreeIn(s.areas[i], j);
            RemoveFound(s, i, j).areas ==
            if f.regions == [] then s.areas[..i] + s.areas[i + 1..] else s.areas[i := f]
  {
    var t := WithFreed(s, i, j);
    if t.areas[i].regions == [] {
      RemoveVmaOfEmpty(t, i);
      assert t.areas[..i] == s.areas[..i] && t.areas[i + 1..] == s.areas[i + 1..];
    }
  }

  lemma NoneForgotten(s: State, task: Task, ptr: nat, io: Io, v: VmaRef)
    requires !FindsRegion(s.areas, task.pid, ptr)
    ensures Forgotten(s, OpFree(task, ptr, io), v) == 0
  {
    FoundNone(s.areas, task.pid, ptr);
  }

  lemma ForgottenBy(s: State, task: Task, ptr: nat, io: Io, v: VmaRef)
    requires FindsRegion(s.areas, task.pid, ptr)
    ensures var i := AreaAt(s.areas, task.pid, ptr);
            Forgotten(s, OpFree(task, ptr, io), v) == Again(s.areas, i, RegionAt(s.areas[i].regions, ptr), v)
  {
    var i := AreaAt(s.areas, task.pid, ptr);
    var j := RegionAt(s.areas[i].regions, ptr);
    FoundOnly(s.areas, task.pid, ptr);
    assert Found(s.areas, task.pid, ptr, i, j);
    assert FreeAgain(s.areas, task.pid, ptr, v, i, j) <==> IsOn(s.areas[i], v) && s.areas[i].regions[j].free;
  }

  /** What a release of region `j` of area `i` forgets in the area on `v`. */
  function Again(areas: seq<AreaState>, i: nat, j: nat, v: VmaRef): nat
    requires i < |areas| && j < |areas[i].regions|
  {
    if IsOn(areas[i], v) && areas[i].regions[j].free then areas[i].regions[j].size else 0
  }

  lemma FoundForgets(s: State, i: nat, j: nat, v: VmaRef, n: nat)
    requires AreasSound(s) && i < |s.areas| && j < |s.areas[i].regions| && Books(s.areas, v, n)
    ensures Books(RemoveFound(s, i, j).areas, v, if HasHandler(s.areas, v) then n + Again(s.areas, i, j, v) else 0)
  {
    var f := FreeIn(s.areas[i], j);
    var after := RemoveFound(s, i, j).areas;
    assert AreaOk(s.areas[i]);
    FreeInOk(s.areas[i], j);
    FoundAreas(s, i, j);
    forall k | 0 <= k < |after| && IsOn(after[k], v)
      ensures HasHandler(s.areas, v) && after[k].surplus == n + Again(s.areas, i, j, v)
    {
      var m := if f.regions == [] && k >= i then k + 1 else k;
      assert after[k] == (if m == i then f else s.areas[m]) && IsOn(s.areas[m], v);
      if m != i {
        DistinctPlaces(s.areas, s.lists, i, m);
      }
    }
  }

  lemma StepForgets(s: State, op: Op, v: VmaRef, n: nat)
    requires Inv(s) && Delivered(s, op) && Books(s.areas, v, n)
    ensures Books(Step(s, op).areas, v, SumAfter(s, op, v, n))
  {
    match op
    case OpMalloc(task, size, io) => MallocForgets(s, task, size, io, v, n);
    case OpFree(task, ptr, io) => FreeForgets(s, task, ptr, io, v, n);
    case _ =>
      assert Step(s, op).areas == s.areas && Forgotten(s, op, v) == 0;
      NothingForgotten(s.areas, v, n);
  }

  lemma NothingForgotten(areas: seq<AreaState>, v: VmaRef, n: nat)
    requires Books(areas, v, n)
    ensures Books(areas, v, if HasHandler(areas, v) then n else 0)
  {
  }

  // ----- Runs -----

  lemma {:induction false} RunForgets(s: State, ops: seq<Op>, v: VmaRef, n: nat)
    requires Inv(s) && Run(s, ops) && Books(s.areas, v, n)
    ensures Books(After(s, ops).areas, v, AllForgotten(s, ops, v, n))
    decreases |ops|
  {
    if ops != [] {
      StepInv(s, ops[0]);
      StepForgets(s, ops[0], v, n);
      RunForgets(Step(s, ops[0]), ops[1..], v, SumAfter(s, ops[0], v, n));
    }
  }

  /** The accounting law, over every run from the start: an area counts free the bytes of its VMA that are not in use,
      and besides them what the run has forgotten in it, which is also how far its regions can run past the VMA. */
  lemma RunAccounts(lists: VmaLists, ops: seq<Op>, i: nat)
    requires ListsOk(lists) && Run(Initial(lists), ops) && i < |After(Initial(lists), ops).areas|
    ensures var a := After(Initial(lists), ops).areas[i];
            var forgotten := AllForgotten(Initial(lists), ops, VmaRef(a.mm, a.vmStart), 0);
            && a.surplus == forgotten
            && a.freeSpace == a.vmEnd - a.vmStart - Used(a.regions) + forgotten
            && EndOf(a.regions, a.vmStart) <= a.vmEnd + Holes(a.regions) + forgotten
  {
    var a := After(Initial(lists), ops).areas[i];
    InitialInv(lists);
    RunInv(Initial(lists), ops);
    RunForgets(Initial(lists), ops, VmaRef(a.mm, a.vmStart), 0);
    assert AreaOk(a);
  }
}
