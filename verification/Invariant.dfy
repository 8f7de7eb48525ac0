/** The invariant of the whole allocator and its preservation by every operation. */
module Invariant {
  import opened Kutils
  import opened Regions
  import opened Areas
  import opened Vmas
  import opened StoredPages
  import opened PageRemoval
  import opened Paging
  import opened GenericMalloc

  ghost predicate ListsOk(lists: VmaLists) {
    forall mm :: mm in lists ==> VmasOk(lists[mm])
  }

  /** Each area's VMA is in the list of its process, no two areas are on the same VMA, and a pid lives in one
      process. */
  ghost predicate AreasPlaced(areas: seq<AreaState>, lists: VmaLists) {
    && (forall i :: 0 <= i < |areas| ==> Vma(areas[i].vmStart, areas[i].vmEnd) in ListOf(lists, areas[i].mm))
    && (forall i, j :: 0 <= i < j < |areas| ==> areas[i].mm != areas[j].mm || areas[i].vmStart != areas[j].vmStart)
    && (forall i, j :: 0 <= i < j < |areas| && areas[i].pid == areas[j].pid ==> areas[i].mm == areas[j].mm)
  }

  ghost predicate AllAreasOk(areas: seq<AreaState>) {
    forall i :: 0 <= i < |areas| ==> AreaOk(areas[i])
  }

  ghost predicate NoneEmpty(areas: seq<AreaState>) {
    forall i :: 0 <= i < |areas| ==> areas[i].regions != []
  }

  /** The regions of the areas of process `mm` lie inside their VMAs. */
  ghost predicate AllContained(areas: seq<AreaState>, mm: int) {
    forall i :: 0 <= i < |areas| && areas[i].mm == mm ==> Contained(areas[i])
  }

  /** A page of VMA `v`, which an area is on. */
  ghost predicate OnArea(areas: seq<AreaState>, v: VmaRef, address: nat) {
    exists i :: 0 <= i < |areas| && areas[i].mm == v.mm && areas[i].vmStart == v.start
                && v.start <= address < areas[i].vmEnd
  }

  /** A page of VMA `v`, which an area of `pid` is on. */
  ghost predicate Owns(areas: seq<AreaState>, pid: int, v: VmaRef, address: nat) {
    exists i :: 0 <= i < |areas| && areas[i].pid == pid && areas[i].mm == v.mm && areas[i].vmStart == v.start
                && v.start <= address < areas[i].vmEnd
  }

  /** The slots hold pages of areas. */
  ghost predicate BufferPlaced(areas: seq<AreaState>, b: Buffer) {
    && (b.vma.Some? ==> OnArea(areas, b.vma.value, b.start))
    && (b.cacheVma.Some? ==> OnArea(areas, b.cacheVma.value, b.cacheStart))
  }

  predicate InProcess(b: Buffer, mm: int) {
    (b.vma.Some? ==> b.vma.value.mm == mm) && (b.cacheVma.Some? ==> b.cacheVma.value.mm == mm)
  }

  /** A pid's slots are in the process its areas are in. */
  ghost predicate BufferKnown(areas: seq<AreaState>, pid: int, b: Buffer) {
    forall i :: 0 <= i < |areas| && areas[i].pid == pid ==> InProcess(b, areas[i].mm)
  }

  ghost predicate SlotsPlaced(s: State) {
    forall pid :: pid in s.mem.buffers ==>
      BufferPlaced(s.areas, s.mem.buffers[pid]) && BufferKnown(s.areas, pid, s.mem.buffers[pid])
  }

  /** No page of a process is in its page tables for two pids. */
  ghost predicate TablesOk(m: Memory) {
    forall p, q, mm, page :: p != q && HeldBy(m, p, mm, page) ==> !HeldBy(m, q, mm, page)
  }

  ghost predicate Inv(s: State) {
    && ListsOk(s.lists)
    && AreasPlaced(s.areas, s.lists)
    && AllAreasOk(s.areas)
    && NoneEmpty(s.areas)
    && MemoryOk(s.mem)
    && SlotsPlaced(s)
    && TablesOk(s.mem)
  }

  lemma InitialInv(lists: VmaLists)
    requires ListsOk(lists)
    ensures Inv(Initial(lists)) && forall mm :: AllContained(Initial(lists).areas, mm)
  {
  }

  // ----- Consequences -----

  lemma PlacedExists(s: State, pid: int)
    requires ListsOk(s.lists) && AreasPlaced(s.areas, s.lists) && SlotsPlaced(s)
    ensures SlotsExist(s.mem, s.lists, pid)
  {
    if pid in s.mem.buffers {
      var b := s.mem.buffers[pid];
      if b.vma.Some? {
        OnAreaExists(s, b.vma.value, b.start);
      }
      if b.cacheVma.Some? {
        OnAreaExists(s, b.cacheVma.value, b.cacheStart);
      }
    }
  }

  lemma OnAreaExists(s: State, v: VmaRef, address: nat)
    requires ListsOk(s.lists) && AreasPlaced(s.areas, s.lists) && OnArea(s.areas, v, address)
    ensures Exists(s.lists, v)
  {
    var i :| 0 <= i < |s.areas| && s.areas[i].mm == v.mm && s.areas[i].vmStart == v.start;
    IndexOfMember(ListOf(s.lists, v.mm), Vma(s.areas[i].vmStart, s.areas[i].vmEnd));
  }

  /** The VMAs of two areas of one process share no address. */
  lemma AreasDisjoint(s: State, i: nat, j: nat)
    requires ListsOk(s.lists) && AreasPlaced(s.areas, s.lists)
    requires i < |s.areas| && j < |s.areas| && i != j && s.areas[i].mm == s.areas[j].mm
    ensures s.areas[i].vmEnd <= s.areas[j].vmStart || s.areas[j].vmEnd <= s.areas[i].vmStart
  {
    var a, b := s.areas[i], s.areas[j];
    assert a.vmStart != b.vmStart by {
      if i < j { assert s.areas[i] == a; } else { assert s.areas[j] == b; }
    }
    VmasDisjoint(ListOf(s.lists, a.mm), Vma(a.vmStart, a.vmEnd), Vma(b.vmStart, b.vmEnd));
  }

  /** An address of an area of `pid` finds that area. */
  lemma AreaAtFinds(s: State, i: nat, address: nat)
    requires ListsOk(s.lists) && AreasPlaced(s.areas, s.lists)
    requires i < |s.areas| && s.areas[i].vmStart <= address < s.areas[i].vmEnd
    ensures AreaAt(s.areas, s.areas[i].pid, address) == i
  {
    var j := AreaAt(s.areas, s.areas[i].pid, address);
    assert j <= i;
    if j < i {
      assert s.areas[j].mm == s.areas[i].mm;
      AreasDisjoint(s, j, i);
    }
  }

  // ----- Changes inside one area -----

  /** The two lists have the same areas on the same VMAs, those of the second at least as long. */
  ghost predicate SamePlaces(before: seq<AreaState>, after: seq<AreaState>) {
    && |before| <= |after|
    && (forall i :: 0 <= i < |before| ==>
         && after[i].pid == before[i].pid && after[i].mm == before[i].mm
         && after[i].vmStart == before[i].vmStart && after[i].vmEnd >= before[i].vmEnd)
  }

  lemma OnAreaStays(before: seq<AreaState>, after: seq<AreaState>, v: VmaRef, address: nat)
    requires SamePlaces(before, after) && OnArea(before, v, address)
    ensures OnArea(after, v, address)
  {
    var i :| 0 <= i < |before| && before[i].mm == v.mm && before[i].vmStart == v.start
             && v.start <= address < before[i].vmEnd;
    assert v.start <= address < after[i].vmEnd;
  }

  lemma BufferPlacedStays(before: seq<AreaState>, after: seq<AreaState>, b: Buffer)
    requires SamePlaces(before, after) && BufferPlaced(before, b)
    ensures BufferPlaced(after, b)
  {
    if b.vma.Some? {
      OnAreaStays(before, after, b.vma.value, b.start);
    }
    if b.cacheVma.Some? {
      OnAreaStays(before, after, b.cacheVma.value, b.cacheStart);
    }
  }

  /** Only areas of the task, if any, are new. */
  lemma SlotsPlacedStays(s: State, t: State, task: Task)
    requires SamePlaces(s.areas, t.areas) && SlotsPlaced(s) && t.mem.buffers == s.mem.buffers && OfProcess(s, task)
    requires forall i :: |s.areas| <= i < |t.areas| ==> t.areas[i].pid == task.pid && t.areas[i].mm == task.mm
    ensures SlotsPlaced(t)
  {
    forall pid | pid in t.mem.buffers
      ensures BufferPlaced(t.areas, t.mem.buffers[pid]) && BufferKnown(t.areas, pid, t.mem.buffers[pid])
    {
      var b := s.mem.buffers[pid];
      assert BufferPlaced(s.areas, b) && BufferKnown(s.areas, pid, b);
      BufferPlacedStays(s.areas, t.areas, b);
      forall i | 0 <= i < |t.areas| && t.areas[i].pid == pid
        ensures InProcess(b, t.areas[i].mm)
      {
        if i < |s.areas| {
          assert s.areas[i].pid == pid;
        }
      }
    }
  }

  lemma SlotsPlacedUpdated(s: State, t: State)
    requires SamePlaces(s.areas, t.areas) && |t.areas| == |s.areas|
    requires SlotsPlaced(s) && t.mem.buffers == s.mem.buffers
    ensures SlotsPlaced(t)
  {
    forall pid | pid in t.mem.buffers
      ensures BufferPlaced(t.areas, t.mem.buffers[pid]) && BufferKnown(t.areas, pid, t.mem.buffers[pid])
    {
      var b := s.mem.buffers[pid];
      assert BufferPlaced(s.areas, b) && BufferKnown(s.areas, pid, b);
      BufferPlacedStays(s.areas, t.areas, b);
      forall i | 0 <= i < |t.areas| && t.areas[i].pid == pid
        ensures InProcess(b, t.areas[i].mm)
      {
        assert s.areas[i].pid == pid;
      }
    }
  }

  /** Replacing the regions and counters of one area moves nothing. */
  lemma PlacedStays(areas: seq<AreaState>, lists: VmaLists, i: nat, a: AreaState)
    requires AreasPlaced(areas, lists) && i < |areas|
    requires (a.pid, a.mm, a.vmStart, a.vmEnd) == (areas[i].pid, areas[i].mm, areas[i].vmStart, areas[i].vmEnd)
    ensures AreasPlaced(areas[i := a], lists)
  {
    var bs := areas[i := a];
    assert forall j :: 0 <= j < |areas| ==>
      (bs[j].pid, bs[j].mm, bs[j].vmStart, bs[j].vmEnd) ==
      (areas[j].pid, areas[j].mm, areas[j].vmStart, areas[j].vmEnd);
  }

  lemma UpdatedOk(areas: seq<AreaState>, i: nat, a: AreaState)
    requires AllAreasOk(areas) && i < |areas| && AreaOk(a)
    ensures AllAreasOk(areas[i := a])
  {
  }

  lemma UpdatedContained(areas: seq<AreaState>, i: nat, a: AreaState, mm: int)
    requires i < |areas| && a.mm == areas[i].mm && AllContained(areas, mm)
    ensures AllContained(areas[i := a], mm) <==> (a.mm == mm ==> Contained(a))
  {
    assert areas[i := a][i] == a;
  }

  lemma UpdatedPlaces(areas: seq<AreaState>, i: nat, a: AreaState)
    requires i < |areas| && (a.pid, a.mm, a.vmStart) == (areas[i].pid, areas[i].mm, areas[i].vmStart)
    requires a.vmEnd >= areas[i].vmEnd
    ensures SamePlaces(areas, areas[i := a])
  {
  }

  lemma AppendedOk(areas: seq<AreaState>, a: AreaState)
    requires AllAreasOk(areas) && AreaOk(a) && Contained(a)
    ensures AllAreasOk(areas + [a]) && SamePlaces(areas, areas + [a])
    ensures forall mm :: AllContained(areas, mm) ==> AllContained(areas + [a], mm)
  {
  }

  lemma SamePlacesTrans(a: seq<AreaState>, b: seq<AreaState>, c: seq<AreaState>)
    requires SamePlaces(a, b) && SamePlaces(b, c)
    ensures SamePlaces(a, c)
  {
    forall i | 0 <= i < |a|
      ensures (c[i].pid, c[i].mm, c[i].vmStart) == (a[i].pid, a[i].mm, a[i].vmStart) && c[i].vmEnd >= a[i].vmEnd
    {
      assert b[i].vmEnd >= a[i].vmEnd;
    }
  }

  /** One area's VMA grows, in its process's list as well. */
  lemma PlacedGrown(areas: seq<AreaState>, lists: VmaLists, i: nat, a: AreaState, list: seq<Vma>)
    requires AreasPlaced(areas, lists) && i < |areas|
    requires (a.pid, a.mm, a.vmStart) == (areas[i].pid, areas[i].mm, areas[i].vmStart)
    requires forall w :: w in list <==>
               (w in ListOf(lists, a.mm) && w != Vma(a.vmStart, areas[i].vmEnd)) || w == Vma(a.vmStart, a.vmEnd)
    ensures AreasPlaced(areas[i := a], lists[a.mm := list])
  {
    var bs := areas[i := a];
    forall j | 0 <= j < |bs|
      ensures Vma(bs[j].vmStart, bs[j].vmEnd) in ListOf(lists[a.mm := list], bs[j].mm)
    {
      assert Vma(areas[j].vmStart, areas[j].vmEnd) in ListOf(lists, areas[j].mm);
      if j != i {
        DistinctPlaces(areas, lists, i, j);
      }
    }
    assert forall j :: 0 <= j < |bs| ==>
      (bs[j].pid, bs[j].mm, bs[j].vmStart) == (areas[j].pid, areas[j].mm, areas[j].vmStart);
  }

  /** A new area on a new VMA. */
  lemma PlacedAppended(areas: seq<AreaState>, lists: VmaLists, a: AreaState, list: seq<Vma>)
    requires AreasPlaced(areas, lists)
    requires forall w :: w in list <==> w in ListOf(lists, a.mm) || w == Vma(a.vmStart, a.vmEnd)
    requires forall w :: w in ListOf(lists, a.mm) ==> w.start != a.vmStart
    requires forall i :: 0 <= i < |areas| && areas[i].pid == a.pid ==> areas[i].mm == a.mm
    ensures AreasPlaced(areas + [a], lists[a.mm := list])
  {
    var bs := areas + [a];
    forall j | 0 <= j < |bs|
      ensures Vma(bs[j].vmStart, bs[j].vmEnd) in ListOf(lists[a.mm := list], bs[j].mm)
      ensures j < |areas| ==> bs[j].mm != a.mm || bs[j].vmStart != a.vmStart
    {
      if j < |areas| {
        assert Vma(areas[j].vmStart, areas[j].vmEnd) in ListOf(lists, areas[j].mm);
      }
    }
  }

  /** An area gone together with its VMA. */
  lemma PlacedWithout(areas: seq<AreaState>, lists: VmaLists, i: nat, list: seq<Vma>)
    requires AreasPlaced(areas, lists) && i < |areas|
    requires forall w :: w in list <==>
               w in ListOf(lists, areas[i].mm) && w != Vma(areas[i].vmStart, areas[i].vmEnd)
    ensures AreasPlaced(areas[..i] + areas[i + 1..], lists[areas[i].mm := list])
  {
    var bs := areas[..i] + areas[i + 1..];
    assert forall j :: 0 <= j < |bs| ==> bs[j] == areas[if j < i then j else j + 1];
    forall j | 0 <= j < |bs|
      ensures Vma(bs[j].vmStart, bs[j].vmEnd) in ListOf(lists[areas[i].mm := list], bs[j].mm)
    {
      var k := if j < i then j else j + 1;
      assert Vma(areas[k].vmStart, areas[k].vmEnd) in ListOf(lists, areas[k].mm);
      DistinctPlaces(areas, lists, i, k);
    }
  }

  lemma DistinctPlaces(areas: seq<AreaState>, lists: VmaLists, i: nat, j: nat)
    requires AreasPlaced(areas, lists) && i < |areas| && j < |areas| && i != j
    ensures areas[i].mm != areas[j].mm || areas[i].vmStart != areas[j].vmStart
  {
    if j < i {
      assert areas[j].mm != areas[i].mm || areas[j].vmStart != areas[i].vmStart;
    }
  }

  // ----- Allocation -----

  ghost predicate KnowsTask(areas: seq<AreaState>, task: Task) {
    forall i :: 0 <= i < |areas| && areas[i].pid == task.pid ==> areas[i].mm == task.mm
  }

  /** The task's pid has its areas and its slots in the task's process. */
  ghost predicate OfProcess(s: State, task: Task) {
    KnowsTask(s.areas, task) && (task.pid in s.mem.buffers ==> InProcess(s.mem.buffers[task.pid], task.mm))
  }

  /** What finding or making room leaves true; the new area, if any, is still empty. */
  ghost predicate ContainerOk(s: State, c: State, i: nat) {
    && ListsOk(c.lists) && AreasPlaced(c.areas, c.lists) && AllAreasOk(c.areas)
    && SamePlaces(s.areas, c.areas) && c.mem == s.mem
    && i < |c.areas| <= |s.areas| + 1
    && (forall j :: 0 <= j < |s.areas| ==>
         c.areas[j].regions == s.areas[j].regions && c.areas[j].surplus == s.areas[j].surplus)
    && (|c.areas| > |s.areas| ==> i == |s.areas| && c.areas[i].regions == [] && c.areas[i].surplus == 0)
    && (forall mm :: AllContained(s.areas, mm) ==> AllContained(c.areas, mm))
  }

  /** The part of the invariant that concerns areas and VMAs. */
  ghost predicate AreasSound(s: State) {
    ListsOk(s.lists) && AreasPlaced(s.areas, s.lists) && AllAreasOk(s.areas)
  }

  lemma GrowKeeps(s: State, i: nat, size: nat)
    requires AreasSound(s) && i < |s.areas| && s.areas[i].freeSpace < size
    requires Serves(s.areas[i], s.lists, size)
    ensures var a := s.areas[i];
            var g := Grow(a, Extra(a, size));
            var lists := s.lists[a.mm := Widen(ListOf(s.lists, a.mm), a.vmStart, Extra(a, size))];
            && ListsOk(lists) && AreasPlaced(s.areas[i := g], lists)
            && AreaOk(g) && (Contained(a) ==> Contained(g))
  {
    var a := s.areas[i];
    var extra := Extra(a, size);
    var list := ListOf(s.lists, a.mm);
    var v := Vma(a.vmStart, a.vmEnd);
    assert AreaOk(a) && v in list;
    GrowOk(a, size);
    ExtraIsLeast(a, size);
    WidenOk(list, v, extra);
    PlacedGrown(s.areas, s.lists, i, Grow(a, extra), Widen(list, a.vmStart, extra));
  }

  /** Where a new VMA goes: a free gap, so no VMA of the process starts there. */
  lemma NewVmaOk(lists: VmaLists, mm: int, size: nat)
    requires ListsOk(lists) && size > 0
    ensures var list := ListOf(lists, mm);
            var v := NewVma(lists, mm, size);
            && Aligned(v.start) && Aligned(v.end) && v.start < v.end
            && VmasOk(Insert(list, v))
            && (forall w :: w in Insert(list, v) <==> w in list || w == v)
            && (forall w :: w in list ==> w.start != v.start)
  {
    var list := ListOf(lists, mm);
    var v := NewVma(lists, mm, size);
    FirstGapLowest(list, PAGE_SIZE, NewLength(size));
    FirstGapStart(list, NewLength(size));
    AlignedSum(v.start, NewLength(size));
    InsertOk(list, v);
  }

  lemma NewKeeps(s: State, task: Task, size: nat)
    requires ListsOk(s.lists) && AreasPlaced(s.areas, s.lists) && KnowsTask(s.areas, task) && size > 0
    ensures var c := WithNew(s, task, size);
            ListsOk(c.lists) && AreasPlaced(c.areas, c.lists)
    ensures var a := AreaOn(task, NewVma(s.lists, task.mm, size));
            AreaOk(a) && Contained(a)
  {
    var v := NewVma(s.lists, task.mm, size);
    NewVmaOk(s.lists, task.mm, size);
    NewAreaOk(task.pid, task.mm, v.start, v.end - v.start);
    PlacedAppended(s.areas, s.lists, AreaOn(task, v), Insert(ListOf(s.lists, task.mm), v));
  }

  lemma ContainerKeeps(s: State, task: Task, size: nat)
    requires AreasSound(s) && KnowsTask(s.areas, task) && size > 0
    ensures var (c, i) := Container(s, task, size);
            ContainerOk(s, c, i) && c.areas[i].pid == task.pid && c.areas[i].mm == task.mm
  {
    var i := FirstServing(s.areas, s.lists, task.pid, size);
    if i < |s.areas| {
      if s.areas[i].freeSpace < size {
        ContainerGrows(s, i, size);
      }
    } else {
      ContainerNew(s, task, size);
    }
  }

  lemma ContainerGrows(s: State, i: nat, size: nat)
    requires AreasSound(s) && i < |s.areas| && s.areas[i].freeSpace < size
    requires Serves(s.areas[i], s.lists, size)
    ensures ContainerOk(s, WithGrown(s, i, size), i)
  {
    var a := s.areas[i];
    var g := Grow(a, Extra(a, size));
    GrowKeeps(s, i, size);
    UpdatedOk(s.areas, i, g);
    UpdatedPlaces(s.areas, i, g);
    forall mm | AllContained(s.areas, mm)
      ensures AllContained(WithGrown(s, i, size).areas, mm)
    {
      assert a.mm == mm ==> Contained(a);
      UpdatedContained(s.areas, i, g, mm);
    }
  }

  lemma ContainerNew(s: State, task: Task, size: nat)
    requires AreasSound(s) && KnowsTask(s.areas, task) && size > 0
    ensures ContainerOk(s, WithNew(s, task, size), |s.areas|)
  {
    NewKeeps(s, task, size);
    AppendedOk(s.areas, AreaOn(task, NewVma(s.lists, task.mm, size)));
  }

  lemma CreateRegionInv(s: State, task: Task, size: nat)
    requires Inv(s) && OfProcess(s, task) && size > 0
    ensures Inv(CreateRegion(s, task, size))
  {
    ContainerKeeps(s, task, size);
    var (c, i) := Container(s, task, size);
    AllocKeeps(s, c, i, size, task);
  }

  lemma AllocKeeps(s: State, c: State, i: nat, size: nat, task: Task)
    requires ContainerOk(s, c, i) && c.areas[i].pid == task.pid && c.areas[i].mm == task.mm && OfProcess(s, task)
    requires NoneEmpty(s.areas) && SlotsPlaced(s) && TablesOk(s.mem) && MemoryOk(s.mem)
    requires 0 < size <= c.areas[i].freeSpace
    ensures Inv(c.(areas := c.areas[i := AllocIn(c.areas[i], size)]))
  {
    var a := AllocIn(c.areas[i], size);
    var r := c.(areas := c.areas[i := a]);
    assert AreaOk(c.areas[i]);
    AllocInOk(c.areas[i], size);
    UpdatedOk(c.areas, i, a);
    PlacedStays(c.areas, c.lists, i, a);
    UpdatedPlaces(c.areas, i, a);
    SamePlacesTrans(s.areas, c.areas, r.areas);
    SlotsPlacedStays(s, r, task);
    forall j | 0 <= j < |r.areas|
      ensures r.areas[j].regions != []
    {
      if j != i {
        assert c.areas[j].regions == s.areas[j].regions;
      }
    }
  }

  /** Whether an allocation stays inside its VMA, told from the area it will be made in. */
  predicate Fits(s: State, task: Task, size: nat) {
    var (c, i) := Container(s, task, size);
    HasRoom(c.areas[i], size)
  }

  /** The regions of a process stay inside their VMAs across an allocation by one of its threads exactly when it
      fits in this sense; an allocation by another process makes no difference to them. */
  lemma CreateRegionContainedIff(s: State, task: Task, size: nat, mm: int)
    requires Inv(s) && KnowsTask(s.areas, task) && size > 0 && AllContained(s.areas, mm)
    ensures AllContained(CreateRegion(s, task, size).areas, mm) <==> (task.mm == mm ==> Fits(s, task, size))
  {
    ContainerKeeps(s, task, size);
    var (c, i) := Container(s, task, size);
    AllocKeepsContained(c.areas, i, size, mm);
  }

  lemma AllocKeepsContained(areas: seq<AreaState>, i: nat, size: nat, mm: int)
    requires AllAreasOk(areas) && AllContained(areas, mm) && i < |areas| && 0 < size <= areas[i].freeSpace
    ensures AllContained(areas[i := AllocIn(areas[i], size)], mm) <==> (areas[i].mm == mm ==> HasRoom(areas[i], size))
  {
    assert AreaOk(areas[i]);
    if areas[i].mm == mm {
      AllocContainedIff(areas[i], size);
    }
    UpdatedContained(areas, i, AllocIn(areas[i], size), mm);
  }

  // ----- Memory -----

  lemma AmongPlaced(areas: seq<AreaState>, pid: int, a: Buffer, b: Buffer)
    requires BufferPlaced(areas, b) && BufferKnown(areas, pid, b) && SlotsAmong(a, b)
    ensures BufferPlaced(areas, a) && BufferKnown(areas, pid, a)
  {
    forall i | 0 <= i < |areas| && areas[i].pid == pid
      ensures InProcess(a, areas[i].mm)
    {
      assert InProcess(b, areas[i].mm);
    }
  }

  /** Every slot of the second memory is one of the first. */
  ghost predicate SlotsFewer(m: Memory, n: Memory) {
    forall p :: p in n.buffers ==> p in m.buffers && SlotsAmong(n.buffers[p], m.buffers[p])
  }

  lemma FewerTablesOk(m: Memory, n: Memory)
    requires TablesOk(m) && SlotsFewer(m, n)
    ensures TablesOk(n)
  {
    forall p, q, mm, page | p != q && HeldBy(n, p, mm, page)
      ensures !HeldBy(n, q, mm, page)
    {
      FewerHeld(m, n, p, mm, page);
      if HeldBy(n, q, mm, page) {
        FewerHeld(m, n, q, mm, page);
      }
    }
  }

  lemma FewerHeld(m: Memory, n: Memory, p: int, mm: int, page: nat)
    requires SlotsFewer(m, n) && HeldBy(n, p, mm, page)
    ensures HeldBy(m, p, mm, page)
  {
    assert SlotsAmong(n.buffers[p], m.buffers[p]);
  }

  lemma FewerPlaced(s: State, m: Memory)
    requires SlotsPlaced(s) && SlotsFewer(s.mem, m)
    ensures SlotsPlaced(s.(mem := m))
  {
    forall q | q in m.buffers
      ensures BufferPlaced(s.areas, m.buffers[q]) && BufferKnown(s.areas, q, m.buffers[q])
    {
      assert BufferPlaced(s.areas, s.mem.buffers[q]) && BufferKnown(s.areas, q, s.mem.buffers[q]);
      AmongPlaced(s.areas, q, m.buffers[q], s.mem.buffers[q]);
    }
  }

  lemma UnmapBothFewer(m: Memory, lists: VmaLists, pid: int, io: Io)
    requires MemoryOk(m)
    ensures SlotsFewer(m, UnmapBoth(m, lists, pid, io).mem)
  {
    UnmapBothKeeps(m, lists, pid, io);
  }

  /** Eviction keeps the invariant, whatever fails. */
  lemma UnmapBothInv(s: State, pid: int, io: Io)
    requires Inv(s)
    ensures Inv(s.(mem := UnmapBoth(s.mem, s.lists, pid, io).mem))
  {
    var m := UnmapBoth(s.mem, s.lists, pid, io).mem;
    UnmapBothKeeps(s.mem, s.lists, pid, io);
    UnmapBothFewer(s.mem, s.lists, pid, io);
    FewerPlaced(s, m);
    FewerTablesOk(s.mem, m);
  }

  /** malloc keeps the invariant whatever fails, except for a request of 0 bytes, which puts an empty region
      into the list. */
  lemma MallocInv(s: State, task: Task, size: nat, io: Io)
    requires Inv(s) && OfProcess(s, task)
    ensures Inv(Malloc(s, task, size, io)) <==> size > 0
  {
    if size > 0 {
      CreateRegionInv(s, task, size);
      UnmapBothInv(CreateRegion(s, task, size), task.pid, io);
    } else {
      EmptyRegionBreaks(s, task);
    }
  }

  lemma EmptyRegionBreaks(s: State, task: Task)
    requires Inv(s)
    ensures !AllAreasOk(CreateRegion(s, task, 0).areas)
  {
    var (c, i) := Container(s, task, 0);
    PlaceOkIff(c.areas[i].regions, c.areas[i].vmStart, 0);
    assert !AreaOk(CreateRegion(s, task, 0).areas[i]);
  }

  /** The VMA that starts at `start` is in the list and holds the address. */
  ghost predicate ListHolds(list: seq<Vma>, start: nat, address: nat) {
    exists w :: w in list && w.start == start && start <= address < w.end
  }

  /** `add_vma` made the VMA, so it has the fault handler. */
  ghost predicate HasHandler(areas: seq<AreaState>, v: VmaRef) {
    exists i :: 0 <= i < |areas| && areas[i].mm == v.mm && areas[i].vmStart == v.start
  }

  /** The kernel delivers a fault of a thread on a page that is not in the process's page tables, with the VMA
      that holds the page in the process's list; whose area that VMA belongs to makes no difference. */
  ghost predicate FaultDelivered(s: State, task: Task, v: VmaRef, page: nat) {
    && Aligned(page) && OfProcess(s, task) && v.mm == task.mm
    && ListHolds(ListOf(s.lists, v.mm), v.start, page) && HasHandler(s.areas, v)
    && !InTables(s.mem, task.mm, page)
  }

  lemma DeliveredOnArea(s: State, v: VmaRef, page: nat)
    requires ListsOk(s.lists) && AreasPlaced(s.areas, s.lists)
    requires ListHolds(ListOf(s.lists, v.mm), v.start, page) && HasHandler(s.areas, v)
    ensures OnArea(s.areas, v, page)
  {
    var list := ListOf(s.lists, v.mm);
    var w :| w in list && w.start == v.start && v.start <= page < w.end;
    var i :| 0 <= i < |s.areas| && s.areas[i].mm == v.mm && s.areas[i].vmStart == v.start;
    IndexOfMember(list, w);
    IndexOfMember(list, Vma(s.areas[i].vmStart, s.areas[i].vmEnd));
    assert s.areas[i].vmEnd == w.end;
  }

  lemma NotInTables(s: State, task: Task, page: nat)
    requires OfProcess(s, task) && !InTables(s.mem, task.mm, page)
    ensures !Mapped(s.mem, Key(task.pid, page))
  {
    assert !HeldBy(s.mem, task.pid, task.mm, page);
  }

  lemma FaultInv(s: State, task: Task, v: VmaRef, page: nat, io: Io)
    requires Inv(s) && FaultDelivered(s, task, v, page)
    ensures Inv(Fault(s, task.pid, v, page, io))
  {
    var pid := task.pid;
    if ValidAddress(s.areas, v, page) {
      PlacedExists(s, pid);
      NotInTables(s, task, page);
      DeliveredOnArea(s, v, page);
      GetPageKeeps(s.mem, s.lists, pid, page, v, io);
      GetPageSlots(s.mem, s.lists, pid, page, v, io);
      var g := GetPage(s.mem, s.lists, pid, page, v, io);
      if g.failed {
        FailedFewer(s.mem, g.mem, pid);
        FailedPlaced(s, g.mem, pid);
        FailedTablesOk(s.mem, g.mem, pid);
      } else {
        FaultPlaced(s, task, v, page, g.mem);
        FaultTablesOk(s.mem, g.mem, task, v, page);
      }
    }
  }

  /** After a failed fault a pid's slots are among those it had; a buffer just made has none. */
  ghost predicate FaultFailed(m: Memory, n: Memory, pid: int) {
    && (forall q :: q != pid ==> (q in n.buffers <==> q in m.buffers))
    && (forall q :: q in m.buffers && q != pid ==> n.buffers[q] == m.buffers[q])
    && (pid in m.buffers ==> pid in n.buffers && SlotsAmong(n.buffers[pid], m.buffers[pid]))
    && (pid !in m.buffers && pid in n.buffers ==>
         n.buffers[pid].vma == None && n.buffers[pid].cacheVma == None)
  }

  lemma FailedFewer(m: Memory, n: Memory, pid: int)
    requires FaultFailed(m, n, pid)
    ensures forall p, mm, page :: HeldBy(n, p, mm, page) ==> HeldBy(m, p, mm, page)
  {
  }

  lemma FailedTablesOk(m: Memory, n: Memory, pid: int)
    requires TablesOk(m) && FaultFailed(m, n, pid)
    ensures TablesOk(n)
  {
    FailedFewer(m, n, pid);
  }

  lemma FailedPlaced(s: State, m: Memory, pid: int)
    requires SlotsPlaced(s) && FaultFailed(s.mem, m, pid)
    ensures SlotsPlaced(s.(mem := m))
  {
    forall q | q in m.buffers
      ensures BufferPlaced(s.areas, m.buffers[q]) && BufferKnown(s.areas, q, m.buffers[q])
    {
      if q in s.mem.buffers {
        assert BufferPlaced(s.areas, s.mem.buffers[q]) && BufferKnown(s.areas, q, s.mem.buffers[q]);
        AmongPlaced(s.areas, q, m.buffers[q], s.mem.buffers[q]);
      }
    }
  }

  lemma FaultPlaced(s: State, task: Task, v: VmaRef, page: nat, m: Memory)
    requires SlotsPlaced(s) && OfProcess(s, task) && v.mm == task.mm && OnArea(s.areas, v, page)
    requires forall q :: q != task.pid ==> (q in m.buffers <==> q in s.mem.buffers)
    requires forall q :: q in s.mem.buffers && q != task.pid ==> m.buffers[q] == s.mem.buffers[q]
    requires task.pid in m.buffers && Newest(m.buffers[task.pid], v, page, s.mem, task.pid)
    ensures SlotsPlaced(s.(mem := m))
  {
    forall q | q in m.buffers
      ensures BufferPlaced(s.areas, m.buffers[q]) && BufferKnown(s.areas, q, m.buffers[q])
    {
      if q in s.mem.buffers {
        assert BufferPlaced(s.areas, s.mem.buffers[q]) && BufferKnown(s.areas, q, s.mem.buffers[q]);
      }
      if q == task.pid {
        assert InProcess(m.buffers[q], task.mm);
      }
    }
  }

  lemma FaultTablesOk(m: Memory, n: Memory, task: Task, v: VmaRef, page: nat)
    requires TablesOk(m) && !InTables(m, v.mm, page)
    requires forall q :: q != task.pid ==> (q in n.buffers <==> q in m.buffers)
    requires forall q :: q in m.buffers && q != task.pid ==> n.buffers[q] == m.buffers[q]
    requires task.pid in n.buffers && Newest(n.buffers[task.pid], v, page, m, task.pid)
    ensures TablesOk(n)
  {
    forall p, mm, at | HeldBy(n, p, mm, at)
      ensures HeldBy(m, p, mm, at) || (p == task.pid && mm == v.mm && at == page)
    {
    }
    assert forall p :: !HeldBy(m, p, v.mm, page);
  }

  lemma StoreInv(s: State, pid: int, address: nat, value: Byte)
    requires Inv(s) && Mapped(s.mem, PageOf(pid, address))
    ensures Inv(s.(mem := Store(s.mem, pid, address, value)))
  {
    var m := Store(s.mem, pid, address, value);
    forall q | q in m.buffers
      ensures BufferOk(m.buffers[q])
    {
      assert BufferOk(s.mem.buffers[q]);
    }
    assert SlotsFewer(s.mem, m);
    FewerPlaced(s, m);
    FewerTablesOk(s.mem, m);
  }

  // ----- Release -----

  lemma BackingInv(s: State, b: Backing)
    requires Inv(s) && BackingOk(b)
    ensures Inv(s.(mem := s.mem.(backing := b)))
  {
    var m := s.mem.(backing := b);
    assert SlotsFewer(s.mem, m);
    FewerPlaced(s, m);
    FewerTablesOk(s.mem, m);
  }

  lemma RemoveStoragePagesInv(s: State, pid: int, ptr: nat)
    requires Inv(s)
    ensures Inv(RemoveStoragePages(s, pid, ptr))
  {
    var i := AreaAt(s.areas, pid, ptr);
    if i < |s.areas| {
      var j := RegionAt(s.areas[i].regions, ptr);
      if j < |s.areas[i].regions| {
        RegionBackingOk(s, pid, i, j);
        BackingInv(s, DropRegion(s.mem.backing, pid, s.areas[i].regions, j));
      }
    }
  }

  lemma RegionBackingOk(s: State, pid: int, i: nat, j: nat)
    requires AllAreasOk(s.areas) && BackingOk(s.mem.backing) && i < |s.areas| && j < |s.areas[i].regions|
    ensures BackingOk(DropRegion(s.mem.backing, pid, s.areas[i].regions, j))
  {
    assert AreaOk(s.areas[i]);
    DropRegionExactly(s.mem.backing, pid, s.areas[i].regions, s.areas[i].vmStart, j);
  }

  /** The slots of `pid` are free. */
  ghost predicate SlotsFree(m: Memory, pid: int) {
    pid in m.buffers ==> m.buffers[pid].vma == None && m.buffers[pid].cacheVma == None
  }

  /** A slot of `pid` refers to VMA `v`. */
  predicate RefersTo(m: Memory, pid: int, v: VmaRef) {
    pid in m.buffers && (m.buffers[pid].vma == Some(v) || m.buffers[pid].cacheVma == Some(v))
  }

  /** The VMA of area `i` goes while a slot still refers to it: one of another thread, or one of a pid that keeps
      its buffer. */
  ghost predicate Dangles(s: State, i: nat)
    requires i < |s.areas|
  {
    exists q :: q in WithoutVma(s, i).mem.buffers && RefersTo(s.mem, q, VmaRef(s.areas[i].mm, s.areas[i].vmStart))
  }

  /** The buffer of area `i`'s pid goes with the area, its last, while one of the pid's slots is on the VMA of
      another thread's area. */
  predicate Orphans(s: State, i: nat)
    requires i < |s.areas|
  {
    var a := s.areas[i];
    var v := VmaRef(a.mm, a.vmStart);
    && a.pid in s.mem.buffers && !HasArea(s.areas[..i] + s.areas[i + 1..], a.pid)
    && var b := s.mem.buffers[a.pid]; !(b.vma in [None, Some(v)] && b.cacheVma in [None, Some(v)])
  }

  /** Closing an emptied area keeps the invariant of everything else, unless it leaves a slot that refers to the
      VMA gone. */
  lemma RemoveVmaInv(s: State, i: nat)
    requires AreasSound(s) && MemoryOk(s.mem) && SlotsPlaced(s) && TablesOk(s.mem)
    requires i < |s.areas| && s.areas[i].regions == []
    requires forall j :: 0 <= j < |s.areas| && j != i ==> s.areas[j].regions != []
    ensures Inv(RemoveVma(s, i)) <==> !Dangles(s, i)
    ensures forall mm :: AllContained(s.areas, mm) ==> AllContained(RemoveVma(s, i).areas, mm)
  {
    RemoveVmaOfEmpty(s, i);
    WithoutVmaInv(s, i);
    RestOk(s.areas, i);
  }

  lemma WithoutVmaInv(s: State, i: nat)
    requires AreasSound(s) && MemoryOk(s.mem) && SlotsPlaced(s) && TablesOk(s.mem) && i < |s.areas|
    requires forall j :: 0 <= j < |s.areas| && j != i ==> s.areas[j].regions != []
    ensures Inv(WithoutVma(s, i)) <==> !Dangles(s, i)
  {
    VmaLeavesList(s, i);
    RestOk(s.areas, i);
    RestSlotsIff(s, i);
    assert SlotsFewer(s.mem, WithoutVma(s, i).mem);
    FewerTablesOk(s.mem, WithoutVma(s, i).mem);
    assert MemoryOk(WithoutVma(s, i).mem);
  }

  lemma VmaLeavesList(s: State, i: nat)
    requires AreasSound(s) && i < |s.areas|
    ensures ListsOk(WithoutVma(s, i).lists) && AreasPlaced(WithoutVma(s, i).areas, WithoutVma(s, i).lists)
  {
    var a := s.areas[i];
    var list := ListOf(s.lists, a.mm);
    assert AreaOk(a) && Vma(a.vmStart, a.vmEnd) in list;
    RemoveOk(list, Vma(a.vmStart, a.vmEnd));
    PlacedWithout(s.areas, s.lists, i, Remove(list, a.vmStart));
  }

  lemma RestSlotsIff(s: State, i: nat)
    requires AreasPlaced(s.areas, s.lists) && SlotsPlaced(s) && i < |s.areas|
    ensures SlotsPlaced(WithoutVma(s, i)) <==> !Dangles(s, i)
  {
    var t := WithoutVma(s, i);
    var v := VmaRef(s.areas[i].mm, s.areas[i].vmStart);
    if Dangles(s, i) {
      var q :| q in t.mem.buffers && RefersTo(s.mem, q, v);
      DanglingNotPlaced(s, i, s.mem.buffers[q]);
      assert !BufferPlaced(t.areas, t.mem.buffers[q]);
    } else {
      forall q | q in t.mem.buffers
        ensures BufferPlaced(t.areas, t.mem.buffers[q]) && BufferKnown(t.areas, q, t.mem.buffers[q])
      {
        assert !RefersTo(s.mem, q, v);
        assert BufferPlaced(s.areas, s.mem.buffers[q]) && BufferKnown(s.areas, q, s.mem.buffers[q]);
        RemainsPlaced(s.areas, i, s.mem.buffers[q]);
        RemainsKnown(s.areas, i, q, s.mem.buffers[q]);
      }
    }
  }

  /** No area is left on the VMA that went. */
  lemma DanglingNotPlaced(s: State, i: nat, b: Buffer)
    requires AreasPlaced(s.areas, s.lists) && i < |s.areas|
    requires var v := VmaRef(s.areas[i].mm, s.areas[i].vmStart); b.vma == Some(v) || b.cacheVma == Some(v)
    ensures !BufferPlaced(s.areas[..i] + s.areas[i + 1..], b)
  {
    var rest := s.areas[..i] + s.areas[i + 1..];
    forall j | 0 <= j < |rest|
      ensures rest[j].mm != s.areas[i].mm || rest[j].vmStart != s.areas[i].vmStart
    {
      DistinctPlaces(s.areas, s.lists, i, if j < i then j else j + 1);
    }
  }

  lemma RestOk(areas: seq<AreaState>, i: nat)
    requires AllAreasOk(areas) && i < |areas|
    requires forall j :: 0 <= j < |areas| && j != i ==> areas[j].regions != []
    ensures var rest := areas[..i] + areas[i + 1..];
            && AllAreasOk(rest) && NoneEmpty(rest)
            && forall mm :: AllContained(areas, mm) ==> AllContained(rest, mm)
  {
    var rest := areas[..i] + areas[i + 1..];
    assert forall j :: 0 <= j < |rest| ==> rest[j] == areas[if j < i then j else j + 1];
  }

  lemma RemainsPlaced(areas: seq<AreaState>, i: nat, b: Buffer)
    requires i < |areas| && BufferPlaced(areas, b)
    requires var v := VmaRef(areas[i].mm, areas[i].vmStart); b.vma != Some(v) && b.cacheVma != Some(v)
    ensures BufferPlaced(areas[..i] + areas[i + 1..], b)
  {
    if b.vma.Some? {
      OnAreaRemains(areas, i, b.vma.value, b.start);
    }
    if b.cacheVma.Some? {
      OnAreaRemains(areas, i, b.cacheVma.value, b.cacheStart);
    }
  }

  lemma OnAreaRemains(areas: seq<AreaState>, i: nat, v: VmaRef, address: nat)
    requires i < |areas| && OnArea(areas, v, address) && v != VmaRef(areas[i].mm, areas[i].vmStart)
    ensures OnArea(areas[..i] + areas[i + 1..], v, address)
  {
    var j :| 0 <= j < |areas| && areas[j].mm == v.mm && areas[j].vmStart == v.start
             && v.start <= address < areas[j].vmEnd;
    var rest := areas[..i] + areas[i + 1..];
    assert rest[if j < i then j else j - 1] == areas[j];
  }

  lemma RemainsKnown(areas: seq<AreaState>, i: nat, q: int, b: Buffer)
    requires i < |areas| && BufferKnown(areas, q, b)
    ensures BufferKnown(areas[..i] + areas[i + 1..], q, b)
  {
    var rest := areas[..i] + areas[i + 1..];
    forall j | 0 <= j < |rest| && rest[j].pid == q
      ensures InProcess(b, rest[j].mm)
    {
      assert rest[j] == areas[if j < i then j else j + 1];
    }
  }

  /** The release closes a VMA that a slot still refers to. */
  ghost predicate ReleaseDangles(s: State, pid: int, ptr: nat) {
    Closes(s.areas, pid, ptr) && Dangles(s, AreaAt(s.areas, pid, ptr))
  }

  lemma RemoveRegionInv(s: State, pid: int, ptr: nat)
    requires Inv(s)
    ensures Inv(RemoveRegion(s, pid, ptr)) <==> !ReleaseDangles(s, pid, ptr)
    ensures forall mm :: AllContained(s.areas, mm) ==> AllContained(RemoveRegion(s, pid, ptr).areas, mm)
  {
    var i := AreaAt(s.areas, pid, ptr);
    if i < |s.areas| {
      var j := RegionAt(s.areas[i].regions, ptr);
      if j < |s.areas[i].regions| {
        RemoveAt(s, i, j);
      }
    }
  }

  lemma RemoveAt(s: State, i: nat, j: nat)
    requires Inv(s) && i < |s.areas| && j < |s.areas[i].regions|
    ensures Inv(RemoveFound(s, i, j)) <==> !(Release(s.areas[i].regions, j) == [] && Dangles(s, i))
    ensures forall mm :: AllContained(s.areas, mm) ==> AllContained(RemoveFound(s, i, j).areas, mm)
  {
    var t := WithFreed(s, i, j);
    assert AreaOk(s.areas[i]);
    FreeInOk(s.areas[i], j);
    FreeInContained(s.areas[i], j);
    FreeInKeeps(s, i, j);
    if t.areas[i].regions == [] {
      RemoveVmaInv(t, i);
      FreedDangles(s, i, j);
    }
  }

  lemma FreedDangles(s: State, i: nat, j: nat)
    requires i < |s.areas| && j < |s.areas[i].regions|
    ensures Dangles(WithFreed(s, i, j), i) <==> Dangles(s, i)
  {
    var t := WithFreed(s, i, j);
    assert t.areas[..i] + t.areas[i + 1..] == s.areas[..i] + s.areas[i + 1..];
    assert WithoutVma(t, i).mem.buffers == WithoutVma(s, i).mem.buffers;
  }

  lemma FreeInKeeps(s: State, i: nat, j: nat)
    requires Inv(s) && i < |s.areas| && j < |s.areas[i].regions| && AreaOk(FreeIn(s.areas[i], j))
    ensures var t := WithFreed(s, i, j);
            && AreasPlaced(t.areas, t.lists) && AllAreasOk(t.areas) && SlotsPlaced(t)
            && (forall mm :: AllContained(s.areas, mm) && (Contained(s.areas[i]) ==> Contained(t.areas[i])) ==>
                 AllContained(t.areas, mm))
            && (forall k :: 0 <= k < |t.areas| && k != i ==> t.areas[k].regions != [])
  {
    var f := FreeIn(s.areas[i], j);
    var t := WithFreed(s, i, j);
    PlacedStays(s.areas, s.lists, i, f);
    UpdatedOk(s.areas, i, f);
    UpdatedPlaces(s.areas, i, f);
    SlotsPlacedUpdated(s, t);
    forall mm | AllContained(s.areas, mm) && (Contained(s.areas[i]) ==> Contained(f))
      ensures AllContained(t.areas, mm)
    {
      UpdatedContained(s.areas, i, f, mm);
    }
  }

  lemma FreeInContained(a: AreaState, i: nat)
    requires AreaOk(a) && i < |a.regions|
    ensures Contained(a) ==> Contained(FreeIn(a, i))
  {
    var rs := Release(a.regions, i);
    ReleaseOk(a.regions, a.vmStart, i);
    if rs != [] {
      ReleaseDropsOneBlock(a.regions, a.vmStart, i);
      assert rs[|rs| - 1] in Live(rs);
      var k :| 0 <= k < |a.regions| && a.regions[k] == rs[|rs| - 1];
      TilesBounds(a.regions, a.vmStart, k);
    }
  }

  /** A release, after its eviction, closes a VMA that a slot still refers to. */
  ghost predicate FreeDangles(s: State, pid: int, ptr: nat, io: Io) {
    ReleaseDangles(s.(mem := UnmapBoth(s.mem, s.lists, pid, io).mem), pid, ptr)
  }

  /** A release, after its eviction, drops the pid's buffer with a page of another thread's area in it. */
  predicate FreeOrphans(s: State, pid: int, ptr: nat, io: Io) {
    Closes(s.areas, pid, ptr)
    && Orphans(s.(mem := UnmapBoth(s.mem, s.lists, pid, io).mem), AreaAt(s.areas, pid, ptr))
  }

  /** `generic_free` keeps the invariant for any pointer, whatever fails, with one exception: it may close a VMA
      while a slot still refers to it. */
  lemma FreeInv(s: State, pid: int, ptr: nat, io: Io)
    requires Inv(s)
    ensures Inv(Free(s, pid, ptr, io)) <==> !FreeDangles(s, pid, ptr, io)
  {
    var t := s.(mem := UnmapBoth(s.mem, s.lists, pid, io).mem);
    var u := RemoveStoragePages(t, pid, ptr);
    UnmapBothInv(s, pid, io);
    RemoveStoragePagesInv(t, pid, ptr);
    RemoveRegionInv(u, pid, ptr);
    PagesDoNotDangle(t, pid, ptr);
  }

  lemma PagesDoNotDangle(s: State, pid: int, ptr: nat)
    ensures ReleaseDangles(RemoveStoragePages(s, pid, ptr), pid, ptr) <==> ReleaseDangles(s, pid, ptr)
  {
    var u := RemoveStoragePages(s, pid, ptr);
    assert u.areas == s.areas && u.mem.buffers == s.mem.buffers;
    if Closes(s.areas, pid, ptr) {
      var i := AreaAt(s.areas, pid, ptr);
      assert WithoutVma(u, i).mem.buffers == WithoutVma(s, i).mem.buffers;
    }
  }

  /** No release puts a region outside its VMA. */
  lemma FreeContained(s: State, pid: int, ptr: nat, io: Io, mm: int)
    requires Inv(s) && AllContained(s.areas, mm)
    ensures AllContained(Free(s, pid, ptr, io).areas, mm)
  {
    var t := s.(mem := UnmapBoth(s.mem, s.lists, pid, io).mem);
    UnmapBothInv(s, pid, io);
    RemoveStoragePagesInv(t, pid, ptr);
    RemoveRegionInv(RemoveStoragePages(t, pid, ptr), pid, ptr);
  }

  /** No thread has a page of another thread's area in a slot. */
  ghost predicate OwnSlots(s: State, mm: int) {
    forall p, v: VmaRef, page :: v.mm == mm && HoldsOn(s.mem, p, v, page) ==> Owns(s.areas, p, v, page)
  }

  /** A slot of `p` has the page, on VMA `v`. */
  predicate HoldsOn(m: Memory, p: int, v: VmaRef, page: nat) {
    p in m.buffers && ((m.buffers[p].InFront(page) && m.buffers[p].vma == Some(v))
                       || (m.buffers[p].InCache(page) && m.buffers[p].cacheVma == Some(v)))
  }
}
