/** What malloc and free do to the lists of areas and VMAs, told from what is in the lists before the call rather than
    by the functions that compute it. */
module Effects {
  import opened Kutils
  import opened Regions
  import opened Areas
  import opened Vmas
  import opened StoredPages
  import opened PageRemoval
  import opened Paging
  import opened GenericMalloc
  import opened Invariant
  import opened FlatHeap

  // ----- Which area takes a request, and how much its VMA grows -----

  /** The bytes that the area lacks by its own count. */
  function Lacks(a: AreaState, size: nat): nat {
    if a.freeSpace >= size then 0 else size - a.freeSpace
  }

  /** `grow` is the least number of whole pages that makes up for it, and the next VMA of the process starts further
      away than that. */
  ghost predicate GrowsBy(a: AreaState, lists: VmaLists, size: nat, grow: nat) {
    && grow % 4096 == 0 && Lacks(a, size) <= grow < Lacks(a, size) + 4096
    && (grow > 0 ==> forall w :: w in ListOf(lists, a.mm) && w.start > a.vmStart ==> w.start > a.vmEnd + grow)
  }

  /** The area counts `size` bytes free, or its VMA can grow until it does. */
  ghost predicate CanTake(a: AreaState, lists: VmaLists, size: nat) {
    exists grow: nat :: GrowsBy(a, lists, size, grow)
  }

  /** Area `i` is the first of the pid's areas that can take the request. */
  ghost predicate Takes(s: State, pid: int, size: nat, i: nat) {
    && i < |s.areas| && s.areas[i].pid == pid && CanTake(s.areas[i], s.lists, size)
    && forall j :: 0 <= j < i && s.areas[j].pid == pid ==> !CanTake(s.areas[j], s.lists, size)
  }

  ghost predicate NoneTakes(s: State, pid: int, size: nat) {
    forall j :: 0 <= j < |s.areas| && s.areas[j].pid == pid ==> !CanTake(s.areas[j], s.lists, size)
  }

  /** The lists differ in process `mm` only, and there by one VMA gone and one new. */
  ghost predicate VmaReplaced(before: VmaLists, after: VmaLists, mm: int, gone: Vma, added: Vma) {
    && (forall w :: w in ListOf(after, mm) <==> (w in ListOf(before, mm) && w != gone) || w == added)
    && forall m :: m != mm ==> ListOf(after, m) == ListOf(before, m)
  }

  ghost predicate VmaAdded(before: VmaLists, after: VmaLists, mm: int, added: Vma) {
    && (forall w :: w in ListOf(after, mm) <==> w in ListOf(before, mm) || w == added)
    && forall m :: m != mm ==> ListOf(after, m) == ListOf(before, m)
  }

  ghost predicate VmaGone(before: VmaLists, after: VmaLists, mm: int, gone: Vma) {
    && (forall w :: w in ListOf(after, mm) <==> w in ListOf(before, mm) && w != gone)
    && forall m :: m != mm ==> ListOf(after, m) == ListOf(before, m)
  }

  /** Area `i` has been given room by growing its VMA by as much as it takes, which may be nothing; no other area has
      changed. */
  ghost predicate Grown(s: State, c: State, size: nat, i: nat) {
    && i < |s.areas| == |c.areas|
    && (forall j :: 0 <= j < |s.areas| && j != i ==> c.areas[j] == s.areas[j])
    && var a, b := s.areas[i], c.areas[i];
    && b.vmEnd >= a.vmEnd && var grow := b.vmEnd - a.vmEnd;
    && GrowsBy(a, s.lists, size, grow)
    && b == a.(vmEnd := b.vmEnd, size := a.size + grow, freeSpace := a.freeSpace + grow)
    && VmaReplaced(s.lists, c.lists, a.mm, Vma(a.vmStart, a.vmEnd), Vma(b.vmStart, b.vmEnd))
  }

  /** `start` is where the lowest gap of the length begins that the process has above its first page. */
  ghost predicate LowestGap(list: seq<Vma>, start: nat, length: nat) {
    && 4096 <= start && Gap(list, start, length)
    && forall x: nat :: 4096 <= x < start ==> !Gap(list, x, length)
  }

  /** An empty area has been appended, on a new VMA of as many units of two pages as the request takes. */
  ghost predicate Appended(s: State, c: State, task: Task, size: nat) {
    && |c.areas| == |s.areas| + 1
    && (forall j :: 0 <= j < |s.areas| ==> c.areas[j] == s.areas[j])
    && var a := c.areas[|s.areas|];
    && a.vmStart <= a.vmEnd && var length := a.vmEnd - a.vmStart;
    && length == AlignCeil(size, VMA_SHIFT) && length % 8192 == 0 && size <= length < size + 8192
    && a == AreaState(task.pid, task.mm, a.vmStart, a.vmEnd, length, length, 0, [])
    && LowestGap(ListOf(s.lists, task.mm), a.vmStart, length)
    && VmaAdded(s.lists, c.lists, task.mm, Vma(a.vmStart, a.vmEnd))
  }

  /** Room for a request: in the first area of the pid that can take it, and in a new one only if none can. */
  ghost predicate RoomMade(s: State, c: State, task: Task, size: nat, i: nat) {
    && c.mem == s.mem
    && if NoneTakes(s, task.pid, size) then i == |s.areas| && Appended(s, c, task, size)
       else Takes(s, task.pid, size, i) && Grown(s, c, size, i)
  }

  lemma WidenRoom(vs: seq<Vma>, v: Vma, extra: nat)
    requires VmasOk(vs) && v in vs
    ensures CanWiden(vs, v.start, extra) <==> forall w :: w in vs && w.start > v.start ==> w.start > v.end + extra
  {
    var i := IndexOf(vs, v.start);
    IndexOfMember(vs, v);
    forall w | w in vs && w.start > v.start
      ensures i + 1 < |vs| && vs[i + 1].start <= w.start
    {
      var j :| 0 <= j < |vs| && vs[j] == w;
      assert j > i;
    }
    if i + 1 < |vs| {
      assert vs[i + 1] in vs && vs[i + 1].start > v.start;
    }
  }

  /** The test of the code is this one. */
  lemma ServesIsCanTake(s: State, i: nat, size: nat)
    requires AreasSound(s) && i < |s.areas|
    ensures var a := s.areas[i];
            && (Serves(a, s.lists, size) <==> CanTake(a, s.lists, size))
            && (Serves(a, s.lists, size) ==>
                 GrowsBy(a, s.lists, size, if a.freeSpace >= size then 0 else Extra(a, size)))
  {
    var a := s.areas[i];
    assert AreaOk(a);
    if a.freeSpace >= size {
      assert GrowsBy(a, s.lists, size, 0);
    } else {
      ExtraIsOnly(a, size);
      WidenRoom(ListOf(s.lists, a.mm), Vma(a.vmStart, a.vmEnd), Extra(a, size));
      assert Serves(a, s.lists, size) <==> GrowsBy(a, s.lists, size, Extra(a, size));
      assert forall grow: nat :: GrowsBy(a, s.lists, size, grow) ==> grow == Extra(a, size);
    }
  }

  lemma FewestPages(e: nat, f: nat, need: nat)
    requires Aligned(e) && need <= e < need + PAGE_SIZE && Aligned(f) && need <= f < need + PAGE_SIZE
    ensures e == f
  {
    if e < f {
      AlignedApart(e, f);
    } else if f < e {
      AlignedApart(f, e);
    }
  }

  lemma ExtraIsOnly(a: AreaState, size: nat)
    requires AreaOk(a) && a.freeSpace < size
    ensures forall e: nat ::
              e % 4096 == 0 && size - a.freeSpace <= e < size - a.freeSpace + 4096 <==> e == Extra(a, size)
  {
    SizeAligned(a);
    ExtraIsLeast(a, size);
    forall e: nat | e % 4096 == 0 && size - a.freeSpace <= e < size - a.freeSpace + 4096
      ensures e == Extra(a, size)
    {
      FewestPages(e, Extra(a, size), size - a.freeSpace);
    }
  }

  /** The area that the code's search ends with. */
  lemma FirstServingTakes(s: State, pid: int, size: nat)
    requires AreasSound(s)
    ensures var i := FirstServing(s.areas, s.lists, pid, size);
            if i == |s.areas| then NoneTakes(s, pid, size) else Takes(s, pid, size, i) && !NoneTakes(s, pid, size)
  {
    forall j: nat | j < |s.areas|
      ensures Serves(s.areas[j], s.lists, size) <==> CanTake(s.areas[j], s.lists, size)
    {
      ServesIsCanTake(s, j, size);
    }
  }

  lemma GrownIs(s: State, i: nat, size: nat)
    requires AreasSound(s) && i < |s.areas| && s.areas[i].freeSpace < size && Serves(s.areas[i], s.lists, size)
    ensures Grown(s, WithGrown(s, i, size), size, i)
  {
    var a := s.areas[i];
    assert AreaOk(a);
    GrowsByExtra(s, i, size);
    VmaGrows(s, i, Extra(a, size));
    GrownBy(s, WithGrown(s, i, size), size, i, Extra(a, size));
  }

  lemma GrownBy(s: State, c: State, size: nat, i: nat, grow: nat)
    requires i < |s.areas| && c.areas == s.areas[i := Grow(s.areas[i], grow)]
    requires GrowsBy(s.areas[i], s.lists, size, grow)
    requires var a := s.areas[i];
             VmaReplaced(s.lists, c.lists, a.mm, Vma(a.vmStart, a.vmEnd), Vma(a.vmStart, a.vmEnd + grow))
    ensures Grown(s, c, size, i)
  {
    assert c.areas[i].vmEnd - s.areas[i].vmEnd == grow;
  }

  lemma GrowsByExtra(s: State, i: nat, size: nat)
    requires AreasSound(s) && i < |s.areas| && s.areas[i].freeSpace < size && Serves(s.areas[i], s.lists, size)
    ensures GrowsBy(s.areas[i], s.lists, size, Extra(s.areas[i], size))
  {
    ServesIsCanTake(s, i, size);
  }

  lemma VmaGrows(s: State, i: nat, extra: nat)
    requires AreasSound(s) && i < |s.areas|
    ensures var a := s.areas[i];
            var lists := s.lists[a.mm := Widen(ListOf(s.lists, a.mm), a.vmStart, extra)];
            VmaReplaced(s.lists, lists, a.mm, Vma(a.vmStart, a.vmEnd), Vma(a.vmStart, a.vmEnd + extra))
  {
    WidenMembers(ListOf(s.lists, s.areas[i].mm), Vma(s.areas[i].vmStart, s.areas[i].vmEnd), extra);
  }

  lemma NotGrownIs(s: State, i: nat, size: nat)
    requires AreasSound(s) && i < |s.areas| && s.areas[i].freeSpace >= size
    ensures Grown(s, s, size, i)
  {
    var a := s.areas[i];
    assert Vma(a.vmStart, a.vmEnd) in ListOf(s.lists, a.mm);
  }

  lemma NewVmaInGap(lists: VmaLists, mm: int, size: nat)
    requires ListsOk(lists) && size > 0
    ensures var v := NewVma(lists, mm, size);
            && v.end - v.start == AlignCeil(size, VMA_SHIFT)
            && LowestGap(ListOf(lists, mm), v.start, v.end - v.start)
            && VmaAdded(lists, lists[mm := Insert(ListOf(lists, mm), v)], mm, v)
  {
    assert NewLength(size) == AlignCeil(size, VMA_SHIFT) by {
      VmaRounding(size);
    }
    NewVmaLowest(lists, mm, size);
    NewVmaOk(lists, mm, size);
  }

  lemma NewVmaLowest(lists: VmaLists, mm: int, size: nat)
    requires ListsOk(lists) && size > 0
    ensures var v := NewVma(lists, mm, size);
            v.end == v.start + NewLength(size) && LowestGap(ListOf(lists, mm), v.start, NewLength(size))
  {
    FirstGapLowest(ListOf(lists, mm), PAGE_SIZE, NewLength(size));
  }

  lemma AppendedIs(s: State, task: Task, size: nat)
    requires ListsOk(s.lists) && size > 0
    ensures Appended(s, WithNew(s, task, size), task, size)
  {
    NewVmaInGap(s.lists, task.mm, size);
  }

  /** `get_area_container` makes room in the first area of the pid that counts enough free bytes or can be extended,
      by no more pages than it takes, and opens a new area only if there is none. */
  lemma ContainerExactly(s: State, task: Task, size: nat)
    requires AreasSound(s) && size > 0
    ensures var (c, i) := Container(s, task, size); RoomMade(s, c, task, size, i)
  {
    FirstServingTakes(s, task.pid, size);
    var i := FirstServing(s.areas, s.lists, task.pid, size);
    if i == |s.areas| {
      AppendedIs(s, task, size);
    } else if s.areas[i].freeSpace >= size {
      NotGrownIs(s, i, size);
    } else {
      GrownIs(s, i, size);
    }
  }

  // ----- The block handed out -----

  /** The lowest free region with room for `size` begins at `start`; where there is none, the list ends there. */
  ghost predicate LowestOrEnd(rs: seq<Region>, base: nat, size: nat, start: nat) {
    if exists h :: h in rs && h.free && h.size >= size then LowestFit(rs, size, start) else start == EndOf(rs, base)
  }

  /** One block more is in use, `[start, start + size)`: apart from those that were, in the lowest free region with
      room for it or else at the end of the list. */
  ghost predicate OneMore(before: seq<Region>, after: seq<Region>, base: nat, size: nat, start: nat) {
    && RegionsOk(after, base)
    && Live(after) == Live(before) + {Region(start, size, false)}
    && (forall r :: r in Live(before) ==> r.start != start && !r.Overlaps(start, start + size))
    && LowestOrEnd(before, base, size, start)
  }

  /** The area has handed out that block. The request is taken off the count of free bytes, unless it fills a free
      region exactly. */
  ghost predicate BlockAdded(a: AreaState, b: AreaState, size: nat, start: nat) {
    && b == a.(regions := b.regions, freeSpace := b.freeSpace, surplus := b.surplus)
    && OneMore(a.regions, b.regions, a.vmStart, size, start)
    && b.freeSpace == a.freeSpace - if TakesExact(a.regions, size) then 0 else size
  }

  /** Room has been made for a request, giving `c`, and the block at `start` handed out in it, by area `i`. */
  ghost predicate Handed(s: State, c: State, t: State, task: Task, size: nat, i: nat, start: nat) {
    && RoomMade(s, c, task, size, i)
    && i < |c.areas| == |t.areas| && t.lists == c.lists
    && (forall j :: 0 <= j < |c.areas| && j != i ==> t.areas[j] == c.areas[j])
    && BlockAdded(c.areas[i], t.areas[i], size, start)
  }

  lemma AllocAddsBlock(a: AreaState, size: nat)
    requires AreaOk(a) && 0 < size <= a.freeSpace
    ensures BlockAdded(a, AllocIn(a, size), size, Placed(a.regions, a.vmStart, size).start)
  {
    AllocInOk(a, size);
    PlaceAddsApart(a.regions, a.vmStart, size);
  }

  lemma PlaceAddsApart(rs: seq<Region>, base: nat, size: nat)
    requires RegionsOk(rs, base) && size > 0
    ensures var start := Placed(rs, base, size).start;
            OneMore(rs, Place(rs, base, size), base, size, start)
  {
    var p := Placed(rs, base, size);
    PlaceOk(rs, base, size);
    StartIsLowest(rs, base, size);
    PlaceLive(rs, base, size);
    PlaceAvoids(rs, base, size);
    StartsElsewhere(rs, base, p.start, p.End());
  }

  lemma StartIsLowest(rs: seq<Region>, base: nat, size: nat)
    requires RegionsOk(rs, base) && size > 0
    ensures LowestOrEnd(rs, base, size, Placed(rs, base, size).start)
  {
    PlaceAddsOneBlock(rs, base, size);
  }

  lemma StartsElsewhere(rs: seq<Region>, base: nat, lo: nat, hi: nat)
    requires RegionsOk(rs, base) && lo < hi && forall r :: r in Live(rs) ==> !r.Overlaps(lo, hi)
    ensures forall r :: r in Live(rs) ==> r.start != lo
  {
    forall r | r in Live(rs)
      ensures r.start != lo
    {
      assert !r.Overlaps(lo, hi) && r.size > 0;
    }
  }

  lemma CreateHands(s: State, task: Task, size: nat)
    requires AreasSound(s) && KnowsTask(s.areas, task) && size > 0
    ensures var (c, i) := Container(s, task, size);
            Handed(s, c, CreateRegion(s, task, size), task, size, i, NewRegion(s, task, size).start)
  {
    ContainerExactly(s, task, size);
    ContainerKeeps(s, task, size);
    var (c, i) := Container(s, task, size);
    assert AreaOk(c.areas[i]);
    AllocAddsBlock(c.areas[i], size);
  }

  // ----- What a release gives back -----

  /** `ptr` is region `j` of area `i`: the first area of the pid whose VMA holds it, and there the first
      region that starts at it. */
  ghost predicate Found(areas: seq<AreaState>, pid: int, ptr: nat, i: nat, j: nat) {
    && i < |areas| && Holding(areas[i], pid, ptr) && (forall k :: 0 <= k < i ==> !Holding(areas[k], pid, ptr))
    && j < |areas[i].regions| && areas[i].regions[j].start == ptr
    && (forall k :: 0 <= k < j ==> areas[i].regions[k].start != ptr)
  }

  predicate Holding(a: AreaState, pid: int, ptr: nat) {
    a.pid == pid && a.vmStart <= ptr < a.vmEnd
  }

  /** Region `j` of area `i` is no longer in use, its size is counted free once more, and nothing else has changed. */
  ghost predicate BlockTaken(s: State, t: State, i: nat, j: nat)
    requires i < |s.areas| && j < |s.areas[i].regions|
  {
    && |t.areas| == |s.areas| && t.lists == s.lists && t.mem.buffers.Keys == s.mem.buffers.Keys
    && (forall k :: 0 <= k < |s.areas| && k != i ==> t.areas[k] == s.areas[k])
    && var a, b := s.areas[i], t.areas[i];
    && b == a.(regions := b.regions, freeSpace := b.freeSpace, surplus := b.surplus)
    && RegionsOk(b.regions, b.vmStart)
    && Live(b.regions) == Live(a.regions) - {a.regions[j]}
    && b.freeSpace == a.freeSpace + a.regions[j].size
  }

  /** Area `i` is gone with its VMA, and its pid's buffer if the pid has no other area. */
  ghost predicate AreaClosed(s: State, t: State, i: nat)
    requires i < |s.areas|
  {
    var a := s.areas[i];
    && t.areas == s.areas[..i] + s.areas[i + 1..]
    && VmaGone(s.lists, t.lists, a.mm, Vma(a.vmStart, a.vmEnd))
    && forall q :: q in t.mem.buffers <==>
         q in s.mem.buffers && (q != a.pid || exists k :: 0 <= k < |s.areas| && k != i && s.areas[k].pid == q)
  }

  /** Region `j` of area `i` is released: the area closes if no other block of it is in use. */
  ghost predicate RegionTaken(s: State, t: State, i: nat, j: nat)
    requires i < |s.areas| && j < |s.areas[i].regions|
  {
    var rs := s.areas[i].regions;
    if exists r :: r in Live(rs) && r != rs[j] then BlockTaken(s, t, i, j) else AreaClosed(s, t, i)
  }

  ghost predicate NamesNone(areas: seq<AreaState>, pid: int, ptr: nat) {
    forall i: nat, j: nat :: !Found(areas, pid, ptr, i, j)
  }

  /** A release of `ptr`; a pointer that names no region changes no list. */
  ghost predicate Returned(s: State, t: State, pid: int, ptr: nat) {
    && (forall i: nat, j: nat :: Found(s.areas, pid, ptr, i, j) ==> RegionTaken(s, t, i, j))
    && (NamesNone(s.areas, pid, ptr) ==>
         t.areas == s.areas && t.lists == s.lists && t.mem.buffers.Keys == s.mem.buffers.Keys)
  }

  /** The page goes from storage with a release: the region released lies on it and no other block in use of the area
      does, save for the first page of a region behind one that is free and alone. */
  ghost predicate PageGoes(areas: seq<AreaState>, pid: int, ptr: nat, k: Key) {
    k.pid == pid && exists i: nat, j: nat :: Found(areas, pid, ptr, i, j) && LeavesWith(areas[i].regions, j, k.start)
  }

  ghost predicate LeavesWith(rs: seq<Region>, j: nat, page: nat)
    requires j < |rs|
  {
    OnPage(rs[j], page) && !Shared(page, j, rs) && !(j == 1 && rs[0].free && page < rs[1].start)
  }

  /** From `evicted` to `after` the pages that go with the release have left storage and no others; a buffer still
      there is as it was. */
  ghost predicate PagesGone(areas: seq<AreaState>, evicted: Memory, after: Memory, pid: int, ptr: nat) {
    && (forall q :: q in after.buffers ==> q in evicted.buffers && after.buffers[q] == evicted.buffers[q])
    && (forall k :: k in after.backing.store <==> k in evicted.backing.store && !PageGoes(areas, pid, ptr, k))
    && (forall k :: k in after.backing.store ==> after.backing.store[k] == evicted.backing.store[k])
  }

  lemma FoundIs(areas: seq<AreaState>, pid: int, ptr: nat, i: nat, j: nat)
    ensures Found(areas, pid, ptr, i, j) <==>
            i == AreaAt(areas, pid, ptr) < |areas| && j == RegionAt(areas[i].regions, ptr) < |areas[i].regions|
  {
  }

  /** The code's two searches find the region, if there is one. */
  predicate FindsRegion(areas: seq<AreaState>, pid: int, ptr: nat) {
    var i := AreaAt(areas, pid, ptr);
    i < |areas| && RegionAt(areas[i].regions, ptr) < |areas[i].regions|
  }

  lemma FoundOnly(areas: seq<AreaState>, pid: int, ptr: nat)
    requires FindsRegion(areas, pid, ptr)
    ensures var i := AreaAt(areas, pid, ptr);
            forall m: nat, n: nat :: Found(areas, pid, ptr, m, n) <==> m == i && n == RegionAt(areas[i].regions, ptr)
  {
    forall m: nat, n: nat
      ensures var i := AreaAt(areas, pid, ptr);
              Found(areas, pid, ptr, m, n) <==> m == i && n == RegionAt(areas[i].regions, ptr)
    {
      FoundIs(areas, pid, ptr, m, n);
    }
  }

  lemma FoundNone(areas: seq<AreaState>, pid: int, ptr: nat)
    requires !FindsRegion(areas, pid, ptr)
    ensures NamesNone(areas, pid, ptr)
  {
    forall m: nat, n: nat
      ensures !Found(areas, pid, ptr, m, n)
    {
      FoundIs(areas, pid, ptr, m, n);
    }
  }

  lemma FreedTakes(s: State, i: nat, j: nat)
    requires AreasSound(s) && i < |s.areas| && j < |s.areas[i].regions|
    ensures BlockTaken(s, WithFreed(s, i, j), i, j)
  {
    var a := s.areas[i];
    assert AreaOk(a);
    FreeInOk(a, j);
    ReleaseDropsOneBlock(a.regions, a.vmStart, j);
  }

  /** The list empties exactly when no other block of it is in use. */
  lemma EmptiesIff(rs: seq<Region>, base: nat, j: nat)
    requires RegionsOk(rs, base) && j < |rs|
    ensures Release(rs, j) != [] <==> exists r :: r in Live(rs) && r != rs[j]
  {
    ReleaseOk(rs, base, j);
    ReleaseDropsOneBlock(rs, base, j);
    EmptyWhenNoneLive(Release(rs, j), base);
    if exists r :: r in Live(rs) && r != rs[j] {
      var r :| r in Live(rs) && r != rs[j];
      assert r in Live(Release(rs, j));
    } else {
      assert forall r :: r !in Live(Release(rs, j));
    }
  }

  lemma VmaLeaves(s: State, i: nat)
    requires AreasSound(s) && i < |s.areas|
    ensures var a := s.areas[i];
            var lists := s.lists[a.mm := Remove(ListOf(s.lists, a.mm), a.vmStart)];
            VmaGone(s.lists, lists, a.mm, Vma(a.vmStart, a.vmEnd))
  {
    RemoveOk(ListOf(s.lists, s.areas[i].mm), Vma(s.areas[i].vmStart, s.areas[i].vmEnd));
  }

  lemma WithoutCloses(s: State, i: nat)
    requires AreasSound(s) && i < |s.areas|
    ensures AreaClosed(s, WithoutVma(s, i), i)
  {
    var a := s.areas[i];
    VmaLeaves(s, i);
    OtherAreaOf(s.areas, i);
    BufferOfLast(s, i);
  }

  lemma BufferOfLast(s: State, i: nat)
    requires i < |s.areas|
    ensures var a := s.areas[i];
            forall q :: q in WithoutVma(s, i).mem.buffers <==>
              q in s.mem.buffers && (q != a.pid || HasArea(s.areas[..i] + s.areas[i + 1..], a.pid))
  {
  }

  lemma OtherAreaOf(areas: seq<AreaState>, i: nat)
    requires i < |areas|
    ensures HasArea(areas[..i] + areas[i + 1..], areas[i].pid) <==>
            exists k :: 0 <= k < |areas| && k != i && areas[k].pid == areas[i].pid
  {
    var rest := areas[..i] + areas[i + 1..];
    if k :| 0 <= k < |areas| && k != i && areas[k].pid == areas[i].pid {
      assert rest[if k < i then k else k - 1] == areas[k];
    }
    assert forall k :: 0 <= k < |rest| ==> rest[k] == areas[if k < i then k else k + 1];
  }

  lemma RemoveFoundReturns(s: State, i: nat, j: nat)
    requires AreasSound(s) && i < |s.areas| && j < |s.areas[i].regions|
    ensures RegionTaken(s, RemoveFound(s, i, j), i, j)
  {
    assert AreaOk(s.areas[i]);
    EmptiesIff(s.areas[i].regions, s.areas[i].vmStart, j);
    var t := WithFreed(s, i, j);
    if t.areas[i].regions == [] {
      RemoveVmaOfEmpty(t, i);
      WithoutCloses(s, i);
      ClosedSame(s, i, j);
    } else {
      FreedTakes(s, i, j);
    }
  }

  lemma ClosedSame(s: State, i: nat, j: nat)
    requires i < |s.areas| && j < |s.areas[i].regions|
    ensures WithoutVma(WithFreed(s, i, j), i) == WithoutVma(s, i)
  {
    var t := WithFreed(s, i, j);
    assert t.areas[..i] == s.areas[..i] && t.areas[i + 1..] == s.areas[i + 1..];
  }

  lemma RemoveRegionReturns(s: State, pid: int, ptr: nat)
    requires AreasSound(s)
    ensures Returned(s, RemoveRegion(s, pid, ptr), pid, ptr)
  {
    RemoveRegionIs(s, pid, ptr);
    if FindsRegion(s.areas, pid, ptr) {
      var i := AreaAt(s.areas, pid, ptr);
      var j := RegionAt(s.areas[i].regions, ptr);
      RemoveFoundReturns(s, i, j);
      TakenReturns(s, RemoveFound(s, i, j), pid, ptr);
    } else {
      FoundNone(s.areas, pid, ptr);
    }
  }

  lemma TakenReturns(s: State, t: State, pid: int, ptr: nat)
    requires FindsRegion(s.areas, pid, ptr)
    requires var i := AreaAt(s.areas, pid, ptr); RegionTaken(s, t, i, RegionAt(s.areas[i].regions, ptr))
    ensures Returned(s, t, pid, ptr)
  {
    var i := AreaAt(s.areas, pid, ptr);
    FoundOnly(s.areas, pid, ptr);
    assert Found(s.areas, pid, ptr, i, RegionAt(s.areas[i].regions, ptr));
  }

  /** Which stored pages `remove_storage_pages` removes. */
  lemma PagesGo(s: State, pid: int, ptr: nat, k: Key)
    requires AreasSound(s) && BackingOk(s.mem.backing)
    ensures var store := RemoveStoragePages(s, pid, ptr).mem.backing.store;
            && (k in store <==> k in s.mem.backing.store && !PageGoes(s.areas, pid, ptr, k))
            && (k in store ==> store[k] == s.mem.backing.store[k])
  {
    RemovePagesIs(s, pid, ptr);
    if FindsRegion(s.areas, pid, ptr) {
      var i := AreaAt(s.areas, pid, ptr);
      var j := RegionAt(s.areas[i].regions, ptr);
      assert PageGoes(s.areas, pid, ptr, k) <==> k.pid == pid && LeavesWith(s.areas[i].regions, j, k.start) by {
        FoundOnly(s.areas, pid, ptr);
        assert Found(s.areas, pid, ptr, i, j);
      }
      RegionPagesGo(s, pid, i, j, k);
    } else {
      FoundNone(s.areas, pid, ptr);
    }
  }

  lemma RegionPagesGo(s: State, pid: int, i: nat, j: nat, k: Key)
    requires AreasSound(s) && BackingOk(s.mem.backing) && i < |s.areas| && j < |s.areas[i].regions|
    ensures var rs := s.areas[i].regions;
            var store := DropRegion(s.mem.backing, pid, rs, j).store;
            && (k in store <==> k in s.mem.backing.store && !(k.pid == pid && LeavesWith(rs, j, k.start)))
            && (k in store ==> store[k] == s.mem.backing.store[k])
  {
    assert AreaOk(s.areas[i]);
    DropRegionExactly(s.mem.backing, pid, s.areas[i].regions, s.areas[i].vmStart, j);
  }

  /** `generic_free`, for any pointer and whatever fails: what becomes of areas, VMAs, buffers and stored pages, once
      the pid's pages have been evicted. */
  lemma FreeExactly(s: State, pid: int, ptr: nat, io: Io)
    requires Inv(s)
    ensures var t := Free(s, pid, ptr, io);
            var evicted := UnmapBoth(s.mem, s.lists, pid, io).mem;
            Returned(s, t, pid, ptr) && PagesGone(s.areas, evicted, t.mem, pid, ptr)
  {
    var u := s.(mem := UnmapBoth(s.mem, s.lists, pid, io).mem);
    var v := RemoveStoragePages(u, pid, ptr);
    UnmapBothInv(s, pid, io);
    UnmapBothKeeps(s.mem, s.lists, pid, io);
    PagesOnlyGo(u, pid, ptr);
    RemoveRegionReturns(v, pid, ptr);
    ReturnedAfter(s, v, Free(s, pid, ptr, io), pid, ptr);
    RemoveRegionStore(v, pid, ptr);
    BuffersStay(v, pid, ptr);
  }

  /** Only areas, VMA lists and which buffers there are matter to what a release gives back. */
  lemma ReturnedAfter(s: State, v: State, t: State, pid: int, ptr: nat)
    requires v.areas == s.areas && v.lists == s.lists && v.mem.buffers.Keys == s.mem.buffers.Keys
    requires Returned(v, t, pid, ptr)
    ensures Returned(s, t, pid, ptr)
  {
    forall i: nat, j: nat | Found(s.areas, pid, ptr, i, j)
      ensures RegionTaken(s, t, i, j)
    {
      assert RegionTaken(v, t, i, j);
      TakenAfter(s, v, t, i, j);
    }
  }

  lemma TakenAfter(s: State, v: State, t: State, i: nat, j: nat)
    requires v.areas == s.areas && v.lists == s.lists && v.mem.buffers.Keys == s.mem.buffers.Keys
    requires i < |v.areas| && j < |v.areas[i].regions| && RegionTaken(v, t, i, j)
    ensures RegionTaken(s, t, i, j)
  {
  }

  lemma PagesOnlyGo(u: State, pid: int, ptr: nat)
    requires AreasSound(u) && BackingOk(u.mem.backing)
    ensures var v := RemoveStoragePages(u, pid, ptr);
            && v.areas == u.areas && v.lists == u.lists && v.mem.buffers == u.mem.buffers
            && PagesGone(u.areas, u.mem, v.mem, pid, ptr)
  {
    var v := RemoveStoragePages(u, pid, ptr);
    forall k
      ensures k in v.mem.backing.store <==> k in u.mem.backing.store && !PageGoes(u.areas, pid, ptr, k)
      ensures k in v.mem.backing.store ==> v.mem.backing.store[k] == u.mem.backing.store[k]
    {
      PagesGo(u, pid, ptr, k);
    }
  }

  lemma BuffersStay(s: State, pid: int, ptr: nat)
    ensures var t := RemoveRegion(s, pid, ptr);
            forall q :: q in t.mem.buffers ==> q in s.mem.buffers && t.mem.buffers[q] == s.mem.buffers[q]
  {
    RemoveRegionIs(s, pid, ptr);
    if FindsRegion(s.areas, pid, ptr) {
      var i := AreaAt(s.areas, pid, ptr);
      var t := WithFreed(s, i, RegionAt(s.areas[i].regions, ptr));
      if t.areas[i].regions == [] {
        RemoveVmaOfEmpty(t, i);
      }
    }
  }
}
