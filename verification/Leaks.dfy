/** Which pages outlive the blocks on them: over whole runs none, save for one case of `can_remove_page`, which is
    exact and which a short run meets. */
module Leaks {
  import opened Kutils
  import opened Regions
  import opened Areas
  import opened Vmas
  import opened StoredPages
  import opened PageRemoval
  import opened Paging
  import opened GenericMalloc
  import opened Invariant
  import opened FlatHeap
  import opened Runs
  import opened Concrete

  /** The page is in storage or in a slot, for the pid of the key. */
  predicate Present(m: Memory, k: Key) {
    k in m.backing.store || Mapped(m, k)
  }

  /** Region `r` is a block in use of area `i`, of the key's pid, and lies on the page. */
  ghost predicate UsedBy(areas: seq<AreaState>, k: Key, i: int, r: Region) {
    0 <= i < |areas| && areas[i].pid == k.pid && r in Live(areas[i].regions) && OnPage(r, k.start)
  }

  ghost predicate PageUsed(areas: seq<AreaState>, k: Key) {
    exists i, r :: UsedBy(areas, k, i, r)
  }

  /** A block of the pid other than region `j` of area `i` lies on the page. */
  ghost predicate UsedByOther(areas: seq<AreaState>, k: Key, i: nat, x: Region) {
    exists m, r :: UsedBy(areas, k, m, r) && !(m == i && r == x)
  }

  /** Every page the pid has in storage or in a slot holds a block of the pid. */
  ghost predicate Tidy(s: State, pid: int) {
    forall k: Key :: k.pid == pid && Present(s.mem, k) ==> PageUsed(s.areas, k)
  }

  /** The release that leaves a page behind: it takes the second region, the first is free, both lie on the page, no
      other block of the pid does, and the page is in storage after the eviction. */
  ghost predicate Leaks(s: State, pid: int, ptr: nat, io: Io) {
    var i := AreaAt(s.areas, pid, ptr);
    i < |s.areas| && var rs := s.areas[i].regions;
    |rs| > 1 && RegionAt(rs, ptr) == 1 && rs[0].free
    && var k := Key(pid, PageFloor(rs[1].start));
       && k.start < rs[1].start
       && k in UnmapBoth(s.mem, s.lists, pid, io).mem.backing.store
       && !UsedByOther(s.areas, k, i, rs[1])
  }

  // ----- What operations leave present -----

  /** Nothing becomes present. */
  ghost predicate NoneNew(m: Memory, n: Memory) {
    forall k :: Present(n, k) ==> Present(m, k)
  }

  lemma UnmapBufferNoneNew(m: Memory, lists: VmaLists, pid: int, copying: Copying)
    requires pid in m.buffers && m.buffers[pid].vma.Some?
    ensures NoneNew(m, UnmapBuffer(m, lists, pid, copying).mem)
  {
  }

  lemma CacheNoneNew(m: Memory, lists: VmaLists, pid: int, copying: Copying)
    requires pid in m.buffers
    ensures NoneNew(m, UnmapCache(m, lists, pid, copying).mem)
  {
    if m.buffers[pid].cacheVma.Some? {
      var s := SwapSlots(m, pid);
      UnmapBufferNoneNew(s, lists, pid, copying);
      assert NoneNew(m, s);
    }
  }

  lemma BothNoneNew(m: Memory, lists: VmaLists, pid: int, io: Io)
    ensures NoneNew(m, UnmapBoth(m, lists, pid, io).mem)
  {
    if pid in m.buffers {
      var first := UnmapFront(m, lists, pid, io.copy1);
      if m.buffers[pid].vma.Some? {
        UnmapBufferNoneNew(m, lists, pid, io.copy1);
      }
      if !first.failed {
        CacheNoneNew(first.mem, lists, pid, io.copy2);
      }
    }
  }

  lemma OldestNoneNew(m: Memory, lists: VmaLists, pid: int, io: Io)
    ensures NoneNew(m, UnmapOldest(m, lists, pid, io).mem)
  {
    if pid in m.buffers {
      if m.buffers[pid].cacheVma.Some? {
        CacheNoneNew(m, lists, pid, io.copy1);
      } else {
        assert NoneNew(m, SwapSlots(m, pid));
      }
    }
  }

  /** A fault makes at most the faulting page present. */
  lemma FaultNew(s: State, pid: int, v: VmaRef, page: nat, io: Io, k: Key)
    requires Present(Fault(s, pid, v, page, io).mem, k)
    ensures Present(s.mem, k) || (k == Key(pid, page) && ValidAddress(s.areas, v, page))
  {
    if ValidAddress(s.areas, v, page) {
      OldestNoneNew(s.mem, s.lists, pid, io);
    }
  }

  lemma RemovePagesNoneNew(s: State, pid: int, ptr: nat)
    requires Inv(s)
    ensures NoneNew(s.mem, RemoveStoragePages(s, pid, ptr).mem)
  {
    RemovePagesIs(s, pid, ptr);
    var i := AreaAt(s.areas, pid, ptr);
    if i < |s.areas| && RegionAt(s.areas[i].regions, ptr) < |s.areas[i].regions| {
      DropNoneNew(s, pid, i, RegionAt(s.areas[i].regions, ptr));
    }
  }

  lemma DropNoneNew(s: State, pid: int, i: nat, j: nat)
    requires Inv(s) && i < |s.areas| && j < |s.areas[i].regions|
    ensures NoneNew(s.mem, s.mem.(backing := DropRegion(s.mem.backing, pid, s.areas[i].regions, j)))
  {
    assert AreaOk(s.areas[i]);
    DropRegionExactly(s.mem.backing, pid, s.areas[i].regions, s.areas[i].vmStart, j);
  }

  lemma RemoveRegionNoneNew(s: State, pid: int, ptr: nat)
    ensures NoneNew(s.mem, RemoveRegion(s, pid, ptr).mem)
  {
    RemoveRegionStore(s, pid, ptr);
    RemoveAmong(s, pid, ptr);
  }

  lemma FreeNoneNew(s: State, pid: int, ptr: nat, io: Io)
    requires Inv(s)
    ensures NoneNew(s.mem, Free(s, pid, ptr, io).mem)
  {
    var t := s.(mem := UnmapBoth(s.mem, s.lists, pid, io).mem);
    var u := RemoveStoragePages(t, pid, ptr);
    BothNoneNew(s.mem, s.lists, pid, io);
    UnmapBothInv(s, pid, io);
    RemovePagesNoneNew(t, pid, ptr);
    RemoveRegionNoneNew(u, pid, ptr);
  }

  // ----- What operations leave used -----

  lemma MallocUsed(s: State, task: Task, size: nat, k: Key)
    requires Inv(s) && KnowsTask(s.areas, task) && size > 0 && PageUsed(s.areas, k)
    ensures PageUsed(CreateRegion(s, task, size).areas, k)
  {
    ContainerKeeps(s, task, size);
    var (c, i) := Container(s, task, size);
    AllocUsed(s, c, i, size, k);
  }

  lemma AllocUsed(s: State, c: State, i: nat, size: nat, k: Key)
    requires ContainerOk(s, c, i) && 0 < size <= c.areas[i].freeSpace && PageUsed(s.areas, k)
    ensures PageUsed(c.areas[i := AllocIn(c.areas[i], size)], k)
  {
    var j, r :| UsedBy(s.areas, k, j, r);
    PlaceLive(c.areas[i].regions, c.areas[i].vmStart, size);
    assert c.areas[j].regions == s.areas[j].regions && c.areas[j].pid == s.areas[j].pid;
    assert UsedBy(c.areas[i := AllocIn(c.areas[i], size)], k, j, r);
  }

  /** After a release the pages used are those that something else than the region released lies on. */
  lemma ReleasedUsed(s: State, i: nat, j: nat, k: Key)
    requires AllAreasOk(s.areas) && i < |s.areas| && j < |s.areas[i].regions|
    ensures PageUsed(RemoveFound(s, i, j).areas, k) <==> UsedByOther(s.areas, k, i, s.areas[i].regions[j])
  {
    FreedUsed(s, i, j, k);
    var t := WithFreed(s, i, j);
    if t.areas[i].regions == [] {
      RemoveVmaOfEmpty(t, i);
      EmptyUsed(t.areas, i, k);
    }
  }

  lemma FreedUsed(s: State, i: nat, j: nat, k: Key)
    requires AllAreasOk(s.areas) && i < |s.areas| && j < |s.areas[i].regions|
    ensures PageUsed(WithFreed(s, i, j).areas, k) <==> UsedByOther(s.areas, k, i, s.areas[i].regions[j])
  {
    var a := s.areas[i];
    var t := WithFreed(s, i, j).areas;
    assert AreaOk(a);
    ReleaseDropsOneBlock(a.regions, a.vmStart, j);
    forall m, r
      ensures UsedBy(t, k, m, r) <==> UsedBy(s.areas, k, m, r) && !(m == i && r == a.regions[j])
    {
    }
  }

  lemma EmptyUsed(areas: seq<AreaState>, i: nat, k: Key)
    requires i < |areas| && areas[i].regions == []
    ensures PageUsed(areas[..i] + areas[i + 1..], k) <==> PageUsed(areas, k)
  {
    var rest := areas[..i] + areas[i + 1..];
    if PageUsed(areas, k) {
      var m, r :| UsedBy(areas, k, m, r);
      assert rest[if m < i then m else m - 1] == areas[m];
      assert UsedBy(rest, k, if m < i then m else m - 1, r);
    }
    if PageUsed(rest, k) {
      var m, r :| UsedBy(rest, k, m, r);
      assert areas[if m < i then m else m + 1] == rest[m];
      assert UsedBy(areas, k, if m < i then m else m + 1, r);
    }
  }

  /** A release by another pid takes no block of this one. */
  lemma OtherFreeUsed(s: State, p: int, ptr: nat, k: Key)
    requires AllAreasOk(s.areas) && PageUsed(s.areas, k) && p != k.pid
    ensures PageUsed(RemoveRegion(s, p, ptr).areas, k)
  {
    RemoveRegionIs(s, p, ptr);
    var i := AreaAt(s.areas, p, ptr);
    if i < |s.areas| && RegionAt(s.areas[i].regions, ptr) < |s.areas[i].regions| {
      ReleasedUsed(s, i, RegionAt(s.areas[i].regions, ptr), k);
      var m, r :| UsedBy(s.areas, k, m, r);
      assert m != i;
    }
  }

  // ----- The release -----

  /** Storage and slots just after the eviction of a release of which no save fails. */
  lemma EvictedTidy(s: State, pid: int, io: Io)
    requires Inv(s) && Tidy(s, pid) && NoneFails(io)
    ensures var t := s.(mem := UnmapBoth(s.mem, s.lists, pid, io).mem);
            Tidy(t, pid) && SlotsFree(t.mem, pid)
  {
    PlacedExists(s, pid);
    UnmapBothFrees(s.mem, s.lists, pid, io);
    BothNoneNew(s.mem, s.lists, pid, io);
  }

  /** Whether a stored page that nothing but the region released lies on stays in storage. */
  lemma StaysStored(s: State, pid: int, i: nat, j: nat, k: Key)
    requires Inv(s) && i < |s.areas| && s.areas[i].pid == pid == k.pid && j < |s.areas[i].regions|
    requires k in s.mem.backing.store
    requires PageUsed(s.areas, k) && !UsedByOther(s.areas, k, i, s.areas[i].regions[j])
    ensures var rs := s.areas[i].regions;
            k in DropRegion(s.mem.backing, pid, rs, j).store <==>
            j == 1 && rs[0].free && k.start == PageFloor(rs[1].start) < rs[1].start
  {
    var rs := s.areas[i].regions;
    assert AreaOk(s.areas[i]);
    var m, r :| UsedBy(s.areas, k, m, r);
    assert m == i && r == rs[j];
    assert !Shared(k.start, j, rs) by {
      NotShared(s, i, j, k);
    }
    DropRegionExactly(s.mem.backing, pid, rs, s.areas[i].vmStart, j);
    if j == 1 && k.start < rs[1].start {
      FirstPage(rs[1], k.start);
    }
  }

  lemma NotShared(s: State, i: nat, j: nat, k: Key)
    requires AllAreasOk(s.areas) && i < |s.areas| && s.areas[i].pid == k.pid && j < |s.areas[i].regions|
    requires !UsedByOther(s.areas, k, i, s.areas[i].regions[j])
    ensures !Shared(k.start, j, s.areas[i].regions)
  {
    var rs := s.areas[i].regions;
    assert AreaOk(s.areas[i]);
    forall n | 0 <= n < |rs| && n != j && !rs[n].free
      ensures !OnPage(rs[n], k.start)
    {
      if rs[n] == rs[j] {
        StartUnique(rs, s.areas[i].vmStart, n, j);
      }
      assert UsedBy(s.areas, k, i, rs[n]) <==> OnPage(rs[n], k.start);
    }
  }

  lemma FirstPage(x: Region, page: nat)
    requires Aligned(page) && OnPage(x, page) && page < x.start
    ensures page == PageFloor(x.start)
  {
    if page < PageFloor(x.start) {
      AlignedApart(page, PageFloor(x.start));
    }
    if PageFloor(x.start) < page {
      AlignedApart(PageFloor(x.start), page);
    }
  }

  /** Area `i`'s second region, behind a free one, shares its first page with it, the page is stored, and no other
      block of the pid lies on it. */
  ghost predicate LoneFirstPage(s: State, i: nat, j: nat)
    requires i < |s.areas| && j < |s.areas[i].regions|
  {
    var rs := s.areas[i].regions;
    j == 1 && rs[0].free
    && var k := Key(s.areas[i].pid, PageFloor(rs[1].start));
       k.start < rs[1].start && k in s.mem.backing.store && !UsedByOther(s.areas, k, i, rs[1])
  }

  lemma FoundTidyIff(s: State, i: nat, j: nat)
    requires Inv(s) && i < |s.areas| && j < |s.areas[i].regions|
    requires Tidy(s, s.areas[i].pid) && SlotsFree(s.mem, s.areas[i].pid)
    ensures var a := s.areas[i];
            var u := s.(mem := s.mem.(backing := DropRegion(s.mem.backing, a.pid, a.regions, j)));
            Tidy(RemoveFound(u, i, j), a.pid) <==> !LoneFirstPage(s, i, j)
  {
    var a := s.areas[i];
    var d := DropRegion(s.mem.backing, a.pid, a.regions, j);
    var u := s.(mem := s.mem.(backing := d));
    var t := RemoveFound(u, i, j);
    FoundPresent(u, i, j);
    forall k: Key | k.pid == a.pid
      ensures PageUsed(t.areas, k) <==> UsedByOther(s.areas, k, i, a.regions[j])
    {
      ReleasedUsed(u, i, j, k);
    }
    if LoneFirstPage(s, i, j) {
      var k := Key(a.pid, PageFloor(a.regions[1].start));
      assert Present(s.mem, k);
      StaysStored(s, a.pid, i, j, k);
      assert Present(t.mem, k) && !PageUsed(t.areas, k);
    } else {
      forall k: Key | k.pid == a.pid && Present(t.mem, k)
        ensures PageUsed(t.areas, k)
      {
        DroppedSubset(s, i, j, k);
        if !UsedByOther(s.areas, k, i, a.regions[j]) {
          assert Present(s.mem, k);
          StaysStored(s, a.pid, i, j, k);
        }
      }
    }
  }

  lemma DroppedSubset(s: State, i: nat, j: nat, k: Key)
    requires Inv(s) && i < |s.areas| && j < |s.areas[i].regions|
    requires k in DropRegion(s.mem.backing, s.areas[i].pid, s.areas[i].regions, j).store
    ensures k in s.mem.backing.store
  {
    assert AreaOk(s.areas[i]);
    DropRegionExactly(s.mem.backing, s.areas[i].pid, s.areas[i].regions, s.areas[i].vmStart, j);
  }

  /** With its slots free, what is present for the pid is what is stored. */
  lemma FoundPresent(s: State, i: nat, j: nat)
    requires i < |s.areas| && j < |s.areas[i].regions| && SlotsFree(s.mem, s.areas[i].pid)
    ensures forall k: Key :: k.pid == s.areas[i].pid ==>
              (Present(RemoveFound(s, i, j).mem, k) <==> k in s.mem.backing.store)
  {
    var t := WithFreed(s, i, j);
    if t.areas[i].regions == [] {
      RemoveVmaOfEmpty(t, i);
    }
  }

  /** A release of which no save fails leaves a page without a block exactly in that case. */
  lemma FreeTidyIff(s: State, pid: int, ptr: nat, io: Io)
    requires Inv(s) && Tidy(s, pid) && NoneFails(io)
    ensures Tidy(Free(s, pid, ptr, io), pid) <==> !Leaks(s, pid, ptr, io)
  {
    var t := s.(mem := UnmapBoth(s.mem, s.lists, pid, io).mem);
    var i := AreaAt(s.areas, pid, ptr);
    EvictedTidy(s, pid, io);
    UnmapBothInv(s, pid, io);
    RemoveRegionIs(RemoveStoragePages(t, pid, ptr), pid, ptr);
    RemovePagesIs(t, pid, ptr);
    if i < |s.areas| && RegionAt(s.areas[i].regions, ptr) < |s.areas[i].regions| {
      FoundTidyIff(t, i, RegionAt(s.areas[i].regions, ptr));
    }
  }

  // ----- Runs -----

  /** What is asked of the pid: its releases save, none leaks, and it faults only on its own blocks. */
  ghost predicate Careful(s: State, op: Op, pid: int) {
    match op
    case OpFree(task, ptr, io) => task.pid == pid ==> NoneFails(io) && !Leaks(s, pid, ptr, io)
    case OpFault(task, v, page, _) =>
      task.pid == pid && ValidAddress(s.areas, v, page) ==> HasBlockOn(s.areas, task, page)
    case _ => true
  }

  ghost predicate AllCareful(s: State, ops: seq<Op>, pid: int)
    requires Run(s, ops)
    decreases |ops|
  {
    ops == [] || (Careful(s, ops[0], pid) && AllCareful(Step(s, ops[0]), ops[1..], pid))
  }

  lemma BlockUses(areas: seq<AreaState>, task: Task, page: nat)
    requires HasBlockOn(areas, task, page)
    ensures PageUsed(areas, Key(task.pid, page))
  {
    var b :| IsLive(areas, b) && b.mm == task.mm && b.pid == task.pid && OnPage(b.AsRegion(), page);
    var i :| 0 <= i < |areas| && areas[i].pid == b.pid && b.AsRegion() in areas[i].regions;
    assert UsedBy(areas, Key(task.pid, page), i, b.AsRegion());
  }

  lemma MallocTidy(s: State, task: Task, size: nat, io: Io, pid: int)
    requires Inv(s) && KnowsTask(s.areas, task) && size > 0 && Tidy(s, pid)
    ensures Tidy(Malloc(s, task, size, io), pid)
  {
    var c := CreateRegion(s, task, size);
    CreatePlaces(s, task, size);
    BothNoneNew(c.mem, c.lists, task.pid, io);
    forall k: Key | k.pid == pid && Present(Malloc(s, task, size, io).mem, k)
      ensures PageUsed(c.areas, k)
    {
      assert Present(s.mem, k);
      MallocUsed(s, task, size, k);
    }
  }

  lemma OtherFreeTidy(s: State, p: int, ptr: nat, io: Io, pid: int)
    requires Inv(s) && Tidy(s, pid) && p != pid
    ensures Tidy(Free(s, p, ptr, io), pid)
  {
    FreeNoneNew(s, p, ptr, io);
    var u := RemoveStoragePages(s.(mem := UnmapBoth(s.mem, s.lists, p, io).mem), p, ptr);
    forall k: Key | k.pid == pid && Present(Free(s, p, ptr, io).mem, k)
      ensures PageUsed(Free(s, p, ptr, io).areas, k)
    {
      assert Present(s.mem, k);
      OtherFreeUsed(u, p, ptr, k);
    }
  }

  lemma FaultTidy(s: State, task: Task, v: VmaRef, page: nat, io: Io, pid: int)
    requires Tidy(s, pid)
    requires task.pid == pid && ValidAddress(s.areas, v, page) ==> HasBlockOn(s.areas, task, page)
    ensures Tidy(Fault(s, task.pid, v, page, io), pid)
  {
    forall k: Key | k.pid == pid && Present(Fault(s, task.pid, v, page, io).mem, k)
      ensures PageUsed(s.areas, k)
    {
      FaultNew(s, task.pid, v, page, io, k);
      if k == Key(task.pid, page) && ValidAddress(s.areas, v, page) {
        BlockUses(s.areas, task, page);
      }
    }
  }

  lemma StepTidy(s: State, op: Op, pid: int)
    requires Inv(s) && Delivered(s, op) && Tidy(s, pid) && Careful(s, op, pid)
    ensures Tidy(Step(s, op), pid)
  {
    match op
    case OpMalloc(task, size, io) => MallocTidy(s, task, size, io, pid);
    case OpFree(task, ptr, io) =>
      if task.pid == pid {
        FreeTidyIff(s, pid, ptr, io);
      } else {
        OtherFreeTidy(s, task.pid, ptr, io, pid);
      }
    case OpFault(task, v, page, io) => FaultTidy(s, task, v, page, io, pid);
    case OpWrite(task, address, value) =>
      assert NoneNew(s.mem, Step(s, op).mem);
    case _ =>
  }

  /** Over every run every page that a pid has in storage or in a slot holds a block of the pid, as long as its
      releases save and none is the one that leaks. */
  lemma {:induction false} RunTidy(s: State, ops: seq<Op>, pid: int)
    requires Inv(s) && Run(s, ops) && Tidy(s, pid) && AllCareful(s, ops, pid)
    ensures Tidy(After(s, ops), pid)
    decreases |ops|
  {
    if ops != [] {
      StepInv(s, ops[0]);
      StepTidy(s, ops[0], pid);
      RunTidy(Step(s, ops[0]), ops[1..], pid);
    }
  }

  /** So a pid that has released everything has nothing stored and nothing mapped. */
  lemma NothingLeft(lists: VmaLists, ops: seq<Op>, pid: int, k: Key)
    requires ListsOk(lists) && Run(Initial(lists), ops) && AllCareful(Initial(lists), ops, pid)
    requires !HasArea(After(Initial(lists), ops).areas, pid) && k.pid == pid
    ensures !Present(After(Initial(lists), ops).mem, k)
  {
    InitialInv(lists);
    RunTidy(Initial(lists), ops, pid);
  }

  // ----- The case that leaks -----

  /** Two blocks on one page are allocated and touched, and released in order. */
  function LeakOps(): seq<Op> {
    [Get(1, 100), Get(1, 50), OpFault(Task(1, 1), VmaRef(1, 4096), 4096, AllSucceed()),
     GiveBack(1, 4096), GiveBack(1, 4196)]
  }

  /** The page in the front slot of thread 1, and the slot once the page has left it. */
  function TouchedBuffer(): Buffer {
    EmptyBuffer().(vma := Some(VmaRef(1, 4096)), start := 4096)
  }

  function SavedBacking(): Backing {
    Backing([Key(1, 4096)], map[Key(1, 4096) := ZeroPage()])
  }

  function LeakStates(): seq<State> {
    var x, y := Region(4096, 100, false), Region(4196, 50, false);
    [Initial(map[]),
     OneArea(OneVma(), 8092, 0, [x]),
     OneArea(OneVma(), 8042, 0, [x, y]),
     OneArea(OneVma(), 8042, 0, [x, y]).(mem := Memory(map[1 := TouchedBuffer()], Backing([], map[]))),
     OneArea(OneVma(), 8142, 0, [Region(4096, 100, true), y])
       .(mem := Memory(map[1 := TouchedBuffer().(vma := None)], SavedBacking())),
     State([], map[1 := []], Memory(map[], SavedBacking()))]
  }

  lemma Leak0()
    ensures Link(LeakStates(), LeakOps(), 0)
  {
    FirstMalloc(100);
  }

  lemma Leak1()
    ensures Link(LeakStates(), LeakOps(), 1)
  {
    var x, y := Region(4096, 100, false), Region(4196, 50, false);
    assert [x][1..] == [];
    assert Place([x], 4096, 50) == [x, y];
    MallocInOneArea(OneVma(), 8092, 0, [x], 50);
  }

  lemma Leak2()
    ensures Link(LeakStates(), LeakOps(), 2)
  {
    var s := LeakStates()[2];
    assert Vma(4096, 12288) in ListOf(s.lists, 1);
    assert s.areas[0].regions[0] == Region(4096, 100, false);
    assert Accepts(s.areas[0].regions, 4096);
    assert ValidAddress(s.areas, VmaRef(1, 4096), 4096);
  }

  lemma KeptBySecond()
    ensures var rs := [Region(4096, 100, false), Region(4196, 50, false)];
            DropRegion(SavedBacking(), 1, rs, 0) == SavedBacking()
  {
    var rs := [Region(4096, 100, false), Region(4196, 50, false)];
    assert NextSeen(rs, 0) == 1;
    assert !CanRemove(4096, 0, rs);
    OnePage(rs, 0);
  }

  lemma KeptBehindHole()
    ensures var rs := [Region(4096, 100, true), Region(4196, 50, false)];
            DropRegion(SavedBacking(), 1, rs, 1) == SavedBacking()
  {
    var rs := [Region(4096, 100, true), Region(4196, 50, false)];
    assert PrevSeen(rs, 1) == 0;
    assert !CanRemove(4096, 1, rs);
    OnePage(rs, 1);
  }

  /** The loop over the pages of a region that lies on the first page only. */
  lemma OnePage(rs: seq<Region>, i: nat)
    requires i < |rs| && 4096 <= rs[i].start && 0 < rs[i].size && rs[i].End() <= 8192
    requires !CanRemove(4096, i, rs)
    ensures DropRegion(SavedBacking(), 1, rs, i) == SavedBacking()
  {
    assert PageFloor(rs[i].start) == 4096 && PageCeil(rs[i].End()) == 8192;
    assert DropPages(SavedBacking(), 1, rs, i, 8192, 8192) == SavedBacking();
  }

  lemma Leak3()
    ensures Link(LeakStates(), LeakOps(), 3)
  {
    var s := LeakStates()[3];
    var x, y := Region(4096, 100, false), Region(4196, 50, false);
    assert Exists(s.lists, VmaRef(1, 4096));
    assert UnmapBoth(s.mem, s.lists, 1, AllSucceed()).mem ==
           Memory(map[1 := TouchedBuffer().(vma := None)], SavedBacking());
    assert AreaAt(s.areas, 1, 4096) == 0 && RegionAt([x, y], 4096) == 0;
    ReleaseFirst(x, y);
    KeptBySecond();
  }

  lemma SecondReleased()
    ensures var rs := [Region(4096, 100, true), Region(4196, 50, false)];
            RegionAt(rs, 4196) == 1 && Release(rs, 1) == []
  {
    var hole, y := Region(4096, 100, true), Region(4196, 50, false);
    assert [hole, y][1..] == [y];
  }

  /** What closing the area comes to. */
  lemma LastAreaGoes(rs: seq<Region>, freeSpace: nat)
    ensures var s := OneArea(OneVma(), freeSpace, 0, rs)
                       .(mem := Memory(map[1 := TouchedBuffer().(vma := None)], SavedBacking()));
            WithoutVma(s, 0) == LeakStates()[5]
  {
    var s := OneArea(OneVma(), freeSpace, 0, rs);
    assert s.areas[..0] + s.areas[1..] == [];
    assert Remove([Vma(4096, 12288)], 4096) == [];
    assert map[1 := TouchedBuffer().(vma := None)] - {1} == map[];
  }

  lemma Leak4()
    ensures Link(LeakStates(), LeakOps(), 4)
  {
    Leak4Delivered();
    Leak4Free();
  }

  lemma Leak4Free()
    ensures Free(LeakStates()[4], 1, 4196, AllSucceed()) == LeakStates()[5]
  {
    var s := LeakStates()[4];
    assert UnmapBoth(s.mem, s.lists, 1, AllSucceed()).mem == s.mem;
    SecondReleased();
    KeptBehindHole();
    assert RemoveStoragePages(s, 1, 4196) == s;
    RemoveRegionIs(s, 1, 4196);
    RemoveVmaOfEmpty(WithFreed(s, 0, 1), 0);
    LastAreaGoes([], 8192);
    assert WithFreed(s, 0, 1).areas == OneArea(OneVma(), 8192, 0, []).areas;
  }

  lemma Leak4Delivered()
    ensures Delivered(LeakStates()[4], LeakOps()[4])
  {
    var s := LeakStates()[4];
    assert UnmapBoth(s.mem, s.lists, 1, AllSucceed()).mem == s.mem;
    LastAreaGoes(s.areas[0].regions, 8142);
  }

  lemma LeakStep(i: nat)
    requires i < 5
    ensures Link(LeakStates(), LeakOps(), i)
  {
    match i
    case 0 => Leak0();
    case 1 => Leak1();
    case 2 => Leak2();
    case 3 => Leak3();
    case _ => Leak4();
  }

  /** A run in which nothing fails and everything is released: no area, no VMA of the allocator and no buffer is
      left, but the page is still stored and listed. */
  lemma LeakRun()
    ensures Run(Initial(map[]), LeakOps())
    ensures var t := After(Initial(map[]), LeakOps());
            && t.areas == [] && t.mem.buffers == map[] && t.lists == map[1 := []]
            && t.mem.backing.index == [Key(1, 4096)] && Key(1, 4096) in t.mem.backing.store
            && !Tidy(t, 1)
  {
    forall i: nat | i < 5
      ensures Link(LeakStates(), LeakOps(), i)
    {
      LeakStep(i);
    }
    LinksRun(LeakStates(), LeakOps());
    assert Present(LeakStates()[5].mem, Key(1, 4096));
  }
}
