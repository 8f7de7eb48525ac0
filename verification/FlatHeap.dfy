/** What a program may rely on: for each process a heap of disjoint blocks whose bytes keep what was last written to
    them. The allocator refines it over every run, whatever other processes do. */
module FlatHeap {
  import opened Kutils
  import opened Regions
  import opened Areas
  import opened StoredPages
  import opened PageRemoval
  import opened Paging
  import opened GenericMalloc
  import opened Invariant

  /** A block of a thread, in the address space of the thread's process. */
  datatype Block = Block(mm: int, pid: int, start: nat, size: nat) {
    predicate Has(address: nat) {
      start <= address < start + size
    }

    function AsRegion(): Region {
      Region(start, size, false)
    }
  }

  /** The blocks in use in one process, and the bytes written to them since their allocation. */
  datatype Heap = Heap(live: iset<Block>, bytes: map<nat, Byte>)

  ghost predicate InLive(h: Heap, address: nat) {
    exists b :: b in h.live && b.Has(address)
  }

  predicate Apart(b: Block, c: Block) {
    b.start + b.size <= c.start || c.start + c.size <= b.start
  }

  ghost predicate DisjointFrom(h: Heap, b: Block) {
    forall c :: c in h.live ==> Apart(b, c)
  }

  /** Blocks are not empty, and no two share an address, whichever threads they belong to. */
  ghost predicate HeapOk(h: Heap) {
    && (forall b :: b in h.live ==> b.size > 0)
    && (forall b, c :: b in h.live && c in h.live && b != c ==> Apart(b, c))
  }

  ghost function HeapMalloc(h: Heap, b: Block): Heap {
    Heap(h.live + iset{b}, h.bytes)
  }

  ghost predicate Freed(h: Heap, pid: int, ptr: nat, address: nat) {
    exists b :: b in h.live && b.pid == pid && b.start == ptr && b.Has(address)
  }

  ghost function HeapFree(h: Heap, pid: int, ptr: nat): Heap {
    Heap(iset b | b in h.live && !(b.pid == pid && b.start == ptr),
         map a | a in h.bytes && !Freed(h, pid, ptr, a) :: h.bytes[a])
  }

  ghost function HeapWrite(h: Heap, address: nat, value: Byte): Heap {
    if InLive(h, address) then h.(bytes := h.bytes[address := value]) else h
  }

  // ----- The refinement relation -----

  /** A used region of an area of the thread. */
  ghost predicate IsLive(areas: seq<AreaState>, b: Block) {
    exists i :: 0 <= i < |areas| && areas[i].mm == b.mm && areas[i].pid == b.pid && b.AsRegion() in areas[i].regions
  }

  /** The heap's blocks are those of the threads of the process. */
  ghost predicate LiveAgrees(areas: seq<AreaState>, h: Heap, mm: int) {
    forall b :: b in h.live <==> b.mm == mm && IsLive(areas, b)
  }

  ghost predicate BytesAgree(m: Memory, h: Heap) {
    && (forall a :: a in h.bytes ==> InLive(h, a))
    && (forall a, b :: a in h.bytes && b in h.live && b.Has(a) ==> ByteAt(m, b.pid, a) == h.bytes[a])
  }

  ghost predicate Refines(s: State, h: Heap, mm: int) {
    LiveAgrees(s.areas, h, mm) && BytesAgree(s.mem, h)
  }

  /** The pages of the pids with blocks in the heap read the same. */
  ghost predicate SameFor(m: Memory, n: Memory, h: Heap) {
    forall b, k: Key :: b in h.live && k.pid == b.pid ==> Contents(n, k) == Contents(m, k)
  }

  lemma SameContentsAgree(m: Memory, n: Memory, h: Heap)
    requires BytesAgree(m, h) && SameFor(m, n, h)
    ensures BytesAgree(n, h)
  {
    forall a, b | a in h.bytes && b in h.live && b.Has(a)
      ensures ByteAt(n, b.pid, a) == h.bytes[a]
    {
      assert Contents(n, PageOf(b.pid, a)) == Contents(m, PageOf(b.pid, a));
    }
  }

  /** A pid with a block in the process belongs to it. */
  lemma BlockOfProcess(s: State, h: Heap, b: Block, task: Task)
    requires LiveAgrees(s.areas, h, b.mm) && b in h.live && KnowsTask(s.areas, task) && task.pid == b.pid
    ensures task.mm == b.mm
  {
    var i :| 0 <= i < |s.areas| && s.areas[i].mm == b.mm && s.areas[i].pid == b.pid;
  }

  // ----- malloc -----

  function NewBlock(s: State, task: Task, size: nat): Block {
    var r := NewRegion(s, task, size);
    Block(task.mm, task.pid, r.start, size)
  }

  /** Making room changes no region. */
  ghost predicate SameRegions(before: seq<AreaState>, after: seq<AreaState>) {
    && |before| <= |after|
    && (forall j :: 0 <= j < |before| ==>
         after[j].pid == before[j].pid && after[j].mm == before[j].mm && after[j].regions == before[j].regions)
    && (forall j :: |before| <= j < |after| ==> after[j].regions == [])
  }

  lemma SameRegionsLive(before: seq<AreaState>, after: seq<AreaState>, b: Block)
    requires SameRegions(before, after)
    ensures IsLive(before, b) <==> IsLive(after, b)
  {
    var x := b.AsRegion();
    if IsLive(after, b) {
      var j :| 0 <= j < |after| && after[j].mm == b.mm && after[j].pid == b.pid && x in after[j].regions;
      assert j < |before| && before[j].mm == b.mm && before[j].pid == b.pid && x in before[j].regions;
    }
    if IsLive(before, b) {
      var j :| 0 <= j < |before| && before[j].mm == b.mm && before[j].pid == b.pid && x in before[j].regions;
      assert after[j].mm == b.mm && after[j].pid == b.pid && x in after[j].regions;
    }
  }

  lemma AllocLive(s: State, c: State, i: nat, size: nat, b: Block)
    requires ContainerOk(s, c, i) && 0 < size <= c.areas[i].freeSpace
    ensures var p := Placed(c.areas[i].regions, c.areas[i].vmStart, size);
            IsLive(c.areas[i := AllocIn(c.areas[i], size)], b) <==>
            IsLive(s.areas, b) || b == Block(c.areas[i].mm, c.areas[i].pid, p.start, size)
  {
    assert AreaOk(c.areas[i]);
    assert SameRegions(s.areas, c.areas);
    SameRegionsLive(s.areas, c.areas, b);
    PlacedLive(c.areas, i, size, b);
  }

  lemma PlacedLive(areas: seq<AreaState>, i: nat, size: nat, b: Block)
    requires i < |areas| && AreaOk(areas[i]) && 0 < size <= areas[i].freeSpace
    ensures var p := Placed(areas[i].regions, areas[i].vmStart, size);
            IsLive(areas[i := AllocIn(areas[i], size)], b) <==>
            IsLive(areas, b) || b == Block(areas[i].mm, areas[i].pid, p.start, size)
  {
    var a := areas[i];
    var p := Placed(a.regions, a.vmStart, size);
    var rs := areas[i := AllocIn(a, size)];
    var r := b.AsRegion();
    PlaceAddsOneBlock(a.regions, a.vmStart, size);
    assert r in Live(rs[i].regions) <==> r in Live(a.regions) || r == p;
    if IsLive(areas, b) {
      var j :| 0 <= j < |areas| && areas[j].mm == b.mm && areas[j].pid == b.pid && r in areas[j].regions;
      assert rs[j].mm == b.mm && rs[j].pid == b.pid && r in rs[j].regions;
    }
    assert rs[i].mm == a.mm && rs[i].pid == a.pid && (r == p ==> r in rs[i].regions);
  }

  /** A used region lies inside its area's VMA. */
  lemma LiveInside(a: AreaState, r: Region)
    requires AreaOk(a) && Contained(a) && r in a.regions
    ensures a.vmStart <= r.start && r.End() <= a.vmEnd && r.size > 0
  {
    var k :| 0 <= k < |a.regions| && a.regions[k] == r;
    TilesBounds(a.regions, a.vmStart, k);
  }

  /** The block handed out shares no address with any block in use in the process, whichever thread that is of. */
  lemma NewBlockApart(s: State, task: Task, size: nat, b: Block)
    requires Inv(s) && OfProcess(s, task) && size > 0
    requires AllContained(CreateRegion(s, task, size).areas, task.mm)
    requires IsLive(s.areas, b) && b.mm == task.mm
    ensures Apart(NewBlock(s, task, size), b)
  {
    var (c, i) := Container(s, task, size);
    ContainerKeeps(s, task, size);
    CreateRegionInv(s, task, size);
    var x := b.AsRegion();
    var j :| 0 <= j < |s.areas| && s.areas[j].mm == b.mm && x in s.areas[j].regions;
    assert c.areas[j].regions == s.areas[j].regions && c.areas[j].mm == s.areas[j].mm;
    assert AreaOk(c.areas[i]);
    AllocApart(c, i, size, j, x);
  }

  lemma AllocApart(c: State, i: nat, size: nat, j: nat, x: Region)
    requires i < |c.areas| && AreaOk(c.areas[i]) && 0 < size <= c.areas[i].freeSpace
    requires var r := c.(areas := c.areas[i := AllocIn(c.areas[i], size)]);
             Inv(r) && AllContained(r.areas, c.areas[i].mm)
    requires j < |c.areas| && c.areas[j].mm == c.areas[i].mm && x in c.areas[j].regions && !x.free
    ensures var p := Placed(c.areas[i].regions, c.areas[i].vmStart, size);
            x.End() <= p.start || p.End() <= x.start
  {
    var a := c.areas[i];
    var p := Placed(a.regions, a.vmStart, size);
    var r := c.(areas := c.areas[i := AllocIn(a, size)]);
    if i == j {
      PlaceAvoids(a.regions, a.vmStart, size);
      assert x in Live(a.regions);
    } else {
      PlaceAddsOneBlock(a.regions, a.vmStart, size);
      assert p in Live(r.areas[i].regions);
      assert r.areas[j] == c.areas[j];
      BlocksApart(r, i, p, j, x);
    }
  }

  /** Used regions of two areas of one process share no address. */
  lemma BlocksApart(s: State, i: nat, x: Region, j: nat, y: Region)
    requires Inv(s) && i < |s.areas| && j < |s.areas| && i != j && AllContained(s.areas, s.areas[i].mm)
    requires s.areas[i].mm == s.areas[j].mm && x in s.areas[i].regions && y in s.areas[j].regions
    ensures x.End() <= y.start || y.End() <= x.start
  {
    assert AreaOk(s.areas[i]) && AreaOk(s.areas[j]) && Contained(s.areas[i]) && Contained(s.areas[j]);
    AreasDisjoint(s, i, j);
    LiveInside(s.areas[i], x);
    LiveInside(s.areas[j], y);
  }

  lemma SamePidSameProcess(s: State, i: nat, j: nat)
    requires AreasPlaced(s.areas, s.lists)
    requires i < |s.areas| && j < |s.areas| && s.areas[i].pid == s.areas[j].pid
    ensures s.areas[i].mm == s.areas[j].mm
  {
  }

  /** The block is added to the heap of the process it is asked for in. */
  ghost function HeapAfterMalloc(h: Heap, s: State, task: Task, size: nat, mm: int): Heap {
    if task.mm == mm then HeapMalloc(h, NewBlock(s, task, size)) else h
  }

  lemma CreatedLive(s: State, task: Task, size: nat, b: Block)
    requires Inv(s) && KnowsTask(s.areas, task) && size > 0
    ensures IsLive(CreateRegion(s, task, size).areas, b) <==> IsLive(s.areas, b) || b == NewBlock(s, task, size)
  {
    ContainerKeeps(s, task, size);
    var (c, i) := Container(s, task, size);
    AllocLive(s, c, i, size, b);
  }

  lemma MallocLive(s: State, h: Heap, task: Task, size: nat, mm: int)
    requires Inv(s) && KnowsTask(s.areas, task) && size > 0 && LiveAgrees(s.areas, h, mm)
    ensures LiveAgrees(CreateRegion(s, task, size).areas, HeapAfterMalloc(h, s, task, size, mm), mm)
  {
    forall b
      ensures IsLive(CreateRegion(s, task, size).areas, b) <==> IsLive(s.areas, b) || b == NewBlock(s, task, size)
    {
      CreatedLive(s, task, size, b);
    }
  }

  lemma MallocDisjoint(s: State, h: Heap, task: Task, size: nat)
    requires Inv(s) && OfProcess(s, task) && size > 0 && LiveAgrees(s.areas, h, task.mm)
    requires AllContained(CreateRegion(s, task, size).areas, task.mm)
    ensures DisjointFrom(h, NewBlock(s, task, size))
  {
    forall b | b in h.live
      ensures Apart(NewBlock(s, task, size), b)
    {
      NewBlockApart(s, task, size, b);
    }
  }

  /** An operation that changes only the contents of one pid's pages changes no heap of another process. */
  lemma OthersSame(s: State, m: Memory, h: Heap, task: Task, mm: int)
    requires LiveAgrees(s.areas, h, mm) && KnowsTask(s.areas, task)
    requires forall k: Key :: k.pid != task.pid ==> Contents(m, k) == Contents(s.mem, k)
    requires task.mm == mm ==> SameContents(s.mem, m)
    ensures SameFor(s.mem, m, h)
  {
    forall b, k: Key | b in h.live && k.pid == b.pid
      ensures Contents(m, k) == Contents(s.mem, k)
    {
      if b.pid == task.pid {
        BlockOfProcess(s, h, b, task);
      }
    }
  }

  lemma MallocBytes(s: State, h: Heap, task: Task, size: nat, io: Io, mm: int)
    requires Inv(s) && KnowsTask(s.areas, task) && size > 0 && Refines(s, h, mm)
    requires task.mm == mm ==> Finds(io) && DisjointFrom(h, NewBlock(s, task, size))
    ensures BytesAgree(Malloc(s, task, size, io).mem, HeapAfterMalloc(h, s, task, size, mm))
  {
    var c := CreateRegion(s, task, size);
    assert c.mem == s.mem by {
      ContainerKeeps(s, task, size);
    }
    var m := UnmapBoth(c.mem, c.lists, task.pid, io).mem;
    UnmapBothKeeps(c.mem, c.lists, task.pid, io);
    OthersSame(s, m, h, task, mm);
    SameContentsAgree(s.mem, m, h);
    if task.mm == mm {
      BytesStay(m, h, NewBlock(s, task, size));
    }
  }

  /** malloc adds a block to the heap of the process, apart from all others, if the allocation fits. The heaps of
      other processes stay as they are in any case. */
  lemma MallocRefines(s: State, h: Heap, task: Task, size: nat, io: Io, mm: int)
    requires Inv(s) && OfProcess(s, task) && size > 0 && AllContained(s.areas, mm) && Refines(s, h, mm)
    requires task.mm == mm ==> Fits(s, task, size) && Finds(io)
    ensures Refines(Malloc(s, task, size, io), HeapAfterMalloc(h, s, task, size, mm), mm)
    ensures task.mm == mm ==> DisjointFrom(h, NewBlock(s, task, size))
  {
    if task.mm == mm {
      CreateRegionContainedIff(s, task, size, mm);
      MallocDisjoint(s, h, task, size);
    }
    MallocLive(s, h, task, size, mm);
    MallocBytes(s, h, task, size, io, mm);
  }

  /** Nothing has been written yet to a block apart from all others. */
  lemma BytesStay(m: Memory, h: Heap, b: Block)
    requires BytesAgree(m, h) && DisjointFrom(h, b)
    ensures BytesAgree(m, HeapMalloc(h, b))
  {
    var g := HeapMalloc(h, b);
    forall a | a in g.bytes
      ensures InLive(g, a) && !b.Has(a)
    {
      var c :| c in h.live && c.Has(a);
      assert c in g.live && Apart(b, c);
    }
  }

  // ----- free -----

  lemma FreedLive(s: State, pid: int, ptr: nat, b: Block)
    requires Inv(s) && AllContained(s.areas, b.mm)
    ensures IsLive(RemoveRegion(s, pid, ptr).areas, b) <==>
            IsLive(s.areas, b) && !(b.pid == pid && b.start == ptr)
  {
    var i := AreaAt(s.areas, pid, ptr);
    RemoveRegionIs(s, pid, ptr);
    if i < |s.areas| && RegionAt(s.areas[i].regions, ptr) < |s.areas[i].regions| {
      FoundLive(s, i, RegionAt(s.areas[i].regions, ptr), b);
    } else if IsLive(s.areas, b) && b.pid == pid && b.start == ptr {
      LiveIsFound(s, b);
    }
  }

  lemma RemoveRegionIs(s: State, pid: int, ptr: nat)
    ensures var i := AreaAt(s.areas, pid, ptr);
            RemoveRegion(s, pid, ptr) ==
            if i < |s.areas| && RegionAt(s.areas[i].regions, ptr) < |s.areas[i].regions|
            then RemoveFound(s, i, RegionAt(s.areas[i].regions, ptr)) else s
  {
  }

  lemma FoundLive(s: State, i: nat, j: nat, b: Block)
    requires Inv(s) && AllContained(s.areas, b.mm) && i < |s.areas| && j < |s.areas[i].regions|
    ensures IsLive(RemoveFound(s, i, j).areas, b) <==>
            IsLive(s.areas, b) && !(b.pid == s.areas[i].pid && b.start == s.areas[i].regions[j].start)
  {
    WithFreedLive(s, i, j, b);
    RemoveFoundLive(s, i, j, b);
  }

  lemma RemoveFoundLive(s: State, i: nat, j: nat, b: Block)
    requires i < |s.areas| && j < |s.areas[i].regions|
    ensures IsLive(RemoveFound(s, i, j).areas, b) <==> IsLive(WithFreed(s, i, j).areas, b)
  {
    var t := WithFreed(s, i, j);
    if t.areas[i].regions == [] {
      RemoveVmaOfEmpty(t, i);
      WithoutLive(t.areas, i, b);
    }
  }

  /** A region that starts inside its VMA is found by its pid and its start. */
  lemma RegionFound(s: State, i: nat, x: Region)
    requires Inv(s) && i < |s.areas| && x in s.areas[i].regions && x.start < s.areas[i].vmEnd
    ensures AreaAt(s.areas, s.areas[i].pid, x.start) == i
    ensures var j := RegionAt(s.areas[i].regions, x.start);
            j < |s.areas[i].regions| && s.areas[i].regions[j] == x
  {
    var a := s.areas[i];
    assert Tiles(a.regions, a.vmStart) by {
      assert AreaOk(a);
    }
    var k :| 0 <= k < |a.regions| && a.regions[k] == x;
    TilesBounds(a.regions, a.vmStart, k);
    AreaAtFinds(s, i, x.start);
    StartUnique(a.regions, a.vmStart, RegionAt(a.regions, x.start), k);
  }

  /** A live block is found by its pid and its start. */
  lemma LiveIsFound(s: State, b: Block)
    requires Inv(s) && AllContained(s.areas, b.mm) && IsLive(s.areas, b)
    ensures var i := AreaAt(s.areas, b.pid, b.start);
            i < |s.areas| && var j := RegionAt(s.areas[i].regions, b.start);
            j < |s.areas[i].regions| && s.areas[i].regions[j] == b.AsRegion()
  {
    var x := b.AsRegion();
    var i :| 0 <= i < |s.areas| && s.areas[i].mm == b.mm && s.areas[i].pid == b.pid && x in s.areas[i].regions;
    assert AreaOk(s.areas[i]) && Contained(s.areas[i]);
    LiveInside(s.areas[i], x);
    RegionFound(s, i, x);
  }

  lemma WithFreedLive(s: State, i: nat, j: nat, b: Block)
    requires Inv(s) && AllContained(s.areas, b.mm) && i < |s.areas| && j < |s.areas[i].regions|
    ensures IsLive(WithFreed(s, i, j).areas, b) <==>
            IsLive(s.areas, b) && !(b.pid == s.areas[i].pid && b.start == s.areas[i].regions[j].start)
  {
    var a := s.areas[i];
    var t := WithFreed(s, i, j).areas;
    var x := b.AsRegion();
    forall k | 0 <= k < |t|
      ensures t[k].mm == b.mm && t[k].pid == b.pid && x in t[k].regions <==>
              s.areas[k].mm == b.mm && s.areas[k].pid == b.pid && x in s.areas[k].regions
              && !(b.pid == a.pid && b.start == a.regions[j].start)
    {
      if k == i {
        ReleasedMember(a, j, x);
      } else if s.areas[k].pid == a.pid == b.pid && s.areas[k].mm == b.mm && x in s.areas[k].regions {
        SamePidSameProcess(s, i, k);
        StartsDiffer(s, i, j, k, x);
      }
    }
    if IsLive(s.areas, b) && !(b.pid == a.pid && b.start == a.regions[j].start) {
      var k :| 0 <= k < |s.areas| && s.areas[k].mm == b.mm && s.areas[k].pid == b.pid && x in s.areas[k].regions;
      assert t[k].mm == b.mm && t[k].pid == b.pid && x in t[k].regions;
    }
  }

  lemma ReleasedMember(a: AreaState, j: nat, x: Region)
    requires AreaOk(a) && j < |a.regions| && !x.free
    ensures x in FreeIn(a, j).regions <==> x in a.regions && x.start != a.regions[j].start
  {
    ReleaseDropsOneBlock(a.regions, a.vmStart, j);
    assert x in Live(FreeIn(a, j).regions) <==> x in Live(a.regions) && x != a.regions[j];
    if x in a.regions && x.start == a.regions[j].start {
      var m :| 0 <= m < |a.regions| && a.regions[m] == x;
      StartUnique(a.regions, a.vmStart, m, j);
    }
  }

  lemma StartsDiffer(s: State, i: nat, j: nat, k: nat, x: Region)
    requires Inv(s) && i < |s.areas| && k < |s.areas| && i != k && AllContained(s.areas, s.areas[i].mm)
    requires s.areas[i].pid == s.areas[k].pid && j < |s.areas[i].regions| && x in s.areas[k].regions
    ensures x.start != s.areas[i].regions[j].start
  {
    var a, c := s.areas[i], s.areas[k];
    assert AreaOk(a) && Contained(a) && AreaOk(c) && Contained(c);
    LiveInside(a, a.regions[j]);
    LiveInside(c, x);
    BlocksApart(s, i, a.regions[j], k, x);
  }

  lemma WithoutLive(areas: seq<AreaState>, i: nat, b: Block)
    requires i < |areas| && areas[i].regions == []
    ensures IsLive(areas[..i] + areas[i + 1..], b) <==> IsLive(areas, b)
  {
    var x := b.AsRegion();
    var rest := areas[..i] + areas[i + 1..];
    if IsLive(areas, b) {
      var k :| 0 <= k < |areas| && areas[k].mm == b.mm && areas[k].pid == b.pid && x in areas[k].regions;
      assert rest[if k < i then k else k - 1] == areas[k];
    }
    if IsLive(rest, b) {
      var k :| 0 <= k < |rest| && rest[k].mm == b.mm && rest[k].pid == b.pid && x in rest[k].regions;
      assert areas[if k < i then k else k + 1] == rest[k];
    }
  }

  lemma RemovePagesIs(s: State, pid: int, ptr: nat)
    ensures var i := AreaAt(s.areas, pid, ptr);
            RemoveStoragePages(s, pid, ptr).mem ==
            if i < |s.areas| && RegionAt(s.areas[i].regions, ptr) < |s.areas[i].regions| then
              var rs := s.areas[i].regions;
              s.mem.(backing := DropRegion(s.mem.backing, pid, rs, RegionAt(rs, ptr)))
            else s.mem
  {
  }

  /** Releasing a block removes no page on which another live block of the pid lies. */
  lemma OthersKept(s: State, pid: int, ptr: nat, b: Block, address: nat)
    requires Inv(s) && AllContained(s.areas, b.mm)
    requires IsLive(s.areas, b) && b.Has(address) && !(b.pid == pid && b.start == ptr)
    ensures Contents(RemoveStoragePages(s, pid, ptr).mem, PageOf(b.pid, address)) ==
            Contents(s.mem, PageOf(b.pid, address))
  {
    var i := AreaAt(s.areas, pid, ptr);
    RemovePagesIs(s, pid, ptr);
    if i < |s.areas| && RegionAt(s.areas[i].regions, ptr) < |s.areas[i].regions| {
      OthersKeptIn(s, i, RegionAt(s.areas[i].regions, ptr), b, address);
    }
  }

  lemma OthersKeptIn(s: State, i: nat, j: nat, b: Block, address: nat)
    requires Inv(s) && AllContained(s.areas, b.mm) && i < |s.areas| && j < |s.areas[i].regions|
    requires IsLive(s.areas, b) && b.Has(address)
    requires !(b.pid == s.areas[i].pid && b.start == s.areas[i].regions[j].start)
    ensures var a := s.areas[i];
            Contents(s.mem.(backing := DropRegion(s.mem.backing, a.pid, a.regions, j)), PageOf(b.pid, address)) ==
            Contents(s.mem, PageOf(b.pid, address))
  {
    var k := PageOf(b.pid, address);
    if k.pid == s.areas[i].pid && OnPage(s.areas[i].regions[j], k.start) {
      PageNotAlone(s, i, j, b, address);
    }
    assert AreaOk(s.areas[i]);
    DropKeepsShared(s.mem, s.areas[i].pid, s.areas[i], j, k);
  }

  lemma DropKeepsShared(m: Memory, pid: int, a: AreaState, j: nat, k: Key)
    requires MemoryOk(m) && AreaOk(a) && j < |a.regions|
    requires k.pid == pid && OnPage(a.regions[j], k.start) ==> Shared(k.start, j, a.regions)
    ensures Contents(m.(backing := DropRegion(m.backing, pid, a.regions, j)), k) == Contents(m, k)
  {
    var d := DropRegion(m.backing, pid, a.regions, j);
    DropRegionExactly(m.backing, pid, a.regions, a.vmStart, j);
    assert Stored(d, k) == Stored(m.backing, k);
  }

  /** A page of another live block that the region lies on is shared inside the region's own area. */
  lemma PageNotAlone(s: State, i: nat, j: nat, b: Block, address: nat)
    requires Inv(s) && AllContained(s.areas, b.mm) && i < |s.areas| && j < |s.areas[i].regions|
    requires IsLive(s.areas, b) && b.Has(address) && b.pid == s.areas[i].pid && b.start != s.areas[i].regions[j].start
    requires OnPage(s.areas[i].regions[j], PageFloor(address))
    ensures Shared(PageFloor(address), j, s.areas[i].regions)
  {
    var x := b.AsRegion();
    var a := s.areas[i];
    var m :| 0 <= m < |s.areas| && s.areas[m].mm == b.mm && s.areas[m].pid == b.pid && x in s.areas[m].regions;
    if m == i {
      SharedBy(a.regions, j, x, address);
    } else {
      PagesOfAreasDiffer(s, i, j, m, x, address);
    }
  }

  lemma SharedBy(rs: seq<Region>, j: nat, x: Region, address: nat)
    requires j < |rs| && x in rs && !x.free && x.start != rs[j].start && x.start <= address < x.End()
    ensures Shared(PageFloor(address), j, rs)
  {
    var n :| 0 <= n < |rs| && rs[n] == x;
    assert n != j && OnPage(rs[n], PageFloor(address));
  }

  /** A page with an address of a region of one area touches no region of another area of the pid. */
  lemma PagesOfAreasDiffer(s: State, i: nat, j: nat, m: nat, x: Region, address: nat)
    requires Inv(s) && i < |s.areas| && m < |s.areas| && i != m && AllContained(s.areas, s.areas[i].mm)
    requires s.areas[i].pid == s.areas[m].pid && j < |s.areas[i].regions| && x in s.areas[m].regions
    requires x.start <= address < x.End()
    ensures !OnPage(s.areas[i].regions[j], PageFloor(address))
  {
    var a, c := s.areas[i], s.areas[m];
    assert AreaOk(a) && Contained(a) && AreaOk(c) && Contained(c);
    SamePidSameProcess(s, i, m);
    AreasDisjoint(s, i, m);
    LiveInside(a, a.regions[j]);
    LiveInside(c, x);
    PageInsideVma(c, address);
  }

  lemma PageInsideVma(a: AreaState, address: nat)
    requires AreaOk(a) && a.vmStart <= address < a.vmEnd
    ensures a.vmStart <= PageFloor(address) && PageFloor(address) + PAGE_SIZE <= a.vmEnd
  {
    if PageFloor(address) < a.vmStart {
      AlignedApart(PageFloor(address), a.vmStart);
    }
    AlignedApart(PageFloor(address), a.vmEnd);
  }

  /** Closing an area forgets a pid's buffer only when the pid has no area left. */
  lemma RemoveFoundContents(s: State, i: nat, j: nat, k: Key)
    requires i < |s.areas| && j < |s.areas[i].regions|
    requires HasArea(RemoveFound(s, i, j).areas, k.pid)
    ensures Contents(RemoveFound(s, i, j).mem, k) == Contents(s.mem, k)
  {
    var t := WithFreed(s, i, j);
    if t.areas[i].regions == [] {
      RemoveVmaOfEmpty(t, i);
    }
  }

  lemma RemoveRegionContents(s: State, pid: int, ptr: nat, k: Key)
    requires HasArea(RemoveRegion(s, pid, ptr).areas, k.pid)
    ensures Contents(RemoveRegion(s, pid, ptr).mem, k) == Contents(s.mem, k)
  {
    var i := AreaAt(s.areas, pid, ptr);
    if i < |s.areas| {
      var j := RegionAt(s.areas[i].regions, ptr);
      if j < |s.areas[i].regions| {
        RemoveFoundContents(s, i, j, k);
      }
    }
  }

  lemma LiveHasArea(areas: seq<AreaState>, b: Block)
    requires IsLive(areas, b)
    ensures HasArea(areas, b.pid)
  {
  }

  /** Free keeps everyone else's data: no byte of a block that stays in use changes, for any pointer freed,
      whichever saves fail. */
  lemma FreeKeepsOthers(s: State, pid: int, ptr: nat, io: Io, b: Block, address: nat)
    requires Inv(s) && AllContained(s.areas, b.mm) && (b.pid == pid ==> Finds(io))
    requires IsLive(s.areas, b) && b.Has(address) && !(b.pid == pid && b.start == ptr)
    ensures IsLive(Free(s, pid, ptr, io).areas, b)
    ensures ByteAt(Free(s, pid, ptr, io).mem, b.pid, address) == ByteAt(s.mem, b.pid, address)
  {
    var t := s.(mem := UnmapBoth(s.mem, s.lists, pid, io).mem);
    var u := RemoveStoragePages(t, pid, ptr);
    UnmapBothKeeps(s.mem, s.lists, pid, io);
    UnmapBothInv(s, pid, io);
    RemoveStoragePagesInv(t, pid, ptr);
    OthersKept(t, pid, ptr, b, address);
    FreedLive(u, pid, ptr, b);
    LiveHasArea(RemoveRegion(u, pid, ptr).areas, b);
    RemoveRegionContents(u, pid, ptr, PageOf(b.pid, address));
    assert Contents(t.mem, PageOf(b.pid, address)) == Contents(s.mem, PageOf(b.pid, address));
  }

  lemma FreeLive(s: State, pid: int, ptr: nat, io: Io, b: Block)
    requires Inv(s) && AllContained(s.areas, b.mm)
    ensures IsLive(Free(s, pid, ptr, io).areas, b) <==> IsLive(s.areas, b) && !(b.pid == pid && b.start == ptr)
  {
    UnmapBothInv(s, pid, io);
    var u := s.(mem := UnmapBoth(s.mem, s.lists, pid, io).mem);
    RemoveStoragePagesInv(u, pid, ptr);
    FreedLive(RemoveStoragePages(u, pid, ptr), pid, ptr, b);
  }

  /** A release by any thread, of any pointer, is that release in the heap of every process: it takes the thread's
      block that starts at the pointer, if it has one, and nothing else. */
  lemma FreeRefines(s: State, h: Heap, task: Task, ptr: nat, io: Io, mm: int)
    requires Inv(s) && KnowsTask(s.areas, task) && AllContained(s.areas, mm) && Refines(s, h, mm)
    requires task.mm == mm ==> Finds(io)
    ensures Refines(Free(s, task.pid, ptr, io), HeapFree(h, task.pid, ptr), mm)
  {
    var t := Free(s, task.pid, ptr, io);
    var g := HeapFree(h, task.pid, ptr);
    forall b
      ensures b in g.live <==> b.mm == mm && IsLive(t.areas, b)
    {
      if b.mm == mm {
        FreeLive(s, task.pid, ptr, io, b);
      }
    }
    FreeBytes(s, h, task, ptr, io, mm);
  }

  lemma FreeBytes(s: State, h: Heap, task: Task, ptr: nat, io: Io, mm: int)
    requires Inv(s) && KnowsTask(s.areas, task) && AllContained(s.areas, mm) && Refines(s, h, mm)
    requires task.mm == mm ==> Finds(io)
    ensures BytesAgree(Free(s, task.pid, ptr, io).mem, HeapFree(h, task.pid, ptr))
  {
    var m := Free(s, task.pid, ptr, io).mem;
    var g := HeapFree(h, task.pid, ptr);
    forall a | a in g.bytes
      ensures InLive(g, a)
    {
      var b :| b in h.live && b.Has(a);
      assert b in g.live;
    }
    forall a, b | a in g.bytes && b in g.live && b.Has(a)
      ensures ByteAt(m, b.pid, a) == g.bytes[a]
    {
      if b.pid == task.pid {
        BlockOfProcess(s, h, b, task);
      }
      FreeKeepsOthers(s, task.pid, ptr, io, b, a);
    }
  }

  // ----- Accesses -----

  /** A store changes the byte it addresses and no other. */
  lemma StoreChangesOneByte(m: Memory, pid: int, address: nat, value: Byte, q: int, other: nat)
    requires MemoryOk(m) && Mapped(m, PageOf(pid, address))
    ensures ByteAt(Store(m, pid, address, value), q, other) ==
            if q == pid && other == address then value else ByteAt(m, q, other)
  {
  }

  /** The pid for which the page is in the page tables of the process. */
  ghost function Holder(m: Memory, mm: int, page: nat): (p: int)
    requires InTables(m, mm, page)
    ensures HeldBy(m, p, mm, page)
  {
    var p :| HeldBy(m, p, mm, page);
    p
  }

  /** No slot has a page of another thread's area: while threads fault only on their own blocks, a block's page is
      in the page tables for the block's own thread. */
  lemma HolderOwns(s: State, b: Block, address: nat, p: int)
    requires Inv(s) && OwnSlots(s, b.mm) && AllContained(s.areas, b.mm) && IsLive(s.areas, b) && b.Has(address)
    requires HeldBy(s.mem, p, b.mm, PageFloor(address))
    ensures p == b.pid
  {
    var page := PageFloor(address);
    var buffer := s.mem.buffers[p];
    var v := if buffer.InFront(page) && buffer.vma.value.mm == b.mm then buffer.vma.value else buffer.cacheVma.value;
    assert HoldsOn(s.mem, p, v, page);
    var j :| 0 <= j < |s.areas| && s.areas[j].pid == p && s.areas[j].mm == v.mm && s.areas[j].vmStart == v.start
             && v.start <= page < s.areas[j].vmEnd;
    var x := b.AsRegion();
    var i :| 0 <= i < |s.areas| && s.areas[i].mm == b.mm && s.areas[i].pid == b.pid && x in s.areas[i].regions;
    assert AreaOk(s.areas[i]) && Contained(s.areas[i]);
    LiveInside(s.areas[i], x);
    PageInsideVma(s.areas[i], address);
    if i != j {
      AreasDisjoint(s, i, j);
    }
  }

  /** A write by any thread of a process, through whatever slot the page is in, is that write in the heap of the
      process and nothing in the others. */
  lemma WriteRefines(s: State, h: Heap, p: int, wm: int, address: nat, value: Byte, mm: int)
    requires Inv(s) && Refines(s, h, mm) && HeapOk(h) && OwnSlots(s, mm) && AllContained(s.areas, mm)
    requires HeldBy(s.mem, p, wm, PageFloor(address))
    ensures var g := if wm == mm then HeapWrite(h, address, value) else h;
            Refines(s.(mem := Store(s.mem, p, address, value)), g, mm)
  {
    var m := Store(s.mem, p, address, value);
    forall q, other
      ensures ByteAt(m, q, other) == if q == p && other == address then value else ByteAt(s.mem, q, other)
    {
      StoreChangesOneByte(s.mem, p, address, value, q, other);
    }
    forall b | b in h.live && b.Has(address)
      ensures wm == mm <==> p == b.pid
    {
      if wm == mm {
        HolderOwns(s, b, address, p);
      } else {
        HolderElsewhere(s, b, p, wm, PageFloor(address));
      }
    }
    WrittenAgree(s.mem, m, h, p, wm == mm, address, value);
  }

  lemma HolderElsewhere(s: State, b: Block, p: int, wm: int, page: nat)
    requires Inv(s) && IsLive(s.areas, b) && HeldBy(s.mem, p, wm, page) && wm != b.mm
    ensures p != b.pid
  {
    var i :| 0 <= i < |s.areas| && s.areas[i].mm == b.mm && s.areas[i].pid == b.pid;
    assert BufferKnown(s.areas, p, s.mem.buffers[p]);
    assert s.areas[i].pid == p ==> InProcess(s.mem.buffers[p], s.areas[i].mm);
  }

  lemma WrittenAgree(m: Memory, n: Memory, h: Heap, p: int, here: bool, address: nat, value: Byte)
    requires BytesAgree(m, h) && HeapOk(h)
    requires forall q, other ::
               ByteAt(n, q, other) == if q == p && other == address then value else ByteAt(m, q, other)
    requires forall b :: b in h.live && b.Has(address) ==> (here <==> p == b.pid)
    ensures BytesAgree(n, if here then HeapWrite(h, address, value) else h)
  {
    var g := if here then HeapWrite(h, address, value) else h;
    forall a | a in g.bytes
      ensures InLive(g, a)
    {
      assert InLive(h, a);
      var b :| b in h.live && b.Has(a);
      assert b in g.live;
    }
    forall a, b | a in g.bytes && b in g.live && b.Has(a)
      ensures ByteAt(n, b.pid, a) == g.bytes[a]
    {
      if a == address {
        assert InLive(h, a);
      }
    }
  }

  /** A fault changes the heap of no process, whoever takes it and however it is handled. */
  lemma FaultRefines(s: State, h: Heap, task: Task, v: VmaRef, address: nat, io: Io, mm: int)
    requires Inv(s) && Refines(s, h, mm) && FaultDelivered(s, task, v, address) && (task.mm == mm ==> Finds(io))
    ensures Refines(Fault(s, task.pid, v, address, io), h, mm)
  {
    if ValidAddress(s.areas, v, address) {
      var m := GetPage(s.mem, s.lists, task.pid, address, v, io).mem;
      PlacedExists(s, task.pid);
      NotInTables(s, task, address);
      GetPageKeeps(s.mem, s.lists, task.pid, address, v, io);
      OthersSame(s, m, h, task, mm);
      SameContentsAgree(s.mem, m, h);
    }
  }
}
