/** Demand paging (src/generic_malloc.c, src/mapped_buffer.c) as a function of the memory state: per pid two
    slots of mapped pages, `buffer` and `cache`, over the stored pages. Results of calls into storage and
    into the kernel are inputs. */
module Paging {
  import opened Kutils
  import opened Vmas
  import opened StoredPages
  import opened PageRemoval

  datatype Option<T> = None | Some(value: T)

  /** A pointer to a VMA: its process and where it starts. */
  datatype VmaRef = VmaRef(mm: int, start: nat)

  /** The VMA list of each process. */
  type VmaLists = map<int, seq<Vma>>

  function ListOf(lists: VmaLists, mm: int): seq<Vma> {
    if mm in lists then lists[mm] else []
  }

  /** `is_existing_vma`. */
  predicate Exists(lists: VmaLists, v: VmaRef) {
    IndexOf(ListOf(lists, v.mm), v.start) < |ListOf(lists, v.mm)|
  }

  datatype Buffer = Buffer(
    data: Page, vma: Option<VmaRef>, start: nat,
    cache: Page, cacheVma: Option<VmaRef>, cacheStart: nat)
  {
    predicate InFront(address: nat) {
      vma.Some? && start == address
    }

    predicate InCache(address: nat) {
      cacheVma.Some? && cacheStart == address
    }

    function Swap(): Buffer {
      Buffer(cache, cacheVma, cacheStart, data, vma, start)
    }
  }

  /** A buffer as `add_buffer` makes it. */
  function EmptyBuffer(): Buffer {
    Buffer(ZeroPage(), None, 0, ZeroPage(), None, 0)
  }

  datatype Memory = Memory(buffers: map<int, Buffer>, backing: Backing)

  /** What the page of a key holds: the front slot, or else the cache slot, or else storage, or else zeros. */
  function Contents(m: Memory, k: Key): Page {
    if k.pid in m.buffers && m.buffers[k.pid].InFront(k.start) then m.buffers[k.pid].data
    else if k.pid in m.buffers && m.buffers[k.pid].InCache(k.start) then m.buffers[k.pid].cache
    else Stored(m.backing, k)
  }

  function Stored(b: Backing, k: Key): Page {
    if k in b.index && k in b.store then b.store[k] else ZeroPage()
  }

  /** Whether the page is in the page tables. */
  predicate Mapped(m: Memory, k: Key) {
    k.pid in m.buffers && (m.buffers[k.pid].InFront(k.start) || m.buffers[k.pid].InCache(k.start))
  }

  /** The page is in the page tables of process `mm`, put there for `pid`. */
  predicate HeldBy(m: Memory, pid: int, mm: int, page: nat) {
    && pid in m.buffers
    && var b := m.buffers[pid];
       (b.InFront(page) && b.vma.value.mm == mm) || (b.InCache(page) && b.cacheVma.value.mm == mm)
  }

  /** The page is in the page tables of the process. */
  ghost predicate InTables(m: Memory, mm: int, page: nat) {
    exists pid :: HeldBy(m, pid, mm, page)
  }

  ghost predicate BufferOk(b: Buffer) {
    && (b.vma.Some? ==> Aligned(b.start))
    && (b.cacheVma.Some? ==> Aligned(b.cacheStart))
    && (b.vma.Some? && b.cacheVma.Some? ==> b.start != b.cacheStart)
  }

  ghost predicate MemoryOk(m: Memory) {
    BackingOk(m.backing) && forall pid :: pid in m.buffers ==> BufferOk(m.buffers[pid])
  }

  /** The slots of `pid` refer to VMAs that still exist. */
  ghost predicate SlotsExist(m: Memory, lists: VmaLists, pid: int) {
    pid in m.buffers ==>
      && (m.buffers[pid].vma.Some? ==> Exists(lists, m.buffers[pid].vma.value))
      && (m.buffers[pid].cacheVma.Some? ==> Exists(lists, m.buffers[pid].cacheVma.value))
  }

  /** A slot of the first buffer is a slot of the second, with the same VMA. */
  ghost predicate SlotsAmong(a: Buffer, b: Buffer) {
    && (a.vma.Some? ==> (a.vma, a.start) == (b.vma, b.start) || (a.vma, a.start) == (b.cacheVma, b.cacheStart))
    && (a.cacheVma.Some? ==>
         (a.cacheVma, a.cacheStart) == (b.vma, b.start) || (a.cacheVma, a.cacheStart) == (b.cacheVma, b.cacheStart))
  }

  // ----- Eviction -----

  /** How copying a page out turns out: the page is saved; mapping or saving it fails; or get_user_pages does not
      find it, which `copy_page_from_user` reports as success. */
  datatype Copying = Saving | Failing | Missing

  /** How the calls made on behalf of one operation turn out. A failed load leaves `junk` in the buffer. */
  datatype Io = Io(copy1: Copying, copy2: Copying, load: bool, junk: Page, insert: bool)

  function AllSucceed(): Io {
    Io(Saving, Saving, true, ZeroPage(), true)
  }

  /** get_user_pages finds the pages to be copied out. */
  predicate Finds(io: Io) {
    io.copy1 != Missing && io.copy2 != Missing
  }

  predicate NoneFails(io: Io) {
    io.copy1 != Failing && io.copy2 != Failing
  }

  datatype Outcome = Outcome(mem: Memory, failed: bool)

  function Save(b: Backing, k: Key, data: Page): Backing {
    Backing(if k in b.index then b.index else b.index + [k], b.store[k := data])
  }

  function CopyOut(b: Backing, k: Key, data: Page, copying: Copying): Backing {
    if copying == Saving then Save(b, k, data) else b
  }

  function UnmapBuffer(m: Memory, lists: VmaLists, pid: int, copying: Copying): Outcome
    requires pid in m.buffers && m.buffers[pid].vma.Some?
  {
    var b := m.buffers[pid];
    if !Exists(lists, b.vma.value) then Outcome(m, false)
    else if copying == Failing then Outcome(m, true)
    else
      var backing := CopyOut(m.backing, Key(pid, b.start), b.data, copying);
      Outcome(Memory(m.buffers[pid := b.(vma := None)], backing), false)
  }

  function SwapSlots(m: Memory, pid: int): Memory
    requires pid in m.buffers
  {
    m.(buffers := m.buffers[pid := m.buffers[pid].Swap()])
  }

  /** `unmap_page` with the `cache` flag: make the front slot free, evicting the older page if both are taken. */
  function UnmapOldest(m: Memory, lists: VmaLists, pid: int, io: Io): Outcome {
    if pid !in m.buffers then Outcome(m, false)
    else if m.buffers[pid].cacheVma.Some? then UnmapBuffer(SwapSlots(m, pid), lists, pid, io.copy1)
    else Outcome(SwapSlots(m, pid), false)
  }

  /** `unmap_page` without the flag evicts the front page and then the other one. */
  function UnmapFront(m: Memory, lists: VmaLists, pid: int, copying: Copying): (r: Outcome)
    requires pid in m.buffers
    ensures pid in r.mem.buffers
  {
    if m.buffers[pid].vma.Some? then UnmapBuffer(m, lists, pid, copying) else Outcome(m, false)
  }

  function UnmapCache(m: Memory, lists: VmaLists, pid: int, copying: Copying): Outcome
    requires pid in m.buffers
  {
    if m.buffers[pid].cacheVma.Some? then UnmapBuffer(SwapSlots(m, pid), lists, pid, copying) else Outcome(m, false)
  }

  function UnmapBoth(m: Memory, lists: VmaLists, pid: int, io: Io): Outcome {
    if pid !in m.buffers then Outcome(m, false)
    else
      var first := UnmapFront(m, lists, pid, io.copy1);
      if first.failed then first else UnmapCache(first.mem, lists, pid, io.copy2)
  }

  /** What an eviction leaves alone, whatever happens: the index and the slots stay in order, other pids lose
      neither contents nor buffers, and the slots of the pid refer to pages they referred to before. */
  ghost predicate Spares(m: Memory, n: Memory, pid: int) {
    && MemoryOk(n)
    && (forall k: Key :: k.pid != pid ==> Contents(n, k) == Contents(m, k))
    && n.buffers.Keys == m.buffers.Keys
    && (forall q :: q in m.buffers && q != pid ==> n.buffers[q] == m.buffers[q])
    && (pid in m.buffers ==> SlotsAmong(n.buffers[pid], m.buffers[pid]))
  }

  ghost predicate SameContents(m: Memory, n: Memory) {
    forall k :: Contents(n, k) == Contents(m, k)
  }

  /** The two slots of the second buffer, the other way round. */
  ghost predicate Exchanged(a: Buffer, b: Buffer) {
    && a.vma == b.cacheVma && a.start == b.cacheStart && a.data == b.cache
    && a.cacheVma == b.vma && a.cacheStart == b.start && a.cache == b.data
  }

  /** A page has to be evicted for a fault, and cannot be. */
  predicate OldestStuck(m: Memory, pid: int, io: Io) {
    pid in m.buffers && m.buffers[pid].cacheVma.Some? && io.copy1 == Failing
  }

  /** One of the two pages cannot be evicted; the front one goes first. */
  predicate BothStuck(m: Memory, pid: int, io: Io) {
    pid in m.buffers
    && ((m.buffers[pid].vma.Some? && io.copy1 == Failing) || (m.buffers[pid].cacheVma.Some? && io.copy2 == Failing))
  }

  lemma SaveOk(b: Backing, k: Key, data: Page)
    requires BackingOk(b) && Aligned(k.start)
    ensures BackingOk(Save(b, k, data))
    ensures forall x :: Stored(Save(b, k, data), x) == if x == k then data else Stored(b, x)
  {
    if k !in b.index {
      AppendNew(b.index, k);
    }
  }

  lemma SwapKeeps(m: Memory, pid: int)
    requires MemoryOk(m) && pid in m.buffers
    ensures Spares(m, SwapSlots(m, pid), pid) && SameContents(m, SwapSlots(m, pid))
  {
    assert SwapSlots(m, pid).buffers[pid] == m.buffers[pid].Swap();
  }

  /** The buffer's page gone from the front slot. */
  function WithoutFront(m: Memory, pid: int, copying: Copying): Memory
    requires pid in m.buffers
  {
    var b := m.buffers[pid];
    Memory(m.buffers[pid := b.(vma := None)], CopyOut(m.backing, Key(pid, b.start), b.data, copying))
  }

  /** The page in front goes with contents that storage does not have. */
  predicate FrontLost(m: Memory, pid: int, copying: Copying)
    requires pid in m.buffers
  {
    var b := m.buffers[pid];
    b.vma.Some? && copying == Missing && Stored(m.backing, Key(pid, b.start)) != b.data
  }

  predicate CacheLost(m: Memory, pid: int, copying: Copying)
    requires pid in m.buffers
  {
    var b := m.buffers[pid];
    b.cacheVma.Some? && copying == Missing && Stored(m.backing, Key(pid, b.cacheStart)) != b.cache
  }

  lemma CopyOutStored(b: Backing, k: Key, data: Page, copying: Copying)
    requires BackingOk(b) && Aligned(k.start)
    ensures BackingOk(CopyOut(b, k, data, copying))
    ensures forall x :: x != k ==> Stored(CopyOut(b, k, data, copying), x) == Stored(b, x)
    ensures Stored(CopyOut(b, k, data, copying), k) == if copying == Saving then data else Stored(b, k)
  {
    SaveOk(b, k, data);
  }

  lemma EvictKeeps(m: Memory, pid: int, copying: Copying)
    requires MemoryOk(m) && pid in m.buffers && m.buffers[pid].vma.Some? && copying != Failing
    ensures var n := WithoutFront(m, pid, copying);
            && Spares(m, n, pid)
            && (forall k :: Contents(n, k) != Contents(m, k) <==>
                 k == Key(pid, m.buffers[pid].start) && FrontLost(m, pid, copying))
            && (forall k :: k != Key(pid, m.buffers[pid].start) ==> Stored(n.backing, k) == Stored(m.backing, k))
  {
    var b := m.buffers[pid];
    assert BufferOk(b);
    CopyOutStored(m.backing, Key(pid, b.start), b.data, copying);
  }

  lemma UnmapBufferKeeps(m: Memory, lists: VmaLists, pid: int, copying: Copying)
    requires MemoryOk(m) && pid in m.buffers && m.buffers[pid].vma.Some?
    ensures var n := UnmapBuffer(m, lists, pid, copying).mem;
            && Spares(m, n, pid)
            && (forall k :: Contents(n, k) != Contents(m, k) <==>
                 k == Key(pid, m.buffers[pid].start) && FrontLost(m, pid, copying)
                 && Exists(lists, m.buffers[pid].vma.value))
            && (forall k :: k != Key(pid, m.buffers[pid].start) ==> Stored(n.backing, k) == Stored(m.backing, k))
  {
    if copying != Failing {
      EvictKeeps(m, pid, copying);
    }
  }

  lemma SparesTrans(m: Memory, n: Memory, o: Memory, pid: int)
    requires Spares(m, n, pid) && Spares(n, o, pid)
    ensures Spares(m, o, pid)
  {
    forall k: Key | k.pid != pid
      ensures Contents(o, k) == Contents(m, k)
    {
      assert Contents(n, k) == Contents(m, k);
    }
  }

  lemma UnmapFrontKeeps(m: Memory, lists: VmaLists, pid: int, copying: Copying)
    requires MemoryOk(m) && pid in m.buffers
    ensures var n := UnmapFront(m, lists, pid, copying).mem;
            && Spares(m, n, pid)
            && (forall k :: Contents(n, k) != Contents(m, k) ==>
                 k == Key(pid, m.buffers[pid].start) && FrontLost(m, pid, copying))
            && (SlotsExist(m, lists, pid) && FrontLost(m, pid, copying) ==>
                 Contents(n, Key(pid, m.buffers[pid].start)) != Contents(m, Key(pid, m.buffers[pid].start)))
            && (forall k :: k != Key(pid, m.buffers[pid].start) ==> Stored(n.backing, k) == Stored(m.backing, k))
  {
    if m.buffers[pid].vma.Some? {
      UnmapBufferKeeps(m, lists, pid, copying);
    }
  }

  lemma UnmapCacheKeeps(m: Memory, lists: VmaLists, pid: int, copying: Copying)
    requires MemoryOk(m) && pid in m.buffers
    ensures var n := UnmapCache(m, lists, pid, copying).mem;
            && Spares(m, n, pid)
            && (forall k :: Contents(n, k) != Contents(m, k) ==>
                 k == Key(pid, m.buffers[pid].cacheStart) && CacheLost(m, pid, copying))
            && (SlotsExist(m, lists, pid) && CacheLost(m, pid, copying) ==>
                 Contents(n, Key(pid, m.buffers[pid].cacheStart)) != Contents(m, Key(pid, m.buffers[pid].cacheStart)))
  {
    if m.buffers[pid].cacheVma.Some? {
      var s := SwapSlots(m, pid);
      SwapKeeps(m, pid);
      UnmapBufferKeeps(s, lists, pid, copying);
      SparesTrans(m, s, UnmapBuffer(s, lists, pid, copying).mem, pid);
      assert forall k :: Contents(s, k) == Contents(m, k);
    }
  }

  /** Eviction for a fault: contents are kept, also when the save fails, as long as get_user_pages finds the
      page; on success the front slot is free and the cache slot holds what the front slot held. */
  lemma UnmapOldestKeeps(m: Memory, lists: VmaLists, pid: int, io: Io)
    requires MemoryOk(m) && SlotsExist(m, lists, pid)
    ensures Spares(m, UnmapOldest(m, lists, pid, io).mem, pid)
    ensures io.copy1 != Missing ==> SameContents(m, UnmapOldest(m, lists, pid, io).mem)
    ensures UnmapOldest(m, lists, pid, io).failed <==> OldestStuck(m, pid, io)
    ensures pid in m.buffers ==>
              var b := UnmapOldest(m, lists, pid, io).mem.buffers[pid];
              if OldestStuck(m, pid, io) then Exchanged(b, m.buffers[pid])
              else
                && b.vma == None && b.cacheVma == m.buffers[pid].vma
                && b.cacheStart == m.buffers[pid].start && b.cache == m.buffers[pid].data
  {
    if pid in m.buffers {
      SwapKeeps(m, pid);
      UnmapCacheKeeps(m, lists, pid, io.copy1);
    }
  }

  /** Eviction of both pages: contents are kept, also when a save fails, as long as get_user_pages finds the
      pages. */
  lemma UnmapBothKeeps(m: Memory, lists: VmaLists, pid: int, io: Io)
    requires MemoryOk(m)
    ensures Spares(m, UnmapBoth(m, lists, pid, io).mem, pid)
    ensures Finds(io) ==> SameContents(m, UnmapBoth(m, lists, pid, io).mem)
  {
    if pid in m.buffers {
      var first := UnmapFront(m, lists, pid, io.copy1);
      UnmapFrontKeeps(m, lists, pid, io.copy1);
      if !first.failed {
        UnmapCacheKeeps(first.mem, lists, pid, io.copy2);
        SparesTrans(m, first.mem, UnmapCache(first.mem, lists, pid, io.copy2).mem, pid);
        assert Finds(io) ==> forall k :: Contents(first.mem, k) == Contents(m, k);
      }
    }
  }

  /** When it succeeds no page of the pid stays mapped; it fails only when a page cannot be saved. Where that is the
      front page nothing changes, and where it is the other one that page ends up in front. */
  lemma UnmapBothFrees(m: Memory, lists: VmaLists, pid: int, io: Io)
    requires SlotsExist(m, lists, pid)
    ensures var u := UnmapBoth(m, lists, pid, io);
            && (pid in u.mem.buffers <==> pid in m.buffers)
            && (!u.failed && pid in m.buffers ==> u.mem.buffers[pid].vma == None && u.mem.buffers[pid].cacheVma == None)
            && (u.failed <==> BothStuck(m, pid, io))
            && (u.failed ==>
                 var a, b := u.mem.buffers[pid], m.buffers[pid];
                 if b.vma.Some? && io.copy1 == Failing then u.mem == m
                 else a.vma == b.cacheVma && a.start == b.cacheStart && a.data == b.cache && a.cacheVma == None)
  {
  }

  /** What eviction saves: storage gains exactly the pages that are copied out, as the slots have them. */
  lemma UnmapBothSaves(m: Memory, lists: VmaLists, pid: int, io: Io, k: Key)
    requires MemoryOk(m) && SlotsExist(m, lists, pid)
    ensures var store := UnmapBoth(m, lists, pid, io).mem.backing.store;
            if pid in m.buffers && SavesFront(m.buffers[pid], pid, io, k) then
              k in store && store[k] == m.buffers[pid].data
            else if pid in m.buffers && SavesCache(m.buffers[pid], pid, io, k) then
              k in store && store[k] == m.buffers[pid].cache
            else (k in store <==> k in m.backing.store) && (k in store ==> store[k] == m.backing.store[k])
  {
    assert pid in m.buffers ==> BufferOk(m.buffers[pid]);
  }

  predicate SavesFront(b: Buffer, pid: int, io: Io, k: Key) {
    b.vma.Some? && io.copy1 == Saving && k == Key(pid, b.start)
  }

  predicate SavesCache(b: Buffer, pid: int, io: Io, k: Key) {
    b.cacheVma.Some? && io.copy2 == Saving && k == Key(pid, b.cacheStart) && !(b.vma.Some? && io.copy1 == Failing)
  }

  /** What eviction loses, exactly: where get_user_pages does not find a page the code drops it all the same, so
      its contents change if and only if storage has others. */
  lemma UnmapBothLoses(m: Memory, lists: VmaLists, pid: int, io: Io, k: Key)
    requires MemoryOk(m) && SlotsExist(m, lists, pid)
    ensures Contents(UnmapBoth(m, lists, pid, io).mem, k) != Contents(m, k) <==>
            && pid in m.buffers
            && var b := m.buffers[pid];
            || (k == Key(pid, b.start) && FrontLost(m, pid, io.copy1))
            || (k == Key(pid, b.cacheStart) && CacheLost(m, pid, io.copy2) && !(b.vma.Some? && io.copy1 == Failing))
  {
    if pid in m.buffers {
      var b := m.buffers[pid];
      var first := UnmapFront(m, lists, pid, io.copy1);
      UnmapFrontKeeps(m, lists, pid, io.copy1);
      assert BufferOk(b);
      if !first.failed {
        UnmapCacheKeeps(first.mem, lists, pid, io.copy2);
      }
    }
  }

  // ----- Mapping -----

  /** `map_page`. */
  function MapPage(m: Memory, pid: int, address: nat, vma: VmaRef, io: Io): Outcome {
    var k := Key(pid, address);
    var b := if pid in m.buffers then m.buffers[pid] else EmptyBuffer();
    var data := Stored(m.backing, k);
    if k in m.backing.index && !io.load then Outcome(m.(buffers := m.buffers[pid := b.(data := io.junk)]), true)
    else if !io.insert then Outcome(m.(buffers := m.buffers[pid := b.(data := data)]), true)
    else Outcome(m.(buffers := m.buffers[pid := b.(data := data, vma := Some(vma), start := address)]), false)
  }

  /** `generic_malloc_get_page`. */
  function GetPage(m: Memory, lists: VmaLists, pid: int, address: nat, vma: VmaRef, io: Io): Outcome {
    var u := UnmapOldest(m, lists, pid, io);
    if u.failed then u else MapPage(u.mem, pid, address, vma, io)
  }

  /** Mapping into a free front slot keeps every page's contents, whether or not the load and the insertion
      succeed. */
  lemma MapPageKeeps(m: Memory, pid: int, address: nat, vma: VmaRef, io: Io)
    requires MemoryOk(m) && Aligned(address) && !Mapped(m, Key(pid, address))
    requires pid in m.buffers ==> m.buffers[pid].vma == None
    ensures MemoryOk(MapPage(m, pid, address, vma, io).mem)
    ensures forall k :: Contents(MapPage(m, pid, address, vma, io).mem, k) == Contents(m, k)
  {
  }

  /** Paging coherence: handling a fault keeps every page's contents, however the save, the load and the
      insertion turn out, as long as get_user_pages finds the page to be evicted. Other pids' pages and buffers
      are left alone in any case. */
  lemma GetPageKeeps(m: Memory, lists: VmaLists, pid: int, address: nat, vma: VmaRef, io: Io)
    requires MemoryOk(m) && SlotsExist(m, lists, pid) && Aligned(address) && !Mapped(m, Key(pid, address))
    ensures var g := GetPage(m, lists, pid, address, vma, io);
            && MemoryOk(g.mem)
            && (io.copy1 != Missing ==> SameContents(m, g.mem))
            && (forall k: Key :: k.pid != pid ==> Contents(g.mem, k) == Contents(m, k))
            && (forall q :: q != pid ==> (q in g.mem.buffers <==> q in m.buffers))
            && (forall q :: q in m.buffers && q != pid ==> g.mem.buffers[q] == m.buffers[q])
  {
    var u := UnmapOldest(m, lists, pid, io);
    UnmapOldestKeeps(m, lists, pid, io);
    if !u.failed {
      MapPageKeeps(u.mem, pid, address, vma, io);
      var g := GetPage(m, lists, pid, address, vma, io);
      forall k
        ensures Contents(g.mem, k) == Contents(u.mem, k)
      {
      }
    }
  }

  /** What a fault loses, exactly: the page in the cache slot, where get_user_pages does not find it and storage has
      other contents. */
  lemma GetPageLoses(m: Memory, lists: VmaLists, pid: int, address: nat, vma: VmaRef, io: Io, k: Key)
    requires MemoryOk(m) && SlotsExist(m, lists, pid) && Aligned(address) && !Mapped(m, Key(pid, address))
    ensures Contents(GetPage(m, lists, pid, address, vma, io).mem, k) != Contents(m, k) <==>
            pid in m.buffers && k == Key(pid, m.buffers[pid].cacheStart) && CacheLost(m, pid, io.copy1)
  {
    var u := UnmapOldest(m, lists, pid, io);
    UnmapOldestKeeps(m, lists, pid, io);
    if pid in m.buffers {
      SwapKeeps(m, pid);
      UnmapCacheKeeps(m, lists, pid, io.copy1);
    }
    if !u.failed {
      MapPageKeeps(u.mem, pid, address, vma, io);
    }
  }

  /** When a fault fails: the page to be evicted cannot be saved, the page faulted cannot be loaded, or it cannot be
      inserted. In the first case the slots end up exchanged; in the others the front slot is free. */
  lemma GetPageFails(m: Memory, lists: VmaLists, pid: int, address: nat, vma: VmaRef, io: Io)
    requires MemoryOk(m) && SlotsExist(m, lists, pid) && Aligned(address) && !Mapped(m, Key(pid, address))
    ensures var g := GetPage(m, lists, pid, address, vma, io);
            && (g.failed <==>
                 OldestStuck(m, pid, io) || (Key(pid, address) in m.backing.index && !io.load) || !io.insert)
            && (OldestStuck(m, pid, io) ==> Exchanged(g.mem.buffers[pid], m.buffers[pid]))
            && (g.failed && !OldestStuck(m, pid, io) ==>
                 && g.mem.buffers[pid].vma == None
                 && (pid in m.buffers ==> CachesFront(g.mem.buffers[pid], m.buffers[pid])))
  {
    UnmapOldestKeeps(m, lists, pid, io);
    EvictionSpares(m, lists, pid, io, Key(pid, address));
  }

  /** The cache slot of the first buffer has what the second has in front. */
  ghost predicate CachesFront(a: Buffer, b: Buffer) {
    a.cacheVma == b.vma && a.cacheStart == b.start && a.cache == b.data
  }

  /** Eviction leaves what storage has of a page that is not mapped, and whether it is listed. */
  lemma EvictionSpares(m: Memory, lists: VmaLists, pid: int, io: Io, k: Key)
    requires k.pid == pid && !Mapped(m, k)
    ensures var b := UnmapOldest(m, lists, pid, io).mem.backing;
            (k in b.index <==> k in m.backing.index) && Stored(b, k) == Stored(m.backing, k)
  {
    if pid in m.buffers && m.buffers[pid].cacheVma.Some? {
      CopyOutSpares(m.backing, Key(pid, m.buffers[pid].cacheStart), m.buffers[pid].cache, io.copy1, k);
    }
  }

  lemma CopyOutSpares(b: Backing, saved: Key, data: Page, copying: Copying, k: Key)
    requires k != saved
    ensures var c := CopyOut(b, saved, data, copying);
            (k in c.index <==> k in b.index) && Stored(c, k) == Stored(b, k)
  {
  }

  /** What a fault saves: storage gains exactly the page evicted, as the cache slot has it. */
  lemma GetPageSaves(m: Memory, lists: VmaLists, pid: int, address: nat, vma: VmaRef, io: Io, k: Key)
    requires MemoryOk(m) && SlotsExist(m, lists, pid)
    ensures var store := GetPage(m, lists, pid, address, vma, io).mem.backing.store;
            if pid in m.buffers && m.buffers[pid].cacheVma.Some? && io.copy1 == Saving
               && k == Key(pid, m.buffers[pid].cacheStart)
            then k in store && store[k] == m.buffers[pid].cache
            else (k in store <==> k in m.backing.store) && (k in store ==> store[k] == m.backing.store[k])
  {
  }

  /** The slots after a fault come from the slots before it and from the faulting page. */
  lemma GetPageSlots(m: Memory, lists: VmaLists, pid: int, address: nat, vma: VmaRef, io: Io)
    requires MemoryOk(m) && SlotsExist(m, lists, pid) && Aligned(address) && !Mapped(m, Key(pid, address))
    ensures var g := GetPage(m, lists, pid, address, vma, io);
            && (g.failed && pid in m.buffers ==> pid in g.mem.buffers && SlotsAmong(g.mem.buffers[pid], m.buffers[pid]))
            && (g.failed && pid !in m.buffers && pid in g.mem.buffers ==>
                 g.mem.buffers[pid].vma == None && g.mem.buffers[pid].cacheVma == None)
            && (!g.failed ==> pid in g.mem.buffers && Newest(g.mem.buffers[pid], vma, address, m, pid))
  {
    UnmapOldestKeeps(m, lists, pid, io);
    EvictionSpares(m, lists, pid, io, Key(pid, address));
  }

  /** The front slot holds the given page, the cache slot what the front slot held before. */
  ghost predicate Newest(b: Buffer, vma: VmaRef, address: nat, before: Memory, pid: int) {
    && b.vma == Some(vma) && b.start == address && b.data == Contents(before, Key(pid, address))
    && (if pid in before.buffers then CachesFront(b, before.buffers[pid]) else b.cacheVma == None)
  }

  // ----- Replacement order -----

  /** Faults of one pid handled one after the other, all calls succeeding. */
  function FaultRun(m: Memory, lists: VmaLists, pid: int, faults: seq<(nat, VmaRef)>): Memory {
    if faults == [] then m
    else
      var before := FaultRun(m, lists, pid, faults[..|faults| - 1]);
      var last := faults[|faults| - 1];
      GetPage(before, lists, pid, last.0, last.1, AllSucceed()).mem
  }

  /** No page faults while it is mapped, so each differs from the two faulted before it. */
  ghost predicate FaultsNeeded(m: Memory, lists: VmaLists, pid: int, faults: seq<(nat, VmaRef)>) {
    forall i :: 0 <= i < |faults| ==>
      && Aligned(faults[i].0) && Exists(lists, faults[i].1)
      && !Mapped(FaultRun(m, lists, pid, faults[..i]), Key(pid, faults[i].0))
  }

  lemma NeededBefore(m: Memory, lists: VmaLists, pid: int, faults: seq<(nat, VmaRef)>)
    requires FaultsNeeded(m, lists, pid, faults) && |faults| > 0
    ensures FaultsNeeded(m, lists, pid, faults[..|faults| - 1])
  {
    var init := faults[..|faults| - 1];
    forall i | 0 <= i < |init|
      ensures Aligned(init[i].0) && Exists(lists, init[i].1)
      ensures !Mapped(FaultRun(m, lists, pid, init[..i]), Key(pid, init[i].0))
    {
      assert init[..i] == faults[..i] && init[i] == faults[i];
    }
  }

  /** A fault that succeeds: the slots move up by one. */
  lemma FaultMovesUp(m: Memory, lists: VmaLists, pid: int, address: nat, vma: VmaRef)
    requires MemoryOk(m) && SlotsExist(m, lists, pid) && Aligned(address) && Exists(lists, vma)
    requires !Mapped(m, Key(pid, address))
    ensures var r := GetPage(m, lists, pid, address, vma, AllSucceed()).mem;
            && MemoryOk(r) && SlotsExist(r, lists, pid) && SameContents(m, r)
            && pid in r.buffers && r.buffers[pid].InFront(address)
            && (forall a :: pid in m.buffers && m.buffers[pid].InFront(a) ==> r.buffers[pid].InCache(a))
  {
    GetPageKeeps(m, lists, pid, address, vma, AllSucceed());
    GetPageSlots(m, lists, pid, address, vma, AllSucceed());
    assert !GetPage(m, lists, pid, address, vma, AllSucceed()).failed;
  }

  /** The last fault of a run, as a step from the state before it. */
  lemma LastFault(m: Memory, lists: VmaLists, pid: int, faults: seq<(nat, VmaRef)>)
    requires FaultsNeeded(m, lists, pid, faults) && |faults| > 0
    ensures var last := faults[|faults| - 1];
            var before := FaultRun(m, lists, pid, faults[..|faults| - 1]);
            && Aligned(last.0) && Exists(lists, last.1) && !Mapped(before, Key(pid, last.0))
            && FaultRun(m, lists, pid, faults) == GetPage(before, lists, pid, last.0, last.1, AllSucceed()).mem
  {
  }

  lemma {:induction false} FaultsKeep(m: Memory, lists: VmaLists, pid: int, faults: seq<(nat, VmaRef)>)
    requires MemoryOk(m) && SlotsExist(m, lists, pid) && FaultsNeeded(m, lists, pid, faults)
    ensures var r := FaultRun(m, lists, pid, faults);
            && MemoryOk(r) && SlotsExist(r, lists, pid) && SameContents(m, r)
            && (|faults| > 0 ==> pid in r.buffers && r.buffers[pid].InFront(faults[|faults| - 1].0))
    decreases |faults|
  {
    if faults != [] {
      var init := faults[..|faults| - 1];
      var last := faults[|faults| - 1];
      var before := FaultRun(m, lists, pid, init);
      NeededBefore(m, lists, pid, faults);
      FaultsKeep(m, lists, pid, init);
      LastFault(m, lists, pid, faults);
      FaultMovesUp(before, lists, pid, last.0, last.1);
      SameContentsTrans(m, before, FaultRun(m, lists, pid, faults));
    }
  }

  lemma SameContentsTrans(m: Memory, n: Memory, o: Memory)
    requires SameContents(m, n) && SameContents(n, o)
    ensures SameContents(m, o)
  {
    forall k
      ensures Contents(o, k) == Contents(m, k)
    {
      assert Contents(n, k) == Contents(m, k);
    }
  }

  /** What the last fault finds in front it leaves in the cache slot. */
  lemma LastTwo(m: Memory, lists: VmaLists, pid: int, faults: seq<(nat, VmaRef)>)
    requires MemoryOk(m) && SlotsExist(m, lists, pid) && FaultsNeeded(m, lists, pid, faults) && |faults| > 1
    ensures var r := FaultRun(m, lists, pid, faults);
            pid in r.buffers && r.buffers[pid].InCache(faults[|faults| - 2].0)
  {
    var init := faults[..|faults| - 1];
    var last := faults[|faults| - 1];
    NeededBefore(m, lists, pid, faults);
    FaultsKeep(m, lists, pid, init);
    LastFault(m, lists, pid, faults);
    assert init[|init| - 1] == faults[|faults| - 2];
    FaultMovesUp(FaultRun(m, lists, pid, init), lists, pid, last.0, last.1);
  }

  /** Pages are replaced first in, first out: after any run of faults the front slot holds the page faulted
      last and the cache slot the one before it; no page's contents have changed. */
  lemma ReplacementIsFifo(m: Memory, lists: VmaLists, pid: int, faults: seq<(nat, VmaRef)>)
    requires MemoryOk(m) && SlotsExist(m, lists, pid) && FaultsNeeded(m, lists, pid, faults)
    ensures var r := FaultRun(m, lists, pid, faults);
            && SameContents(m, r)
            && (|faults| > 0 ==> pid in r.buffers && r.buffers[pid].InFront(faults[|faults| - 1].0))
            && (|faults| > 1 ==> r.buffers[pid].InCache(faults[|faults| - 2].0))
  {
    FaultsKeep(m, lists, pid, faults);
    if |faults| > 1 {
      LastTwo(m, lists, pid, faults);
    }
  }

  // ----- Replacement order when evictions fail -----

  /** Faults of one pid handled one after the other, however they turn out. */
  function AfterFaults(m: Memory, lists: VmaLists, pid: int, faults: seq<(nat, VmaRef, Io)>): Memory
    decreases |faults|
  {
    if faults == [] then m
    else
      var n := GetPage(m, lists, pid, faults[0].0, faults[0].1, faults[0].2).mem;
      AfterFaults(n, lists, pid, faults[1..])
  }

  /** Both slots hold pages that can be evicted. */
  ghost predicate SlotsTaken(m: Memory, lists: VmaLists, pid: int) {
    MemoryOk(m) && SlotsExist(m, lists, pid)
    && pid in m.buffers && m.buffers[pid].vma.Some? && m.buffers[pid].cacheVma.Some?
  }

  ghost predicate NoneSaves(faults: seq<(nat, VmaRef, Io)>) {
    forall i :: 0 <= i < |faults| ==> faults[i].2.copy1 == Failing
  }

  /** The buffer, or its slots the other way round. */
  function Turned(b: Buffer, odd: bool): (r: Buffer)
    ensures if odd then Exchanged(r, b) else r == b
  {
    if odd then b.Swap() else b
  }

  /** Each fault whose eviction fails exchanges the slots once more, and changes nothing else. */
  lemma {:induction false} FailuresExchange(m: Memory, lists: VmaLists, pid: int, faults: seq<(nat, VmaRef, Io)>)
    requires SlotsTaken(m, lists, pid) && NoneSaves(faults)
    ensures AfterFaults(m, lists, pid, faults) ==
            m.(buffers := m.buffers[pid := Turned(m.buffers[pid], |faults| % 2 == 1)])
    decreases |faults|
  {
    if faults == [] {
      assert m.buffers[pid := m.buffers[pid]] == m.buffers;
    } else {
      var n := SwapSlots(m, pid);
      assert faults[0].2.copy1 == Failing;
      assert GetPage(m, lists, pid, faults[0].0, faults[0].1, faults[0].2).mem == n;
      SwapKeeps(m, pid);
      FailuresExchange(n, lists, pid, faults[1..]);
      var b := Turned(m.buffers[pid], |faults| % 2 == 1);
      assert n.buffers[pid := b] == m.buffers[pid := b];
    }
  }

  /** So the next fault that succeeds does not always evict the older page: after an odd number of failed evictions it
      evicts the page that was in front before them and keeps the other one in the cache slot. */
  lemma FailuresReverse(
      m: Memory, lists: VmaLists, pid: int, faults: seq<(nat, VmaRef, Io)>, address: nat, vma: VmaRef, io: Io)
    requires SlotsTaken(m, lists, pid) && NoneSaves(faults) && Aligned(address) && !Mapped(m, Key(pid, address))
    requires !GetPage(AfterFaults(m, lists, pid, faults), lists, pid, address, vma, io).failed
    ensures var b := m.buffers[pid];
            var g := GetPage(AfterFaults(m, lists, pid, faults), lists, pid, address, vma, io).mem;
            var (kept, evicted) := if |faults| % 2 == 1 then (b.cacheStart, b.start) else (b.start, b.cacheStart);
            && pid in g.buffers && g.buffers[pid].InFront(address) && g.buffers[pid].InCache(kept)
            && !Mapped(g, Key(pid, evicted))
            && Contents(g, Key(pid, kept)) == Contents(m, Key(pid, kept))
            && (io.copy1 == Saving ==> Stored(g.backing, Key(pid, evicted)) == Contents(m, Key(pid, evicted)))
  {
    var n := AfterFaults(m, lists, pid, faults);
    FailuresExchange(m, lists, pid, faults);
    assert BufferOk(m.buffers[pid]);
    TurnedOk(m, n, lists, pid, |faults| % 2 == 1);
    GetPageSlots(n, lists, pid, address, vma, io);
    GetPageKeeps(n, lists, pid, address, vma, io);
    GetPageSaves(n, lists, pid, address, vma, io, Key(pid, n.buffers[pid].cacheStart));
  }

  lemma TurnedOk(m: Memory, n: Memory, lists: VmaLists, pid: int, odd: bool)
    requires SlotsTaken(m, lists, pid) && n == m.(buffers := m.buffers[pid := Turned(m.buffers[pid], odd)])
    ensures SlotsTaken(n, lists, pid) && SameContents(m, n)
    ensures forall k :: Mapped(n, k) <==> Mapped(m, k)
  {
    assert BufferOk(m.buffers[pid]);
  }
}
