/** The whole allocator (src/generic_malloc.c, src/area.c) as a function of its state: the list of areas, the
    processes' VMA lists, and the memory of Paging. Every operation runs under the global semaphore, so an
    operation is one step. */
module GenericMalloc {
  import opened Kutils
  import opened Regions
  import opened Areas
  import opened Vmas
  import opened StoredPages
  import opened PageRemoval
  import opened Paging

  datatype Task = Task(pid: int, mm: int)

  datatype State = State(areas: seq<AreaState>, lists: VmaLists, mem: Memory)

  /** The module just loaded, next to whatever VMAs the processes already have. */
  function Initial(lists: VmaLists): State {
    State([], lists, Memory(map[], Backing([], map[])))
  }

  // ----- Lookups -----

  /** `get_area`: the first area of `pid` whose VMA contains `address`. */
  function AreaAt(areas: seq<AreaState>, pid: int, address: nat): (i: nat)
    ensures i <= |areas|
    ensures i < |areas| ==> areas[i].pid == pid && areas[i].vmStart <= address < areas[i].vmEnd
    ensures forall j :: 0 <= j < i ==> !(areas[j].pid == pid && areas[j].vmStart <= address < areas[j].vmEnd)
  {
    if areas == [] then 0
    else if areas[0].pid == pid && areas[0].vmStart <= address < areas[0].vmEnd then 0
    else 1 + AreaAt(areas[1..], pid, address)
  }

  /** `is_valid_address`: some area on this VMA has a used region on the page. */
  ghost predicate ValidAddress(areas: seq<AreaState>, v: VmaRef, address: nat) {
    exists i :: 0 <= i < |areas| && areas[i].mm == v.mm && areas[i].vmStart == v.start
                && Accepts(areas[i].regions, address)
  }

  // ----- Allocation -----

  /** Whether the area can take `size` bytes by its own count, or by growing its VMA. */
  predicate Serves(a: AreaState, lists: VmaLists, size: nat) {
    a.freeSpace >= size || CanWiden(ListOf(lists, a.mm), a.vmStart, Extra(a, size))
  }

  function FirstServing(areas: seq<AreaState>, lists: VmaLists, pid: int, size: nat): (i: nat)
    ensures i <= |areas|
    ensures i < |areas| ==> areas[i].pid == pid && Serves(areas[i], lists, size)
    ensures forall j :: 0 <= j < i ==> !(areas[j].pid == pid && Serves(areas[j], lists, size))
  {
    if areas == [] then 0
    else if areas[0].pid == pid && Serves(areas[0], lists, size) then 0
    else 1 + FirstServing(areas[1..], lists, pid, size)
  }

  /** `extend_vma` on area `i`. */
  function WithGrown(s: State, i: nat, size: nat): State
    requires i < |s.areas| && s.areas[i].freeSpace < size
  {
    var a := s.areas[i];
    var extra := Extra(a, size);
    var list := Widen(ListOf(s.lists, a.mm), a.vmStart, extra);
    s.(areas := s.areas[i := Grow(a, extra)], lists := s.lists[a.mm := list])
  }

  /** The VMA created for a request: the first gap of the process. */
  function NewVma(lists: VmaLists, mm: int, size: nat): (v: Vma)
    ensures v.start <= v.end
  {
    var start := FirstGap(ListOf(lists, mm), PAGE_SIZE, NewLength(size));
    Vma(start, start + NewLength(size))
  }

  function AreaOn(task: Task, v: Vma): AreaState
    requires v.start <= v.end
  {
    NewArea(task.pid, task.mm, v.start, v.end - v.start)
  }

  /** A new area at the end of the list, on a new VMA. */
  function WithNew(s: State, task: Task, size: nat): State {
    var v := NewVma(s.lists, task.mm, size);
    s.(areas := s.areas + [AreaOn(task, v)], lists := s.lists[task.mm := Insert(ListOf(s.lists, task.mm), v)])
  }

  /** `get_area_container`: the state with an area that counts `size` bytes free, and which area that is. */
  function Container(s: State, task: Task, size: nat): (r: (State, nat))
    ensures r.1 < |r.0.areas| && size <= r.0.areas[r.1].freeSpace
  {
    var i := FirstServing(s.areas, s.lists, task.pid, size);
    if i == |s.areas| then (WithNew(s, task, size), i)
    else if s.areas[i].freeSpace >= size then (s, i)
    else (WithGrown(s, i, size), i)
  }

  /** The size of a new VMA. */
  function NewLength(size: nat): (length: nat)
    ensures Aligned(length) && length % 8192 == 0 && size <= length < size + 8192
  {
    VmaCeil(size)
  }

  function CreateRegion(s: State, task: Task, size: nat): State {
    var (c, i) := Container(s, task, size);
    c.(areas := c.areas[i := AllocIn(c.areas[i], size)])
  }

  /** The block that `CreateRegion` hands out. */
  function NewRegion(s: State, task: Task, size: nat): Region {
    var (c, i) := Container(s, task, size);
    Placed(c.areas[i].regions, c.areas[i].vmStart, size)
  }

  /** `generic_malloc`; the region stays allocated even when the eviction fails and NULL is returned. */
  function Malloc(s: State, task: Task, size: nat, io: Io): State {
    var c := CreateRegion(s, task, size);
    c.(mem := UnmapBoth(c.mem, c.lists, task.pid, io).mem)
  }

  function MallocResult(s: State, task: Task, size: nat, io: Io): nat {
    var c := CreateRegion(s, task, size);
    if UnmapBoth(c.mem, c.lists, task.pid, io).failed then 0 else NewRegion(s, task, size).start
  }

  // ----- Release -----

  /** `remove_storage_pages`. */
  function RemoveStoragePages(s: State, pid: int, address: nat): State {
    var i := AreaAt(s.areas, pid, address);
    if i == |s.areas| then s
    else
      var rs := s.areas[i].regions;
      var j := RegionAt(rs, address);
      if j == |rs| then s
      else s.(mem := s.mem.(backing := DropRegion(s.mem.backing, pid, rs, j)))
  }

  /** The loop of `close_vma` over the regions of area `i`. */
  function CloseRegions(s: State, i: nat): (r: State)
    requires i < |s.areas|
    ensures |r.areas| == |s.areas|
    decreases |s.areas[i].regions|
  {
    var a := s.areas[i];
    if a.regions == [] then s
    else
      var t := RemoveStoragePages(s, a.pid, a.regions[0].start);
      CloseRegions(t.(areas := t.areas[i := a.(regions := a.regions[1..])]), i)
  }

  /** `close_vma` on the VMA of area `i`. */
  function CloseVma(s: State, i: nat): State
    requires i < |s.areas|
  {
    var pid := s.areas[i].pid;
    var t := CloseRegions(s, i);
    var rest := t.areas[..i] + t.areas[i + 1..];
    var buffers := if HasArea(rest, pid) then t.mem.buffers else t.mem.buffers - {pid};
    t.(areas := rest, mem := t.mem.(buffers := buffers))
  }

  /** `get_area_count` is not zero. */
  predicate HasArea(areas: seq<AreaState>, pid: int) {
    exists i :: 0 <= i < |areas| && areas[i].pid == pid
  }

  /** `remove_vma`: the VMA leaves the process's list and its close handler runs. */
  function RemoveVma(s: State, i: nat): State
    requires i < |s.areas|
  {
    var a := s.areas[i];
    CloseVma(s.(lists := s.lists[a.mm := Remove(ListOf(s.lists, a.mm), a.vmStart)]), i)
  }

  /** Region `j` of area `i` released. */
  function WithFreed(s: State, i: nat, j: nat): State
    requires i < |s.areas| && j < |s.areas[i].regions|
  {
    s.(areas := s.areas[i := FreeIn(s.areas[i], j)])
  }

  /** `remove_region`. */
  function RemoveRegion(s: State, pid: int, address: nat): State {
    var i := AreaAt(s.areas, pid, address);
    if i == |s.areas| then s
    else
      var j := RegionAt(s.areas[i].regions, address);
      if j == |s.areas[i].regions| then s else RemoveFound(s, i, j)
  }

  /** The region found is released; an area left without regions loses its VMA. */
  function RemoveFound(s: State, i: nat, j: nat): State
    requires i < |s.areas| && j < |s.areas[i].regions|
  {
    var t := WithFreed(s, i, j);
    if t.areas[i].regions == [] then RemoveVma(t, i) else t
  }

  /** The state without area `i` and its VMA; the pid's buffer goes with its last area. */
  function WithoutVma(s: State, i: nat): State
    requires i < |s.areas|
  {
    var a := s.areas[i];
    var rest := s.areas[..i] + s.areas[i + 1..];
    var buffers := if HasArea(rest, a.pid) then s.mem.buffers else s.mem.buffers - {a.pid};
    State(rest, s.lists[a.mm := Remove(ListOf(s.lists, a.mm), a.vmStart)], Memory(buffers, s.mem.backing))
  }

  /** What closing the VMA of an empty area comes to. */
  lemma RemoveVmaOfEmpty(s: State, i: nat)
    requires i < |s.areas| && s.areas[i].regions == []
    ensures RemoveVma(s, i) == WithoutVma(s, i)
  {
  }

  /** Stored pages go before their region, and none with it. */
  lemma RemoveRegionStore(s: State, pid: int, ptr: nat)
    ensures RemoveRegion(s, pid, ptr).mem.backing == s.mem.backing
  {
  }

  /** `generic_free`, for any pointer; a failed eviction is ignored. */
  function Free(s: State, pid: int, ptr: nat, io: Io): State {
    var t := s.(mem := UnmapBoth(s.mem, s.lists, pid, io).mem);
    RemoveRegion(RemoveStoragePages(t, pid, ptr), pid, ptr)
  }

  /** Whether a release empties its area and so closes a VMA. */
  predicate Closes(areas: seq<AreaState>, pid: int, ptr: nat) {
    var i := AreaAt(areas, pid, ptr);
    i < |areas| && var j := RegionAt(areas[i].regions, ptr);
    j < |areas[i].regions| && Release(areas[i].regions, j) == []
  }

  // ----- Faults and accesses -----

  /** `generic_malloc_vm_fault`. */
  ghost function Fault(s: State, pid: int, v: VmaRef, address: nat, io: Io): State {
    if ValidAddress(s.areas, v, address)
    then s.(mem := GetPage(s.mem, s.lists, pid, address, v, io).mem)
    else s
  }

  /** Whether the handler reports SIGBUS. */
  ghost predicate FaultFails(s: State, pid: int, v: VmaRef, address: nat, io: Io) {
    !ValidAddress(s.areas, v, address) || GetPage(s.mem, s.lists, pid, address, v, io).failed
  }

  function PageOf(pid: int, address: nat): Key {
    Key(pid, PageFloor(address))
  }

  /** The byte at an address of a pid. */
  function ByteAt(m: Memory, pid: int, address: nat): Byte {
    Contents(m, PageOf(pid, address))[address - PageFloor(address)]
  }

  /** A store by the program to a page that is mapped. */
  function Store(m: Memory, pid: int, address: nat, value: Byte): Memory
    requires Mapped(m, PageOf(pid, address))
  {
    var b := m.buffers[pid];
    var off := address - PageFloor(address);
    m.(buffers := m.buffers[pid :=
         if b.InFront(PageFloor(address)) then b.(data := b.data[off := value])
         else b.(cache := b.cache[off := value])])
  }
}
