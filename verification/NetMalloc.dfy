/** The allocator as it is programmed (src/generic_malloc.c, src/area.c, src/mapped_buffer.c): lists of areas,
    of buffers and of stored pages edited in place. Each operation is proved to be the corresponding step of
    the model. */
module NetMallocs {
  import opened Kutils
  import opened Regions
  import opened Areas
  import opened Vmas
  import opened StoredPages
  import opened PageRemoval
  import opened Paging
  import opened GenericMalloc
  import opened Invariant
  import opened FlatHeap
  import opened Effects
  import opened Runs
  import opened Closing
  import opened MappedBuffers

  /** Position of the area on VMA `v`; the list's length when there is none. */
  function AreaOnVma(areas: seq<AreaState>, v: VmaRef): (i: nat)
    ensures i <= |areas|
    ensures i < |areas| ==> areas[i].mm == v.mm && areas[i].vmStart == v.start
    ensures forall j :: 0 <= j < i ==> !(areas[j].mm == v.mm && areas[j].vmStart == v.start)
  {
    if areas == [] then 0
    else if areas[0].mm == v.mm && areas[0].vmStart == v.start then 0
    else 1 + AreaOnVma(areas[1..], v)
  }

  /** A buffer just added makes no difference to what is mapped. */
  lemma MapPageIntoNew(m: Memory, pid: int, address: nat, v: VmaRef, io: Io)
    requires pid !in m.buffers
    ensures MapPage(m.(buffers := m.buffers[pid := EmptyBuffer()]), pid, address, v, io) ==
            MapPage(m, pid, address, v, io)
  {
    var b := MapPage(m, pid, address, v, io).mem.buffers[pid];
    assert m.buffers[pid := EmptyBuffer()][pid := b] == m.buffers[pid := b];
  }

  /** A buffer after the attempt to map a page into it, and whether that failed. */
  function Filled(b: Buffer, backing: Backing, k: Key, v: VmaRef, io: Io): (Buffer, bool) {
    if k in backing.index && !io.load then (b.(data := io.junk), true)
    else if !io.insert then (b.(data := Stored(backing, k)), true)
    else (b.(data := Stored(backing, k), vma := Some(v), start := k.start), false)
  }

  lemma MapPageIs(m: Memory, pid: int, address: nat, v: VmaRef, io: Io)
    requires pid in m.buffers
    ensures var r := Filled(m.buffers[pid], m.backing, Key(pid, address), v, io);
            MapPage(m, pid, address, v, io) == Outcome(m.(buffers := m.buffers[pid := r.0]), r.1)
  {
  }

  /** The process's list has an entry for the area's VMA. */
  predicate Listed(lists: VmaLists, a: AreaState) {
    var list := ListOf(lists, a.mm);
    IndexOf(list, a.vmStart) < |list| && list[IndexOf(list, a.vmStart)].end == a.vmEnd
  }

  lemma AllListed(s: State)
    requires ListsOk(s.lists) && AreasPlaced(s.areas, s.lists)
    ensures forall i :: 0 <= i < |s.areas| ==> Listed(s.lists, s.areas[i])
  {
    forall i | 0 <= i < |s.areas|
      ensures Listed(s.lists, s.areas[i])
    {
      IndexOfMember(ListOf(s.lists, s.areas[i].mm), Vma(s.areas[i].vmStart, s.areas[i].vmEnd));
    }
  }

  lemma RoomIsMade(s: State, c: State, task: Task, size: nat, i: nat)
    requires ListsOk(s.lists) && AreasPlaced(s.areas, s.lists) && size > 0 && (c, i) == Container(s, task, size)
    ensures AllAreasOk(s.areas) ==> RoomMade(s, c, task, size, i)
  {
    if AllAreasOk(s.areas) {
      ContainerExactly(s, task, size);
    }
  }

  lemma ContainerAreaOk(s: State, task: Task, size: nat)
    requires Inv(s) && KnowsTask(s.areas, task) && size > 0
    ensures var (c, i) := Container(s, task, size); AreaOk(c.areas[i])
  {
    ContainerKeeps(s, task, size);
  }

  /** What malloc returns, for the caller. */
  lemma MallocPromises(s: State, task: Task, size: nat, io: Io)
    requires Inv(s) && OfProcess(s, task) && size > 0
    ensures var t := Malloc(s, task, size, io);
            var start := MallocResult(s, task, size, io);
            && (start == 0 <==> BothStuck(s.mem, task.pid, io))
            && (start != 0 ==> exists c, i: nat :: Handed(s, c, t, task, size, i, start))
            && (start != 0 && AllContained(t.areas, task.mm) ==>
                 forall b :: IsLive(s.areas, b) && b.mm == task.mm ==>
                   b.start + b.size <= start || start + size <= b.start)
  {
    var c, i, place := MallocReturns(s, task, size, io);
  }

  /** The pids of a list of buffers without its entry `i`. */
  lemma BuffersWithout(bs: seq<MappedBuffer>, pids: set<int>, i: nat)
    requires i < |bs|
    requires forall j, k :: 0 <= j < k < |bs| ==> bs[j].pid != bs[k].pid
    requires forall pid :: pid in pids ==> exists j :: 0 <= j < |bs| && bs[j].pid == pid
    ensures var rest := bs[..i] + bs[i + 1..];
            && (forall j :: 0 <= j < |rest| ==> rest[j] in bs && rest[j].pid != bs[i].pid)
            && (forall j, k :: 0 <= j < k < |rest| ==> rest[j].pid != rest[k].pid)
            && (forall pid :: pid in pids && pid != bs[i].pid ==> exists j :: 0 <= j < |rest| && rest[j].pid == pid)
  {
    var rest := bs[..i] + bs[i + 1..];
    assert forall j :: 0 <= j < |rest| ==> rest[j] == bs[if j < i then j else j + 1];
    forall pid | pid in pids && pid != bs[i].pid
      ensures exists j :: 0 <= j < |rest| && rest[j].pid == pid
    {
      var j :| 0 <= j < |bs| && bs[j].pid == pid;
      assert rest[if j < i then j else j - 1] == bs[j];
    }
  }

  class NetMalloc {
    var areas: seq<Area>
    var buffers: seq<MappedBuffer>
    const storedPages: StoredPageList
    /** What the storage back end holds. */
    var store: map<Key, Page>
    /** The kernel's VMA lists. */
    var lists: VmaLists
    /** The state these lists stand for. */
    ghost var model: State

    /** One object for each area of the model, in the same order. */
    ghost predicate AreasTied()
      reads this, areas
    {
      && |areas| == |model.areas|
      && (forall i, j :: 0 <= i < j < |areas| ==> areas[i] != areas[j])
      && (forall i :: 0 <= i < |areas| ==> areas[i].View() == model.areas[i])
    }

    /** One object for each pid that has a buffer. */
    ghost predicate BuffersTied()
      reads this, buffers
    {
      && (forall i, j :: 0 <= i < j < |buffers| ==> buffers[i].pid != buffers[j].pid)
      && (forall i :: 0 <= i < |buffers| ==>
           buffers[i].pid in model.mem.buffers && model.mem.buffers[buffers[i].pid] == buffers[i].View())
      && (forall pid :: pid in model.mem.buffers ==> exists i :: 0 <= i < |buffers| && buffers[i].pid == pid)
    }

    ghost predicate StoreTied()
      reads this, storedPages
    {
      storedPages.list == model.mem.backing.index && store == model.mem.backing.store
    }

    /** The lists are those of the model. */
    ghost predicate Tied()
      reads this, areas, buffers, storedPages
    {
      AreasTied() && BuffersTied() && StoreTied() && lists == model.lists
    }

    /** The invariant at the entry points. */
    ghost predicate Valid()
      reads this, areas, buffers, storedPages
    {
      Tied() && Inv(model)
    }

    /** `generic_malloc_init`. */
    constructor (lists: VmaLists)
      requires ListsOk(lists)
      ensures Valid() && model == Initial(lists)
    {
      areas, buffers, store := [], [], map[];
      storedPages := new StoredPageList();
      this.lists := lists;
      model := Initial(lists);
      new;
      InitialInv(lists);
    }

    // ----- Lookups -----

    method GetArea(pid: int, address: nat) returns (i: nat)
      requires AreasTied()
      ensures i == AreaAt(model.areas, pid, address)
    {
      i := 0;
      while i < |areas|
        invariant i <= AreaAt(model.areas, pid, address)
      {
        assert areas[i].View() == model.areas[i];
        if areas[i].pid == pid && address >= areas[i].vmStart && address < areas[i].vmEnd {
          return;
        }
        i := i + 1;
      }
    }

    method GetBuffer(pid: int) returns (b: MappedBuffer?)
      requires BuffersTied()
      ensures b == null <==> pid !in model.mem.buffers
      ensures b != null ==> b in buffers && b.pid == pid && b.View() == model.mem.buffers[pid]
    {
      var i := 0;
      while i < |buffers|
        invariant i <= |buffers|
        invariant forall j :: 0 <= j < i ==> buffers[j].pid != pid
      {
        if buffers[i].pid == pid {
          return buffers[i];
        }
        i := i + 1;
      }
      return null;
    }

    method IsValidAddress(address: nat, v: VmaRef) returns (ok: bool)
      requires AreasTied()
      ensures ok <==> ValidAddress(model.areas, v, address)
    {
      var i := 0;
      while i < |areas|
        invariant i <= |areas|
        invariant forall j :: 0 <= j < i && model.areas[j].mm == v.mm && model.areas[j].vmStart == v.start ==>
                    !Accepts(model.areas[j].regions, address)
      {
        assert areas[i].View() == model.areas[i];
        if areas[i].mm == v.mm && areas[i].vmStart == v.start {
          var found := IsValidInRegions(areas[i].regions, address);
          if found {
            return true;
          }
        }
        i := i + 1;
      }
      return false;
    }

    // ----- Paging -----

    /** `add_buffer`. */
    method AddBuffer(pid: int) returns (b: MappedBuffer)
      requires Tied() && pid !in model.mem.buffers
      modifies `buffers, `model
      ensures Tied() && b in buffers && b.pid == pid && fresh(b)
      ensures forall c :: c in buffers ==> c in old(buffers) || c == b
      ensures model == old(model).(mem := old(model).mem.(buffers := old(model).mem.buffers[pid := EmptyBuffer()]))
    {
      b := new MappedBuffer(pid);
      buffers := buffers + [b];
      model := model.(mem := model.mem.(buffers := model.mem.buffers[pid := EmptyBuffer()]));
      forall q | q in model.mem.buffers
        ensures exists i :: 0 <= i < |buffers| && buffers[i].pid == q
      {
        if q == pid {
          assert buffers[|buffers| - 1].pid == q;
        } else {
          var i :| 0 <= i < |old(buffers)| && old(buffers)[i].pid == q;
          assert buffers[i].pid == q;
        }
      }
    }

    /** `copy_page_from_user`: save the page and note that it is stored. A page that get_user_pages does not find is
        not saved, and the call succeeds. */
    method CopyPageFromUser(pid: int, start: nat, page: Page, copying: Copying) returns (error: bool)
      requires StoreTied()
      modifies `store, `model, storedPages
      ensures StoreTied() && error == (copying == Failing)
      ensures var backing := CopyOut(old(model).mem.backing, Key(pid, start), page, copying);
              model == old(model).(mem := old(model).mem.(backing := backing))
    {
      if copying != Missing {
        if copying == Failing {
          return true;
        }
        store := store[Key(pid, start) := page];
        var stored := storedPages.IsStoredPage(pid, start);
        if !stored {
          storedPages.AddStoredPage(pid, start);
        }
        model := model.(mem := model.mem.(backing := Save(model.mem.backing, Key(pid, start), page)));
      }
      return false;
    }

    /** One buffer's fields have changed; the model follows. */
    ghost method NoteBuffer(b: MappedBuffer)
      requires AreasTied() && StoreTied() && lists == model.lists
      requires forall i, j :: 0 <= i < j < |buffers| ==> buffers[i].pid != buffers[j].pid
      requires forall i :: 0 <= i < |buffers| ==> buffers[i].pid in model.mem.buffers
      requires forall i :: 0 <= i < |buffers| && buffers[i] != b ==>
                 model.mem.buffers[buffers[i].pid] == buffers[i].View()
      requires forall pid :: pid in model.mem.buffers ==> exists i :: 0 <= i < |buffers| && buffers[i].pid == pid
      requires b in buffers
      modifies `model
      ensures Tied()
      ensures model == old(model).(mem := old(model).mem.(buffers := old(model).mem.buffers[b.pid := b.View()]))
    {
      model := model.(mem := model.mem.(buffers := model.mem.buffers[b.pid := b.View()]));
    }

    /** `swap_buffer_cache` on a buffer of the list. */
    method SwapSlotsOf(b: MappedBuffer)
      requires Tied() && b in buffers
      modifies b, `model
      ensures Tied()
      ensures model == old(model).(mem := SwapSlots(old(model).mem, b.pid))
    {
      b.SwapBufferCache();
      NoteBuffer(b);
    }

    /** `unmap_buffer`. */
    method UnmapBufferOf(b: MappedBuffer, copying: Copying) returns (error: bool)
      requires Tied() && b in buffers && b.vma.Some?
      modifies b, `store, `model, storedPages
      ensures Tied()
      ensures var u := UnmapBuffer(old(model).mem, lists, b.pid, copying);
              model == old(model).(mem := u.mem) && error == u.failed
    {
      if Exists(lists, b.vma.value) {
        error := CopyPageFromUser(b.pid, b.start, b.buffer, copying);
        if error {
          return;
        }
        b.vma := None;
        NoteBuffer(b);
      }
      return false;
    }

    /** `unmap_page` with the `cache` flag set. */
    method UnmapOldestOf(b: MappedBuffer, io: Io) returns (error: bool)
      requires Tied() && b in buffers
      modifies b, `store, `model, storedPages
      ensures Tied()
      ensures var u := UnmapOldest(old(model).mem, lists, b.pid, io);
              model == old(model).(mem := u.mem) && error == u.failed
      ensures error ==> Exchanged(b.View(), old(b.View()))
    {
      if b.cacheVma.Some? {
        SwapSlotsOf(b);
        error := UnmapBufferOf(b, io.copy1);
        return;
      }
      SwapSlotsOf(b);
      return false;
    }

    /** `unmap_page` without the flag. */
    method UnmapBothOf(b: MappedBuffer, io: Io) returns (error: bool)
      requires Tied() && b in buffers
      modifies b, `store, `model, storedPages
      ensures Tied()
      ensures var u := UnmapBoth(old(model).mem, lists, b.pid, io);
              model == old(model).(mem := u.mem) && error == u.failed
    {
      if b.vma.Some? {
        error := UnmapBufferOf(b, io.copy1);
        if error {
          return;
        }
      }
      if b.cacheVma.Some? {
        SwapSlotsOf(b);
        error := UnmapBufferOf(b, io.copy2);
        return;
      }
      return false;
    }

    /** `unmap_page`. */
    method UnmapPage(pid: int, cache: bool, io: Io) returns (error: bool)
      requires Tied()
      modifies buffers, `store, `model, storedPages
      ensures Tied()
      ensures var u := if cache then UnmapOldest(old(model).mem, lists, pid, io)
                       else UnmapBoth(old(model).mem, lists, pid, io);
              model == old(model).(mem := u.mem) && error == u.failed
      ensures cache && error ==>
                && pid in model.mem.buffers && pid in old(model).mem.buffers
                && Exchanged(model.mem.buffers[pid], old(model).mem.buffers[pid])
      ensures areas == old(areas) && buffers == old(buffers)
    {
      var b := GetBuffer(pid);
      if b == null {
        return false;
      }
      if cache {
        error := UnmapOldestOf(b, io);
      } else {
        error := UnmapBothOf(b, io);
      }
    }

    /** The first half of `map_page`: the page's data goes into the buffer. */
    method LoadInto(b: MappedBuffer, address: nat, io: Io) returns (error: bool)
      requires Tied() && BackingOk(model.mem.backing) && b in buffers
      modifies b`buffer
      ensures error <==> Key(b.pid, address) in model.mem.backing.index && !io.load
      ensures b.buffer == if error then io.junk else Stored(model.mem.backing, Key(b.pid, address))
    {
      var stored := storedPages.IsStoredPage(b.pid, address);
      if stored {
        if !io.load {
          b.buffer := io.junk;
          return true;
        }
        b.buffer := store[Key(b.pid, address)];
      } else {
        b.buffer := ZeroPage();
      }
      return false;
    }

    /** `map_page` once the buffer is at hand. */
    method FillBuffer(b: MappedBuffer, address: nat, v: VmaRef, io: Io) returns (error: bool)
      requires Tied() && BackingOk(model.mem.backing) && b in buffers
      modifies b, `model
      ensures Tied()
      ensures var m := MapPage(old(model).mem, b.pid, address, v, io);
              model == old(model).(mem := m.mem) && error == m.failed
    {
      error := LoadAndInsert(b, address, v, io);
      MapPageIs(model.mem, b.pid, address, v, io);
      NoteBuffer(b);
    }

    /** What `map_page` does to the buffer. */
    method LoadAndInsert(b: MappedBuffer, address: nat, v: VmaRef, io: Io) returns (error: bool)
      requires Tied() && BackingOk(model.mem.backing) && b in buffers
      modifies b
      ensures var r := Filled(old(b.View()), model.mem.backing, Key(b.pid, address), v, io);
              b.View() == r.0 && error == r.1
    {
      error := LoadInto(b, address, io);
      if error || !io.insert {
        return true;
      }
      b.vma := Some(v);
      b.start := address;
    }

    /** `map_page`. */
    method MapPageFor(pid: int, address: nat, v: VmaRef, io: Io) returns (error: bool)
      requires Tied() && BackingOk(model.mem.backing)
      modifies this`buffers, this`model, buffers
      ensures Tied()
      ensures var m := MapPage(old(model).mem, pid, address, v, io);
              model == old(model).(mem := m.mem) && error == m.failed
      ensures forall b :: b in buffers ==> b in old(buffers) || fresh(b)
    {
      var b := GetBuffer(pid);
      if b == null {
        MapPageIntoNew(model.mem, pid, address, v, io);
        b := AddBuffer(pid);
      }
      error := FillBuffer(b, address, v, io);
    }

    /** `generic_malloc_get_page`. */
    method GetPageFor(pid: int, address: nat, v: VmaRef, io: Io) returns (error: bool)
      requires Valid()
      modifies this`buffers, this`model, this`store, buffers, storedPages
      ensures Tied()
      ensures var g := GetPage(old(model).mem, lists, pid, address, v, io);
              model == old(model).(mem := g.mem) && error == g.failed
      ensures forall b :: b in buffers ==> b in old(buffers) || fresh(b)
    {
      PlacedExists(model, pid);
      UnmapOldestKeeps(model.mem, lists, pid, io);
      error := UnmapPage(pid, true, io);
      if error {
        return;
      }
      error := MapPageFor(pid, address, v, io);
    }

    /** `generic_malloc_vm_fault`, run by thread `task`; `sigbus` is the error it reports. */
    method GenericMallocVmFault(task: Task, v: VmaRef, address: nat, io: Io) returns (sigbus: bool)
      requires Valid() && Delivered(model, OpFault(task, v, address, io))
      modifies this, buffers, storedPages
      ensures Valid() && model == Step(old(model), OpFault(task, v, address, io))
      ensures sigbus <==> FaultFails(old(model), task.pid, v, address, io)
      ensures sigbus <==>
                || !BlockOn(old(model).areas, v, address) || OldestStuck(old(model).mem, task.pid, io)
                || (Key(task.pid, address) in old(model).mem.backing.store && !io.load) || !io.insert
      ensures areas == old(areas) && forall b :: b in buffers ==> b in old(buffers) || fresh(b)
    {
      FaultInv(model, task, v, address, io);
      assert FaultFails(model, task.pid, v, address, io) <==>
        || !BlockOn(model.areas, v, address) || OldestStuck(model.mem, task.pid, io)
        || (Key(task.pid, address) in model.mem.backing.store && !io.load) || !io.insert by {
        FaultFailsIff(model, task, v, address, io);
      }
      sigbus := HandleFault(task.pid, v, address, io);
    }

    /** The part of the fault handler under the semaphore. */
    method HandleFault(pid: int, v: VmaRef, address: nat, io: Io) returns (sigbus: bool)
      requires Valid()
      modifies this`buffers, this`model, this`store, buffers, storedPages
      ensures Tied() && model == Fault(old(model), pid, v, address, io)
      ensures sigbus <==> FaultFails(old(model), pid, v, address, io)
      ensures forall b :: b in buffers ==> b in old(buffers) || fresh(b)
    {
      var ok := IsValidAddress(address, v);
      if !ok {
        return true;
      }
      sigbus := GetPageFor(pid, address, v, io);
    }

    // ----- Allocation -----

    /** Area `i` has been changed in place; the model follows. */
    ghost method NoteArea(i: nat)
      requires |areas| == |model.areas| && i < |areas|
      requires forall j, k :: 0 <= j < k < |areas| ==> areas[j] != areas[k]
      requires forall j :: 0 <= j < |areas| && j != i ==> areas[j].View() == model.areas[j]
      modifies `model
      ensures AreasTied()
      ensures model == old(model).(areas := old(model).areas[i := areas[i].View()])
    {
      model := model.(areas := model.areas[i := areas[i].View()]);
    }

    /** The VMA after the one that starts at `start`, if there is one. */
    method NextVma(list: seq<Vma>, start: nat) returns (hasNext: bool, nextStart: nat)
      requires IndexOf(list, start) < |list|
      ensures hasNext <==> IndexOf(list, start) + 1 < |list|
      ensures hasNext ==> nextStart == list[IndexOf(list, start) + 1].start
    {
      var i := 0;
      while list[i].start != start
        invariant i <= IndexOf(list, start)
        decreases IndexOf(list, start) - i
      {
        i := i + 1;
      }
      hasNext := i + 1 < |list|;
      nextStart := if hasNext then list[i + 1].start else 0;
    }

    /** `extend_vma` on area `i`, together with the entry of its VMA in the process's list. */
    method ExtendArea(i: nat, size: nat) returns (ok: bool)
      requires Tied() && i < |areas| && model.areas[i].freeSpace < size
      requires Listed(lists, model.areas[i])
      modifies areas[i], `lists, `model
      ensures Tied()
      ensures ok <==> Serves(old(model).areas[i], old(lists), size)
      ensures model == if ok then WithGrown(old(model), i, size) else old(model)
    {
      var a := areas[i];
      assert a.View() == model.areas[i];
      var list := ListOf(lists, a.mm);
      var hasNext, nextStart := NextVma(list, a.vmStart);
      var end := a.vmEnd;
      ok := a.ExtendVma(hasNext, nextStart, size);
      if ok {
        assert a.vmEnd - end == Extra(old(model).areas[i], size);
        lists := lists[a.mm := Widen(list, a.vmStart, a.vmEnd - end)];
        model := model.(lists := lists);
        NoteArea(i);
      }
    }

    /** The loop of `get_area_container`; the number of areas when none serves. */
    method FindServing(size: nat, pid: int) returns (i: nat)
      requires Tied() && forall j :: 0 <= j < |model.areas| ==> Listed(lists, model.areas[j])
      modifies areas, `lists, `model
      ensures Tied() && i == FirstServing(old(model).areas, old(lists), pid, size) <= |areas|
      ensures model == if i < |areas| && old(model).areas[i].freeSpace < size then WithGrown(old(model), i, size)
                       else old(model)
    {
      i := 0;
      while i < |areas|
        invariant i <= FirstServing(old(model).areas, old(lists), pid, size)
        invariant Tied() && model == old(model)
      {
        assert areas[i].View() == model.areas[i];
        if areas[i].pid == pid {
          if areas[i].freeSpace >= size {
            return;
          }
          var ok := ExtendArea(i, size);
          if ok {
            return;
          }
        }
        i := i + 1;
      }
    }

    /** `get_area_container`: the area and its position. */
    method GetAreaContainer(size: nat, task: Task) returns (a: Area, i: nat)
      requires Tied() && ListsOk(lists) && AreasPlaced(model.areas, lists) && size > 0
      modifies this`areas, this`lists, this`model, areas
      ensures Tied() && i < |areas| && a == areas[i] && (a in old(areas) || fresh(a))
      ensures (model, i) == Container(old(model), task, size)
      ensures AllAreasOk(old(model).areas) ==> RoomMade(old(model), model, task, size, i)
      ensures forall c :: c in areas ==> c in old(areas) || fresh(c)
    {
      ghost var s := model;
      i := FindOrAddArea(size, task);
      a := areas[i];
      RoomIsMade(s, model, task, size, i);
    }

    /** Its search, and the new area if that finds none. */
    method FindOrAddArea(size: nat, task: Task) returns (i: nat)
      requires Tied() && ListsOk(lists) && AreasPlaced(model.areas, lists) && size > 0
      modifies this`areas, this`lists, this`model, areas
      ensures Tied() && i < |areas| && (model, i) == Container(old(model), task, size)
      ensures forall c :: c in areas ==> c in old(areas) || fresh(c)
    {
      AllListed(model);
      i := FindServing(size, task.pid);
      if i == |areas| {
        AddAreaAndVma(size, task);
      }
    }

    /** The same for `create_region`, to which it makes no difference where the area comes from. */
    method ContainerFor(size: nat, task: Task) returns (a: Area, i: nat)
      requires Tied() && ListsOk(lists) && AreasPlaced(model.areas, lists) && size > 0
      modifies this`areas, this`lists, this`model, areas
      ensures Tied() && i < |areas| && a == areas[i] && (a in old(areas) || fresh(a))
      ensures (model, i) == Container(old(model), task, size)
      ensures forall c :: c in areas ==> c in old(areas) || fresh(c)
    {
      a, i := GetAreaContainer(size, task);
    }

    /** `add_vma`: the VMA is created in the first gap and inserted in the process's list. */
    method AddVma(mm: int, size: nat) returns (v: Vma)
      requires ListsOk(lists) && size > 0
      modifies `lists
      ensures v == NewVma(old(lists), mm, size)
      ensures lists == old(lists)[mm := Insert(ListOf(old(lists), mm), v)]
    {
      var list := ListOf(lists, mm);
      var length := VmaCeil(size);
      var start := GetFreeSpace(list, length);
      v := Vma(start, start + length);
      lists := lists[mm := Insert(list, v)];
    }

    /** The end of `get_area_container`: `add_area_struct` and `add_vma`. */
    method AddAreaAndVma(size: nat, task: Task)
      requires Tied() && ListsOk(lists) && size > 0
      modifies `areas, `lists, `model
      ensures Tied() && model == WithNew(old(model), task, size)
      ensures forall a :: a in areas ==> a in old(areas) || fresh(a)
    {
      var v := AddVma(task.mm, size);
      var area := new Area(task.pid, task.mm, v.start, v.end - v.start);
      areas := areas + [area];
      model := WithNew(model, task, size);
    }

    /** `create_region`: the address of the region. */
    method CreateRegionFor(size: nat, task: Task) returns (start: nat)
      requires Tied() && ListsOk(lists) && AreasPlaced(model.areas, lists) && size > 0
      requires var (c, i) := Container(model, task, size); AreaOk(c.areas[i]) && InWords(c.areas[i], 0)
      modifies this`areas, this`lists, this`model, areas
      ensures Tied() && model == CreateRegion(old(model), task, size)
      ensures start == NewRegion(old(model), task, size).start
      ensures buffers == old(buffers)
      ensures forall a :: a in areas ==> a in old(areas) || fresh(a)
    {
      var a, i := ContainerFor(size, task);
      start := AddRegionTo(a, i, size);
    }

    /** `add_region` on area `i`: the address of the region. */
    method AddRegionTo(a: Area, i: nat, size: nat) returns (start: nat)
      requires Tied() && i < |areas| && a == areas[i]
      requires AreaOk(model.areas[i]) && 0 < size <= model.areas[i].freeSpace && InWords(model.areas[i], 0)
      modifies a, `model
      ensures Tied() && model == old(model).(areas := old(model).areas[i := AllocIn(old(model).areas[i], size)])
      ensures start == Placed(old(model).areas[i].regions, old(model).areas[i].vmStart, size).start
    {
      assert a.View() == model.areas[i];
      var at := a.AddRegion(size);
      start := a.regions[at].start;
      NoteArea(i);
    }

    /** `generic_malloc`, under its locks. */
    method GenericMalloc(task: Task, size: nat, io: Io) returns (start: nat)
      requires Valid() && Delivered(model, OpMalloc(task, size, io))
      requires var (c, i) := Container(model, task, size); InWords(c.areas[i], 0)
      modifies this, areas, buffers, storedPages
      ensures Valid() && model == Step(old(model), OpMalloc(task, size, io))
      ensures start == MallocResult(old(model), task, size, io)
      ensures start == 0 <==> BothStuck(old(model).mem, task.pid, io)
      ensures start != 0 ==> exists c, i: nat :: Handed(old(model), c, model, task, size, i, start)
      ensures start != 0 && AllContained(model.areas, task.mm) ==>
                forall b :: IsLive(old(model).areas, b) && b.mm == task.mm ==>
                  b.start + b.size <= start || start + size <= b.start
      ensures buffers == old(buffers) && forall a :: a in areas ==> a in old(areas) || fresh(a)
    {
      StepInv(model, OpMalloc(task, size, io));
      ContainerAreaOk(model, task, size);
      MallocPromises(model, task, size, io);
      start := CreateAndEvict(task, size, io);
    }

    /** The part of `generic_malloc` under its locks. */
    method CreateAndEvict(task: Task, size: nat, io: Io) returns (start: nat)
      requires Tied() && ListsOk(lists) && AreasPlaced(model.areas, lists) && size > 0
      requires var (c, i) := Container(model, task, size); AreaOk(c.areas[i]) && InWords(c.areas[i], 0)
      modifies this, areas, buffers, storedPages
      ensures Tied() && model == Malloc(old(model), task, size, io)
      ensures start == MallocResult(old(model), task, size, io)
      ensures buffers == old(buffers) && forall a :: a in areas ==> a in old(areas) || fresh(a)
    {
      start := CreateRegionFor(size, task);
      start := AfterCreate(start, task.pid, io);
    }

    /** The eviction at the end of `generic_malloc`, which decides what is returned. */
    method AfterCreate(created: nat, pid: int, io: Io) returns (start: nat)
      requires Tied()
      modifies buffers, `store, `model, storedPages
      ensures Tied()
      ensures var u := UnmapBoth(old(model).mem, lists, pid, io);
              model == old(model).(mem := u.mem) && start == if u.failed then 0 else created
      ensures areas == old(areas) && buffers == old(buffers)
    {
      start := created;
      var error := UnmapPage(pid, false, io);
      if error {
        start := 0;
      }
    }

    // ----- Release -----

    /** The loop of `remove_storage_pages` over the pages of region `at` of the list `rs`. */
    method DropPagesOf(pid: int, rs: seq<Region>, at: nat)
      requires StoreTied() && at < |rs|
      modifies `store, `model, storedPages
      ensures StoreTied()
      ensures model == old(model).(mem := old(model).mem.(backing := DropRegion(old(model).mem.backing, pid, rs, at)))
    {
      var start := rs[at].start;
      var end := start + rs[at].size;
      start := PageFloor(start);
      end := PageCeil(end);
      while start < end
        invariant StoreTied()
        invariant model == old(model).(mem := old(model).mem.(backing := model.mem.backing))
        invariant DropPages(model.mem.backing, pid, rs, at, start, end) ==
                  DropRegion(old(model).mem.backing, pid, rs, at)
        decreases end - start
      {
        var stored := storedPages.IsStoredPage(pid, start);
        if stored {
          var ok := CanRemovePage(start, at, rs);
          if ok {
            store := store - {Key(pid, start)};
            storedPages.RemoveStoredPage(pid, start);
            model := model.(mem := model.mem.(backing := Drop(model.mem.backing, Key(pid, start))));
          }
        }
        start := start + PAGE_SIZE;
      }
    }

    /** `remove_storage_pages`. */
    method RemoveStoragePagesAt(pid: int, address: nat)
      requires Tied()
      modifies `store, `model, storedPages
      ensures Tied() && model == RemoveStoragePages(old(model), pid, address)
      ensures model.areas == old(model).areas && model.lists == old(model).lists
    {
      var i := GetArea(pid, address);
      if i == |areas| {
        return;
      }
      assert areas[i].View() == model.areas[i];
      var at := areas[i].GetRegion(address);
      if at == |areas[i].regions| {
        return;
      }
      DropPagesOf(pid, areas[i].regions, at);
    }

    /** `get_area_count`. */
    method GetAreaCount(pid: int) returns (count: nat)
      requires AreasTied()
      ensures count == 0 <==> !HasArea(model.areas, pid)
    {
      count := 0;
      var i := 0;
      while i < |areas|
        invariant i <= |areas|
        invariant count == 0 <==> forall j :: 0 <= j < i ==> model.areas[j].pid != pid
      {
        assert areas[i].View() == model.areas[i];
        if areas[i].pid == pid {
          count := count + 1;
        }
        i := i + 1;
      }
    }

    /** `remove_buffer`. */
    method RemoveBuffer(pid: int)
      requires BuffersTied()
      modifies `buffers, `model
      ensures BuffersTied()
      ensures model == old(model).(mem := old(model).mem.(buffers := old(model).mem.buffers - {pid}))
      ensures forall b :: b in buffers ==> b in old(buffers)
    {
      var i := 0;
      while i < |buffers|
        invariant i <= |buffers|
        invariant forall j :: 0 <= j < i ==> buffers[j].pid != pid
      {
        if buffers[i].pid == pid {
          DeleteBuffer(i);
          return;
        }
        i := i + 1;
      }
      assert pid !in model.mem.buffers;
      assert model.mem.buffers - {pid} == model.mem.buffers;
    }

    /** `list_del` of buffer `i`. */
    method DeleteBuffer(i: nat)
      requires BuffersTied() && i < |buffers|
      modifies `buffers, `model
      ensures BuffersTied()
      ensures model == old(model).(mem := old(model).mem.(buffers := old(model).mem.buffers - {old(buffers)[i].pid}))
      ensures buffers == old(buffers)[..i] + old(buffers)[i + 1..]
    {
      BuffersWithout(buffers, model.mem.buffers.Keys, i);
      model := model.(mem := model.mem.(buffers := model.mem.buffers - {buffers[i].pid}));
      buffers := buffers[..i] + buffers[i + 1..];
    }

    /** One turn of the loop of `close_vma`: the first region of area `i` goes, after its pages. */
    method CloseFirstRegion(i: nat)
      requires Tied() && i < |areas| && model.areas[i].regions != []
      modifies areas[i], `store, `model, storedPages
      ensures Tied() && model.areas[i].regions == old(model).areas[i].regions[1..]
      ensures CloseRegions(model, i) == CloseRegions(old(model), i)
    {
      var a := areas[i];
      assert a.View() == model.areas[i];
      RemoveStoragePagesAt(a.pid, a.regions[0].start);
      a.regions := a.regions[1..];
      NoteArea(i);
    }

    /** The loop of `close_vma` over the regions of area `i`. */
    method CloseRegionsOf(i: nat)
      requires Tied() && i < |areas|
      modifies areas[i], `store, `model, storedPages
      ensures Tied() && model == CloseRegions(old(model), i)
    {
      var a := areas[i];
      while |a.regions| > 0
        invariant Tied() && a.View() == model.areas[i]
        invariant CloseRegions(model, i) == CloseRegions(old(model), i)
        decreases |a.regions|
      {
        CloseFirstRegion(i);
        assert a.View() == model.areas[i];
      }
    }

    /** `list_del` of area `i`. */
    method DetachArea(i: nat)
      requires Tied() && i < |areas|
      modifies `areas, `model
      ensures Tied() && model == old(model).(areas := old(model).areas[..i] + old(model).areas[i + 1..])
      ensures areas == old(areas)[..i] + old(areas)[i + 1..]
    {
      ghost var before := areas;
      ghost var m := model;
      areas := areas[..i] + areas[i + 1..];
      model := model.(areas := model.areas[..i] + model.areas[i + 1..]);
      forall j | 0 <= j < |areas|
        ensures areas[j] == before[if j < i then j else j + 1] && model.areas[j] == m.areas[if j < i then j else j + 1]
      {
      }
    }

    /** The end of `close_vma`: a pid without areas needs no buffer. */
    method ReleaseBuffer(pid: int)
      requires Tied()
      modifies `buffers, `model
      ensures Tied()
      ensures model == if HasArea(old(model).areas, pid) then old(model)
                       else old(model).(mem := old(model).mem.(buffers := old(model).mem.buffers - {pid}))
      ensures forall b :: b in buffers ==> b in old(buffers)
    {
      var count := GetAreaCount(pid);
      if count == 0 {
        RemoveBuffer(pid);
      }
    }

    /** `close_vma`, once the area on the VMA has been found. */
    method CloseArea(i: nat)
      requires Tied() && i < |areas|
      modifies areas[i], this, storedPages
      ensures Tied() && model == CloseVma(old(model), i)
      ensures forall a :: a in areas ==> a in old(areas)
      ensures forall b :: b in buffers ==> b in old(buffers)
    {
      var pid := areas[i].pid;
      assert areas[i].View() == model.areas[i];
      CloseRegionsOf(i);
      DetachArea(i);
      ReleaseBuffer(pid);
    }

    /** `close_vma`. */
    method CloseVmaAt(v: VmaRef)
      requires Tied()
      modifies areas, this, storedPages
      ensures Tied()
      ensures model == var i := AreaOnVma(old(model).areas, v);
                       if i < |old(model).areas| then CloseVma(old(model), i) else old(model)
      ensures forall a :: a in areas ==> a in old(areas)
      ensures forall b :: b in buffers ==> b in old(buffers)
    {
      var i := 0;
      while i < |areas|
        invariant i <= AreaOnVma(model.areas, v)
      {
        assert areas[i].View() == model.areas[i];
        if areas[i].mm == v.mm && areas[i].vmStart == v.start {
          CloseArea(i);
          return;
        }
        i := i + 1;
      }
    }

    /** `remove_vma` on area `i`. */
    method RemoveVmaOf(i: nat)
      requires Tied() && AreasPlaced(model.areas, model.lists) && i < |areas|
      modifies areas, this, storedPages
      ensures Tied() && model == RemoveVma(old(model), i)
      ensures forall a :: a in areas ==> a in old(areas)
      ensures forall b :: b in buffers ==> b in old(buffers)
    {
      var a := areas[i];
      assert a.View() == model.areas[i];
      OnlyAreaOnVma(model, i);
      lists := lists[a.mm := Remove(ListOf(lists, a.mm), a.vmStart)];
      model := model.(lists := lists);
      CloseVmaAt(VmaRef(a.mm, a.vmStart));
    }

    /** `remove_region`. */
    method RemoveRegionAt(pid: int, address: nat)
      requires Tied() && AreasPlaced(model.areas, model.lists) && ReleaseInWords(model.areas, pid, address)
      modifies areas, this, storedPages
      ensures Tied() && model == RemoveRegion(old(model), pid, address)
      ensures forall a :: a in areas ==> a in old(areas)
      ensures forall b :: b in buffers ==> b in old(buffers)
    {
      var i := GetArea(pid, address);
      if i == |areas| {
        return;
      }
      var a := areas[i];
      assert a.View() == model.areas[i];
      var at := a.GetRegion(address);
      if at == |a.regions| {
        return;
      }
      FreeRegionOf(a, i, at);
      if |a.regions| == 0 {
        RemoveVmaOf(i);
      }
    }

    /** Region `at` of area `i` becomes free and merges with its neighbours. */
    method FreeRegionOf(a: Area, i: nat, at: nat)
      requires Tied() && AreasPlaced(model.areas, model.lists) && i < |areas| && a == areas[i]
      requires at < |model.areas[i].regions| && InWords(model.areas[i], model.areas[i].regions[at].size)
      modifies a, `model
      ensures Tied() && AreasPlaced(model.areas, model.lists)
      ensures model == WithFreed(old(model), i, at) && a.View() == model.areas[i]
    {
      assert a.View() == model.areas[i];
      PlacedStays(model.areas, model.lists, i, FreeIn(model.areas[i], at));
      a.FreeRegion(at);
      NoteArea(i);
    }

    /** `generic_free`, under its locks, for any pointer and whatever fails. */
    method GenericFree(pid: int, ptr: nat, io: Io)
      requires Valid() && ReleaseInWords(model.areas, pid, ptr)
      modifies this, areas, buffers, storedPages
      ensures Tied() && model == Free(old(model), pid, ptr, io)
      ensures Returned(old(model), model, pid, ptr)
      ensures Valid() <==> !FreeDangles(old(model), pid, ptr, io)
      ensures forall a :: a in areas ==> a in old(areas)
      ensures forall b :: b in buffers ==> b in old(buffers)
    {
      FreeInv(model, pid, ptr, io);
      FreeExactly(model, pid, ptr, io);
      EvictAndRemove(pid, ptr, io);
    }

    /** The part of `generic_free` under its locks; a failed eviction is ignored. */
    method EvictAndRemove(pid: int, ptr: nat, io: Io)
      requires Tied() && AreasPlaced(model.areas, model.lists) && ReleaseInWords(model.areas, pid, ptr)
      modifies this, areas, buffers, storedPages
      ensures Tied() && model == Free(old(model), pid, ptr, io)
      ensures forall a :: a in areas ==> a in old(areas)
      ensures forall b :: b in buffers ==> b in old(buffers)
    {
      var error := UnmapPage(pid, false, io);
      RemoveStoragePagesAt(pid, ptr);
      RemoveRegionAt(pid, ptr);
    }
  }

  /** The counters of the area stay in machine words when the region at `address` is released. */
  ghost predicate ReleaseInWords(areas: seq<AreaState>, pid: int, address: nat) {
    var i := AreaAt(areas, pid, address);
    i < |areas| ==>
      var j := RegionAt(areas[i].regions, address);
      j < |areas[i].regions| ==> InWords(areas[i], areas[i].regions[j].size)
  }

  lemma OnlyAreaOnVma(s: State, i: nat)
    requires AreasPlaced(s.areas, s.lists) && i < |s.areas|
    ensures AreaOnVma(s.areas, VmaRef(s.areas[i].mm, s.areas[i].vmStart)) == i
  {
    var j := AreaOnVma(s.areas, VmaRef(s.areas[i].mm, s.areas[i].vmStart));
    if j != i {
      DistinctPlaces(s.areas, s.lists, i, j);
    }
  }
}
