/** Threads of one process share its address space, though each has its own areas, slots and stored pages: what a
    thread reads, and a run in which an overrun of one thread reaches the blocks of another. */
module Threads {
  import opened Kutils
  import opened Regions
  import opened Areas
  import opened Vmas
  import opened StoredPages
  import opened PageRemoval
  import opened Paging
  import opened GenericMalloc
  import opened Invariant
  import opened FlatHeap
  import opened Runs
  import opened Concrete

  // ----- What a thread reads -----

  /** Only one slot of a process has a page. */
  lemma HolderUnique(m: Memory, mm: int, page: nat, p: int)
    requires TablesOk(m) && HeldBy(m, p, mm, page)
    ensures InTables(m, mm, page) && Holder(m, mm, page) == p
  {
    assert HeldBy(m, Holder(m, mm, page), mm, page);
  }

  /** What any thread writes every thread of the process reads, whichever thread the page was put into the page
      tables for. */
  lemma WriteIsShared(s: State, task: Task, address: nat, value: Byte)
    requires Inv(s) && Delivered(s, OpWrite(task, address, value))
    ensures var m := Step(s, OpWrite(task, address, value)).mem;
            InTables(m, task.mm, PageFloor(address)) && ReadByte(m, task.mm, address) == value
  {
    var page := PageFloor(address);
    var p := Holder(s.mem, task.mm, page);
    StoreInv(s, p, address, value);
    var m := Store(s.mem, p, address, value);
    assert HeldBy(m, p, task.mm, page);
    HolderUnique(m, task.mm, page, p);
    StoreChangesOneByte(s.mem, p, address, value, p, address);
  }

  /** A thread whose fault succeeds gets its own copy of the page. On a page of another thread's block it therefore
      reads what it has stored for that page itself, or zeros, and not what the other thread has written. */
  lemma FaultReadsOwn(s: State, task: Task, v: VmaRef, io: Io, address: nat)
    requires Inv(s) && Delivered(s, OpFault(task, v, PageFloor(address), io))
    requires !FaultFails(s, task.pid, v, PageFloor(address), io)
    ensures var m := Step(s, OpFault(task, v, PageFloor(address), io)).mem;
            && InTables(m, task.mm, PageFloor(address))
            && (io.copy1 != Missing ==> ReadByte(m, task.mm, address) == ByteAt(s.mem, task.pid, address))
  {
    var page := PageFloor(address);
    var m := GetPage(s.mem, s.lists, task.pid, page, v, io).mem;
    FaultInv(s, task, v, page, io);
    PlacedExists(s, task.pid);
    NotInTables(s, task, page);
    GetPageKeeps(s.mem, s.lists, task.pid, page, v, io);
    GetPageSlots(s.mem, s.lists, task.pid, page, v, io);
    assert HeldBy(m, task.pid, task.mm, page);
    HolderUnique(m, task.mm, page, task.pid);
    if io.copy1 != Missing {
      assert Contents(m, PageOf(task.pid, address)) == Contents(s.mem, PageOf(task.pid, address));
    }
  }

  // ----- An overrun into another thread's VMA -----

  /** Thread 1 with the VMA of `OneArea`, thread 2 with the one behind it and one page in use there. */
  function TwoAreas(freeSpace: nat, surplus: nat, rs: seq<Region>): State {
    State([AreaState(1, 1, 4096, 12288, 8192, freeSpace, surplus, rs),
           AreaState(2, 1, 12288, 20480, 8192, 4096, 0, [Region(12288, 4096, false)])],
          map[1 := [Vma(4096, 12288), Vma(12288, 20480)]], Memory(map[], Backing([], map[])))
  }

  lemma SecondThread(freeSpace: nat, rs: seq<Region>)
    ensures Moves(OneArea(OneVma(), freeSpace, 0, rs), Get(2, 4096), TwoAreas(freeSpace, 0, rs))
  {
    var s := OneArea(OneVma(), freeSpace, 0, rs);
    var v, w := Vma(4096, 12288), Vma(12288, 20480);
    assert [v][1..] == [];
    assert NewVma(s.lists, 1, 4096) == w by {
      VmaCeilSmall(4096);
    }
    assert Insert([v], w) == [v, w] by {
      assert Insert([], w) == [w];
    }
    assert FirstServing(s.areas, s.lists, 2, 4096) == 1;
    MallocNew(s, Task(2, 1), 4096, w, [v, w]);
    assert map[1 := [v]][1 := [v, w]] == map[1 := [v, w]];
  }

  lemma MallocInFirst(freeSpace: nat, surplus: nat, rs: seq<Region>, size: nat)
    requires 0 < size <= freeSpace
    ensures Moves(TwoAreas(freeSpace, surplus, rs), Get(1, size),
                  if ExactFit(rs, size) then TwoAreas(freeSpace, surplus + size, Place(rs, 4096, size))
                  else TwoAreas(freeSpace - size, surplus, Place(rs, 4096, size)))
  {
    var s := TwoAreas(freeSpace, surplus, rs);
    assert FirstServing(s.areas, s.lists, 1, size) == 0;
    MallocFrom(s, Task(1, 1), size, s, 0);
  }

  lemma FreeInFirst()
    ensures var x, y := Region(4096, 4096, false), Region(8192, 4096, false);
            Moves(TwoAreas(0, 0, [x, y]), GiveBack(1, 4096), TwoAreas(4096, 0, [Region(4096, 4096, true), y]))
  {
    var x, y := Region(4096, 4096, false), Region(8192, 4096, false);
    var rs := [x, y];
    var s := TwoAreas(0, 0, rs);
    assert AreaAt(s.areas, 1, 4096) == 0 && RegionAt(rs, 4096) == 0;
    ReleaseFirst(x, y);
    assert RemoveStoragePages(s, 1, 4096) == s by {
      NothingToDrop(1, rs, 0, PageFloor(4096), PageCeil(8192));
    }
  }

  /** Both threads allocate a page; thread 1 fills its VMA, releases its first page, allocates it again, and asks for
      one page more. */
  function SharedOps(): seq<Op> {
    [Get(1, 4096), Get(2, 4096), Get(1, 4096), GiveBack(1, 4096), Get(1, 4096), Get(1, 4096)]
  }

  function SharedStates(): seq<State> {
    var x, y, z := Region(4096, 4096, false), Region(8192, 4096, false), Region(12288, 4096, false);
    [Initial(map[]),
     OneArea(OneVma(), 4096, 0, [x]),
     TwoAreas(4096, 0, [x]),
     TwoAreas(0, 0, [x, y]),
     TwoAreas(4096, 0, [Region(4096, 4096, true), y]),
     TwoAreas(4096, 4096, [x, y]),
     TwoAreas(0, 4096, [x, y, z])]
  }

  lemma Shared0()
    ensures Link(SharedStates(), SharedOps(), 0)
  {
    FirstMalloc(4096);
  }

  lemma Shared1()
    ensures Link(SharedStates(), SharedOps(), 1)
  {
    var x := Region(4096, 4096, false);
    assert SharedStates()[1] == OneArea(OneVma(), 4096, 0, [x]) && SharedStates()[2] == TwoAreas(4096, 0, [x]);
    assert SharedOps()[1] == Get(2, 4096);
    SecondThread(4096, [x]);
  }

  lemma Shared2()
    ensures Link(SharedStates(), SharedOps(), 2)
  {
    PlacesOfRun();
    MallocInFirst(4096, 0, [Region(4096, 4096, false)], 4096);
  }

  lemma Shared3()
    ensures Link(SharedStates(), SharedOps(), 3)
  {
    FreeInFirst();
  }

  lemma Shared4()
    ensures Link(SharedStates(), SharedOps(), 4)
  {
    PlacesOfRun();
    MallocInFirst(4096, 0, [Region(4096, 4096, true), Region(8192, 4096, false)], 4096);
  }

  lemma Shared5()
    ensures Link(SharedStates(), SharedOps(), 5)
  {
    PlacesOfRun();
    MallocInFirst(4096, 4096, [Region(4096, 4096, false), Region(8192, 4096, false)], 4096);
  }

  lemma SharedStep(i: nat)
    requires i < 6
    ensures Link(SharedStates(), SharedOps(), i)
  {
    match i
    case 0 => Shared0();
    case 1 => Shared1();
    case 2 => Shared2();
    case 3 => Shared3();
    case 4 => Shared4();
    case _ => Shared5();
  }

  lemma SharedRuns()
    ensures Run(Initial(map[]), SharedOps()) && After(Initial(map[]), SharedOps()) == SharedStates()[6]
  {
    forall i: nat | i < 6
      ensures Link(SharedStates(), SharedOps(), i)
    {
      SharedStep(i);
    }
    LinksRun(SharedStates(), SharedOps());
  }

  /** The block that overran is the other thread's: both threads hold a block at the same address although thread 2
      did nothing but one allocation that fitted. The kernel delivers thread 1's faults on its block with thread 2's
      VMA, and they are let through. */
  lemma TwoThreadsOverlap()
    ensures Run(Initial(map[]), SharedOps())
    ensures var s := After(Initial(map[]), SharedOps());
            && IsLive(s.areas, Block(1, 1, 12288, 4096)) && IsLive(s.areas, Block(1, 2, 12288, 4096))
            && (forall i :: 0 <= i < |s.areas| && s.areas[i].pid == 2 ==> Contained(s.areas[i]))
            && FaultDelivered(s, Task(1, 1), VmaRef(1, 12288), 12288)
            && ValidAddress(s.areas, VmaRef(1, 12288), 12288)
  {
    SharedRuns();
    SharedEnd();
  }

  lemma SharedEnd()
    ensures var s := SharedStates()[6];
            && IsLive(s.areas, Block(1, 1, 12288, 4096)) && IsLive(s.areas, Block(1, 2, 12288, 4096))
            && (forall i :: 0 <= i < |s.areas| && s.areas[i].pid == 2 ==> Contained(s.areas[i]))
            && FaultDelivered(s, Task(1, 1), VmaRef(1, 12288), 12288)
            && ValidAddress(s.areas, VmaRef(1, 12288), 12288)
  {
    var s := SharedStates()[6];
    var z := Region(12288, 4096, false);
    assert s.areas[0].regions[2] == z && s.areas[1].regions[0] == z;
    assert Block(1, 1, 12288, 4096).AsRegion() in s.areas[0].regions;
    assert Block(1, 2, 12288, 4096).AsRegion() in s.areas[1].regions;
    assert Vma(12288, 20480) in ListOf(s.lists, 1);
    assert Accepts(s.areas[1].regions, 12288);
  }
}
