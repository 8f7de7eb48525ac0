/** When a release leaves a slot that refers to a VMA gone: the exact condition before the call, and a run that meets
    it. */
module Dangling {
  import opened Regions
  import opened Areas
  import opened Vmas
  import opened PageRemoval
  import opened Paging
  import opened GenericMalloc
  import opened Invariant
  import opened Runs
  import opened Concrete

  /** Which slots the eviction leaves on a VMA, told beforehand: the front page stays where its save fails, the
      other one where its own fails or is never tried. */
  predicate Stays(m: Memory, pid: int, v: VmaRef, io: Io) {
    && pid in m.buffers
    && var b := m.buffers[pid];
       || (b.vma == Some(v) && io.copy1 == Failing)
       || (b.cacheVma == Some(v) && (io.copy2 == Failing || (b.vma.Some? && io.copy1 == Failing)))
  }

  lemma StaysIff(m: Memory, lists: VmaLists, pid: int, v: VmaRef, io: Io)
    requires SlotsExist(m, lists, pid)
    ensures RefersTo(UnmapBoth(m, lists, pid, io).mem, pid, v) <==> Stays(m, pid, v, io)
  {
  }

  /** When a release leaves a slot that refers to a VMA it closes, told before the call: the slot is another
      thread's, or the pid has another area and the eviction leaves the page. */
  lemma FreeDanglesIff(s: State, pid: int, ptr: nat, io: Io)
    requires Inv(s)
    ensures FreeDangles(s, pid, ptr, io) <==>
            && Closes(s.areas, pid, ptr)
            && var i := AreaAt(s.areas, pid, ptr);
               var v := VmaRef(s.areas[i].mm, s.areas[i].vmStart);
               || (exists q :: q != pid && RefersTo(s.mem, q, v))
               || (HasArea(s.areas[..i] + s.areas[i + 1..], pid) && Stays(s.mem, pid, v, io))
  {
    if Closes(s.areas, pid, ptr) {
      var i := AreaAt(s.areas, pid, ptr);
      var m := UnmapBoth(s.mem, s.lists, pid, io).mem;
      DanglesIff(s.(mem := m), i);
      StaysAfter(s, pid, VmaRef(s.areas[i].mm, s.areas[i].vmStart), io);
    }
  }

  lemma StaysAfter(s: State, pid: int, v: VmaRef, io: Io)
    requires Inv(s)
    ensures var m := UnmapBoth(s.mem, s.lists, pid, io).mem;
            && (RefersTo(m, pid, v) <==> Stays(s.mem, pid, v, io))
            && (forall q :: q != pid ==> (RefersTo(m, q, v) <==> RefersTo(s.mem, q, v)))
  {
    PlacedExists(s, pid);
    UnmapBothKeeps(s.mem, s.lists, pid, io);
    StaysIff(s.mem, s.lists, pid, v, io);
  }

  lemma DanglesIff(s: State, i: nat)
    requires i < |s.areas|
    ensures var a := s.areas[i];
            var v := VmaRef(a.mm, a.vmStart);
            Dangles(s, i) <==>
            || (exists q :: q != a.pid && RefersTo(s.mem, q, v))
            || (HasArea(s.areas[..i] + s.areas[i + 1..], a.pid) && RefersTo(s.mem, a.pid, v))
  {
    var a := s.areas[i];
    var v := VmaRef(a.mm, a.vmStart);
    var bs := WithoutVma(s, i).mem.buffers;
    assert forall q :: q != a.pid ==> (q in bs <==> q in s.mem.buffers);
    if exists q :: q != a.pid && RefersTo(s.mem, q, v) {
      var q :| q != a.pid && RefersTo(s.mem, q, v);
      assert q in bs;
    }
  }

  /** When no save fails and threads have only pages of their own, nothing dangles and nothing is orphaned. */
  lemma SavedNoneDangles(s: State, task: Task, ptr: nat, io: Io)
    requires Inv(s) && OfProcess(s, task) && NoneFails(io) && OwnSlots(s, task.mm)
    ensures !FreeDangles(s, task.pid, ptr, io) && !FreeOrphans(s, task.pid, ptr, io)
  {
    PlacedExists(s, task.pid);
    UnmapBothFrees(s.mem, s.lists, task.pid, io);
    SavedNotDangling(s, task, ptr, io);
  }

  lemma SavedNotDangling(s: State, task: Task, ptr: nat, io: Io)
    requires Inv(s) && OfProcess(s, task) && NoneFails(io) && OwnSlots(s, task.mm)
    ensures !FreeDangles(s, task.pid, ptr, io)
  {
    FreeDanglesIff(s, task.pid, ptr, io);
    var i := AreaAt(s.areas, task.pid, ptr);
    if i < |s.areas| {
      forall q | q != task.pid
        ensures !RefersTo(s.mem, q, VmaRef(s.areas[i].mm, s.areas[i].vmStart))
      {
        OwnSlotsElsewhere(s, i, q);
      }
    }
  }

  lemma OwnSlotsElsewhere(s: State, i: nat, q: int)
    requires AreasPlaced(s.areas, s.lists) && i < |s.areas| && q != s.areas[i].pid && OwnSlots(s, s.areas[i].mm)
    ensures !RefersTo(s.mem, q, VmaRef(s.areas[i].mm, s.areas[i].vmStart))
  {
    var v := VmaRef(s.areas[i].mm, s.areas[i].vmStart);
    forall j | 0 <= j < |s.areas| && s.areas[j].pid == q
      ensures s.areas[j].mm != v.mm || s.areas[j].vmStart != v.start
    {
      DistinctPlaces(s.areas, s.lists, i, j);
    }
    if RefersTo(s.mem, q, v) {
      var b := s.mem.buffers[q];
      assert HoldsOn(s.mem, q, v, if b.vma == Some(v) then b.start else b.cacheStart);
    }
  }

  // ----- A run that meets it -----

  /** Behind the first VMA the process has one of its own, so a second request gets a second area. */
  function Before(): VmaLists {
    map[1 := [Vma(12288, 16384)]]
  }

  function DangleOps(): seq<Op> {
    [Get(1, 4096), Get(1, 8192), OpFault(Task(1, 1), VmaRef(1, 4096), 4096, AllSucceed())]
  }

  function TwoOfOne(mem: Memory): State {
    State([AreaState(1, 1, 4096, 12288, 8192, 4096, 0, [Region(4096, 4096, false)]),
           AreaState(1, 1, 16384, 24576, 8192, 0, 0, [Region(16384, 8192, false)])],
          map[1 := [Vma(4096, 12288), Vma(12288, 16384), Vma(16384, 24576)]], mem)
  }

  function NoMemory(): Memory {
    Memory(map[], Backing([], map[]))
  }

  function Touched(): Memory {
    Memory(map[1 := EmptyBuffer().(vma := Some(VmaRef(1, 4096)), start := 4096)], Backing([], map[]))
  }

  function DangleStates(): seq<State> {
    [Initial(Before()),
     OneArea(map[1 := [Vma(4096, 12288), Vma(12288, 16384)]], 4096, 0, [Region(4096, 4096, false)]),
     TwoOfOne(NoMemory()),
     TwoOfOne(Touched())]
  }

  lemma Dangle0()
    ensures Link(DangleStates(), DangleOps(), 0)
  {
    var s, v, w := Initial(Before()), Vma(4096, 12288), Vma(12288, 16384);
    assert NewVma(s.lists, 1, 4096) == v by {
      VmaCeilSmall(4096);
    }
    assert Insert([w], v) == [v, w];
    MallocNew(s, Task(1, 1), 4096, v, [v, w]);
    assert Before()[1 := [v, w]] == map[1 := [v, w]];
  }

  lemma GapsOfRun()
    ensures var list := [Vma(4096, 12288), Vma(12288, 16384)];
            && FirstGap(list, 4096, 8192) == 16384
            && Insert(list, Vma(16384, 24576)) == list + [Vma(16384, 24576)]
            && IndexOf(list, 4096) == 0
  {
    var list := [Vma(4096, 12288), Vma(12288, 16384)];
    assert list[1..] == [Vma(12288, 16384)] && [Vma(12288, 16384)][1..] == [];
    assert FirstGap([], 16384, 8192) == 16384;
    assert FirstGap([Vma(12288, 16384)], 12288, 8192) == 16384;
    assert Insert([], Vma(16384, 24576)) == [Vma(16384, 24576)];
    assert Insert([Vma(12288, 16384)], Vma(16384, 24576)) == [Vma(12288, 16384), Vma(16384, 24576)];
  }

  /** The first area can neither serve nor be extended, so there is a new one behind both VMAs. */
  lemma NoneServes()
    ensures FirstServing(DangleStates()[1].areas, DangleStates()[1].lists, 1, 8192) == 1
  {
    var s := DangleStates()[1];
    assert !Serves(s.areas[0], s.lists, 8192) by {
      GapsOfRun();
    }
  }

  lemma NewVmaOfRun()
    ensures NewVma(DangleStates()[1].lists, 1, 8192) == Vma(16384, 24576)
  {
    GapsOfRun();
    VmaCeilSmall(8192);
  }

  lemma Dangle1()
    ensures Link(DangleStates(), DangleOps(), 1)
  {
    var list := [Vma(4096, 12288), Vma(12288, 16384)];
    var longer := [Vma(4096, 12288), Vma(12288, 16384), Vma(16384, 24576)];
    NoneServes();
    NewVmaOfRun();
    assert Insert(list, Vma(16384, 24576)) == longer by {
      GapsOfRun();
    }
    assert OfProcess(DangleStates()[1], Task(1, 1));
    MallocNew(DangleStates()[1], Task(1, 1), 8192, Vma(16384, 24576), longer);
    assert map[1 := list][1 := longer] == map[1 := longer];
  }

  lemma Dangle2()
    ensures Link(DangleStates(), DangleOps(), 2)
  {
    var s := DangleStates()[2];
    assert Vma(4096, 12288) in ListOf(s.lists, 1);
    assert s.areas[0].regions[0] == Region(4096, 4096, false);
    assert Accepts(s.areas[0].regions, 4096);
    assert ValidAddress(s.areas, VmaRef(1, 4096), 4096);
  }

  lemma DangleStep(i: nat)
    requires i < 3
    ensures Link(DangleStates(), DangleOps(), i)
  {
    match i
    case 0 => Dangle0();
    case 1 => Dangle1();
    case _ => Dangle2();
  }

  lemma DangleRuns()
    ensures Run(Initial(Before()), DangleOps()) && After(Initial(Before()), DangleOps()) == TwoOfOne(Touched())
  {
    forall i: nat | i < 3
      ensures Link(DangleStates(), DangleOps(), i)
    {
      DangleStep(i);
    }
    LinksRun(DangleStates(), DangleOps());
  }

  /** The front page is on the VMA that a release closes, and the pid has another area. */
  predicate FrontOnClosing(s: State, pid: int, ptr: nat) {
    Closes(s.areas, pid, ptr)
    && var i := AreaAt(s.areas, pid, ptr);
       && HasArea(s.areas[..i] + s.areas[i + 1..], pid)
       && pid in s.mem.buffers && s.mem.buffers[pid].vma == Some(VmaRef(s.areas[i].mm, s.areas[i].vmStart))
  }

  lemma FailedSaveDangles(s: State, pid: int, ptr: nat, io: Io)
    requires Inv(s) && io.copy1 == Failing && FrontOnClosing(s, pid, ptr)
    ensures FreeDangles(s, pid, ptr, io) && !Inv(Free(s, pid, ptr, io))
  {
    FreeDanglesIff(s, pid, ptr, io);
    FreeInv(s, pid, ptr, io);
  }

  lemma EndInv()
    ensures Inv(TwoOfOne(Touched()))
  {
    BeforeOk();
    DangleRuns();
    InitialInv(Before());
    RunInv(Initial(Before()), DangleOps());
  }

  lemma BeforeOk()
    ensures ListsOk(Before())
  {
  }

  lemma DangleEnd()
    ensures FrontOnClosing(TwoOfOne(Touched()), 1, 4096)
  {
    var s := TwoOfOne(Touched());
    assert Release([Region(4096, 4096, false)], 0) == [];
    assert (s.areas[..0] + s.areas[1..])[0] == s.areas[1];
  }

  /** Where the run ends. */
  lemma DangleReaches() returns (s: State)
    ensures Run(Initial(Before()), DangleOps()) && s == After(Initial(Before()), DangleOps())
    ensures Inv(s) && FrontOnClosing(s, 1, 4096)
  {
    DangleRuns();
    EndInv();
    DangleEnd();
    s := TwoOfOne(Touched());
  }

  /** A thread with two areas and a page of the first in its slot: if the save fails when it releases the only block
      there, the VMA goes and the slot still refers to it. */
  lemma DanglingRun(io: Io) returns (s: State)
    requires io.copy1 == Failing
    ensures Run(Initial(Before()), DangleOps()) && s == After(Initial(Before()), DangleOps())
    ensures FreeDangles(s, 1, 4096, io) && !Inv(Free(s, 1, 4096, io))
  {
    s := DangleReaches();
    FailedSaveDangles(s, 1, 4096, io);
  }
}
