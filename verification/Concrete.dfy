/** Small states written out, for the runs that show where the allocator fails: steps between them, and how steps
    make a run. */
module Concrete {
  import opened Kutils
  import opened Regions
  import opened Areas
  import opened Vmas
  import opened PageRemoval
  import opened Paging
  import opened GenericMalloc
  import opened Invariant
  import opened Runs

  /** The operation is delivered in `s` and leads to `t`. */
  ghost predicate Moves(s: State, op: Op, t: State) {
    Delivered(s, op) && Step(s, op) == t
  }

  /** Operation `i` leads from its state to the next. */
  ghost predicate Link(states: seq<State>, ops: seq<Op>, i: nat) {
    i < |ops| && |states| == |ops| + 1 && Moves(states[i], ops[i], states[i + 1])
  }

  lemma {:induction false} LinksRun(states: seq<State>, ops: seq<Op>)
    requires |states| == |ops| + 1 && forall i: nat :: i < |ops| ==> Link(states, ops, i)
    ensures Run(states[0], ops) && After(states[0], ops) == states[|ops|]
    decreases |ops|
  {
    if ops != [] {
      assert Link(states, ops, 0);
      forall i: nat | i < |ops[1..]|
        ensures Link(states[1..], ops[1..], i)
      {
        assert Link(states, ops, i + 1);
      }
      LinksRun(states[1..], ops[1..]);
    }
  }

  lemma {:induction false} RunAppend(s: State, ops: seq<Op>, op: Op, t: State)
    requires Run(s, ops) && Moves(After(s, ops), op, t)
    ensures Run(s, ops + [op]) && After(s, ops + [op]) == t
    decreases |ops|
  {
    if ops == [] {
      assert [] + [op] == [op] && [op][1..] == [];
    } else {
      assert (ops + [op])[0] == ops[0] && (ops + [op])[1..] == ops[1..] + [op];
      RunAppend(Step(s, ops[0]), ops[1..], op, t);
    }
  }

  /** One area of thread 1 on a VMA of two pages, and no buffers. */
  function OneArea(lists: VmaLists, freeSpace: nat, surplus: nat, rs: seq<Region>): State {
    State([AreaState(1, 1, 4096, 12288, 8192, freeSpace, surplus, rs)], lists, Memory(map[], Backing([], map[])))
  }

  /** Its VMA, listed alone. */
  function OneVma(): VmaLists {
    map[1 := [Vma(4096, 12288)]]
  }

  function Get(pid: int, size: nat): Op {
    OpMalloc(Task(pid, 1), size, AllSucceed())
  }

  function GiveBack(pid: int, ptr: nat): Op {
    OpFree(Task(pid, 1), ptr, AllSucceed())
  }

  /** An allocation by a thread without a buffer, once the area is known. */
  lemma MallocFrom(s: State, task: Task, size: nat, c: State, i: nat)
    requires Container(s, task, size) == (c, i) && task.pid !in c.mem.buffers
    requires size > 0 && OfProcess(s, task)
    ensures Moves(s, OpMalloc(task, size, AllSucceed()), c.(areas := c.areas[i := AllocIn(c.areas[i], size)]))
  {
  }

  lemma MallocInOneArea(lists: VmaLists, freeSpace: nat, surplus: nat, rs: seq<Region>, size: nat)
    requires 0 < size <= freeSpace
    ensures Moves(OneArea(lists, freeSpace, surplus, rs), Get(1, size),
                  if ExactFit(rs, size) then OneArea(lists, freeSpace, surplus + size, Place(rs, 4096, size))
                  else OneArea(lists, freeSpace - size, surplus, Place(rs, 4096, size)))
  {
    var s := OneArea(lists, freeSpace, surplus, rs);
    assert FirstServing(s.areas, lists, 1, size) == 0;
    MallocFrom(s, Task(1, 1), size, s, 0);
  }

  lemma PlaceEmpty(base: nat, size: nat)
    ensures Place([], base, size) == [Region(base, size, false)] && !ExactFit([], size)
  {
  }

  /** An allocation by a thread without a buffer, in a new area. */
  lemma MallocNew(s: State, task: Task, size: nat, v: Vma, list: seq<Vma>)
    requires FirstServing(s.areas, s.lists, task.pid, size) == |s.areas|
    requires v == NewVma(s.lists, task.mm, size) && list == Insert(ListOf(s.lists, task.mm), v)
    requires size > 0 && OfProcess(s, task) && task.pid !in s.mem.buffers
    ensures var a := AreaOn(task, v);
            Moves(s, OpMalloc(task, size, AllSucceed()),
                  State(s.areas + [a.(freeSpace := a.freeSpace - size, regions := [Region(v.start, size, false)])],
                        s.lists[task.mm := list], s.mem))
  {
    var c := WithNew(s, task, size);
    MallocFrom(s, task, size, c, |s.areas|);
    PlaceEmpty(v.start, size);
    var b := AllocIn(c.areas[|s.areas|], size);
    assert c.areas[|s.areas| := b] == s.areas + [b];
  }

  lemma FirstMalloc(size: nat)
    requires 0 < size <= 8192
    ensures Moves(Initial(map[]), Get(1, size), OneArea(OneVma(), 8192 - size, 0, [Region(4096, size, false)]))
  {
    var s, v := Initial(map[]), Vma(4096, 12288);
    assert NewVma(s.lists, 1, size) == v by {
      VmaCeilSmall(size);
    }
    assert Insert([], v) == [v];
    MallocNew(s, Task(1, 1), size, v, [v]);
    assert map[][1 := [v]] == OneVma();
  }

  lemma VmaCeilSmall(size: nat)
    requires 0 < size <= 8192
    ensures VmaCeil(size) == 8192
  {
  }

  lemma PlacesOfRun()
    ensures var x, y, z := Region(4096, 4096, false), Region(8192, 4096, false), Region(12288, 4096, false);
            var hole := Region(4096, 4096, true);
            && Place([x], 4096, 4096) == [x, y] && !ExactFit([x], 4096)
            && Place([hole, y], 4096, 4096) == [x, y] && ExactFit([hole, y], 4096)
            && Place([x, y], 4096, 4096) == [x, y, z] && !ExactFit([x, y], 4096)
  {
    var x, y := Region(4096, 4096, false), Region(8192, 4096, false);
    assert [x, y][1..] == [y] && [x][1..] == [] && [y][1..] == [];
    assert FirstFit([y], 4096) == 1;
  }

  lemma SumsOne(r: Region)
    ensures Used([r]) + Holes([r]) == r.size
  {
    assert [r][1..] == [];
    assert Used([]) == 0 && Holes([]) == 0;
  }

  lemma {:induction false} NothingToDrop(pid: int, rs: seq<Region>, i: nat, at: nat, end: nat)
    requires i < |rs|
    ensures DropPages(Backing([], map[]), pid, rs, i, at, end) == Backing([], map[])
    decreases end - at
  {
    if at < end {
      NothingToDrop(pid, rs, i, at + PAGE_SIZE, end);
    }
  }

  /** The first of two blocks released leaves a hole. */
  lemma ReleaseFirst(x: Region, y: Region)
    requires !x.free && !y.free
    ensures Release([x, y], 0) == [Region(x.start, x.size, true), y]
  {
    var rs := [x, y];
    assert rs[0..1] == [x] && rs[1..] == [y];
    SumsOne(x);
  }

  lemma FreeFirst(lists: VmaLists, freeSpace: nat, size: nat)
    requires size > 0
    ensures var x, y := Region(4096, 4096, false), Region(8192, size, false);
            Moves(OneArea(lists, freeSpace, 0, [x, y]), GiveBack(1, 4096),
                 OneArea(lists, freeSpace + 4096, 0, [Region(4096, 4096, true), y]))
  {
    var x, y := Region(4096, 4096, false), Region(8192, size, false);
    var rs := [x, y];
    var s := OneArea(lists, freeSpace, 0, rs);
    assert AreaAt(s.areas, 1, 4096) == 0 && RegionAt(rs, 4096) == 0;
    ReleaseFirst(x, y);
    assert RemoveStoragePages(s, 1, 4096) == s by {
      NothingToDrop(1, rs, 0, PageFloor(4096), PageCeil(8192));
    }
  }
}
