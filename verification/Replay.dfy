/** The storage calls that a run of the allocator makes, replayed on the storage back ends: both end with the pages
    the allocator takes to be stored, and give it the contents it expects. */
module Replay {
  import opened Kutils
  import opened Regions
  import opened Areas
  import opened StoredPages
  import opened PageRemoval
  import opened Paging
  import opened GenericMalloc
  import opened Invariant
  import opened FlatHeap
  import opened Effects
  import opened Runs
  import opened Closing
  import opened Protocol
  import opened Server
  import opened KernelStorages
  import opened BackEnds

  // ----- The calls that succeed, in order; a call that fails leaves storage alone -----

  function UnmapCalls(m: Memory, lists: VmaLists, pid: int, copying: Copying): seq<StorageOp>
    requires pid in m.buffers && m.buffers[pid].vma.Some?
  {
    var b := m.buffers[pid];
    if Exists(lists, b.vma.value) && copying == Saving then [StorageOp.Save(Key(pid, b.start), b.data)] else []
  }

  function FrontCalls(m: Memory, lists: VmaLists, pid: int, copying: Copying): seq<StorageOp>
    requires pid in m.buffers
  {
    if m.buffers[pid].vma.Some? then UnmapCalls(m, lists, pid, copying) else []
  }

  function CacheCalls(m: Memory, lists: VmaLists, pid: int, copying: Copying): seq<StorageOp>
    requires pid in m.buffers
  {
    if m.buffers[pid].cacheVma.Some? then UnmapCalls(SwapSlots(m, pid), lists, pid, copying) else []
  }

  function BothCalls(m: Memory, lists: VmaLists, pid: int, io: Io): seq<StorageOp> {
    if pid !in m.buffers then []
    else
      var first := UnmapFront(m, lists, pid, io.copy1);
      FrontCalls(m, lists, pid, io.copy1) + if first.failed then [] else CacheCalls(first.mem, lists, pid, io.copy2)
  }

  /** Removals of `remove_storage_pages` over the pages of `[at, end)`. */
  function DropCalls(b: Backing, pid: int, rs: seq<Region>, i: nat, at: nat, end: nat): seq<StorageOp>
    requires i < |rs|
    decreases end - at
  {
    if at >= end then []
    else
      var k := Key(pid, at);
      if k in b.index && CanRemove(at, i, rs)
      then [StorageOp.Remove(k)] + DropCalls(Drop(b, k), pid, rs, i, at + PAGE_SIZE, end)
      else DropCalls(b, pid, rs, i, at + PAGE_SIZE, end)
  }

  function RemoveCalls(s: State, pid: int, ptr: nat): seq<StorageOp> {
    var i := AreaAt(s.areas, pid, ptr);
    if i == |s.areas| then []
    else
      var rs := s.areas[i].regions;
      var j := RegionAt(rs, ptr);
      if j == |rs| then []
      else DropCalls(s.mem.backing, pid, rs, j, PageFloor(rs[j].start), PageCeil(rs[j].End()))
  }

  /** Whether a fault gets as far as loading the page. */
  ghost predicate LoadsPage(s: State, pid: int, v: VmaRef, address: nat, io: Io) {
    && ValidAddress(s.areas, v, address)
    && !UnmapOldest(s.mem, s.lists, pid, io).failed
    && Key(pid, address) in s.mem.backing.index && io.load
  }

  function OldestCalls(m: Memory, lists: VmaLists, pid: int, io: Io): seq<StorageOp> {
    if pid in m.buffers then CacheCalls(m, lists, pid, io.copy1) else []
  }

  ghost function LoadCalls(s: State, pid: int, v: VmaRef, address: nat, io: Io): seq<StorageOp> {
    if LoadsPage(s, pid, v, address, io) then [StorageOp.Load(Key(pid, address))] else []
  }

  ghost function FaultCalls(s: State, pid: int, v: VmaRef, address: nat, io: Io): seq<StorageOp> {
    if !ValidAddress(s.areas, v, address) then []
    else OldestCalls(s.mem, s.lists, pid, io) + LoadCalls(s, pid, v, address, io)
  }

  ghost function Calls(s: State, op: Op): seq<StorageOp> {
    match op
    case OpMalloc(task, size, io) =>
      var c := CreateRegion(s, task, size);
      BothCalls(c.mem, c.lists, task.pid, io)
    case OpFree(task, ptr, io) =>
      BothCalls(s.mem, s.lists, task.pid, io)
      + RemoveCalls(s.(mem := UnmapBoth(s.mem, s.lists, task.pid, io).mem), task.pid, ptr)
    case OpFault(task, vma, page, io) => FaultCalls(s, task.pid, vma, page, io)
    case _ => []
  }

  ghost function AllCalls(s: State, ops: seq<Op>): seq<StorageOp>
    requires Run(s, ops)
    decreases |ops|
  {
    if ops == [] then [] else Calls(s, ops[0]) + AllCalls(Step(s, ops[0]), ops[1..])
  }

  /** What the model takes the loads of the run to return: the contents of the page at the time. */
  ghost function Loads(s: State, op: Op): seq<Page> {
    if op.OpFault? && LoadsPage(s, op.task.pid, op.vma, op.page, op.io)
    then [Contents(s.mem, Key(op.task.pid, op.page))]
    else []
  }

  ghost function AllLoads(s: State, ops: seq<Op>): seq<Page>
    requires Run(s, ops)
    decreases |ops|
  {
    if ops == [] then [] else Loads(s, ops[0]) + AllLoads(Step(s, ops[0]), ops[1..])
  }

  // ----- Their effect -----

  /** From the pages of `m` the calls lead to those of `n`, the loads among them returning `loads`. */
  ghost predicate Leads(m: map<Key, Page>, calls: seq<StorageOp>, n: map<Key, Page>, loads: seq<Page>) {
    ApplyAll(m, Commands(calls)) == n && RepliesTo(m, Commands(calls)) == loads
  }

  lemma LeadsNowhere(m: map<Key, Page>)
    ensures Leads(m, [], m, [])
  {
  }

  lemma LeadsOne(m: map<Key, Page>, call: StorageOp)
    ensures Leads(m, [call], Apply(m, CommandOf(call)), Reply(m, CommandOf(call)))
  {
    assert [call][1..] == [];
    assert Commands([call]) == [CommandOf(call)];
    assert [CommandOf(call)][1..] == [];
    assert Reply(m, CommandOf(call)) + [] == Reply(m, CommandOf(call));
  }

  lemma {:induction false} CommandsConcat(a: seq<StorageOp>, b: seq<StorageOp>)
    ensures Commands(a + b) == Commands(a) + Commands(b)
  {
    if a == [] {
      assert a + b == b;
    } else {
      assert (a + b)[1..] == a[1..] + b;
      CommandsConcat(a[1..], b);
    }
  }

  lemma {:induction false} ApplyConcat(m: map<Key, Page>, x: seq<Command>, y: seq<Command>)
    ensures ApplyAll(m, x + y) == ApplyAll(ApplyAll(m, x), y)
    ensures RepliesTo(m, x + y) == RepliesTo(m, x) + RepliesTo(ApplyAll(m, x), y)
    decreases |x|
  {
    if x == [] {
      assert x + y == y;
    } else {
      assert (x + y)[0] == x[0] && (x + y)[1..] == x[1..] + y;
      ApplyConcat(Apply(m, x[0]), x[1..], y);
    }
  }

  lemma LeadsThrough(
      m: map<Key, Page>, a: seq<StorageOp>, n: map<Key, Page>, x: seq<Page>,
      b: seq<StorageOp>, o: map<Key, Page>, y: seq<Page>)
    requires Leads(m, a, n, x) && Leads(n, b, o, y)
    ensures Leads(m, a + b, o, x + y)
  {
    CommandsConcat(a, b);
    ApplyConcat(m, Commands(a), Commands(b));
  }

  lemma UnmapLeads(m: Memory, lists: VmaLists, pid: int, copying: Copying)
    requires pid in m.buffers && m.buffers[pid].vma.Some?
    ensures Leads(m.backing.store, UnmapCalls(m, lists, pid, copying),
                  UnmapBuffer(m, lists, pid, copying).mem.backing.store, [])
  {
    var b := m.buffers[pid];
    LeadsNowhere(m.backing.store);
    LeadsOne(m.backing.store, StorageOp.Save(Key(pid, b.start), b.data));
  }

  lemma CacheLeads(m: Memory, lists: VmaLists, pid: int, copying: Copying)
    requires pid in m.buffers
    ensures Leads(m.backing.store, CacheCalls(m, lists, pid, copying),
                  UnmapCache(m, lists, pid, copying).mem.backing.store, [])
  {
    LeadsNowhere(m.backing.store);
    if m.buffers[pid].cacheVma.Some? {
      UnmapLeads(SwapSlots(m, pid), lists, pid, copying);
    }
  }

  lemma BothLeads(m: Memory, lists: VmaLists, pid: int, io: Io)
    ensures Leads(m.backing.store, BothCalls(m, lists, pid, io), UnmapBoth(m, lists, pid, io).mem.backing.store, [])
  {
    LeadsNowhere(m.backing.store);
    if pid in m.buffers {
      var first := UnmapFront(m, lists, pid, io.copy1);
      var calls := FrontCalls(m, lists, pid, io.copy1);
      if m.buffers[pid].vma.Some? {
        UnmapLeads(m, lists, pid, io.copy1);
      }
      if first.failed {
        assert calls + [] == calls;
      } else {
        CacheLeads(first.mem, lists, pid, io.copy2);
        LeadsThrough(m.backing.store, calls, first.mem.backing.store, [],
                     CacheCalls(first.mem, lists, pid, io.copy2),
                     UnmapCache(first.mem, lists, pid, io.copy2).mem.backing.store, []);
      }
    }
  }

  lemma {:induction false} DropLeads(b: Backing, pid: int, rs: seq<Region>, i: nat, at: nat, end: nat)
    requires i < |rs|
    ensures Leads(b.store, DropCalls(b, pid, rs, i, at, end), DropPages(b, pid, rs, i, at, end).store, [])
    decreases end - at
  {
    if at >= end {
      LeadsNowhere(b.store);
    } else {
      var k := Key(pid, at);
      if k in b.index && CanRemove(at, i, rs) {
        LeadsOne(b.store, StorageOp.Remove(k));
        DropLeads(Drop(b, k), pid, rs, i, at + PAGE_SIZE, end);
        LeadsThrough(b.store, [StorageOp.Remove(k)], Drop(b, k).store, [],
                     DropCalls(Drop(b, k), pid, rs, i, at + PAGE_SIZE, end),
                     DropPages(Drop(b, k), pid, rs, i, at + PAGE_SIZE, end).store, []);
      } else {
        DropLeads(b, pid, rs, i, at + PAGE_SIZE, end);
      }
    }
  }

  lemma RemoveLeads(s: State, pid: int, ptr: nat)
    ensures Leads(s.mem.backing.store, RemoveCalls(s, pid, ptr), RemoveStoragePages(s, pid, ptr).mem.backing.store, [])
  {
    LeadsNowhere(s.mem.backing.store);
    var i := AreaAt(s.areas, pid, ptr);
    if i < |s.areas| {
      var rs := s.areas[i].regions;
      var j := RegionAt(rs, ptr);
      if j < |rs| {
        DropLeads(s.mem.backing, pid, rs, j, PageFloor(rs[j].start), PageCeil(rs[j].End()));
      }
    }
  }

  lemma FreeLeads(s: State, task: Task, ptr: nat, io: Io)
    ensures Leads(s.mem.backing.store, Calls(s, OpFree(task, ptr, io)),
                  Free(s, task.pid, ptr, io).mem.backing.store, [])
  {
    var pid := task.pid;
    var t := s.(mem := UnmapBoth(s.mem, s.lists, pid, io).mem);
    var u := RemoveStoragePages(t, pid, ptr);
    BothLeads(s.mem, s.lists, pid, io);
    RemoveLeads(t, pid, ptr);
    RemoveRegionStore(u, pid, ptr);
    LeadsThrough(s.mem.backing.store, BothCalls(s.mem, s.lists, pid, io), t.mem.backing.store, [],
                 RemoveCalls(t, pid, ptr), u.mem.backing.store, []);
  }

  lemma OldestLeads(m: Memory, lists: VmaLists, pid: int, io: Io)
    ensures Leads(m.backing.store, OldestCalls(m, lists, pid, io), UnmapOldest(m, lists, pid, io).mem.backing.store, [])
  {
    LeadsNowhere(m.backing.store);
    if pid in m.buffers {
      CacheLeads(m, lists, pid, io.copy1);
    }
  }

  /** Only the eviction changes storage. */
  lemma FaultBacking(s: State, pid: int, v: VmaRef, address: nat, io: Io)
    requires ValidAddress(s.areas, v, address)
    ensures Fault(s, pid, v, address, io).mem.backing == UnmapOldest(s.mem, s.lists, pid, io).mem.backing
  {
  }

  lemma LoadPartLeads(s: State, task: Task, v: VmaRef, address: nat, io: Io)
    requires Inv(s) && !Mapped(s.mem, Key(task.pid, address))
    ensures var store := UnmapOldest(s.mem, s.lists, task.pid, io).mem.backing.store;
            Leads(store, LoadCalls(s, task.pid, v, address, io), store, Loads(s, OpFault(task, v, address, io)))
  {
    var pid := task.pid;
    var b := UnmapOldest(s.mem, s.lists, pid, io).mem.backing;
    LeadsNowhere(b.store);
    if LoadsPage(s, pid, v, address, io) {
      OldestBackingOk(s, pid, io);
      EvictionSpares(s.mem, s.lists, pid, io, Key(pid, address));
      LoadLeads(b, Key(pid, address));
    }
  }

  lemma OldestBackingOk(s: State, pid: int, io: Io)
    requires Inv(s)
    ensures BackingOk(UnmapOldest(s.mem, s.lists, pid, io).mem.backing)
  {
    PlacedExists(s, pid);
    UnmapOldestKeeps(s.mem, s.lists, pid, io);
  }

  lemma FaultLeads(s: State, task: Task, v: VmaRef, address: nat, io: Io)
    requires Inv(s) && FaultDelivered(s, task, v, address)
    ensures Leads(s.mem.backing.store, FaultCalls(s, task.pid, v, address, io),
                  Fault(s, task.pid, v, address, io).mem.backing.store, Loads(s, OpFault(task, v, address, io)))
  {
    var pid := task.pid;
    var store := s.mem.backing.store;
    if ValidAddress(s.areas, v, address) {
      var after := UnmapOldest(s.mem, s.lists, pid, io).mem.backing.store;
      var loads := Loads(s, OpFault(task, v, address, io));
      OldestLeads(s.mem, s.lists, pid, io);
      NotInTables(s, task, address);
      LoadPartLeads(s, task, v, address, io);
      FaultBacking(s, pid, v, address, io);
      LeadsThrough(store, OldestCalls(s.mem, s.lists, pid, io), after, [],
                   LoadCalls(s, pid, v, address, io), after, loads);
      assert [] + loads == loads;
    } else {
      LeadsNowhere(store);
    }
  }

  lemma LoadLeads(b: Backing, k: Key)
    requires k in b.index && k in b.store
    ensures Leads(b.store, [StorageOp.Load(k)], b.store, [Stored(b, k)])
  {
    LeadsOne(b.store, StorageOp.Load(k));
  }

  /** The calls of one operation. */
  lemma StepLeads(s: State, op: Op)
    requires Inv(s) && Delivered(s, op)
    ensures Leads(s.mem.backing.store, Calls(s, op), Step(s, op).mem.backing.store, Loads(s, op))
  {
    LeadsNowhere(s.mem.backing.store);
    match op
    case OpMalloc(task, size, io) =>
      var c := CreateRegion(s, task, size);
      assert c.mem == s.mem by {
        ContainerKeeps(s, task, size);
      }
      BothLeads(c.mem, c.lists, task.pid, io);
    case OpFree(task, ptr, io) => FreeLeads(s, task, ptr, io);
    case OpFault(task, vma, page, io) => FaultLeads(s, task, vma, page, io);
    case _ =>
  }

  /** The calls of a run lead to what the allocator takes to be stored, and load what it takes the pages to hold. */
  lemma {:induction false} RunLeads(s: State, ops: seq<Op>)
    requires Inv(s) && Run(s, ops)
    ensures Leads(s.mem.backing.store, AllCalls(s, ops), After(s, ops).mem.backing.store, AllLoads(s, ops))
    decreases |ops|
  {
    if ops == [] {
      LeadsNowhere(s.mem.backing.store);
    } else {
      var t := Step(s, ops[0]);
      StepInv(s, ops[0]);
      StepLeads(s, ops[0]);
      RunLeads(t, ops[1..]);
      LeadsThrough(s.mem.backing.store, Calls(s, ops[0]), t.mem.backing.store, Loads(s, ops[0]),
                   AllCalls(t, ops[1..]), After(s, ops).mem.backing.store, AllLoads(t, ops[1..]));
    }
  }

  // ----- Which calls these are -----

  ghost predicate NoneTwice(calls: seq<StorageOp>) {
    forall i, j :: 0 <= i < j < |calls| ==> calls[i] != calls[j]
  }

  lemma NoneTwiceConcat(a: seq<StorageOp>, b: seq<StorageOp>)
    requires NoneTwice(a) && NoneTwice(b) && forall c :: c in a ==> c !in b
    ensures NoneTwice(a + b)
  {
    var r := a + b;
    forall i, j | 0 <= i < j < |r|
      ensures r[i] != r[j]
    {
      if i < |a| <= j {
        assert a[i] in a && b[j - |a|] in b;
      }
    }
  }

  /** A save of a page that an eviction of both pages copies out, as its slot has it. */
  predicate SavesOne(m: Memory, pid: int, io: Io, c: StorageOp) {
    && c.Save? && pid in m.buffers
    && var b := m.buffers[pid];
    || (SavesFront(b, pid, io, c.key) && c.page == b.data) || (SavesCache(b, pid, io, c.key) && c.page == b.cache)
  }

  lemma BothCallsExactly(m: Memory, lists: VmaLists, pid: int, io: Io)
    requires MemoryOk(m) && SlotsExist(m, lists, pid)
    ensures NoneTwice(BothCalls(m, lists, pid, io))
    ensures forall c :: c in BothCalls(m, lists, pid, io) <==> SavesOne(m, pid, io, c)
  {
    if pid in m.buffers {
      assert BufferOk(m.buffers[pid]);
    }
  }

  lemma {:induction false} DropCallsExactly(b: Backing, pid: int, rs: seq<Region>, i: nat, at: nat, end: nat)
    requires BackingOk(b) && i < |rs| && Aligned(at)
    ensures NoneTwice(DropCalls(b, pid, rs, i, at, end))
    ensures forall c :: c in DropCalls(b, pid, rs, i, at, end) <==>
              c.Remove? && c.key in b.store && Goes(c.key, pid, rs, i, at, end)
    decreases end - at
  {
    if at < end {
      var k := Key(pid, at);
      var now := k in b.index && CanRemove(at, i, rs);
      var d := if now then Drop(b, k) else b;
      var first, rest := if now then [Remove(k)] else [], DropCalls(d, pid, rs, i, at + PAGE_SIZE, end);
      DropOk(b, k);
      NextPage(at);
      DropCallsExactly(d, pid, rs, i, at + PAGE_SIZE, end);
      assert DropCalls(b, pid, rs, i, at, end) == first + rest;
      NoneTwiceConcat(first, rest);
      forall c: StorageOp
        ensures c in first + rest <==> c.Remove? && c.key in b.store && Goes(c.key, pid, rs, i, at, end)
      {
        if c.Remove? && c.key in b.store {
          GoesFrom(c.key, pid, rs, i, at, end);
        }
      }
    }
  }

  /** The calls of a release are removals of the pages that go with it, each once. */
  lemma RemoveCallsExactly(s: State, pid: int, ptr: nat)
    requires AreasSound(s) && BackingOk(s.mem.backing)
    ensures NoneTwice(RemoveCalls(s, pid, ptr))
    ensures forall c :: c in RemoveCalls(s, pid, ptr) <==>
              c.Remove? && c.key in s.mem.backing.store && PageGoes(s.areas, pid, ptr, c.key)
  {
    PagesOnlyGo(s, pid, ptr);
    RemovePagesIs(s, pid, ptr);
    if FindsRegion(s.areas, pid, ptr) {
      var rs := s.areas[AreaAt(s.areas, pid, ptr)].regions;
      var j := RegionAt(rs, ptr);
      DropCallsExactly(s.mem.backing, pid, rs, j, PageFloor(rs[j].start), PageCeil(rs[j].End()));
      DropPagesExactly(s.mem.backing, pid, rs, j, PageFloor(rs[j].start), PageCeil(rs[j].End()));
    }
  }

  /** What an operation asks of storage: malloc and free save the pages they evict, free then removes the stored pages
      that go with the region, and a fault that is accepted saves the page it evicts and loads the page faulted, if
      that is stored. */
  ghost predicate Asks(s: State, op: Op, c: StorageOp) {
    match op
    case OpMalloc(task, _, io) => SavesOne(s.mem, task.pid, io, c)
    case OpFree(task, ptr, io) =>
      || SavesOne(s.mem, task.pid, io, c)
      || (c.Remove? && PageGoes(s.areas, task.pid, ptr, c.key)
          && c.key in UnmapBoth(s.mem, s.lists, task.pid, io).mem.backing.store)
    case OpFault(task, v, page, io) =>
      BlockOn(s.areas, v, page)
      && (EvictsFor(s.mem, task.pid, io, c)
          || (c == Load(Key(task.pid, page)) && !OldestStuck(s.mem, task.pid, io)
              && Key(task.pid, page) in s.mem.backing.store && io.load))
    case _ => false
  }

  predicate EvictsFor(m: Memory, pid: int, io: Io, c: StorageOp) {
    pid in m.buffers && m.buffers[pid].cacheVma.Some? && io.copy1 == Saving
    && c == Save(Key(pid, m.buffers[pid].cacheStart), m.buffers[pid].cache)
  }

  lemma FaultCallsExactly(s: State, task: Task, v: VmaRef, page: nat, io: Io)
    requires Inv(s) && FaultDelivered(s, task, v, page)
    ensures var op := OpFault(task, v, page, io);
            NoneTwice(Calls(s, op)) && forall c :: c in Calls(s, op) <==> Asks(s, op, c)
  {
    ValidIffBlockOn(s, v, page);
    PlacedExists(s, task.pid);
    OldestCallsExactly(s.mem, s.lists, task.pid, io);
    NoneTwiceConcat(OldestCalls(s.mem, s.lists, task.pid, io), LoadCalls(s, task.pid, v, page, io));
    assert UnmapOldest(s.mem, s.lists, task.pid, io).failed <==> OldestStuck(s.mem, task.pid, io) by {
      UnmapOldestKeeps(s.mem, s.lists, task.pid, io);
    }
  }

  lemma OldestCallsExactly(m: Memory, lists: VmaLists, pid: int, io: Io)
    requires SlotsExist(m, lists, pid)
    ensures NoneTwice(OldestCalls(m, lists, pid, io))
    ensures forall c :: c in OldestCalls(m, lists, pid, io) <==> EvictsFor(m, pid, io, c)
  {
  }

  lemma FreeCallsExactly(s: State, task: Task, ptr: nat, io: Io)
    requires Inv(s)
    ensures var op := OpFree(task, ptr, io);
            NoneTwice(Calls(s, op)) && forall c :: c in Calls(s, op) <==> Asks(s, op, c)
  {
    var t := s.(mem := UnmapBoth(s.mem, s.lists, task.pid, io).mem);
    PlacedExists(s, task.pid);
    UnmapBothKeeps(s.mem, s.lists, task.pid, io);
    BothCallsExactly(s.mem, s.lists, task.pid, io);
    RemoveCallsExactly(t, task.pid, ptr);
    NoneTwiceConcat(BothCalls(s.mem, s.lists, task.pid, io), RemoveCalls(t, task.pid, ptr));
  }

  lemma MallocCallsExactly(s: State, task: Task, size: nat, io: Io)
    requires Inv(s) && OfProcess(s, task) && size > 0
    ensures var op := OpMalloc(task, size, io);
            NoneTwice(Calls(s, op)) && forall c :: c in Calls(s, op) <==> Asks(s, op, c)
  {
    var c := CreateRegion(s, task, size);
    assert c.mem == s.mem by {
      ContainerKeeps(s, task, size);
    }
    CreateRegionInv(s, task, size);
    PlacedExists(c, task.pid);
    BothCallsExactly(c.mem, c.lists, task.pid, io);
  }

  /** An operation makes these calls and no others, each once. */
  lemma CallsExactly(s: State, op: Op)
    requires Inv(s) && Delivered(s, op)
    ensures NoneTwice(Calls(s, op)) && forall c :: c in Calls(s, op) <==> Asks(s, op, c)
  {
    match op
    case OpMalloc(task, size, io) => MallocCallsExactly(s, task, size, io);
    case OpFree(task, ptr, io) => FreeCallsExactly(s, task, ptr, io);
    case OpFault(task, v, page, io) => FaultCallsExactly(s, task, v, page, io);
    case _ =>
  }

  // ----- The back ends -----

  /** The kernel's list serves every run whose pages lie below 2^32: it ends with the stored pages, and every load
      returns the contents of the page. */
  lemma KernelServesRun(lists: VmaLists, ops: seq<Op>)
    requires ListsOk(lists) && Run(Initial(lists), ops) && AllInRange(AllCalls(Initial(lists), ops))
    ensures var s := Initial(lists);
            && IsMap(KernelFinal([], AllCalls(s, ops)), After(s, ops).mem.backing.store)
            && KernelLoads([], AllCalls(s, ops)) == AllLoads(s, ops)
  {
    InitialInv(lists);
    RunLeads(Initial(lists), ops);
    KernelIsMap([], map[], AllCalls(Initial(lists), ops));
  }

  /** The server serves every run whose addresses fit 64 bits, from the bytes the client writes. */
  lemma ServerServesRun(lists: VmaLists, ops: seq<Op>)
    requires ListsOk(lists) && Run(Initial(lists), ops) && AllSendable(Commands(AllCalls(Initial(lists), ops)))
    ensures var s := Initial(lists);
            var served := Serve(map[], [], EncodeAll(Commands(AllCalls(s, ops))), Closed);
            && served.ending == Quit
            && served.replies == AllLoads(s, ops)
            && SamePages(served.pages, After(s, ops).mem.backing.store)
  {
    InitialInv(lists);
    RunLeads(Initial(lists), ops);
    WholeStream(map[], map[], [], Commands(AllCalls(Initial(lists), ops)), Closed);
  }
}
