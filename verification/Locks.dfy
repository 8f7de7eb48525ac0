/** The locks around the allocator (src/generic_malloc.c, README.md "Multi-thread handling"): each process has
    a reader-writer semaphore, mmap_sem, and there is one global semaphore. Faults take mmap_sem for reading,
    as the kernel does around the handler; malloc and free take it for writing. Threads are step machines. */
module Locks {
  /** The operations: a page fault, or an allocation or release. */
  datatype Kind = Fault | Alloc

  /** Where a thread is in its current operation: before its first lock, before its second, in the critical
      section, or with one lock left to let go. */
  datatype Pc = Start | HasFirst | Inside | Leaving

  /** A thread of process `mm` with the operations it has yet to finish; the first is the current one. */
  datatype Thread = Thread(mm: int, work: seq<Kind>, pc: Pc)

  predicate Active(t: Thread) {
    t.work != []
  }

  // ----- The order of the code: mmap_sem, then the global semaphore -----

  predicate Reads(t: Thread, mm: int) {
    Active(t) && t.mm == mm && t.work[0] == Fault && t.pc != Start
  }

  predicate Writes(t: Thread, mm: int) {
    Active(t) && t.mm == mm && t.work[0] == Alloc && t.pc != Start
  }

  predicate WaitsToWrite(t: Thread, mm: int) {
    Active(t) && t.mm == mm && t.work[0] == Alloc && t.pc == Start
  }

  predicate HoldsGlobal(t: Thread) {
    Active(t) && t.pc == Inside
  }

  /** Whether mmap_sem of process `mm` can be taken: no writer holds it, a writer needs it free of readers, and
      where the semaphore prefers writers a waiting one keeps new readers out. */
  ghost predicate MmapFree(ts: seq<Thread>, mm: int, kind: Kind, preferWriters: bool) {
    && (forall i :: 0 <= i < |ts| ==> !Writes(ts[i], mm))
    && (kind == Alloc ==> forall i :: 0 <= i < |ts| ==> !Reads(ts[i], mm))
    && (kind == Fault && preferWriters ==> forall i :: 0 <= i < |ts| ==> !WaitsToWrite(ts[i], mm))
  }

  ghost predicate GlobalFree(ts: seq<Thread>) {
    forall i :: 0 <= i < |ts| ==> !HoldsGlobal(ts[i])
  }

  ghost predicate CanStep(ts: seq<Thread>, i: nat, preferWriters: bool)
    requires i < |ts|
  {
    var t := ts[i];
    Active(t) &&
    match t.pc
    case Start => MmapFree(ts, t.mm, t.work[0], preferWriters)
    case HasFirst => GlobalFree(ts)
    case Inside => true
    case Leaving => true
  }

  /** A thread moves: down mmap_sem, down the global semaphore, up it, up mmap_sem. */
  function Moved(t: Thread): Thread
    requires Active(t)
  {
    match t.pc
    case Start => t.(pc := HasFirst)
    case HasFirst => t.(pc := Inside)
    case Inside => t.(pc := Leaving)
    case Leaving => Thread(t.mm, t.work[1..], Start)
  }

  function Next(ts: seq<Thread>, i: nat): seq<Thread>
    requires i < |ts| && Active(ts[i])
  {
    ts[i := Moved(ts[i])]
  }

  /** Of two threads, at most one is in the critical section, and mmap_sem is held by one writer or by readers. */
  ghost predicate Excluded(ts: seq<Thread>) {
    && (forall i, j :: 0 <= i < j < |ts| ==> !(HoldsGlobal(ts[i]) && HoldsGlobal(ts[j])))
    && (forall i, j, mm :: 0 <= i < |ts| && 0 <= j < |ts| && i != j && Writes(ts[i], mm) ==>
         !Writes(ts[j], mm) && !Reads(ts[j], mm))
  }

  ghost predicate AllStarting(ts: seq<Thread>) {
    forall i :: 0 <= i < |ts| ==> ts[i].pc == Start
  }

  /** Each thread that steps could step. */
  ghost predicate Schedule(ts: seq<Thread>, steps: seq<nat>, preferWriters: bool)
    decreases |steps|
  {
    steps == [] || (steps[0] < |ts| && CanStep(ts, steps[0], preferWriters)
                    && Schedule(Next(ts, steps[0]), steps[1..], preferWriters))
  }

  ghost function AfterSteps(ts: seq<Thread>, steps: seq<nat>, preferWriters: bool): seq<Thread>
    requires Schedule(ts, steps, preferWriters)
    decreases |steps|
  {
    if steps == [] then ts else AfterSteps(Next(ts, steps[0]), steps[1..], preferWriters)
  }

  lemma StepExcludes(ts: seq<Thread>, i: nat, preferWriters: bool)
    requires Excluded(ts) && i < |ts| && CanStep(ts, i, preferWriters)
    ensures Excluded(Next(ts, i))
  {
    var ns := Next(ts, i);
    assert forall j :: 0 <= j < |ts| && j != i ==> ns[j] == ts[j];
    forall j, mm | 0 <= j < |ts| && j != i && Writes(ns[i], mm)
      ensures !Writes(ns[j], mm) && !Reads(ns[j], mm)
    {
      if ts[i].pc != Start {
        assert Writes(ts[i], mm);
      }
    }
    forall j, mm | 0 <= j < |ts| && j != i && Writes(ns[j], mm)
      ensures !Writes(ns[i], mm) && !Reads(ns[i], mm)
    {
      assert Writes(ts[j], mm);
    }
  }

  lemma {:induction false} ScheduleExcludes(ts: seq<Thread>, steps: seq<nat>, preferWriters: bool)
    requires Excluded(ts) && Schedule(ts, steps, preferWriters)
    ensures Excluded(AfterSteps(ts, steps, preferWriters))
    decreases |steps|
  {
    if steps != [] {
      StepExcludes(ts, steps[0], preferWriters);
      ScheduleExcludes(Next(ts, steps[0]), steps[1..], preferWriters);
    }
  }

  /** Mutual exclusion: over any schedule of any number of threads, from before their first locks, at most one is
      in the critical section, and a thread that holds mmap_sem for writing is alone with it. */
  lemma MutualExclusion(ts: seq<Thread>, steps: seq<nat>, preferWriters: bool)
    requires AllStarting(ts) && Schedule(ts, steps, preferWriters)
    ensures Excluded(AfterSteps(ts, steps, preferWriters))
  {
    ScheduleExcludes(ts, steps, preferWriters);
  }

  /** What one thread's mmap_sem costs another: after any first step of one, another can take its own unless both are of
      one process and one of them allocates. */
  lemma FirstLocksOverlap(ts: seq<Thread>, i: nat, j: nat)
    requires AllStarting(ts) && i < |ts| && j < |ts| && i != j && Active(ts[i]) && Active(ts[j])
    ensures CanStep(ts, i, false)
    ensures CanStep(Next(ts, i), j, false) <==>
            ts[i].mm != ts[j].mm || (ts[i].work[0] == Fault && ts[j].work[0] == Fault)
  {
    var ns := Next(ts, i);
    assert forall k :: 0 <= k < |ts| && k != i ==> ns[k] == ts[k];
    assert Writes(ns[i], ts[i].mm) || Reads(ns[i], ts[i].mm);
  }

  /** Deadlock freedom: as long as some thread is active, some thread can step, whether or not mmap_sem
      prefers waiting writers to new readers. */
  lemma SomeThreadSteps(ts: seq<Thread>, a: nat, preferWriters: bool) returns (i: nat)
    requires a < |ts| && Active(ts[a])
    ensures i < |ts| && CanStep(ts, i, preferWriters)
  {
    if exists j :: 0 <= j < |ts| && HoldsGlobal(ts[j]) {
      i :| 0 <= i < |ts| && HoldsGlobal(ts[i]);
    } else if exists j :: 0 <= j < |ts| && Active(ts[j]) && ts[j].pc != Start {
      i :| 0 <= i < |ts| && Active(ts[i]) && ts[i].pc != Start;
    } else if exists j :: 0 <= j < |ts| && WaitsToWrite(ts[j], ts[a].mm) {
      i :| 0 <= i < |ts| && WaitsToWrite(ts[i], ts[a].mm);
    } else {
      i := a;
    }
  }

  function StepsLeft(t: Thread): nat {
    if t.work == [] then 0
    else 4 * |t.work| - match t.pc { case Start => 0 case HasFirst => 1 case Inside => 2 case Leaving => 3 }
  }

  function TotalLeft(ts: seq<Thread>): nat {
    if ts == [] then 0 else StepsLeft(ts[0]) + TotalLeft(ts[1..])
  }

  lemma {:induction false} TotalDrops(ts: seq<Thread>, i: nat)
    requires i < |ts| && Active(ts[i])
    ensures TotalLeft(Next(ts, i)) == TotalLeft(ts) - 1
  {
    if i == 0 {
      assert Next(ts, 0)[1..] == ts[1..];
    } else {
      assert Next(ts, i)[1..] == Next(ts[1..], i - 1);
      TotalDrops(ts[1..], i - 1);
    }
  }

  lemma {:induction false} NothingLeft(ts: seq<Thread>, i: nat)
    requires i < |ts| && Active(ts[i])
    ensures TotalLeft(ts) > 0
  {
    if i > 0 {
      NothingLeft(ts[1..], i - 1);
    }
  }

  /** Every operation of every thread finishes: a schedule takes at most the steps that are left in total, and
      one that has not taken them all can go on. */
  lemma {:induction false} AllFinish(ts: seq<Thread>, steps: seq<nat>, preferWriters: bool)
    requires Schedule(ts, steps, preferWriters)
    ensures TotalLeft(AfterSteps(ts, steps, preferWriters)) == TotalLeft(ts) - |steps|
    ensures |steps| < TotalLeft(ts) ==>
              exists i: nat :: i < |ts| == |AfterSteps(ts, steps, preferWriters)|
                               && CanStep(AfterSteps(ts, steps, preferWriters), i, preferWriters)
    decreases |steps|
  {
    if steps == [] {
      if TotalLeft(ts) > 0 {
        var a := SomeActive(ts);
        var i := SomeThreadSteps(ts, a, preferWriters);
      }
    } else {
      TotalDrops(ts, steps[0]);
      AllFinish(Next(ts, steps[0]), steps[1..], preferWriters);
    }
  }

  lemma {:induction false} SomeActive(ts: seq<Thread>) returns (a: nat)
    requires TotalLeft(ts) > 0
    ensures a < |ts| && Active(ts[a])
  {
    if Active(ts[0]) {
      a := 0;
    } else {
      a := SomeActive(ts[1..]);
      a := a + 1;
    }
  }

  // ----- The other order: the global semaphore around mmap_sem -----

  /** The README's first scheme. An allocation holds the mutex from before it takes mmap_sem for writing until
      after it has let it go; a fault holds mmap_sem for reading, as before, when it takes the mutex. */
  predicate HoldsMutex(t: Thread) {
    Active(t) && (if t.work[0] == Alloc then t.pc != Start else t.pc == Inside)
  }

  predicate WritesMmap(t: Thread, mm: int) {
    Active(t) && t.mm == mm && t.work[0] == Alloc && t.pc == Inside
  }

  ghost predicate MutexFree(ts: seq<Thread>) {
    forall i :: 0 <= i < |ts| ==> !HoldsMutex(ts[i])
  }

  ghost predicate CanStepFirstScheme(ts: seq<Thread>, i: nat)
    requires i < |ts|
  {
    var t := ts[i];
    Active(t) &&
    match (t.work[0], t.pc)
    case (Alloc, Start) => MutexFree(ts)
    case (Alloc, HasFirst) => forall j :: 0 <= j < |ts| ==> !WritesMmap(ts[j], t.mm) && !Reads(ts[j], t.mm)
    case (Fault, Start) => forall j :: 0 <= j < |ts| ==> !WritesMmap(ts[j], t.mm)
    case (Fault, HasFirst) => MutexFree(ts)
    case _ => true
  }

  ghost predicate FirstSchedule(ts: seq<Thread>, steps: seq<nat>)
    decreases |steps|
  {
    steps == [] || (steps[0] < |ts| && CanStepFirstScheme(ts, steps[0])
                    && FirstSchedule(Next(ts, steps[0]), steps[1..]))
  }

  ghost function AfterFirst(ts: seq<Thread>, steps: seq<nat>): seq<Thread>
    requires FirstSchedule(ts, steps)
    decreases |steps|
  {
    if steps == [] then ts else AfterFirst(Next(ts, steps[0]), steps[1..])
  }

  /** An allocating thread with the mutex and a faulting one with mmap_sem, each after the other's lock. */
  ghost predicate Embrace(ts: seq<Thread>, a: nat, f: nat) {
    && a < |ts| && f < |ts| && ts[a].mm == ts[f].mm
    && ts[a].pc == HasFirst && Active(ts[a]) && ts[a].work[0] == Alloc
    && ts[f].pc == HasFirst && Active(ts[f]) && ts[f].work[0] == Fault
  }

  lemma EmbraceHolds(ts: seq<Thread>, a: nat, f: nat)
    requires Embrace(ts, a, f)
    ensures !CanStepFirstScheme(ts, a) && !CanStepFirstScheme(ts, f)
  {
    assert HoldsMutex(ts[a]) && Reads(ts[f], ts[a].mm);
  }

  /** No thread can ever undo it. */
  lemma {:induction false} EmbraceStays(ts: seq<Thread>, a: nat, f: nat, steps: seq<nat>)
    requires Embrace(ts, a, f) && FirstSchedule(ts, steps)
    ensures Embrace(AfterFirst(ts, steps), a, f)
    ensures a !in steps && f !in steps
    decreases |steps|
  {
    if steps != [] {
      EmbraceHolds(ts, a, f);
      EmbraceStays(Next(ts, steps[0]), a, f, steps[1..]);
      assert steps == [steps[0]] + steps[1..];
    }
  }

  /** The first scheme deadlocks: whenever one thread of a process is about to allocate and another about to
      fault, among any others that hold no lock, the two can each take their first lock, and from then on, whatever
      the others do, neither ever takes a step again although both have work left. */
  lemma FirstSchemeDeadlocks(ts: seq<Thread>, a: nat, f: nat, steps: seq<nat>)
    requires AllStarting(ts) && a < |ts| && f < |ts| && ts[a].mm == ts[f].mm
    requires Active(ts[a]) && ts[a].work[0] == Alloc && Active(ts[f]) && ts[f].work[0] == Fault
    ensures CanStepFirstScheme(ts, a) && CanStepFirstScheme(Next(ts, a), f)
    ensures var t2 := Next(Next(ts, a), f);
            FirstSchedule(t2, steps) ==>
              var t := AfterFirst(t2, steps);
              && a !in steps && f !in steps && a < |t| && f < |t|
              && Active(t[a]) && Active(t[f]) && !CanStepFirstScheme(t, a) && !CanStepFirstScheme(t, f)
  {
    var t2 := Next(Next(ts, a), f);
    assert a != f && Embrace(t2, a, f);
    if FirstSchedule(t2, steps) {
      EmbraceStays(t2, a, f, steps);
      EmbraceHolds(AfterFirst(t2, steps), a, f);
    }
  }
}
