/** The VMA list of a process (src/vma.c). Inserting into the list and removing from it are kernel
    services; where a new VMA goes is decided here. */
module Vmas {
  import opened Kutils

  datatype Vma = Vma(start: nat, end: nat)

  /** A process's list: page-aligned, at or above the first page, sorted and disjoint. */
  ghost predicate VmasOk(vs: seq<Vma>) {
    && (forall i :: 0 <= i < |vs| ==>
         PAGE_SIZE <= vs[i].start < vs[i].end && Aligned(vs[i].start) && Aligned(vs[i].end))
    && (forall i, j :: 0 <= i < j < |vs| ==> vs[i].end <= vs[j].start)
  }

  /** No VMA of the list meets `[x, x + size)`. */
  ghost predicate Gap(vs: seq<Vma>, x: nat, size: nat) {
    forall i :: 0 <= i < |vs| ==> x + size <= vs[i].start || vs[i].end <= x
  }

  /** The first candidate at or after `end` where the list leaves room for `size`. */
  function FirstGap(vs: seq<Vma>, end: nat, size: nat): nat {
    if vs == [] then end
    else if vs[0].start - end >= size then end
    else FirstGap(vs[1..], vs[0].end, size)
  }

  /** The place is at or above `end`, free for `size` bytes, and no lower place is. */
  lemma {:induction false} FirstGapLowest(vs: seq<Vma>, end: nat, size: nat)
    requires VmasOk(vs) && size > 0
    requires |vs| > 0 ==> end <= vs[0].start
    ensures end <= FirstGap(vs, end, size) && Gap(vs, FirstGap(vs, end, size), size)
    ensures forall x: nat :: end <= x < FirstGap(vs, end, size) ==> !Gap(vs, x, size)
    ensures FirstGap(vs, end, size) == end || exists i :: 0 <= i < |vs| && FirstGap(vs, end, size) == vs[i].end
  {
    if vs != [] {
      VmasTail(vs);
      if vs[0].start - end < size {
        FirstGapLowest(vs[1..], vs[0].end, size);
        forall x: nat | end <= x < FirstGap(vs, end, size)
          ensures !Gap(vs, x, size)
        {
          GapTail(vs, x, size);
        }
        GapTail(vs, FirstGap(vs, end, size), size);
        assert forall i :: 0 <= i < |vs[1..]| ==> vs[1..][i] == vs[i + 1];
      } else {
        assert forall i :: 0 < i < |vs| ==> vs[0].end <= vs[i].start;
      }
    }
  }

  lemma VmasTail(vs: seq<Vma>)
    requires VmasOk(vs) && |vs| > 0
    ensures VmasOk(vs[1..])
    ensures |vs| > 1 ==> vs[0].end <= vs[1].start
    ensures forall w :: w in vs[1..] ==> vs[0].end <= w.start
  {
  }

  lemma GapTail(vs: seq<Vma>, x: nat, size: nat)
    requires |vs| > 0
    ensures Gap(vs, x, size) <==> (x + size <= vs[0].start || vs[0].end <= x) && Gap(vs[1..], x, size)
  {
    assert forall i :: 0 < i < |vs| ==> vs[i] == vs[1..][i - 1];
  }

  lemma VmasCons(v: Vma, vs: seq<Vma>)
    requires VmasOk(vs) && VmasOk([v])
    requires forall w :: w in vs ==> v.end <= w.start
    ensures VmasOk([v] + vs)
  {
    var r := [v] + vs;
    assert VmasOk([v]) ==> [v][0] == v;
    assert forall i :: 0 < i < |r| ==> r[i] == vs[i - 1] && vs[i - 1] in vs;
  }

  /** `get_free_space`. */
  method GetFreeSpace(vs: seq<Vma>, size: nat) returns (place: nat)
    requires VmasOk(vs) && size > 0
    ensures place == FirstGap(vs, PAGE_SIZE, size)
    ensures PAGE_SIZE <= place && Gap(vs, place, size)
    ensures forall x: nat :: PAGE_SIZE <= x < place ==> !Gap(vs, x, size)
  {
    FirstGapLowest(vs, PAGE_SIZE, size);
    place := PAGE_SIZE;
    var i := 0;
    while i < |vs|
      invariant i <= |vs|
      invariant FirstGap(vs, PAGE_SIZE, size) == FirstGap(vs[i..], place, size)
    {
      assert vs[i..][1..] == vs[i + 1..];
      if vs[i].start - place >= size {
        return;
      }
      place := vs[i].end;
      i := i + 1;
    }
  }

  // ----- The kernel's list operations -----

  /** Position of the VMA that starts at `start`; the list's length when there is none. */
  function IndexOf(vs: seq<Vma>, start: nat): (i: nat)
    ensures i <= |vs|
    ensures i < |vs| ==> vs[i].start == start
    ensures forall j :: 0 <= j < i ==> vs[j].start != start
  {
    if vs == [] then 0 else if vs[0].start == start then 0 else 1 + IndexOf(vs[1..], start)
  }

  function Insert(vs: seq<Vma>, v: Vma): seq<Vma> {
    if vs == [] || v.start < vs[0].start then [v] + vs else [vs[0]] + Insert(vs[1..], v)
  }

  function Remove(vs: seq<Vma>, start: nat): seq<Vma> {
    var i := IndexOf(vs, start);
    if i < |vs| then vs[..i] + vs[i + 1..] else vs
  }

  /** `extra` more bytes at the end of the VMA that starts at `start`. */
  function Widen(vs: seq<Vma>, start: nat, extra: nat): seq<Vma> {
    var i := IndexOf(vs, start);
    if i < |vs| then vs[i := Vma(start, vs[i].end + extra)] else vs
  }

  /** Whether the VMA that starts at `start` may grow by `extra`: it is the last, or the next one leaves room. */
  predicate CanWiden(vs: seq<Vma>, start: nat, extra: nat) {
    var i := IndexOf(vs, start);
    i < |vs| && (i + 1 == |vs| || vs[i + 1].start > vs[i].end + extra)
  }

  /** Equal starts are the same entry. */
  lemma IndexOfMember(vs: seq<Vma>, v: Vma)
    requires VmasOk(vs) && v in vs
    ensures IndexOf(vs, v.start) < |vs| && vs[IndexOf(vs, v.start)] == v
  {
    var i :| 0 <= i < |vs| && vs[i] == v;
    var j := IndexOf(vs, v.start);
    assert j == i by {
      assert vs[j].start == vs[i].start;
    }
  }

  lemma {:induction false} InsertOk(vs: seq<Vma>, v: Vma)
    requires VmasOk(vs) && PAGE_SIZE <= v.start < v.end && Aligned(v.start) && Aligned(v.end)
    requires Gap(vs, v.start, v.end - v.start)
    ensures VmasOk(Insert(vs, v))
    ensures forall w :: w in Insert(vs, v) <==> w in vs || w == v
  {
    if vs == [] {
      assert Insert(vs, v) == [v];
    } else {
      VmasTail(vs);
      assert vs == [vs[0]] + vs[1..];
      assert v.end <= vs[0].start || vs[0].end <= v.start;
      if v.start < vs[0].start {
        VmasCons(v, vs);
      } else {
        GapTail(vs, v.start, v.end - v.start);
        InsertOk(vs[1..], v);
        VmasCons(vs[0], Insert(vs[1..], v));
      }
    }
  }

  lemma VmasPart(vs: seq<Vma>, i: nat, j: nat)
    requires VmasOk(vs) && i <= j <= |vs|
    ensures VmasOk(vs[i..j])
  {
  }

  lemma VmasConcat(a: seq<Vma>, b: seq<Vma>)
    requires VmasOk(a) && VmasOk(b)
    requires forall i, j :: 0 <= i < |a| && 0 <= j < |b| ==> a[i].end <= b[j].start
    ensures VmasOk(a + b)
  {
  }

  lemma RemoveSorted(vs: seq<Vma>, start: nat)
    requires VmasOk(vs)
    ensures VmasOk(Remove(vs, start))
  {
    var i := IndexOf(vs, start);
    if i < |vs| {
      assert vs[..i] == vs[0..i] && vs[i + 1..] == vs[i + 1..|vs|];
      VmasPart(vs, 0, i);
      VmasPart(vs, i + 1, |vs|);
      VmasConcat(vs[..i], vs[i + 1..]);
    }
  }

  lemma RemainingMembers(vs: seq<Vma>, i: nat)
    requires i < |vs| && vs[i] !in vs[..i] && vs[i] !in vs[i + 1..]
    ensures forall w :: w in vs[..i] + vs[i + 1..] <==> w in vs && w != vs[i]
  {
    assert vs == vs[..i] + [vs[i]] + vs[i + 1..];
  }

  lemma EntryOnce(vs: seq<Vma>, i: nat)
    requires VmasOk(vs) && i < |vs|
    ensures vs[i] !in vs[..i] && vs[i] !in vs[i + 1..]
  {
    forall j | 0 <= j < |vs| && j != i
      ensures vs[j] != vs[i]
    {
      EntriesDiffer(vs, i, j);
    }
  }

  lemma RemoveOk(vs: seq<Vma>, v: Vma)
    requires VmasOk(vs) && v in vs
    ensures VmasOk(Remove(vs, v.start))
    ensures forall w :: w in Remove(vs, v.start) <==> w in vs && w != v
  {
    RemoveSorted(vs, v.start);
    IndexOfMember(vs, v);
    EntryOnce(vs, IndexOf(vs, v.start));
    RemainingMembers(vs, IndexOf(vs, v.start));
  }

  lemma EntriesDiffer(vs: seq<Vma>, i: nat, j: nat)
    requires VmasOk(vs) && i < |vs| && j < |vs| && i != j
    ensures vs[i].start != vs[j].start
  {
    if i < j {
      assert vs[i].end <= vs[j].start;
    } else {
      assert vs[j].end <= vs[i].start;
    }
  }

  lemma WidenSorted(vs: seq<Vma>, start: nat, extra: nat)
    requires VmasOk(vs) && Aligned(extra) && CanWiden(vs, start, extra)
    ensures VmasOk(Widen(vs, start, extra))
  {
    var i := IndexOf(vs, start);
    var r := Widen(vs, start, extra);
    AlignedSum(vs[i].end, extra);
    forall j | i < j < |vs|
      ensures vs[i].end + extra <= vs[j].start
    {
      if i + 1 < j {
        assert vs[i + 1].start < vs[i + 1].end <= vs[j].start;
      }
    }
    assert forall j :: 0 <= j < |vs| && j != i ==> r[j] == vs[j];
  }

  lemma ReplacedMembers(vs: seq<Vma>, i: nat, n: Vma)
    requires i < |vs| && vs[i] !in vs[..i] && vs[i] !in vs[i + 1..]
    ensures forall w :: w in vs[i := n] <==> (w in vs && w != vs[i]) || w == n
  {
    assert vs == vs[..i] + [vs[i]] + vs[i + 1..];
    assert vs[i := n] == vs[..i] + [n] + vs[i + 1..];
  }

  lemma WidenMembers(vs: seq<Vma>, v: Vma, extra: nat)
    requires VmasOk(vs) && v in vs
    ensures forall w :: w in Widen(vs, v.start, extra) <==> (w in vs && w != v) || w == Vma(v.start, v.end + extra)
  {
    var i := IndexOf(vs, v.start);
    IndexOfMember(vs, v);
    EntryOnce(vs, i);
    ReplacedMembers(vs, i, Vma(v.start, v.end + extra));
    assert Widen(vs, v.start, extra) == vs[i := Vma(v.start, v.end + extra)];
  }

  lemma WidenOk(vs: seq<Vma>, v: Vma, extra: nat)
    requires VmasOk(vs) && v in vs && Aligned(extra) && CanWiden(vs, v.start, extra)
    ensures VmasOk(Widen(vs, v.start, extra))
    ensures forall w :: w in Widen(vs, v.start, extra) <==> (w in vs && w != v) || w == Vma(v.start, v.end + extra)
  {
    WidenSorted(vs, v.start, extra);
    WidenMembers(vs, v, extra);
  }

  /** A gap found between page-aligned VMAs starts on a page, and no VMA starts there. */
  lemma FirstGapStart(vs: seq<Vma>, size: nat)
    requires VmasOk(vs) && size > 0
    ensures Aligned(FirstGap(vs, PAGE_SIZE, size))
    ensures forall w :: w in vs ==> w.start != FirstGap(vs, PAGE_SIZE, size)
  {
    FirstGapLowest(vs, PAGE_SIZE, size);
    var place := FirstGap(vs, PAGE_SIZE, size);
    if place != PAGE_SIZE {
      var i :| 0 <= i < |vs| && place == vs[i].end;
    }
    forall w | w in vs
      ensures w.start != place
    {
      var m :| 0 <= m < |vs| && vs[m] == w;
    }
  }

  /** Two VMAs of one list share no address. */
  lemma VmasDisjoint(vs: seq<Vma>, v: Vma, w: Vma)
    requires VmasOk(vs) && v in vs && w in vs && v.start != w.start
    ensures v.end <= w.start || w.end <= v.start
  {
    var i :| 0 <= i < |vs| && vs[i] == v;
    var j :| 0 <= j < |vs| && vs[j] == w;
    if i < j {
      assert vs[i].end <= vs[j].start;
    } else {
      assert vs[j].end <= vs[i].start;
    }
  }
}
