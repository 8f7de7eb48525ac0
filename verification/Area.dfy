/** One area (src/area.c): a VMA tiled by regions, with the running count of its free bytes. */
module Areas {
  import opened Kutils
  import opened Regions

  /** `vmStart` and `vmEnd` are the bounds of the area's VMA in process `mm`. `surplus` is a history
      variable the C structure does not have: the bytes that `freeSpace` counts although they are not free,
      because an exact fit did not subtract them or a second release of the same region added them again. */
  datatype AreaState = AreaState(
    pid: int, mm: int, vmStart: nat, vmEnd: nat,
    size: nat, freeSpace: nat, surplus: nat, regions: seq<Region>)

  /** The invariant of an area; its last conjunct is the accounting law. */
  ghost predicate AreaOk(a: AreaState) {
    && Aligned(a.vmStart) && Aligned(a.vmEnd) && a.vmStart < a.vmEnd
    && a.vmStart + a.size == a.vmEnd
    && RegionsOk(a.regions, a.vmStart)
    && a.freeSpace + Used(a.regions) == a.size + a.surplus
  }

  /** All regions lie inside the VMA. */
  predicate Contained(a: AreaState) {
    EndOf(a.regions, a.vmStart) <= a.vmEnd
  }

  function NewArea(pid: int, mm: int, start: nat, size: nat): AreaState {
    AreaState(pid, mm, start, start + size, size, size, 0, [])
  }

  predicate ExactFit(rs: seq<Region>, size: nat) {
    FirstFit(rs, size) < |rs| && rs[FirstFit(rs, size)].size == size
  }

  /** The lowest free region with room for `size` has just that size: what `ExactFit` finds out. */
  ghost predicate TakesExact(rs: seq<Region>, size: nat) {
    exists h :: h in rs && h.free && h.size == size
                && forall g :: g in rs && g.free && g.size >= size ==> h.start <= g.start
  }

  function AllocIn(a: AreaState, size: nat): AreaState
    requires size <= a.freeSpace
  {
    var b := a.(regions := Place(a.regions, a.vmStart, size));
    if ExactFit(a.regions, size) then b.(surplus := a.surplus + size)
    else b.(freeSpace := a.freeSpace - size)
  }

  function FreeIn(a: AreaState, i: nat): AreaState
    requires i < |a.regions|
  {
    a.(regions := Release(a.regions, i),
       freeSpace := a.freeSpace + a.regions[i].size,
       surplus := a.surplus + if a.regions[i].free then a.regions[i].size else 0)
  }

  /** What `extend_vma` adds so that `size` bytes are counted free. */
  function Extra(a: AreaState, size: nat): (extra: nat)
    requires a.freeSpace < size
  {
    var target := PageCeil(a.size + size - a.freeSpace);
    assert target >= a.size;
    target - a.size
  }

  function Grow(a: AreaState, extra: nat): AreaState {
    a.(vmEnd := a.vmEnd + extra, size := a.size + extra, freeSpace := a.freeSpace + extra)
  }

  /** Index of the first region that starts at `address`; the list's length when there is none. */
  function RegionAt(rs: seq<Region>, address: nat): (i: nat)
    ensures i <= |rs|
    ensures i < |rs| ==> rs[i].start == address
    ensures forall j :: 0 <= j < i ==> rs[j].start != address
  {
    if rs == [] then 0 else if rs[0].start == address then 0 else 1 + RegionAt(rs[1..], address)
  }

  // ----- What the operations keep -----

  lemma NewAreaOk(pid: int, mm: int, start: nat, size: nat)
    requires Aligned(start) && Aligned(size) && size > 0
    ensures AreaOk(NewArea(pid, mm, start, size)) && Contained(NewArea(pid, mm, start, size))
  {
  }

  lemma ExactFitIs(rs: seq<Region>, base: nat, size: nat)
    requires Tiles(rs, base)
    ensures ExactFit(rs, size) <==> TakesExact(rs, size)
  {
    var k := FirstFit(rs, size);
    if k < |rs| {
      FirstFitIsLowest(rs, base, size);
      assert rs[k] in rs;
      if TakesExact(rs, size) {
        var h :| h in rs && h.free && h.size == size
                 && forall g :: g in rs && g.free && g.size >= size ==> h.start <= g.start;
        var i :| 0 <= i < |rs| && rs[i] == h;
        StartUnique(rs, base, i, k);
      }
    }
  }

  lemma AllocInOk(a: AreaState, size: nat)
    requires AreaOk(a) && 0 < size <= a.freeSpace
    ensures AreaOk(AllocIn(a, size))
    ensures AllocIn(a, size).regions != []
    ensures var b := AllocIn(a, size);
            if TakesExact(a.regions, size) then b.freeSpace == a.freeSpace && b.surplus == a.surplus + size
            else b.freeSpace == a.freeSpace - size && b.surplus == a.surplus
  {
    ExactFitIs(a.regions, a.vmStart, size);
    PlaceOk(a.regions, a.vmStart, size);
    PlaceSums(a.regions, a.vmStart, size);
  }

  /** Release adds the size of the region released to the free bytes, once, with whatever it merges; the region only
      counts as surplus if it was free already. */
  lemma FreeInOk(a: AreaState, i: nat)
    requires AreaOk(a) && i < |a.regions|
    ensures AreaOk(FreeIn(a, i))
    ensures FreeIn(a, i).freeSpace == a.freeSpace + a.regions[i].size
    ensures FreeIn(a, i).surplus == a.surplus + if a.regions[i].free then a.regions[i].size else 0
  {
    ReleaseOk(a.regions, a.vmStart, i);
    ReleaseSums(a.regions, a.vmStart, i);
  }

  lemma GrowOk(a: AreaState, size: nat)
    requires AreaOk(a) && a.freeSpace < size
    ensures AreaOk(Grow(a, Extra(a, size)))
    ensures Contained(a) ==> Contained(Grow(a, Extra(a, size)))
  {
  }

  /** The extension is the smallest whole number of pages that makes `size` bytes count as free. */
  lemma ExtraIsLeast(a: AreaState, size: nat)
    requires AreaOk(a) && a.freeSpace < size
    ensures Aligned(Extra(a, size)) && size <= Grow(a, Extra(a, size)).freeSpace
    ensures forall e: nat :: Aligned(e) && size <= Grow(a, e).freeSpace ==> Extra(a, size) <= e
  {
    SizeAligned(a);
    RoundUpLeast(a.size, size - a.freeSpace);
  }

  lemma SizeAligned(a: AreaState)
    requires AreaOk(a)
    ensures Aligned(a.size)
  {
  }

  lemma RoundUpLeast(size: nat, need: nat)
    requires Aligned(size)
    ensures var extra := PageCeil(size + need) - size;
            extra >= need && Aligned(extra) && forall e: nat :: Aligned(e) && need <= e ==> extra <= e
  {
    AlignedSum(size, PageCeil(size + need));
    forall e: nat | Aligned(e) && need <= e
      ensures PageCeil(size + need) - size <= e
    {
      AlignedSum(size, e);
      PageCeilLeast(size + need, size + e);
    }
  }

  // ----- Accounting and containment -----

  /** The list may run past its VMA by the bytes of its holes and its surplus, never by more. */
  lemma ContainmentBound(a: AreaState)
    requires AreaOk(a)
    ensures EndOf(a.regions, a.vmStart) <= a.vmEnd + Holes(a.regions) + a.surplus
    ensures Contained(a) <==> Holes(a.regions) + a.surplus <= a.freeSpace
  {
    EndIsTotal(a.regions, a.vmStart);
  }

  /** Whether the list has room for `size` bytes inside the VMA: a hole, or the bytes behind the last region. */
  predicate HasRoom(a: AreaState, size: nat) {
    FirstFit(a.regions, size) < |a.regions| || EndOf(a.regions, a.vmStart) + size <= a.vmEnd
  }

  /** Room is what keeps an allocation inside the VMA. The count of free bytes says so only where it covers the
      holes and the surplus besides the request. */
  lemma AllocContainedIff(a: AreaState, size: nat)
    requires AreaOk(a) && 0 < size <= a.freeSpace && Contained(a)
    ensures Contained(AllocIn(a, size)) <==> HasRoom(a, size)
    ensures HasRoom(a, size) <==>
            FirstFit(a.regions, size) < |a.regions| || size + Holes(a.regions) + a.surplus <= a.freeSpace
  {
    AllocInOk(a, size);
    PlaceSums(a.regions, a.vmStart, size);
    EndIsTotal(a.regions, a.vmStart);
    EndIsTotal(Place(a.regions, a.vmStart, size), a.vmStart);
  }

  /** The test on free bytes is not a test for room. An area whose regions all lie inside its VMA takes an
      allocation that runs past the end of it because of a hole too small for the request. */
  lemma HoleOverrun() returns (a: AreaState, size: nat)
    ensures AreaOk(a) && Contained(a) && a.surplus == 0 && 0 < size <= a.freeSpace
    ensures !Contained(AllocIn(a, size))
  {
    var x, y := Region(4096, 4096, true), Region(8192, 1, false);
    a, size := AreaState(1, 1, 4096, 12288, 8192, 8191, 0, [x, y]), 8000;
    SumsConcat([x], [y]);
    assert [x, y] == [x] + [y] && [x, y][1..] == [y];
    assert FirstFit([y], 8000) == 1 && FirstFit([x, y], 8000) == 2;
  }

  /** It does so without any hole, too, once an exact fit has left its mark on the count of free bytes. */
  lemma SurplusOverrun() returns (a: AreaState, size: nat)
    ensures AreaOk(a) && Contained(a) && Holes(a.regions) == 0 && 0 < size <= a.freeSpace
    ensures !Contained(AllocIn(a, size))
  {
    var x, y := Region(4096, 4096, false), Region(8192, 4096, false);
    a, size := AreaState(1, 1, 4096, 12288, 8192, 4096, 4096, [x, y]), 4096;
    SumsConcat([x], [y]);
    assert [x, y] == [x] + [y] && [x, y][1..] == [y];
    assert FirstFit([y], 4096) == 1 && FirstFit([x, y], 4096) == 2;
  }

  /** Releasing a block just allocated restores the region list, but the count of free bytes only when the
      block was not an exact fit: each such round adds the block's size to it once more. */
  lemma FreeUndoesAllocIff(a: AreaState, size: nat, i: nat)
    requires AreaOk(a) && 0 < size <= a.freeSpace
    requires i < |AllocIn(a, size).regions| && AllocIn(a, size).regions[i] == Placed(a.regions, a.vmStart, size)
    ensures FreeIn(AllocIn(a, size), i).regions == a.regions
    ensures FreeIn(AllocIn(a, size), i).freeSpace == a.freeSpace + if ExactFit(a.regions, size) then size else 0
    ensures FreeIn(AllocIn(a, size), i) == a <==> !ExactFit(a.regions, size)
  {
    ReleaseUndoesPlace(a.regions, a.vmStart, size, i);
  }

  // ----- The structure updated in place -----

  /** The sizes and counters of an area fit in machine words, with room for `more`. */
  ghost predicate InWords(a: AreaState, more: nat) {
    a.freeSpace + more < WORD && EndOf(a.regions, a.vmStart) + more < WORD
  }

  class Area {
    const pid: int
    const mm: int
    const vmStart: nat
    var vmEnd: nat
    var size: nat
    var freeSpace: nat
    var regions: seq<Region>
    ghost var surplus: nat

    ghost function View(): AreaState
      reads this
    {
      AreaState(pid, mm, vmStart, vmEnd, size, freeSpace, surplus, regions)
    }

    /** `add_area_struct`, with the VMA created next to it. */
    constructor (pid: int, mm: int, start: nat, size: nat)
      ensures View() == NewArea(pid, mm, start, size)
    {
      this.pid, this.mm, this.vmStart := pid, mm, start;
      this.vmEnd, this.size, this.freeSpace := start + size, size, size;
      this.regions, this.surplus := [], 0;
    }

    /** `add_region_after`: `prev` is the position of the previous region, -1 for the list head. */
    method AddRegionAfter(prev: int, size: nat) returns (added: nat)
      requires -1 <= prev < |regions| && freeSpace < WORD && size < WORD
      modifies `regions, `freeSpace
      ensures added == prev + 1
      ensures var start := if prev == -1 then vmStart else old(regions)[prev].End();
              regions == Inserted(old(regions), added, Region(start, size, false))
      ensures freeSpace == SubWord(old(freeSpace), size)
    {
      added := prev + 1;
      freeSpace := SubWord(freeSpace, size);
      var start := if added == 0 then vmStart else regions[prev].start + regions[prev].size;
      regions := regions[..added] + [Region(start, size, false)] + regions[added..];
    }

    /** Region `i` takes over the size of the next one, which leaves the list. */
    method Absorb(i: nat)
      requires i + 1 < |regions|
      modifies `regions
      ensures regions == Absorbed(old(regions), i)
    {
      regions := regions[i := regions[i].(size := regions[i].size + regions[i + 1].size)];
      regions := regions[..i + 1] + regions[i + 2..];
    }

    /** `merge_neighbors_region`; the list head is never taken for a free region. */
    method MergeNeighborsRegion(at: nat)
      requires at < |regions| && regions[at].free
      modifies `regions
      ensures regions == Release(old(regions), at)
    {
      var i := at;
      MergeNext(regions, at);
      MergePrevious(regions, at);
      MergeCut(regions, at);
      if i + 1 < |regions| && regions[i + 1].free {
        Absorb(i);
      }
      if i > 0 && regions[i - 1].free {
        Absorb(i - 1);
        i := i - 1;
      }
      if i + 1 == |regions| {
        regions := regions[..i];
      }
    }

    /** The branch of `get_free_region` for a region that is too big, up to the merge. The first subtraction below
        may wrap, as `freeSpace` need not cover the whole region when the list has outgrown its VMA; the addition
        after it makes up for that. */
    method CarveRegion(at: nat, size: nat) returns (split: nat)
      requires at < |regions| && size < regions[at].size && size <= freeSpace < WORD && regions[at].End() < WORD
      modifies `regions, `freeSpace
      ensures split == at + 1 && freeSpace == old(freeSpace) - size
      ensures var rs := old(regions); regions == rs[..at] + Carve(rs[at], size) + rs[at + 1..]
    {
      SplitIsCarve(regions, at, size);
      var regionSize := regions[at].size;
      regions := regions[at := regions[at].(free := false, size := size)];
      freeSpace := SubWord(freeSpace, size);
      split := AddRegionAfter(at, regionSize - size);
      regions := regions[split := regions[split].(free := true)];
      freeSpace := AddWord(freeSpace, regions[split].size);
    }

    /** That branch as a whole. */
    method SplitRegion(at: nat, size: nat)
      requires AreaOk(View()) && 0 < size <= freeSpace && InWords(View(), 0)
      requires at == FirstFit(regions, size) < |regions| && regions[at].size > size
      modifies `regions, `freeSpace
      ensures regions == Place(old(regions), vmStart, size) && freeSpace == old(freeSpace) - size
    {
      SplitRestStays(regions, vmStart, size);
      assert regions[at].End() < WORD by {
        TilesBounds(regions, vmStart, at);
      }
      var split := CarveRegion(at, size);
      MergeNeighborsRegion(split);
    }

    /** `get_free_region`: returns the position of the region handed out. */
    method GetFreeRegion(size: nat) returns (found: bool, at: nat)
      requires AreaOk(View()) && 0 < size <= freeSpace && InWords(View(), 0)
      modifies `regions, `freeSpace, `surplus
      ensures found <==> FirstFit(old(regions), size) < |old(regions)|
      ensures found ==> View() == AllocIn(old(View()), size) && at == FirstFit(old(regions), size)
      ensures !found ==> View() == old(View())
    {
      ghost var a := View();
      ghost var k := FirstFit(regions, size);
      at := 0;
      while at < |regions|
        invariant at <= k
        invariant View() == a
      {
        if regions[at].size == size && regions[at].free {
          regions := regions[at := regions[at].(free := false)];
          surplus := surplus + size;
          ExactPlace(a.regions, vmStart, size);
          return true, at;
        } else if regions[at].size > size && regions[at].free {
          SplitRegion(at, size);
          return true, at;
        }
        at := at + 1;
      }
      found := false;
    }

    /** `add_region`: a free region if one fits, or else a new one at the end of the list. */
    method AddRegion(size: nat) returns (at: nat)
      requires AreaOk(View()) && 0 < size <= freeSpace && InWords(View(), 0)
      modifies `regions, `freeSpace, `surplus
      ensures View() == AllocIn(old(View()), size)
      ensures at < |regions| && regions[at] == Placed(old(regions), vmStart, size)
      ensures !regions[at].free && regions[at].size == size && Live(regions) == old(Live(regions)) + {regions[at]}
      ensures forall r :: r in old(Live(regions)) ==> !r.Overlaps(regions[at].start, regions[at].End())
      ensures freeSpace == old(freeSpace) - if TakesExact(old(regions), size) then 0 else size
    {
      AllocShows(View(), size);
      var found: bool;
      found, at := GetFreeRegion(size);
      if !found {
        at := AddRegionAfter(|regions| - 1, size);
        assert regions == Place(old(regions), vmStart, size);
      }
    }

    /** `extend_vma`: `nextStart` is where the next VMA of the process starts, if there is one. */
    method ExtendVma(hasNext: bool, nextStart: nat, size: nat) returns (ok: bool)
      requires freeSpace < size
      modifies `vmEnd, `size, `freeSpace
      ensures ok <==> !hasNext || nextStart > old(vmEnd) + Extra(old(View()), size)
      ensures View() == if ok then Grow(old(View()), Extra(old(View()), size)) else old(View())
      ensures vmEnd - old(vmEnd) == this.size - old(this.size) == freeSpace - old(freeSpace)
      ensures ok ==> freeSpace >= size
    {
      var extra := PageCeil(this.size + size - freeSpace) - this.size;
      if !hasNext || nextStart > vmEnd + extra {
        vmEnd := vmEnd + extra;
        this.size := this.size + extra;
        freeSpace := freeSpace + extra;
        return true;
      }
      return false;
    }

    /** `get_region`. */
    method GetRegion(address: nat) returns (at: nat)
      ensures at == RegionAt(regions, address)
    {
      at := 0;
      while at < |regions|
        invariant at <= RegionAt(regions, address)
      {
        if regions[at].start == address {
          return;
        }
        at := at + 1;
      }
    }

    /** The part of `remove_region` that works inside the area. */
    method FreeRegion(at: nat)
      requires at < |regions| && InWords(View(), regions[at].size)
      modifies `regions, `freeSpace, `surplus
      ensures View() == FreeIn(old(View()), at)
      ensures freeSpace == old(freeSpace) + old(regions[at].size)
    {
      ghost var rs := regions;
      freeSpace := AddWord(freeSpace, regions[at].size);
      surplus := surplus + if regions[at].free then regions[at].size else 0;
      regions := regions[at := regions[at].(free := true)];
      ReleaseOfMarked(rs, at);
      MergeNeighborsRegion(at);
    }
  }

  /** What an allocation does, for the caller. */
  lemma AllocShows(a: AreaState, size: nat)
    requires AreaOk(a) && 0 < size <= a.freeSpace
    ensures var b, p := AllocIn(a, size), Placed(a.regions, a.vmStart, size);
            && Live(b.regions) == Live(a.regions) + {p}
            && (forall r :: r in Live(a.regions) ==> !r.Overlaps(p.start, p.End()))
            && b.freeSpace == a.freeSpace - if TakesExact(a.regions, size) then 0 else size
  {
    AllocInOk(a, size);
    PlaceAddsOneBlock(a.regions, a.vmStart, size);
  }

  /** Regions `i` and `i + 1` as one. */
  function Absorbed(rs: seq<Region>, i: nat): seq<Region>
    requires i + 1 < |rs|
  {
    rs[..i] + [rs[i].(size := rs[i].size + rs[i + 1].size)] + rs[i + 2..]
  }

  /** The list with `rs[h..j]` as one hole. */
  function Merged(rs: seq<Region>, h: nat, j: nat): seq<Region>
    requires h < j <= |rs|
  {
    rs[..h] + [Hole(rs, h, j)] + rs[j..]
  }

  lemma MergeNext(rs: seq<Region>, at: nat)
    requires at < |rs| && rs[at].free
    ensures Merged(rs, at, RunEnd(rs, at)) == if RunEnd(rs, at) == at + 1 then rs else Absorbed(rs, at)
  {
    HoleOfRun(rs, at, RunEnd(rs, at));
    if RunEnd(rs, at) == at + 2 {
      HoleOfRun(rs, at + 1, at + 2);
    }
  }

  lemma MergePrevious(rs: seq<Region>, at: nat)
    requires at < |rs| && rs[at].free
    ensures var h, j := RunStart(rs, at), RunEnd(rs, at);
            var ms := Merged(rs, at, j);
            && (at > 0 ==> ms[at - 1] == rs[at - 1])
            && Merged(rs, h, j) == if h == at then ms else Absorbed(ms, h)
  {
    var h, j := RunStart(rs, at), RunEnd(rs, at);
    if h < at {
      HoleOfRun(rs, h, j);
    }
  }

  lemma MergeCut(rs: seq<Region>, at: nat)
    requires at < |rs|
    ensures var h, j := RunStart(rs, at), RunEnd(rs, at);
            Release(rs, at) == if h + 1 == |Merged(rs, h, j)| then Merged(rs, h, j)[..h] else Merged(rs, h, j)
  {
  }

  function Inserted(rs: seq<Region>, k: nat, r: Region): seq<Region>
    requires k <= |rs|
  {
    rs[..k] + [r] + rs[k..]
  }

  lemma ExactPlace(rs: seq<Region>, base: nat, size: nat)
    requires ExactFit(rs, size)
    ensures var k := FirstFit(rs, size); Place(rs, base, size) == rs[k := rs[k].(free := false)]
  {
  }

  /** Splitting a region puts in its place what `Carve` says. */
  lemma SplitIsCarve(rs: seq<Region>, k: nat, size: nat)
    requires k < |rs| && size < rs[k].size
    ensures var rest := Region(rs[k].start + size, rs[k].size - size, false);
            Inserted(rs[k := rs[k].(free := false, size := size)], k + 1, rest)[k + 1 := rest.(free := true)]
            == rs[..k] + Carve(rs[k], size) + rs[k + 1..]
  {
    var rest := Region(rs[k].start + size, rs[k].size - size, false);
    var x, z := rs[k].(free := false, size := size), rest.(free := true);
    ReplaceThenInsert(rs, k, x, rest, z);
    assert Carve(rs[k], size) == [x, z];
  }

  /** The remainder of a split is neither merged with a neighbour nor dropped. */
  lemma SplitRestStays(rs: seq<Region>, base: nat, size: nat)
    requires RegionsOk(rs, base) && size > 0
    requires FirstFit(rs, size) < |rs| && size < rs[FirstFit(rs, size)].size
    ensures var k := FirstFit(rs, size);
            var ps := Place(rs, base, size);
            k + 1 < |ps| && ps[k + 1].free && Release(ps, k + 1) == ps
  {
    PlaceOk(rs, base, size);
    ReleaseFree(Place(rs, base, size), base, FirstFit(rs, size) + 1);
  }

  lemma ReplaceThenInsert(rs: seq<Region>, k: nat, x: Region, y: Region, z: Region)
    requires k < |rs|
    ensures Inserted(rs[k := x], k + 1, y)[k + 1 := z] == rs[..k] + [x, z] + rs[k + 1..]
  {
  }

  /** A hole's size grows with the regions it covers. */
  lemma HoleOfRun(rs: seq<Region>, h: nat, j: nat)
    requires h < j <= |rs|
    ensures j == h + 1 ==> Hole(rs, h, j).size == rs[h].size
    ensures j > h + 1 ==> Hole(rs, h, j).size == rs[h].size + Hole(rs, h + 1, j).size
  {
    RunHead(rs, h, j);
    assert j == h + 1 ==> rs[h + 1..j] == [];
  }

  lemma MarkedHole(rs: seq<Region>, i: nat, h: nat, j: nat)
    requires h <= i < j <= |rs|
    ensures Hole(rs[i := rs[i].(free := true)], h, j) == Hole(rs, h, j)
  {
    var ms := rs[i := rs[i].(free := true)];
    assert rs[h..j] == rs[h..i] + [rs[i]] + rs[i + 1..j];
    assert ms[h..j] == rs[h..i] + [ms[i]] + rs[i + 1..j];
    SumsSplit(rs[h..i], [rs[i]], rs[i + 1..j]);
    SumsSplit(rs[h..i], [ms[i]], rs[i + 1..j]);
    assert Used([rs[i]]) + Holes([rs[i]]) == Used([ms[i]]) + Holes([ms[i]]);
  }

  lemma ReleaseOfMarked(rs: seq<Region>, i: nat)
    requires i < |rs|
    ensures Release(rs[i := rs[i].(free := true)], i) == Release(rs, i)
  {
    var ms := rs[i := rs[i].(free := true)];
    var h, j := RunStart(rs, i), RunEnd(rs, i);
    assert RunStart(ms, i) == h && RunEnd(ms, i) == j;
    assert ms[..h] == rs[..h] && ms[j..] == rs[j..];
    MarkedHole(rs, i, h, j);
  }
}
