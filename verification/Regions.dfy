/** The region list of one area (src/area.c) as a value: the invariant that every list kept by the
    allocator satisfies, what allocation and release make of a list, and what they mean for the blocks
    in use. */
module Regions {
  datatype Region = Region(start: nat, size: nat, free: bool) {
    function End(): nat {
      start + size
    }

    predicate Overlaps(lo: nat, hi: nat) {
      start < hi && lo < End()
    }
  }

  // ----- The invariant -----

  /** Regions of positive size laid end to end from `base`. */
  ghost predicate Tiles(rs: seq<Region>, base: nat) {
    && (|rs| > 0 ==> rs[0].start == base)
    && (forall i, j :: 0 <= i && j == i + 1 && j < |rs| ==> rs[j].start == rs[i].End())
    && (forall i :: 0 <= i < |rs| ==> rs[i].size > 0)
  }

  ghost predicate NoTwoFree(rs: seq<Region>) {
    forall i, j :: 0 <= i && j == i + 1 && j < |rs| ==> !(rs[i].free && rs[j].free)
  }

  ghost predicate LastUsed(rs: seq<Region>) {
    |rs| > 0 ==> !rs[|rs| - 1].free
  }

  ghost predicate RegionsOk(rs: seq<Region>, base: nat) {
    Tiles(rs, base) && NoTwoFree(rs) && LastUsed(rs)
  }

  /** The end of the last region; `base` when there is none. */
  function EndOf(rs: seq<Region>, base: nat): nat {
    if rs == [] then base else rs[|rs| - 1].End()
  }

  function Used(rs: seq<Region>): nat {
    if rs == [] then 0 else (if rs[0].free then 0 else rs[0].size) + Used(rs[1..])
  }

  function Holes(rs: seq<Region>): nat {
    if rs == [] then 0 else (if rs[0].free then rs[0].size else 0) + Holes(rs[1..])
  }

  /** The blocks in use. */
  ghost function Live(rs: seq<Region>): set<Region> {
    set r | r in rs && !r.free
  }

  lemma {:induction false} TilesOrdered(rs: seq<Region>, base: nat, i: nat, j: nat)
    requires Tiles(rs, base) && i < j < |rs|
    ensures base <= rs[i].start && rs[i].End() <= rs[j].start
    decreases j
  {
    if i + 1 < j {
      TilesOrdered(rs, base, i, j - 1);
    } else if i > 0 {
      TilesOrdered(rs, base, i - 1, i);
    }
    assert rs[j].start == rs[j - 1].End();
  }

  lemma TilesBounds(rs: seq<Region>, base: nat, i: nat)
    requires Tiles(rs, base) && i < |rs|
    ensures base <= rs[i].start && rs[i].End() <= EndOf(rs, base)
  {
    if i > 0 {
      TilesOrdered(rs, base, 0, i);
    }
    if i < |rs| - 1 {
      TilesOrdered(rs, base, i, |rs| - 1);
    }
  }

  /** In a tiling, a start address names one region. */
  lemma StartUnique(rs: seq<Region>, base: nat, i: nat, j: nat)
    requires Tiles(rs, base) && i < |rs| && j < |rs| && rs[i].start == rs[j].start
    ensures i == j
  {
    if i < j {
      TilesOrdered(rs, base, i, j);
    } else if j < i {
      TilesOrdered(rs, base, j, i);
    }
  }

  /** Distinct regions of one list share no address. */
  lemma RegionsDisjoint(rs: seq<Region>, base: nat, a: Region, b: Region)
    requires Tiles(rs, base) && a in rs && b in rs && a != b
    ensures a.End() <= b.start || b.End() <= a.start
  {
    var i :| 0 <= i < |rs| && rs[i] == a;
    var j :| 0 <= j < |rs| && rs[j] == b;
    if i < j {
      TilesOrdered(rs, base, i, j);
    } else {
      TilesOrdered(rs, base, j, i);
    }
  }

  lemma {:induction false} SumsConcat(a: seq<Region>, b: seq<Region>)
    ensures Used(a + b) == Used(a) + Used(b)
    ensures Holes(a + b) == Holes(a) + Holes(b)
  {
    if a == [] {
      assert a + b == b;
    } else {
      SumsConcat(a[1..], b);
      assert (a + b)[1..] == a[1..] + b;
    }
  }

  /** A list split around a middle part. */
  lemma SumsSplit(a: seq<Region>, m: seq<Region>, b: seq<Region>)
    ensures Used(a + m + b) == Used(a) + Used(m) + Used(b)
    ensures Holes(a + m + b) == Holes(a) + Holes(m) + Holes(b)
  {
    SumsConcat(a + m, b);
    SumsConcat(a, m);
  }

  lemma {:induction false} TilesTail(rs: seq<Region>, base: nat)
    requires Tiles(rs, base) && |rs| > 0
    ensures Tiles(rs[1..], rs[0].End())
    ensures EndOf(rs, base) == EndOf(rs[1..], rs[0].End())
  {
  }

  /** The list ends at its base plus everything in it, used or free. */
  lemma {:induction false} EndIsTotal(rs: seq<Region>, base: nat)
    requires Tiles(rs, base)
    ensures EndOf(rs, base) == base + Used(rs) + Holes(rs)
  {
    if rs != [] {
      TilesTail(rs, base);
      EndIsTotal(rs[1..], rs[0].End());
    }
  }

  // ----- Lists put together from pieces -----

  ghost predicate Piece(rs: seq<Region>, base: nat) {
    Tiles(rs, base) && NoTwoFree(rs)
  }

  lemma PieceConcat(a: seq<Region>, b: seq<Region>, base: nat)
    requires Piece(a, base) && Piece(b, EndOf(a, base))
    requires |a| > 0 && |b| > 0 ==> !(a[|a| - 1].free && b[0].free)
    ensures Piece(a + b, base) && EndOf(a + b, base) == EndOf(b, EndOf(a, base))
  {
  }

  lemma PieceTake(rs: seq<Region>, base: nat, h: nat)
    requires Piece(rs, base) && h <= |rs|
    ensures Piece(rs[..h], base)
    ensures h < |rs| ==> EndOf(rs[..h], base) == rs[h].start
  {
    assert 0 < h < |rs| ==> rs[h].start == rs[h - 1].End();
  }

  lemma PieceDrop(rs: seq<Region>, base: nat, j: nat)
    requires Piece(rs, base) && j < |rs|
    ensures Piece(rs[j..], rs[j].start)
  {
  }

  // ----- Allocation inside an area -----

  /** The index of the first free region with room for `size`; `|rs|` when there is none. */
  function FirstFit(rs: seq<Region>, size: nat): (k: nat)
    ensures k <= |rs|
    ensures k < |rs| ==> rs[k].free && rs[k].size >= size
    ensures forall j :: 0 <= j < k ==> !(rs[j].free && rs[j].size >= size)
  {
    if rs == [] then 0
    else if rs[0].free && rs[0].size >= size then 0
    else 1 + FirstFit(rs[1..], size)
  }

  /** A free region cut down to a used one of `size`, the rest staying free. */
  function Carve(r: Region, size: nat): seq<Region>
    requires size <= r.size
  {
    [Region(r.start, size, false)] + if size < r.size then [Region(r.start + size, r.size - size, true)] else []
  }

  function Place(rs: seq<Region>, base: nat, size: nat): seq<Region> {
    var k := FirstFit(rs, size);
    if k < |rs| then rs[..k] + Carve(rs[k], size) + rs[k + 1..]
    else rs + [Region(EndOf(rs, base), size, false)]
  }

  /** Where `Place` puts the new block. */
  function Placed(rs: seq<Region>, base: nat, size: nat): Region {
    var k := FirstFit(rs, size);
    Region(if k < |rs| then rs[k].start else EndOf(rs, base), size, false)
  }

  lemma CarvePiece(r: Region, size: nat)
    requires 0 < size <= r.size
    ensures Piece(Carve(r, size), r.start) && EndOf(Carve(r, size), r.start) == r.End()
  {
  }

  lemma ReplacePiece(rs: seq<Region>, base: nat, k: nat, mid: seq<Region>)
    requires Piece(rs, base) && k + 1 < |rs| && rs[k].free && !rs[k + 1].free
    requires mid != [] && Piece(mid, rs[k].start) && EndOf(mid, rs[k].start) == rs[k].End() && !mid[0].free
    ensures Piece(rs[..k] + mid + rs[k + 1..], base)
  {
    assert rs[k + 1].start == rs[k].End();
    PieceTake(rs, base, k);
    PieceDrop(rs, base, k + 1);
    PieceConcat(rs[..k], mid, base);
    PieceConcat(rs[..k] + mid, rs[k + 1..], base);
  }

  lemma PlaceOk(rs: seq<Region>, base: nat, size: nat)
    requires RegionsOk(rs, base) && size > 0
    ensures RegionsOk(Place(rs, base, size), base)
  {
    var k := FirstFit(rs, size);
    if k < |rs| {
      assert k + 1 < |rs| && !rs[k + 1].free;
      CarvePiece(rs[k], size);
      ReplacePiece(rs, base, k, Carve(rs[k], size));
    } else {
      PieceConcat(rs, [Region(EndOf(rs, base), size, false)], base);
    }
  }

  /** The invariant survives exactly the requests for at least one byte. */
  lemma PlaceOkIff(rs: seq<Region>, base: nat, size: nat)
    requires RegionsOk(rs, base)
    ensures RegionsOk(Place(rs, base, size), base) <==> size > 0
  {
    if size > 0 {
      PlaceOk(rs, base, size);
    } else {
      var ps := Place(rs, base, size);
      var k := FirstFit(rs, size);
      assert ps[k] == Placed(rs, base, size);
    }
  }

  /** `start` is where the lowest free region with room for `size` begins. */
  ghost predicate LowestFit(rs: seq<Region>, size: nat, start: nat) {
    && (exists h :: h in rs && h.free && h.size >= size && h.start == start)
    && (forall g :: g in rs && g.free && g.size >= size ==> start <= g.start)
  }

  lemma FirstFitIsLowest(rs: seq<Region>, base: nat, size: nat)
    requires Tiles(rs, base) && FirstFit(rs, size) < |rs|
    ensures LowestFit(rs, size, rs[FirstFit(rs, size)].start)
  {
    var k := FirstFit(rs, size);
    forall g | g in rs && g.free && g.size >= size
      ensures rs[k].start <= g.start
    {
      var j :| 0 <= j < |rs| && rs[j] == g;
      if k < j {
        TilesOrdered(rs, base, k, j);
      }
    }
    assert rs[k] in rs;
  }

  lemma LiveSplit(a: seq<Region>, m: seq<Region>, b: seq<Region>)
    ensures Live(a + m + b) == Live(a) + Live(m) + Live(b)
  {
  }

  lemma PlaceLive(rs: seq<Region>, base: nat, size: nat)
    ensures Live(Place(rs, base, size)) == Live(rs) + {Placed(rs, base, size)}
  {
    var k := FirstFit(rs, size);
    if k < |rs| {
      assert rs == rs[..k] + [rs[k]] + rs[k + 1..];
      LiveSplit(rs[..k], [rs[k]], rs[k + 1..]);
      LiveSplit(rs[..k], Carve(rs[k], size), rs[k + 1..]);
      assert Live([rs[k]]) == {} && Live(Carve(rs[k], size)) == {Placed(rs, base, size)};
    }
  }

  /** Allocation adds exactly one block to those in use. The block shares no address with any of them, and
      it is taken from the lowest free region that is large enough, or from the end when there is none. */
  lemma PlaceAddsOneBlock(rs: seq<Region>, base: nat, size: nat)
    requires RegionsOk(rs, base) && size > 0
    ensures Placed(rs, base, size) !in Live(rs)
    ensures Live(Place(rs, base, size)) == Live(rs) + {Placed(rs, base, size)}
    ensures forall r :: r in Live(rs) ==> !r.Overlaps(Placed(rs, base, size).start, Placed(rs, base, size).End())
    ensures if exists h :: h in rs && h.free && h.size >= size then LowestFit(rs, size, Placed(rs, base, size).start)
            else Placed(rs, base, size).start == EndOf(rs, base)
  {
    PlaceAvoids(rs, base, size);
    PlaceLive(rs, base, size);
    if FirstFit(rs, size) < |rs| {
      FirstFitIsLowest(rs, base, size);
    }
  }

  lemma PlaceAvoids(rs: seq<Region>, base: nat, size: nat)
    requires RegionsOk(rs, base) && size > 0
    ensures forall r :: r in Live(rs) ==> !r.Overlaps(Placed(rs, base, size).start, Placed(rs, base, size).End())
    ensures Placed(rs, base, size) !in Live(rs)
  {
    var k := FirstFit(rs, size);
    forall r | r in Live(rs)
      ensures !r.Overlaps(Placed(rs, base, size).start, Placed(rs, base, size).End())
    {
      var i :| 0 <= i < |rs| && rs[i] == r;
      if k < |rs| {
        RegionsDisjoint(rs, base, r, rs[k]);
      } else {
        TilesBounds(rs, base, i);
      }
    }
  }

  lemma CarveSums(r: Region, size: nat)
    requires size <= r.size && r.free
    ensures Used(Carve(r, size)) == size && Holes(Carve(r, size)) == r.size - size
  {
    var rest := if size < r.size then [Region(r.start + size, r.size - size, true)] else [];
    SumsConcat([Region(r.start, size, false)], rest);
  }

  lemma PlaceSums(rs: seq<Region>, base: nat, size: nat)
    requires RegionsOk(rs, base) && size > 0
    ensures Used(Place(rs, base, size)) == Used(rs) + size
    ensures FirstFit(rs, size) < |rs| ==> Holes(Place(rs, base, size)) == Holes(rs) - size
    ensures FirstFit(rs, size) == |rs| ==> Holes(Place(rs, base, size)) == Holes(rs)
  {
    var k := FirstFit(rs, size);
    if k < |rs| {
      assert rs == rs[..k] + [rs[k]] + rs[k + 1..];
      SumsSplit(rs[..k], [rs[k]], rs[k + 1..]);
      SumsSplit(rs[..k], Carve(rs[k], size), rs[k + 1..]);
      CarveSums(rs[k], size);
    } else {
      SumsConcat(rs, [Region(EndOf(rs, base), size, false)]);
    }
  }

  // ----- Release inside an area -----

  /** First and past-last index of the run of regions that becomes one hole when region `i` is released. */
  function RunStart(rs: seq<Region>, i: nat): (h: nat)
    requires i < |rs|
    ensures h <= i
  {
    if i > 0 && rs[i - 1].free then i - 1 else i
  }

  function RunEnd(rs: seq<Region>, i: nat): (j: nat)
    requires i < |rs|
    ensures i < j <= |rs|
  {
    if i + 1 < |rs| && rs[i + 1].free then i + 2 else i + 1
  }

  /** The list after release of region `i`: its run becomes one hole, or is cut off at the end. */
  function Release(rs: seq<Region>, i: nat): seq<Region>
    requires i < |rs|
  {
    var h, j := RunStart(rs, i), RunEnd(rs, i);
    if j == |rs| then rs[..h] else rs[..h] + [Hole(rs, h, j)] + rs[j..]
  }

  /** One free region in place of `rs[h..j]`. */
  function Hole(rs: seq<Region>, h: nat, j: nat): Region
    requires h < j <= |rs|
  {
    Region(rs[h].start, Used(rs[h..j]) + Holes(rs[h..j]), true)
  }

  /** The sums of a run, its first region taken off. */
  lemma RunHead(rs: seq<Region>, h: nat, j: nat)
    requires h < j <= |rs|
    ensures Used(rs[h..j]) == (if rs[h].free then 0 else rs[h].size) + Used(rs[h + 1..j])
    ensures Holes(rs[h..j]) == (if rs[h].free then rs[h].size else 0) + Holes(rs[h + 1..j])
  {
    assert rs[h..j][1..] == rs[h + 1..j];
  }

  lemma RunOfTwo(rs: seq<Region>, base: nat, h: nat)
    requires Tiles(rs, base) && h + 2 <= |rs|
    ensures Used(rs[h..h + 2]) ==
            (if rs[h].free then 0 else rs[h].size) + (if rs[h + 1].free then 0 else rs[h + 1].size)
    ensures rs[h].start + Used(rs[h..h + 2]) + Holes(rs[h..h + 2]) == rs[h + 1].End()
  {
    RunHead(rs, h, h + 2);
    RunOfOne(rs, h + 1);
    assert rs[h + 1].start == rs[h].End();
  }

  lemma RunOfOne(rs: seq<Region>, h: nat)
    requires h < |rs|
    ensures Used(rs[h..h + 1]) == (if rs[h].free then 0 else rs[h].size)
    ensures rs[h].start + Used(rs[h..h + 1]) + Holes(rs[h..h + 1]) == rs[h].End()
  {
    RunHead(rs, h, h + 1);
    assert rs[h + 1..h + 1] == [];
  }

  /** The hole left by release of region `i` covers the released block and its free neighbours, no more. */
  lemma RunSums(rs: seq<Region>, base: nat, i: nat)
    requires RegionsOk(rs, base) && i < |rs|
    ensures var h, j := RunStart(rs, i), RunEnd(rs, i);
            && Used(rs[h..j]) == (if rs[i].free then 0 else rs[i].size)
            && Hole(rs, h, j).End() == rs[j - 1].End()
            && Hole(rs, h, j).size > 0
  {
    var h, j := RunStart(rs, i), RunEnd(rs, i);
    if j == h + 1 {
      RunOfOne(rs, h);
    } else if j == h + 2 {
      RunOfTwo(rs, base, h);
    } else {
      RunHead(rs, h, j);
      RunOfTwo(rs, base, i);
      assert rs[i].start == rs[h].End();
    }
  }

  lemma ReleaseOk(rs: seq<Region>, base: nat, i: nat)
    requires RegionsOk(rs, base) && i < |rs|
    ensures RegionsOk(Release(rs, i), base)
  {
    var h, j := RunStart(rs, i), RunEnd(rs, i);
    RunSums(rs, base, i);
    PieceTake(rs, base, h);
    BeforeRunUsed(rs, i);
    if j < |rs| {
      var hole := [Hole(rs, h, j)];
      assert rs[j].start == rs[j - 1].End();
      PieceDrop(rs, base, j);
      PieceConcat(rs[..h], hole, base);
      PieceConcat(rs[..h] + hole, rs[j..], base);
    }
  }

  /** A run is bounded by used regions. */
  lemma BeforeRunUsed(rs: seq<Region>, i: nat)
    requires NoTwoFree(rs) && LastUsed(rs) && i < |rs|
    ensures var h, j := RunStart(rs, i), RunEnd(rs, i);
            (h > 0 ==> !rs[h - 1].free) && (j < |rs| ==> !rs[j].free)
  {
  }

  /** The regions outside the run are the ones kept; inside it only the released one can be in use. */
  lemma RunSplits(rs: seq<Region>, base: nat, i: nat)
    requires RegionsOk(rs, base) && i < |rs|
    ensures var h, j := RunStart(rs, i), RunEnd(rs, i);
            && (forall r :: r in rs[..h] + rs[j..] ==> r in rs && r != rs[i])
            && (forall r :: r in rs && r != rs[i] && !r.free ==> r in rs[..h] + rs[j..])
  {
    var h, j := RunStart(rs, i), RunEnd(rs, i);
    forall r | r in rs[..h] + rs[j..]
      ensures r in rs && r != rs[i]
    {
      var m :| 0 <= m < |rs| && rs[m] == r && (m < h || j <= m);
      if r == rs[i] {
        StartUnique(rs, base, m, i);
      }
    }
    forall r | r in rs && r != rs[i] && !r.free
      ensures r in rs[..h] + rs[j..]
    {
      var m :| 0 <= m < |rs| && rs[m] == r;
      assert m < h || j <= m;
    }
  }

  /** Release takes exactly the released block out of those in use. */
  lemma ReleaseDropsOneBlock(rs: seq<Region>, base: nat, i: nat)
    requires RegionsOk(rs, base) && i < |rs|
    ensures Live(Release(rs, i)) == Live(rs) - {rs[i]}
  {
    var h, j := RunStart(rs, i), RunEnd(rs, i);
    RunSplits(rs, base, i);
    assert j == |rs| ==> rs[..h] + rs[j..] == rs[..h];
    assert forall r :: r in Release(rs, i) && !r.free <==> r in rs[..h] + rs[j..] && !r.free;
  }

  lemma SumsAround(rs: seq<Region>, h: nat, j: nat)
    requires h <= j <= |rs|
    ensures Used(rs) == Used(rs[..h]) + Used(rs[h..j]) + Used(rs[j..])
    ensures Holes(rs) == Holes(rs[..h]) + Holes(rs[h..j]) + Holes(rs[j..])
  {
    assert rs == rs[..h] + rs[h..j] + rs[j..];
    SumsSplit(rs[..h], rs[h..j], rs[j..]);
  }

  lemma ReleaseSums(rs: seq<Region>, base: nat, i: nat)
    requires RegionsOk(rs, base) && i < |rs|
    ensures Used(Release(rs, i)) + (if rs[i].free then 0 else rs[i].size) == Used(rs)
    ensures !rs[i].free && RunEnd(rs, i) < |rs| ==> Holes(Release(rs, i)) == Holes(rs) + rs[i].size
  {
    var h, j := RunStart(rs, i), RunEnd(rs, i);
    SumsAround(rs, h, j);
    RunSums(rs, base, i);
    if j < |rs| {
      SumsSplit(rs[..h], [Hole(rs, h, j)], rs[j..]);
      HoleSums(Hole(rs, h, j));
    } else {
      assert rs[j..] == [];
    }
  }

  lemma HoleSums(r: Region)
    requires r.free
    ensures Used([r]) == 0 && Holes([r]) == r.size
  {
    assert [r][1..] == [];
  }

  /** Releasing a region that is already free leaves the list alone. */
  lemma ReleaseFree(rs: seq<Region>, base: nat, i: nat)
    requires RegionsOk(rs, base) && i < |rs| && rs[i].free
    ensures Release(rs, i) == rs
  {
    assert RunStart(rs, i) == i && RunEnd(rs, i) == i + 1 < |rs|;
    assert rs[i..i + 1] == [rs[i]];
    assert Used([rs[i]]) == 0 && Holes([rs[i]]) == rs[i].size;
    assert rs == rs[..i] + [rs[i]] + rs[i + 1..];
  }

  // ----- The list is determined by the blocks in use -----

  lemma LiveTail(rs: seq<Region>, base: nat)
    requires RegionsOk(rs, base) && |rs| > 0
    ensures RegionsOk(rs[1..], rs[0].End())
    ensures Live(rs[1..]) == Live(rs) - (if rs[0].free then {} else {rs[0]})
  {
    assert rs == [rs[0]] + rs[1..];
    if rs[0] in rs[1..] {
      var j :| 0 <= j < |rs[1..]| && rs[1..][j] == rs[0];
      StartUnique(rs, base, 0, j + 1);
    }
  }

  lemma FirstLive(rs: seq<Region>, base: nat) returns (m: nat)
    requires RegionsOk(rs, base) && |rs| > 0
    ensures m == (if rs[0].free then 1 else 0) && m < |rs|
    ensures rs[m] in Live(rs)
    ensures forall r :: r in Live(rs) ==> rs[m].start <= r.start
  {
    m := if rs[0].free then 1 else 0;
    forall r | r in Live(rs)
      ensures rs[m].start <= r.start
    {
      var j :| 0 <= j < |rs| && rs[j] == r;
      if m < j {
        TilesOrdered(rs, base, m, j);
      }
    }
  }

  lemma EmptyWhenNoneLive(rs: seq<Region>, base: nat)
    requires RegionsOk(rs, base)
    ensures rs == [] <==> Live(rs) == {}
  {
    if rs != [] {
      assert rs[|rs| - 1] in Live(rs);
    }
  }

  /** Lists with the same blocks in use begin with the same region. */
  lemma SameFirst(a: seq<Region>, b: seq<Region>, base: nat)
    requires RegionsOk(a, base) && RegionsOk(b, base) && Live(a) == Live(b) && a != [] && b != []
    ensures a[0] == b[0]
  {
    var i := FirstLive(a, base);
    var j := FirstLive(b, base);
    assert a[i].start == b[j].start;
    var k :| 0 <= k < |b| && b[k] == a[i];
    StartUnique(b, base, j, k);
  }

  /** Coalescing is complete: two lists that satisfy the invariant over the same base and have the same
      blocks in use are the same list. */
  lemma {:induction false} Canonical(a: seq<Region>, b: seq<Region>, base: nat)
    requires RegionsOk(a, base) && RegionsOk(b, base) && Live(a) == Live(b)
    ensures a == b
  {
    if a == [] || b == [] {
      EmptyWhenNoneLive(a, base);
      EmptyWhenNoneLive(b, base);
    } else {
      SameFirst(a, b, base);
      LiveTail(a, base);
      LiveTail(b, base);
      Canonical(a[1..], b[1..], a[0].End());
      assert a == [a[0]] + a[1..];
      assert b == [b[0]] + b[1..];
    }
  }

  /** Releasing a block just allocated restores the list, whatever was split or appended for it. */
  lemma ReleaseUndoesPlace(rs: seq<Region>, base: nat, size: nat, i: nat)
    requires RegionsOk(rs, base) && size > 0
    requires i < |Place(rs, base, size)| && Place(rs, base, size)[i] == Placed(rs, base, size)
    ensures Release(Place(rs, base, size), i) == rs
  {
    var ps := Place(rs, base, size);
    PlaceOk(rs, base, size);
    PlaceAddsOneBlock(rs, base, size);
    ReleaseOk(ps, base, i);
    ReleaseDropsOneBlock(ps, base, i);
    Canonical(Release(ps, i), rs, base);
  }

  /** Two releases give the same list in either order. */
  lemma ReleasesCommute(rs: seq<Region>, base: nat, x: Region, y: Region, i: nat, j: nat, i': nat, j': nat)
    requires RegionsOk(rs, base)
    requires i < |rs| && rs[i] == x && j < |rs| && rs[j] == y
    requires j' < |Release(rs, i)| && Release(rs, i)[j'] == y
    requires i' < |Release(rs, j)| && Release(rs, j)[i'] == x
    ensures Release(Release(rs, i), j') == Release(Release(rs, j), i')
  {
    ReleaseOk(rs, base, i);
    ReleaseOk(rs, base, j);
    ReleaseOk(Release(rs, i), base, j');
    ReleaseOk(Release(rs, j), base, i');
    ReleaseDropsOneBlock(rs, base, i);
    ReleaseDropsOneBlock(rs, base, j);
    ReleaseDropsOneBlock(Release(rs, i), base, j');
    ReleaseDropsOneBlock(Release(rs, j), base, i');
    assert Live(Release(Release(rs, i), j')) == Live(rs) - {x} - {y} == Live(rs) - {y} - {x};
    Canonical(Release(Release(rs, i), j'), Release(Release(rs, j), i'), base);
  }
}
