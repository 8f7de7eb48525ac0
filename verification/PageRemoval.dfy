/** Which stored pages go when a region is released or a whole area closes (src/generic_malloc.c). */
module PageRemoval {
  import opened Kutils
  import opened Regions
  import opened StoredPages

  // ----- can_remove_page -----

  /** Walking back from region `i` to a used region; the first region when there is none. */
  function PrevSeen(rs: seq<Region>, i: nat): (p: nat)
    requires 0 < i < |rs|
    ensures p < i && (p > 0 ==> !rs[p].free)
    ensures forall j :: p < j < i ==> rs[j].free
  {
    if i == 1 || !rs[i - 1].free then i - 1 else PrevSeen(rs, i - 1)
  }

  /** Walking on from region `i` to a used region; the last region when there is none. */
  function NextSeen(rs: seq<Region>, i: nat): (n: nat)
    requires i + 1 < |rs|
    ensures i < n < |rs| && (n + 1 < |rs| ==> !rs[n].free)
    ensures forall j :: i < j < n ==> rs[j].free
    decreases |rs| - i
  {
    if i + 2 == |rs| || !rs[i + 1].free then i + 1 else NextSeen(rs, i + 1)
  }

  predicate CanRemove(address: nat, i: nat, rs: seq<Region>)
    requires i < |rs|
  {
    && (i > 0 ==> PageCeil(rs[PrevSeen(rs, i)].End()) <= address)
    && (i + 1 < |rs| ==> address + PAGE_SIZE <= PageFloor(rs[NextSeen(rs, i)].start))
  }

  method CanRemovePage(address: nat, i: nat, rs: seq<Region>) returns (ok: bool)
    requires i < |rs|
    ensures ok <==> CanRemove(address, i, rs)
  {
    if i != 0 {
      var prev := i - 1;
      while prev != 0 && rs[prev].free
        invariant 0 <= prev < i && PrevSeen(rs, prev + 1) == PrevSeen(rs, i)
      {
        prev := prev - 1;
      }
      var prevEnd := PageCeil(rs[prev].start + rs[prev].size);
      if prevEnd > address {
        return false;
      }
    }
    if i + 1 != |rs| {
      var next := i + 1;
      while next + 1 != |rs| && rs[next].free
        invariant i < next < |rs| && NextSeen(rs, next - 1) == NextSeen(rs, i)
      {
        next := next + 1;
      }
      var nextStart := PageFloor(rs[next].start);
      if nextStart < address + PAGE_SIZE {
        return false;
      }
    }
    return true;
  }

  predicate OnPage(r: Region, address: nat) {
    r.Overlaps(address, address + PAGE_SIZE)
  }

  /** A used region other than region `i` lies on the page. */
  ghost predicate Shared(address: nat, i: nat, rs: seq<Region>) {
    exists j :: 0 <= j < |rs| && j != i && !rs[j].free && OnPage(rs[j], address)
  }

  /** A page that may be removed holds no other used region, wherever that region is in the list. */
  lemma RemovableNotShared(address: nat, i: nat, rs: seq<Region>, base: nat)
    requires Tiles(rs, base) && i < |rs| && CanRemove(address, i, rs)
    ensures !Shared(address, i, rs)
  {
    forall j | 0 <= j < |rs| && j != i && !rs[j].free
      ensures !OnPage(rs[j], address)
    {
      if j < i {
        var p := PrevSeen(rs, i);
        assert j <= p;
        if j < p {
          TilesOrdered(rs, base, j, p);
        }
      } else {
        var n := NextSeen(rs, i);
        assert n <= j;
        if n < j {
          TilesOrdered(rs, base, n, j);
        }
      }
    }
  }

  /** `can_remove_page` on a page of the region being released: it says yes exactly when no other used
      region lies on the page, except that it keeps the page on which the region starts when all that
      precedes it is one free region on that page. */
  lemma CanRemoveExactly(address: nat, i: nat, rs: seq<Region>, base: nat)
    requires RegionsOk(rs, base) && i < |rs| && Aligned(address) && OnPage(rs[i], address)
    ensures CanRemove(address, i, rs) <==>
            !Shared(address, i, rs) && !(i == 1 && rs[0].free && address < rs[1].start)
  {
    assert |rs| > 1 ==> !(rs[0].free && rs[1].free);
    if CanRemove(address, i, rs) {
      RemovableNotShared(address, i, rs, base);
    } else if i > 0 && PageCeil(rs[PrevSeen(rs, i)].End()) > address {
      var p := PrevSeen(rs, i);
      assert rs[p].End() > address;
      TilesOrdered(rs, base, p, i);
      if rs[p].free {
        assert p == 0 && i == 1;
      } else {
        assert OnPage(rs[p], address);
      }
    } else {
      var n := NextSeen(rs, i);
      assert rs[n].start < address + PAGE_SIZE;
      TilesOrdered(rs, base, i, n);
      assert !rs[n].free;
      assert OnPage(rs[n], address);
    }
  }

  // ----- is_valid_address -----

  /** Whether a fault at `address` is accepted: a used region, widened to whole pages, contains it. */
  ghost predicate Accepts(rs: seq<Region>, address: nat) {
    exists r :: r in rs && !r.free && PageFloor(r.start) <= address < PageCeil(r.End())
  }

  method IsValidInRegions(rs: seq<Region>, address: nat) returns (ok: bool)
    ensures ok <==> Accepts(rs, address)
  {
    var i := 0;
    while i < |rs|
      invariant i <= |rs|
      invariant !Accepts(rs[..i], address)
    {
      var start := PageFloor(rs[i].start);
      var end := PageCeil(rs[i].start + rs[i].size);
      if address >= start && address < end && !rs[i].free {
        assert rs[i] in rs;
        return true;
      }
      assert rs[..i + 1] == rs[..i] + [rs[i]];
      i := i + 1;
    }
    assert rs[..i] == rs;
    return false;
  }

  /** A page is accepted exactly when a block in use lies on it. */
  lemma ValidIsOnPage(rs: seq<Region>, base: nat, address: nat)
    requires Tiles(rs, base) && Aligned(address)
    ensures Accepts(rs, address) <==> exists r :: r in Live(rs) && OnPage(r, address)
  {
    forall r | r in rs
      ensures PageFloor(r.start) <= address < PageCeil(r.End()) <==> OnPage(r, address)
    {
      var i :| 0 <= i < |rs| && rs[i] == r;
      PageSpan(r, address);
    }
    if Accepts(rs, address) {
      var r :| r in rs && !r.free && PageFloor(r.start) <= address < PageCeil(r.End());
      assert r in Live(rs) && OnPage(r, address);
    }
    if exists r :: r in Live(rs) && OnPage(r, address) {
      var r :| r in Live(rs) && OnPage(r, address);
      assert r in rs && !r.free;
    }
  }

  /** For a page address, lying between the rounded ends of a region is lying on a page of it. */
  lemma PageSpan(r: Region, address: nat)
    requires Aligned(address)
    ensures PageFloor(r.start) <= address <==> r.start < address + PAGE_SIZE
    ensures address < PageCeil(r.End()) <==> address < r.End()
  {
    if address < PageFloor(r.start) {
      AlignedApart(address, PageFloor(r.start));
    }
  }

  /** Faults are refused on every page dropped with a region, once the region is released. */
  lemma DroppedIsInvalid(rs: seq<Region>, base: nat, i: nat, address: nat)
    requires RegionsOk(rs, base) && i < |rs| && Aligned(address)
    requires CanRemove(address, i, rs)
    ensures !Accepts(Release(rs, i), address)
  {
    RemovableNotShared(address, i, rs, base);
    ReleaseOk(rs, base, i);
    ReleaseDropsOneBlock(rs, base, i);
    ValidIsOnPage(Release(rs, i), base, address);
    forall r | r in Live(Release(rs, i))
      ensures !OnPage(r, address)
    {
      var j :| 0 <= j < |rs| && rs[j] == r;
    }
  }

  // ----- remove_storage_pages -----

  /** What is stored: the index kept on this side and the pages held by the storage back end. */
  datatype Backing = Backing(index: seq<Key>, store: map<Key, Page>)

  /** The index has no duplicates and names exactly the keys held in storage, all of them pages. */
  ghost predicate BackingOk(b: Backing) {
    && NoDuplicates(b.index)
    && (forall k :: k in b.index <==> k in b.store)
    && (forall k :: k in b.store ==> Aligned(k.start))
  }

  function Drop(b: Backing, k: Key): Backing {
    Backing(Without(b.index, k), b.store - {k})
  }

  /** The pages of `[at, end)` that can be removed with region `i`, dropped one after the other. */
  function DropPages(b: Backing, pid: int, rs: seq<Region>, i: nat, at: nat, end: nat): Backing
    requires i < |rs|
    decreases end - at
  {
    if at >= end then b
    else
      var k := Key(pid, at);
      DropPages(if k in b.index && CanRemove(at, i, rs) then Drop(b, k) else b, pid, rs, i, at + PAGE_SIZE, end)
  }

  function DropRegion(b: Backing, pid: int, rs: seq<Region>, i: nat): Backing
    requires i < |rs|
  {
    DropPages(b, pid, rs, i, PageFloor(rs[i].start), PageCeil(rs[i].End()))
  }

  lemma DropOk(b: Backing, k: Key)
    requires BackingOk(b)
    ensures BackingOk(Drop(b, k))
    ensures forall x :: x in Drop(b, k).store <==> x in b.store && x != k
    ensures forall x :: x in Drop(b, k).store ==> Drop(b, k).store[x] == b.store[x]
  {
    WithoutIsRemoval(b.index, k);
  }

  /** The keys of `pid` in `[at, end)` that can go with region `i`. */
  predicate Goes(k: Key, pid: int, rs: seq<Region>, i: nat, at: nat, end: nat)
    requires i < |rs|
  {
    k.pid == pid && at <= k.start < end && CanRemove(k.start, i, rs)
  }

  lemma GoesFrom(k: Key, pid: int, rs: seq<Region>, i: nat, at: nat, end: nat)
    requires i < |rs| && Aligned(at) && Aligned(k.start) && at < end
    ensures Goes(k, pid, rs, i, at, end) <==>
            (k == Key(pid, at) && CanRemove(at, i, rs)) || Goes(k, pid, rs, i, at + PAGE_SIZE, end)
  {
    PagesFrom(at, end, k.start);
  }

  lemma {:induction false} DropPagesExactly(b: Backing, pid: int, rs: seq<Region>, i: nat, at: nat, end: nat)
    requires BackingOk(b) && i < |rs| && Aligned(at)
    ensures var d := DropPages(b, pid, rs, i, at, end);
            && BackingOk(d)
            && (forall k :: k in d.store <==> k in b.store && !Goes(k, pid, rs, i, at, end))
            && (forall k :: k in d.store ==> d.store[k] == b.store[k])
    decreases end - at
  {
    if at < end {
      var k := Key(pid, at);
      var c := if k in b.index && CanRemove(at, i, rs) then Drop(b, k) else b;
      DropOk(b, k);
      NextPage(at);
      DropPagesExactly(c, pid, rs, i, at + PAGE_SIZE, end);
      var d := DropPages(b, pid, rs, i, at, end);
      forall x
        ensures x in d.store <==> x in b.store && !Goes(x, pid, rs, i, at, end)
      {
        if x in b.store {
          GoesFrom(x, pid, rs, i, at, end);
        }
      }
    }
  }

  /** The pages from `at` on are the one at `at` and those a page further. */
  lemma PagesFrom(at: nat, end: nat, page: nat)
    requires Aligned(at) && Aligned(page) && at < end
    ensures at <= page < end <==> page == at || at + PAGE_SIZE <= page < end
  {
    if at < page {
      AlignedApart(at, page);
    }
  }

  /** What one release removes from storage: the pages of the region that no other used region lies on,
      save the first page of the region when only a free region on that page precedes it. */
  lemma DropRegionExactly(b: Backing, pid: int, rs: seq<Region>, base: nat, i: nat)
    requires BackingOk(b) && RegionsOk(rs, base) && i < |rs|
    ensures var d := DropRegion(b, pid, rs, i);
            && BackingOk(d)
            && (forall k :: k in d.store ==> k in b.store && d.store[k] == b.store[k])
            && (forall k :: k in b.store ==>
                 (k !in d.store <==> k.pid == pid && OnPage(rs[i], k.start) && !Shared(k.start, i, rs)
                                     && !(i == 1 && rs[0].free && k.start < rs[1].start)))
  {
    var at, end := PageFloor(rs[i].start), PageCeil(rs[i].End());
    DropPagesExactly(b, pid, rs, i, at, end);
    forall k | k in b.store
      ensures at <= k.start < end <==> OnPage(rs[i], k.start)
      ensures OnPage(rs[i], k.start) ==>
              (CanRemove(k.start, i, rs) <==>
               !Shared(k.start, i, rs) && !(i == 1 && rs[0].free && k.start < rs[1].start))
    {
      PageSpan(rs[i], k.start);
      if OnPage(rs[i], k.start) {
        CanRemoveExactly(k.start, i, rs, base);
      }
    }
  }

  /** Every page lying wholly inside the released region leaves storage. */
  lemma InnerPagesDropped(b: Backing, pid: int, rs: seq<Region>, base: nat, i: nat, k: Key)
    requires BackingOk(b) && RegionsOk(rs, base) && i < |rs|
    requires k.pid == pid && rs[i].start <= k.start && k.start + PAGE_SIZE <= rs[i].End()
    ensures k !in DropRegion(b, pid, rs, i).store
  {
    DropRegionExactly(b, pid, rs, base, i);
    forall j | 0 <= j < |rs| && j != i
      ensures !OnPage(rs[j], k.start)
    {
      if j < i {
        TilesOrdered(rs, base, j, i);
      } else {
        TilesOrdered(rs, base, i, j);
      }
    }
  }

  // ----- close_vma -----

  /** Regions deleted front to back, each after its pages. */
  function DropAll(b: Backing, pid: int, rs: seq<Region>): Backing
    decreases |rs|
  {
    if rs == [] then b else DropAll(DropRegion(b, pid, rs, 0), pid, rs[1..])
  }

  lemma PageFloorAbove(x: nat, page: nat)
    requires Aligned(page) && page <= x
    ensures page <= PageFloor(x)
  {
    if PageFloor(x) < page {
      AlignedApart(PageFloor(x), page);
    }
  }

  lemma NextPage(page: nat)
    requires Aligned(page)
    ensures Aligned(page + PAGE_SIZE)
  {
  }

  /** Nothing precedes the region at the front, so only what follows can keep a page of it. */
  lemma FrontRemovable(rs: seq<Region>, base: nat, page: nat)
    requires Tiles(rs, base) && |rs| > 0 && Aligned(page) && OnPage(rs[0], page)
    requires forall r :: r in rs[1..] ==> !OnPage(r, page)
    ensures CanRemove(page, 0, rs)
  {
    if |rs| > 1 {
      var n := NextSeen(rs, 0);
      assert rs[n] == rs[1..][n - 1] && rs[1..][n - 1] in rs[1..];
      TilesOrdered(rs, base, 0, n);
      NextPage(page);
      PageFloorAbove(rs[n].start, page + PAGE_SIZE);
    }
  }

  /** The region at the front of a list takes with it every page that no later region lies on. */
  lemma FrontDrops(b: Backing, pid: int, rs: seq<Region>, base: nat, k: Key)
    requires BackingOk(b) && Tiles(rs, base) && |rs| > 0
    requires k.pid == pid && k in b.store && OnPage(rs[0], k.start)
    requires forall r :: r in rs[1..] ==> !OnPage(r, k.start)
    ensures k !in DropRegion(b, pid, rs, 0).store
  {
    DropPagesExactly(b, pid, rs, 0, PageFloor(rs[0].start), PageCeil(rs[0].End()));
    PageSpan(rs[0], k.start);
    FrontRemovable(rs, base, k.start);
  }

  /** Closing an area leaves no stored page on which any of its regions lay, though a page shared by two
      regions outlives the deletion of the first. */
  lemma {:induction false} DropAllComplete(b: Backing, pid: int, rs: seq<Region>, base: nat)
    requires BackingOk(b) && Tiles(rs, base)
    ensures var d := DropAll(b, pid, rs);
            && BackingOk(d)
            && (forall k :: k in d.store ==> k in b.store && d.store[k] == b.store[k])
            && (forall k, r :: k in d.store && k.pid == pid && r in rs ==> !OnPage(r, k.start))
    decreases |rs|
  {
    if rs != [] {
      var c := DropRegion(b, pid, rs, 0);
      var d := DropAll(b, pid, rs);
      DropPagesExactly(b, pid, rs, 0, PageFloor(rs[0].start), PageCeil(rs[0].End()));
      TilesTail(rs, base);
      DropAllComplete(c, pid, rs[1..], rs[0].End());
      forall k, r | k in d.store && k.pid == pid && r in rs
        ensures !OnPage(r, k.start)
      {
        assert rs == [rs[0]] + rs[1..];
        if r !in rs[1..] && OnPage(r, k.start) {
          FrontDrops(b, pid, rs, base, k);
        }
      }
    }
  }

  /** It leaves every other page: those of other pids, and those on which no region of the area lay. */
  lemma {:induction false} DropAllSpares(b: Backing, pid: int, rs: seq<Region>, base: nat, k: Key)
    requires BackingOk(b) && Tiles(rs, base) && k in b.store
    requires k.pid != pid || forall r :: r in rs ==> !OnPage(r, k.start)
    ensures k in DropAll(b, pid, rs).store
    decreases |rs|
  {
    if rs != [] {
      DropPagesExactly(b, pid, rs, 0, PageFloor(rs[0].start), PageCeil(rs[0].End()));
      PageSpan(rs[0], k.start);
      assert rs[0] in rs;
      TilesTail(rs, base);
      DropAllSpares(DropRegion(b, pid, rs, 0), pid, rs[1..], rs[0].End(), k);
    }
  }
}
