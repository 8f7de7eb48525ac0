/** Page arithmetic (src/kutils.h) and the unsigned word operations the allocator relies on. */
module Kutils {
  const PAGE_SHIFT: nat := 12
  const PAGE_SIZE: nat := 4096
  /** New VMAs are sized in units of two pages (src/generic_malloc.h). */
  const VMA_SHIFT: nat := PAGE_SHIFT + 1
  const WORD: nat := 0x1_0000_0000_0000_0000

  /** `1 << n`. */
  function Shl1(n: nat): (r: nat)
    ensures r >= 1
  {
    if n == 0 then 1 else 2 * Shl1(n - 1)
  }

  function AlignFloor(x: nat, shift: nat): (r: int) {
    if x % Shl1(shift) != 0 then x / Shl1(shift) * Shl1(shift) else x
  }

  function AlignCeil(x: nat, shift: nat): (r: int) {
    if x % Shl1(shift) != 0 then AlignFloor(x + Shl1(shift), shift) else x
  }

  ghost predicate MultipleOf(x: int, m: nat) {
    exists k: int :: x == k * m
  }

  lemma FloorDivision(x: nat, m: nat)
    requires m > 0
    ensures MultipleOf(x / m * m, m)
    ensures x / m * m <= x < x / m * m + m
    ensures x % m == 0 ==> x == x / m * m
  {
    assert x == x / m * m + x % m;
  }

  /** Two multiples of `m` are at least `m` apart. */
  lemma MultiplesApart(x: int, y: int, m: nat)
    requires m > 0 && MultipleOf(x, m) && MultipleOf(y, m) && x < y
    ensures x + m <= y
  {
    var i, j :| x == i * m && y == j * m;
    assert i < j by {
      assert j <= i ==> j * m <= i * m;
    }
    assert (i + 1) * m <= j * m;
  }

  lemma MultiplePlus(x: int, m: nat)
    requires MultipleOf(x, m)
    ensures MultipleOf(x + m, m)
  {
    var i :| x == i * m;
    assert x + m == (i + 1) * m;
  }

  /** `align_floor` yields the greatest multiple of the unit not above `x`. */
  lemma AlignFloorGreatest(x: nat, shift: nat)
    ensures MultipleOf(AlignFloor(x, shift), Shl1(shift))
    ensures AlignFloor(x, shift) <= x < AlignFloor(x, shift) + Shl1(shift)
    ensures forall y: int :: MultipleOf(y, Shl1(shift)) && y <= x ==> y <= AlignFloor(x, shift)
  {
    var m := Shl1(shift);
    FloorDivision(x, m);
    forall y: int | MultipleOf(y, m) && y <= x
      ensures y <= AlignFloor(x, shift)
    {
      if y > AlignFloor(x, shift) {
        MultiplesApart(AlignFloor(x, shift), y, m);
      }
    }
  }

  /** `align_ceil` yields the least multiple of the unit not below `x`. */
  lemma AlignCeilLeast(x: nat, shift: nat)
    ensures MultipleOf(AlignCeil(x, shift), Shl1(shift))
    ensures x <= AlignCeil(x, shift) < x + Shl1(shift)
    ensures forall y: int :: MultipleOf(y, Shl1(shift)) && x <= y ==> AlignCeil(x, shift) <= y
  {
    var m := Shl1(shift);
    var c := AlignCeil(x, shift);
    FloorDivision(x, m);
    AlignFloorGreatest(x + m, shift);
    if x % m != 0 {
      var q := x / m * m;
      MultiplePlus(q, m);
      if q + m < c {
        MultiplesApart(q + m, c, m);
        assert false;
      }
    }
    forall y: int | MultipleOf(y, m) && x <= y
      ensures c <= y
    {
      if y < c {
        MultiplesApart(y, c, m);
        assert false;
      }
    }
  }

  predicate Aligned(x: nat) {
    x % PAGE_SIZE == 0
  }

  /** `align_floor(x, PAGE_SHIFT)`. */
  function PageFloor(x: nat): (r: nat)
    ensures Aligned(r) && r <= x < r + PAGE_SIZE
  {
    x - x % PAGE_SIZE
  }

  /** `align_ceil(x, PAGE_SHIFT)`. */
  function PageCeil(x: nat): (r: nat)
    ensures Aligned(r) && x <= r < x + PAGE_SIZE
  {
    if x % PAGE_SIZE == 0 then x else PageFloor(x) + PAGE_SIZE
  }

  /** `align_ceil(x, VMA_SHIFT)`: in particular a whole number of pages. */
  function VmaCeil(x: nat): (r: nat)
    ensures Aligned(r) && r % 8192 == 0 && x <= r < x + 8192
  {
    PagePairs(x / 8192);
    PagePairs(x / 8192 + 1);
    if x % 8192 == 0 then x else x - x % 8192 + 8192
  }

  lemma PagePairs(n: nat)
    ensures Aligned(8192 * n) && 8192 * n % 8192 == 0
  {
    assert 8192 * n == 4096 * (2 * n);
  }

  lemma AlignFloorIs(x: nat, shift: nat, m: nat)
    requires m == Shl1(shift)
    ensures AlignFloor(x, shift) == x - x % m
  {
    assert x == x / m * m + x % m;
  }

  lemma AlignCeilIs(x: nat, shift: nat, m: nat)
    requires m == Shl1(shift)
    ensures AlignCeil(x, shift) == if x % m == 0 then x else x + m - (x + m) % m
  {
    if x % m != 0 {
      AlignFloorIs(x + m, shift, m);
    }
  }

  lemma Units()
    ensures Shl1(PAGE_SHIFT) == PAGE_SIZE && Shl1(VMA_SHIFT) == 2 * PAGE_SIZE
  {
  }

  /** The roundings to pages are those of the shift, and a page has 4096 bytes. */
  lemma PageRounding(x: nat)
    ensures PAGE_SIZE == Shl1(PAGE_SHIFT) == 4096
    ensures PageFloor(x) == AlignFloor(x, PAGE_SHIFT) && PageFloor(x) % 4096 == 0
    ensures PageCeil(x) == AlignCeil(x, PAGE_SHIFT) && PageCeil(x) % 4096 == 0
  {
    Units();
    AlignFloorIs(x, PAGE_SHIFT, PAGE_SIZE);
    AlignCeilIs(x, PAGE_SHIFT, PAGE_SIZE);
  }

  lemma VmaRounding(x: nat)
    ensures Shl1(VMA_SHIFT) == 8192
    ensures VmaCeil(x) == AlignCeil(x, VMA_SHIFT)
  {
    Units();
    AlignCeilIs(x, VMA_SHIFT, 2 * PAGE_SIZE);
  }

  lemma AlignedSum(x: nat, y: nat)
    requires Aligned(x) && Aligned(y)
    ensures Aligned(x + y)
    ensures x <= y ==> Aligned(y - x)
  {
  }

  lemma PageCeilLeast(x: nat, y: nat)
    requires Aligned(y) && x <= y
    ensures PageCeil(x) <= y
  {
  }

  lemma AlignedApart(x: nat, y: nat)
    requires Aligned(x) && Aligned(y) && x < y
    ensures x + PAGE_SIZE <= y
  {
  }

  /** Unsigned 64-bit subtraction and addition, with wrap-around. */
  function SubWord(x: nat, y: nat): (r: nat)
    requires x < WORD && y < WORD
    ensures r < WORD
  {
    if x >= y then x - y else x - y + WORD
  }

  function AddWord(x: nat, y: nat): (r: nat)
    requires x < WORD && y < WORD
    ensures r < WORD
  {
    if x + y < WORD then x + y else x + y - WORD
  }
}
