// The division of the pool's memory by ngx_slab_init: list heads, statistics, page
// descriptors, and then the pages.

module SlabArea {
  import opened MachineWords
  import opened SlabSlots
  import opened SlabBlocks

  // sizeof(ngx_slab_page_t) and sizeof(ngx_slab_stat_t)
  const PAGE_BYTES: nat := 24
  const STAT_BYTES: nat := 32

  // Where the page descriptors start.
  function Descriptors(pageShift: nat, minShift: nat, base: nat): nat
    requires minShift < pageShift
  {
    base + (pageShift - minShift) * (PAGE_BYTES + STAT_BYTES)
  }

  // The room left for pages and their descriptors has one of each at least.
  ghost predicate HasRoom(pageShift: nat, minShift: nat, base: nat, end: nat)
    requires minShift < pageShift
  {
    Descriptors(pageShift, minShift, base) + Pow2(pageShift) + PAGE_BYTES <= end
  }

  // The pages are aligned, after their descriptors and before the end; aligning them costs one
  // page at most.
  ghost predicate Fitted(pageShift: nat, p: nat, end: nat, start: nat, pages: nat) {
    var size, first := Pow2(pageShift), (end - p) / (Pow2(pageShift) + PAGE_BYTES);
    && p + first * PAGE_BYTES <= start < p + first * PAGE_BYTES + size && MultipleOf(start, size)
    && start + pages * size <= end
    && first - 1 <= pages <= first && (pages < first ==> end < start + first * size)
  }

  datatype Area = Area(start: nat, pages: nat)

  // The arithmetic of ngx_slab_init.
  function AreaOf(pageShift: nat, minShift: nat, base: nat, end: nat): (a: Area)
    requires minShift < pageShift && HasRoom(pageShift, minShift, base, end)
    ensures Fitted(pageShift, Descriptors(pageShift, minShift, base), end, a.start, a.pages)
  {
    hide MultipleOf, Pow2;
    var p := Descriptors(pageShift, minShift, base);
    var pages := (end - p) / (Pow2(pageShift) + PAGE_BYTES);
    var start := Align(p + pages * PAGE_BYTES, Pow2(pageShift));
    Room(Pow2(pageShift), p, end, pages, start);
    var m := pages - (end - start) / Pow2(pageShift);
    Area(start, if m > 0 then pages - m else pages)
  }

  lemma Room(size: nat, p: nat, end: nat, first: nat, start: nat)
    requires 0 < size && p + size + PAGE_BYTES <= end && first == (end - p) / (size + PAGE_BYTES)
    requires p + first * PAGE_BYTES <= start < p + first * PAGE_BYTES + size
    ensures 1 <= first && start <= end
    ensures
      var fits := (end - start) / size;
      && first - 1 <= fits && start + fits * size <= end && (fits < first ==> end < start + first * size)
      && (first <= fits ==> start + first * size <= end)
  {
    var fits := (end - start) / size;
    Quotient(end - p, size + PAGE_BYTES);
    AtLeastOne(end - p, size + PAGE_BYTES);
    Products(first, size);
    MulMonotone(1, first, size);
    assert end - start > first * size - size;
    Quotient(end - start, size);
    Products(fits, size);
    MulOrder(first - 1, fits + 1, size);
    if fits < first {
      MulMonotone(fits + 1, first, size);
    } else {
      MulMonotone(first, fits, size);
    }
  }

  lemma Products(q: nat, k: nat)
    ensures q * (k + PAGE_BYTES) == q * k + q * PAGE_BYTES
    ensures (q - 1) * k == q * k - k && (q + 1) * k == q * k + k
  {
  }

  lemma MulOrder(a: nat, b: nat, k: nat)
    requires a * k < b * k
    ensures a < b
  {
    if b <= a {
      MulMonotone(b, a, k);
    }
  }

  lemma Quotient(x: nat, k: nat)
    requires 0 < k
    ensures x / k * k <= x < x / k * k + k
  {
  }

  lemma RoomBelow(pageShift: nat, minShift: nat, base: nat, end: nat)
    requires minShift < pageShift && HasRoom(pageShift, minShift, base, end)
    ensures base <= Descriptors(pageShift, minShift, base) <= end
  {
  }

  // Such pages make a pool.
  lemma Usable(pageShift: nat, minShift: nat, p: nat, end: nat, start: nat, pages: nat)
    requires 6 <= pageShift <= 16 && minShift < pageShift && end < 0x1_0000_0000_0000_0000 && 0 < p
    requires Fitted(pageShift, p, end, start, pages) && p <= end
    ensures Sane(Geo(pageShift, minShift, start), pages) && PageAddr(Geo(pageShift, minShift, start), pages) <= end
  {
    hide Pow2;
    var q: nat :| start == q * Pow2(pageShift);
    Remainder(q, Pow2(pageShift));
  }

  lemma AtLeastOne(x: nat, k: nat)
    requires 0 < k <= x
    ensures 1 <= x / k
  {
  }

  lemma Remainder(q: nat, k: nat)
    requires 0 < k
    ensures q * k % k == 0
  {
    var d, r := q * k / k, q * k % k;
    assert q * k == d * k + r && (q - d) * k == r;
    if q > d {
      MulMonotone(1, q - d, k);
    }
  }
}
