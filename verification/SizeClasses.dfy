/**
 Size classes and page geometry: which partition serves a request, and how a new page is laid out behind its size table.
 The tables are those of a 64-bit build.
 */
module SizeClasses {
  import opened PageModel

  const GC_PAGE_SIZE: nat := 0x1_0000
  const GC_LARGE_BLOCK: nat := 0x10_0000
  const GC_FIXED_PARTS: nat := 5
  const GC_PARTITIONS: nat := 9
  const GC_SIZES: seq<nat> := [8, 16, 24, 32, 40, 8, 64, 0x2000, 0]
  const GC_ALIGN: nat := 8
  const GC_TLAB_RUN: nat := 2048
  const SIZES_PADDING: nat := 8

  datatype Class = Large(size: nat) | Fixed(part: nat, size: nat) | Var(part: nat, size: nat, blocks: nat) | Refused

  /** The next multiple. */
  function RoundUp(n: nat, m: nat): (r: nat)
    requires m > 0
    ensures n <= r < n + m && r % m == 0
  {
    RoundDown(n + m - 1, m);
    (n + m - 1) / m * m
  }

  lemma RoundDown(x: nat, m: nat)
    requires m > 0
    ensures x - m < x / m * m <= x && x / m * m % m == 0
  {
    assert x == x / m * m + x % m;
    var r, q := x / m * m % m, x / m * m / m;
    assert q * m + r == x / m * m;
    var k := x / m - q;
    assert k * m == r;
    assert k >= 1 ==> (k - 1) * m >= 0;
    assert k <= -1 ==> (-k - 1) * m >= 0;
  }

  /**
   gc_allocator_alloc: large requests get pages of their own, small ones without a finalizer a fixed-size class, and the
   rest the first variable-size class of fewer than 255 blocks. No request is refused, and none gets less than it asked.
   */
  method Classify(size: nat, finalizer: bool) returns (c: Class)
    requires size > 0
    ensures !c.Refused? && c.size >= size
    ensures c.Large? <==> RoundUp(size, GC_ALIGN) >= GC_LARGE_BLOCK
    ensures c.Large? ==> c.size % GC_PAGE_SIZE == 0 && c.size < size + GC_ALIGN + GC_PAGE_SIZE
    ensures c.Fixed? ==> !finalizer && c.part < GC_FIXED_PARTS && c.size == GC_SIZES[c.part] < size + GC_ALIGN
    ensures c.Var? ==> GC_FIXED_PARTS <= c.part < GC_PARTITIONS - 1 && c.size == c.blocks * GC_SIZES[c.part] && 0 < c.blocks <= 254
    ensures c.Fixed? <==> RoundUp(size, GC_ALIGN) <= GC_SIZES[GC_FIXED_PARTS - 1] && !finalizer
    ensures c.Var? ==> c.size < RoundUp(size, GC_ALIGN) + GC_SIZES[c.part] && c.size <= GC_LARGE_BLOCK
    ensures c.Var? ==> forall p :: GC_FIXED_PARTS <= p < c.part ==> RoundUp(RoundUp(size, GC_ALIGN), GC_SIZES[p]) >= GC_SIZES[p] * 255
  {
    var sz := RoundUp(size, GC_ALIGN);
    if sz >= GC_LARGE_BLOCK {
      return Large(RoundUp(sz, GC_PAGE_SIZE));
    }
    if sz <= GC_SIZES[GC_FIXED_PARTS - 1] && !finalizer {
      return Fixed(sz / GC_ALIGN - 1, GC_SIZES[sz / GC_ALIGN - 1]);
    }
    var p := GC_FIXED_PARTS;
    // The source's loop also ends after the last partition; the class of 0x2000-byte blocks takes all that get there.
    while true
      invariant GC_FIXED_PARTS <= p <= GC_PARTITIONS - 2 && 0 < sz < GC_LARGE_BLOCK && sz == RoundUp(size, GC_ALIGN)
      invariant forall q :: GC_FIXED_PARTS <= q < p ==> RoundUp(sz, GC_SIZES[q]) >= GC_SIZES[q] * 255
      decreases GC_PARTITIONS - p
    {
      var block := GC_SIZES[p];
      var query := RoundUp(sz, block);
      if query < block * 255 {
        BlocksOf(query, block);
        return Var(p, query, query / block);
      }
      p := p + 1;
    }
  }

  lemma BlocksOf(query: nat, block: nat)
    requires block in {8, 64, 0x2000} && query % block == 0 && 0 < query < block * 255
    ensures query == query / block * block && 0 < query / block <= 254
  {
    assert block == 8 || block == 64 || block == 0x2000;
  }

  function Doubled(size: nat, k: nat): (s: nat) {
    if k == 0 then size else 2 * Doubled(size, k - 1)
  }

  /** The smallest power of two of pages with room to spare. */
  ghost predicate FirstDoubling(psize: nat, size: nat, k: nat) {
    psize == Doubled(GC_PAGE_SIZE, k) && psize >= size + 1024 && (k > 0 ==> Doubled(GC_PAGE_SIZE, k - 1) < size + 1024)
  }

  /** The size of a new variable-size page before it is scaled up: a power of two of pages with room to spare. */
  method FirstPageSize(size: nat) returns (psize: nat)
    ensures psize >= size + 1024 && psize % GC_PAGE_SIZE == 0 && psize >= GC_PAGE_SIZE
    ensures psize == GC_PAGE_SIZE || psize < 2 * (size + 1024)
    ensures size + 1024 <= 0x20_0000 ==> psize <= 0x20_0000
    ensures exists k :: FirstDoubling(psize, size, k)
  {
    psize := GC_PAGE_SIZE;
    ghost var k: nat := 0;
    while psize < size + 1024
      invariant psize == Doubled(GC_PAGE_SIZE, k) && (k > 0 ==> Doubled(GC_PAGE_SIZE, k - 1) < size + 1024)
      invariant psize % GC_PAGE_SIZE == 0 && psize >= GC_PAGE_SIZE
      invariant psize == GC_PAGE_SIZE || psize < 2 * (size + 1024)
      invariant psize in {0x1_0000, 0x2_0000, 0x4_0000, 0x8_0000, 0x10_0000, 0x20_0000} || size + 1024 > 0x20_0000
    {
      psize := psize * 2;
      k := k + 1;
    }
    assert FirstDoubling(psize, size, k);
  }

  /** The first block behind the size table, which is kept in the header when it is short. */
  function FirstBlock(max: nat, block: nat, varsize: bool): nat
    requires block > 0 && (varsize ==> block in {8, 64, 0x2000})
  {
    if !varsize || max <= SIZES_PADDING then 0 else RoundUp(RoundUp(max, 64), block) / block
  }

  predicate BlockSize(block: nat) {
    block in {8, 16, 24, 32, 40, 64, 0x2000}
  }

  function Thirds(n: nat, k: nat): (r: nat) {
    if k == 0 then n else Thirds(n, k - 1) / 3
  }

  /** Pages of small blocks double for as long as a third, a ninth and so on of the list is still more than 8 pages. */
  ghost predicate Scaled(psize: nat, size: nat, block: nat, listed: nat, k: nat)
    requires block > 0
  {
    && psize == Doubled(size, k) && (forall j :: 0 <= j < k ==> Thirds(listed, j) > 8)
    && (if block < 256 then Thirds(listed, k) <= 8 || psize * 2 / block > GC_PAGE_SIZE else k == 0)
  }

  /**
   gc_allocator_new_page: pages of small blocks double in size as their list grows, never past the number of blocks a page
   may hold. Behind its size table the page has room for the request it is created for.
   */
  method NewPageLayout(block: nat, size: nat, varsize: bool, listed: nat, blocks: nat) returns (psize: nat, max: nat, first: nat)
    requires BlockSize(block) && (varsize ==> block in {8, 64, 0x2000})
    requires size >= GC_PAGE_SIZE && size % GC_PAGE_SIZE == 0 && size <= 0x20_0000
    requires 0 < blocks && (if varsize then blocks <= 254 && size >= blocks * block + 1024 else blocks <= GC_TLAB_RUN / block)
    requires block < 64 ==> size == GC_PAGE_SIZE
    ensures psize >= size && max == psize / block && max <= GC_PAGE_SIZE
    ensures first == FirstBlock(max, block, varsize) && first + blocks <= max && first < 0x8000
    ensures !varsize ==> first == 0 && blocks < max
    ensures exists k :: Scaled(psize, size, block, listed, k)
  {
    psize := ScaledSize(size, block, listed);
    max := psize / block;
    first := FirstBlock(max, block, varsize);
    LayoutFits(block, psize, varsize, blocks);
  }

  method ScaledSize(size: nat, block: nat, listed: nat) returns (psize: nat)
    requires BlockSize(block) && size >= GC_PAGE_SIZE && size % GC_PAGE_SIZE == 0 && size / block <= GC_PAGE_SIZE
    ensures psize >= size && psize % GC_PAGE_SIZE == 0 && psize / block <= GC_PAGE_SIZE
    ensures exists k :: Scaled(psize, size, block, listed, k)
  {
    psize := size;
    ghost var k: nat := 0;
    if block < 256 {
      var pages := listed;
      while pages > 8 && psize * 2 / block <= GC_PAGE_SIZE
        invariant psize >= size && psize % GC_PAGE_SIZE == 0 && psize / block <= GC_PAGE_SIZE
        invariant psize == Doubled(size, k) && pages == Thirds(listed, k) && forall j :: 0 <= j < k ==> Thirds(listed, j) > 8
        decreases pages
      {
        psize := psize * 2;
        pages := pages / 3;
        k := k + 1;
      }
    }
    assert Scaled(psize, size, block, listed, k);
  }

  lemma LayoutFits(block: nat, psize: nat, varsize: bool, blocks: nat)
    requires BlockSize(block) && (varsize ==> block in {8, 64, 0x2000})
    requires psize >= GC_PAGE_SIZE && psize % GC_PAGE_SIZE == 0 && psize / block <= GC_PAGE_SIZE
    requires 0 < blocks && (if varsize then blocks <= 254 && psize >= blocks * block + 1024 else blocks <= GC_TLAB_RUN / block)
    ensures var max := psize / block;
            var first := FirstBlock(max, block, varsize);
            first + blocks <= max && first < 0x8000 && (!varsize ==> blocks < max)
  {
    if !varsize {
      FixedFits(block, psize, blocks);
    } else if block == 8 {
      Fits8(psize, blocks);
    } else if block == 64 {
      Fits64(psize, blocks);
    } else {
      Fits8K(psize, blocks);
    }
  }

  lemma FixedFits(block: nat, psize: nat, blocks: nat)
    requires BlockSize(block) && psize >= GC_PAGE_SIZE && 0 < blocks <= GC_TLAB_RUN / block
    ensures blocks < psize / block && FirstBlock(psize / block, block, false) == 0
  {
  }

  lemma Fits8(psize: nat, blocks: nat)
    requires psize >= GC_PAGE_SIZE && psize % GC_PAGE_SIZE == 0 && psize / 8 <= GC_PAGE_SIZE
    requires 0 < blocks <= 254 && psize >= blocks * 8 + 1024
    ensures var first := FirstBlock(psize / 8, 8, true); first + blocks <= psize / 8 && first < 0x8000
  {
    assert psize / 8 % 64 == 0;
  }

  lemma Fits64(psize: nat, blocks: nat)
    requires psize >= GC_PAGE_SIZE && psize % GC_PAGE_SIZE == 0 && psize / 64 <= GC_PAGE_SIZE
    requires 0 < blocks <= 254 && psize >= blocks * 64 + 1024
    ensures var first := FirstBlock(psize / 64, 64, true); first + blocks <= psize / 64 && first < 0x8000
  {
    assert psize / 64 % 64 == 0;
  }

  lemma Fits8K(psize: nat, blocks: nat)
    requires psize >= GC_PAGE_SIZE && psize % GC_PAGE_SIZE == 0 && psize / 0x2000 <= GC_PAGE_SIZE
    requires 0 < blocks <= 254 && psize >= blocks * 0x2000 + 1024
    ensures var first := FirstBlock(psize / 0x2000, 0x2000, true); first + blocks <= psize / 0x2000 && first < 0x8000
  {
  }

  // ---------------------------------------------------------------- looking up a block

  /**
   gc_allocator_get_block_interior on a variable-size page: the object that a block belongs to, found by walking back over
   blocks without a size; -1 exactly when no object covers the block.
   */
  method BlockInterior(g: Grid, start: nat) returns (bid: int)
    requires Shape(g) && g.varsize
    ensures bid >= 0 ==> g.first <= bid <= start < g.max && g.sizes[bid] > 0 && start < bid + g.sizes[bid]
    ensures bid < 0 ==> forall b: nat :: g.first <= b < g.max && g.sizes[b] > 0 ==> !(b <= start < b + g.sizes[b])
  {
    if start >= g.max {
      CoveredInRange(g);
      return -1;
    }
    if start < g.first {
      return -1;
    }
    bid := start;
    while g.sizes[bid] == 0
      invariant g.first <= bid <= start && forall b: nat :: bid < b <= start ==> g.sizes[b] == 0
      decreases bid
    {
      if bid == g.first {
        return -1;
      }
      bid := bid - 1;
    }
    if start - bid >= g.sizes[bid] {
      NearestCovers(g, bid, start);
      return -1;
    }
  }

  lemma CoveredInRange(g: Grid)
    requires Shape(g) && g.varsize
    ensures forall b: nat :: g.first <= b < g.max && g.sizes[b] > 0 ==> b + g.sizes[b] <= g.max
  {
    hide RunsOk, Grid.Listed;
    forall b: nat | g.first <= b < g.max && g.sizes[b] > 0 ensures b + g.sizes[b] <= g.max {
      assert b + g.Extent(b) <= g.max;
    }
  }

  lemma NearestCovers(g: Grid, bid: nat, start: nat)
    requires Shape(g) && g.varsize && g.first <= bid <= start < g.max && g.sizes[bid] > 0 && start >= bid + g.sizes[bid]
    requires forall b: nat :: bid < b <= start ==> g.sizes[b] == 0
    ensures forall b: nat :: g.first <= b < g.max && g.sizes[b] > 0 ==> !(b <= start < b + g.sizes[b])
  {
    hide RunsOk, Grid.Listed;
    forall b: nat | g.first <= b < g.max && g.sizes[b] > 0 ensures !(b <= start < b + g.sizes[b]) {
      assert b < bid ==> b + g.Extent(b) <= bid;
    }
  }
}
