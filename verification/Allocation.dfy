/**
 Requests from the size they ask for to the blocks they get. The layout of a new page always has room for the request it
 is made for, so neither the refusal, nor the page with too many blocks, nor the empty or oversized run is ever met.
 */
module Allocation {
  import opened SizeClasses
  import opened Allocator

  /** One page list for each partition, with blocks of its size. */
  ghost predicate ListsOk(lists: seq<PageList>)
    reads lists
  {
    && |lists| == GC_PARTITIONS - 1
    && (forall p :: 0 <= p < |lists| ==>
          lists[p].Valid() && lists[p].block == GC_SIZES[p] && lists[p].varsize == (p >= GC_FIXED_PARTS))
    && (forall p, q :: 0 <= p < q < |lists| ==> lists[p] != lists[q])
  }

  /** The object is on one of the pages, and was not handed out before. */
  predicate NewObject(was: seq<Page>, pages: seq<Page>, k: nat, b: nat, n: nat) {
    && k < |pages| && b in pages[k].live && pages[k].live[b] == n
    && (k < |was| && !was[k].needFlush ==> b !in was[k].live)
  }

  /**
   A request for `size` bytes by thread `t`: a block of a small class from the thread's buffer, or an object of a
   variable-size class, on a page of the class's list and large enough. Large requests get pages of their own.
   */
  method Allocate(lists: seq<PageList>, t: nat, size: nat, finalizer: bool) returns (c: Class, k: nat, b: nat)
    requires ListsOk(lists) && size > 0
    modifies lists
    ensures ListsOk(lists) && !c.Refused? && c.size >= size
    ensures c.Large? || c.part < |lists|
    ensures c.Fixed? ==> lists[c.part].block == c.size && NewObject(old(lists[c.part].pages), lists[c.part].pages, k, b, 1)
    ensures c.Var? ==> lists[c.part].block * c.blocks == c.size && c.blocks <= 254
    ensures c.Var? ==> NewObject(old(lists[c.part].pages), lists[c.part].pages, k, b, c.blocks)
    ensures forall p :: 0 <= p < |lists| && (c.Large? || p != c.part) ==> unchanged(lists[p])
  {
    hide PageList.Valid, NewObject;
    c := Classify(size, finalizer);
    k, b := 0, 0;
    if c.Fixed? {
      k, b := AllocateFixed(lists[c.part], t, c.part);
    } else if c.Var? {
      k, b := AllocateVar(lists[c.part], c);
    }
  }

  /** The buffer is refilled with up to 2 KB of blocks. */
  method AllocateFixed(list: PageList, t: nat, part: nat) returns (k: nat, b: nat)
    requires list.Valid() && !list.varsize && part < GC_FIXED_PARTS && list.block == GC_SIZES[part]
    modifies list
    ensures list.Valid() && NewObject(old(list.pages), list.pages, k, b, 1)
  {
    assert list.block == 8 || list.block == 16 || list.block == 24 || list.block == 32 || list.block == 40;
    var _, max, first := NewPageLayout(list.block, GC_PAGE_SIZE, false, |list.pages|, GC_TLAB_RUN / list.block);
    k, b := list.TlabAlloc(t, GC_TLAB_RUN / list.block, first, max);
  }

  method AllocateVar(list: PageList, c: Class) returns (k: nat, b: nat)
    requires list.Valid() && list.varsize && c.Var? && VarClass(c) && list.block == GC_SIZES[c.part]
    modifies list
    ensures list.Valid() && NewObject(old(list.pages), list.pages, k, b, c.blocks)
  {
    var psize := FirstPageSize(c.size);
    VarPageFits(c, psize);
    var _, max, first := NewPageLayout(list.block, psize, true, |list.pages|, c.blocks);
    k, b := list.AllocVar(c.blocks, first, max);
  }

  predicate VarClass(c: Class)
    requires c.Var?
  {
    GC_FIXED_PARTS <= c.part < GC_PARTITIONS - 1 && c.size == c.blocks * GC_SIZES[c.part] && 0 < c.blocks <= 254
  }

  lemma VarPageFits(c: Class, psize: nat)
    requires c.Var? && VarClass(c)
    requires psize >= c.size + 1024 && psize >= GC_PAGE_SIZE && (psize == GC_PAGE_SIZE || psize < 2 * (c.size + 1024))
    requires c.size + 1024 <= 0x20_0000 ==> psize <= 0x20_0000
    ensures psize <= 0x20_0000 && (GC_SIZES[c.part] < 64 ==> psize == GC_PAGE_SIZE) && GC_SIZES[c.part] in {8, 64, 0x2000}
  {
    assert c.part == 5 || c.part == 6 || c.part == 7;
  }
}
