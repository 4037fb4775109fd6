/**
 The state of the incremental collector and its invariant.

 Everything a pause leaves behind when its deadline cuts it off is part of the state: the half-scanned block, the
 half-rescanned page, the half-walked kernel dirty map, the preparation cursor and the reclamation link.

 A pointer to a page header that walks a page list is represented by the number of pages from it to the end of the list.
 Lists only ever grow at the head while such a pointer is saved, so the number denotes the same page for as long as the
 pointer does.
 */
module GcState {
  import opened Basics
  import opened HeapModel

  /** One page of the operating system inside a page of the collector: the unit of the kernel's dirty bits. */
  datatype OsPage = OsPage(page: nat, index: nat)

  /** A saved walk of the page lists: the next list, and how many pages of the one before it are left. */
  datatype Cursor = Cursor(slot: nat, rest: nat)
  {
    predicate Within(lists: seq<seq<nat>>) {
      slot <= |lists| && (rest > 0 ==> slot > 0 && rest <= |lists[slot - 1]|)
    }

    function Page(lists: seq<seq<nat>>): nat
      requires Within(lists) && rest > 0
    {
      lists[slot - 1][|lists[slot - 1]| - rest]
    }

    /** The pages the walk has still to visit: a page of list `pageSlot`. */
    ghost predicate Ahead(lists: seq<seq<nat>>, page: nat, pageSlot: nat) {
      || slot <= pageSlot
      || (slot == pageSlot + 1 && slot <= |lists| && rest <= |lists[slot - 1]| &&
          page in lists[slot - 1][|lists[slot - 1]| - rest..])
    }
  }

  /** The walk of the kernel's dirty map: where it stopped, and whether it has already spanned a pause. */
  datatype Walk = Walk(running: bool, spanned: bool, at: Cursor, offset: nat)
  {
    ghost predicate Shape(pages: map<nat, PageInfo>, lists: seq<seq<nat>>) {
      && at.Within(lists)
      && (at.rest > 0 ==> at.Page(lists) in pages && offset < pages[at.Page(lists)].osPages)
      && (at.rest == 0 ==> offset == 0)
    }
  }

  /** Where deferred reclamation stopped: at a list head, or after a page with `rest` pages behind it. */
  datatype Link = NoLink | Head | After(rest: nat)

  datatype Reclaim = Reclaim(slot: nat, link: Link, budget: nat, retained: nat)
  {
    ghost predicate Ok(lists: seq<seq<nat>>) {
      && retained <= budget
      && slot <= |lists|
      && (link != NoLink ==> slot > 0)
      && (link.After? ==> link.rest <= |lists[slot - 1]|)
    }
  }

  /** The work marking has still to do: mark stack, block being scanned, page being rescanned, dirty pages. */
  datatype Work = Work(stack: seq<Block>, block: Option<Block>, cursor: nat, rescan: Option<nat>, rescanBid: nat,
                       batch: seq<nat>, incoming: seq<nat>, kernelDirty: set<OsPage>)
  {
    predicate Quiet() {
      stack == [] && block.None? && rescan.None? && batch == []
    }

    predicate KernelDirty(page: nat) {
      exists o <- kernelDirty :: o.page == page
    }

    /** Some of this work will still look at word `i` of block `a`. */
    predicate Pending(a: Block, i: nat) {
      || a in stack
      || (block == Some(a) && cursor <= i)
      || (rescan == Some(a.page) && rescanBid <= a.bid)
      || a.page in batch
      || a.page in incoming
      || KernelDirty(a.page)
    }
  }

  /** What appeared during the cycle: pages, and blocks of them or of others that carry no mark. */
  datatype Recent = Recent(born: set<nat>, late: set<Block>)

  /**
   `needFlush` are the pages whose lazy sweep is due and `epochOf` the last cycle each page was prepared for. The bits of
   a page's mark bitmap are in `marked` if the page is prepared for the current cycle and in `published` otherwise.
   `born` records the pages mapped since the cycle began, and `late` the blocks handed out without a mark since then.
   */
  datatype State = State(heap: Heap, lists: seq<seq<nat>>, needFlush: set<nat>, published: set<Block>,
                         epochOf: map<nat, nat>, epoch: nat,
                         active: bool, preparing: bool, discovering: bool, reclaiming: bool,
                         prepare: Cursor, marked: set<Block>, queued: set<Block>, work: Work, walk: Walk,
                         reclaim: Reclaim, born: set<nat>, late: set<Block>)
  {
    predicate Prepared(page: nat) {
      page in epochOf && epochOf[page] == epoch
    }

    function Since(): Recent {
      Recent(born, late)
    }
  }

  // ---------------------------------------------------------------- the invariant

  /** Every page is in exactly one place of exactly one list, the list of its slot. */
  ghost predicate ListsOk(lists: seq<seq<nat>>, pages: map<nat, PageInfo>) {
    && (forall s, i :: 0 <= s < |lists| && 0 <= i < |lists[s]| ==> lists[s][i] in pages && pages[lists[s][i]].slot == s)
    && (forall s :: 0 <= s < |lists| ==> Distinct(lists[s]))
    && (forall p <- pages :: pages[p].slot < |lists| && p in lists[pages[p].slot])
  }

  ghost predicate HeapOk(h: Heap) {
    && h.WellFormed()
    && NoDangling(h)
    && forall p <- h.pages :: h.pages[p].firstBlock <= h.pages[p].maxBlocks && h.pages[p].osPages > 0
  }

  /** A pending sweep is sound when it keeps everything the program can reach. */
  ghost predicate SweepSound(h: Heap, needFlush: set<nat>, published: set<Block>) {
    && needFlush <= h.pages.Keys
    && forall b :: Reachable(Strong(h), b) && b.page in needFlush ==> b in published
  }

  ghost predicate EpochsOk(s: State) {
    s.epochOf.Keys == s.heap.pages.Keys && forall p <- s.epochOf :: s.epochOf[p] <= s.epoch
  }

  /** What memory safety rests on, inside and outside cycles. */
  ghost predicate Safe(s: State) {
    && HeapOk(s.heap)
    && SweepSound(s.heap, s.needFlush, s.published)
    && ListsOk(s.lists, s.heap.pages)
    && EpochsOk(s)
    && s.reclaim.Ok(s.lists)
  }

  ghost predicate MarksOk(s: State) {
    forall b <- s.marked :: b in s.heap.mem && s.Prepared(b.page)
  }

  /** The queued bits are exactly the blocks on the mark stack and the one being scanned: none is stacked twice. */
  ghost predicate StackOk(h: Heap, marked: set<Block>, queued: set<Block>, work: Work) {
    && Distinct(work.stack)
    && (work.block.Some? ==> work.block.value !in work.stack)
    && (forall b :: b in queued <==> b in work.stack || work.block == Some(b))
    && (forall b <- queued :: b in marked && h.Traced(b) && b in h.mem)
    && (work.block.Some? ==> work.cursor <= |h.mem[work.block.value]|)
    && (work.rescan.Some? ==>
          && work.rescan.value in h.pages && h.pages[work.rescan.value].HasPtr()
          && h.pages[work.rescan.value].firstBlock <= work.rescanBid <= h.pages[work.rescan.value].maxBlocks)
  }

  /** A block of a page mapped during this cycle that was never handed out: zeroed memory the program holds no part of. */
  predicate Untouched(inUse: set<Block>, born: set<nat>, b: Block) {
    b.page in born && b !in inUse
  }

  /**
   A word of `a` that marking owes nothing although it names an unmarked block: the block is on a page mapped since the
   word was looked at, and is free, or was handed out without a mark while the program did not hold it through `a`.
   */
  ghost predicate Loose(h: Heap, recent: Recent, a: Block, w: Word) {
    && w.Ptr? && w.target.page in recent.born
    && (w.target in h.inUse ==> w.target in recent.late && !(w.held && Reachable(Strong(h), a)))
  }

  /** The word of `a` names no block that is still to be marked. */
  ghost predicate Settled(h: Heap, marked: set<Block>, recent: Recent, a: Block, w: Word) {
    w.Ptr? && !w.interior && w.target in h.mem ==> w.target in marked || Loose(h, recent, a, w)
  }

  /** A marked block names an unmarked one only through a word that some pending work will still look at, or a loose one. */
  ghost predicate TriColour(h: Heap, marked: set<Block>, recent: Recent, work: Work) {
    forall a, i :: a in marked && a in h.mem && h.Traced(a) && 0 <= i < |h.mem[a]| ==>
      Settled(h, marked, recent, a, h.mem[a][i]) || work.Pending(a, i)
  }

  ghost predicate BornOk(s: State) {
    && (forall p <- s.born :: s.Prepared(p))
    && (forall b <- s.heap.mem :: Untouched(s.heap.inUse, s.born, b) ==> AllBits(s.heap.mem[b]))
    && (forall b <- s.heap.inUse :: b.page in s.born ==> b in s.marked || b in s.late)
  }

  ghost predicate AllBits(words: seq<Word>) {
    forall i :: 0 <= i < |words| ==> words[i] == Bits
  }

  /** Every page not yet prepared is still ahead of the preparation cursor, and only such pages await a sweep. */
  ghost predicate PrepareOk(s: State) {
    && (!s.preparing ==> forall p <- s.heap.pages :: s.Prepared(p))
    && (s.preparing ==> s.prepare.Within(s.lists) &&
                        forall p <- s.heap.pages :: !s.Prepared(p) ==> s.prepare.Ahead(s.lists, p, s.heap.pages[p].slot))
    && (forall p <- s.needFlush :: !s.Prepared(p))
  }

  /** Pages wait in at most one of the two queues, and only if they can hold pointers. */
  ghost predicate QueuesOk(pages: map<nat, PageInfo>, incoming: seq<nat>, batch: seq<nat>) {
    && Distinct(incoming)
    && Distinct(batch)
    && (forall p <- incoming :: p !in batch && p in pages && pages[p].HasPtr())
    && (forall p <- batch :: p in pages && pages[p].HasPtr())
  }

  /** Stores hit the pages of the heap, between their first and last page of the operating system. */
  ghost predicate DirtyOk(pages: map<nat, PageInfo>, kernelDirty: set<OsPage>) {
    forall o <- kernelDirty :: o.page in pages && o.index < pages[o.page].osPages
  }

  ghost predicate Marking(s: State) {
    && MarksOk(s)
    && BornOk(s)
    && StackOk(s.heap, s.marked, s.queued, s.work)
    && TriColour(s.heap, s.marked, s.Since(), s.work)
    && PrepareOk(s)
    && QueuesOk(s.heap.pages, s.work.incoming, s.work.batch)
    && DirtyOk(s.heap.pages, s.work.kernelDirty)
  }

  ghost predicate Phases(s: State) {
    && (!s.active ==> s.marked == {} && s.queued == {} && !s.preparing && !s.discovering)
    && (s.active ==> !s.reclaiming)
    && (s.preparing ==> !s.discovering)
    && (!s.active || s.preparing || s.discovering ==> s.work.Quiet())
  }

  /** Holds throughout a pause. */
  ghost predicate InPause(s: State) {
    Safe(s) && Phases(s) && (s.active ==> Marking(s))
  }

  /** Holds whenever mutators run: a walk of the dirty map in progress has been recorded as spanning pauses. */
  ghost predicate Inv(s: State) {
    InPause(s) && (s.active && s.walk.running ==> s.walk.spanned && s.walk.Shape(s.heap.pages, s.lists))
  }
}
