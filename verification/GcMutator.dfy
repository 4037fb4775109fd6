/**
 What mutators do between pauses: load and store words, drop roots, allocate blocks and map pages. A store dirties the
 kernel's bit of the page it hits, and notifies the software barrier or not: native code stores without it.
 */
module GcMutator {
  import opened Basics
  import opened HeapModel
  import opened GcState

  // ---------------------------------------------------------------- steps

  /** The word a load brings into a register. Only a reference held in a traced block is one the program then holds. */
  function LoadedWord(h: Heap, b: Block, i: nat): Word
    requires b in h.mem && i < |h.mem[b]|
  {
    var w := h.mem[b][i];
    if w.Ptr? && w.held && (w.interior || !h.Traced(b)) then w.(held := false) else w
  }

  function WithRoots(s: State, roots: set<Word>): State {
    s.(heap := s.heap.(roots := roots))
  }

  /** gc_dirty_enqueue: a page enters the incoming queue once, until it is popped from the batch. */
  function Notify(s: State, page: nat): State {
    if page !in s.heap.pages || !s.heap.pages[page].HasPtr() || page in s.work.incoming || page in s.work.batch then s
    else s.(work := s.work.(incoming := [page] + s.work.incoming))
  }

  function Dirtied(s: State, page: nat, os: nat): State {
    s.(work := s.work.(kernelDirty := s.work.kernelDirty + {OsPage(page, os)}))
  }

  function StoreStep(s: State, b: Block, i: nat, w: Word, os: nat, barrier: bool): State
    requires b in s.heap.mem && i < |s.heap.mem[b]|
  {
    var d := Dirtied(s.(heap := Store(s.heap, b, i, w)), b.page, os);
    if barrier && s.active then Notify(d, b.page) else d
  }

  /** The lazy sweep of a page frees every block of it that is handed out and unmarked. */
  function Swept(h: Heap, page: nat, published: set<Block>): Heap
    requires page in h.pages
  {
    var dead := set b | b in h.inUse && b.page == page && b !in published;
    h.(inUse := h.inUse - dead, mem := if h.pages[page].varsize then h.mem - dead else h.mem)
  }

  /** Finishes the sweep the last collection left to do on a page. */
  function FlushPage(s: State, page: nat): State
    requires page in s.heap.pages
  {
    if page !in s.needFlush then s
    else s.(heap := Swept(s.heap, page, s.published), needFlush := s.needFlush - {page})
  }

  /** gc_inc_prepare_page: gives a page empty bitmaps for this cycle, after its earlier sweep, once. */
  function PreparePage(s: State, page: nat): State
    requires page in s.heap.pages
  {
    if s.Prepared(page) then s
    else
      var f := FlushPage(s, page);
      f.(published := (set b | b in f.published && b.page != page), epochOf := f.epochOf[page := f.epoch])
  }

  /** The page an allocation uses, swept and, during a cycle, prepared. */
  function ReadyPage(s: State, page: nat): State
    requires page in s.heap.pages
  {
    var f := FlushPage(s, page);
    if s.active then PreparePage(f, page) else f
  }

  /** The block is free on its page once the page is swept. On a fixed-size page it keeps its size. */
  predicate Servable(h: Heap, b: Block, words: seq<Word>) {
    && b.page in h.pages
    && b !in h.inUse
    && h.pages[b.page].firstBlock <= b.bid < h.pages[b.page].maxBlocks
    && (if h.pages[b.page].varsize then b !in h.mem else b in h.mem && |h.mem[b]| == |words|)
  }

  /** Hands out a block: black during a cycle, and its initialising stores dirty its page. */
  function HandoutStep(s: State, b: Block, words: seq<Word>, os: nat): State
    requires b.page in s.heap.pages
  {
    Dirtied(s.(heap := Handout(s.heap, b, words),
               marked := if s.active then s.marked + {b} else s.marked,
               published := if !s.active && s.heap.pages[b.page].varsize then s.published + {b} else s.published),
            b.page, os)
  }

  function BlocksOf(page: nat, info: PageInfo): set<Block> {
    set bid {:trigger Block(page, bid)} | info.firstBlock <= bid < info.maxBlocks :: Block(page, bid)
  }

  /** gc_allocator_new_page: a page joins its list at the head, born prepared during a cycle. */
  function MapStep(s: State, page: nat, info: PageInfo, words: nat): State
    requires info.slot < |s.lists|
  {
    var blocks := if info.varsize then map[] else map b | b in BlocksOf(page, info) :: seq(words, _ => Bits);
    s.(heap := s.heap.(pages := s.heap.pages[page := info], mem := s.heap.mem + blocks),
       lists := s.lists[info.slot := [page] + s.lists[info.slot]],
       epochOf := s.epochOf[page := if s.active then s.epoch else 0],
       born := if s.active then s.born + {page} else s.born)
  }

  // ---------------------------------------------------------------- memory safety

  lemma SweepKeepsHeap(h: Heap, page: nat, published: set<Block>, needFlush: set<nat>)
    requires HeapOk(h) && SweepSound(h, needFlush, published) && page in needFlush
    ensures HeapOk(Swept(h, page, published)) && SweepSound(Swept(h, page, published), needFlush - {page}, published)
  {
    var h' := Swept(h, page, published);
    forall b | Reachable(Strong(h'), b) ensures Reachable(Strong(h), b) {
      SameWordsSameReach(h, h', b);
    }
  }

  /** Only blocks of one page may have left the heap or been freed. */
  ghost predicate OnlyPageShrank(h: Heap, h': Heap, page: nat) {
    && h'.pages == h.pages
    && (forall b <- h'.mem :: b in h.mem && h'.mem[b] == h.mem[b])
    && (forall b <- h.mem :: b.page != page ==> b in h'.mem)
    && (forall b: Block :: b.page != page ==> (b in h'.inUse <==> b in h.inUse))
  }

  lemma SweptShrinks(h: Heap, page: nat, published: set<Block>)
    requires page in h.pages
    ensures OnlyPageShrank(h, Swept(h, page, published), page)
  {
  }

  lemma FlushKeepsSafe(s: State, page: nat)
    requires Safe(s) && page in s.heap.pages
    ensures Safe(FlushPage(s, page)) && OnlyPageShrank(s.heap, FlushPage(s, page).heap, page)
    ensures ReachesOnly(s.heap, FlushPage(s, page).heap, {}) && FlushPage(s, page).heap.inUse <= s.heap.inUse
  {
    hide HeapOk, SweepSound, ListsOk, Reclaim.Ok, Reachable;
    if page in s.needFlush {
      SweepKeepsHeap(s.heap, page, s.published, s.needFlush);
      SweptShrinks(s.heap, page, s.published);
      SweepReachesNoMore(s.heap, page, s.published, s.needFlush);
    }
  }

  lemma SweepReachesNoMore(h: Heap, page: nat, published: set<Block>, needFlush: set<nat>)
    requires HeapOk(h) && SweepSound(h, needFlush, published) && page in needFlush
    ensures ReachesOnly(h, Swept(h, page, published), {})
  {
    forall b | Reachable(Strong(Swept(h, page, published)), b) ensures Reachable(Strong(h), b) {
      SameWordsSameReach(h, Swept(h, page, published), b);
    }
  }

  /** Replacing the bitmap of a page whose sweep is done loses nothing a later sweep needs. */
  lemma ReplacedBitmap(h: Heap, page: nat, needFlush: set<nat>, published: set<Block>)
    requires SweepSound(h, needFlush, published) && page !in needFlush
    ensures SweepSound(h, needFlush, set b | b in published && b.page != page)
  {
  }

  /** The program reaches no block it did not reach before, but for the blocks named. */
  ghost predicate ReachesOnly(h: Heap, h': Heap, more: set<Block>) {
    forall x :: Reachable(Strong(h'), x) ==> Reachable(Strong(h), x) || x in more
  }

  /** A word stays settled when its target keeps its mark or its freedom and the program reaches no more. */
  lemma StaysSettled(h: Heap, h': Heap, marked: set<Block>, recent: Recent, recent': Recent, a: Block, w: Word)
    requires Settled(h, marked, recent, a, w) && ReachesOnly(h, h', {}) && recent.born <= recent'.born && recent.late <= recent'.late
    requires w.Ptr? && w.target in h'.mem ==> w.target in h.mem && (w.target in h'.inUse ==> w.target in h.inUse)
    ensures Settled(h', marked, recent', a, w)
  {
    hide Reachable;
  }

  /** A page that is not prepared yet carries no mark: sweeping it, and giving it bitmaps, concerns no marked block. */
  lemma UnpreparedKeepsColours(s: State, s': State, page: nat)
    requires MarksOk(s) && BornOk(s) && TriColour(s.heap, s.marked, s.Since(), s.work) && !s.Prepared(page)
    requires StackOk(s.heap, s.marked, s.queued, s.work) && s.work.Quiet()
    requires s' == s.(heap := s'.heap, needFlush := s'.needFlush, published := s'.published, epochOf := s'.epochOf)
    requires page in s.epochOf && (s'.epochOf == s.epochOf || s'.epochOf == s.epochOf[page := s.epoch])
    requires OnlyPageShrank(s.heap, s'.heap, page) && s'.heap.inUse <= s.heap.inUse && ReachesOnly(s.heap, s'.heap, {})
    ensures MarksOk(s') && BornOk(s') && TriColour(s'.heap, s'.marked, s'.Since(), s'.work)
    ensures StackOk(s'.heap, s'.marked, s'.queued, s'.work)
  {
    hide ReachesOnly, Reachable, Settled;
    forall a, i | a in s'.marked && a in s'.heap.mem && s'.heap.Traced(a) && 0 <= i < |s'.heap.mem[a]|
      ensures Settled(s'.heap, s'.marked, s'.Since(), a, s'.heap.mem[a][i]) || s'.work.Pending(a, i)
    {
      assert Settled(s.heap, s.marked, s.Since(), a, s.heap.mem[a][i]) || s.work.Pending(a, i);
      if Settled(s.heap, s.marked, s.Since(), a, s.heap.mem[a][i]) {
        StaysSettled(s.heap, s'.heap, s.marked, s.Since(), s.Since(), a, s.heap.mem[a][i]);
      }
    }
  }

  /** A page is prepared after its earlier sweep, and every page not yet prepared stays ahead of the cursor. */
  lemma PreparePageKeeps(s: State, page: nat)
    requires InPause(s) && s.active && page in s.heap.pages
    ensures var s' := PreparePage(s, page);
            && InPause(s') && s'.Prepared(page) && page !in s'.needFlush
            && s' == s.(heap := s'.heap, needFlush := s'.needFlush, published := s'.published, epochOf := s'.epochOf)
            && OnlyPageShrank(s.heap, s'.heap, page)
  {
    hide HeapOk, SweepSound, ListsOk, Reclaim.Ok, StackOk, TriColour, MarksOk, BornOk, QueuesOk, ReachesOnly;
    if !s.Prepared(page) {
      var f, s' := FlushPage(s, page), PreparePage(s, page);
      FlushKeepsSafe(s, page);
      ReplacedBitmap(f.heap, page, f.needFlush, f.published);
      UnpreparedKeepsColours(s, s', page);
      assert PrepareOk(s');
    }
  }

  // ---------------------------------------------------------------- roots

  lemma RootsKeep(s: State, roots: set<Word>)
    requires Inv(s) && forall w <- roots :: MayHold(s.heap, w)
    ensures Inv(WithRoots(s, roots))
  {
    hide ListsOk, Reclaim.Ok, Walk.Shape, Reachable, Marking;
    var h, h' := s.heap, s.heap.(roots := roots);
    forall b | Reachable(Strong(h'), b) ensures Reachable(Strong(h), b) {
      RootsReachNoMore(h, roots, b);
    }
    assert ReachesOnly(h, h', {});
    if s.active {
      RootsKeepMarking(s, roots);
    }
  }

  lemma RootsKeepMarking(s: State, roots: set<Word>)
    requires Marking(s) && ReachesOnly(s.heap, s.heap.(roots := roots), {})
    ensures Marking(WithRoots(s, roots))
  {
    hide QueuesOk, ReachesOnly, Settled;
    var h' := s.heap.(roots := roots);
    forall a, i | a in s.marked && a in h'.mem && h'.Traced(a) && 0 <= i < |h'.mem[a]|
      ensures Settled(h', s.marked, s.Since(), a, h'.mem[a][i]) || s.work.Pending(a, i)
    {
      assert Settled(s.heap, s.marked, s.Since(), a, s.heap.mem[a][i]) || s.work.Pending(a, i);
      if Settled(s.heap, s.marked, s.Since(), a, s.heap.mem[a][i]) {
        StaysSettled(s.heap, h', s.marked, s.Since(), s.Since(), a, s.heap.mem[a][i]);
      }
    }
  }

  lemma HeldRootReachable(h: Heap, w: Word)
    requires w in h.roots
    ensures MayHold(h, w)
  {
    if w.Ptr? && w.held {
      assert w == Ptr(w.target, w.interior, true);
      assert w.target in Strong(h).roots;
      RootReachable(Strong(h), w.target);
    }
  }

  /** A loaded reference is one the program could already reach, in a block that is in use. */
  lemma LoadKeeps(s: State, b: Block, i: nat)
    requires Inv(s) && RootHolds(s.heap, b) && b in s.heap.mem && i < |s.heap.mem[b]|
    ensures Inv(WithRoots(s, s.heap.roots + {LoadedWord(s.heap, b, i)}))
    ensures b in s.heap.inUse
  {
    hide Marking, ListsOk, SweepSound, Reclaim.Ok, Phases, Walk.Shape;
    var h, w := s.heap, LoadedWord(s.heap, b, i);
    assert b in Strong(h).roots;
    RootReachable(Strong(h), b);
    if w.Ptr? && w.held {
      assert HoldsAt(h, b, i, w.target);
      EdgeReachable(Strong(h), b, w.target);
    }
    forall v | v in h.roots ensures MayHold(h, v) {
      HeldRootReachable(h, v);
    }
    RootsKeep(s, h.roots + {w});
  }

  /** Dropping a root, or finding a word that looks like a pointer in a register, holds nothing new. */
  lemma RootChangeKeeps(s: State, roots: set<Word>)
    requires Inv(s) && forall w <- roots :: w in s.heap.roots || (w.Ptr? ==> !w.held)
    ensures Inv(WithRoots(s, roots))
  {
    hide Inv, Reachable;
    forall w | w in roots ensures MayHold(s.heap, w) {
      if w in s.heap.roots {
        HeldRootReachable(s.heap, w);
      }
    }
    RootsKeep(s, roots);
  }

  // ---------------------------------------------------------------- stores

  lemma DirtyPageIsPending(work: Work, page: nat, os: nat, a: Block, i: nat)
    ensures var work' := work.(kernelDirty := work.kernelDirty + {OsPage(page, os)});
            (work.Pending(a, i) ==> work'.Pending(a, i)) && (a.page == page ==> work'.Pending(a, i))
  {
    var work' := work.(kernelDirty := work.kernelDirty + {OsPage(page, os)});
    assert OsPage(page, os) in work'.kernelDirty;
  }

  /** A store may put any word anywhere: its page is dirty from then on. */
  lemma StoreKeepsMarking(s: State, b: Block, i: nat, w: Word, os: nat)
    requires Marking(s) && b in s.heap.inUse && b in s.heap.mem && i < |s.heap.mem[b]|
    requires b.page in s.heap.pages && os < s.heap.pages[b.page].osPages && ReachesOnly(s.heap, Store(s.heap, b, i, w), {})
    ensures Marking(Dirtied(s.(heap := Store(s.heap, b, i, w)), b.page, os))
  {
    hide QueuesOk, ReachesOnly, Settled;
    var s' := Dirtied(s.(heap := Store(s.heap, b, i, w)), b.page, os);
    assert s'.heap.mem.Keys == s.heap.mem.Keys;
    forall a, j: nat | a in s.marked && a in s'.heap.mem && s'.heap.Traced(a) && j < |s'.heap.mem[a]|
      ensures Settled(s'.heap, s.marked, s.Since(), a, s'.heap.mem[a][j]) || s'.work.Pending(a, j)
    {
      DirtyPageIsPending(s.work, b.page, os, a, j);
      assert Settled(s.heap, s.marked, s.Since(), a, s.heap.mem[a][j]) || s.work.Pending(a, j);
      if Settled(s.heap, s.marked, s.Since(), a, s.heap.mem[a][j]) && a != b {
        StaysSettled(s.heap, s'.heap, s.marked, s.Since(), s.Since(), a, s.heap.mem[a][j]);
      }
    }
  }

  lemma NotifyKeeps(s: State, page: nat)
    requires InPause(s) && s.active
    ensures InPause(Notify(s, page))
  {
    hide HeapOk, SweepSound, ListsOk, Reclaim.Ok, Settled;
    var s' := Notify(s, page);
    if s' != s {
      forall a, i | a in s.marked && a in s.heap.mem && s.heap.Traced(a) && 0 <= i < |s.heap.mem[a]|
        ensures Settled(s.heap, s.marked, s.Since(), a, s.heap.mem[a][i]) || s'.work.Pending(a, i)
      {
        assert Settled(s.heap, s.marked, s.Since(), a, s.heap.mem[a][i]) || s.work.Pending(a, i);
      }
    }
  }

  lemma StoreKeeps(s: State, b: Block, i: nat, w: Word, os: nat, barrier: bool)
    requires Inv(s) && RootHolds(s.heap, b) && b in s.heap.mem && i < |s.heap.mem[b]|
    requires w in s.heap.roots || (w.Ptr? ==> !w.held)
    requires b.page in s.heap.pages && os < s.heap.pages[b.page].osPages
    ensures Inv(StoreStep(s, b, i, w, os, barrier))
    ensures b in s.heap.inUse
  {
    hide Marking, ListsOk, Reclaim.Ok, Walk.Shape, Reachable;
    var h, h' := s.heap, Store(s.heap, b, i, w);
    var d := Dirtied(s.(heap := h'), b.page, os);
    assert b in Strong(h).roots;
    RootReachable(Strong(h), b);
    if w in h.roots {
      HeldRootReachable(h, w);
    }
    forall x | Reachable(Strong(h'), x) ensures Reachable(Strong(h), x) {
      StoreReachesNoMore(h, b, i, w, x);
    }
    assert ReachesOnly(h, h', {});
    if s.active {
      StoreKeepsMarking(s, b, i, w, os);
    }
    assert Inv(d);
    if s.active {
      NotifyKeeps(d, b.page);
    }
  }

  // ---------------------------------------------------------------- allocation

  /** Between pauses too, the page an allocation uses is swept, and prepared if a cycle is running. */
  lemma ReadyPageKeeps(s: State, page: nat)
    requires Inv(s) && page in s.heap.pages
    ensures var s' := ReadyPage(s, page);
            && Inv(s') && page !in s'.needFlush && (s.active ==> s'.Prepared(page))
            && s'.heap == FlushPage(s, page).heap
  {
    hide HeapOk, SweepSound, ListsOk, Reclaim.Ok, StackOk, TriColour, MarksOk, BornOk, QueuesOk, Walk.Shape, Swept;
    if s.active {
      PreparePageKeeps(s, page);
      assert ReadyPage(s, page) == PreparePage(s, page);
    } else {
      FlushKeepsSafe(s, page);
    }
  }

  /** The state after a block was handed out, with its mark or without. */
  ghost predicate HandedOut(s: State, s': State, b: Block, words: seq<Word>, os: nat) {
    && s' == s.(heap := Handout(s.heap, b, words), marked := s'.marked, late := s'.late, work := Dirtied(s, b.page, os).work)
    && ((s'.marked == s.marked + {b} && s'.late == s.late) || (s'.marked == s.marked && s'.late == s.late + {b}))
  }

  /** Words that named the free block on a new page are loose still: the program held none of them. */
  lemma HandoutSettles(s: State, s': State, b: Block, words: seq<Word>, os: nat, a: Block, j: nat)
    requires Marking(s) && HandedOut(s, s', b, words, os) && b !in s.heap.inUse && a != b
    requires ReachesOnly(s.heap, s'.heap, {b}) && NoDangling(s.heap)
    requires a in s.heap.mem && s.heap.Traced(a) && j < |s.heap.mem[a]| && Settled(s.heap, s.marked, s.Since(), a, s.heap.mem[a][j])
    requires b.page in s.heap.pages
    requires if s.heap.pages[b.page].varsize then b !in s.heap.mem && s'.marked == s.marked + {b} else b in s.heap.mem
    ensures Settled(s'.heap, s'.marked, s'.Since(), a, s'.heap.mem[a][j])
  {
    hide Reachable, TriColour, StackOk, QueuesOk, PrepareOk, DirtyOk, MarksOk, BornOk;
    var w := s.heap.mem[a][j];
    if w.Ptr? && w.held && !w.interior && w.target == b && Reachable(Strong(s.heap), a) {
      assert HoldsAt(s.heap, a, j, b);
      EdgeReachable(Strong(s.heap), a, b);
    }
  }

  /** The page of a new block is dirty: nothing it names is missed, and nothing that names it, if the program holds it. */
  lemma HandoutKeepsMarking(s: State, s': State, b: Block, words: seq<Word>, os: nat)
    requires Marking(s) && s.active && Servable(s.heap, b, words) && HandedOut(s, s', b, words, os)
    requires os < s.heap.pages[b.page].osPages && ReachesOnly(s.heap, s'.heap, {b}) && NoDangling(s.heap)
    requires b !in s'.marked ==> !s.heap.pages[b.page].varsize
    requires b in s'.marked ==> s.Prepared(b.page)
    ensures Marking(s')
  {
    hide QueuesOk, ReachesOnly, Settled, NoDangling;
    forall a, j: nat | a in s'.marked && a in s'.heap.mem && s'.heap.Traced(a) && j < |s'.heap.mem[a]|
      ensures Settled(s'.heap, s'.marked, s'.Since(), a, s'.heap.mem[a][j]) || s'.work.Pending(a, j)
    {
      DirtyPageIsPending(s.work, b.page, os, a, j);
      if a.page != b.page {
        assert Settled(s.heap, s.marked, s.Since(), a, s.heap.mem[a][j]) || s.work.Pending(a, j);
        if Settled(s.heap, s.marked, s.Since(), a, s.heap.mem[a][j]) {
          HandoutSettles(s, s', b, words, os, a, j);
        }
      }
    }
    assert StackOk(s'.heap, s'.marked, s'.queued, s'.work);
    assert BornOk(s');
  }

  lemma HandoutKeeps(s: State, b: Block, words: seq<Word>, os: nat)
    requires Inv(s) && Servable(s.heap, b, words) && Inert(words) && b.page !in s.needFlush
    requires os < s.heap.pages[b.page].osPages && (s.active ==> s.Prepared(b.page))
    ensures Inv(HandoutStep(s, b, words, os)) && (s.active ==> b in HandoutStep(s, b, words, os).marked)
  {
    hide Marking, ListsOk, Reclaim.Ok, Walk.Shape, Reachable;
    HandoutReaches(s.heap, b, words);
    if s.active {
      HandoutKeepsMarking(s, HandoutStep(s, b, words, os), b, words, os);
    }
  }

  lemma HandoutReaches(h: Heap, b: Block, words: seq<Word>)
    requires Inert(words)
    ensures ReachesOnly(h, Handout(h, b, words), {b})
  {
    forall x | Reachable(Strong(Handout(h, b, words)), x) ensures x == b || Reachable(Strong(h), x) {
      HandoutReachesOnlyIt(h, b, words, x);
    }
  }

  /**
   gc_tlab_alloc with an empty buffer. The thread looked whether a cycle is running before it waited for the lock; the
   block it takes from the refilled buffer gets no mark. The page is swept if that is due, but not prepared.
   */
  function RefillStep(s: State, b: Block, words: seq<Word>, os: nat): State
    requires b.page in s.heap.pages
  {
    Dirtied(s.(heap := Handout(s.heap, b, words), late := if s.active then s.late + {b} else s.late), b.page, os)
  }

  lemma RefillKeeps(s: State, b: Block, words: seq<Word>, os: nat)
    requires Inv(s) && Servable(s.heap, b, words) && Inert(words) && b.page !in s.needFlush
    requires os < s.heap.pages[b.page].osPages && !s.heap.pages[b.page].varsize
    ensures Inv(RefillStep(s, b, words, os))
  {
    hide Marking, ListsOk, Reclaim.Ok, Walk.Shape, Reachable;
    HandoutReaches(s.heap, b, words);
    if s.active {
      RefillKeepsMarking(s, b, words, os);
    }
  }

  lemma RefillKeepsMarking(s: State, b: Block, words: seq<Word>, os: nat)
    requires Marking(s) && s.active && Servable(s.heap, b, words) && !s.heap.pages[b.page].varsize
    requires os < s.heap.pages[b.page].osPages && ReachesOnly(s.heap, Handout(s.heap, b, words), {b}) && NoDangling(s.heap)
    ensures Marking(RefillStep(s, b, words, os))
  {
    hide TriColour, BornOk, PrepareOk, QueuesOk, DirtyOk, StackOk, ReachesOnly, NoDangling;
    HandoutKeepsMarking(s, RefillStep(s, b, words, os), b, words, os);
  }

  /** An allocation may sweep its page and leave it unprepared. */
  lemma FlushKeeps(s: State, page: nat)
    requires Inv(s) && page in s.heap.pages
    ensures Inv(FlushPage(s, page)) && page !in FlushPage(s, page).needFlush
  {
    hide HeapOk, SweepSound, ListsOk, Reclaim.Ok, StackOk, TriColour, MarksOk, BornOk, QueuesOk, Walk.Shape, ReachesOnly;
    FlushKeepsSafe(s, page);
    if s.active && page in s.needFlush {
      UnpreparedKeepsColours(s, FlushPage(s, page), page);
    }
  }

  // ---------------------------------------------------------------- new pages

  /** A cursor saved in a list denotes the same page after the list has grown at its head. */
  lemma PrependKeepsCursor(lists: seq<seq<nat>>, slot: nat, page: nat, c: Cursor)
    requires slot < |lists| && c.Within(lists)
    ensures var lists' := lists[slot := [page] + lists[slot]];
            && c.Within(lists')
            && (c.rest > 0 ==> c.Page(lists') == c.Page(lists))
            && forall p, at: nat :: c.Ahead(lists, p, at) ==> c.Ahead(lists', p, at)
  {
    var lists' := lists[slot := [page] + lists[slot]];
    if c.rest > 0 || c.slot == slot + 1 {
      var old_, new_ := lists[c.slot - 1], lists'[c.slot - 1];
      assert c.rest <= |old_| && new_[|new_| - c.rest..] == old_[|old_| - c.rest..];
    }
  }

  lemma PrependKeepsLists(lists: seq<seq<nat>>, pages: map<nat, PageInfo>, page: nat, info: PageInfo)
    requires ListsOk(lists, pages) && page !in pages && info.slot < |lists|
    ensures ListsOk(lists[info.slot := [page] + lists[info.slot]], pages[page := info])
  {
    var lists' := lists[info.slot := [page] + lists[info.slot]];
    forall s | 0 <= s < |lists'| ensures Distinct(lists'[s]) {
      assert Distinct(lists[s]);
    }
  }

  lemma MapKeepsMarking(s: State, page: nat, info: PageInfo, words: nat)
    requires Marking(s) && s.active && s.heap.WellFormed() && EpochsOk(s)
    requires page !in s.heap.pages && info.slot < |s.lists| && s.needFlush <= s.heap.pages.Keys
    requires ReachesOnly(s.heap, MapStep(s, page, info, words).heap, {})
    ensures Marking(MapStep(s, page, info, words))
  {
    hide TriColour, MarksOk, BornOk, StackOk, ReachesOnly;
    MapKeepsColours(s, page, info, words);
    if s.preparing {
      PrependKeepsCursor(s.lists, info.slot, page, s.prepare);
    }
  }

  lemma MapKeepsColours(s: State, page: nat, info: PageInfo, words: nat)
    requires MarksOk(s) && BornOk(s) && StackOk(s.heap, s.marked, s.queued, s.work)
    requires TriColour(s.heap, s.marked, s.Since(), s.work) && s.active && s.heap.WellFormed() && EpochsOk(s)
    requires page !in s.heap.pages && info.slot < |s.lists| && ReachesOnly(s.heap, MapStep(s, page, info, words).heap, {})
    ensures var s' := MapStep(s, page, info, words);
            && MarksOk(s') && BornOk(s') && StackOk(s'.heap, s'.marked, s'.queued, s'.work)
            && TriColour(s'.heap, s'.marked, s'.Since(), s'.work)
  {
    hide ReachesOnly, TriColour;
    MapKeepsTriColour(s, page, info, words);
  }

  lemma MapKeepsTriColour(s: State, page: nat, info: PageInfo, words: nat)
    requires MarksOk(s) && TriColour(s.heap, s.marked, s.Since(), s.work) && s.active && s.heap.WellFormed()
    requires page !in s.heap.pages && info.slot < |s.lists| && ReachesOnly(s.heap, MapStep(s, page, info, words).heap, {})
    ensures var s' := MapStep(s, page, info, words); TriColour(s'.heap, s'.marked, s'.Since(), s'.work)
  {
    hide ReachesOnly, Settled;
    var s' := MapStep(s, page, info, words);
    forall a, i | a in s'.marked && a in s'.heap.mem && s'.heap.Traced(a) && 0 <= i < |s'.heap.mem[a]|
      ensures Settled(s'.heap, s'.marked, s'.Since(), a, s'.heap.mem[a][i]) || s'.work.Pending(a, i)
    {
      assert Settled(s.heap, s.marked, s.Since(), a, s.heap.mem[a][i]) || s.work.Pending(a, i);
      if Settled(s.heap, s.marked, s.Since(), a, s.heap.mem[a][i]) {
        MapSettles(s, s', page, a, s.heap.mem[a][i]);
      }
    }
  }

  /** A word may hold an address in the new page: the blocks there are free. */
  lemma MapSettles(s: State, s': State, page: nat, a: Block, w: Word)
    requires Settled(s.heap, s.marked, s.Since(), a, w) && ReachesOnly(s.heap, s'.heap, {}) && s.heap.WellFormed()
    requires page !in s.heap.pages && page in s'.born && s.born <= s'.born && s'.late == s.late && s'.heap.inUse == s.heap.inUse
    requires forall b <- s'.heap.mem :: b in s.heap.mem || b.page == page
    ensures Settled(s'.heap, s.marked, s'.Since(), a, w)
  {
    hide Reachable;
  }

  lemma MapKeepsHeap(s: State, page: nat, info: PageInfo, words: nat)
    requires HeapOk(s.heap) && SweepSound(s.heap, s.needFlush, s.published)
    requires page !in s.heap.pages && info.slot < |s.lists| && info.firstBlock <= info.maxBlocks && info.osPages > 0
    ensures var h' := MapStep(s, page, info, words).heap;
            HeapOk(h') && SweepSound(h', s.needFlush, s.published) && ReachesOnly(s.heap, h', {})
  {
    hide Reachable;
    var h, h' := s.heap, MapStep(s, page, info, words).heap;
    forall x | Reachable(Strong(h'), x) ensures Reachable(Strong(h), x) {
      SameWordsSameReach(h, h', x);
    }
  }

  lemma MapKeeps(s: State, page: nat, info: PageInfo, words: nat)
    requires Inv(s) && page !in s.heap.pages && info.slot < |s.lists|
    requires info.firstBlock <= info.maxBlocks && info.osPages > 0
    ensures Inv(MapStep(s, page, info, words))
  {
    hide Marking, ListsOk, NoDangling, BlocksOf;
    MapKeepsHeap(s, page, info, words);
    PrependKeepsLists(s.lists, s.heap.pages, page, info);
    if s.active {
      MapKeepsMarking(s, page, info, words);
      if s.walk.running {
        PrependKeepsCursor(s.lists, info.slot, page, s.walk.at);
      }
    }
  }
}
