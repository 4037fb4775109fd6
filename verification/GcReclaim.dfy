/**
 What a collection does to the heap the program sees, and the account of empty pages: which of them reclamation gives
 back, and which it keeps for the allocations to come.
 */
module GcReclaim {
  import opened Basics
  import opened HeapModel
  import opened GcState
  import opened GcMutator
  import opened GcCycle

  // ---------------------------------------------------------------- what the program sees

  /** Blocks and pages may have gone; nothing else happened. */
  ghost predicate Shrunk(h: Heap, h': Heap) {
    && h'.roots == h.roots && h'.inUse <= h.inUse
    && (forall p <- h'.pages :: p in h.pages && h'.pages[p] == h.pages[p])
    && (forall b <- h'.mem :: b in h.mem && h'.mem[b] == h.mem[b])
  }

  lemma ShrunkAgain(h: Heap, h': Heap, h'': Heap)
    requires Shrunk(h, h') && Shrunk(h', h'')
    ensures Shrunk(h, h'')
  {
  }

  /** The program reaches the same blocks, and finds the same words in them. */
  ghost predicate SameView(h: Heap, h': Heap) {
    && h'.roots == h.roots
    && (forall b :: Reachable(Strong(h'), b) <==> Reachable(Strong(h), b))
    && (forall b :: Reachable(Strong(h), b) ==> b in h.mem && b in h'.mem && h'.mem[b] == h.mem[b])
  }

  /** If what the program reaches is in use before and after, it cannot tell that blocks have gone. */
  lemma ShrunkSameView(h: Heap, h': Heap)
    requires Shrunk(h, h') && HeapOk(h) && HeapOk(h')
    ensures SameView(h, h')
  {
    hide Reachable;
    forall b ensures Reachable(Strong(h'), b) <==> Reachable(Strong(h), b) {
      if Reachable(Strong(h), b) {
        StillReached(h, h', b);
      }
      if Reachable(Strong(h'), b) {
        ReachedBefore(h, h', b);
      }
    }
  }

  lemma StillReached(h: Heap, h': Heap, b: Block)
    requires Shrunk(h, h') && HeapOk(h') && Reachable(Strong(h), b)
    ensures Reachable(Strong(h'), b)
  {
    hide Reachable;
    var g, g' := Strong(h), Strong(h');
    var s := iset x | Reachable(g', x);
    forall x | x in g.roots ensures x in s {
      RootReachable(g', x);
    }
    forall e | e in g.edges && e.0 in s ensures e.1 in s {
      var i: nat :| HoldsAt(h, e.0, i, e.1);
      assert e.0 in h'.inUse;
      assert HoldsAt(h', e.0, i, e.1);
      EdgeReachable(g', e.0, e.1);
    }
    ReachableInClosed(g, s, b);
  }

  lemma ReachedBefore(h: Heap, h': Heap, b: Block)
    requires Shrunk(h, h') && Reachable(Strong(h'), b)
    ensures Reachable(Strong(h), b)
  {
    hide Reachable;
    var g, g' := Strong(h), Strong(h');
    var s := iset x | Reachable(g, x);
    forall x | x in g'.roots ensures x in s {
      RootReachable(g, x);
    }
    forall e | e in g'.edges && e.0 in s ensures e.1 in s {
      var i: nat :| HoldsAt(h', e.0, i, e.1);
      assert HoldsAt(h, e.0, i, e.1);
      EdgeReachable(g, e.0, e.1);
    }
    ReachableInClosed(g', s, b);
  }

  /** Blocks went only with a sweep that was due, and other sweeps that are due are as they were. */
  ghost predicate SweepsDue(s: State, s': State) {
    && Shrunk(s.heap, s'.heap) && s'.needFlush <= s.needFlush
    && (forall b: Block :: b.page in s'.needFlush ==> (b in s'.published <==> b in s.published))
    && (forall b <- s.heap.inUse :: b !in s'.heap.inUse ==> b.page in s.needFlush && b !in s.published)
  }

  lemma SweepsDueAgain(s: State, s': State, s'': State)
    requires SweepsDue(s, s') && SweepsDue(s', s'')
    ensures SweepsDue(s, s'')
  {
  }

  lemma FlushSweeps(s: State, page: nat)
    requires page in s.heap.pages
    ensures SweepsDue(s, FlushPage(s, page)) && page !in FlushPage(s, page).needFlush
  {
  }

  lemma PrepareSweeps(s: State, page: nat)
    requires page in s.heap.pages
    ensures SweepsDue(s, PreparePage(s, page))
  {
    hide FlushPage;
    FlushSweeps(s, page);
  }

  lemma FreePageSweeps(s: State)
    requires s.reclaim.link != NoLink && 0 < s.reclaim.slot <= |s.lists|
    requires 0 < Rest(s) <= |s.lists[s.reclaim.slot - 1]| && EmptyPage(s, LinkedPage(s))
    ensures SweepsDue(s, FreePage(s))
  {
  }

  // ---------------------------------------------------------------- what a collection leaves

  /**
   A collection by these marks: every page left awaits a sweep by them. A block in use that carries one stays; one that
   carries none has gone, with its page or by its finalizer, or goes when its page is swept.
   */
  ghost predicate Collected(h: Heap, s: State, marks: set<Block>) {
    && Shrunk(h, s.heap) && s.published == marks && s.needFlush == s.heap.pages.Keys
    && (forall b <- h.inUse :: b in marks ==> b in s.heap.inUse)
    && (forall b <- h.inUse :: b !in marks ==> b.page !in s.heap.pages || b !in FlushPage(s, b.page).heap.inUse)
    && (forall p, b <- h.inUse :: p in s.heap.pages && b in marks ==> b in FlushPage(s, p).heap.inUse)
  }

  lemma PublishedCollects(s: State, marks: set<Block>, budget: nat)
    ensures Collected(s.heap, Publish(s, marks, budget), marks)
  {
  }

  /** Reclamation takes from a published heap only blocks without marks. */
  lemma StillCollected(h: Heap, s: State, s': State, marks: set<Block>)
    requires Collected(h, s, marks) && Shrunk(s.heap, s'.heap) && s'.published == marks && s'.needFlush == s'.heap.pages.Keys
    requires forall b <- s.heap.inUse :: b in marks ==> b in s'.heap.inUse
    ensures Collected(h, s', marks)
  {
    hide FlushPage;
    ShrunkAgain(h, s.heap, s'.heap);
    forall p | p in s'.heap.pages
      ensures forall b :: b in FlushPage(s', p).heap.inUse <==> b in s'.heap.inUse && (b.page == p ==> b in marks)
      ensures p in s.heap.pages && forall b :: b in FlushPage(s, p).heap.inUse <==> b in s.heap.inUse && (b.page == p ==> b in marks)
    {
      FlushFrees(s', p);
      FlushFrees(s, p);
    }
  }

  lemma FlushFrees(s: State, p: nat)
    requires p in s.heap.pages && p in s.needFlush
    ensures forall b :: b in FlushPage(s, p).heap.inUse <==> b in s.heap.inUse && (b.page == p ==> b in s.published)
  {
  }

  // ---------------------------------------------------------------- the account of empty pages

  /** The place in the page lists that the saved link denotes. */
  function LinkAt(s: State): Cursor {
    match s.reclaim.link
    case NoLink => Cursor(s.reclaim.slot, 0)
    case Head => Cursor(s.reclaim.slot, if 0 < s.reclaim.slot <= |s.lists| then |s.lists[s.reclaim.slot - 1]| else 0)
    case After(rest) => Cursor(s.reclaim.slot, rest)
  }

  ghost predicate ToSee(s: State, page: nat)
    requires page in s.heap.pages
  {
    LinkAt(s).Ahead(s.lists, page, s.heap.pages[page].slot)
  }

  function Bytes(pages: map<nat, PageInfo>, kept: seq<nat>): (n: nat) {
    if kept == [] then 0
    else
      var last := kept[|kept| - 1];
      Bytes(pages, kept[..|kept| - 1]) + if last in pages then pages[last].size else 0
  }

  /**
   `kept` are the empty pages kept since the marks were published. What is counted as retained is their sizes, none is a
   large page, and every page that still is empty is one of them or will be looked at.
   */
  ghost predicate Accounted(s: State, kept: seq<nat>) {
    && s.reclaim.retained == Bytes(s.heap.pages, kept)
    && Distinct(kept)
    && (forall p <- kept :: p in s.heap.pages && !s.heap.pages[p].large && !ToSee(s, p))
    && (forall p <- s.heap.pages :: EmptyPage(s, p) ==> p in kept || ToSee(s, p))
  }

  /** Every empty page left is kept, and what is kept is within the budget. */
  ghost predicate Reclaimed(s: State, kept: seq<nat>) {
    && (forall p <- s.heap.pages :: EmptyPage(s, p) ==> p in kept)
    && Bytes(s.heap.pages, kept) <= s.reclaim.budget
    && (forall p <- kept :: p in s.heap.pages && !s.heap.pages[p].large)
  }

  /** A page that was given back was empty, and large or too large for what was left of the budget. */
  ghost predicate GivenBack(s: State, s': State) {
    forall p <- s.heap.pages :: p !in s'.heap.pages ==>
      EmptyPage(s, p) && (s.heap.pages[p].large || s.heap.pages[p].size + s'.reclaim.retained > s.reclaim.budget)
  }

  lemma GivenBackAgain(s: State, s': State, s'': State)
    requires SweepsDue(s, s') && GivenBack(s, s') && GivenBack(s', s'') && s'.published == s.published
    requires s'.reclaim.budget == s.reclaim.budget && s'.reclaim.retained <= s''.reclaim.retained
    ensures GivenBack(s, s'')
  {
    forall p | p in s.heap.pages && p in s'.heap.pages && p !in s''.heap.pages ensures EmptyPage(s, p) {
      assert EmptyPage(s', p);
    }
  }

  /** Some reclamation: nothing else changes, and every page given back was one to give back. */
  ghost predicate ReclaimedPart(s: State, s': State) {
    && s' == s.(heap := s'.heap, lists := s'.lists, needFlush := s'.needFlush, epochOf := s'.epochOf, reclaim := s'.reclaim)
    && |s'.lists| == |s.lists| && SweepsDue(s, s') && GivenBack(s, s')
    && s'.reclaim.budget == s.reclaim.budget && s.reclaim.retained <= s'.reclaim.retained
    && (s.needFlush == s.heap.pages.Keys ==> s'.needFlush == s'.heap.pages.Keys)
  }

  lemma NothingReclaimed(s: State)
    ensures ReclaimedPart(s, s)
  {
  }

  lemma ReclaimedPartly(s: State, s': State, s'': State)
    requires ReclaimedPart(s, s') && ReclaimedPart(s', s'')
    ensures ReclaimedPart(s, s'')
  {
    hide SweepsDue, GivenBack;
    SweepsDueAgain(s, s', s'');
    GivenBackAgain(s, s', s'');
  }

  lemma MovesOn(s: State, slot: nat, link: Link, retained: nat)
    requires s.reclaim.retained <= retained
    ensures ReclaimedPart(s, ReclaimMove(s, slot, link, retained))
  {
  }

  lemma FreesPart(s: State)
    requires Safe(s) && s.reclaim.link != NoLink && Rest(s) > 0 && LinkedPage(s) in s.heap.pages && EmptyPage(s, LinkedPage(s))
    requires s.heap.pages[LinkedPage(s)].large || s.heap.pages[LinkedPage(s)].size + s.reclaim.retained > s.reclaim.budget
    ensures ReclaimedPart(s, FreePage(s)) && Rest(FreePage(s)) < Rest(s)
    ensures FreePage(s).reclaim.slot == s.reclaim.slot && FreePage(s).reclaim.link != NoLink
  {
    hide HeapOk, ListsOk, SweepSound, EpochsOk, SweepsDue, EmptyPage;
    FreePageSweeps(s);
  }

  lemma PartlyCollected(h: Heap, s: State, s': State, marks: set<Block>)
    requires Collected(h, s, marks) && ReclaimedPart(s, s')
    ensures Collected(h, s', marks)
  {
    hide FlushPage, GivenBack;
    StillCollected(h, s, s', marks);
  }

  lemma {:induction false} SameBytes(pages: map<nat, PageInfo>, pages': map<nat, PageInfo>, kept: seq<nat>)
    requires forall p <- kept :: p in pages && p in pages' && pages'[p] == pages[p]
    ensures Bytes(pages', kept) == Bytes(pages, kept)
    decreases |kept|
  {
    if kept != [] {
      assert forall p <- kept[..|kept| - 1] :: p in kept;
      SameBytes(pages, pages', kept[..|kept| - 1]);
    }
  }

  lemma AccountBegins(s: State, marks: set<Block>, budget: nat)
    ensures Accounted(Publish(s, marks, budget), [])
  {
  }

  lemma AccountEnds(s: State, kept: seq<nat>)
    requires Safe(s) && Accounted(s, kept) && s.reclaim.link == NoLink && s.reclaim.slot >= |s.lists|
    ensures Reclaimed(s, kept)
  {
    hide HeapOk, SweepSound, EpochsOk, EmptyPage;
  }

  /** Going on to the next list, or leaving one at its end, passes no page. */
  lemma AccountAtEnds(s: State, slot: nat, link: Link, kept: seq<nat>)
    requires Safe(s) && Accounted(s, kept)
    requires if s.reclaim.link == NoLink then slot == s.reclaim.slot + 1 <= |s.lists| && link == Head
             else slot == s.reclaim.slot && link == NoLink && Rest(s) == 0
    ensures Accounted(ReclaimMove(s, slot, link, s.reclaim.retained), kept)
  {
    hide HeapOk, SweepSound, EpochsOk, EmptyPage, Bytes;
    var s' := ReclaimMove(s, slot, link, s.reclaim.retained);
    forall p | p in s.heap.pages ensures ToSee(s', p) <==> ToSee(s, p) {
      if s.reclaim.link == NoLink && s.heap.pages[p].slot == s.reclaim.slot {
        assert s.lists[slot - 1][0..] == s.lists[slot - 1];
      }
    }
    SameEmpty(s, s');
  }

  lemma SameEmpty(s: State, s': State)
    requires s'.needFlush == s.needFlush && s'.published == s.published
    ensures forall p :: EmptyPage(s', p) <==> EmptyPage(s, p)
  {
  }

  /** The page behind the link is the only one passed when the link moves over it. */
  lemma LinkPasses(s: State, p: nat)
    requires Safe(s) && s.reclaim.link != NoLink && Rest(s) > 0 && p in s.heap.pages
    ensures LinkedPage(s) in s.heap.pages && ToSee(s, LinkedPage(s))
    ensures Cursor(s.reclaim.slot, Rest(s) - 1).Ahead(s.lists, p, s.heap.pages[p].slot) <==> ToSee(s, p) && p != LinkedPage(s)
  {
    hide HeapOk, SweepSound, EpochsOk;
    assert Distinct(s.lists[s.reclaim.slot - 1]);
    NextBehind(s.lists[s.reclaim.slot - 1], |s.lists[s.reclaim.slot - 1]| - Rest(s));
  }

  lemma NextBehind(list: seq<nat>, at: nat)
    requires Distinct(list) && at < |list|
    ensures forall p :: p in list[at + 1..] <==> p in list[at..] && p != list[at]
  {
    assert list[at..] == [list[at]] + list[at + 1..];
  }

  /** The page behind the link is kept, or is not empty. */
  lemma AccountNext(s: State, keep: bool, kept: seq<nat>)
    requires Safe(s) && Accounted(s, kept) && s.reclaim.link != NoLink && Rest(s) > 0 && LinkedPage(s) in s.heap.pages
    requires if keep then !s.heap.pages[LinkedPage(s)].large else !EmptyPage(s, LinkedPage(s))
    ensures var page := LinkedPage(s);
            Accounted(ReclaimMove(s, s.reclaim.slot, After(Rest(s) - 1), s.reclaim.retained + if keep then s.heap.pages[page].size else 0),
                      if keep then kept + [page] else kept)
  {
    hide HeapOk, ListsOk, SweepSound, EpochsOk, EmptyPage, ToSee, LinkAt;
    var page := LinkedPage(s);
    var s' := ReclaimMove(s, s.reclaim.slot, After(Rest(s) - 1), s.reclaim.retained + if keep then s.heap.pages[page].size else 0);
    PassesOnly(s, s'.reclaim.retained);
    assert (kept + [page])[..|kept|] == kept;
    SameEmpty(s, s');
  }

  lemma PassesOnly(s: State, retained: nat)
    requires Safe(s) && s.reclaim.link != NoLink && Rest(s) > 0 && LinkedPage(s) in s.heap.pages
    ensures var s' := ReclaimMove(s, s.reclaim.slot, After(Rest(s) - 1), retained);
            forall p <- s.heap.pages :: ToSee(s', p) <==> ToSee(s, p) && p != LinkedPage(s)
    ensures ToSee(s, LinkedPage(s))
  {
    hide HeapOk, ListsOk, SweepSound, EpochsOk, Cursor.Ahead;
    forall p | p in s.heap.pages ensures ToSee(ReclaimMove(s, s.reclaim.slot, After(Rest(s) - 1), retained), p) <==> ToSee(s, p) && p != LinkedPage(s) {
      LinkPasses(s, p);
    }
    LinkPasses(s, LinkedPage(s));
  }

  /** The page behind the link is given back; it was not one of those kept. */
  lemma AccountFree(s: State, kept: seq<nat>)
    requires Safe(s) && Accounted(s, kept) && s.reclaim.link != NoLink && Rest(s) > 0 && LinkedPage(s) in s.heap.pages
    ensures Accounted(FreePage(s), kept)
  {
    hide HeapOk, ListsOk, SweepSound, EpochsOk, EmptyPage;
    var s', page := FreePage(s), LinkedPage(s);
    LinkPasses(s, page);
    forall p | p in s'.heap.pages ensures ToSee(s', p) <==> ToSee(s, p) {
      LinkPasses(s, p);
      FreedTail(s, p);
    }
    forall p | p in s'.heap.pages ensures EmptyPage(s', p) <==> EmptyPage(s, p) {
      EmptyStays(s, p);
    }
    SameBytes(s.heap.pages, s'.heap.pages, kept);
  }

  lemma EmptyStays(s: State, p: nat)
    requires Safe(s) && s.reclaim.link != NoLink && Rest(s) > 0 && p != LinkedPage(s)
    ensures EmptyPage(FreePage(s), p) <==> EmptyPage(s, p)
  {
    hide Safe;
  }

  /** What is left of the list behind the link is what was behind the page. */
  lemma FreedTail(s: State, p: nat)
    requires Safe(s) && s.reclaim.link != NoLink && Rest(s) > 0 && p in FreePage(s).heap.pages
    ensures ToSee(FreePage(s), p) <==> Cursor(s.reclaim.slot, Rest(s) - 1).Ahead(s.lists, p, s.heap.pages[p].slot)
  {
    hide HeapOk, ListsOk, SweepSound, EpochsOk;
    var s', list := FreePage(s), s.lists[s.reclaim.slot - 1];
    var at := |list| - Rest(s);
    var shorter := s'.lists[s.reclaim.slot - 1];
    assert shorter == list[..at] + list[at + 1..];
    assert shorter[at..] == list[at + 1..];
  }

  // ---------------------------------------------------------------- mutators leave the account right

  /** Sweeping pages and handing out blocks only makes fewer pages empty. */
  lemma AccountStays(s: State, s': State, kept: seq<nat>)
    requires Accounted(s, kept) && s'.lists == s.lists && s'.reclaim == s.reclaim && s'.heap.pages == s.heap.pages
    requires s'.needFlush <= s.needFlush && s.published <= s'.published
    ensures Accounted(s', kept)
  {
    assert forall p :: EmptyPage(s', p) ==> EmptyPage(s, p);
  }

  /** A page that is mapped does not await a sweep. */
  lemma AccountMaps(s: State, page: nat, info: PageInfo, words: nat, kept: seq<nat>)
    requires Safe(s) && Accounted(s, kept) && page !in s.heap.pages && info.slot < |s.lists|
    ensures Accounted(MapStep(s, page, info, words), kept)
  {
    hide HeapOk, SweepSound, EpochsOk, EmptyPage;
    var s' := MapStep(s, page, info, words);
    forall p | p in s.heap.pages ensures ToSee(s', p) <==> ToSee(s, p) {
      SeenAsBefore(s, page, info, words, p);
    }
    SameEmpty(s, s');
    NewIsNotEmpty(s, page);
    SameBytes(s.heap.pages, s'.heap.pages, kept);
  }

  lemma NewIsNotEmpty(s: State, page: nat)
    requires Safe(s) && page !in s.heap.pages
    ensures !EmptyPage(s, page)
  {
  }

  /** A list that grew at its head has the same pages behind a place in it. */
  lemma AheadAsBefore(lists: seq<seq<nat>>, slot: nat, page: nat, c: Cursor, p: nat, at: nat)
    requires slot < |lists| && c.Within(lists)
    ensures c.Ahead(lists[slot := [page] + lists[slot]], p, at) <==> c.Ahead(lists, p, at)
  {
    var lists' := lists[slot := [page] + lists[slot]];
    if c.slot == slot + 1 {
      SameTail(page, lists[slot], c.rest);
    } else if 0 < c.slot {
      assert lists'[c.slot - 1] == lists[c.slot - 1];
    }
  }

  lemma SameTail(page: nat, list: seq<nat>, rest: nat)
    requires rest <= |list|
    ensures ([page] + list)[|[page] + list| - rest..] == list[|list| - rest..]
  {
  }

  /** From its head, it has one more. */
  lemma HeadAsBefore(lists: seq<seq<nat>>, slot: nat, page: nat, p: nat, at: nat)
    requires slot < |lists| && p != page
    ensures Cursor(slot + 1, |lists[slot]| + 1).Ahead(lists[slot := [page] + lists[slot]], p, at)
       <==> Cursor(slot + 1, |lists[slot]|).Ahead(lists, p, at)
  {
    var list, list' := lists[slot], [page] + lists[slot];
    assert list'[0..] == list' && list[0..] == list;
  }

  lemma SeenAsBefore(s: State, page: nat, info: PageInfo, words: nat, p: nat)
    requires Safe(s) && page !in s.heap.pages && info.slot < |s.lists| && p in s.heap.pages
    ensures ToSee(MapStep(s, page, info, words), p) <==> ToSee(s, p)
  {
    hide HeapOk, SweepSound, EpochsOk, ListsOk, Cursor.Ahead;
    AheadAsBefore(s.lists, info.slot, page, LinkAt(s), p, s.heap.pages[p].slot);
    HeadAsBefore(s.lists, info.slot, page, p, s.heap.pages[p].slot);
  }
}
