/**
 The steps that begin, complete and cancel a cycle, and the deferred reclamation of empty pages that follows completion.
 */
module GcCycle {
  import opened Basics
  import opened HeapModel
  import opened GcState
  import opened GcMark

  // ---------------------------------------------------------------- beginning and preparing

  function Begin(s: State): State {
    s.(epoch := s.epoch + 1, active := true, preparing := true, prepare := Cursor(0, 0), born := {}, late := {},
       work := s.work.(kernelDirty := {}, incoming := [], batch := []),
       walk := Walk(false, false, Cursor(0, 0), 0))
  }

  /** No bitmap of an earlier epoch is looked at in this one, and every page is ahead of the preparation cursor. */
  lemma BeginKeeps(s: State)
    requires Inv(s) && !s.active && !s.reclaiming
    ensures Inv(Begin(s)) && forall p <- s.heap.pages :: !Begin(s).Prepared(p)
  {
    hide HeapOk, ListsOk, Reclaim.Ok, SweepSound;
  }

  lemma PrepareNextList(s: State)
    requires InPause(s) && s.active && s.preparing && s.prepare.rest == 0 && s.prepare.slot < |s.lists|
    ensures InPause(s.(prepare := Cursor(s.prepare.slot + 1, |s.lists[s.prepare.slot]|)))
  {
    hide HeapOk, Reclaim.Ok, SweepSound, TriColour, MarksOk, BornOk, StackOk, QueuesOk, DirtyOk;
    var next := Cursor(s.prepare.slot + 1, |s.lists[s.prepare.slot]|);
    var s' := s.(prepare := next);
    assert s.lists[s.prepare.slot][0..] == s.lists[s.prepare.slot];
    assert PrepareOk(s') && MarksOk(s') && BornOk(s') by {
      SamePages(s, s');
    }
  }

  lemma SamePages(s: State, s': State)
    requires s'.heap == s.heap && s'.epochOf == s.epochOf && s'.epoch == s.epoch && s'.born == s.born && s'.late == s.late && s'.marked == s.marked
    ensures MarksOk(s) ==> MarksOk(s')
    ensures BornOk(s) ==> BornOk(s')
  {
  }

  lemma PrepareNextPage(s: State)
    requires InPause(s) && s.active && s.preparing && s.prepare.rest > 0 && s.prepare.Within(s.lists)
    requires s.Prepared(s.prepare.Page(s.lists))
    ensures InPause(s.(prepare := s.prepare.(rest := s.prepare.rest - 1)))
  {
    hide HeapOk, Reclaim.Ok, SweepSound, TriColour, MarksOk, BornOk, StackOk, QueuesOk, DirtyOk;
    var s' := s.(prepare := s.prepare.(rest := s.prepare.rest - 1));
    var list := s.lists[s.prepare.slot - 1];
    assert list[|list| - s.prepare.rest..] == [s.prepare.Page(s.lists)] + list[|list| - (s.prepare.rest - 1)..];
    SamePages(s, s');
    assert PrepareOk(s');
  }

  /** When the preparation cursor has run off the last list, every page of every list carries the current epoch. */
  lemma PrepareEnds(s: State)
    requires InPause(s) && s.active && s.preparing && s.prepare.rest == 0 && s.prepare.slot >= |s.lists|
    ensures InPause(s.(preparing := false)) && forall p <- s.heap.pages :: s.Prepared(p)
  {
    hide HeapOk, Reclaim.Ok, SweepSound, TriColour, MarksOk, BornOk, StackOk, QueuesOk, DirtyOk;
    SamePages(s, s.(preparing := false));
    assert PrepareOk(s.(preparing := false));
  }

  // ---------------------------------------------------------------- publication

  /** gc_call_finalizers: unmarked blocks of finalizer pages are gone once their finalizer has run. */
  function Finalized(h: Heap, marks: set<Block>): Heap {
    var dead := set b | b in h.mem && b !in marks && b.page in h.pages && h.pages[b.page].kind == MEM_KIND_FINALIZER;
    h.(mem := h.mem - dead, inUse := h.inUse - dead)
  }

  /** Every page awaits a sweep by these marks, finalizers have run, and empty pages are about to be given back. */
  function Publish(s: State, marks: set<Block>, budget: nat): State {
    s.(heap := Finalized(s.heap, marks), needFlush := s.heap.pages.Keys, published := marks,
       active := false, preparing := false, discovering := false, reclaiming := true, marked := {}, queued := {},
       work := Work([], None, 0, None, 0, [], [], s.work.kernelDirty),
       reclaim := Reclaim(0, NoLink, budget, 0))
  }

  lemma FinalizedKeepsHeap(h: Heap, marks: set<Block>)
    requires HeapOk(h) && forall b :: Reachable(Strong(h), b) ==> b in marks
    ensures HeapOk(Finalized(h, marks)) && SweepSound(Finalized(h, marks), h.pages.Keys, marks)
  {
    var h' := Finalized(h, marks);
    forall b | Reachable(Strong(h'), b) ensures Reachable(Strong(h), b) {
      SameWordsSameReach(h, h', b);
    }
  }

  /** Publishing marks that cover what the program holds starts a sound sweep, whatever the cycle's state was. */
  lemma PublishKeeps(s: State, marks: set<Block>, budget: nat)
    requires Safe(s) && forall b :: Reachable(Strong(s.heap), b) ==> b in marks
    ensures Inv(Publish(s, marks, budget))
  {
    hide HeapOk, ListsOk, SweepSound, Reachable;
    FinalizedKeepsHeap(s.heap, marks);
  }

  // ---------------------------------------------------------------- reclamation of empty pages

  /** The pages behind the saved link. */
  function Rest(s: State): nat
    requires s.reclaim.link != NoLink && 0 < s.reclaim.slot <= |s.lists|
  {
    if s.reclaim.link.Head? then |s.lists[s.reclaim.slot - 1]| else s.reclaim.link.rest
  }

  function LinkedPage(s: State): nat
    requires s.reclaim.link != NoLink && 0 < s.reclaim.slot <= |s.lists|
    requires 0 < Rest(s) <= |s.lists[s.reclaim.slot - 1]|
  {
    var list := s.lists[s.reclaim.slot - 1];
    list[|list| - Rest(s)]
  }

  /** No mark on the page, and nothing was allocated from it since the marks were published. */
  predicate EmptyPage(s: State, page: nat) {
    page in s.needFlush && forall b <- s.published :: b.page != page
  }

  function ReclaimMove(s: State, slot: nat, link: Link, retained: nat): State {
    s.(reclaim := s.reclaim.(slot := slot, link := link, retained := retained))
  }

  function WithoutPage(h: Heap, page: nat): Heap {
    var gone := set b | b in h.mem && b.page == page;
    h.(pages := h.pages - {page}, mem := h.mem - gone, inUse := h.inUse - gone)
  }

  /** Unlinks and frees the page behind the link. */
  function FreePage(s: State): State
    requires s.reclaim.link != NoLink && 0 < s.reclaim.slot <= |s.lists|
    requires 0 < Rest(s) <= |s.lists[s.reclaim.slot - 1]|
  {
    var page, list, at := LinkedPage(s), s.lists[s.reclaim.slot - 1], |s.lists[s.reclaim.slot - 1]| - Rest(s);
    s.(heap := WithoutPage(s.heap, page), lists := s.lists[s.reclaim.slot - 1 := list[..at] + list[at + 1..]],
       needFlush := s.needFlush - {page}, epochOf := s.epochOf - {page},
       reclaim := s.reclaim.(link := if s.reclaim.link.Head? then Head else After(Rest(s) - 1)))
  }

  lemma MoveKeeps(s: State, slot: nat, link: Link, retained: nat)
    requires Inv(s) && s.reclaim.(slot := slot, link := link, retained := retained).Ok(s.lists)
    ensures Inv(ReclaimMove(s, slot, link, retained))
  {
    hide HeapOk, ListsOk, SweepSound, Walk.Shape, TriColour, StackOk, QueuesOk, DirtyOk;
  }

  lemma FreeKeepsHeap(h: Heap, page: nat, needFlush: set<nat>, published: set<Block>)
    requires HeapOk(h) && SweepSound(h, needFlush, published) && page in needFlush
    requires forall b <- published :: b.page != page
    ensures HeapOk(WithoutPage(h, page)) && SweepSound(WithoutPage(h, page), needFlush - {page}, published)
  {
    var h' := WithoutPage(h, page);
    forall b | Reachable(Strong(h'), b) ensures Reachable(Strong(h), b) {
      SameWordsSameReach(h, h', b);
    }
  }

  lemma RemoveKeepsLists(lists: seq<seq<nat>>, pages: map<nat, PageInfo>, slot: nat, at: nat)
    requires ListsOk(lists, pages) && slot < |lists| && at < |lists[slot]|
    ensures ListsOk(lists[slot := lists[slot][..at] + lists[slot][at + 1..]], pages - {lists[slot][at]})
  {
    var list, page := lists[slot], lists[slot][at];
    var shorter := list[..at] + list[at + 1..];
    var lists' := lists[slot := shorter];
    assert Distinct(list);
    RemoveOne(list, at);
    forall p | p in pages && p != page ensures p in lists'[pages[p].slot] {
      assert p in lists[pages[p].slot];
    }
    forall s, i | 0 <= s < |lists'| && 0 <= i < |lists'[s]|
      ensures lists'[s][i] in pages && pages[lists'[s][i]].slot == s && lists'[s][i] != page
    {
      if s == slot {
        assert shorter[i] in list;
      } else {
        assert lists[s][i] in pages;
      }
    }
    forall s | 0 <= s < |lists'| ensures Distinct(lists'[s]) {
      assert Distinct(lists[s]);
    }
  }

  lemma RemoveOne(list: seq<nat>, at: nat)
    requires Distinct(list) && at < |list|
    ensures Distinct(list[..at] + list[at + 1..])
    ensures forall p :: p in list[..at] + list[at + 1..] <==> p in list && p != list[at]
  {
    var shorter := list[..at] + list[at + 1..];
    assert forall i :: 0 <= i < |shorter| ==> shorter[i] == if i < at then list[i] else list[i + 1];
    forall p | p in list && p != list[at] ensures p in shorter {
      var i :| 0 <= i < |list| && list[i] == p;
      assert shorter[if i < at then i else i - 1] == p;
    }
  }

  /**
   Giving back an empty page frees no object the program can reach, although mutators allocated since publication: an
   allocation sweeps its page first, and a swept page is no longer taken for empty.
   */
  lemma FreePageKeeps(s: State)
    requires Inv(s) && !s.active && s.reclaim.link != NoLink && Rest(s) > 0 && EmptyPage(s, LinkedPage(s))
    ensures Inv(FreePage(s))
  {
    hide HeapOk, ListsOk, SweepSound, Walk.Shape, Marking;
    FreeKeepsHeap(s.heap, LinkedPage(s), s.needFlush, s.published);
    RemoveKeepsLists(s.lists, s.heap.pages, s.reclaim.slot - 1, |s.lists[s.reclaim.slot - 1]| - Rest(s));
  }
}
