/**
 Kernel write discovery: a resumable walk that reads the dirty bits of every pointer-bearing page, at most 256 pages of
 the operating system at a time, and queues the dirty ones; then the global clear that re-arms tracking.
 */
module GcTracking {
  import opened Basics
  import opened HeapModel
  import opened GcState
  import opened GcMutator

  const CHUNK: nat := 256

  /** The end of the chunk read from `offset`. */
  function ChunkEnd(info: PageInfo, offset: nat): nat
    requires offset <= info.osPages
  {
    if info.osPages - offset > CHUNK then offset + CHUNK else info.osPages
  }

  predicate ChunkDirty(kernelDirty: set<OsPage>, page: nat, from: nat, to: nat) {
    exists o <- kernelDirty :: o.page == page && from <= o.index < to
  }

  predicate Queued(work: Work, page: nat) {
    page in work.incoming || page in work.batch
  }

  predicate HasCurrent(s: State, at: Cursor, offset: nat)
  {
    at.Within(s.lists) && at.rest > 0 && at.Page(s.lists) in s.heap.pages &&
    offset < s.heap.pages[at.Page(s.lists)].osPages
  }

  predicate CurrentDirty(s: State, at: Cursor, offset: nat)
    requires HasCurrent(s, at, offset)
  {
    var page := at.Page(s.lists);
    var info := s.heap.pages[page];
    info.HasPtr() && ChunkDirty(s.work.kernelDirty, page, offset, ChunkEnd(info, offset))
  }

  /** Queues the current page if the chunk read from it is dirty. */
  function ReadChunk(s: State, at: Cursor, offset: nat): State
    requires HasCurrent(s, at, offset)
  {
    if CurrentDirty(s, at, offset) then Notify(s, at.Page(s.lists)) else s
  }

  /** Moves past the chunk: to the next page once the page is dirty, holds no pointers, or is read to its end. */
  function NextSpot(s: State, at: Cursor, offset: nat): (Cursor, nat)
    requires HasCurrent(s, at, offset)
  {
    var info := s.heap.pages[at.Page(s.lists)];
    var end := ChunkEnd(info, offset);
    if CurrentDirty(s, at, offset) || !info.HasPtr() || end >= info.osPages then (at.(rest := at.rest - 1), 0)
    else (at, end)
  }

  // ---------------------------------------------------------------- what a walk has found

  /** Every dirty bit of a pointer-bearing page belongs to a queued page or lies ahead of the walk. */
  ghost predicate Found(s: State, at: Cursor, offset: nat) {
    forall o <- s.work.kernelDirty :: o.page in s.heap.pages && s.heap.pages[o.page].HasPtr() ==>
      || Queued(s.work, o.page)
      || (at.Ahead(s.lists, o.page, s.heap.pages[o.page].slot) &&
          (at.Within(s.lists) && at.rest > 0 && o.page == at.Page(s.lists) ==> offset <= o.index))
  }

  /** The bits still in the kernel all belong to pages that are queued: clearing them all loses nothing. */
  ghost predicate AllDirtyQueued(s: State) {
    forall o <- s.work.kernelDirty :: o.page in s.heap.pages && s.heap.pages[o.page].HasPtr() ==> Queued(s.work, o.page)
  }

  /** Only pages with a dirty bit were queued. */
  predicate QueuedDirty(was: Work, work: Work) {
    forall p <- work.incoming :: p in was.incoming || was.KernelDirty(p)
  }

  lemma ReadChunkQueuesDirty(s: State, at: Cursor, offset: nat, was: Work)
    requires HasCurrent(s, at, offset) && QueuedDirty(was, s.work) && s.work.kernelDirty == was.kernelDirty
    ensures QueuedDirty(was, ReadChunk(s, at, offset).work)
  {
  }

  lemma WalkStarts(s: State)
    ensures Found(s, Cursor(0, 0), 0)
  {
  }

  lemma WalkNextList(s: State, at: Cursor)
    requires Found(s, at, 0) && at.Within(s.lists) && at.rest == 0 && at.slot < |s.lists|
    requires ListsOk(s.lists, s.heap.pages)
    ensures Found(s, Cursor(at.slot + 1, |s.lists[at.slot]|), 0)
  {
    var next := Cursor(at.slot + 1, |s.lists[at.slot]|);
    assert s.lists[at.slot][0..] == s.lists[at.slot];
    forall o | o in s.work.kernelDirty && o.page in s.heap.pages && s.heap.pages[o.page].HasPtr()
      ensures Queued(s.work, o.page) || next.Ahead(s.lists, o.page, s.heap.pages[o.page].slot)
    {
      assert Queued(s.work, o.page) || at.slot <= s.heap.pages[o.page].slot;
    }
  }

  lemma NotifyQueues(s: State, page: nat)
    ensures var s' := Notify(s, page);
            && s' == s.(work := s.work.(incoming := s'.work.incoming))
            && (forall p :: Queued(s.work, p) ==> Queued(s'.work, p))
            && (page in s.heap.pages && s.heap.pages[page].HasPtr() ==> Queued(s'.work, page))
  {
  }

  /** Leaving the current page leaves behind no other page. */
  lemma AheadAfterPage(lists: seq<seq<nat>>, at: Cursor, page: nat, slot: nat)
    requires at.Within(lists) && at.rest > 0 && at.Ahead(lists, page, slot) && page != at.Page(lists)
    ensures at.(rest := at.rest - 1).Ahead(lists, page, slot)
  {
    if slot < at.slot {
      var list := lists[at.slot - 1];
      assert list[|list| - at.rest..] == [at.Page(lists)] + list[|list| - (at.rest - 1)..];
    }
  }

  lemma ChunkLeavesBit(s: State, at: Cursor, offset: nat, o: OsPage)
    requires HasCurrent(s, at, offset) && DirtyOk(s.heap.pages, s.work.kernelDirty)
    requires Found(s, at, offset) && o in s.work.kernelDirty && s.heap.pages[o.page].HasPtr()
    requires !Queued(s.work, o.page) && !(CurrentDirty(s, at, offset) && o.page == at.Page(s.lists))
    requires forall p <- s.heap.pages :: s.heap.pages[p].osPages > 0
    ensures var (at', offset') := NextSpot(s, at, offset);
            && at'.Ahead(s.lists, o.page, s.heap.pages[o.page].slot)
            && (at'.rest > 0 && o.page == at'.Page(s.lists) ==> offset' <= o.index)
  {
    if o.page != at.Page(s.lists) {
      AheadAfterPage(s.lists, at, o.page, s.heap.pages[o.page].slot);
    }
  }

  /** One chunk: a dirty page is queued before the walk leaves it, a clean chunk is left behind. */
  lemma ReadChunkFinds(s: State, at: Cursor, offset: nat)
    requires HasCurrent(s, at, offset) && Found(s, at, offset) && DirtyOk(s.heap.pages, s.work.kernelDirty)
    requires forall p <- s.heap.pages :: s.heap.pages[p].osPages > 0
    ensures var (at', offset') := NextSpot(s, at, offset);
            Found(ReadChunk(s, at, offset), at', offset')
  {
    var s' := ReadChunk(s, at, offset);
    NotifyQueues(s, at.Page(s.lists));
    forall o | o in s.work.kernelDirty && s.heap.pages[o.page].HasPtr() && !Queued(s'.work, o.page)
      ensures var (at', offset') := NextSpot(s, at, offset);
              && at'.Ahead(s.lists, o.page, s.heap.pages[o.page].slot)
              && (at'.Within(s.lists) && at'.rest > 0 && o.page == at'.Page(s.lists) ==> offset' <= o.index)
    {
      ChunkLeavesBit(s, at, offset, o);
    }
  }

  lemma ReadChunkKeeps(s: State, at: Cursor, offset: nat)
    requires InPause(s) && s.active && HasCurrent(s, at, offset)
    ensures var s' := ReadChunk(s, at, offset);
            var (at', offset') := NextSpot(s, at, offset);
            && InPause(s') && s' == s.(work := s.work.(incoming := s'.work.incoming))
            && at'.Within(s.lists) && at'.slot == at.slot && (at'.rest == 0 ==> offset' == 0)
            && (at'.rest > 0 ==> HasCurrent(s, at', offset'))
            && (at'.rest < at.rest || (at' == at && offset < offset'))
            && (Found(s, at, offset) ==> Found(s', at', offset'))
  {
    hide NoDangling, SweepSound, Reclaim.Ok, Phases, EpochsOk, Found, TriColour, StackOk, MarksOk, BornOk, PrepareOk, QueuesOk,
         DirtyOk;
    NotifyKeeps(s, at.Page(s.lists));
    NotifyQueues(s, at.Page(s.lists));
    if Found(s, at, offset) {
      ReadChunkFinds(s, at, offset);
    }
  }

  /** A walk that reached the end of the last list within one pause has queued every dirty page. */
  lemma WalkEnds(s: State, at: Cursor, offset: nat)
    requires Found(s, at, offset) && ListsOk(s.lists, s.heap.pages) && at.rest == 0 && at.slot >= |s.lists|
    ensures AllDirtyQueued(s)
  {
  }

  // ---------------------------------------------------------------- re-arming

  /** clear_refs and gc_dirty_capture_done: every kernel bit is cleared and the incoming pages become the batch. */
  function Rearmed(s: State): State {
    s.(discovering := false,
       work := s.work.(kernelDirty := {}, batch := s.work.incoming, incoming := []))
  }

  lemma RearmKeepsColours(h: Heap, marked: set<Block>, recent: Recent, work: Work)
    requires TriColour(h, marked, recent, work) && work.batch == []
    requires forall o <- work.kernelDirty :: o.page in h.pages && h.pages[o.page].HasPtr() ==> o.page in work.incoming
    ensures TriColour(h, marked, recent, work.(kernelDirty := {}, batch := work.incoming, incoming := []))
  {
    var work' := work.(kernelDirty := {}, batch := work.incoming, incoming := []);
    forall a, i | a in marked && a in h.mem && h.Traced(a) && 0 <= i < |h.mem[a]|
      ensures Settled(h, marked, recent, a, h.mem[a][i]) || work'.Pending(a, i)
    {
      assert Settled(h, marked, recent, a, h.mem[a][i]) || work.Pending(a, i);
    }
  }

  /** The global clear is safe exactly because every page it affects is queued: no write is forgotten. */
  lemma RearmKeeps(s: State)
    requires InPause(s) && s.active && !s.preparing && s.work.Quiet() && AllDirtyQueued(s)
    ensures InPause(Rearmed(s)) && Rearmed(s).work.incoming == [] && Rearmed(s).work.kernelDirty == {}
  {
    hide NoDangling, SweepSound, Reclaim.Ok, ListsOk, TriColour;
    RearmKeepsColours(s.heap, s.marked, s.Since(), s.work);
  }

  // ---------------------------------------------------------------- the walk saved in the state

  lemma ListedPage(s: State, c: Cursor)
    requires InPause(s) && c.Within(s.lists) && c.rest > 0
    ensures c.Page(s.lists) in s.heap.pages && s.heap.pages[c.Page(s.lists)].osPages > 0
  {
    hide NoDangling, SweepSound, Reclaim.Ok, Marking, Phases, EpochsOk;
  }

  lemma ListsFact(s: State)
    requires InPause(s)
    ensures ListsOk(s.lists, s.heap.pages) && NoDangling(s.heap)
  {
  }

  lemma WalkKeeps(s: State, walk: Walk)
    requires InPause(s)
    ensures InPause(s.(walk := walk))
    ensures forall at, offset :: Found(s, at, offset) <==> Found(s.(walk := walk), at, offset)
    ensures AllDirtyQueued(s) <==> AllDirtyQueued(s.(walk := walk))
  {
    hide HeapOk, SweepSound, ListsOk, Reclaim.Ok, TriColour, StackOk, QueuesOk, DirtyOk;
  }

  lemma DiscoveryWaits(s: State)
    requires InPause(s) && s.active && !s.preparing && s.work.Quiet()
    ensures InPause(s.(discovering := true))
  {
    hide HeapOk, SweepSound, ListsOk, Reclaim.Ok, TriColour, StackOk, QueuesOk, DirtyOk;
  }

  /** A walk in progress inside a pause. It vouches for what it left behind only while it has not spanned pauses. */
  ghost predicate Walking(s: State) {
    && InPause(s) && s.active && s.walk.running
    && s.walk.Shape(s.heap.pages, s.lists)
    && (!s.walk.spanned ==> Found(s, s.walk.at, s.walk.offset))
  }

  function WalkNext(s: State): State
    requires s.walk.at.slot < |s.lists|
  {
    s.(walk := s.walk.(at := Cursor(s.walk.at.slot + 1, |s.lists[s.walk.at.slot]|), offset := 0))
  }

  function WalkStep(s: State): State
    requires HasCurrent(s, s.walk.at, s.walk.offset)
  {
    var (at, offset) := NextSpot(s, s.walk.at, s.walk.offset);
    var read := ReadChunk(s, s.walk.at, s.walk.offset);
    read.(walk := s.walk.(at := at, offset := offset))
  }

  /** What is left to read of the current page. */
  function PageLeft(s: State): nat {
    if HasCurrent(s, s.walk.at, s.walk.offset) then s.heap.pages[s.walk.at.Page(s.lists)].osPages - s.walk.offset else 0
  }

  lemma WalkNextKeeps(s: State)
    requires Walking(s) && s.walk.at.rest == 0 && s.walk.at.slot < |s.lists|
    ensures Walking(WalkNext(s))
  {
    hide InPause, Found, ListsOk;
    var s' := WalkNext(s);
    ListsFact(s);
    if !s.walk.spanned {
      WalkNextList(s, s.walk.at);
    }
    WalkKeeps(s, s'.walk);
    if s'.walk.at.rest > 0 {
      ListedPage(s, s'.walk.at);
    }
  }

  lemma WalkStepKeeps(s: State)
    requires Walking(s) && s.walk.at.rest > 0
    ensures var s' := WalkStep(s);
            && Walking(s') && s' == s.(walk := s'.walk, work := s.work.(incoming := s'.work.incoming))
            && s'.walk.spanned == s.walk.spanned && s'.walk.at.slot == s.walk.at.slot
            && (s'.walk.at.rest < s.walk.at.rest || (s'.walk.at == s.walk.at && PageLeft(s') < PageLeft(s)))
  {
    hide InPause, Found;
    ReadChunkKeeps(s, s.walk.at, s.walk.offset);
    WalkKeeps(ReadChunk(s, s.walk.at, s.walk.offset), WalkStep(s).walk);
  }

  lemma WalkBegins(s: State)
    requires InPause(s) && s.active
    ensures Walking(s.(walk := Walk(true, false, Cursor(0, 0), 0)))
  {
    hide InPause;
    WalkKeeps(s, Walk(true, false, Cursor(0, 0), 0));
  }

  lemma WalkSpans(s: State)
    requires Walking(s)
    ensures Walking(s.(walk := s.walk.(spanned := true)))
  {
    hide InPause, Found;
    WalkKeeps(s, s.walk.(spanned := true));
  }
}
