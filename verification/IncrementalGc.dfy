/**
 The incremental collector as the runtime drives it. The collector runs only in pauses (`Pause`), with every mutator
 stopped; mutators run between pauses. A hurried pause can be cut off by its deadline at any of the points where the source
 reads the clock: each such point is a nondeterministic choice here, and so is the failure of a system call.
 */
module IncrementalGc {
  import opened Basics
  import opened HeapModel
  import opened GcState
  import opened GcMutator
  import opened GcMark
  import opened GcTracking
  import opened GcCycle
  import opened GcReclaim
  import opened GcPrecise
  import opened GcEvents
  import GcOracle

  class Collector {
    /** What the types of a heap's objects tell a full collection to look at. */
    const types: Heap -> Lens
    var st: State
    /** The empty pages kept since marks were last published, and the blocks met since the cycle began. */
    ghost var kept: seq<nat>
    ghost var met: iset<Block>

    ghost predicate Good()
      reads this
    {
      Sound(st, met, kept)
    }

    /** Types cover the references the program holds now. */
    ghost predicate TypesOk()
      reads this
    {
      SeesHeld(st.heap, types(st.heap))
    }

    constructor (slots: nat, types: Heap -> Lens)
      ensures Good() && !st.active && !st.reclaiming && st.heap == Heap(map[], map[], {}, {}) && |st.lists| == slots && this.types == types
    {
      this.types, kept, met := types, [], iset{};
      st := State(Heap(map[], map[], {}, {}), seq(slots, _ => []), {}, {}, map[], 0, false, false, false, false,
                  Cursor(0, 0), {}, {}, Work([], None, 0, None, 0, [], [], {}), Walk(false, false, Cursor(0, 0), 0),
                  Reclaim(slots, NoLink, 0, 0), {}, {});
      new;
      EmptyHeapHoldsNothing(st.heap);
    }

    // ------------------------------------------------------------ preparation

    /** Prepares pages until all are ready or the deadline passes. One page is the indivisible unit. */
    method PrepareSlice(hurried: bool) returns (done: bool)
      requires InPause(st) && st.active && st.preparing && Precise(st, met)
      modifies this`st
      ensures InPause(st) && st.active && st.preparing && Precise(st, met) && SweepsDue(old(st), st)
      ensures !hurried ==> done
      ensures st.walk == old(st.walk) && st.lists == old(st.lists) && st.heap.pages == old(st.heap.pages)
      ensures done ==> st.prepare.rest == 0 && st.prepare.slot >= |st.lists|
    {
      hide InPause, Precise, SweepsDue, PreparePage;
      TracingFacts(st);
      NoSweepsDue(st);
      while st.prepare.rest > 0 || st.prepare.slot < |st.lists|
        invariant InPause(st) && st.active && st.preparing && st.prepare.Within(st.lists)
        invariant Precise(st, met) && SweepsDue(old(st), st)
        invariant st.walk == old(st.walk) && st.lists == old(st.lists) && st.heap.pages == old(st.heap.pages)
        decreases |st.lists| - st.prepare.slot, st.prepare.rest
      {
        if st.prepare.rest == 0 {
          PrepareNextList(st);
          CursorMoves(old(st), st, st.(prepare := Cursor(st.prepare.slot + 1, |st.lists[st.prepare.slot]|)), met);
          st := st.(prepare := Cursor(st.prepare.slot + 1, |st.lists[st.prepare.slot]|));
          if st.prepare.rest == 0 {
            continue;
          }
        }
        var page := st.prepare.Page(st.lists);
        ListedPage(st, st.prepare);
        PreparePageKeeps(st, page);
        PrepareMoves(old(st), st, page, met);
        st := PreparePage(st, page);
        PrepareNextPage(st);
        CursorMoves(old(st), st, st.(prepare := st.prepare.(rest := st.prepare.rest - 1)), met);
        st := st.(prepare := st.prepare.(rest := st.prepare.rest - 1));
        if hurried {
          if * {
            return false;
          }
        }
      }
      return true;
    }

    // ------------------------------------------------------------ tracing

    /** Visits every root word; roots are visited afresh in each pause. */
    method Roots()
      requires Tracing(st) && Precise(st, met)
      modifies this`st
      ensures Tracing(st) && Precise(st, met) && SameButMarks(old(st), st) && RootsMarked(st)
      ensures st.work == old(st.work).(stack := st.work.stack)
    {
      hide InPause, Precise;
      var todo := st.heap.roots;
      while todo != {}
        invariant Tracing(st) && Precise(st, met) && SameButMarks(old(st), st) && todo <= st.heap.roots
        invariant st.work == old(st.work).(stack := st.work.stack)
        invariant forall w <- st.heap.roots - todo :: w.Ptr? && w.target in st.heap.mem ==> w.target in st.marked
      {
        var w :| w in todo;
        VisitKeeps(st, w, true);
        VisitRootMeets(st, w, met);
        st := Visit(st, w, true);
        todo := todo - {w};
      }
    }

    /** Queues the marked blocks of every page of the batch, resuming where the last pause stopped. */
    method RescanDirty(hurried: bool) returns (clean: bool)
      requires Tracing(st)
      modifies this`st
      ensures Tracing(st) && SameButMarks(old(st), st) && st.marked == old(st.marked)
      ensures clean ==> st.work.rescan.None? && st.work.batch == []
      ensures !hurried ==> clean
    {
      hide InPause;
      while true
        invariant Tracing(st) && SameButMarks(old(st), st) && st.marked == old(st.marked)
        decreases |st.work.batch|, st.work.rescan.Some?
      {
        if st.work.rescan.None? {
          if st.work.batch == [] {
            return true;
          }
          PopDirtyKeeps(st);
          st := PopDirty(st);
        }
        TracingFacts(st);
        ghost var batch := st.work.batch;
        var page := st.work.rescan.value;
        while st.work.rescanBid < st.heap.pages[page].maxBlocks
          invariant Tracing(st) && SameButMarks(old(st), st) && st.marked == old(st.marked)
          invariant st.work.batch == batch && st.work.rescan == Some(page) && page in st.heap.pages
          decreases st.heap.pages[page].maxBlocks - st.work.rescanBid
        {
          RescanBlockKeeps(st);
          st := RescanBlock(st);
          if hurried {
            if * {
              return false;
            }
          }
        }
        RescanDoneKeeps(st);
        st := RescanDone(st);
        if hurried {
          if * {
            return false;
          }
        }
      }
    }

    /** Scans stacked blocks word by word, resuming in the middle of the block the last pause stopped in. */
    method Drain(hurried: bool) returns (done: bool)
      requires Tracing(st) && Precise(st, met)
      modifies this`st
      ensures Tracing(st) && Precise(st, met) && SameButMarks(old(st), st)
      ensures st.work.rescan == old(st.work.rescan) && st.work.batch == old(st.work.batch)
      ensures done ==> st.work.stack == [] && st.work.block.None?
      ensures !hurried ==> done
    {
      hide InPause, Precise, ScanWord;
      TracingFacts(st);
      while st.work.block.Some? || |st.work.stack| > 0
        invariant Tracing(st) && Precise(st, met) && SameButMarks(old(st), st) && st.marked <= st.heap.mem.Keys
        invariant st.work.rescan == old(st.work.rescan) && st.work.batch == old(st.work.batch)
        decreases st.heap.mem.Keys - st.marked, |st.work.stack| + if st.work.block.Some? then 1 else 0
      {
        ghost var marked := st.marked;
        if st.work.block.None? {
          PopBlockKeeps(st);
          SameMarksMeet(st, PopBlock(st), met);
          st := PopBlock(st);
        }
        TracingFacts(st);
        ghost var stack := st.work.stack;
        var b := st.work.block.value;
        while st.work.cursor < |st.heap.mem[b]|
          invariant Tracing(st) && Precise(st, met) && SameButMarks(old(st), st) && st.work.block == Some(b) && b in st.heap.mem
          invariant st.work.rescan == old(st.work.rescan) && st.work.batch == old(st.work.batch)
          invariant marked <= st.marked && (st.marked == marked ==> st.work.stack == stack)
          decreases |st.heap.mem[b]| - st.work.cursor
        {
          ScanWordKeeps(st);
          ScanWordMeets(st, met);
          st := ScanWord(st);
          if hurried {
            if * {
              return false;
            }
          }
        }
        BlockDoneKeeps(st);
        SameMarksMeet(st, BlockDone(st), met);
        st := BlockDone(st);
        TracingFacts(st);
        if hurried {
          if * {
            return false;
          }
        }
      }
      return true;
    }

    /** Roots, then the captured batch, then the stack. Pages notified meanwhile wait for the next capture. */
    method TraceSlice(hurried: bool) returns (done: bool)
      requires Tracing(st) && Precise(st, met)
      modifies this`st
      ensures Tracing(st) && Precise(st, met) && SameButMarks(old(st), st) && RootsMarked(st)
      ensures done ==> st.work.Quiet()
      ensures !hurried ==> done
    {
      hide InPause, Precise;
      Roots();
      ghost var traced := st;
      var clean := RescanDirty(hurried);
      SameMarksMeet(traced, st, met);
      done := false;
      if clean {
        done := Drain(hurried);
      }
    }

    // ------------------------------------------------------------ write discovery

    /** Reads one page chunk by chunk, no further than its first dirty chunk. */
    method CapturePage(here: Cursor, failing: bool) returns (ok: bool)
      requires InPause(st) && st.active && here.Within(st.lists) && here.rest > 0 && Found(st, here, 0)
      modifies this`st
      ensures InPause(st) && st == old(st).(work := old(st.work).(incoming := st.work.incoming)) && QueuedDirty(old(st.work), st.work)
      ensures ok ==> Found(st, here.(rest := here.rest - 1), 0)
      ensures !failing ==> ok
    {
      hide InPause, Found, QueuedDirty, ReadChunk;
      NothingQueued(st.work);
      var at, offset := here, 0;
      ListedPage(st, at);
      while at == here
        invariant InPause(st) && st == old(st).(work := old(st.work).(incoming := st.work.incoming))
        invariant Found(st, at, offset) && QueuedDirty(old(st.work), st.work)
        invariant if at == here then HasCurrent(st, at, offset) else at == here.(rest := here.rest - 1) && offset == 0
        decreases at.rest, if at == here then st.heap.pages[at.Page(st.lists)].osPages - offset else 0
      {
        if failing {
          if * {
            return false;
          }
        }
        ReadChunkKeeps(st, at, offset);
        ReadChunkQueuesDirty(st, at, offset, old(st.work));
        var (at', offset') := NextSpot(st, at, offset);
        st := ReadChunk(st, at, offset);
        at, offset := at', offset';
      }
      return true;
    }

    /** One pass over every page within this pause. */
    method CaptureAll(failing: bool) returns (ok: bool)
      requires InPause(st) && st.active
      modifies this`st
      ensures InPause(st) && st == old(st).(work := old(st.work).(incoming := st.work.incoming)) && QueuedDirty(old(st.work), st.work)
      ensures ok ==> AllDirtyQueued(st)
      ensures !failing ==> ok
    {
      hide InPause, Found, ListsOk;
      ListsFact(st);
      WalkStarts(st);
      var slot := 0;
      while slot < |st.lists|
        invariant InPause(st) && st == old(st).(work := old(st.work).(incoming := st.work.incoming))
        invariant slot <= |st.lists| && Found(st, Cursor(slot, 0), 0) && QueuedDirty(old(st.work), st.work)
      {
        WalkNextList(st, Cursor(slot, 0));
        slot := slot + 1;
        var rest: nat := |st.lists[slot - 1]|;
        while rest > 0
          invariant InPause(st) && st == old(st).(work := old(st.work).(incoming := st.work.incoming))
          invariant rest <= |st.lists[slot - 1]| && Found(st, Cursor(slot, rest), 0) && QueuedDirty(old(st.work), st.work)
        {
          ok := CapturePage(Cursor(slot, rest), failing);
          if !ok {
            return;
          }
          rest := rest - 1;
        }
      }
      WalkEnds(st, Cursor(slot, 0), 0);
      return true;
    }

    /** Moves the walk to the next list, or reads one chunk of the current page. */
    method WalkOnce(failing: bool) returns (ok: bool, read: bool)
      requires Walking(st) && (st.walk.at.rest > 0 || st.walk.at.slot < |st.lists|)
      modifies this`st
      ensures Walking(st)
      ensures st == old(st).(walk := st.walk, work := old(st.work).(incoming := st.work.incoming)) && QueuedDirty(old(st.work), st.work)
      ensures !failing ==> ok
      ensures ok ==> || old(st.walk.at.slot) < st.walk.at.slot
                     || (st.walk.at.slot == old(st.walk.at.slot) && st.walk.at.rest < old(st.walk.at.rest))
                     || (st.walk.at == old(st.walk.at) && PageLeft(st) < old(PageLeft(st)))
    {
      hide InPause, Found, PageLeft, ReadChunk;
      if st.walk.at.rest == 0 {
        WalkNextKeeps(st);
        st := WalkNext(st);
        return true, false;
      }
      if failing && st.heap.pages[st.walk.at.Page(st.lists)].HasPtr() {
        if * {
          return false, false;
        }
      }
      WalkStepKeeps(st);
      ReadChunkQueuesDirty(st, st.walk.at, st.walk.offset, st.work);
      st := WalkStep(st);
      return true, true;
    }

    /** Continues the walk until it ends, the deadline passes or a read fails. */
    method WalkSlice(hurried: bool, failing: bool) returns (ok: bool, ended: bool)
      requires Walking(st)
      modifies this`st
      ensures Walking(st)
      ensures st == old(st).(walk := st.walk, work := old(st.work).(incoming := st.work.incoming)) && QueuedDirty(old(st.work), st.work)
      ensures ok && !ended ==> hurried && st.walk.spanned
      ensures !failing ==> ok
      ensures ended ==> ok && st.walk.at.rest == 0 && st.walk.at.slot >= |st.lists|
    {
      hide InPause, Found, PageLeft;
      while st.walk.at.rest > 0 || st.walk.at.slot < |st.lists|
        invariant Walking(st)
        invariant st == old(st).(walk := st.walk, work := old(st.work).(incoming := st.work.incoming)) && QueuedDirty(old(st.work), st.work)
        decreases |st.lists| - st.walk.at.slot, st.walk.at.rest, PageLeft(st)
      {
        var read;
        ok, read := WalkOnce(failing);
        if !ok {
          return false, false;
        }
        if read && hurried {
          if * {
            WalkSpans(st);
            st := st.(walk := st.walk.(spanned := true));
            return true, false;
          }
        }
      }
      return true, true;
    }

    /**
     Continues the walk of the dirty map. A walk that has spanned pauses is followed, in the pause that completes it, by a
     pass over everything: pages it had visited may have been written since, and pages mapped since are not on its way.
     */
    method CollectDirty(hurried: bool, failing: bool) returns (ok: bool, complete: bool)
      requires Inv(st) && st.active
      modifies this`st
      ensures InPause(st)
      ensures st == old(st).(walk := st.walk, work := old(st.work).(incoming := st.work.incoming)) && QueuedDirty(old(st.work), st.work)
      ensures ok ==> Inv(st)
      ensures complete ==> ok && AllDirtyQueued(st)
      ensures (!hurried && ok ==> complete) && (!failing ==> ok)
    {
      hide InPause, Found, ListsOk, AllDirtyQueued;
      complete := false;
      if !st.walk.running {
        WalkBegins(st);
        st := st.(walk := Walk(true, false, Cursor(0, 0), 0));
      }
      var ended;
      ok, ended := WalkSlice(hurried, failing);
      if !ended {
        return;
      }
      if st.walk.spanned {
        ok := CaptureAll(failing);
        if !ok {
          return;
        }
      } else {
        ListsFact(st);
        WalkEnds(st, st.walk.at, st.walk.offset);
      }
      WalkKeeps(st, Walk(false, false, Cursor(0, 0), 0));
      st := st.(walk := Walk(false, false, Cursor(0, 0), 0));
      complete := true;
    }

    /** A complete discovery re-arms tracking and freezes the queue as the next batch; a partial one waits. */
    method CaptureSlice(hurried: bool, failing: bool) returns (ok: bool, captured: bool)
      requires Inv(st) && st.active && !st.preparing && st.work.Quiet()
      modifies this`st
      ensures InPause(st) && st.active && !st.preparing && st.heap == old(st.heap) && st.marked == old(st.marked)
      ensures ok ==> Inv(st) && (st.discovering <==> !captured)
      ensures st == old(st).(work := st.work, walk := st.walk, discovering := st.discovering)
      ensures captured ==> forall p <- st.work.batch :: p in old(st.work.incoming) || old(st.work).KernelDirty(p)
      ensures captured ==> ok && st.work.incoming == [] && st.work.kernelDirty == {}
      ensures (!hurried && ok ==> captured) && (!failing ==> ok)
    {
      hide InPause;
      ok, captured := CollectDirty(hurried, failing);
      if ok && captured {
        if failing {
          ok := *;
        }
        if ok {
          RearmKeeps(st);
          st := Rearmed(st);
        } else {
          captured := false;
        }
      } else if ok {
        DiscoveryWaits(st);
        st := st.(discovering := true);
      }
    }

    // ------------------------------------------------------------ completion and reclamation

    /** Looks at the page behind the link: leaves the list at its end, keeps the page, or gives it back. */
    method SweepNext()
      requires Inv(st) && !st.active && st.reclaim.link != NoLink && st.reclaim.Ok(st.lists) && Accounted(st, kept)
      modifies this`st, this`kept
      ensures SweptOne(old(st), st, kept)
    {
      hide Inv, EmptyPage, Accounted, SweptOne, FreePage, ReclaimMove;
      RestInList(st);
      if Rest(st) == 0 {
        LeavesList(st, kept);
        st := ReclaimMove(st, st.reclaim.slot, NoLink, st.reclaim.retained);
        return;
      }
      var page := LinkedPage(st);
      LinkedPageListed(st);
      if EmptyPage(st, page) {
        if !st.heap.pages[page].large && st.heap.pages[page].size + st.reclaim.retained <= st.reclaim.budget {
          PassesPage(st, true, kept);
          st := ReclaimMove(st, st.reclaim.slot, After(Rest(st) - 1), st.reclaim.retained + st.heap.pages[page].size);
          kept := kept + [page];
        } else {
          FreesPage(st, kept);
          st := FreePage(st);
        }
      } else {
        PassesPage(st, false, kept);
        st := ReclaimMove(st, st.reclaim.slot, After(Rest(st) - 1), st.reclaim.retained);
      }
    }

    /**
     Gives back empty pages until the lists are done or, if deferred, the deadline passes. The saved link always points
     into a list. In the end every empty page left is one of those kept, whose sizes are within the budget; a page that
     was given back was large, or did not fit.
     */
    method EmptySweepSlice(deferred: bool, hurried: bool) returns (done: bool)
      requires Inv(st) && !st.active && Accounted(st, kept)
      modifies this`st, this`kept
      ensures Inv(st) && !st.active && Accounted(st, kept) && ReclaimedPart(old(st), st)
      ensures !deferred || !hurried ==> done
      ensures done ==> Reclaimed(st, kept)
    {
      hide Inv, Accounted, ReclaimedPart, Reclaimed, Rest;
      ReclaimFact(st);
      NothingReclaimed(st);
      while st.reclaim.link != NoLink || st.reclaim.slot < |st.lists|
        invariant Inv(st) && !st.active && st.reclaim.Ok(st.lists) && Accounted(st, kept) && ReclaimedPart(old(st), st)
        invariant |st.lists| == |old(st.lists)|
        decreases |old(st.lists)| - st.reclaim.slot, st.reclaim.link != NoLink, if st.reclaim.link == NoLink then 0 else Rest(st)
      {
        if deferred && hurried {
          if * {
            return false;
          }
        }
        PhaseFacts(st);
        if st.reclaim.link == NoLink {
          MoveKeeps(st, st.reclaim.slot + 1, Head, st.reclaim.retained);
          AccountAtEnds(st, st.reclaim.slot + 1, Head, kept);
          MovesOn(st, st.reclaim.slot + 1, Head, st.reclaim.retained);
          ReclaimedPartly(old(st), st, ReclaimMove(st, st.reclaim.slot + 1, Head, st.reclaim.retained));
          st := ReclaimMove(st, st.reclaim.slot + 1, Head, st.reclaim.retained);
        }
        ghost var linked := st;
        SweepNext();
        ReclaimedPartly(old(st), linked, st);
      }
      PhaseFacts(st);
      AccountEnds(st, kept);
      return true;
    }

    /**
     The final remark: nobody ran since roots and dirty pages were captured. Everything the program can reach is marked,
     and nothing that was not met since the cycle began; these marks are published, and what carries none is reclaimed.
     The oracle reports exactly the unmarked blocks that stray words lead to. So it is silent exactly if there is no such
     word, and no block in use is missed exactly if none names a block handed out without a mark.
     */
    method CompleteCycle(hurried: bool) returns (missing: set<Block>)
      requires AtRest(st) && Precise(st, met)
      modifies this`st, this`kept
      ensures Good() && !st.active && (!hurried ==> !st.reclaiming)
      ensures !st.reclaiming ==> Reclaimed(st, kept)
      ensures Collected(old(st.heap), st, old(st.marked))
      ensures forall b :: Reachable(Strong(old(st.heap)), b) ==> b in old(st.marked)
      ensures forall b <- old(st.marked) :: b in met
      ensures forall b :: b in missing <==> Reachable(Conservative(old(st.heap)), b) && b !in old(st.marked)
      ensures forall b :: b in missing <==> b !in old(st.marked) && Astray(old(st), b)
      ensures missing == {} <==> forall c :: !Strays(old(st), c)
      ensures missing !! old(st.heap.inUse) <==> forall c <- old(st.late) :: c in old(st.heap.inUse) ==> !Strays(old(st), c)
    {
      hide AtRest, Reachable, Inv, Strays, Astray, Collected, Accounted, Reclaimed, Closed, Publish;
      missing := GcOracle.Validate(st.heap, st.marked);
      forall b ensures b in missing <==> b !in st.marked && Astray(st, b) {
        ReportedExactly(st, b);
      }
      SilentExactly(st);
      InUseExactly(st);
      forall b | Reachable(Strong(st.heap), b) ensures b in st.marked {
        ExhaustedCoversProgram(st, b);
      }
      RestIsSafe(st);
      var done := PublishMarks(st.marked, true, hurried);
      ReclaimingKeeps(st, kept, old(st.heap), old(st.marked), !done);
      st := st.(reclaiming := !done);
    }

    /** The marks become those of the sweeps to come, and empty pages begin to be given back. */
    method PublishMarks(marks: set<Block>, deferred: bool, hurried: bool) returns (done: bool)
      requires Safe(st) && forall b :: Reachable(Strong(st.heap), b) ==> b in marks
      modifies this`st, this`kept
      ensures Inv(st) && !st.active && Accounted(st, kept) && Collected(old(st.heap), st, marks)
      ensures !deferred || !hurried ==> done
      ensures done ==> Reclaimed(st, kept)
    {
      hide Inv, Collected, Accounted, Reclaimed, Reachable, Safe;
      var budget: nat := *;
      PublishKeeps(st, marks, budget);
      PublishedCollects(st, marks, budget);
      AccountBegins(st, marks, budget);
      PublishedFacts(st, marks, budget);
      st, kept := Publish(st, marks, budget), [];
      ghost var published := st;
      done := EmptySweepSlice(deferred, hurried);
      PartlyCollected(old(st.heap), published, st, marks);
    }

    /**
     A full collection. Any cycle is cancelled: its partial marks reclaim nothing, and what may be reclaimed is only what
     the full mark does not reach.
     */
    method Major() returns (ghost marks: set<Block>)
      requires Safe(st) && TypesOk()
      modifies this`st, this`kept
      ensures Good() && !st.active && !st.reclaiming && Reclaimed(st, kept)
      ensures Collected(old(st.heap), st, marks)
      ensures forall b :: b in marks <==> Reachable(Seen(old(st.heap), types(old(st.heap))), b)
      ensures forall b :: Reachable(Strong(old(st.heap)), b) ==> b in marks
    {
      hide Inv, ListsOk, SweepSound, EpochsOk, Reclaim.Ok, Reachable, Collected, Accounted, Reclaimed, Precise;
      var full := GcOracle.FullMark(st.heap, types(st.heap));
      var _ := PublishMarks(full, false, false);
      ReclaimingKeeps(st, kept, old(st.heap), full, false);
      st := st.(reclaiming := false);
      marks := full;
    }

    // ------------------------------------------------------------ pauses, mutators, runs

    /**
     Discovers and traces. It is done when, in this one pause, the dirty map was captured completely and then roots, batch
     and stack were traced to the end.
     */
    method TraceStep(hurried: bool, failing: bool) returns (ok: bool, done: bool)
      requires Inv(st) && st.active && !st.preparing && Precise(st, met)
      modifies this`st
      ensures Safe(st) && Precise(st, met) && (ok ==> Inv(st)) && (done ==> ok && AtRest(st))
      ensures st == old(st).(marked := st.marked, queued := st.queued, work := st.work, walk := st.walk, discovering := st.discovering)
      ensures old(st.marked) <= st.marked && (!hurried && ok ==> done) && (!failing ==> ok)
    {
      hide InPause, Walk.Shape, Precise;
      PauseFacts(st);
      ghost var was := st;
      var captured;
      ok, done, captured := true, false, false;
      if st.discovering {
        ok, captured := CaptureSlice(hurried, failing);
        SameMarksMeet(was, st, met);
      }
      if ok && !st.discovering {
        done := TraceSlice(hurried);
        if done && !captured {
          ghost var traced := st;
          ok, captured := CaptureSlice(hurried, failing);
          SameMarksMeet(traced, st, met);
          done := false;
          if ok && captured {
            done := TraceSlice(hurried);
          }
        }
      }
      SafeFact(st);
    }

    /** The part of a pause that is spent on the cycle: it begins one, prepares pages, or discovers and traces. */
    method CycleStep(hurried: bool, failing: bool) returns (ok: bool, done: bool)
      requires Good() && !st.reclaiming
      modifies this`st, this`met
      ensures Safe(st) && Precise(st, met) && st.active
      ensures met == if old(st.active) then old(met) else Met(old(st.heap))
      ensures done ==> ok && AtRest(st)
      ensures ok ==> Inv(st) && SweepsDue(old(st), st)
      ensures done || !ok ==> st.heap == old(st.heap)
      ensures !hurried && ok ==> done || (!st.preparing && (!old(st.active) || old(st.preparing)))
      ensures (!failing ==> ok) && (done ==> old(st.active) && !old(st.preparing) && old(st.marked) <= st.marked)
    {
      hide InPause, Walk.Shape, Precise, SweepsDue, Reachable;
      ghost var was := st;
      ok, done := true, false;
      NoSweepsDue(st);
      if !st.active {
        BeginKeeps(st);
        BeginsPrecise(st);
        met, st := Met(st.heap), Begin(st);
        if failing {
          ok := *;
        }
      }
      SafeFact(st);
      ghost var begun := st;
      if ok && st.preparing {
        var ready := PrepareSlice(hurried);
        SweepsDueAgain(was, begun, st);
        if ready {
          PrepareEnds(st);
          CursorMoves(was, st, st.(preparing := false), met);
          st := st.(preparing := false);
        }
        SafeFact(st);
      } else if ok {
        ok, done := TraceStep(hurried, failing);
        MarksMove(was, begun, st);
      }
    }

    /**
     One pause: reclaim, or work on the cycle and complete it if that is done. If the cycle allocates too much, or tracking
     is not supported or fails, it is given up for a full collection.
     */
    method Pause(env: Env) returns (finished: bool, ghost swept: Option<set<Block>>)
      requires Good() && TypesOk()
      modifies this`st, this`kept, this`met
      ensures Good() && Paused(old(st), st, env, swept)
      ensures finished <==> !st.active && !st.reclaiming
      ensures finished ==> Reclaimed(st, kept)
      ensures !old(st.reclaiming) && GivesUp(old(st), env) ==>
                swept.Some? && forall b :: b in swept.value <==> Reachable(Seen(old(st.heap), types(old(st.heap))), b)
      ensures swept.Some? ==> forall b <- swept.value :: b in old(met) || Reachable(Conservative(old(st.heap)), b)
      ensures st.active ==> met == if old(st.active) then old(met) else Met(old(st.heap))
    {
      hide Inv, Safe, AtRest, Precise, Accounted, Reclaimed, Paused, Collected, SweepsDue, Reachable, ReclaimedPart;
      ghost var was := st;
      PhaseFacts(st);
      if st.reclaiming {
        finished := EmptySweepSlice(true, env.hurried);
        ReclaimPauses(was, st, kept, env, !finished);
        st := st.(reclaiming := !finished);
        return finished, None;
      }
      if !(st.active && env.pressure) && env.supported {
        var ok, done := CycleStep(env.hurried, env.failing);
        if done {
          ghost var marks := st.marked;
          swept := Some(marks);
          var _ := CompleteCycle(env.hurried);
          PhaseFacts(st);
          SweepPauses(was, st, env, marks);
        }
        if ok {
          finished := done && !st.reclaiming;
          if !done {
            swept := None;
            PhaseFacts(st);
            WaitPauses(was, st, env);
          }
          return;
        }
      }
      ghost var marks := Major();
      PhaseFacts(st);
      SeenIsConservative(was.heap, types(was.heap));
      swept := Some(marks);
      SweepPauses(was, st, env, marks);
      return true, swept;
    }

    /** One event of a run. A mutator's step that is possible touches only blocks in use. */
    method Perform(e: Event)
      requires Good() && TypesOk()
      modifies this`st, this`kept, this`met
      ensures Good() && Did(old(st), st, e)
      ensures (e.Load? || e.StoreWord?) && Possible(old(st), e) ==> e.b in old(st.heap.inUse)
      ensures !e.Collect? ==> kept == old(kept) && met == if Possible(old(st), e) then MetNext(old(met), st, e) else old(met)
    {
      hide Sound, Did, Paused;
      ghost var was := st;
      if !e.Collect? && Possible(st, e) {
        match e {
          case Load(b, i) =>
            LoadKept(st, e, met, kept);
            st := WithRoots(st, st.heap.roots + {LoadedWord(st.heap, b, i)});
          case StoreWord(b, i, w, os, barrier) =>
            StoreKept(st, e, met, kept);
            st := StoreStep(st, b, i, w, os, barrier);
          case Drop(w) =>
            RootChangeKept(st, e, met, kept);
            st := WithRoots(st, st.heap.roots - {w});
          case Forge(w) =>
            RootChangeKept(st, e, met, kept);
            st := WithRoots(st, st.heap.roots + {w});
          case Allocate(b, words, os) =>
            AllocateKept(st, e, met, kept);
            ReadyHasPage(st, b.page);
            st := HandoutStep(ReadyPage(st, b.page), b, words, os);
          case Refill(b, words, os) =>
            RefillKept(st, e, met, kept);
            ReadyHasPage(st, b.page);
            st := RefillStep(FlushPage(st, b.page), b, words, os);
          case MapPage(page, info, blockWords) =>
            MapKept(st, e, met, kept);
            st := MapStep(st, page, info, blockWords);
        }
        met := MetNext(met, st, e);
      } else if e.Collect? {
        var _, swept := Pause(e.env);
        CollectDid(was, st, e, swept);
      } else {
        NothingDone(st, e);
      }
    }

    /**
     Whatever mutators and the collector do, in any order and for any number of cycles: every event does what it should,
     and at no point has anything been freed that the program can reach.
     */
    method Run(schedule: seq<Event>) returns (ghost trace: seq<State>)
      requires Good() && forall h :: HeapOk(h) ==> SeesHeld(h, types(h))
      modifies this`st, this`kept, this`met
      ensures Good() && Happened(trace, schedule) && trace[0] == old(st) && trace[|schedule|] == st
      ensures forall s <- trace :: NoDangling(s.heap)
    {
      hide Sound, Did;
      trace := [st];
      SoundFacts(st, met, kept);
      for k := 0 to |schedule|
        invariant Good() && |trace| == k + 1 && trace[0] == old(st) && trace[k] == st
        invariant forall j :: 0 <= j < k ==> Did(trace[j], trace[j + 1], schedule[j])
        invariant forall s <- trace :: NoDangling(s.heap)
      {
        SoundFacts(st, met, kept);
        Perform(schedule[k]);
        SoundFacts(st, met, kept);
        trace := trace + [st];
      }
    }
  }

  lemma EmptyHeapHoldsNothing(h: Heap)
    requires h == Heap(map[], map[], {}, {})
    ensures NoDangling(h) && SweepSound(h, {}, {})
  {
    forall b ensures !Reachable(Strong(h), b) {
      if Reachable(Strong(h), b) {
        ReachableInClosed(Strong(h), iset{}, b);
      }
    }
  }

  lemma NothingQueued(work: Work)
    ensures QueuedDirty(work, work)
  {
  }

  lemma ReclaimFact(s: State)
    requires Inv(s)
    ensures s.reclaim.Ok(s.lists)
  {
  }

  lemma LinkedPageListed(s: State)
    requires Inv(s) && s.reclaim.link != NoLink && Rest(s) > 0
    ensures LinkedPage(s) in s.heap.pages
  {
    hide HeapOk, SweepSound, EpochsOk, Marking, Walk.Shape, Phases;
  }

  lemma SafeFact(s: State)
    requires InPause(s)
    ensures Safe(s)
  {
  }

  lemma SoundFacts(s: State, met: iset<Block>, kept: seq<nat>)
    requires Sound(s, met, kept)
    ensures HeapOk(s.heap) && NoDangling(s.heap)
  {
  }

  lemma RestIsSafe(s: State)
    requires AtRest(s)
    ensures Safe(s)
  {
    hide Safe, Marking;
  }

  /** Whether reclamation goes on is a flag apart. */
  lemma ReclaimingKeeps(s: State, kept: seq<nat>, h: Heap, marks: set<Block>, reclaiming: bool)
    requires Inv(s) && !s.active && Accounted(s, kept) && Collected(h, s, marks)
    ensures var s' := s.(reclaiming := reclaiming);
            && Inv(s') && Accounted(s', kept) && Collected(h, s', marks)
            && (Reclaimed(s, kept) ==> Reclaimed(s', kept))
  {
    hide HeapOk, ListsOk, SweepSound, Reclaim.Ok, Marking, Walk.Shape, Shrunk;
  }

  /** One step of reclamation: the page behind the link has been dealt with, or the list been left. */
  ghost predicate SweptOne(s: State, s': State, kept: seq<nat>) {
    && Inv(s') && !s'.active && s'.reclaim.Ok(s'.lists) && Accounted(s', kept)
    && ReclaimedPart(s, s') && |s'.lists| == |s.lists| && s'.reclaim.slot == s.reclaim.slot
    && (s'.reclaim.link == NoLink || (s.reclaim.link != NoLink && Rest(s') < Rest(s)))
  }

  lemma LeavesList(s: State, kept: seq<nat>)
    requires Inv(s) && !s.active && s.reclaim.link != NoLink && s.reclaim.Ok(s.lists) && Accounted(s, kept) && Rest(s) == 0
    ensures SweptOne(s, ReclaimMove(s, s.reclaim.slot, NoLink, s.reclaim.retained), kept)
  {
    hide Inv, Accounted, ReclaimedPart;
    PhaseFacts(s);
    MoveKeeps(s, s.reclaim.slot, NoLink, s.reclaim.retained);
    AccountAtEnds(s, s.reclaim.slot, NoLink, kept);
    MovesOn(s, s.reclaim.slot, NoLink, s.reclaim.retained);
  }

  lemma PassesPage(s: State, keep: bool, kept: seq<nat>)
    requires Inv(s) && !s.active && s.reclaim.link != NoLink && s.reclaim.Ok(s.lists) && Accounted(s, kept)
    requires 0 < Rest(s) <= |s.lists[s.reclaim.slot - 1]| && LinkedPage(s) in s.heap.pages
    requires if keep then !s.heap.pages[LinkedPage(s)].large && s.heap.pages[LinkedPage(s)].size + s.reclaim.retained <= s.reclaim.budget
             else !EmptyPage(s, LinkedPage(s))
    ensures var retained := s.reclaim.retained + if keep then s.heap.pages[LinkedPage(s)].size else 0;
            SweptOne(s, ReclaimMove(s, s.reclaim.slot, After(Rest(s) - 1), retained), if keep then kept + [LinkedPage(s)] else kept)
  {
    hide Inv, Accounted, ReclaimedPart, EmptyPage;
    var retained := s.reclaim.retained + if keep then s.heap.pages[LinkedPage(s)].size else 0;
    PhaseFacts(s);
    MoveKeeps(s, s.reclaim.slot, After(Rest(s) - 1), retained);
    AccountNext(s, keep, kept);
    MovesOn(s, s.reclaim.slot, After(Rest(s) - 1), retained);
  }

  lemma FreesPage(s: State, kept: seq<nat>)
    requires Inv(s) && !s.active && s.reclaim.link != NoLink && s.reclaim.Ok(s.lists) && Accounted(s, kept)
    requires 0 < Rest(s) <= |s.lists[s.reclaim.slot - 1]| && LinkedPage(s) in s.heap.pages && EmptyPage(s, LinkedPage(s))
    requires s.heap.pages[LinkedPage(s)].large || s.heap.pages[LinkedPage(s)].size + s.reclaim.retained > s.reclaim.budget
    ensures SweptOne(s, FreePage(s), kept)
  {
    hide Inv, Accounted, SweepsDue, GivenBack, EmptyPage, FreePage;
    PhaseFacts(s);
    FreePageKeeps(s);
    AccountFree(s, kept);
    FreesPart(s);
    ReclaimFact(FreePage(s));
  }

  lemma RestInList(s: State)
    requires Inv(s) && s.reclaim.link != NoLink
    ensures 0 < s.reclaim.slot <= |s.lists| && Rest(s) <= |s.lists[s.reclaim.slot - 1]|
  {
    hide HeapOk, SweepSound, EpochsOk, ListsOk, Marking, Walk.Shape, Phases;
  }

  lemma PublishedFacts(s: State, marks: set<Block>, budget: nat)
    ensures !Publish(s, marks, budget).active
  {
  }

  lemma NoSweepsDue(s: State)
    ensures SweepsDue(s, s) && SweepsDue(s, Begin(s))
  {
  }

  lemma CursorMoves(was: State, s: State, s': State, met: iset<Block>)
    requires s' == s.(prepare := s'.prepare, preparing := s'.preparing) && Precise(s, met) && SweepsDue(was, s)
    ensures Precise(s', met) && SweepsDue(was, s')
  {
    SameMarksMeet(s, s', met);
  }

  lemma PrepareMoves(was: State, s: State, page: nat, met: iset<Block>)
    requires page in s.heap.pages && Precise(s, met) && SweepsDue(was, s)
    ensures Precise(PreparePage(s, page), met) && SweepsDue(was, PreparePage(s, page))
  {
    hide PreparePage, FlushPage, Precise;
    PrepareSweeps(s, page);
    SweepsDueAgain(was, s, PreparePage(s, page));
    PrepareMarks(s, page);
    SameMarksMeet(s, PreparePage(s, page), met);
  }

  lemma PrepareMarks(s: State, page: nat)
    requires page in s.heap.pages
    ensures PreparePage(s, page).marked == s.marked
  {
  }

  lemma BeginsPrecise(s: State)
    requires Inv(s) && !s.active
    ensures Precise(Begin(s), Met(s.heap))
  {
    hide Safe, Closed;
    MetIsClosed(s.heap);
  }

  /** Marking changes nothing that sweeps go by. */
  lemma MarksMove(was: State, s: State, s': State)
    requires SweepsDue(was, s)
    requires s' == s.(marked := s'.marked, queued := s'.queued, work := s'.work, walk := s'.walk, discovering := s'.discovering)
    ensures SweepsDue(was, s')
  {
  }

  lemma SeenIsConservative(h: Heap, lens: Lens)
    ensures forall b :: Reachable(Seen(h, lens), b) ==> Reachable(Conservative(h), b)
  {
    hide Reachable;
    var g, c := Seen(h, lens), Conservative(h);
    forall b | Reachable(g, b) ensures Reachable(c, b) {
      MetIsClosed(h);
      assert Closed(g, Met(h));
      ReachableInClosed(g, Met(h), b);
    }
  }

  // ------------------------------------------------------------ what a pause did

  lemma ViewKept(s: State, s': State)
    requires Shrunk(s.heap, s'.heap) && Safe(s) && Safe(s')
    ensures SameView(s.heap, s'.heap)
  {
    hide SweepSound, ListsOk, EpochsOk, Reclaim.Ok, Shrunk, SameView, HeapOk;
    ShrunkSameView(s.heap, s'.heap);
  }

  lemma ReclaimPauses(was: State, s: State, kept: seq<nat>, env: Env, reclaiming: bool)
    requires Inv(was) && Inv(s) && was.reclaiming && !s.active && ReclaimedPart(was, s) && Accounted(s, kept)
    requires !env.hurried ==> !reclaiming
    ensures var s' := s.(reclaiming := reclaiming);
            && Inv(s') && Accounted(s', kept) && (Reclaimed(s, kept) ==> Reclaimed(s', kept))
            && Paused(was, s', env, None)
  {
    hide HeapOk, ListsOk, SweepSound, Reclaim.Ok, Marking, Walk.Shape, Shrunk, SameView, GivenBack;
    ViewKept(was, s);
  }

  lemma WaitPauses(was: State, s: State, env: Env)
    requires Safe(was) && Safe(s) && SweepsDue(was, s) && !was.reclaiming && s.active && !s.reclaiming && !GivesUp(was, env)
    requires !env.hurried ==> !s.preparing && (!was.active || was.preparing)
    ensures Paused(was, s, env, None)
  {
    hide Safe, Shrunk, SameView;
    ViewKept(was, s);
  }

  lemma SweepPauses(was: State, s: State, env: Env, marks: set<Block>)
    requires Safe(was) && Safe(s) && Collected(was.heap, s, marks) && !was.reclaiming && !s.active && (!env.hurried ==> !s.reclaiming)
    requires if GivesUp(was, env) then !s.reclaiming else env.failing || (was.active && !was.preparing && was.marked <= marks)
    requires forall b :: Reachable(Strong(was.heap), b) ==> b in marks
    ensures Paused(was, s, env, Some(marks))
  {
    hide Safe, Shrunk, SameView, FlushPage, Reachable;
    ViewKept(was, s);
  }

  lemma CollectDid(s: State, s': State, e: Event, swept: Option<set<Block>>)
    requires e.Collect? && Paused(s, s', e.env, swept)
    ensures Did(s, s', e)
  {
    hide Paused;
  }

  lemma NothingDone(s: State, e: Event)
    requires !Possible(s, e)
    ensures Did(s, s, e)
  {
  }

  lemma ReadyHasPage(s: State, page: nat)
    requires page in s.heap.pages
    ensures page in FlushPage(s, page).heap.pages && page in ReadyPage(s, page).heap.pages
  {
  }

  lemma PauseFacts(s: State)
    requires Inv(s)
    ensures s.active ==> !s.reclaiming
    ensures s.preparing ==> !s.discovering
    ensures s.discovering ==> s.work.Quiet()
    ensures !s.active ==> !s.preparing
  {
    hide Safe, Marking;
  }
}
