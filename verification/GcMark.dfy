/**
 The steps of marking inside a pause: visiting a word, rescanning a dirty page block by block, scanning a stacked block
 word by word. Each keeps the invariant of marking, so a deadline may cut marking off after any of them.
 */
module GcMark {
  import opened Basics
  import opened HeapModel
  import opened GcState

  /** gc_inc_enqueue: stacks a block of a pointer-bearing page unless its queued bit is set. */
  function Enqueue(s: State, b: Block): State
  {
    if !s.heap.Traced(b) || b in s.queued then s
    else s.(queued := s.queued + {b}, work := s.work.(stack := s.work.stack + [b]))
  }

  /** gc_inc_visit: marks and stacks the block a word names. Only roots may name a block from the inside. */
  function Visit(s: State, w: Word, root: bool): State
  {
    if !w.Ptr? || (w.interior && !root) || w.target !in s.heap.mem || w.target in s.marked then s
    else Enqueue(s.(marked := s.marked + {w.target}), w.target)
  }

  function PopDirty(s: State): State
    requires s.work.batch != [] && s.work.batch[0] in s.heap.pages
  {
    var page := s.work.batch[0];
    s.(work := s.work.(batch := s.work.batch[1..], rescan := Some(page), rescanBid := s.heap.pages[page].firstBlock))
  }

  /** Queues the next block of the page being rescanned if it is marked; a block in mid-scan restarts instead. */
  function RescanBlock(s: State): State
    requires s.work.rescan.Some?
  {
    var b := Block(s.work.rescan.value, s.work.rescanBid);
    var next := s.(work := s.work.(rescanBid := s.work.rescanBid + 1));
    if b !in s.marked then next
    else if s.work.block == Some(b) then next.(work := next.work.(cursor := 0))
    else Enqueue(next, b)
  }

  function RescanDone(s: State): State {
    s.(work := s.work.(rescan := None))
  }

  function PopBlock(s: State): State
    requires s.work.stack != []
  {
    var top := |s.work.stack| - 1;
    s.(work := s.work.(stack := s.work.stack[..top], block := Some(s.work.stack[top]), cursor := 0))
  }

  function ScanWord(s: State): State
    requires s.work.block.Some? && s.work.block.value in s.heap.mem && s.work.cursor < |s.heap.mem[s.work.block.value]|
  {
    Visit(s.(work := s.work.(cursor := s.work.cursor + 1)), s.heap.mem[s.work.block.value][s.work.cursor], false)
  }

  function BlockDone(s: State): State
    requires s.work.block.Some?
  {
    s.(queued := s.queued - {s.work.block.value}, work := s.work.(block := None))
  }

  // ---------------------------------------------------------------- each step keeps the invariant of marking

  /** What every marking step leaves alone. */
  predicate SameButMarks(s: State, s': State) {
    s' == s.(marked := s'.marked, queued := s'.queued, work := s'.work) &&
    s'.work.incoming == s.work.incoming && s'.work.kernelDirty == s.work.kernelDirty && s.marked <= s'.marked
  }

  ghost predicate Tracing(s: State) {
    InPause(s) && s.active && !s.preparing && !s.discovering
  }

  lemma TracingFacts(s: State)
    requires InPause(s) && s.active
    ensures s.marked <= s.heap.mem.Keys
    ensures s.work.block.Some? ==> s.work.block.value in s.heap.mem && s.work.cursor <= |s.heap.mem[s.work.block.value]|
    ensures s.work.rescan.Some? ==> s.work.rescan.value in s.heap.pages
    ensures s.work.rescan.Some? ==> s.work.rescanBid <= s.heap.pages[s.work.rescan.value].maxBlocks
    ensures !s.preparing ==> forall p <- s.heap.pages :: s.Prepared(p)
    ensures s.preparing || s.discovering ==> s.work.Quiet()
    ensures s.preparing ==> !s.discovering && s.prepare.Within(s.lists)
  {
    hide HeapOk, SweepSound, ListsOk, Reclaim.Ok, TriColour, QueuesOk, BornOk, DirtyOk;
  }

  /** Marking a block settles words elsewhere and leaves only the block's own words to look at. */
  lemma MarkOne(h: Heap, marked: set<Block>, recent: Recent, work: Work, work': Work, b: Block)
    requires TriColour(h, marked, recent, work)
    requires h.Traced(b) ==> b in work'.stack
    requires forall a, i: nat :: work.Pending(a, i) ==> work'.Pending(a, i)
    ensures TriColour(h, marked + {b}, recent, work')
  {
    forall a, i | a in marked + {b} && a in h.mem && h.Traced(a) && 0 <= i < |h.mem[a]|
      ensures Settled(h, marked + {b}, recent, a, h.mem[a][i]) || work'.Pending(a, i)
    {
      if a in marked {
        assert Settled(h, marked, recent, a, h.mem[a][i]) || work.Pending(a, i);
      }
    }
  }

  /** A step that touches only marks, queue bits and pending work owes no more than the facts about those. */
  lemma StepKeepsTracing(s: State, s': State)
    requires Tracing(s) && SameButMarks(s, s')
    requires s'.marked <= s.heap.mem.Keys
    requires StackOk(s.heap, s'.marked, s'.queued, s'.work)
    requires TriColour(s.heap, s'.marked, s.Since(), s'.work)
    requires QueuesOk(s.heap.pages, s.work.incoming, s'.work.batch)
    ensures Tracing(s')
  {
    hide NoDangling, SweepSound, ListsOk, Reclaim.Ok, StackOk, TriColour, QueuesOk, DirtyOk;
  }

  lemma EnqueueKeepsStack(s: State, b: Block)
    requires StackOk(s.heap, s.marked, s.queued, s.work) && b in s.marked && b in s.heap.mem
    ensures var s' := Enqueue(s, b);
            && StackOk(s.heap, s.marked, s'.queued, s'.work)
            && s' == s.(queued := s'.queued, work := s.work.(stack := s'.work.stack))
            && (s.heap.Traced(b) ==> b in s'.work.stack || s.work.block == Some(b))
  {
  }

  lemma PendingGrowsWithStack(work: Work, stack: seq<Block>)
    requires forall b <- work.stack :: b in stack
    ensures forall a, i: nat :: work.Pending(a, i) ==> work.(stack := stack).Pending(a, i)
  {
  }

  lemma VisitKeeps(s: State, w: Word, root: bool)
    requires Tracing(s)
    ensures var s' := Visit(s, w, root);
            && Tracing(s') && SameButMarks(s, s')
            && s'.work == s.work.(stack := s'.work.stack)
            && (w.Ptr? && (root || !w.interior) && w.target in s.heap.mem ==> w.target in s'.marked)
  {
    hide Safe, BornOk, PrepareOk, QueuesOk, Phases, TriColour;
    var s' := Visit(s, w, root);
    if w.Ptr? && (root || !w.interior) && w.target in s.heap.mem && w.target !in s.marked {
      var b := w.target;
      var m := s.(marked := s.marked + {b});
      EnqueueKeepsStack(m, b);
      PendingGrowsWithStack(s.work, s'.work.stack);
      MarkOne(s.heap, s.marked, s.Since(), s.work, s'.work, b);
      StepKeepsTracing(s, s');
    }
  }

  /** Work may be retired once the words it would have looked at are settled. */
  lemma RetireWork(h: Heap, marked: set<Block>, recent: Recent, work: Work, work': Work)
    requires TriColour(h, marked, recent, work)
    requires forall a, i: nat :: a in marked && a in h.mem && h.Traced(a) && i < |h.mem[a]| && work.Pending(a, i) ==>
               work'.Pending(a, i) || Settled(h, marked, recent, a, h.mem[a][i])
    ensures TriColour(h, marked, recent, work')
  {
  }

  lemma PopDirtyKeeps(s: State)
    requires Tracing(s) && s.work.batch != [] && s.work.rescan.None?
    ensures s.work.batch[0] in s.heap.pages
    ensures Tracing(PopDirty(s)) && SameButMarks(s, PopDirty(s))
  {
    hide NoDangling, EpochsOk, SweepSound, ListsOk, MarksOk, BornOk, PrepareOk, Phases, TriColour, Reclaim.Ok;
    assert s.work.batch[0] in s.work.batch;
    var s' := PopDirty(s);
    forall a, i: nat | a in s.marked && a in s.heap.mem && s.work.Pending(a, i) ensures s'.work.Pending(a, i) {
      assert s.work.batch == [s.work.batch[0]] + s'.work.batch;
    }
    RetireWork(s.heap, s.marked, s.Since(), s.work, s'.work);
    PopKeepsQueues(s.heap.pages, s.work.incoming, s.work.batch);
    MarkedInHeap(s);
    StepKeepsTracing(s, s');
  }

  lemma MarkedInHeap(s: State)
    requires MarksOk(s)
    ensures s.marked <= s.heap.mem.Keys
  {
  }

  lemma PopKeepsQueues(pages: map<nat, PageInfo>, incoming: seq<nat>, batch: seq<nat>)
    requires QueuesOk(pages, incoming, batch) && batch != []
    ensures QueuesOk(pages, incoming, batch[1..])
  {
  }

  lemma RescanBlockKeeps(s: State)
    requires Tracing(s) && s.work.rescan.Some? && s.work.rescan.value in s.heap.pages
    requires s.work.rescanBid < s.heap.pages[s.work.rescan.value].maxBlocks
    ensures var s' := RescanBlock(s);
            && Tracing(s') && SameButMarks(s, s') && s'.work.batch == s.work.batch
            && s'.work.rescan == s.work.rescan && s'.work.rescanBid == s.work.rescanBid + 1
  {
    hide Safe, BornOk, PrepareOk, QueuesOk, Phases, TriColour;
    var b := Block(s.work.rescan.value, s.work.rescanBid);
    var next := s.(work := s.work.(rescanBid := s.work.rescanBid + 1));
    var s' := RescanBlock(s);
    MarkedInHeap(s);
    if b in s.marked && s.work.block != Some(b) {
      EnqueueKeepsStack(next, b);
    }
    assert StackOk(s.heap, s'.marked, s'.queued, s'.work);
    forall a, i: nat | a in s.marked && a in s.heap.mem && s.heap.Traced(a) && s.work.Pending(a, i)
      ensures s'.work.Pending(a, i)
    {
    }
    RetireWork(s.heap, s.marked, s.Since(), s.work, s'.work);
    StepKeepsTracing(s, s');
  }

  lemma RescanDoneKeeps(s: State)
    requires Tracing(s) && s.work.rescan.Some? && s.work.rescan.value in s.heap.pages
    requires s.work.rescanBid >= s.heap.pages[s.work.rescan.value].maxBlocks
    ensures Tracing(RescanDone(s)) && SameButMarks(s, RescanDone(s))
  {
    hide NoDangling, EpochsOk, SweepSound, ListsOk, BornOk, PrepareOk, QueuesOk, Phases, TriColour, Reclaim.Ok;
    var s' := RescanDone(s);
    MarkedInHeap(s);
    forall a, i: nat | a in s.marked && a in s.heap.mem && s.work.Pending(a, i) ensures s'.work.Pending(a, i) {
    }
    RetireWork(s.heap, s.marked, s.Since(), s.work, s'.work);
    StepKeepsTracing(s, s');
  }

  lemma PopBlockKeeps(s: State)
    requires Tracing(s) && s.work.stack != [] && s.work.block.None?
    ensures Tracing(PopBlock(s)) && SameButMarks(s, PopBlock(s))
  {
    hide Safe, BornOk, PrepareOk, QueuesOk, Phases, TriColour;
    var s' := PopBlock(s);
    MarkedInHeap(s);
    assert s.work.stack == s'.work.stack + [s'.work.block.value];
    assert StackOk(s.heap, s'.marked, s'.queued, s'.work);
    forall a, i: nat | a in s.marked && s.work.Pending(a, i) ensures s'.work.Pending(a, i) {
    }
    RetireWork(s.heap, s.marked, s.Since(), s.work, s'.work);
    StepKeepsTracing(s, s');
  }

  lemma ScanWordKeeps(s: State)
    requires Tracing(s) && s.work.block.Some? && s.work.block.value in s.heap.mem
    requires s.work.cursor < |s.heap.mem[s.work.block.value]|
    ensures var s' := ScanWord(s);
            && Tracing(s') && SameButMarks(s, s')
            && s'.work == s.work.(cursor := s.work.cursor + 1, stack := s'.work.stack)
            && (s'.marked == s.marked ==> s'.work.stack == s.work.stack)
  {
    hide Safe, BornOk, PrepareOk, QueuesOk, Phases, TriColour;
    var b := s.work.block.value;
    var w := s.heap.mem[b][s.work.cursor];
    // The word is settled first; only then does the cursor leave it behind.
    var v := Visit(s, w, false);
    VisitKeeps(s, w, false);
    var s' := ScanWord(s);
    assert s' == v.(work := v.work.(cursor := s.work.cursor + 1));
    MarkedInHeap(v);
    assert StackOk(v.heap, s'.marked, s'.queued, s'.work);
    RetireWork(v.heap, v.marked, v.Since(), v.work, s'.work);
    StepKeepsTracing(v, s');
  }

  lemma BlockDoneKeeps(s: State)
    requires Tracing(s) && s.work.block.Some? && s.work.block.value in s.heap.mem
    requires s.work.cursor >= |s.heap.mem[s.work.block.value]|
    ensures Tracing(BlockDone(s)) && SameButMarks(s, BlockDone(s))
  {
    hide Safe, BornOk, PrepareOk, QueuesOk, Phases, TriColour;
    var s' := BlockDone(s);
    MarkedInHeap(s);
    assert StackOk(s.heap, s'.marked, s'.queued, s'.work);
    forall a, i: nat | a in s.marked && a in s.heap.mem && i < |s.heap.mem[a]| && s.work.Pending(a, i)
      ensures s'.work.Pending(a, i)
    {
    }
    RetireWork(s.heap, s.marked, s.Since(), s.work, s'.work);
    StepKeepsTracing(s, s');
  }

  // ---------------------------------------------------------------- completion

  /** Nothing is left to look at, and nothing was written since it was looked at. */
  predicate Exhausted(work: Work) {
    work.Quiet() && work.incoming == [] && work.kernelDirty == {}
  }

  ghost predicate RootsMarked(s: State) {
    forall w <- s.heap.roots :: w.Ptr? && w.target in s.heap.mem ==> w.target in s.marked
  }

  /** Marking has come to rest: in one pause the roots were visited and everything pending was looked at. */
  ghost predicate AtRest(s: State) {
    Tracing(s) && Exhausted(s.work) && RootsMarked(s)
  }

  /** The marks of an exhausted cycle cover what the program holds. */
  lemma ExhaustedCoversProgram(s: State, b: Block)
    requires AtRest(s) && Reachable(Strong(s.heap), b)
    ensures b in s.marked
  {
    hide SweepSound, ListsOk, Reclaim.Ok, EpochsOk, PrepareOk, QueuesOk, Phases, StackOk, MarksOk, BornOk, Reachable;
    var g := Strong(s.heap);
    var held := iset x | Reachable(g, x) && x in s.marked;
    forall x | x in g.roots ensures x in held {
      RootReachable(g, x);
      assert Ptr(x, false, true) in s.heap.roots || Ptr(x, true, true) in s.heap.roots;
    }
    forall e: (Block, Block) | e in g.edges && e.0 in held ensures e.1 in held {
      EdgeReachable(g, e.0, e.1);
      var i: nat :| HoldsAt(s.heap, e.0, i, e.1);
      HeldIsMarked(s.heap, s.marked, s.Since(), s.work, e.0, i, e.1);
    }
    ReachableInClosed(g, held, b);
  }

  /** No word through which the program holds a block is loose. */
  lemma HeldIsMarked(h: Heap, marked: set<Block>, recent: Recent, work: Work, a: Block, i: nat, b: Block)
    requires TriColour(h, marked, recent, work) && Exhausted(work)
    requires a in marked && Reachable(Strong(h), a) && HoldsAt(h, a, i, b) && b in h.inUse && b in h.mem
    ensures b in marked
  {
    hide Reachable;
    assert Settled(h, marked, recent, a, h.mem[a][i]) || work.Pending(a, i);
  }

  ghost function From(g: Graph, c: Block): Graph {
    Graph(iset{c}, g.edges)
  }

  /**
   A word that leads the oracle astray: a marked block it reaches names an unmarked one on a page mapped during the cycle,
   which is free or was handed out without a mark.
   */
  ghost predicate Stray(s: State, a: Block, i: nat, c: Block) {
    && Reachable(Conservative(s.heap), a) && a in s.marked && NamesAt(s.heap, a, i, c) && c !in s.marked
    && c.page in s.born && (c in s.heap.inUse ==> c in s.late)
  }

  /** Some stray word names the block. */
  ghost predicate Strays(s: State, c: Block) {
    exists a, i: nat :: Stray(s, a, i, c)
  }

  /** What a block named by a stray word leads to. */
  ghost predicate Astray(s: State, b: Block) {
    exists c :: Strays(s, c) && Reachable(From(Conservative(s.heap), c), b)
  }

  /** Only through a stray word does a marked block name an unmarked one, and the program does not hold that one. */
  lemma OnlyStrays(s: State, a: Block, i: nat, c: Block)
    requires AtRest(s) && Reachable(Conservative(s.heap), a) && a in s.marked && NamesAt(s.heap, a, i, c) && c !in s.marked
    ensures Stray(s, a, i, c) && Strays(s, c) && !Reachable(Strong(s.heap), c)
  {
    hide Safe, PrepareOk, QueuesOk, Phases, StackOk, MarksOk, Reachable;
    assert Settled(s.heap, s.marked, s.Since(), a, s.heap.mem[a][i]) || s.work.Pending(a, i);
    assert Stray(s, a, i, c);
    if Reachable(Strong(s.heap), c) {
      ExhaustedCoversProgram(s, c);
    }
  }

  /**
   When marking is exhausted in one pause, the oracle reaches exactly the unmarked blocks that stray words lead to: it
   reports what those lead to, and nothing else.
   */
  lemma ReportedExactly(s: State, b: Block)
    requires AtRest(s)
    ensures Reachable(Conservative(s.heap), b) && b !in s.marked <==> b !in s.marked && Astray(s, b)
  {
    hide Reachable, AtRest, Stray;
    var g := Conservative(s.heap);
    if Reachable(g, b) && b !in s.marked {
      ReachedAreAstray(s, b);
    }
    if Astray(s, b) {
      var c :| Strays(s, c) && Reachable(From(g, c), b);
      StrayReached(s, c);
      FromReached(g, c, b);
    }
  }

  lemma ReachedAreAstray(s: State, b: Block)
    requires AtRest(s) && Reachable(Conservative(s.heap), b)
    ensures b in s.marked || Astray(s, b)
  {
    hide Reachable, Stray, Tracing;
    var g := Conservative(s.heap);
    var reached := iset x | (x in s.marked && Reachable(g, x)) || Astray(s, x);
    forall x | x in g.roots ensures x in reached {
      RootReachable(g, x);
    }
    forall e: (Block, Block) | e in g.edges && e.0 in reached ensures e.1 in reached {
      var i: nat :| NamesAt(s.heap, e.0, i, e.1);
      if Astray(s, e.0) {
        var c :| Strays(s, c) && Reachable(From(g, c), e.0);
        EdgeReachable(From(g, c), e.0, e.1);
      } else {
        EdgeReachable(g, e.0, e.1);
        if e.1 !in s.marked {
          OnlyStrays(s, e.0, i, e.1);
          RootReachable(From(g, e.1), e.1);
        }
      }
    }
    ReachableInClosed(g, reached, b);
  }

  lemma StrayReached(s: State, c: Block)
    requires Strays(s, c)
    ensures Reachable(Conservative(s.heap), c) && c !in s.marked
  {
    hide Reachable;
    var a, i: nat :| Stray(s, a, i, c);
    assert (a, c) in Conservative(s.heap).edges;
    EdgeReachable(Conservative(s.heap), a, c);
  }

  lemma FromReached(g: Graph, c: Block, b: Block)
    requires Reachable(g, c) && Reachable(From(g, c), b)
    ensures Reachable(g, b)
  {
    hide Reachable;
    var reached := iset x | Reachable(g, x);
    forall e: (Block, Block) | e in g.edges && e.0 in reached ensures e.1 in reached {
      EdgeReachable(g, e.0, e.1);
    }
    ReachableInClosed(From(g, c), reached, b);
  }

  /** The oracle is silent if and only if no word is stray. */
  lemma SilentExactly(s: State)
    requires AtRest(s)
    ensures (forall b :: Reachable(Conservative(s.heap), b) ==> b in s.marked) <==> forall c :: !Strays(s, c)
  {
    hide Reachable, AtRest, Strays;
    forall c | Strays(s, c) ensures Reachable(Conservative(s.heap), c) && c !in s.marked {
      StrayReached(s, c);
    }
    forall b | Reachable(Conservative(s.heap), b) ensures b in s.marked || Astray(s, b) {
      ReachedAreAstray(s, b);
    }
  }

  /** Every block in use that the oracle reaches is marked if and only if no stray word names a block handed out without. */
  lemma InUseExactly(s: State)
    requires AtRest(s)
    ensures (forall b <- s.heap.inUse :: Reachable(Conservative(s.heap), b) ==> b in s.marked)
            <==> forall c <- s.late :: c in s.heap.inUse ==> !Strays(s, c)
  {
    hide Reachable, AtRest, Stray;
    forall c | Strays(s, c) ensures Reachable(Conservative(s.heap), c) && c !in s.marked {
      StrayReached(s, c);
    }
    if forall c <- s.late :: c in s.heap.inUse ==> !Strays(s, c) {
      forall b | b in s.heap.inUse && Reachable(Conservative(s.heap), b) ensures b in s.marked {
        InUseMarked(s, b);
      }
    }
  }

  lemma InUseMarked(s: State, b: Block)
    requires AtRest(s) && Reachable(Conservative(s.heap), b) && forall c <- s.late :: c in s.heap.inUse ==> !Strays(s, c)
    ensures b in s.marked || Untouched(s.heap.inUse, s.born, b)
  {
    hide Reachable, Safe, PrepareOk, QueuesOk, Phases, StackOk, MarksOk, TriColour, DirtyOk;
    var g := Conservative(s.heap);
    var reached := iset x | Reachable(g, x) && (x in s.marked || Untouched(s.heap.inUse, s.born, x));
    forall x | x in g.roots ensures x in reached {
      RootReachable(g, x);
    }
    forall e: (Block, Block) | e in g.edges && e.0 in reached ensures e.1 in reached {
      EdgeReachable(g, e.0, e.1);
      var i: nat :| NamesAt(s.heap, e.0, i, e.1);
      if e.0 in s.marked && e.1 !in s.marked {
        OnlyStrays(s, e.0, i, e.1);
      }
    }
    ReachableInClosed(g, reached, b);
  }
}
