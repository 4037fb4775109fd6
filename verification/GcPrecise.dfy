/**
 What the collector can have marked. A ghost set grows with the run: the blocks that some sequence of words led to when
 the cycle began or at any time since, and those of pages mapped since. Marks never leave it, so a block outside of it is
 not kept by the cycle.
 */
module GcPrecise {
  import opened Basics
  import opened HeapModel
  import opened GcState
  import opened GcMark
  import opened GcMutator
  import opened GcReclaim

  /** No word leads out of the set, and every mark is in it. */
  ghost predicate Precise(s: State, met: iset<Block>) {
    Closed(Conservative(s.heap), met) && forall b <- s.marked :: b in met
  }

  /** What a cycle that begins now starts from. */
  ghost function Met(h: Heap): iset<Block> {
    iset b | Reachable(Conservative(h), b)
  }

  /** What is met after a step of a mutator that adds the blocks of `fresh_`. */
  ghost function MetAfter(met: iset<Block>, h: Heap, mapped: iset<Block>): iset<Block> {
    met + Met(h) + mapped
  }

  lemma MetIsClosed(h: Heap)
    ensures Closed(Conservative(h), Met(h))
  {
    hide Reachable;
    var g := Conservative(h);
    forall b | b in g.roots ensures b in Met(h) {
      RootReachable(g, b);
    }
    forall e | e in g.edges && e.0 in Met(h) ensures e.1 in Met(h) {
      EdgeReachable(g, e.0, e.1);
    }
  }

  // ---------------------------------------------------------------- in a pause

  lemma VisitRootMeets(s: State, w: Word, met: iset<Block>)
    requires Precise(s, met) && w in s.heap.roots
    ensures Precise(Visit(s, w, true), met)
  {
    if w.Ptr? && w.target in s.heap.mem {
      assert s.heap.RootNames(w, w.target);
      assert w.target in Conservative(s.heap).roots;
    }
  }

  lemma ScanWordMeets(s: State, met: iset<Block>)
    requires Precise(s, met) && Tracing(s) && s.work.block.Some? && s.work.cursor < |s.heap.mem[s.work.block.value]|
    ensures Precise(ScanWord(s), met)
  {
    hide Safe, PrepareOk, QueuesOk, Phases, TriColour, MarksOk, BornOk, DirtyOk;
    var a, i := s.work.block.value, s.work.cursor;
    assert a in s.queued;
    var w := s.heap.mem[a][i];
    if w.Ptr? && !w.interior && w.target in s.heap.mem {
      assert NamesAt(s.heap, a, i, w.target);
      assert (a, w.target) in Conservative(s.heap).edges;
    }
  }

  lemma SameMarksMeet(s: State, s': State, met: iset<Block>)
    requires Precise(s, met) && s'.marked == s.marked && Shrunk(s.heap, s'.heap)
    ensures Precise(s', met)
  {
    forall e: (Block, Block) | e in Conservative(s'.heap).edges ensures e in Conservative(s.heap).edges {
      var i: nat :| NamesAt(s'.heap, e.0, i, e.1);
      assert NamesAt(s.heap, e.0, i, e.1);
    }
    forall b | b in Conservative(s'.heap).roots ensures b in Conservative(s.heap).roots {
      var w :| w in s'.heap.roots && s'.heap.RootNames(w, b);
      assert s.heap.RootNames(w, b);
    }
  }

  // ---------------------------------------------------------------- between pauses

  /** A block whose words changed is reached now, and so is what its words name. */
  lemma MeetsMore(h: Heap, h': Heap, met: iset<Block>, mapped: iset<Block>)
    requires Closed(Conservative(h), met)
    requires forall a, i: nat, b :: NamesAt(h', a, i, b) && !Reachable(Conservative(h'), a) ==>
               a !in mapped && (NamesAt(h, a, i, b) || Reachable(Conservative(h'), b) || b in mapped)
    ensures Closed(Conservative(h'), MetAfter(met, h', mapped))
  {
    hide Reachable;
    var g' := Conservative(h');
    MetIsClosed(h');
    forall e: (Block, Block) | e in g'.edges && e.0 in MetAfter(met, h', mapped) ensures e.1 in MetAfter(met, h', mapped) {
      var i: nat :| NamesAt(h', e.0, i, e.1);
      if Reachable(g', e.0) {
        EdgeReachable(g', e.0, e.1);
      } else if NamesAt(h, e.0, i, e.1) {
        assert e in Conservative(h).edges;
      }
    }
  }

  lemma RootsMeet(s: State, roots: set<Word>, met: iset<Block>)
    requires Precise(s, met)
    ensures Precise(WithRoots(s, roots), MetAfter(met, WithRoots(s, roots).heap, iset{}))
  {
    hide Reachable;
    var h' := WithRoots(s, roots).heap;
    forall a, i: nat, b | NamesAt(h', a, i, b) ensures NamesAt(s.heap, a, i, b) {
    }
    MeetsMore(s.heap, h', met, iset{});
  }

  lemma RootHeldReached(h: Heap, b: Block)
    requires RootHolds(h, b) && b in h.mem
    ensures Reachable(Conservative(h), b)
  {
    assert h.RootNames(Ptr(b, false, true), b) && h.RootNames(Ptr(b, true, true), b);
    RootReachable(Conservative(h), b);
  }

  lemma StoreMeets(s: State, b: Block, i: nat, w: Word, os: nat, barrier: bool, met: iset<Block>)
    requires Precise(s, met) && RootHolds(s.heap, b) && b in s.heap.mem && i < |s.heap.mem[b]|
    ensures var s' := StoreStep(s, b, i, w, os, barrier); Precise(s', MetAfter(met, s'.heap, iset{}))
  {
    hide Reachable;
    var h' := StoreStep(s, b, i, w, os, barrier).heap;
    RootHeldReached(h', b);
    forall a, j: nat, c | NamesAt(h', a, j, c) && a != b ensures NamesAt(s.heap, a, j, c) {
    }
    MeetsMore(s.heap, h', met, iset{});
  }

  /** A block handed out is a root at once. */
  lemma HandoutMeets(s: State, s': State, b: Block, words: seq<Word>, met: iset<Block>)
    requires Precise(s, met) && s'.heap == Handout(s.heap, b, words) && s'.marked <= s.marked + {b}
    ensures Precise(s', MetAfter(met, s'.heap, iset{}))
  {
    hide Reachable;
    RootHeldReached(s'.heap, b);
    forall a, j: nat, c | NamesAt(s'.heap, a, j, c) && a != b && c != b ensures NamesAt(s.heap, a, j, c) {
    }
    MeetsMore(s.heap, s'.heap, met, iset{});
  }

  ghost function OnPage(page: nat): iset<Block> {
    iset b: Block | b.page == page
  }

  lemma MapMeets(s: State, page: nat, info: PageInfo, words: nat, met: iset<Block>)
    requires Precise(s, met) && s.heap.WellFormed() && page !in s.heap.pages && info.slot < |s.lists|
    ensures var s' := MapStep(s, page, info, words); Precise(s', MetAfter(met, s'.heap, OnPage(page)))
  {
    hide Reachable;
    var h' := MapStep(s, page, info, words).heap;
    forall a, j: nat, c | NamesAt(h', a, j, c) ensures a.page != page && (NamesAt(s.heap, a, j, c) || c.page == page) {
      assert a !in BlocksOf(page, info) || a !in s.heap.mem;
    }
    MeetsMore(s.heap, h', met, OnPage(page));
  }
}
