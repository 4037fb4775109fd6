/**
 Complete traversals of a stopped heap. `Validate` is the collector's debug oracle: an independent breadth-first search
 that reports the reachable blocks the incremental marks miss. `FullMark` is the marking of a full collection by one
 thread, which looks at the words its types tell it to follow.
 */
module GcOracle {
  import opened HeapModel

  /** The blocks seen so far, and those of them whose words are to be read, in the order they were found. */
  datatype Chase = Chase(seen: set<Block>, queue: seq<Block>)

  function See(h: Heap, c: Chase, b: Block): Chase {
    if b !in h.mem || b in c.seen then c
    else Chase(c.seen + {b}, if h.Traced(b) then c.queue + [b] else c.queue)
  }

  ghost predicate ChaseOk(h: Heap, c: Chase) {
    && (forall b <- c.queue :: b in c.seen && h.Traced(b))
    && (forall b <- c.seen :: b in h.mem && (h.Traced(b) ==> b in c.queue))
  }

  ghost predicate Names(h: Heap, lens: Lens, a: Block, i: nat, b: Block) {
    NamesAt(h, a, i, b) && lens.Reads(a, i)
  }

  /** The words before `i` of the block have had their targets seen. */
  ghost predicate Read(h: Heap, lens: Lens, c: Chase, a: Block, i: nat) {
    forall j: nat, b :: j < i && Names(h, lens, a, j, b) ==> b in c.seen
  }

  lemma SeeKeeps(h: Heap, lens: Lens, c: Chase, b: Block)
    requires ChaseOk(h, c)
    ensures var c' := See(h, c, b);
            && ChaseOk(h, c') && c.seen <= c'.seen && c.queue <= c'.queue && (b in h.mem ==> b in c'.seen)
            && (c'.seen == c.seen ==> c' == c) && (forall x <- c'.seen :: x in c.seen || (x == b && b in h.mem))
            && (forall a, i: nat :: Read(h, lens, c, a, i) ==> Read(h, lens, c', a, i))
  {
  }

  /** Sees exactly the targets of the root words that count. */
  method SeeRoots(h: Heap, lens: Lens) returns (c: Chase)
    ensures ChaseOk(h, c)
    ensures forall b :: b in c.seen <==> RootSeen(h, lens, b)
  {
    c := Chase({}, []);
    var todo := h.roots;
    while todo != {}
      invariant todo <= h.roots && ChaseOk(h, c)
      invariant forall w <- h.roots - todo :: w.Ptr? && w.target in h.mem && lens.Takes(w) ==> w.target in c.seen
      invariant forall b <- c.seen :: RootSeen(h, lens, b)
    {
      var w :| w in todo;
      todo := todo - {w};
      if w.Ptr? && lens.Takes(w) {
        assert w.target in h.mem ==> h.RootNames(w, w.target);
        SeeKeeps(h, lens, c, w.target);
        c := See(h, c, w.target);
      }
    }
  }

  /** Reads the words of one block that count and sees the blocks they name. */
  method ReadBlock(h: Heap, lens: Lens, c: Chase, a: Block) returns (c': Chase)
    requires ChaseOk(h, c) && a in h.mem && h.Traced(a)
    ensures ChaseOk(h, c') && c.seen <= c'.seen && c.queue <= c'.queue && (c'.seen == c.seen ==> c' == c)
    ensures Read(h, lens, c', a, |h.mem[a]|)
    ensures forall b, i: nat :: Read(h, lens, c, b, i) ==> Read(h, lens, c', b, i)
    ensures forall b <- c'.seen - c.seen :: (a, b) in Seen(h, lens).edges
  {
    hide ChaseOk;
    c' := c;
    var i := 0;
    while i < |h.mem[a]|
      invariant i <= |h.mem[a]| && ChaseOk(h, c') && c.seen <= c'.seen && c.queue <= c'.queue
      invariant c'.seen == c.seen ==> c' == c
      invariant Read(h, lens, c', a, i)
      invariant forall b, j: nat :: Read(h, lens, c, b, j) ==> Read(h, lens, c', b, j)
      invariant forall b <- c'.seen - c.seen :: (a, b) in Seen(h, lens).edges
    {
      var w := h.mem[a][i];
      if lens.Reads(a, i) && w.Ptr? && !w.interior {
        assert w.target in h.mem ==> NamesAt(h, a, i, w.target) && lens.Reads(a, i);
        SeeKeeps(h, lens, c', w.target);
        c' := See(h, c', w.target);
      }
      i := i + 1;
    }
  }

  /** What is seen in the end is exactly what can be reached. */
  method Traverse(h: Heap, lens: Lens) returns (seen: set<Block>)
    ensures forall b :: b in seen <==> Reachable(Seen(h, lens), b)
  {
    hide Reachable;
    ghost var g := Seen(h, lens);
    var c := SeeRoots(h, lens);
    ghost var roots := c.seen;
    forall b | b in roots ensures Reachable(g, b) {
      RootReachable(g, b);
    }
    var index := 0;
    while index < |c.queue|
      invariant index <= |c.queue| && ChaseOk(h, c) && roots <= c.seen
      invariant forall k :: 0 <= k < index ==> Read(h, lens, c, c.queue[k], |h.mem[c.queue[k]]|)
      invariant forall b <- c.seen :: Reachable(g, b)
      decreases h.mem.Keys - c.seen, |c.queue| - index
    {
      var a := c.queue[index];
      var c' := ReadBlock(h, lens, c, a);
      forall b | b in c'.seen - c.seen ensures Reachable(g, b) {
        EdgeReachable(g, a, b);
      }
      c := c';
      index := index + 1;
    }
    SeenIsClosed(h, lens, c);
    forall b | Reachable(g, b) ensures b in c.seen {
      ReachableInClosed(g, (iset x | x in c.seen), b);
    }
    seen := c.seen;
  }

  lemma SeenIsClosed(h: Heap, lens: Lens, c: Chase)
    requires ChaseOk(h, c) && forall b :: RootSeen(h, lens, b) ==> b in c.seen
    requires forall k :: 0 <= k < |c.queue| ==> Read(h, lens, c, c.queue[k], |h.mem[c.queue[k]]|)
    ensures Closed(Seen(h, lens), iset x | x in c.seen)
  {
    forall e: (Block, Block) | e in Seen(h, lens).edges && e.0 in c.seen ensures e.1 in c.seen {
      var i: nat :| NamesAt(h, e.0, i, e.1) && lens.Reads(e.0, i);
      assert Names(h, lens, e.0, i, e.1);
      assert Read(h, lens, c, e.0, |h.mem[e.0]|);
    }
  }

  /** The oracle reports exactly the reachable blocks that carry no mark. */
  method Validate(h: Heap, marked: set<Block>) returns (missing: set<Block>)
    ensures forall b :: b in missing <==> Reachable(Conservative(h), b) && b !in marked
  {
    hide Reachable;
    SeeingEverything(h);
    var seen := Traverse(h, Everything);
    missing := seen - marked;
  }

  /** A full collection marks what its types let it reach, and with it everything the program holds. */
  method FullMark(h: Heap, lens: Lens) returns (marks: set<Block>)
    requires h.WellFormed() && NoDangling(h) && SeesHeld(h, lens)
    ensures forall b :: b in marks <==> Reachable(Seen(h, lens), b)
    ensures forall b :: Reachable(Strong(h), b) ==> b in marks
  {
    hide Reachable;
    marks := Traverse(h, lens);
    forall b | Reachable(Strong(h), b) ensures b in marks {
      StrongIsSeen(h, lens, b);
    }
  }
}
