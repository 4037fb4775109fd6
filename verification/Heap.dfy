/**
 The mutator's view of the heap: pages of blocks, the words stored in each block, and the root words (registered roots,
 pinned lists, thread stacks and saved registers).

 Two graphs are read off the same heap. The conservative graph is the one the collector and its debug oracle follow: any
 word of a pointer-bearing block whose value is the start of a block, and any root word that points into a block. The
 strong graph keeps only the words the program really holds as references. A word that merely looks like a pointer (a
 stale value in recycled memory, an integer) belongs to the first graph and not to the second.
 */
module HeapModel {

  /** A block of a page, named by the page and the block's index in it. */
  datatype Block = Block(page: nat, bid: nat)

  /** One machine word: not a pointer into the heap, or a pointer to the start (or the inside) of a block. */
  datatype Word = Bits | Ptr(target: Block, interior: bool, held: bool)

  const MEM_KIND_DYNAMIC: nat := 0
  const MEM_KIND_RAW: nat := 1
  const MEM_KIND_NOPTR: nat := 2
  const MEM_KIND_FINALIZER: nat := 3

  /** The immutable part of a page header. `osPages` is its size in pages of the operating system. */
  datatype PageInfo = PageInfo(slot: nat, kind: nat, varsize: bool, large: bool, firstBlock: nat, maxBlocks: nat,
                               osPages: nat, size: nat)
  {
    /** MEM_HAS_PTR: the second bit of the kind is clear. */
    predicate HasPtr() {
      kind / 2 % 2 == 0
    }
  }

  /** `mem` maps the blocks that are valid object starts to their words; `inUse` are those handed to the program. */
  datatype Heap = Heap(pages: map<nat, PageInfo>, mem: map<Block, seq<Word>>, inUse: set<Block>, roots: set<Word>)
  {
    predicate Traced(b: Block) {
      b.page in pages && pages[b.page].HasPtr()
    }

    ghost predicate WellFormed() {
      && inUse <= mem.Keys
      && forall b <- mem.Keys :: b.page in pages && pages[b.page].firstBlock <= b.bid < pages[b.page].maxBlocks
    }

    /** The start of the block that a heap word names exactly, if any. */
    predicate Names(w: Word, b: Block) {
      w.Ptr? && !w.interior && w.target == b && b in mem
    }

    /** A root word also keeps the block it points inside of. */
    predicate RootNames(w: Word, b: Block) {
      w.Ptr? && w.target == b && b in mem
    }
  }

  // ---------------------------------------------------------------- graphs and reachability

  datatype Graph = Graph(roots: iset<Block>, edges: iset<(Block, Block)>)

  ghost predicate IsPath(g: Graph, p: seq<Block>) {
    && |p| > 0
    && p[0] in g.roots
    && forall i :: 0 < i < |p| ==> (p[i - 1], p[i]) in g.edges
  }

  ghost predicate Reachable(g: Graph, b: Block) {
    exists p :: IsPath(g, p) && p[|p| - 1] == b
  }

  ghost predicate Closed(g: Graph, s: iset<Block>) {
    && g.roots <= s
    && forall e <- g.edges :: e.0 in s ==> e.1 in s
  }

  lemma RootReachable(g: Graph, b: Block)
    requires b in g.roots
    ensures Reachable(g, b)
  {
    assert IsPath(g, [b]) && [b][|[b]| - 1] == b;
  }

  lemma EdgeReachable(g: Graph, a: Block, b: Block)
    requires Reachable(g, a) && (a, b) in g.edges
    ensures Reachable(g, b)
  {
    var p :| IsPath(g, p) && p[|p| - 1] == a;
    var q := p + [b];
    assert IsPath(g, q) && q[|q| - 1] == b;
  }

  lemma {:induction false} PathInClosed(g: Graph, s: iset<Block>, p: seq<Block>)
    requires Closed(g, s) && IsPath(g, p)
    ensures p[|p| - 1] in s
    decreases |p|
  {
    if |p| > 1 {
      var q := p[..|p| - 1];
      assert IsPath(g, q);
      PathInClosed(g, s, q);
      assert (p[|p| - 2], p[|p| - 1]) in g.edges;
    }
  }

  /** The blocks reachable by paths are exactly those in every closed set: reachability is the least fixed point. */
  lemma ReachableIffInEveryClosedSet(g: Graph, b: Block)
    ensures Reachable(g, b) <==> forall s: iset<Block> :: Closed(g, s) ==> b in s
  {
    if Reachable(g, b) {
      var p :| IsPath(g, p) && p[|p| - 1] == b;
      forall s: iset<Block> | Closed(g, s) ensures b in s {
        PathInClosed(g, s, p);
      }
    }
    if forall s: iset<Block> :: Closed(g, s) ==> b in s {
      var s := iset x | Reachable(g, x);
      forall x | x in g.roots ensures x in s { RootReachable(g, x); }
      forall e | e in g.edges && e.0 in s ensures e.1 in s { EdgeReachable(g, e.0, e.1); }
      assert Closed(g, s);
    }
  }

  lemma ReachableInClosed(g: Graph, s: iset<Block>, b: Block)
    requires Closed(g, s) && Reachable(g, b)
    ensures b in s
  {
    ReachableIffInEveryClosedSet(g, b);
  }

  // ---------------------------------------------------------------- the two graphs of a heap

  /** Word `i` of `a` names the start of `b`. */
  ghost predicate NamesAt(h: Heap, a: Block, i: nat, b: Block) {
    a in h.mem && h.Traced(a) && i < |h.mem[a]| && h.Names(h.mem[a][i], b)
  }

  /** Word `i` of `a` is a reference to `b` that the program holds. A page without pointers holds no reference. */
  ghost predicate HoldsAt(h: Heap, a: Block, i: nat, b: Block) {
    a in h.mem && h.Traced(a) && i < |h.mem[a]| && h.mem[a][i] == Ptr(b, false, true)
  }

  ghost predicate RootNamed(h: Heap, b: Block) {
    exists w <- h.roots :: h.RootNames(w, b)
  }

  predicate RootHolds(h: Heap, b: Block) {
    Ptr(b, false, true) in h.roots || Ptr(b, true, true) in h.roots
  }

  /** What the collector follows: exact heap words and interior roots, whatever they really are. */
  ghost function Conservative(h: Heap): Graph {
    Graph(
      iset b | RootNamed(h, b),
      iset e: (Block, Block) | exists i: nat :: NamesAt(h, e.0, i, e.1))
  }

  /** What the program holds. */
  ghost function Strong(h: Heap): Graph {
    Graph(
      iset b | RootHolds(h, b),
      iset e: (Block, Block) | exists i: nat :: HoldsAt(h, e.0, i, e.1))
  }

  /** Memory safety: every block the program can reach is still handed out, so it is never reused under the program. */
  ghost predicate NoDangling(h: Heap) {
    forall b :: Reachable(Strong(h), b) ==> b in h.inUse
  }

  /**
   What a marker looks at. The incremental collector and its oracle look at every word. A full collection uses types: it
   follows only some words of a block, none of a block without a type, and takes a word that is only in registered roots
   for a reference if it is the start of a block, not if it points inside of one.
   */
  datatype Lens = Everything | Typed(follow: set<(Block, nat)>, registered: set<Word>)
  {
    predicate Reads(a: Block, i: nat) {
      Typed? ==> (a, i) in follow
    }

    predicate Takes(w: Word) {
      Typed? && w in registered && w.Ptr? ==> !w.interior
    }
  }

  ghost predicate RootSeen(h: Heap, lens: Lens, b: Block) {
    exists w <- h.roots :: h.RootNames(w, b) && lens.Takes(w)
  }

  ghost function Seen(h: Heap, lens: Lens): Graph {
    Graph(
      iset b | RootSeen(h, lens, b),
      iset e: (Block, Block) | exists i: nat :: NamesAt(h, e.0, i, e.1) && lens.Reads(e.0, i))
  }

  lemma SeeingEverything(h: Heap)
    ensures Seen(h, Everything) == Conservative(h)
  {
    var g, c := Seen(h, Everything), Conservative(h);
    forall b ensures b in g.roots <==> b in c.roots {
    }
    forall e: (Block, Block) ensures e in g.edges <==> e in c.edges {
      if e in c.edges {
        var i: nat :| NamesAt(h, e.0, i, e.1);
        assert Everything.Reads(e.0, i);
      }
    }
  }

  /** Types cover every reference the program holds, and a registered root holds the start of a block. */
  ghost predicate SeesHeld(h: Heap, lens: Lens) {
    && (forall a, i: nat, b :: HoldsAt(h, a, i, b) ==> lens.Reads(a, i))
    && (forall w <- h.roots :: w.Ptr? && w.held ==> lens.Takes(w))
  }

  /** Whatever the program holds, a marker sees whose types cover it. */
  lemma StrongIsSeen(h: Heap, lens: Lens, b: Block)
    requires h.WellFormed() && NoDangling(h) && SeesHeld(h, lens) && Reachable(Strong(h), b)
    ensures Reachable(Seen(h, lens), b)
  {
    hide Reachable;
    var g, c := Strong(h), Seen(h, lens);
    var s := iset x | Reachable(g, x) && Reachable(c, x);
    forall x | x in g.roots ensures x in s {
      RootReachable(g, x);
      var w :| w in h.roots && (w == Ptr(x, false, true) || w == Ptr(x, true, true));
      assert h.RootNames(w, x) && x in c.roots;
      RootReachable(c, x);
    }
    forall e | e in g.edges && e.0 in s ensures e.1 in s {
      EdgeReachable(g, e.0, e.1);
      assert e.1 in h.inUse;
      var i: nat :| HoldsAt(h, e.0, i, e.1);
      assert NamesAt(h, e.0, i, e.1) && lens.Reads(e.0, i);
      assert (e.0, e.1) in c.edges;
      EdgeReachable(c, e.0, e.1);
    }
    ReachableInClosed(g, s, b);
  }

  // ---------------------------------------------------------------- what the program may do

  /** The program stores references it can reach; any other word it stores is not a reference it holds. */
  ghost predicate MayHold(h: Heap, w: Word) {
    w.Ptr? && w.held ==> Reachable(Strong(h), w.target)
  }

  function Store(h: Heap, b: Block, i: nat, w: Word): Heap
    requires b in h.mem && i < |h.mem[b]|
  {
    h.(mem := h.mem[b := h.mem[b][i := w]])
  }

  lemma StoreReachesNoMore(h: Heap, b: Block, i: nat, w: Word, x: Block)
    requires b in h.mem && i < |h.mem[b]| && MayHold(h, w)
    requires Reachable(Strong(Store(h, b, i, w)), x)
    ensures Reachable(Strong(h), x)
  {
    var g, g' := Strong(h), Strong(Store(h, b, i, w));
    var s := iset y | Reachable(g, y);
    forall y | y in g'.roots ensures y in s { RootReachable(g, y); }
    forall e | e in g'.edges && e.0 in s ensures e.1 in s {
      var j: nat :| HoldsAt(Store(h, b, i, w), e.0, j, e.1);
      if e.0 != b || j != i {
        assert HoldsAt(h, e.0, j, e.1);
        assert (e.0, e.1) in g.edges;
        EdgeReachable(g, e.0, e.1);
      }
    }
    ReachableInClosed(g', s, x);
  }

  lemma RootsReachNoMore(h: Heap, roots: set<Word>, x: Block)
    requires forall w <- roots :: MayHold(h, w)
    requires Reachable(Strong(h.(roots := roots)), x)
    ensures Reachable(Strong(h), x)
  {
    var g, g' := Strong(h), Strong(h.(roots := roots));
    var s := iset y | Reachable(g, y);
    forall e | e in g'.edges && e.0 in s ensures e.1 in s {
      var i: nat :| HoldsAt(h.(roots := roots), e.0, i, e.1);
      assert HoldsAt(h, e.0, i, e.1);
      EdgeReachable(g, e.0, e.1);
    }
    ReachableInClosed(g', s, x);
  }

  /** A block of recycled or fresh memory, handed out with whatever words it has: none of them is a reference yet. */
  function Handout(h: Heap, b: Block, words: seq<Word>): Heap {
    h.(mem := h.mem[b := words], inUse := h.inUse + {b}, roots := h.roots + {Ptr(b, false, true)})
  }

  predicate Inert(words: seq<Word>) {
    forall i :: 0 <= i < |words| ==> words[i].Ptr? ==> !words[i].held
  }

  lemma HandoutReachesOnlyIt(h: Heap, b: Block, words: seq<Word>, x: Block)
    requires Inert(words)
    requires Reachable(Strong(Handout(h, b, words)), x)
    ensures x == b || Reachable(Strong(h), x)
  {
    var g, g' := Strong(h), Strong(Handout(h, b, words));
    var s := iset y | y == b || Reachable(g, y);
    forall y | y in g'.roots ensures y in s {
      if y != b { RootReachable(g, y); }
    }
    forall e | e in g'.edges && e.0 in s ensures e.1 in s {
      var i: nat :| HoldsAt(Handout(h, b, words), e.0, i, e.1);
      if e.0 != b {
        assert HoldsAt(h, e.0, i, e.1);
        EdgeReachable(g, e.0, e.1);
      }
    }
    ReachableInClosed(g', s, x);
  }

  /** Blocks that leave the heap (a swept block, a freed page) or join it unallocated do not change what is held. */
  lemma SameWordsSameReach(h: Heap, h': Heap, x: Block)
    requires h'.roots == h.roots && NoDangling(h) && h.inUse <= h.mem.Keys
    requires forall b :: Reachable(Strong(h), b) ==> b in h'.mem && h'.mem[b] == h.mem[b]
    requires forall b <- h.inUse :: h'.Traced(b) ==> h.Traced(b)
    requires Reachable(Strong(h'), x)
    ensures Reachable(Strong(h), x)
  {
    var g, g' := Strong(h), Strong(h');
    var s := iset y | Reachable(g, y);
    forall y | y in g'.roots ensures y in s { RootReachable(g, y); }
    forall e | e in g'.edges && e.0 in s ensures e.1 in s {
      var i: nat :| HoldsAt(h', e.0, i, e.1);
      assert HoldsAt(h, e.0, i, e.1);
      EdgeReachable(g, e.0, e.1);
    }
    ReachableInClosed(g', s, x);
  }
}
