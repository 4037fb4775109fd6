/**
 Allocation from the pages of one list: runs for thread buffers on fixed-size pages, objects on variable-size pages, the
 lazy sweep that runs before either, and collections that publish new marks.
 */
module Allocator {
  import opened PageModel

  /** What a thread's buffer has left: the blocks from `cur` up to `end`. */
  datatype Span = Span(cur: nat, end: nat)
  {
    predicate Has(q: int) {
      cur <= q < end
    }
  }

  /** `live` maps the start of each object handed out, and not yet swept, to its number of blocks. */
  datatype Page = Page(grid: Grid, needFlush: bool, tlabs: map<nat, Span>, live: map<nat, nat>)
  {
    ghost predicate Owned(q: int) {
      exists b <- live :: b <= q < b + live[b]
    }
  }

  // ---------------------------------------------------------------- no block has two claims

  /** Objects handed out fill their extents, do not overlap, and hold no listed block. */
  ghost predicate LiveOk(grid: Grid, live: map<nat, nat>) {
    && |grid.sizes| == grid.max
    && (forall b <- live :: grid.first <= b < grid.max && live[b] == grid.Extent(b) && (grid.varsize ==> grid.sizes[b] > 0))
    && (forall b, c :: b in live && c in live && b < c ==> b + live[b] <= c)
    && (forall b, q: nat :: b in live && b <= q < b + live[b] ==> !grid.Listed(q))
  }

  /** Thread buffers hold disjoint runs of blocks that are neither listed nor handed out. */
  ghost predicate TlabsOk(grid: Grid, live: map<nat, nat>, tlabs: map<nat, Span>) {
    && (forall t <- tlabs :: grid.first <= tlabs[t].cur <= tlabs[t].end <= grid.max)
    && (forall t, q: nat :: t in tlabs && tlabs[t].Has(q) ==> !grid.Listed(q))
    && (forall t, q: nat, b :: t in tlabs && tlabs[t].Has(q) && b in live && b <= q ==> b + live[b] <= q)
    && (forall t, u, q: nat :: t in tlabs && u in tlabs && t != u && tlabs[t].Has(q) ==> !tlabs[u].Has(q))
  }

  /** On variable-size pages a mark stands only where an object starts: elsewhere no address names a block. */
  ghost predicate MarksStart(grid: Grid, marks: seq<bool>) {
    grid.varsize ==> forall b: nat :: b < |marks| && b < |grid.sizes| && marks[b] ==> grid.sizes[b] > 0
  }

  /** No buffer survives into a sweep, and variable-size pages serve no buffers. */
  ghost predicate PageInv(p: Page) {
    && Shape(p.grid) && NoEmptyRun(p.grid)
    && LiveOk(p.grid, p.live) && MarksStart(p.grid, p.grid.marks)
    && TlabsOk(p.grid, p.live, p.tlabs)
    && (p.grid.varsize || p.needFlush ==> p.tlabs == map[])
  }

  // ---------------------------------------------------------------- sweeping

  /** A marked object keeps its extent to itself. */
  lemma MarkedNotSwept(g: Grid, live: map<nat, nat>, b: nat, q: nat)
    requires Shape(g) && LiveOk(g, live) && b in live && g.marks[b] && b <= q < b + live[b]
    ensures !SweptAway(g, q) && g.first <= q < g.max
  {
    forall h: nat | DeadHead(g, h) && h <= q ensures h + g.Extent(h) <= q {
      assert h < b ==> g.varsize ==> g.sizes[b] > 0;
    }
  }

  /** The lazy sweep of a page: objects without a mark are no longer handed out, marked ones are untouched. */
  method Flush(p: Page) returns (p': Page)
    requires PageInv(p) && p.needFlush
    ensures PageInv(p') && !p'.needFlush && p'.tlabs == map[]
    ensures p'.live == map b | b in p.live && p.grid.marks[b] :: p.live[b]
    ensures p'.grid == p.grid.(runs := p'.grid.runs, current := 0, sizes := p'.grid.sizes)
    ensures forall q: nat :: p.grid.first <= q < p.grid.max ==> (p'.grid.Listed(q) <==> p.grid.Listed(q) || SweptAway(p.grid, q))
  {
    hide Shape, TlabsOk, SweptAway, Grid.Listed, Grid.Boundary;
    MarkedSized(p);
    var grid := FlushFreeList(p.grid);
    var live := map b | b in p.live && p.grid.marks[b] :: p.live[b];
    forall b, q: nat | b in live && b <= q < b + live[b] ensures !grid.Listed(q) {
      MarkedNotSwept(p.grid, p.live, b, q);
    }
    NoTlabs(grid, live);
    p' := Page(grid, false, map[], live);
  }

  lemma MarkedSized(p: Page)
    requires PageInv(p)
    ensures |p.grid.marks| == |p.grid.sizes| == p.grid.max
  {
  }

  lemma NoTlabs(grid: Grid, live: map<nat, nat>)
    ensures TlabsOk(grid, live, map[])
  {
  }

  // ---------------------------------------------------------------- taking blocks off the list

  function NewPage(first: nat, max: nat, varsize: bool): Page
    requires first <= max
  {
    Page(Grid(first, max, varsize, [Run(first, max - first)], 0, seq(max, _ => 0), seq(max, _ => false)), false, map[], map[])
  }

  lemma NewPageKeeps(first: nat, max: nat, varsize: bool)
    requires first < max
    ensures PageInv(NewPage(first, max, varsize))
  {
  }

  /** The page with `count` blocks taken from the front of run `k`; a run used up exactly moves `current` on by one. */
  function Cut(g: Grid, k: nat, count: nat): Grid
    requires k < |g.runs| && count <= g.runs[k].count
  {
    var run := g.runs[k];
    g.(runs := g.runs[k := Run(run.pos + count, run.count - count)],
       current := if run.count == count then g.current + 1 else g.current)
  }

  ghost predicate Cuttable(g: Grid, k: nat, count: nat) {
    && Shape(g) && NoEmptyRun(g) && g.current <= k < |g.runs| && 0 < count <= g.runs[k].count
    && (g.varsize || k == g.current)
  }

  /**
   The blocks cut off were listed and are not any more, and nothing else becomes listed. A later run used up exactly may
   push `current` past a run that still has blocks: those are lost to the list until the next sweep, never given twice.
   */
  lemma CutTakes(g: Grid, k: nat, count: nat, q: nat)
    requires Cuttable(g, k, count)
    ensures var c, bid := Cut(g, k, count), g.runs[k].pos;
            && (bid <= q < bid + count ==> g.Listed(q) && !c.Listed(q))
            && (c.Listed(q) ==> g.Listed(q))
  {
    hide TilesOk;
    var c, bid := Cut(g, k, count), g.runs[k].pos;
    if bid <= q < bid + count {
      CutUnlists(g, k, count, q);
    }
    if c.Listed(q) {
      var l :| c.current <= l < |c.runs| && c.runs[l].pos <= q < c.runs[l].End();
      assert g.runs[l].pos <= q < g.runs[l].End();
    }
  }

  lemma CutUnlists(g: Grid, k: nat, count: nat, q: nat)
    requires Cuttable(g, k, count) && g.runs[k].pos <= q < g.runs[k].pos + count
    ensures g.Listed(q) && !Cut(g, k, count).Listed(q)
  {
    hide TilesOk;
    var c := Cut(g, k, count);
    assert g.runs[k].pos <= q < g.runs[k].End();
    assert forall l :: c.current <= l < |c.runs| ==> q < c.runs[l].pos || c.runs[l].End() <= q;
  }

  /** The size bytes of an object's blocks: its length at the first, 0 at the others. */
  function Sized(sizes: seq<nat>, bid: nat, n: nat): seq<nat>
    requires bid + n <= |sizes| && n > 0
  {
    sizes[..bid] + [n] + seq(n - 1, _ => 0) + sizes[bid + n..]
  }

  /** The grid with an object of `n` blocks at the front of run `k`, and its mark. */
  function ObjectGrid(g: Grid, k: nat, n: nat): Grid
    requires k < |g.runs| && 0 < n <= g.runs[k].count && g.runs[k].pos + n <= |g.sizes| == |g.marks|
  {
    var bid := g.runs[k].pos;
    Cut(g, k, n).(sizes := Sized(g.sizes, bid, n), marks := g.marks[bid := true])
  }

  /** Every listed block that is not cut off stays listed. */
  ghost predicate Conserves(g: Grid, k: nat, count: nat)
    requires k < |g.runs| && count <= g.runs[k].count
  {
    forall q: nat :: g.Listed(q) && !(g.runs[k].pos <= q < g.runs[k].pos + count) ==> Cut(g, k, count).Listed(q)
  }

  /** No block is skipped exactly if the run is not used up, or is the current one, or the current one is empty. */
  lemma CutConservesExactly(g: Grid, k: nat, count: nat)
    requires Cuttable(g, k, count)
    ensures Conserves(g, k, count) <==> count < g.runs[k].count || k == g.current || g.runs[g.current].count == 0
  {
    hide TilesOk;
    var c, bid := Cut(g, k, count), g.runs[k].pos;
    if count < g.runs[k].count || k == g.current || g.runs[g.current].count == 0 {
      forall q: nat | g.Listed(q) && !(bid <= q < bid + count) ensures c.Listed(q) {
        var l :| g.current <= l < |g.runs| && g.runs[l].pos <= q < g.runs[l].End();
        assert c.current <= l && c.runs[l].pos <= q < c.runs[l].End();
      }
    } else {
      var q := g.runs[g.current].pos;
      assert g.runs[g.current].pos <= q < g.runs[g.current].End();
      assert g.Listed(q) && q < bid;
      CurrentSkipped(g, k, count, q);
    }
  }

  /** A run skipped by `current` is behind all that are listed. */
  lemma CurrentSkipped(g: Grid, k: nat, count: nat, q: nat)
    requires Cuttable(g, k, count) && count == g.runs[k].count && k > g.current
    requires g.runs[g.current].pos <= q < g.runs[g.current].End()
    ensures !Cut(g, k, count).Listed(q)
  {
    hide TilesOk;
    var c := Cut(g, k, count);
    assert forall l :: c.current <= l < |c.runs| ==> q < c.runs[l].pos;
  }

  /** A free block that the list has lost: no object covers it, and all listed runs are behind it. */
  ghost predicate Lost(g: Grid, q: nat) {
    && g.varsize && g.first <= q < g.max == |g.sizes| && g.sizes[q] == 0 && g.Boundary(q)
    && forall l :: g.current <= l < |g.runs| ==> q < g.runs[l].pos
  }

  /** A block that is skipped is lost: free, and not listed. */
  lemma SkippedIsLost(g: Grid, k: nat, n: nat, q: nat)
    requires Cuttable(g, k, n) && g.varsize && g.Listed(q) && !(g.runs[k].pos <= q < g.runs[k].pos + n) && !Cut(g, k, n).Listed(q)
    requires Shape(g) && g.runs[k].pos + n <= |g.sizes|
    ensures Lost(ObjectGrid(g, k, n), q)
  {
    var c, bid := Cut(g, k, n), g.runs[k].pos;
    var l :| g.current <= l < |g.runs| && g.runs[l].pos <= q < g.runs[l].End();
    assert l == g.current && n == g.runs[k].count && k > l by {
      assert c.current <= l ==> c.runs[l].pos <= q < c.runs[l].End();
    }
    var g' := ObjectGrid(g, k, n);
    forall b: nat | b < g.max ensures |g'.sizes| == g.max && (b < bid ==> g'.sizes[b] == g.sizes[b]) {
      SizedAt(g.sizes, bid, n, b);
    }
    forall b: nat | g.first <= b < q ensures b + g'.Extent(b) <= q {
      assert g'.Extent(b) == g.Extent(b);
      if b >= g.runs[l].pos {
        assert g.runs[l].pos <= b < g.runs[l].End();
        assert g.Listed(b) && g.sizes[b] == 0;
      } else {
        assert b + g.Extent(b) <= g.runs[l].pos;
      }
    }
  }

  /** It stays lost while other objects are allocated on the page. */
  lemma LostStays(g: Grid, k: nat, n: nat, q: nat)
    requires Cuttable(g, k, n) && g.varsize && Lost(g, q) && g.runs[k].pos + n <= |g.sizes|
    ensures Lost(ObjectGrid(g, k, n), q)
  {
    var bid := g.runs[k].pos;
    var g' := ObjectGrid(g, k, n);
    forall b: nat | b < g.max ensures |g'.sizes| == g.max && (b < bid ==> g'.sizes[b] == g.sizes[b]) {
      SizedAt(g.sizes, bid, n, b);
    }
    forall b: nat | g.first <= b < q ensures b + g'.Extent(b) <= q {
      assert b + g.Extent(b) <= q;
    }
  }

  /** And the next sweep lists it again, whatever marks it goes by. */
  method SweepRecovers(p: Page, q: nat) returns (p': Page)
    requires PageInv(p) && p.needFlush && Lost(p.grid, q)
    ensures PageInv(p') && !p.grid.Listed(q) && p'.grid.Listed(q)
  {
    p' := Flush(p);
    assert DeadHead(p.grid, q) && p.grid.Extent(q) == 1;
    assert SweptAway(p.grid, q);
  }

  /** A page after a sweep, with blocks 0 and 2 free between marked objects; block 2 is taken, and block 0 is skipped. */
  lemma BlockZeroIsSkipped()
    ensures var g := Grid(0, 4, true, [Run(0, 1), Run(2, 1)], 0, [0, 1, 0, 1], [false, true, false, true]);
            Cuttable(g, 1, 1) && MarksStart(g, g.marks) && g.Listed(0) && !Cut(g, 1, 1).Listed(0)
  {
    var g := Grid(0, 4, true, [Run(0, 1), Run(2, 1)], 0, [0, 1, 0, 1], [false, true, false, true]);
    assert g.runs[0].pos <= 0 < g.runs[0].End();
    assert Shape(g) by {
      assert forall b: nat :: b < 4 ==> g.Extent(b) == 1;
      assert forall q: nat :: g.Listed(q) ==> q == 0 || q == 2;
    }
  }

  lemma CutRuns(g: Grid, k: nat, count: nat)
    requires Cuttable(g, k, count)
    ensures var c, bid := Cut(g, k, count), g.runs[k].pos;
            && RunsOk(c.runs, c.current, g.first, g.max) && NoEmptyRun(c)
            && g.first <= bid && bid + count <= g.max
  {
    hide TilesOk;
  }

  /** Taking blocks of a fixed-size page leaves its tiling alone: every block stands for itself. */
  lemma CutFixed(g: Grid, k: nat, count: nat)
    requires Cuttable(g, k, count) && !g.varsize
    ensures Shape(Cut(g, k, count))
  {
    hide Grid.Listed, RunsOk;
    CutRuns(g, k, count);
  }

  // ---------------------------------------------------------------- thread buffers

  /** gc_alloc_fixed_run on a page with a run: up to `want` blocks go to a thread's buffer. */
  function TakeRun(p: Page, t: nat, want: nat): Page
    requires p.grid.current < |p.grid.runs|
  {
    var run := p.grid.runs[p.grid.current];
    var taken := if run.count < want then run.count else want;
    p.(grid := Cut(p.grid, p.grid.current, taken), tlabs := p.tlabs[t := Span(run.pos, run.pos + taken)])
  }

  /** Listing fewer blocks takes nothing away from objects and buffers. */
  lemma FewerListed(g: Grid, c: Grid, live: map<nat, nat>, tlabs: map<nat, Span>)
    requires c == g.(runs := c.runs, current := c.current) && forall q: nat :: c.Listed(q) ==> g.Listed(q)
    requires LiveOk(g, live) && TlabsOk(g, live, tlabs)
    ensures LiveOk(c, live) && TlabsOk(c, live, tlabs)
  {
    hide Grid.Listed;
    assert forall b: nat :: b < g.max ==> c.Extent(b) == g.Extent(b);
  }

  lemma AddSpan(c: Grid, live: map<nat, nat>, tlabs: map<nat, Span>, t: nat, span: Span)
    requires TlabsOk(c, live, tlabs) && t !in tlabs && c.first <= span.cur <= span.end <= c.max
    requires forall q: nat :: span.Has(q) ==> !c.Listed(q)
    requires forall q: nat, b :: span.Has(q) && b in live && b <= q ==> b + live[b] <= q
    requires forall q: nat, u :: span.Has(q) && u in tlabs ==> !tlabs[u].Has(q)
    ensures TlabsOk(c, live, tlabs[t := span])
  {
    hide Grid.Listed;
  }

  /** At least one block is taken and no more than wanted, all of them free, for a buffer disjoint from all others. */
  lemma TakeRunKeeps(p: Page, t: nat, want: nat)
    requires PageInv(p) && !p.grid.varsize && !p.needFlush && p.grid.current < |p.grid.runs| && want > 0 && t !in p.tlabs
    ensures var p' := TakeRun(p, t, want);
            && PageInv(p') && p'.live == p.live
            && p'.tlabs[t].cur < p'.tlabs[t].end <= p'.tlabs[t].cur + want
            && (forall q: nat :: p'.tlabs[t].Has(q) ==> p.grid.Listed(q))
  {
    hide Grid.Listed, Shape, LiveOk, TlabsOk;
    var run := p.grid.runs[p.grid.current];
    var taken := if run.count < want then run.count else want;
    var c, span := Cut(p.grid, p.grid.current, taken), Span(run.pos, run.pos + taken);
    CutFixed(p.grid, p.grid.current, taken);
    CutRuns(p.grid, p.grid.current, taken);
    forall q: nat ensures (span.Has(q) ==> p.grid.Listed(q) && !c.Listed(q)) && (c.Listed(q) ==> p.grid.Listed(q)) {
      CutTakes(p.grid, p.grid.current, taken, q);
    }
    FewerListed(p.grid, c, p.live, p.tlabs);
    ListedUnclaimed(p.grid, p.live, p.tlabs);
    AddSpan(c, p.live, p.tlabs, t, span);
  }

  /** A listed block is no part of an object or of a buffer. */
  lemma ListedUnclaimed(g: Grid, live: map<nat, nat>, tlabs: map<nat, Span>)
    requires LiveOk(g, live) && TlabsOk(g, live, tlabs)
    ensures forall q: nat, b :: g.Listed(q) && b in live && b <= q ==> b + live[b] <= q
    ensures forall q: nat, u :: g.Listed(q) && u in tlabs ==> !tlabs[u].Has(q)
  {
    hide Grid.Listed;
  }

  /** The next block of a thread's buffer is handed out. */
  function TakeBlock(p: Page, t: nat): Page
    requires t in p.tlabs
  {
    var span := p.tlabs[t];
    p.(tlabs := p.tlabs[t := Span(span.cur + 1, span.end)], live := p.live[span.cur := 1])
  }

  /** The block handed out belonged to nobody: not to an object, not to another buffer, not to the list. */
  lemma TakeBlockKeeps(p: Page, t: nat)
    requires PageInv(p) && t in p.tlabs && p.tlabs[t].cur < p.tlabs[t].end
    ensures PageInv(TakeBlock(p, t))
    ensures !p.Owned(p.tlabs[t].cur) && !p.grid.Listed(p.tlabs[t].cur) && p.tlabs[t].cur !in p.live
  {
    hide Grid.Listed, Shape, NoEmptyRun, LiveOk, TlabsOk;
    BlockJoinsLive(p.grid, p.live, p.tlabs, t);
    BlockLeavesSpan(p.grid, p.live, p.tlabs, t);
  }

  lemma BlockJoinsLive(g: Grid, live: map<nat, nat>, tlabs: map<nat, Span>, t: nat)
    requires LiveOk(g, live) && TlabsOk(g, live, tlabs) && t in tlabs && tlabs[t].cur < tlabs[t].end && !g.varsize
    ensures var b := tlabs[t].cur;
            && LiveOk(g, live[b := 1]) && !g.Listed(b) && b !in live
            && forall c :: c in live && c <= b ==> c + live[c] <= b
  {
    hide Grid.Listed;
    FixedExtent(g);
    assert tlabs[t].Has(tlabs[t].cur);
  }

  lemma FixedExtent(g: Grid)
    requires |g.sizes| == g.max && !g.varsize
    ensures forall b: nat :: b < g.max ==> g.Extent(b) == 1
  {
  }

  lemma BlockLeavesSpan(g: Grid, live: map<nat, nat>, tlabs: map<nat, Span>, t: nat)
    requires TlabsOk(g, live, tlabs) && t in tlabs && tlabs[t].cur < tlabs[t].end
    ensures TlabsOk(g, live[tlabs[t].cur := 1], tlabs[t := Span(tlabs[t].cur + 1, tlabs[t].end)])
  {
    hide Grid.Listed;
    var b, span := tlabs[t].cur, Span(tlabs[t].cur + 1, tlabs[t].end);
    assert tlabs[t].Has(b);
    forall q: nat | span.Has(q) ensures tlabs[t].Has(q) {}
  }

  // ---------------------------------------------------------------- variable-size objects

  /** gc_alloc_var on a page where run `k` is long enough: the object gets its size, and its mark if the page has bits. */
  function TakeObject(p: Page, k: nat, n: nat): Page
    requires k < |p.grid.runs| && n <= p.grid.runs[k].count && p.grid.runs[k].pos + n <= |p.grid.sizes| && n > 0
    requires |p.grid.marks| == |p.grid.sizes|
  {
    p.(grid := ObjectGrid(p.grid, k, n), live := p.live[p.grid.runs[k].pos := n])
  }

  lemma SizedAt(sizes: seq<nat>, bid: nat, n: nat, q: nat)
    requires bid + n <= |sizes| && n > 0 && q < |sizes|
    ensures |Sized(sizes, bid, n)| == |sizes|
    ensures Sized(sizes, bid, n)[q] == if q == bid then n else if bid < q < bid + n then 0 else sizes[q]
  {
  }

  /** The grid after an object took the front of run `k`. */
  ghost predicate ObjectTaken(g: Grid, g': Grid, k: nat, n: nat) {
    && g.current <= k < |g.runs| == |g'.runs| && g'.current >= g.current
    && g'.first == g.first && g'.max == g.max && g'.varsize && g.varsize
    && |g.sizes| == |g'.sizes| == |g'.marks| == g.max
    && 0 < n <= g.runs[k].count
    && (forall q: nat :: q < g.max ==> g'.sizes[q] == if q == g.runs[k].pos then n
                                                       else if g.runs[k].pos < q < g.runs[k].pos + n then 0 else g.sizes[q])
    && (forall l :: g'.current <= l < |g.runs| ==> g'.runs[l].pos == g.runs[l].pos + if l == k then n else 0)
  }

  lemma ObjectExtent(g: Grid, g': Grid, k: nat, n: nat, b: nat)
    requires ObjectTaken(g, g', k, n) && b < g.max
    ensures var bid := g.runs[k].pos;
            g'.Extent(b) == if b == bid then n else if bid < b < bid + n then 1 else g.Extent(b)
  {
  }

  lemma ObjectTiles(g: Grid, g': Grid, k: nat, n: nat)
    requires Shape(g) && ObjectTaken(g, g', k, n)
    requires forall q: nat :: g'.Listed(q) ==> g.Listed(q) && !(g.runs[k].pos <= q < g.runs[k].pos + n)
    ensures TilesOk(g')
  {
    hide Grid.Listed;
    var bid := g.runs[k].pos;
    forall b: nat | g.first <= b < g.max ensures b + g'.Extent(b) <= g.max {
      ObjectExtent(g, g', k, n, b);
    }
    forall b: nat, q: nat | g.first <= b < g.max && b < q < b + g'.Extent(b) ensures q < g.max && g'.sizes[q] == 0 {
      ObjectExtent(g, g', k, n, b);
    }
    forall b: nat, l | g.first <= b < g.max && g'.current <= l < |g'.runs| && g'.runs[l].pos > b
      ensures b + g'.Extent(b) <= g'.runs[l].pos
    {
      ObjectExtent(g, g', k, n, b);
    }
  }

  lemma TakeObjectKeepsGrid(g: Grid, k: nat, n: nat)
    requires Cuttable(g, k, n) && g.varsize
    ensures var bid := g.runs[k].pos;
            && g.first <= bid && bid + n <= g.max == |g.sizes| == |g.marks|
            && var g' := ObjectGrid(g, k, n);
            && Shape(g') && NoEmptyRun(g') && ObjectTaken(g, g', k, n)
            && (forall q: nat :: bid <= q < bid + n ==> g.Listed(q) && !g'.Listed(q))
            && (forall q: nat :: g'.Listed(q) ==> g.Listed(q))
  {
    CutRuns(g, k, n);
    var c, bid := Cut(g, k, n), g.runs[k].pos;
    var g' := ObjectGrid(g, k, n);
    forall q: nat | q < g.max ensures |g'.sizes| == g.max && g'.sizes[q] == if q == bid then n else if bid < q < bid + n then 0 else g.sizes[q] {
      SizedAt(g.sizes, bid, n, q);
    }
    assert ObjectTaken(g, g', k, n);
    forall q: nat ensures (bid <= q < bid + n ==> g.Listed(q) && !g'.Listed(q)) && (g'.Listed(q) ==> g.Listed(q)) {
      CutTakes(g, k, n, q);
      assert g'.Listed(q) <==> c.Listed(q);
    }
    ObjectTiles(g, g', k, n);
  }

  lemma ObjectJoinsLive(g: Grid, g': Grid, live: map<nat, nat>, k: nat, n: nat)
    requires LiveOk(g, live) && ObjectTaken(g, g', k, n) && g.first <= g.runs[k].pos && g.runs[k].pos + n <= g.max
    requires forall q: nat :: g.runs[k].pos <= q < g.runs[k].pos + n ==> g.Listed(q) && !g'.Listed(q)
    requires forall q: nat :: g'.Listed(q) ==> g.Listed(q)
    ensures LiveOk(g', live[g.runs[k].pos := n])
    ensures forall b <- live :: b + live[b] <= g.runs[k].pos || g.runs[k].pos + n <= b
  {
    hide Grid.Listed;
    var bid := g.runs[k].pos;
    forall b | b in live ensures b + live[b] <= bid || bid + n <= b {
      assert g.Listed(bid) && (bid <= b < bid + n ==> g.Listed(b));
    }
    forall b | b in live[bid := n] ensures live[bid := n][b] == g'.Extent(b) && g'.sizes[b] > 0 {
      ObjectExtent(g, g', k, n, b);
    }
  }

  lemma ObjectMarks(g: Grid, k: nat, n: nat)
    requires Cuttable(g, k, n) && g.varsize && MarksStart(g, g.marks) && g.runs[k].pos + n <= |g.sizes| == |g.marks| == g.max
    ensures MarksStart(ObjectGrid(g, k, n), ObjectGrid(g, k, n).marks)
  {
    var bid := g.runs[k].pos;
    forall q: nat | q < g.max ensures |Sized(g.sizes, bid, n)| == g.max && (g.marks[bid := true][q] ==> Sized(g.sizes, bid, n)[q] > 0) {
      SizedAt(g.sizes, bid, n, q);
      if bid < q < bid + n {
        assert g.runs[k].pos <= q < g.runs[k].End();
        assert g.Listed(q);
      }
    }
  }

  /** The object's blocks were all free, and no other object holds any of them. */
  lemma TakeObjectKeeps(p: Page, k: nat, n: nat)
    requires PageInv(p) && !p.needFlush && p.grid.varsize && Cuttable(p.grid, k, n)
    ensures var bid := p.grid.runs[k].pos;
            && bid + n <= |p.grid.sizes| == |p.grid.marks|
            && PageInv(TakeObject(p, k, n))
            && (forall q: nat :: bid <= q < bid + n ==> p.grid.Listed(q) && !p.Owned(q))
  {
    hide Grid.Listed, Shape, Cut, Cuttable, LiveOk, TlabsOk;
    TakeObjectKeepsGrid(p.grid, k, n);
    ObjectMarks(p.grid, k, n);
    var p' := TakeObject(p, k, n);
    ObjectJoinsLive(p.grid, p'.grid, p.live, k, n);
    NoTlabs(p'.grid, p'.live);
  }

  /** A new page with an object in front. The run behind it stays the current one even if it has no blocks left. */
  function FirstObject(first: nat, max: nat, n: nat): Page
    requires 0 < n && first + n <= max
  {
    Page(Grid(first, max, true, [Run(first + n, max - first - n)], 0, Sized(seq(max, _ => 0), first, n),
              seq(max, _ => false)[first := true]), false, map[], map[first := n])
  }

  lemma FirstObjectKeeps(first: nat, max: nat, n: nat)
    requires 0 < n && first + n <= max
    ensures PageInv(FirstObject(first, max, n))
  {
    var g := FirstObject(first, max, n).grid;
    forall q: nat | q < max ensures |g.sizes| == max && g.sizes[q] == if q == first then n else 0 {
      SizedAt(seq(max, _ => 0), first, n, q);
    }
    assert forall b: nat :: b < max ==> g.Extent(b) == if b == first then n else 1;
    assert forall q: nat :: g.Listed(q) ==> first + n <= q < max;
  }

  // ---------------------------------------------------------------- collections

  /** A collection wipes the buffers while every thread is stopped, then publishes new marks. */
  function Published(p: Page, marks: seq<bool>): Page {
    p.(grid := p.grid.(marks := marks), needFlush := true, tlabs := map[])
  }

  lemma PublishedKeeps(p: Page, marks: seq<bool>)
    requires PageInv(p) && |marks| == p.grid.max && MarksStart(p.grid, marks)
    ensures PageInv(Published(p, marks))
  {
    var g, g' := p.grid, p.grid.(marks := marks);
    assert forall q :: g'.Listed(q) <==> g.Listed(q);
    hide Grid.Listed;
    assert forall b: nat :: b < g.max && |g.sizes| == g.max ==> g'.Extent(b) == g.Extent(b);
  }

  lemma WipedKeeps(p: Page)
    requires PageInv(p)
    ensures PageInv(p.(tlabs := map[]))
  {
    hide Shape, LiveOk, Grid.Listed;
  }

  // ---------------------------------------------------------------- what a page can still serve

  /** A block the page can serve, once the sweep that may be due has run. */
  ghost predicate Available(p: Page, q: int) {
    && p.grid.first <= q < p.grid.max == |p.grid.sizes| == |p.grid.marks|
    && (p.grid.Listed(q) || (p.needFlush && SweptAway(p.grid, q)))
  }

  ghost predicate Exhausted(p: Page) {
    forall q :: !Available(p, q)
  }

  /** `n` blocks from `b` on. */
  ghost predicate Room(p: Page, b: int, n: nat) {
    forall q :: b <= q < b + n ==> Available(p, q)
  }

  ghost predicate NoRoom(p: Page, n: nat) {
    forall b :: !Room(p, b, n)
  }

  ghost predicate LowestRoom(p: Page, b: nat, n: nat) {
    Room(p, b, n) && forall c :: c < b ==> !Room(p, c, n)
  }

  /** The span is the lowest run of free blocks of the page, or the front of it if it is longer than wanted. */
  ghost predicate LowestRun(p: Page, span: Span, want: nat) {
    && span.cur < span.end <= span.cur + want && Room(p, span.cur, span.end - span.cur)
    && (forall q :: q < span.cur ==> !Available(p, q))
    && (span.end < span.cur + want ==> !Available(p, span.end))
  }

  ghost predicate AllExhausted(pages: seq<Page>, from: nat, to: nat) {
    forall l :: from <= l < to && l < |pages| ==> Exhausted(pages[l])
  }

  /** The blocks are the lowest free run of the first page that has one, or of a new page `k` if none has. */
  ghost predicate Refilled(was: seq<Page>, cursor: nat, k: nat, span: Span, want: nat, first: nat) {
    if k < |was| then k < cursor && LowestRun(was[k], span, want) && AllExhausted(was, k + 1, cursor)
    else k == |was| && span == Span(first, first + want) && AllExhausted(was, 0, cursor)
  }

  ghost predicate NoRoomIn(pages: seq<Page>, from: nat, to: nat, n: nat) {
    forall l :: from <= l < to && l < |pages| ==> NoRoom(pages[l], n)
  }

  /** Pages may have been added, and those from `from` up to `to` have changed. */
  predicate SameBut(was: seq<Page>, pages: seq<Page>, from: nat, to: nat) {
    |was| <= |pages| && forall l :: 0 <= l < |was| && (l < from || l >= to) ==> pages[l] == was[l]
  }

  predicate SurviveAll(was: seq<Page>, pages: seq<Page>) {
    |was| <= |pages| && forall l :: 0 <= l < |was| ==> Survives(was[l], pages[l])
  }

  lemma AvailableIsListed(p: Page)
    requires PageInv(p) && !p.needFlush
    ensures forall q :: Available(p, q) <==> p.grid.Listed(q)
  {
  }

  /** The first run of a fixed-size page holds its lowest listed block, and ends before the next one that is not. */
  lemma FirstRun(g: Grid)
    requires Shape(g) && NoEmptyRun(g) && !g.varsize && g.current < |g.runs|
    ensures g.Listed(g.runs[g.current].pos) && !g.Listed(g.runs[g.current].End())
    ensures forall q :: q < g.runs[g.current].pos ==> !g.Listed(q)
    ensures forall q :: g.runs[g.current].pos <= q < g.runs[g.current].End() ==> g.Listed(q)
  {
    hide TilesOk;
    assert g.runs[g.current].pos <= g.runs[g.current].pos < g.runs[g.current].End();
  }

  /** Consecutive listed blocks are in one run: no two runs touch. */
  lemma {:induction false} InOneRun(g: Grid, b: int, n: nat) returns (k: nat)
    requires RunsOk(g.runs, g.current, g.first, g.max) && n > 0 && forall q :: b <= q < b + n ==> g.Listed(q)
    ensures g.current <= k < |g.runs| && g.runs[k].pos <= b && b + n <= g.runs[k].End()
  {
    if n == 1 {
      assert g.Listed(b);
      k :| g.current <= k < |g.runs| && g.runs[k].pos <= b < g.runs[k].End();
    } else {
      k := InOneRun(g, b, n - 1);
      assert g.Listed(b + n - 1);
      var l :| g.current <= l < |g.runs| && g.runs[l].pos <= b + n - 1 < g.runs[l].End();
    }
  }

  /** If the runs before `k` are too short, there is no room before run `k`. */
  lemma NoRoomBefore(p: Page, k: nat, n: nat, b: int)
    requires PageInv(p) && !p.needFlush && n > 0 && p.grid.current <= k <= |p.grid.runs|
    requires forall l :: p.grid.current <= l < k ==> p.grid.runs[l].count < n
    requires k < |p.grid.runs| ==> b < p.grid.runs[k].pos
    ensures !Room(p, b, n)
  {
    hide TlabsOk, LiveOk, TilesOk, NoEmptyRun, MarksStart;
    AvailableIsListed(p);
    if Room(p, b, n) {
      var l := InOneRun(p.grid, b, n);
    }
  }

  // ---------------------------------------------------------------- the pages of one list

  /** The blocks of a page serve a request for `n` of them as one object. */
  method TakeVar(p: Page, n: nat) returns (found: bool, p': Page, bid: nat)
    requires PageInv(p) && !p.needFlush && p.grid.varsize && n > 0
    ensures PageInv(p') && !p'.needFlush && p'.grid.varsize && p'.tlabs == p.tlabs
    ensures found ==> bid !in p.live
    ensures found ==> p'.live == p.live[bid := n] && forall q: nat :: bid <= q < bid + n ==> p.grid.Listed(q) && !p.Owned(q)
    ensures found ==> LowestRoom(p, bid, n)
    ensures !found ==> p' == p && NoRoom(p, n)
  {
    hide PageInv, Shape, Grid.Listed, Page.Owned, Room, Available;
    VarFacts(p);
    var k := p.grid.current;
    while k < |p.grid.runs|
      invariant p.grid.current <= k <= |p.grid.runs|
      invariant forall l :: p.grid.current <= l < k ==> p.grid.runs[l].count < n
    {
      if p.grid.runs[k].count >= n {
        TakeObjectKeeps(p, k, n);
        RoomInRun(p, k, n);
        forall b | b < p.grid.runs[k].pos ensures !Room(p, b, n) {
          NoRoomBefore(p, k, n, b);
        }
        if p.grid.runs[k].pos in p.live {
          OwnsItsStart(p, p.grid.runs[k].pos);
        }
        return true, TakeObject(p, k, n), p.grid.runs[k].pos;
      }
      k := k + 1;
    }
    forall b ensures !Room(p, b, n) {
      NoRoomBefore(p, k, n, b);
    }
    return false, p, 0;
  }

  lemma RoomInRun(p: Page, k: nat, n: nat)
    requires PageInv(p) && !p.needFlush && p.grid.current <= k < |p.grid.runs| && n <= p.grid.runs[k].count
    ensures Room(p, p.grid.runs[k].pos, n)
  {
    hide TlabsOk, LiveOk, NoEmptyRun, MarksStart;
    AvailableIsListed(p);
  }

  lemma OwnsItsStart(p: Page, b: nat)
    requires PageInv(p) && b in p.live
    ensures p.Owned(b)
  {
    hide Shape, TlabsOk, NoEmptyRun;
    assert b <= b < b + p.live[b];
  }

  lemma VarFacts(p: Page)
    requires PageInv(p)
    ensures Shape(p.grid) && NoEmptyRun(p.grid) && p.grid.current <= |p.grid.runs|
  {
    hide Grid.Listed, LiveOk, TlabsOk, TilesOk;
  }

  /**
   The pages of one list, with blocks of one size, the newest last; the list is searched from `cursor` towards older pages. `home` is the page a
   thread's buffer was last filled from.
   */
  class PageList {
    const block: nat
    const varsize: bool
    var pages: seq<Page>
    var cursor: nat
    var home: map<nat, nat>

    ghost predicate Valid()
      reads this
    {
      && cursor <= |pages|
      && (forall k :: 0 <= k < |pages| ==> PageInv(pages[k]) && pages[k].grid.varsize == varsize)
      && (forall k, t :: 0 <= k < |pages| && t in pages[k].tlabs ==> t in home && home[t] == k)
    }

    constructor (block: nat, varsize: bool)
      ensures Valid() && this.block == block && this.varsize == varsize && pages == []
    {
      this.block, this.varsize, pages, cursor, home := block, varsize, [], 0, map[];
    }

    /** Sweeps the page first if a collection has left it to do. */
    method Ready(k: nat)
      requires Valid() && k < |pages|
      modifies this`pages
      ensures Valid() && |pages| == old(|pages|) && !pages[k].needFlush
      ensures forall l :: 0 <= l < |pages| && l != k ==> pages[l] == old(pages[l])
      ensures !old(pages[k].needFlush) ==> pages[k] == old(pages[k])
      ensures pages[k].tlabs == old(pages[k].tlabs) && Survives(old(pages[k]), pages[k])
      ensures forall q :: Available(pages[k], q) <==> Available(old(pages[k]), q)
    {
      hide PageInv, SweptAway, Grid.Listed;
      if pages[k].needFlush {
        MarkedSized(pages[k]);
        LiveInRange(pages[k]);
        var page := Flush(pages[k]);
        MarkedSized(page);
        pages := pages[k := page];
      }
    }

    /**
     gc_alloc_fixed_run: refills a thread's empty buffer with the lowest free run of the first page that has one, swept
     first, or from a new page if none of those searched has.
     */
    method AllocFixedRun(t: nat, want: nat, first: nat, max: nat) returns (k: nat)
      requires Valid() && !varsize && 0 < want && first + want < max && t !in home
      modifies this
      ensures Valid() && home == old(home)[t := k] && cursor == k + 1 && k < |pages| && t in pages[k].tlabs
      ensures SurviveAll(old(pages), pages) && SameBut(old(pages), pages, if k < |old(pages)| then k else 0, old(cursor))
      ensures pages[k].tlabs[t].cur < pages[k].tlabs[t].end <= pages[k].tlabs[t].cur + want
      ensures Refilled(old(pages), old(cursor), k, pages[k].tlabs[t], want, first)
    {
      hide PageInv, TakeRun, Available, Exhausted, LowestRun;
      ghost var was := pages;
      var n: nat := cursor;
      while n > 0
        invariant Valid() && n <= |pages| == |was| && home == old(home) && n <= cursor == old(cursor) && pages[..n] == was[..n]
        invariant SurviveAll(was, pages) && SameBut(was, pages, n, cursor) && AllExhausted(was, n, cursor)
      {
        n := n - 1;
        Ready(n);
        var page := pages[n];
        if page.grid.current < |page.grid.runs| {
          TakeRunKeeps(page, t, want);
          TakeRunFrame(page, t, want);
          TakesLowest(was[n], page, t, want);
          pages := pages[n := TakeRun(page, t, want)];
          home := home[t := n];
          cursor := n + 1;
          return n;
        }
        NothingListed(was[n], page);
      }
      k := |pages|;
      pages := pages + [FreshRun(t, want, first, max)];
      home := home[t := k];
      cursor := |pages|;
    }

    /** A buffer that is used up, or was wiped, is none. */
    method DropEmpty(t: nat)
      requires Valid()
      modifies this
      ensures Valid() && |pages| == |old(pages)|
      ensures t in home ==> home[t] < |pages| && t in pages[home[t]].tlabs && pages[home[t]].tlabs[t].cur < pages[home[t]].tlabs[t].end
      ensures forall l :: 0 <= l < |pages| ==> pages[l] == old(pages[l]).(tlabs := pages[l].tlabs)
      ensures (t in home <==> Buffered(old(pages), old(home), t)) && (t in home ==> pages == old(pages) && home == old(home))
      ensures cursor == old(cursor)
    {
      hide PageInv;
      if t in home && home[t] < |pages| && t in pages[home[t]].tlabs &&
         pages[home[t]].tlabs[t].cur >= pages[home[t]].tlabs[t].end {
        EmptySpanDrops(pages[home[t]], t);
        pages := pages[home[t] := pages[home[t]].(tlabs := pages[home[t]].tlabs - {t})];
        home := home - {t};
      } else if t in home && (home[t] >= |pages| || t !in pages[home[t]].tlabs) {
        home := home - {t};
      }
    }

    /**
     gc_tlab_alloc: the next block of the thread's own buffer, which is refilled under the lock once it is exactly used
     up. The block was part of no object, of no other thread's buffer and of no free list.
     */
    method TlabAlloc(t: nat, want: nat, first: nat, max: nat) returns (k: nat, b: nat)
      requires Valid() && !varsize && 0 < want && first + want < max
      modifies this
      ensures Valid() && k < |pages| && b in pages[k].live && pages[k].live[b] == 1
      ensures SurviveAll(old(pages), pages)
      ensures k < |old(pages)| && !old(pages[k].needFlush) ==> b !in old(pages[k].live)
      ensures t in home && home[t] == k && t in pages[k].tlabs && pages[k].tlabs[t].cur == b + 1 <= pages[k].tlabs[t].end
      ensures Buffered(old(pages), old(home), t) ==>
                && k == old(home[t]) && cursor == old(cursor) && |pages| == |old(pages)| && SameBut(old(pages), pages, k, k + 1)
                && old(pages[k].tlabs[t]) == Span(b, pages[k].tlabs[t].end)
      ensures !Buffered(old(pages), old(home), t) ==>
                cursor == k + 1 && Refilled(old(pages), old(cursor), k, Span(b, pages[k].tlabs[t].end), want, first)
    {
      hide PageInv, TakeRun, TakeBlock, Refilled;
      ghost var was := pages;
      DropEmpty(t);
      if t !in home {
        ghost var dropped := pages;
        k := AllocFixedRun(t, want, first, max);
        SameGrids(was, dropped, old(cursor), k, pages[k].tlabs[t], want, first);
      }
      k := home[t];
      b := pages[k].tlabs[t].cur;
      TakeBlockKeeps(pages[k], t);
      TakeBlockFrame(pages[k], t);
      pages := pages[k := TakeBlock(pages[k], t)];
    }

    /**
     gc_alloc_var: the lowest place with room on the first page that has any, swept first, or the front of a new page if
     none of those searched has.
     */
    method AllocVar(n: nat, first: nat, max: nat) returns (k: nat, b: nat)
      requires Valid() && varsize && 0 < n && first + n <= max
      modifies this
      ensures Valid() && cursor == k + 1 && k < |pages| && b in pages[k].live && pages[k].live[b] == n
      ensures SurviveAll(old(pages), pages) && SameBut(old(pages), pages, if k < |old(pages)| then k else 0, old(cursor))
      ensures k < |old(pages)| && !old(pages[k].needFlush) ==> b !in old(pages[k].live)
      ensures if k < |old(pages)| then
                k < old(cursor) && LowestRoom(old(pages[k]), b, n) && NoRoomIn(old(pages), k + 1, old(cursor), n)
              else
                k == |old(pages)| && b == first && NoRoomIn(old(pages), 0, old(cursor), n)
    {
      hide PageInv, Available, NoRoom, LowestRoom;
      ghost var was := pages;
      var m: nat := cursor;
      while m > 0
        invariant Valid() && m <= |pages| == |was| && home == old(home) && m <= cursor == old(cursor) && pages[..m] == was[..m]
        invariant SurviveAll(was, pages) && SameBut(was, pages, m, cursor) && NoRoomIn(was, m, cursor, n)
      {
        m := m - 1;
        Ready(m);
        var found, page, bid := TakeVar(pages[m], n);
        SameRoom(was[m], pages[m], n);
        if found {
          pages := pages[m := page];
          cursor := m + 1;
          return m, bid;
        }
      }
      FirstObjectKeeps(first, max, n);
      pages := pages + [FirstObject(first, max, n)];
      cursor := |pages|;
      return |pages| - 1, first;
    }

    /**
     A stop that publishes no marks, as every pause of an incremental cycle is: buffers are wiped, and the blocks they had
     left belong to nobody until a sweep.
     */
    method Wipe()
      requires Valid()
      modifies this
      ensures Valid() && |pages| == |old(pages)| && home == map[] && cursor == old(cursor)
      ensures forall k :: 0 <= k < |pages| ==> pages[k] == old(pages[k]).(tlabs := map[])
    {
      hide PageInv;
      for i := 0 to |pages|
        invariant |pages| == |old(pages)| && cursor == old(cursor)
        invariant forall k :: 0 <= k < i ==> pages[k] == old(pages[k]).(tlabs := map[])
        invariant forall k :: i <= k < |pages| ==> pages[k] == old(pages[k])
        invariant forall k :: 0 <= k < |pages| ==> PageInv(pages[k]) && pages[k].grid.varsize == varsize
      {
        WipedKeeps(pages[i]);
        pages := pages[i := pages[i].(tlabs := map[])];
      }
      home := map[];
    }

    /** A collection: every thread is stopped, buffers are wiped, and each page awaits a sweep by its new marks. */
    method Collect(marks: seq<seq<bool>>)
      requires Valid() && |marks| == |pages|
      requires forall k :: 0 <= k < |pages| ==> |marks[k]| == pages[k].grid.max && MarksStart(pages[k].grid, marks[k])
      modifies this
      ensures Valid() && cursor == |pages| == |old(pages)| && home == map[]
      ensures forall k :: 0 <= k < |pages| ==> pages[k] == Published(old(pages[k]), marks[k])
    {
      hide PageInv;
      var i := 0;
      while i < |pages|
        invariant i <= |pages| == |old(pages)|
        invariant forall k :: 0 <= k < i ==> pages[k] == Published(old(pages[k]), marks[k])
        invariant forall k :: i <= k < |pages| ==> pages[k] == old(pages[k])
        invariant forall k :: 0 <= k < |pages| ==> PageInv(pages[k]) && pages[k].grid.varsize == varsize
      {
        PublishedKeeps(pages[i], marks[i]);
        pages := pages[i := Published(pages[i], marks[i])];
        i := i + 1;
      }
      cursor, home := |pages|, map[];
    }
  }

  /** An object stays handed out until a sweep that is due finds it without a mark. */
  predicate Survives(p: Page, p': Page) {
    forall b <- p.live :: (b in p'.live && p'.live[b] == p.live[b]) || (p.needFlush && b < |p.grid.marks| && !p.grid.marks[b])
  }

  lemma SameRoom(was: Page, p: Page, n: nat)
    requires forall q :: Available(p, q) <==> Available(was, q)
    ensures NoRoom(p, n) ==> NoRoom(was, n)
    ensures forall b: nat :: LowestRoom(p, b, n) <==> LowestRoom(was, b, n)
  {
    hide Available;
    forall b ensures Room(p, b, n) <==> Room(was, b, n) {
    }
  }

  /** The thread's buffer has a block left. */
  predicate Buffered(pages: seq<Page>, home: map<nat, nat>, t: nat) {
    t in home && home[t] < |pages| && t in pages[home[t]].tlabs && pages[home[t]].tlabs[t].cur < pages[home[t]].tlabs[t].end
  }

  /** What a page can serve does not depend on its buffers. */
  lemma SameGrids(was: seq<Page>, pages: seq<Page>, cursor: nat, k: nat, span: Span, want: nat, first: nat)
    requires |pages| == |was| && forall l :: 0 <= l < |pages| ==> pages[l] == was[l].(tlabs := pages[l].tlabs)
    requires Refilled(pages, cursor, k, span, want, first)
    ensures Refilled(was, cursor, k, span, want, first)
  {
    hide Available;
    forall l | 0 <= l < |was| ensures forall q :: Available(pages[l], q) <==> Available(was[l], q) {
      SameBlocks(was[l], pages[l]);
    }
  }

  lemma SameBlocks(was: Page, p: Page)
    requires p == was.(tlabs := p.tlabs)
    ensures forall q :: Available(p, q) <==> Available(was, q)
  {
  }

  lemma TakesLowest(was: Page, p: Page, t: nat, want: nat)
    requires PageInv(p) && !p.needFlush && !p.grid.varsize && p.grid.current < |p.grid.runs| && want > 0
    requires forall q :: Available(p, q) <==> Available(was, q)
    ensures LowestRun(was, TakeRun(p, t, want).tlabs[t], want)
  {
    hide LiveOk, TlabsOk, MarksStart, Grid.Listed;
    AvailableIsListed(p);
    hide Available, Shape;
    FirstRun(p.grid);
  }

  /** A new page with the front of its one run in the thread's buffer. */
  function FreshRun(t: nat, want: nat, first: nat, max: nat): (p: Page)
    requires 0 < want && first + want < max
    ensures PageInv(p) && !p.grid.varsize && p.tlabs == map[t := Span(first, first + want)] && p.live == map[]
  {
    NewPageKeeps(first, max, false);
    TakeRunKeeps(NewPage(first, max, false), t, want);
    TakeRun(NewPage(first, max, false), t, want)
  }

  lemma NothingListed(was: Page, p: Page)
    requires p.grid.current >= |p.grid.runs| && !p.needFlush
    requires forall q :: Available(p, q) <==> Available(was, q)
    ensures Exhausted(was)
  {
  }

  lemma TakeRunFrame(p: Page, t: nat, want: nat)
    requires p.grid.current < |p.grid.runs|
    ensures var p' := TakeRun(p, t, want);
            p'.live == p.live && p'.grid.varsize == p.grid.varsize && p'.tlabs.Keys == p.tlabs.Keys + {t} && p'.needFlush == p.needFlush
  {
  }

  lemma TakeBlockFrame(p: Page, t: nat)
    requires t in p.tlabs
    ensures var p' := TakeBlock(p, t);
            p'.live == p.live[p.tlabs[t].cur := 1] && p'.grid == p.grid && p'.tlabs == p.tlabs[t := Span(p.tlabs[t].cur + 1, p.tlabs[t].end)] && p'.needFlush == p.needFlush
  {
  }

  lemma EmptySpanDrops(p: Page, t: nat)
    requires PageInv(p)
    ensures PageInv(p.(tlabs := p.tlabs - {t}))
  {
    hide Grid.Listed, Shape, LiveOk, NoEmptyRun;
  }

  lemma LiveInRange(p: Page)
    requires PageInv(p)
    ensures forall b <- p.live :: b < p.grid.max
    ensures p.needFlush ==> p.tlabs == map[]
  {
  }
}
