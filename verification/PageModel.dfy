/**
 The blocks of one page of the allocator: its list of free runs, its size table, its mark bits, and the lazy sweep that
 rebuilds the list from them.
 */
module PageModel {

  /** `count` consecutive free blocks from block `pos`. A run used up exactly stays listed with no blocks. */
  datatype Run = Run(pos: nat, count: nat)
  {
    function End(): nat {
      pos + count
    }
  }

  /**
   The blocks of a page from `first` to `max`. Runs before `current` are used up. `sizes` is meaningful on variable-size
   pages: the number of blocks of the object that starts at a block, or 0.
   */
  datatype Grid = Grid(first: nat, max: nat, varsize: bool, runs: seq<Run>, current: nat, sizes: seq<nat>, marks: seq<bool>)
  {
    predicate Listed(q: int) {
      exists k :: current <= k < |runs| && runs[k].pos <= q < runs[k].End()
    }

    /** The blocks a sweep takes together, starting at `b`. */
    function Extent(b: nat): nat
      requires |sizes| == max && b < max
    {
      if varsize && sizes[b] > 0 then sizes[b] else 1
    }

    /** A block no object reaches into from before it. */
    ghost predicate Boundary(q: int) {
      |sizes| == max && forall b: nat :: b < q && b < max && b >= first ==> b + Extent(b) <= q
    }
  }

  /** The listed runs lie in [lo, hi), in order, and no two of them touch. */
  ghost predicate RunsOk(runs: seq<Run>, current: nat, lo: nat, hi: nat) {
    && current <= |runs|
    && (forall k :: current <= k < |runs| ==> lo <= runs[k].pos && runs[k].End() <= hi)
    && (forall k, l :: current <= k < l < |runs| ==> runs[k].End() < runs[l].pos)
  }

  /** Objects tile the page around the listed runs: none reaches over the end, a listed block or the start of a run. */
  ghost predicate TilesOk(g: Grid) {
    && |g.sizes| == |g.marks| == g.max
    && (forall b: nat :: g.first <= b < g.max ==> b + g.Extent(b) <= g.max)
    && (forall b: nat, q: nat :: g.first <= b < g.max && b < q < b + g.Extent(b) ==> g.sizes[q] == 0)
    && (forall b: nat, k :: g.first <= b < g.max && g.current <= k < |g.runs| && g.runs[k].pos > b ==> b + g.Extent(b) <= g.runs[k].pos)
    && (forall q: nat :: g.first <= q < g.max && g.varsize && g.Listed(q) ==> g.sizes[q] == 0)
  }

  ghost predicate Shape(g: Grid) {
    && g.first <= g.max
    && RunsOk(g.runs, g.current, g.first, g.max)
    && TilesOk(g)
  }

  /** The first block of an unmarked object, or a block that is neither listed nor part of an object nor marked. */
  ghost predicate DeadHead(g: Grid, b: nat)
    requires |g.sizes| == |g.marks| == g.max
  {
    g.first <= b < g.max && g.Boundary(b) && !g.Listed(b) && !g.marks[b]
  }

  /** A block is swept if it is not listed and the object it belongs to, or itself if to none, carries no mark. */
  ghost predicate SweptAway(g: Grid, q: nat)
    requires |g.sizes| == |g.marks| == g.max
  {
    exists b: nat :: g.first <= b <= q && b < g.max && q < b + g.Extent(b) && DeadHead(g, b)
  }

  // ---------------------------------------------------------------- the lazy sweep

  predicate InRuns(runs: seq<Run>, q: int) {
    exists k :: 0 <= k < |runs| && runs[k].pos <= q < runs[k].End()
  }

  /** Adds blocks behind the last run, lengthening it in place if they touch it. */
  function Extend(runs: seq<Run>, pos: nat, count: nat): seq<Run> {
    var last := |runs| - 1;
    if last >= 0 && runs[last].End() == pos then runs[last := Run(runs[last].pos, runs[last].count + count)]
    else runs + [Run(pos, count)]
  }

  lemma ExtendKeeps(runs: seq<Run>, pos: nat, count: nat, lo: nat)
    requires RunsOk(runs, 0, lo, pos) && lo <= pos
    ensures RunsOk(Extend(runs, pos, count), 0, lo, pos + count)
  {
  }

  lemma ExtendAdds(runs: seq<Run>, pos: nat, count: nat, q: int)
    ensures InRuns(Extend(runs, pos, count), q) <==> InRuns(runs, q) || pos <= q < pos + count
  {
    var runs', last := Extend(runs, pos, count), |runs| - 1;
    if InRuns(runs, q) {
      var k :| 0 <= k < |runs| && runs[k].pos <= q < runs[k].End();
      assert runs'[k].pos <= q < runs'[k].End();
    } else if pos <= q < pos + count {
      assert runs'[|runs'| - 1].pos <= q < runs'[|runs'| - 1].End();
    }
  }

  /** Between two runs, nothing is listed, and the blocks taken together are swept together. */
  lemma BlockStep(g: Grid, bid: nat, r: nat)
    requires Shape(g) && g.first <= bid < g.max && g.Boundary(bid) && g.current <= r <= |g.runs|
    requires forall k :: g.current <= k < r ==> g.runs[k].End() <= bid
    requires forall k :: r <= k < |g.runs| ==> bid < g.runs[k].pos
    ensures g.Boundary(bid + g.Extent(bid)) && bid + g.Extent(bid) <= g.max
    ensures forall k :: r <= k < |g.runs| ==> bid + g.Extent(bid) <= g.runs[k].pos
    ensures forall q: nat :: bid <= q < bid + g.Extent(bid) ==> !g.Listed(q) && (SweptAway(g, q) <==> !g.marks[bid])
  {
    var end := bid + g.Extent(bid);
    forall b: nat | g.first <= b < g.max && b < end ensures b + g.Extent(b) <= end {
      if b > bid {
        assert g.sizes[b] == 0;
      }
    }
    forall q: nat | bid <= q < end ensures !g.Listed(q) && (SweptAway(g, q) <==> !g.marks[bid]) {
      assert forall k :: g.current <= k < |g.runs| ==> g.runs[k].End() <= q || q < g.runs[k].pos;
    }
  }

  /** What a sweep has done so far: everything before `bid`. */
  ghost predicate SweptUpTo(g: Grid, bid: nat, r: nat, runs: seq<Run>, sizes: seq<nat>) {
    && Shape(g) && g.first <= bid <= g.max && g.Boundary(bid) && g.current <= r <= |g.runs| && |sizes| == |g.marks| == g.max
    && (forall k :: g.current <= k < r ==> g.runs[k].End() <= bid)
    && (forall k :: r <= k < |g.runs| ==> bid <= g.runs[k].pos)
    && RunsOk(runs, 0, g.first, bid)
    && (forall k :: 0 <= k < |runs| ==> g.Boundary(runs[k].pos))
    && (forall q: nat :: g.first <= q < bid ==> (InRuns(runs, q) <==> g.Listed(q) || SweptAway(g, q)))
    && (forall q: nat :: q < g.max ==> sizes[q] == if g.varsize && q < bid && DeadHead(g, q) then 0 else g.sizes[q])
  }

  lemma RunStep(g: Grid, bid: nat, r: nat, runs: seq<Run>, sizes: seq<nat>)
    requires SweptUpTo(g, bid, r, runs, sizes) && r < |g.runs| && g.runs[r].pos == bid
    ensures SweptUpTo(g, bid + g.runs[r].count, r + 1, Extend(runs, bid, g.runs[r].count), sizes)
  {
    var run, runs' := g.runs[r], Extend(runs, bid, g.runs[r].count);
    ExtendKeeps(runs, bid, run.count, g.first);
    forall q: nat | bid <= q < run.End() ensures g.Listed(q) {
      assert g.runs[r].pos <= q < g.runs[r].End();
    }
    forall q: nat | g.first <= q < run.End() ensures InRuns(runs', q) <==> g.Listed(q) || SweptAway(g, q) {
      ExtendAdds(runs, bid, run.count, q);
    }
    assert g.Boundary(run.End());
  }

  lemma InteriorNotHead(g: Grid, bid: nat, q: nat)
    requires |g.sizes| == |g.marks| == g.max && g.first <= bid < g.max && bid < q < bid + g.Extent(bid)
    ensures !DeadHead(g, q)
  {
  }

  lemma HeadStep(g: Grid, bid: nat, r: nat, runs: seq<Run>, sizes: seq<nat>)
    requires SweptUpTo(g, bid, r, runs, sizes) && bid < g.max && (r < |g.runs| ==> g.runs[r].pos != bid)
    ensures var count := g.Extent(bid);
            if g.marks[bid] then SweptUpTo(g, bid + count, r, runs, sizes)
            else SweptUpTo(g, bid + count, r, Extend(runs, bid, count), if g.varsize then sizes[bid := 0] else sizes)
  {
    hide Shape, SweptAway, InRuns, Grid.Listed, DeadHead, Extend, RunsOk;
    HeadFacts(g, bid, r, runs, sizes);
    ExtendFacts(runs, bid, g.Extent(bid), g.first);
  }

  /** What the step to the next head needs to know of the page. */
  lemma HeadFacts(g: Grid, bid: nat, r: nat, runs: seq<Run>, sizes: seq<nat>)
    requires SweptUpTo(g, bid, r, runs, sizes) && bid < g.max && (r < |g.runs| ==> g.runs[r].pos != bid)
    ensures var end := bid + g.Extent(bid);
            && g.Boundary(end) && end <= g.max
            && (forall k :: r <= k < |g.runs| ==> end <= g.runs[k].pos)
            && (forall q: nat :: bid <= q < end ==> !InRuns(runs, q) && !g.Listed(q) && (SweptAway(g, q) <==> !g.marks[bid]))
            && (forall q: nat :: bid <= q < end ==> (DeadHead(g, q) <==> q == bid && !g.marks[bid]))
            && RunsOk(runs, 0, g.first, end)
  {
    hide SweptAway, DeadHead;
    BlockStep(g, bid, r);
    forall q: nat | bid <= q < bid + g.Extent(bid) ensures DeadHead(g, q) <==> q == bid && !g.marks[bid] {
      if q > bid {
        InteriorNotHead(g, bid, q);
      } else {
        HeadIsDead(g, bid);
      }
    }
  }

  lemma HeadIsDead(g: Grid, bid: nat)
    requires |g.sizes| == |g.marks| == g.max && g.first <= bid < g.max && g.Boundary(bid) && !g.Listed(bid)
    ensures DeadHead(g, bid) <==> !g.marks[bid]
  {
  }

  lemma ExtendFacts(runs: seq<Run>, pos: nat, count: nat, lo: nat)
    requires RunsOk(runs, 0, lo, pos) && lo <= pos
    ensures RunsOk(Extend(runs, pos, count), 0, lo, pos + count)
    ensures forall q :: InRuns(Extend(runs, pos, count), q) <==> InRuns(runs, q) || pos <= q < pos + count
    ensures forall k :: 0 <= k < |Extend(runs, pos, count)| ==>
              Extend(runs, pos, count)[k].pos == pos || (k < |runs| && Extend(runs, pos, count)[k].pos == runs[k].pos)
  {
    hide InRuns;
    ExtendKeeps(runs, pos, count, lo);
    forall q ensures InRuns(Extend(runs, pos, count), q) <==> InRuns(runs, q) || pos <= q < pos + count {
      ExtendAdds(runs, pos, count, q);
    }
  }

  /** Freed objects lose their sizes and nothing else: the page is tiled as before around the longer runs. */
  lemma SweptTiles(g: Grid, r: nat, runs: seq<Run>, sizes: seq<nat>)
    requires SweptUpTo(g, g.max, r, runs, sizes)
    ensures TilesOk(g.(runs := runs, current := 0, sizes := sizes))
  {
    hide SweptAway, RunsOk;
    var g' := g.(runs := runs, current := 0, sizes := sizes);
    forall b: nat | g.first <= b < g.max ensures g'.Extent(b) <= g.Extent(b) {}
    forall b: nat, k | g.first <= b < g.max && 0 <= k < |runs| && runs[k].pos > b ensures b + g'.Extent(b) <= runs[k].pos {
      assert g.Boundary(runs[k].pos);
    }
    forall q: nat | g.first <= q < g.max && g.varsize && g'.Listed(q) ensures sizes[q] == 0 {
      assert InRuns(runs, q);
      SweptHasNoSize(g, q);
    }
  }

  lemma SweptHasNoSize(g: Grid, q: nat)
    requires Shape(g) && g.varsize && g.first <= q < g.max && (g.Listed(q) || SweptAway(g, q))
    ensures g.sizes[q] == 0 || DeadHead(g, q)
  {
  }

  lemma SweepEnds(g: Grid, r: nat, runs: seq<Run>, sizes: seq<nat>)
    requires SweptUpTo(g, g.max, r, runs, sizes)
    ensures var g' := g.(runs := runs, current := 0, sizes := sizes);
            && Shape(g')
            && (forall q: nat :: g.first <= q < g.max ==> (g'.Listed(q) <==> g.Listed(q) || SweptAway(g, q)))
            && (forall q: nat :: q < g.max ==> sizes[q] == if g.varsize && DeadHead(g, q) then 0 else g.sizes[q])
  {
    hide TilesOk, SweptAway, DeadHead, Grid.Boundary;
    SweptTiles(g, r, runs, sizes);
    var g' := g.(runs := runs, current := 0, sizes := sizes);
    assert forall q :: g'.Listed(q) <==> InRuns(runs, q);
  }

  lemma SweepStarts(g: Grid)
    requires Shape(g)
    ensures SweptUpTo(g, g.first, g.current, [], g.sizes)
  {
  }

  lemma SweepBounds(g: Grid, bid: nat, r: nat, runs: seq<Run>, sizes: seq<nat>)
    requires SweptUpTo(g, bid, r, runs, sizes)
    ensures g.current <= r <= |g.runs| && bid <= g.max && |sizes| == |g.sizes| == |g.marks| == g.max
  {
  }

  /** A fixed-size page lists no empty run, so taking a run always takes a block. */
  predicate NoEmptyRun(g: Grid) {
    !g.varsize ==> forall k :: g.current <= k < |g.runs| ==> g.runs[k].count > 0
  }

  /**
   flush_free_list: the new list is sorted, in range, with no two runs touching, and holds exactly the blocks that were
   listed and the extents of what carries no mark. A marked block that was already free stays free. Sizes go to 0 for
   freed objects only. The loop ends although a run may be empty: it then moves to the next run instead of forward.
   */
  method FlushFreeList(g: Grid) returns (g': Grid)
    requires Shape(g) && NoEmptyRun(g)
    ensures Shape(g') && NoEmptyRun(g') && g' == g.(runs := g'.runs, current := 0, sizes := g'.sizes)
    ensures forall q: nat :: g.first <= q < g.max ==> (g'.Listed(q) <==> g.Listed(q) || SweptAway(g, q))
    ensures |g'.sizes| == g.max
    ensures forall q: nat :: q < g.max ==> g'.sizes[q] == if g.varsize && DeadHead(g, q) then 0 else g.sizes[q]
  {
    hide Shape, SweptUpTo;
    var bid: nat, r: nat := g.first, g.current;
    var runs: seq<Run>, sizes := [], g.sizes;
    SweepStarts(g);
    SweepBounds(g, bid, r, runs, sizes);
    while bid < g.max
      invariant SweptUpTo(g, bid, r, runs, sizes)
      invariant bid <= g.max && g.current <= r <= |g.runs| && |sizes| == |g.sizes| == |g.marks| == g.max
      invariant !g.varsize ==> forall k :: 0 <= k < |runs| ==> runs[k].count > 0
      decreases g.max - bid, |g.runs| - r
    {
      if r < |g.runs| && g.runs[r].pos == bid {
        RunStep(g, bid, r, runs, sizes);
        runs := Extend(runs, bid, g.runs[r].count);
        bid := bid + g.runs[r].count;
        r := r + 1;
      } else {
        var count := g.Extent(bid);
        HeadStep(g, bid, r, runs, sizes);
        if !g.marks[bid] {
          runs := Extend(runs, bid, count);
          if g.varsize {
            sizes := sizes[bid := 0];
          }
        }
        bid := bid + count;
      }
      SweepBounds(g, bid, r, runs, sizes);
    }
    SweepEnds(g, r, runs, sizes);
    g' := g.(runs := runs, current := 0, sizes := sizes);
  }
}
