/**
 What happens between two points of a run, and what it does to the heap and to the collector's records, said without the
 steps that do it.
 */
module GcEvents {
  import opened Basics
  import opened HeapModel
  import opened GcState
  import opened GcMutator
  import opened GcReclaim
  import opened GcPrecise

  /**
   What a pause meets: whether it has a deadline, whether writes can be tracked, whether too much was allocated since the
   cycle began, and whether system calls may fail.
   */
  datatype Env = Env(hurried: bool, supported: bool, pressure: bool, failing: bool)

  /** A mutator's step, or a pause of the collector. */
  datatype Event =
    | Load(b: Block, i: nat)
    | StoreWord(b: Block, i: nat, w: Word, os: nat, barrier: bool)
    | Drop(w: Word)
    | Forge(w: Word)
    | Allocate(b: Block, words: seq<Word>, os: nat)
    | Refill(b: Block, words: seq<Word>, os: nat)
    | MapPage(page: nat, info: PageInfo, blockWords: nat)
    | Collect(env: Env)

  /** Whether a mutator can take the step: it loads and stores only through references it holds. */
  predicate Possible(s: State, e: Event) {
    match e
    case Load(b, i) => RootHolds(s.heap, b) && b in s.heap.mem && i < |s.heap.mem[b]|
    case StoreWord(b, i, w, os, _) =>
      && RootHolds(s.heap, b) && b in s.heap.mem && i < |s.heap.mem[b]| && (w in s.heap.roots || !w.Ptr? || !w.held)
      && b.page in s.heap.pages && os < s.heap.pages[b.page].osPages
    case Drop(w) => true
    case Forge(w) => !w.Ptr? || !w.held
    case Allocate(b, words, os) => Serves(s, b, words, os)
    case Refill(b, words, os) => Serves(s, b, words, os) && !s.heap.pages[b.page].varsize
    case MapPage(page, info, _) =>
      page !in s.heap.pages && info.slot < |s.lists| && info.firstBlock <= info.maxBlocks && info.osPages > 0
    case Collect(_) => true
  }

  /** The block is free once its page is swept. */
  predicate Serves(s: State, b: Block, words: seq<Word>, os: nat) {
    b.page in s.heap.pages && os < s.heap.pages[b.page].osPages && Servable(FlushPage(s, b.page).heap, b, words) && Inert(words)
  }

  // ---------------------------------------------------------------- what a step does

  /** The word is in a register now, as a reference only if the program held one there. */
  predicate Loaded(s: State, s': State, b: Block, i: nat)
    requires b in s.heap.mem && i < |s.heap.mem[b]|
  {
    var w := s.heap.mem[b][i];
    var loaded := if w.Ptr? then Ptr(w.target, w.interior, w.held && !w.interior && s.heap.Traced(b)) else w;
    s' == s.(heap := s.heap.(roots := s.heap.roots + {loaded}))
  }

  /** Word `i` of the block is `w`, every other word is what it was, and the block's page is dirty. */
  ghost predicate Stored(s: State, s': State, b: Block, i: nat, w: Word, os: nat, barrier: bool) {
    && s' == s.(heap := s.heap.(mem := s'.heap.mem), work := s.work.(kernelDirty := s'.work.kernelDirty, incoming := s'.work.incoming))
    && s'.heap.mem.Keys == s.heap.mem.Keys
    && (forall a <- s.heap.mem :: |s'.heap.mem[a]| == |s.heap.mem[a]|)
    && (forall a, j :: a in s.heap.mem && 0 <= j < |s.heap.mem[a]| ==>
          s'.heap.mem[a][j] == if a == b && j == i then w else s.heap.mem[a][j])
    && s'.work.kernelDirty == s.work.kernelDirty + {OsPage(b.page, os)}
    && Told(s, s', b.page, barrier && s.active)
  }

  /** A page that can hold pointers is queued once. */
  predicate Told(s: State, s': State, page: nat, told: bool) {
    s'.work.incoming ==
      if told && page in s.heap.pages && s.heap.pages[page].HasPtr() && page !in s.work.incoming && page !in s.work.batch
      then [page] + s.work.incoming else s.work.incoming
  }

  /** In use, but without a mark on a page whose sweep is due. */
  predicate Dead(s: State, page: nat, b: Block) {
    page in s.needFlush && b.page == page && b in s.heap.inUse && b !in s.published
  }

  /** The block holds the words, is in use and held by a register; dead blocks of its page are gone; its page is dirty. */
  ghost predicate HandsOut(s: State, s': State, b: Block, words: seq<Word>, os: nat)
    requires b.page in s.heap.pages
  {
    && s'.heap.pages == s.heap.pages && s'.heap.roots == s.heap.roots + {Ptr(b, false, true)}
    && (forall x :: x in s'.heap.inUse <==> x == b || (x in s.heap.inUse && !Dead(s, b.page, x)))
    && (forall x :: x in s'.heap.mem <==> x == b || (x in s.heap.mem && !(s.heap.pages[b.page].varsize && Dead(s, b.page, x))))
    && (forall x <- s'.heap.mem :: s'.heap.mem[x] == if x == b then words else s.heap.mem[x])
    && s'.needFlush == s.needFlush - {b.page}
    && s'.work == s.work.(kernelDirty := s.work.kernelDirty + {OsPage(b.page, os)})
  }

  /** During a cycle the block is marked, on a page prepared for the cycle. */
  ghost predicate Allocated(s: State, s': State, b: Block, words: seq<Word>, os: nat)
    requires b.page in s.heap.pages
  {
    && HandsOut(s, s', b, words, os)
    && s' == s.(heap := s'.heap, needFlush := s'.needFlush, work := s'.work,
                marked := if s.active then s.marked + {b} else s.marked,
                published := s'.published,
                epochOf := if s.active then s.epochOf[b.page := s.epoch] else s.epochOf)
    && (forall x: Block :: x.page != b.page || (s.active && s.Prepared(b.page)) ==> (x in s'.published <==> x in s.published))
    && (s.active && !s.Prepared(b.page) ==> forall x <- s'.published :: x.page != b.page)
    && (!s.active ==> s'.published == if s.heap.pages[b.page].varsize then s.published + {b} else s.published)
  }

  /** During a cycle the block carries no mark. */
  ghost predicate RefilledFrom(s: State, s': State, b: Block, words: seq<Word>, os: nat)
    requires b.page in s.heap.pages
  {
    && HandsOut(s, s', b, words, os)
    && s' == s.(heap := s'.heap, needFlush := s'.needFlush, work := s'.work, late := if s.active then s.late + {b} else s.late)
  }

  /** The page heads its list; its blocks are free, and zeroed if they have a fixed size. */
  ghost predicate Mapped(s: State, s': State, page: nat, info: PageInfo, words: nat)
    requires info.slot < |s.lists|
  {
    && s' == s.(heap := s'.heap, lists := s'.lists, epochOf := s.epochOf[page := if s.active then s.epoch else 0],
                born := if s.active then s.born + {page} else s.born)
    && s'.heap.pages == s.heap.pages[page := info] && s'.heap.inUse == s.heap.inUse && s'.heap.roots == s.heap.roots
    && |s'.lists| == |s.lists| && s'.lists[info.slot] == [page] + s.lists[info.slot]
    && (forall k :: 0 <= k < |s.lists| && k != info.slot ==> s'.lists[k] == s.lists[k])
    && (forall x <- s.heap.mem :: x in s'.heap.mem && s'.heap.mem[x] == s.heap.mem[x])
    && (forall x :: x in s'.heap.mem && x !in s.heap.mem <==> !info.varsize && x.page == page && info.firstBlock <= x.bid < info.maxBlocks)
    && (forall x <- s'.heap.mem :: x !in s.heap.mem ==> |s'.heap.mem[x]| == words && AllBits(s'.heap.mem[x]))
  }

  /**
   A pause. The program finds what it reaches as it was. If a collection was completed, its marks cover what the program
   reaches and await a sweep; otherwise blocks went only with the sweep of the collection before. A pause without deadline
   ends a reclamation; or completes a collection; or begins a cycle, or finishes preparing it, so that the next will. A
   cycle is given up for a full collection only if it must be; what it had marked stays marked to its end.
   */
  ghost predicate Paused(s: State, s': State, env: Env, swept: Option<set<Block>>) {
    && Shrunk(s.heap, s'.heap) && SameView(s.heap, s'.heap)
    && (swept.Some? ==>
          !s.reclaiming && !s'.active && Collected(s.heap, s', swept.value)
          && forall b :: Reachable(Strong(s.heap), b) ==> b in swept.value)
    && (swept.None? ==> forall b <- s.heap.inUse :: b !in s'.heap.inUse ==> b.page in s.needFlush && b !in s.published)
    && (s'.active ==> !s'.reclaiming)
    && (s.reclaiming ==> !s'.active && (!env.hurried ==> !s'.reclaiming))
    && (!env.hurried && !s.reclaiming ==>
          || (swept.Some? && !s'.reclaiming)
          || (s'.active && !s'.preparing && (!s.active || s.preparing)))
    && (!s.reclaiming && GivesUp(s, env) ==> swept.Some? && !s'.reclaiming)
    && (!s.reclaiming && !GivesUp(s, env) && !env.failing ==>
          if swept.Some? then s.active && !s.preparing && s.marked <= swept.value else s'.active)
  }

  predicate GivesUp(s: State, env: Env) {
    (s.active && env.pressure) || !env.supported
  }

  /** What each event does; a mutator's step that is not possible does nothing. */
  ghost predicate Did(s: State, s': State, e: Event) {
    if !Possible(s, e) then s' == s
    else match e
      case Load(b, i) => Loaded(s, s', b, i)
      case StoreWord(b, i, w, os, barrier) => Stored(s, s', b, i, w, os, barrier)
      case Drop(w) => s' == s.(heap := s.heap.(roots := s.heap.roots - {w}))
      case Forge(w) => s' == s.(heap := s.heap.(roots := s.heap.roots + {w}))
      case Allocate(b, words, os) => Allocated(s, s', b, words, os)
      case Refill(b, words, os) => RefilledFrom(s, s', b, words, os)
      case MapPage(page, info, words) => Mapped(s, s', page, info, words)
      case Collect(env) => exists swept :: Paused(s, s', env, swept)
  }

  // ---------------------------------------------------------------- collections come to their end

  /** The events have their effects, one after the other. */
  ghost predicate Happened(trace: seq<State>, schedule: seq<Event>) {
    |trace| == |schedule| + 1 && forall k :: 0 <= k < |schedule| ==> Did(trace[k], trace[k + 1], schedule[k])
  }

  predicate Unhurried(e: Event) {
    e.Collect? && !e.env.hurried
  }

  /** A collection was completed and its reclamation ended. */
  ghost predicate Finished(s: State, s': State) {
    !s'.active && !s'.reclaiming && exists marks :: Collected(s.heap, s', marks) && forall b :: Reachable(Strong(s.heap), b) ==> b in marks
  }

  lemma MutatorsWait(s: State, s': State, e: Event)
    requires Did(s, s', e) && !e.Collect?
    ensures s'.active == s.active && s'.preparing == s.preparing && s'.reclaiming == s.reclaiming
  {
    hide HandsOut;
  }

  lemma {:induction false} AllMutatorsWait(trace: seq<State>, schedule: seq<Event>, i: nat, j: nat)
    requires Happened(trace, schedule) && i <= j <= |schedule| && forall k :: i <= k < j ==> !schedule[k].Collect?
    ensures trace[j].active == trace[i].active && trace[j].preparing == trace[i].preparing && trace[j].reclaiming == trace[i].reclaiming
    decreases j
  {
    hide Did;
    if i < j {
      AllMutatorsWait(trace, schedule, i, j - 1);
      MutatorsWait(trace[j - 1], trace[j], schedule[j - 1]);
    }
  }

  lemma UnhurriedPause(s: State, s': State, e: Event)
    requires Did(s, s', e) && Unhurried(e) && !s.reclaiming
    ensures Finished(s, s') || (s'.active && !s'.preparing && !s'.reclaiming)
    ensures s.active && !s.preparing ==> Finished(s, s')
  {
    hide Collected, Shrunk, SameView, Reachable;
  }

  /** Whatever mutators do in between, one of two successive pauses without deadline finishes a collection. */
  lemma TwoPausesCollect(trace: seq<State>, schedule: seq<Event>, i: nat, j: nat)
    requires Happened(trace, schedule) && i < j < |schedule| && Unhurried(schedule[i]) && Unhurried(schedule[j])
    requires (forall k :: i < k < j ==> !schedule[k].Collect?) && !trace[i].reclaiming
    ensures Finished(trace[i], trace[i + 1]) || Finished(trace[j], trace[j + 1])
  {
    hide Did, Finished;
    UnhurriedPause(trace[i], trace[i + 1], schedule[i]);
    AllMutatorsWait(trace, schedule, i + 1, j);
    if !Finished(trace[i], trace[i + 1]) {
      UnhurriedPause(trace[j], trace[j + 1], schedule[j]);
    }
  }

  // ---------------------------------------------------------------- the invariant of a run

  /** The collector's invariant; in a cycle no mark but on a block that was met; in a reclamation the account is right. */
  ghost predicate Sound(s: State, met: iset<Block>, kept: seq<nat>) {
    Inv(s) && (s.active ==> Precise(s, met)) && (s.reclaiming ==> Accounted(s, kept))
  }

  ghost function MetNext(met: iset<Block>, s': State, e: Event): iset<Block> {
    MetAfter(met, s'.heap, if e.MapPage? then OnPage(e.page) else iset{})
  }

  ghost predicate Kept(s: State, s': State, e: Event, met: iset<Block>, kept: seq<nat>) {
    Sound(s', MetNext(met, s', e), kept) && Did(s, s', e)
  }

  lemma RootsKept(s: State, roots: set<Word>, met: iset<Block>, kept: seq<nat>)
    requires Sound(s, met, kept) && Inv(WithRoots(s, roots))
    ensures Sound(WithRoots(s, roots), MetAfter(met, WithRoots(s, roots).heap, iset{}), kept)
  {
    hide Inv, Precise, Accounted;
    if s.active {
      RootsMeet(s, roots, met);
    }
    if s.reclaiming {
      AccountStays(s, WithRoots(s, roots), kept);
    }
  }

  lemma LoadKept(s: State, e: Event, met: iset<Block>, kept: seq<nat>)
    requires Sound(s, met, kept) && e.Load? && Possible(s, e)
    ensures Kept(s, WithRoots(s, s.heap.roots + {LoadedWord(s.heap, e.b, e.i)}), e, met, kept) && e.b in s.heap.inUse
  {
    hide Inv, Precise, Accounted;
    LoadKeeps(s, e.b, e.i);
    RootsKept(s, s.heap.roots + {LoadedWord(s.heap, e.b, e.i)}, met, kept);
    LoadDoes(s, e.b, e.i);
  }

  lemma RootChangeKept(s: State, e: Event, met: iset<Block>, kept: seq<nat>)
    requires Sound(s, met, kept) && (e.Drop? || e.Forge?) && Possible(s, e)
    ensures Kept(s, WithRoots(s, if e.Drop? then s.heap.roots - {e.w} else s.heap.roots + {e.w}), e, met, kept)
  {
    hide Inv, Precise, Accounted;
    var roots := if e.Drop? then s.heap.roots - {e.w} else s.heap.roots + {e.w};
    RootChangeKeeps(s, roots);
    RootsKept(s, roots, met, kept);
  }

  lemma StoreKept(s: State, e: Event, met: iset<Block>, kept: seq<nat>)
    requires Sound(s, met, kept) && e.StoreWord? && Possible(s, e)
    ensures Kept(s, StoreStep(s, e.b, e.i, e.w, e.os, e.barrier), e, met, kept) && e.b in s.heap.inUse
  {
    hide Inv, Precise, Accounted, Stored;
    var s' := StoreStep(s, e.b, e.i, e.w, e.os, e.barrier);
    StoreKeeps(s, e.b, e.i, e.w, e.os, e.barrier);
    StoreDoes(s, e.b, e.i, e.w, e.os, e.barrier);
    if s.active {
      StoreMeets(s, e.b, e.i, e.w, e.os, e.barrier, met);
    }
    if s.reclaiming {
      AccountStays(s, s', kept);
    }
  }

  lemma PhaseFacts(s: State)
    requires Inv(s)
    ensures s.active ==> !s.reclaiming && s.heap.WellFormed()
    ensures Safe(s)
  {
    hide ListsOk, SweepSound, EpochsOk, Reclaim.Ok;
  }

  lemma AllocateKept(s: State, e: Event, met: iset<Block>, kept: seq<nat>)
    requires Sound(s, met, kept) && e.Allocate? && Possible(s, e)
    ensures Kept(s, HandoutStep(ReadyPage(s, e.b.page), e.b, e.words, e.os), e, met, kept)
  {
    hide Inv, Precise, Accounted, Allocated, FlushPage, ReadyPage;
    FlushDoes(s, e.b.page);
    ReadyDoes(s, e.b.page);
    var r := ReadyPage(s, e.b.page);
    var s' := HandoutStep(r, e.b, e.words, e.os);
    ReadyPageKeeps(s, e.b.page);
    HandoutKeeps(r, e.b, e.words, e.os);
    AllocateDoes(s, e.b, e.words, e.os);
    PhaseFacts(s);
    if s.active {
      FlushSweeps(s, e.b.page);
      SameMarksMeet(s, r, met);
      HandoutMeets(r, s', e.b, e.words, met);
    } else if s.reclaiming {
      AllocateStays(s, s', e.b, e.words, e.os, kept);
    }
  }

  lemma AllocateStays(s: State, s': State, b: Block, words: seq<Word>, os: nat, kept: seq<nat>)
    requires b.page in s.heap.pages && Allocated(s, s', b, words, os) && !s.active && Accounted(s, kept)
    ensures Accounted(s', kept)
  {
    hide Accounted;
    AccountStays(s, s', kept);
  }

  lemma RefillKept(s: State, e: Event, met: iset<Block>, kept: seq<nat>)
    requires Sound(s, met, kept) && e.Refill? && Possible(s, e)
    ensures Kept(s, RefillStep(FlushPage(s, e.b.page), e.b, e.words, e.os), e, met, kept)
  {
    hide Inv, Precise, Accounted, RefilledFrom, FlushPage;
    var f := FlushPage(s, e.b.page);
    var s' := RefillStep(f, e.b, e.words, e.os);
    FlushKeeps(s, e.b.page);
    FlushDoes(s, e.b.page);
    RefillKeeps(f, e.b, e.words, e.os);
    RefillDoes(s, e.b, e.words, e.os);
    if s.active {
      FlushSweeps(s, e.b.page);
      SameMarksMeet(s, f, met);
      HandoutMeets(f, s', e.b, e.words, met);
    }
    if s.reclaiming {
      AccountStays(s, s', kept);
    }
  }

  lemma MapKept(s: State, e: Event, met: iset<Block>, kept: seq<nat>)
    requires Sound(s, met, kept) && e.MapPage? && Possible(s, e)
    ensures Kept(s, MapStep(s, e.page, e.info, e.blockWords), e, met, kept)
  {
    hide Inv, Safe, Precise, Accounted, Mapped;
    MapKeeps(s, e.page, e.info, e.blockWords);
    PhaseFacts(s);
    SafeHeap(s);
    MapDoes(s, e.page, e.info, e.blockWords);
    if s.active {
      MapMeets(s, e.page, e.info, e.blockWords, met);
    }
    if s.reclaiming {
      AccountMaps(s, e.page, e.info, e.blockWords, kept);
    }
  }

  lemma SafeHeap(s: State)
    requires Safe(s)
    ensures HeapOk(s.heap) && s.heap.WellFormed()
  {
  }

  // ---------------------------------------------------------------- the steps do it

  lemma StoreDoes(s: State, b: Block, i: nat, w: Word, os: nat, barrier: bool)
    requires b in s.heap.mem && i < |s.heap.mem[b]|
    ensures Stored(s, StoreStep(s, b, i, w, os, barrier), b, i, w, os, barrier)
  {
  }

  lemma FlushDoes(s: State, page: nat)
    requires page in s.heap.pages
    ensures var f := FlushPage(s, page);
            && f == s.(heap := f.heap, needFlush := s.needFlush - {page})
            && f.heap.pages == s.heap.pages && f.heap.roots == s.heap.roots
            && (forall x :: x in f.heap.inUse <==> x in s.heap.inUse && !Dead(s, page, x))
            && (forall x :: x in f.heap.mem <==> x in s.heap.mem && !(s.heap.pages[page].varsize && Dead(s, page, x)))
            && (forall x <- f.heap.mem :: f.heap.mem[x] == s.heap.mem[x])
  {
  }

  lemma RefillDoes(s: State, b: Block, words: seq<Word>, os: nat)
    requires b.page in s.heap.pages
    ensures RefilledFrom(s, RefillStep(FlushPage(s, b.page), b, words, os), b, words, os)
  {
    hide FlushPage, Dead;
    FlushDoes(s, b.page);
  }

  lemma ReadyDoes(s: State, page: nat)
    requires page in s.heap.pages
    ensures var f := FlushPage(s, page);
            ReadyPage(s, page) == f.(published := if s.active && !s.Prepared(page) then set b | b in s.published && b.page != page else s.published,
                                     epochOf := if s.active then s.epochOf[page := s.epoch] else s.epochOf)
  {
    hide FlushPage;
    FlushDoes(s, page);
    FlushedAlready(FlushPage(s, page), page);
    if s.Prepared(page) {
      assert s.epochOf[page := s.epoch] == s.epochOf;
    }
  }

  lemma AllocateDoes(s: State, b: Block, words: seq<Word>, os: nat)
    requires b.page in s.heap.pages
    ensures Allocated(s, HandoutStep(ReadyPage(s, b.page), b, words, os), b, words, os)
  {
    hide FlushPage, ReadyPage, Dead;
    FlushDoes(s, b.page);
    ReadyDoes(s, b.page);
  }

  lemma FlushedAlready(s: State, page: nat)
    requires page in s.heap.pages && page !in s.needFlush
    ensures FlushPage(s, page) == s
  {
  }

  lemma MapDoes(s: State, page: nat, info: PageInfo, words: nat)
    requires page !in s.heap.pages && info.slot < |s.lists| && s.heap.WellFormed()
    ensures Mapped(s, MapStep(s, page, info, words), page, info, words)
  {
    forall x: Block ensures x in BlocksOf(page, info) <==> x.page == page && info.firstBlock <= x.bid < info.maxBlocks {
      assert x == Block(x.page, x.bid);
    }
  }

  lemma LoadDoes(s: State, b: Block, i: nat)
    requires b in s.heap.mem && i < |s.heap.mem[b]|
    ensures Loaded(s, WithRoots(s, s.heap.roots + {LoadedWord(s.heap, b, i)}), b, i)
  {
  }
}
