/**
 Two runs of the collector, step by step from the empty heap, whose completed cycle leaves a block unmarked that its
 debug oracle reaches.

 A move is one step of a mutator, or of the collector in a pause, with the conditions under which it takes that step; a
 move that does not apply changes nothing. Every move keeps the collector's invariant.
 */
module GcRuns {
  import opened Basics
  import opened HeapModel
  import opened GcState
  import opened GcMark
  import opened GcMutator
  import opened GcTracking
  import opened GcCycle

  datatype Move =
    | Stop
    | Resume
    | Map(page: nat, info: PageInfo, size: nat)
    | Allocate(b: Block, words: seq<Word>, os: nat)
    | Refill(b: Block, words: seq<Word>, os: nat)
    | Drop(w: Word)
    | BeginCycle
    | PrepareList
    | PrepareCurrent
    | EndPreparing
    | VisitRoot(w: Word)
    | Pop
    | Scan
    | EndBlock
    | PopPage
    | Rescan
    | EndRescan
    | BeginWalk
    | WalkList
    | WalkChunk
    | CutOffWalk
    | Capture(at: Cursor)
    | EndWalk

  /** Mutators run, or a pause prepares pages or, if they were ready when it began, discovers and traces. */
  datatype Mode = Running | Pause(traces: bool)

  datatype Config = Config(s: State, mode: Mode)

  predicate Mutators(m: Move) {
    m.Map? || m.Allocate? || m.Refill? || m.Drop?
  }

  predicate Preparers(m: Move) {
    m.BeginCycle? || m.PrepareList? || m.PrepareCurrent? || m.EndPreparing?
  }

  /** Who may move when. The world resumes only if an unfinished walk is recorded as cut off. */
  predicate Enabled(c: Config, m: Move) {
    if m.Stop? then c.mode.Running?
    else if m.Resume? then c.mode.Pause? && (c.s.active && c.s.walk.running ==> c.s.walk.spanned)
    else if Mutators(m) then c.mode.Running?
    else c.mode == Pause(!Preparers(m))
  }

  ghost function Next(c: Config, m: Move): Config {
    if !Enabled(c, m) then c
    else if m.Stop? then c.(mode := Pause(c.s.active && !c.s.preparing))
    else if m.Resume? then c.(mode := Running)
    else c.(s := if Mutators(m) then Mutate(c.s, m) else if Preparers(m) then PrepareMove(c.s, m)
                 else if Walkers(m) then WalkMove(c.s, m) else TraceMove(c.s, m))
  }

  predicate Walkers(m: Move) {
    m.BeginWalk? || m.WalkList? || m.WalkChunk? || m.CutOffWalk? || m.Capture? || m.EndWalk?
  }

  function Mutate(s: State, m: Move): State
    requires Mutators(m)
  {
    match m
    case Map(page, info, size) =>
      if page !in s.heap.pages && info.slot < |s.lists| && info.firstBlock <= info.maxBlocks && info.osPages > 0 then
        MapStep(s, page, info, size)
      else s
    case Allocate(b, words, os) =>
      if b.page in s.heap.pages && os < s.heap.pages[b.page].osPages && Servable(FlushPage(s, b.page).heap, b, words) && Inert(words)
      then HandoutStep(ReadyPage(s, b.page), b, words, os) else s
    case Refill(b, words, os) =>
      if b.page in s.heap.pages && os < s.heap.pages[b.page].osPages && !s.heap.pages[b.page].varsize
         && Servable(FlushPage(s, b.page).heap, b, words) && Inert(words)
      then RefillStep(FlushPage(s, b.page), b, words, os) else s
    case Drop(w) => WithRoots(s, s.heap.roots - {w})
  }

  function PrepareMove(s: State, m: Move): State
    requires Preparers(m)
  {
    match m
    case BeginCycle => if !s.active && !s.reclaiming then Begin(s) else s
    case PrepareList =>
      if s.active && s.preparing && !s.walk.running && s.prepare.rest == 0 && s.prepare.slot < |s.lists| then
        s.(prepare := Cursor(s.prepare.slot + 1, |s.lists[s.prepare.slot]|))
      else s
    case PrepareCurrent =>
      if s.active && s.preparing && !s.walk.running && s.prepare.rest > 0 && s.prepare.Within(s.lists)
         && s.prepare.Page(s.lists) in s.heap.pages then
        PreparePage(s, s.prepare.Page(s.lists)).(prepare := s.prepare.(rest := s.prepare.rest - 1))
      else s
    case EndPreparing =>
      if s.active && s.preparing && !s.walk.running && s.prepare.rest == 0 && s.prepare.slot >= |s.lists| then
        s.(preparing := false)
      else s
  }

  /** Tracing waits while discovery is under way. */
  function TraceMove(s: State, m: Move): State {
    if !s.active || s.preparing || s.discovering || s.walk.running then s
    else match m
      case VisitRoot(w) => if w in s.heap.roots then Visit(s, w, true) else s
      case Pop => if s.work.stack != [] && s.work.block.None? then PopBlock(s) else s
      case Scan =>
        if s.work.block.Some? && s.work.block.value in s.heap.mem && s.work.cursor < |s.heap.mem[s.work.block.value]| then ScanWord(s)
        else s
      case EndBlock =>
        if s.work.block.Some? && s.work.block.value in s.heap.mem && s.work.cursor >= |s.heap.mem[s.work.block.value]| then BlockDone(s)
        else s
      case PopPage =>
        if s.work.batch != [] && s.work.rescan.None? && s.work.batch[0] in s.heap.pages then PopDirty(s) else s
      case Rescan =>
        if s.work.rescan.Some? && s.work.rescan.value in s.heap.pages && s.work.rescanBid < s.heap.pages[s.work.rescan.value].maxBlocks
        then RescanBlock(s) else s
      case EndRescan =>
        if s.work.rescan.Some? && s.work.rescan.value in s.heap.pages && s.work.rescanBid >= s.heap.pages[s.work.rescan.value].maxBlocks
        then RescanDone(s) else s
      case _ => s
  }

  /** Tracking is re-armed as soon as the walk ends; one that was cut off ends only after a full pass has queued every dirty page. */
  ghost function WalkMove(s: State, m: Move): State {
    if !s.active || s.preparing || !s.work.Quiet() then s
    else match m
      case BeginWalk => if !s.walk.running then s.(walk := Walk(true, false, Cursor(0, 0), 0)) else s
      case WalkList => if s.walk.running && s.walk.at.rest == 0 && s.walk.at.slot < |s.lists| then WalkNext(s) else s
      case WalkChunk => if s.walk.running && HasCurrent(s, s.walk.at, s.walk.offset) then WalkStep(s) else s
      case CutOffWalk => if s.walk.running then s.(walk := s.walk.(spanned := true), discovering := true) else s
      case Capture(at) => if s.walk.running && s.walk.spanned && HasCurrent(s, at, 0) then ReadChunk(s, at, 0) else s
      case EndWalk =>
        if s.walk.running && s.walk.at.rest == 0 && s.walk.at.slot >= |s.lists| && (s.walk.spanned ==> AllDirtyQueued(s)) then
          Rearmed(s.(walk := Walk(false, false, Cursor(0, 0), 0)))
        else s
      case _ => s
  }

  ghost function Run(c: Config, moves: seq<Move>): Config {
    if moves == [] then c else Next(Run(c, moves[..|moves| - 1]), moves[|moves| - 1])
  }

  // ---------------------------------------------------------------- every move keeps the collector's invariant

  ghost predicate WalkOk(s: State) {
    s.active && s.walk.running ==> Walking(s)
  }

  ghost predicate Kept(c: Config) {
    if c.mode.Running? then Inv(c.s) else InPause(c.s) && WalkOk(c.s) && (c.mode.traces ==> !c.s.preparing)
  }

  lemma MutateKeeps(s: State, m: Move)
    requires Inv(s) && Mutators(m)
    ensures Inv(Mutate(s, m))
  {
    hide Inv;
    match m
    case Map(page, info, size) =>
      if page !in s.heap.pages && info.slot < |s.lists| && info.firstBlock <= info.maxBlocks && info.osPages > 0 {
        MapKeeps(s, page, info, size);
      }
    case Allocate(b, words, os) =>
      if b.page in s.heap.pages && os < s.heap.pages[b.page].osPages && Servable(FlushPage(s, b.page).heap, b, words) && Inert(words) {
        ReadyPageKeeps(s, b.page);
        HandoutKeeps(ReadyPage(s, b.page), b, words, os);
      }
    case Refill(b, words, os) =>
      if b.page in s.heap.pages && os < s.heap.pages[b.page].osPages && !s.heap.pages[b.page].varsize
         && Servable(FlushPage(s, b.page).heap, b, words) && Inert(words) {
        FlushKeeps(s, b.page);
        RefillKeeps(FlushPage(s, b.page), b, words, os);
      }
    case Drop(w) => RootChangeKeeps(s, s.heap.roots - {w});
  }

  lemma PrepareMoveKeeps(s: State, m: Move)
    requires InPause(s) && Preparers(m)
    ensures InPause(PrepareMove(s, m)) && (PrepareMove(s, m) == s || !PrepareMove(s, m).walk.running)
  {
    hide InPause;
    match m
    case BeginCycle =>
      if !s.active && !s.reclaiming {
        BeginKeeps(s);
      }
    case PrepareList =>
      if s.active && s.preparing && s.prepare.rest == 0 && s.prepare.slot < |s.lists| {
        PrepareNextList(s);
      }
    case PrepareCurrent =>
      if s.active && s.preparing && s.prepare.rest > 0 && s.prepare.Within(s.lists) && s.prepare.Page(s.lists) in s.heap.pages {
        PreparePageKeeps(s, s.prepare.Page(s.lists));
        PrepareNextPage(PreparePage(s, s.prepare.Page(s.lists)));
      }
    case EndPreparing =>
      if s.active && s.preparing && s.prepare.rest == 0 && s.prepare.slot >= |s.lists| {
        PrepareEnds(s);
      }
  }

  lemma TraceMoveKeeps(s: State, m: Move)
    requires InPause(s)
    ensures InPause(TraceMove(s, m)) && TraceMove(s, m).preparing == s.preparing
    ensures TraceMove(s, m) == s || !TraceMove(s, m).walk.running
  {
    hide InPause;
    if s.active && !s.preparing && !s.discovering && !s.walk.running {
      match m
      case VisitRoot(w) => VisitKeeps(s, w, true);
      case Pop => if s.work.stack != [] && s.work.block.None? { PopBlockKeeps(s); }
      case Scan =>
        if s.work.block.Some? && s.work.block.value in s.heap.mem && s.work.cursor < |s.heap.mem[s.work.block.value]| {
          ScanWordKeeps(s);
        }
      case EndBlock =>
        if s.work.block.Some? && s.work.block.value in s.heap.mem && s.work.cursor >= |s.heap.mem[s.work.block.value]| {
          BlockDoneKeeps(s);
        }
      case PopPage => if s.work.batch != [] && s.work.rescan.None? { PopDirtyKeeps(s); }
      case Rescan =>
        if s.work.rescan.Some? && s.work.rescan.value in s.heap.pages && s.work.rescanBid < s.heap.pages[s.work.rescan.value].maxBlocks {
          RescanBlockKeeps(s);
        }
      case EndRescan =>
        if s.work.rescan.Some? && s.work.rescan.value in s.heap.pages && s.work.rescanBid >= s.heap.pages[s.work.rescan.value].maxBlocks {
          RescanDoneKeeps(s);
        }
      case _ =>
    }
  }

  lemma WalkMoveKeeps(s: State, m: Move)
    requires InPause(s) && WalkOk(s)
    ensures InPause(WalkMove(s, m)) && WalkOk(WalkMove(s, m)) && WalkMove(s, m).preparing == s.preparing
  {
    hide InPause, Found, AllDirtyQueued;
    if s.active && !s.preparing && s.work.Quiet() {
      match m
      case BeginWalk => WalkBegins(s);
      case WalkList => if s.walk.running && s.walk.at.rest == 0 && s.walk.at.slot < |s.lists| { WalkNextKeeps(s); }
      case WalkChunk => if s.walk.running && HasCurrent(s, s.walk.at, s.walk.offset) { WalkStepKeeps(s); }
      case CutOffWalk =>
        if s.walk.running {
          WalkSpans(s);
          DiscoveryWaits(s.(walk := s.walk.(spanned := true)));
        }
      case Capture(at) =>
        if s.walk.running && s.walk.spanned && HasCurrent(s, at, 0) {
          ReadChunkKeeps(s, at, 0);
        }
      case EndWalk =>
        if s.walk.running && s.walk.at.rest == 0 && s.walk.at.slot >= |s.lists| && (s.walk.spanned ==> AllDirtyQueued(s)) {
          WalkDone(s);
        }
      case _ =>
    }
  }

  lemma WalkDone(s: State)
    requires Walking(s) && !s.preparing && s.work.Quiet() && s.walk.at.rest == 0 && s.walk.at.slot >= |s.lists|
    requires s.walk.spanned ==> AllDirtyQueued(s)
    ensures InPause(Rearmed(s.(walk := Walk(false, false, Cursor(0, 0), 0))))
  {
    hide AllDirtyQueued, Found, Tracing, Reclaim.Ok, HeapOk, SweepSound;
    if !s.walk.spanned {
      WalkEnds(s, s.walk.at, s.walk.offset);
    }
    WalkKeeps(s, Walk(false, false, Cursor(0, 0), 0));
    RearmKeeps(s.(walk := Walk(false, false, Cursor(0, 0), 0)));
  }

  lemma NextKeeps(c: Config, m: Move)
    requires Kept(c)
    ensures Kept(Next(c, m))
  {
    hide InPause, Walking, Mutate, PrepareMove, TraceMove, WalkMove;
    var s := c.s;
    if Enabled(c, m) {
      if m.Stop? || m.Resume? {
        StopKeeps(c, m);
      } else if Mutators(m) {
        MutateKeeps(s, m);
      } else if Preparers(m) {
        PrepareMoveKeeps(s, m);
      } else if Walkers(m) {
        WalkMoveKeeps(s, m);
      } else {
        TraceMoveKeeps(s, m);
      }
    }
  }

  lemma StopKeeps(c: Config, m: Move)
    requires Kept(c) && (m.Stop? || m.Resume?)
    ensures Kept(Next(c, m))
  {
    hide InPause, Found, Walk.Shape;
  }

  lemma EmptyKept()
    ensures Kept(Config(Empty(), Running))
  {
    var h := Empty().heap;
    forall b ensures !Reachable(Strong(h), b) {
      if Reachable(Strong(h), b) {
        ReachableInClosed(Strong(h), iset{}, b);
      }
    }
  }

  /** The run so far, from the empty heap, and what it has come to. */
  ghost predicate Leads(moves: seq<Move>, c: Config) {
    Run(Config(Empty(), Running), moves) == c && Kept(c)
  }

  lemma Then(moves: seq<Move>, c: Config, m: Move) returns (longer: seq<Move>)
    requires Leads(moves, c)
    ensures Leads(longer, Next(c, m))
  {
    hide Next, Kept;
    longer := moves + [m];
    assert longer[..|longer| - 1] == moves;
    NextKeeps(c, m);
  }

  /** A pause moves on. */
  lemma Paused(moves: seq<Move>, s: State, m: Move, s': State) returns (longer: seq<Move>)
    requires Leads(moves, Config(s, Pause(!Preparers(m)))) && !m.Stop? && !m.Resume? && !Mutators(m)
    requires s' == if Preparers(m) then PrepareMove(s, m) else if Walkers(m) then WalkMove(s, m) else TraceMove(s, m)
    ensures Leads(longer, Config(s', Pause(!Preparers(m))))
  {
    hide Kept, PrepareMove, WalkMove, TraceMove, Mutate;
    longer := Then(moves, Config(s, Pause(!Preparers(m))), m);
  }

  lemma Mutated(moves: seq<Move>, s: State, m: Move, s': State) returns (longer: seq<Move>)
    requires Leads(moves, Config(s, Running)) && Mutators(m) && s' == Mutate(s, m)
    ensures Leads(longer, Config(s', Running))
  {
    hide Kept, PrepareMove, WalkMove, TraceMove, Mutate;
    longer := Then(moves, Config(s, Running), m);
  }

  lemma Stopped(moves: seq<Move>, s: State) returns (longer: seq<Move>)
    requires Leads(moves, Config(s, Running))
    ensures Leads(longer, Config(s, Pause(s.active && !s.preparing)))
  {
    hide Kept;
    longer := Then(moves, Config(s, Running), Stop);
  }

  lemma Resumed(moves: seq<Move>, s: State, mode: Mode) returns (longer: seq<Move>)
    requires Leads(moves, Config(s, mode)) && mode.Pause? && (s.active && s.walk.running ==> s.walk.spanned)
    ensures Leads(longer, Config(s, Running))
  {
    hide Kept;
    longer := Then(moves, Config(s, mode), Resume);
  }

  // ---------------------------------------------------------------- the states of the two runs

  const PAGE: PageInfo := PageInfo(0, MEM_KIND_DYNAMIC, false, false, 0, 1, 1, 0x1_0000)
  const A: Block := Block(0, 0)
  const B: Block := Block(1, 0)
  const HOLDS_A: Word := Ptr(A, false, true)
  const HOLDS_B: Word := Ptr(B, false, true)
  const STALE: Word := Ptr(B, false, false)
  const NOTHING: Work := Work([], None, 0, None, 0, [], [], {})
  const NO_WALK: Walk := Walk(false, false, Cursor(0, 0), 0)

  /** The empty heap with one page list. */
  function Empty(): State {
    State(Heap(map[], map[], {}, {}), [[]], {}, {}, map[], 0, false, false, false, false, Cursor(0, 0), {}, {},
          NOTHING, NO_WALK, Reclaim(1, NoLink, 0, 0), {}, {})
  }

  /** One page, and on it an object the program holds, with a word that has the value of an address in no page. */
  function Allocated(): State {
    Empty().(heap := Heap(map[0 := PAGE], map[A := [STALE]], {A}, {HOLDS_A}), lists := [[0]], epochOf := map[0 := 0],
             work := NOTHING.(kernelDirty := {OsPage(0, 0)}))
  }

  /** A cycle has begun and the page is prepared. */
  function Prepared(): State {
    Allocated().(epoch := 1, active := true, epochOf := map[0 := 1], prepare := Cursor(1, 0), work := NOTHING)
  }

  /** The object is scanned; the walk of the dirty map has read the page, clean, and was cut off. */
  function CutOff(): State {
    Prepared().(marked := {A}, work := NOTHING.(cursor := 1), walk := Walk(true, true, Cursor(1, 0), 0), discovering := true)
  }

  /** A page was mapped at the address the stale word holds. */
  function Mapped(): State {
    CutOff().(heap := Heap(map[0 := PAGE, 1 := PAGE], map[A := [STALE], B := [Bits]], {A}, {HOLDS_A}), lists := [[1, 0]],
              epochOf := map[0 := 1, 1 := 1], born := {1})
  }

  /** A block of it was handed out from a refilled buffer, without a mark, and dropped again. */
  function Refilled(): State {
    Mapped().(heap := Heap(map[0 := PAGE, 1 := PAGE], map[A := [STALE], B := [Bits]], {A, B}, {HOLDS_A}), late := {B},
              work := NOTHING.(cursor := 1, kernelDirty := {OsPage(1, 0)}))
  }

  // ---------------------------------------------------------------- the common beginning

  /** A page of one block is mapped. */
  lemma MapsOne(s: State, page: nat)
    requires page !in s.heap.pages && |s.lists| == 1
    ensures Mutate(s, Map(page, PAGE, 1)) ==
            s.(heap := s.heap.(pages := s.heap.pages[page := PAGE], mem := s.heap.mem[Block(page, 0) := [Bits]]),
               lists := [[page] + s.lists[0]], epochOf := s.epochOf[page := if s.active then s.epoch else 0],
               born := if s.active then s.born + {page} else s.born)
  {
    var blocks := map b | b in BlocksOf(page, PAGE) :: seq(1, _ => Bits);
    assert forall b :: b in BlocksOf(page, PAGE) <==> b == Block(page, 0);
    assert seq(1, _ => Bits) == [Bits];
    assert s.heap.mem + blocks == s.heap.mem[Block(page, 0) := [Bits]];
    assert s.lists[0 := [page] + s.lists[0]] == [[page] + s.lists[0]];
  }

  function OnePage(): State {
    Empty().(heap := Heap(map[0 := PAGE], map[A := [Bits]], {}, {}), lists := [[0]], epochOf := map[0 := 0])
  }

  lemma AllocatesA()
    ensures Mutate(Empty(), Map(0, PAGE, 1)) == OnePage() && Mutate(OnePage(), Allocate(A, [STALE], 0)) == Allocated()
  {
    MapsOne(Empty(), 0);
    assert [0] + [] == [0];
    assert map[A := [Bits]][A := [STALE]] == map[A := [STALE]];
  }

  lemma Allocating() returns (moves: seq<Move>)
    ensures Leads(moves, Config(Allocated(), Pause(false)))
  {
    hide Mutate, Kept;
    EmptyKept();
    AllocatesA();
    moves := Mutated([], Empty(), Map(0, PAGE, 1), OnePage());
    moves := Mutated(moves, OnePage(), Allocate(A, [STALE], 0), Allocated());
    moves := Stopped(moves, Allocated());
  }

  function Begun(): State {
    Allocated().(epoch := 1, active := true, preparing := true, work := NOTHING)
  }

  lemma BeginsCycle()
    ensures PrepareMove(Allocated(), BeginCycle) == Begun()
    ensures PrepareMove(Begun(), PrepareList) == Begun().(prepare := Cursor(1, 1))
    ensures PrepareMove(Begun().(prepare := Cursor(1, 1)), PrepareCurrent) == Prepared().(preparing := true)
    ensures PrepareMove(Prepared().(preparing := true), EndPreparing) == Prepared()
  {
    var p := Begun().(prepare := Cursor(1, 1));
    assert p.prepare.Page(p.lists) == 0 && !p.Prepared(0);
    assert (set b | b in p.published && b.page != 0) == {};
    assert map[0 := 0][0 := 1] == map[0 := 1];
  }

  lemma Preparing() returns (moves: seq<Move>)
    ensures Leads(moves, Config(Prepared(), Pause(true)))
  {
    hide PrepareMove, Kept;
    moves := Allocating();
    BeginsCycle();
    moves := Paused(moves, Allocated(), BeginCycle, Begun());
    moves := Paused(moves, Begun(), PrepareList, Begun().(prepare := Cursor(1, 1)));
    moves := Paused(moves, Begun().(prepare := Cursor(1, 1)), PrepareCurrent, Prepared().(preparing := true));
    moves := Paused(moves, Prepared().(preparing := true), EndPreparing, Prepared());
    moves := Resumed(moves, Prepared(), Pause(false));
    moves := Stopped(moves, Prepared());
  }

  function Visited(work: Work): State {
    Prepared().(marked := {A}, queued := {A}, work := work)
  }

  function Scanned(walk: Walk): State {
    Prepared().(marked := {A}, work := NOTHING.(cursor := 1), walk := walk)
  }

  lemma VisitsA()
    ensures TraceMove(Prepared(), VisitRoot(HOLDS_A)) == Visited(NOTHING.(stack := [A]))
    ensures TraceMove(Visited(NOTHING.(stack := [A])), Pop) == Visited(NOTHING.(block := Some(A)))
  {
  }

  lemma ScansA()
    ensures TraceMove(Visited(NOTHING.(block := Some(A))), Scan) == Visited(NOTHING.(block := Some(A), cursor := 1))
    ensures TraceMove(Visited(NOTHING.(block := Some(A), cursor := 1)), EndBlock) == Scanned(NO_WALK)
  {
  }

  lemma WalksPage()
    ensures WalkMove(Scanned(NO_WALK), BeginWalk) == Scanned(Walk(true, false, Cursor(0, 0), 0))
    ensures WalkMove(Scanned(Walk(true, false, Cursor(0, 0), 0)), WalkList) == Scanned(Walk(true, false, Cursor(1, 1), 0))
  {
  }

  lemma ReadsPage()
    ensures WalkMove(Scanned(Walk(true, false, Cursor(1, 1), 0)), WalkChunk) == Scanned(Walk(true, false, Cursor(1, 0), 0))
    ensures WalkMove(Scanned(Walk(true, false, Cursor(1, 0), 0)), CutOffWalk) == CutOff()
  {
  }

  lemma CuttingOff() returns (moves: seq<Move>)
    ensures Leads(moves, Config(CutOff(), Running))
  {
    hide TraceMove, WalkMove, Kept;
    moves := Preparing();
    VisitsA();
    ScansA();
    WalksPage();
    ReadsPage();
    moves := Paused(moves, Prepared(), VisitRoot(HOLDS_A), Visited(NOTHING.(stack := [A])));
    moves := Paused(moves, Visited(NOTHING.(stack := [A])), Pop, Visited(NOTHING.(block := Some(A))));
    moves := Paused(moves, Visited(NOTHING.(block := Some(A))), Scan, Visited(NOTHING.(block := Some(A), cursor := 1)));
    moves := Paused(moves, Visited(NOTHING.(block := Some(A), cursor := 1)), EndBlock, Scanned(NO_WALK));
    moves := Paused(moves, Scanned(NO_WALK), BeginWalk, Scanned(Walk(true, false, Cursor(0, 0), 0)));
    moves := Paused(moves, Scanned(Walk(true, false, Cursor(0, 0), 0)), WalkList, Scanned(Walk(true, false, Cursor(1, 1), 0)));
    moves := Paused(moves, Scanned(Walk(true, false, Cursor(1, 1), 0)), WalkChunk, Scanned(Walk(true, false, Cursor(1, 0), 0)));
    moves := Paused(moves, Scanned(Walk(true, false, Cursor(1, 0), 0)), CutOffWalk, CutOff());
    moves := Resumed(moves, CutOff(), Pause(true));
  }

  lemma MapsAtStaleAddress()
    ensures Mutate(CutOff(), Map(1, PAGE, 1)) == Mapped()
  {
    hide Mutate;
    MapsOne(CutOff(), 1);
    assert [1] + [0] == [1, 0];
    assert map[0 := PAGE][1 := PAGE] == map[0 := PAGE, 1 := PAGE];
    assert map[A := [STALE]][B := [Bits]] == map[A := [STALE], B := [Bits]];
    assert map[0 := 1][1 := 1] == map[0 := 1, 1 := 1];
  }

  lemma Mapping() returns (moves: seq<Move>)
    ensures Leads(moves, Config(Mapped(), Running))
  {
    hide Mutate, Kept;
    moves := CuttingOff();
    MapsAtStaleAddress();
    moves := Mutated(moves, CutOff(), Map(1, PAGE, 1), Mapped());
  }

  // ---------------------------------------------------------------- a free block is reported

  /** The next pause reads both pages, clean, ends the walk, and finds nothing to trace. */
  function Complete(): State {
    Mapped().(walk := NO_WALK, discovering := false)
  }

  /** A page without dirty bits is read for nothing. */
  lemma CapturesClean(s: State, at: Cursor)
    requires forall o <- s.work.kernelDirty :: !at.Within(s.lists) || at.rest == 0 || o.page != at.Page(s.lists)
    ensures WalkMove(s, Capture(at)) == s
  {
  }

  lemma FindsNothing()
    ensures WalkMove(Mapped(), EndWalk) == Complete()
    ensures TraceMove(Complete(), VisitRoot(HOLDS_A)) == Complete()
  {
  }

  lemma StaleWordNames(s: State)
    requires s.heap.mem == map[A := [STALE], B := [Bits]] && s.heap.pages == map[0 := PAGE, 1 := PAGE] && s.heap.roots == {HOLDS_A}
    ensures Reachable(Conservative(s.heap), B)
  {
    var g := Conservative(s.heap);
    assert s.heap.RootNames(HOLDS_A, A);
    assert A in g.roots;
    RootReachable(g, A);
    assert NamesAt(s.heap, A, 0, B);
    assert (A, B) in g.edges;
    EdgeReachable(g, A, B);
  }

  /** Marking is at rest, and yet the oracle reaches an unmarked block. */
  ghost predicate Alarm(c: Config, b: Block) {
    c.mode == Pause(true) && AtRest(c.s) && Reachable(Conservative(c.s.heap), b) && b !in c.s.marked
  }

  lemma KeptIsTracing(s: State)
    requires Kept(Config(s, Pause(true))) && s.active && !s.preparing && !s.discovering
    ensures Tracing(s)
  {
    hide InPause;
  }

  /** A run from the empty heap to a complete cycle in which the oracle reports a free block, and no object. */
  lemma OracleReportsAFreeBlock() returns (moves: seq<Move>)
    ensures var c := Run(Config(Empty(), Running), moves); Alarm(c, B) && B !in c.s.heap.inUse && c.s.late == {}
  {
    hide WalkMove, TraceMove, Tracing, Kept, Run;
    moves := Mapping();
    CapturesClean(Mapped(), Cursor(1, 2));
    CapturesClean(Mapped(), Cursor(1, 1));
    FindsNothing();
    moves := Stopped(moves, Mapped());
    moves := Paused(moves, Mapped(), Capture(Cursor(1, 2)), Mapped());
    moves := Paused(moves, Mapped(), Capture(Cursor(1, 1)), Mapped());
    moves := Paused(moves, Mapped(), EndWalk, Complete());
    moves := Paused(moves, Complete(), VisitRoot(HOLDS_A), Complete());
    StaleWordNames(Complete());
    KeptIsTracing(Complete());
  }

  // ---------------------------------------------------------------- a block in use is missed

  function HandedOutLate(): State {
    Refilled().(heap := Refilled().heap.(roots := {HOLDS_A, HOLDS_B}))
  }

  function Captured(): State {
    Refilled().(work := NOTHING.(cursor := 1, incoming := [1], kernelDirty := {OsPage(1, 0)}))
  }

  /** The next pause finds the new page dirty and rescans it; its block carries no mark. */
  function Frozen(work: Work): State {
    Refilled().(walk := NO_WALK, discovering := false, work := work)
  }

  lemma Refills()
    ensures Mutate(Mapped(), Refill(B, [Bits], 0)) == HandedOutLate() && Mutate(HandedOutLate(), Drop(HOLDS_B)) == Refilled()
  {
    assert map[A := [STALE], B := [Bits]][B := [Bits]] == map[A := [STALE], B := [Bits]];
    assert {HOLDS_A} + {HOLDS_B} == {HOLDS_A, HOLDS_B} && {HOLDS_A, HOLDS_B} - {HOLDS_B} == {HOLDS_A};
  }

  lemma CapturesPage()
    ensures WalkMove(Refilled(), Capture(Cursor(1, 2))) == Captured()
  {
    var s := Refilled();
    assert HasCurrent(s, Cursor(1, 2), 0) && Cursor(1, 2).Page(s.lists) == 1;
    assert OsPage(1, 0) in s.work.kernelDirty;
    assert CurrentDirty(s, Cursor(1, 2), 0);
    assert [1] + [] == [1];
  }

  lemma EndsWalk()
    ensures WalkMove(Captured(), EndWalk) == Frozen(NOTHING.(cursor := 1, batch := [1]))
  {
    assert Queued(Captured().work, 1);
  }

  lemma PopsPage()
    ensures TraceMove(Frozen(NOTHING.(cursor := 1, batch := [1])), VisitRoot(HOLDS_A)) == Frozen(NOTHING.(cursor := 1, batch := [1]))
    ensures TraceMove(Frozen(NOTHING.(cursor := 1, batch := [1])), PopPage) == Frozen(NOTHING.(cursor := 1, rescan := Some(1)))
  {
  }

  lemma RescansBlock()
    ensures TraceMove(Frozen(NOTHING.(cursor := 1, rescan := Some(1))), Rescan) == Frozen(NOTHING.(cursor := 1, rescan := Some(1), rescanBid := 1))
    ensures TraceMove(Frozen(NOTHING.(cursor := 1, rescan := Some(1), rescanBid := 1)), EndRescan) == Frozen(NOTHING.(cursor := 1, rescanBid := 1))
  {
  }

  /** A run in which the marks of a complete cycle miss a block in use, handed out without a mark and no longer held. */
  lemma CycleMissesALateBlock() returns (moves: seq<Move>)
    ensures var c := Run(Config(Empty(), Running), moves); Alarm(c, B) && B in c.s.heap.inUse && c.s.late == {B}
  {
    hide WalkMove, TraceMove, Mutate, Tracing, Kept, Run;
    moves := Mapping();
    Refills();
    CapturesPage();
    assert Cursor(1, 1).Page(Captured().lists) == 0;
    CapturesClean(Captured(), Cursor(1, 1));
    EndsWalk();
    moves := Mutated(moves, Mapped(), Refill(B, [Bits], 0), HandedOutLate());
    moves := Mutated(moves, HandedOutLate(), Drop(HOLDS_B), Refilled());
    moves := Stopped(moves, Refilled());
    moves := Paused(moves, Refilled(), Capture(Cursor(1, 2)), Captured());
    moves := Paused(moves, Captured(), Capture(Cursor(1, 1)), Captured());
    moves := Paused(moves, Captured(), EndWalk, Frozen(NOTHING.(cursor := 1, batch := [1])));
    moves := Rescanning(moves);
    var end := Frozen(NOTHING.(cursor := 1, rescanBid := 1));
    StaleWordNames(end);
    KeptIsTracing(end);
  }

  lemma Rescanning(before: seq<Move>) returns (moves: seq<Move>)
    requires Leads(before, Config(Frozen(NOTHING.(cursor := 1, batch := [1])), Pause(true)))
    ensures Leads(moves, Config(Frozen(NOTHING.(cursor := 1, rescanBid := 1)), Pause(true)))
  {
    hide TraceMove, Kept;
    PopsPage();
    RescansBlock();
    moves := Paused(before, Frozen(NOTHING.(cursor := 1, batch := [1])), VisitRoot(HOLDS_A), Frozen(NOTHING.(cursor := 1, batch := [1])));
    moves := Paused(moves, Frozen(NOTHING.(cursor := 1, batch := [1])), PopPage, Frozen(NOTHING.(cursor := 1, rescan := Some(1))));
    moves := Paused(moves, Frozen(NOTHING.(cursor := 1, rescan := Some(1))), Rescan, Frozen(NOTHING.(cursor := 1, rescan := Some(1), rescanBid := 1)));
    moves := Paused(moves, Frozen(NOTHING.(cursor := 1, rescan := Some(1), rescanBid := 1)), EndRescan, Frozen(NOTHING.(cursor := 1, rescanBid := 1)));
  }
}
