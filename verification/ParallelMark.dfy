/**
 Parallel marking in a stopped world: worker threads with private mark stacks, work handed to idle workers under one
 lock, a mark bit won by an atomic exchange, and a collector that waits until no worker is pending.

 A thread's step is one access to shared memory: an iteration of the hand-off loop, a semaphore operation, a mark bit.
 A schedule is any sequence of threads. `failed` records that a thread met one of the source's fatal asserts.
 */
module ParallelMark {
  import opened HeapModel

  /** What a worker is doing. `Handing` is the hand-off loop of gc_dispatch_mark, entered with a block in hand. */
  datatype Activity =
    | Idle
    | Scan
    | Hand(block: Block, pos: nat)
    | Handing(block: Block, next: nat, share: nat)
    | Leaving

  datatype Worker = Worker(stack: seq<Block>, ready: nat, activity: Activity)

  /** The collector: splits the roots among the workers, wakes them, waits for them, checks. */
  datatype Main = Start | Splitting(next: nat, share: nat, idle: nat) | Releasing(next: nat) | Waiting | Checked

  datatype Holder = Free | ByMain | ByWorker(i: nat)

  datatype State = State(workers: seq<Worker>, active: set<nat>, pending: int, marks: set<Block>, global: seq<Block>,
                         main: Main, lock: Holder, failed: bool)

  // ---------------------------------------------------------------- the steps

  function Idles(s: State): (n: int) {
    |s.workers| - |s.active|
  }

  /** The part of a stack given away: its top `share` entries, or all of them. */
  function Kept(stack: seq<Block>, share: nat): (n: nat)
    ensures n <= |stack|
  {
    if share < |stack| then |stack| - share else 0
  }

  /** One idle worker gets its share; the hand-off of the roots delays the wake-up. */
  function Receive(w: Worker, given: seq<Block>, wake: bool): Worker {
    w.(stack := w.stack + given, ready := if wake then w.ready + 1 else w.ready)
  }

  function Enlist(s: State, k: nat, given: seq<Block>, wake: bool): State
    requires k < |s.workers|
  {
    s.(active := s.active + {k}, pending := s.pending + 1, failed := s.failed || s.workers[k].stack != [],
       workers := s.workers[k := Receive(s.workers[k], given, wake)])
  }

  function MainStep(s: State): State {
    match s.main
    case Start =>
      if s.lock != Free then s
      else if Idles(s) <= 0 || (|s.global| + Idles(s) - 1) / Idles(s) == 0 then
        s.(main := Waiting, failed := s.failed || s.global != [])
      else
        s.(main := Splitting(0, (|s.global| + Idles(s) - 1) / Idles(s), Idles(s)), lock := ByMain)
    case Splitting(next, share, idle) =>
      if next >= |s.workers| then
        s.(main := Releasing(0), failed := s.failed || idle != |s.workers|)
      else if next in s.active then
        s.(main := Splitting(next + 1, share, idle))
      else
        var kept := Kept(s.global, share);
        Enlist(s, next, s.global[kept..], false).(global := s.global[..kept], main := Splitting(next + 1, share, idle))
    case Releasing(next) =>
      if next >= |s.workers| then
        s.(main := Waiting, lock := Free, failed := s.failed || s.global != [])
      else
        s.(main := Releasing(next + 1), workers := s.workers[next := s.workers[next].(ready := s.workers[next].ready + 1)])
    case Waiting =>
      if s.lock != Free || s.pending > 0 then s
      else s.(main := Checked, failed := s.failed || s.active != {} || exists w <- s.workers :: w.stack != [])
    case Checked => s
  }

  function SetWorker(s: State, i: nat, w: Worker): State
    requires i < |s.workers|
  {
    s.(workers := s.workers[i := w])
  }

  /** The block that a word names exactly, if the word is one the types follow and it names one. */
  function Named(h: Heap, lens: Lens, b: Block, i: nat): set<Block>
    requires b in h.mem && i < |h.mem[b]|
  {
    var w := h.mem[b][i];
    if lens.Reads(b, i) && w.Ptr? && !w.interior && w.target in h.mem then {w.target} else {}
  }

  /** Scans one word: whoever sets the mark bit pushes the block, if it can hold pointers. */
  function ScanStep(h: Heap, lens: Lens, s: State, i: nat, b: Block, pos: nat): State
    requires i < |s.workers| && b in h.mem && pos < |h.mem[b]|
  {
    var w, won := s.workers[i], Named(h, lens, b, pos) - s.marks;
    var push := if won != {} && h.Traced(h.mem[b][pos].target) then [h.mem[b][pos].target] else [];
    SetWorker(s, i, w.(stack := w.stack + push, activity := Hand(b, pos + 1))).(marks := s.marks + won)
  }

  /** `ask` says whether the worker, with a fresh block in hand, tries to share its stack. */
  function WorkerStep(h: Heap, lens: Lens, s: State, i: nat, ask: bool): State
    requires i < |s.workers|
  {
    var w := s.workers[i];
    match w.activity
    case Idle =>
      if w.ready == 0 then s else SetWorker(s, i, w.(ready := w.ready - 1, activity := Scan))
    case Scan =>
      if w.stack == [] then SetWorker(s, i, w.(activity := Leaving))
      else SetWorker(s, i, w.(stack := w.stack[..|w.stack| - 1], activity := Hand(w.stack[|w.stack| - 1], 0)))
    case Hand(b, pos) =>
      if pos == 0 && ask then
        if s.lock != Free || Idles(s) <= 0 || |w.stack| / (Idles(s) + 1) == 0 then s
        else SetWorker(s, i, w.(activity := Handing(b, 0, |w.stack| / (Idles(s) + 1)))).(lock := ByWorker(i))
      else if b in h.mem && pos < |h.mem[b]| then ScanStep(h, lens, s, i, b, pos)
      else SetWorker(s, i, w.(activity := Scan))
    case Handing(b, next, share) =>
      if next >= |s.workers| then
        SetWorker(s, i, w.(activity := Hand(b, 0))).(lock := Free)
      else if next in s.active then
        SetWorker(s, i, w.(activity := Handing(b, next + 1, share)))
      else
        var kept := Kept(w.stack, share);
        var left := SetWorker(s, i, w.(stack := w.stack[..kept], activity := Handing(b, next + 1, share)));
        Enlist(left, next, w.stack[kept..], true)
    case Leaving =>
      if s.lock != Free then s
      else SetWorker(s, i, w.(activity := Idle)).(active := s.active - {i}, pending := s.pending - 1,
                                                  failed := s.failed || i !in s.active || s.pending <= 0)
  }

  /** A scheduling choice: the collector, or a worker. */
  datatype Choice = Collector | Turn(i: nat, ask: bool)

  function Step(h: Heap, lens: Lens, s: State, c: Choice): State {
    match c
    case Collector => MainStep(s)
    case Turn(i, ask) => if i < |s.workers| then WorkerStep(h, lens, s, i, ask) else s
  }

  function Run(h: Heap, lens: Lens, s: State, schedule: seq<Choice>): State {
    if schedule == [] then s else Step(h, lens, Run(h, lens, s, schedule[..|schedule| - 1]), schedule[|schedule| - 1])
  }

  // ---------------------------------------------------------------- the work there is

  function InHand(a: Activity): multiset<Block> {
    if a.Hand? || a.Handing? then multiset{a.block} else multiset{}
  }

  function Load(w: Worker): multiset<Block> {
    multiset(w.stack) + InHand(w.activity)
  }

  function Total(ws: seq<Worker>): multiset<Block> {
    if ws == [] then multiset{} else Total(ws[..|ws| - 1]) + Load(ws[|ws| - 1])
  }

  /** Every block waiting on a stack or being scanned. */
  function Work(s: State): multiset<Block> {
    multiset(s.global) + Total(s.workers)
  }

  lemma Swap(a: multiset<Block>, b: multiset<Block>, c: multiset<Block>)
    ensures a + b + c == a + c + b
  {
  }

  lemma {:induction false} TotalUpdate(ws: seq<Worker>, i: nat, w: Worker)
    requires i < |ws|
    ensures Total(ws[i := w]) + Load(ws[i]) == Total(ws) + Load(w)
    decreases |ws|
  {
    hide Load;
    var init, last, ws' := ws[..|ws| - 1], |ws| - 1, ws[i := w];
    if i == last {
      assert ws'[..last] == init;
    } else {
      TotalUpdate(init, i, w);
      assert ws'[..last] == init[i := w];
      Swap(Total(init[i := w]), Load(ws[last]), Load(ws[i]));
      Swap(Total(init), Load(w), Load(ws[last]));
    }
  }

  lemma {:induction false} LoadCounts(ws: seq<Worker>, i: nat)
    requires i < |ws|
    ensures Load(ws[i]) <= Total(ws)
    decreases |ws|
  {
    if i < |ws| - 1 {
      LoadCounts(ws[..|ws| - 1], i);
    }
  }

  lemma {:induction false} NothingCounts(ws: seq<Worker>)
    requires forall w <- ws :: Load(w) == multiset{}
    ensures Total(ws) == multiset{}
    decreases |ws|
  {
    if ws != [] {
      var init := ws[..|ws| - 1];
      forall w | w in init ensures Load(w) == multiset{} { assert w in ws; }
      NothingCounts(init);
      assert ws[|ws| - 1] in ws;
    }
  }

  lemma MoreLoad(total: multiset<Block>, total': multiset<Block>, load: multiset<Block>, more: multiset<Block>)
    requires total' + load == total + (load + more)
    ensures total' == total + more
  {
    forall b ensures total'[b] == (total + more)[b] {
      assert (total' + load)[b] == (total + (load + more))[b];
    }
  }

  lemma StackSplits(stack: seq<Block>, k: nat)
    requires k <= |stack|
    ensures multiset(stack) == multiset(stack[..k]) + multiset(stack[k..])
  {
    assert stack == stack[..k] + stack[k..];
  }

  /** Handing work over neither loses nor copies a block. */
  lemma EnlistConserves(s: State, k: nat, given: seq<Block>, wake: bool)
    requires k < |s.workers|
    ensures Total(Enlist(s, k, given, wake).workers) == Total(s.workers) + multiset(given)
  {
    hide Total;
    var w, w' := s.workers[k], Receive(s.workers[k], given, wake);
    TotalUpdate(s.workers, k, w');
    assert Load(w') == Load(w) + multiset(given);
    MoreLoad(Total(s.workers), Total(s.workers[k := w']), Load(w), multiset(given));
  }

  // ---------------------------------------------------------------- the invariant

  /** Given work but not yet woken. */
  predicate Owed(m: Main, i: nat) {
    (m.Splitting? && i < m.next) || (m.Releasing? && i >= m.next)
  }

  ghost predicate WorkerOk(s: State, i: nat)
    requires i < |s.workers|
  {
    var w := s.workers[i];
    && (w.ready + (if w.activity.Idle? then 0 else 1) + (if Owed(s.main, i) then 1 else 0) == if i in s.active then 1 else 0)
    && (i !in s.active || w.activity.Leaving? ==> w.stack == [])
    && (w.activity.Handing? <==> s.lock == ByWorker(i))
  }

  /** The active bits count the pending workers and describe what each is doing. */
  ghost predicate Accounts(s: State) {
    && !s.failed && s.pending == |s.active| && |s.workers| > 0
    && (forall i <- s.active :: i < |s.workers|)
    && (s.lock.ByWorker? ==> s.lock.i < |s.workers|)
    && (forall i: nat :: i < |s.workers| ==> WorkerOk(s, i))
  }

  ghost predicate MainOk(s: State) {
    && (s.lock == ByMain <==> s.main.Splitting? || s.main.Releasing?)
    && (s.main.Start? ==> s.active == {} && s.lock == Free)
    && (s.main.Splitting? ==>
          && s.main.idle == |s.workers| && s.main.next <= |s.workers| && |s.global| <= s.main.share * (|s.workers| - s.main.next)
          && forall i <- s.active :: i < s.main.next)
    && (s.main.Releasing? ==> s.main.next <= |s.workers|)
    && (s.main.Releasing? || s.main.Waiting? || s.main.Checked? ==> s.global == [])
    && (s.main.Checked? ==> s.active == {})
  }

  /** The words of a block before `pos` name only marked blocks. */
  ghost predicate Scanned(h: Heap, lens: Lens, b: Block, pos: nat, marks: set<Block>) {
    b in h.mem && forall k: nat :: k < pos && k < |h.mem[b]| ==> Named(h, lens, b, k) <= marks
  }

  /** A marked block that may hold pointers is waiting exactly once, or wholly scanned. */
  ghost predicate WorkOk(h: Heap, lens: Lens, marks: set<Block>, work: multiset<Block>) {
    && (forall b :: work[b] <= 1)
    && (forall b <- work :: b in marks && h.Traced(b))
    && (forall b <- marks :: b in h.mem && (b in work || !h.Traced(b) || Scanned(h, lens, b, |h.mem[b]|, marks)))
  }

  ghost predicate HandsOk(h: Heap, lens: Lens, s: State) {
    forall i: nat :: i < |s.workers| && s.workers[i].activity.Hand? ==>
      Scanned(h, lens, s.workers[i].activity.block, s.workers[i].activity.pos, s.marks)
  }

  ghost predicate MarksOk(h: Heap, lens: Lens, marks: set<Block>) {
    && (forall b :: RootSeen(h, lens, b) ==> b in marks)
    && (forall b <- marks :: Reachable(Seen(h, lens), b))
  }

  ghost predicate Inv(h: Heap, lens: Lens, s: State) {
    Accounts(s) && MainOk(s) && WorkOk(h, lens, s.marks, Work(s)) && HandsOk(h, lens, s) && MarksOk(h, lens, s.marks)
  }

  // ---------------------------------------------------------------- every step keeps it: the bookkeeping

  lemma MainControl(s: State)
    requires Accounts(s) && MainOk(s)
    ensures Accounts(MainStep(s)) && MainOk(MainStep(s))
  {
    match s.main
    case Start => StartSplits(s);
    case Splitting(next, share, idle) => SplitControl(s);
    case Releasing(next) => ReleaseControl(s);
    case Waiting => WaitControl(s);
    case Checked =>
  }

  lemma WaitControl(s: State)
    requires Accounts(s) && MainOk(s) && s.main.Waiting?
    ensures Accounts(MainStep(s)) && MainOk(MainStep(s))
  {
    if s.pending == 0 {
      NonePending(s);
    }
    forall i: nat | i < |s.workers| ensures WorkerOk(MainStep(s), i) {
      assert WorkerOk(s, i);
    }
  }

  ghost predicate NoStacks(s: State) {
    forall w <- s.workers :: w.stack == []
  }

  /** When no worker is pending, every stack is empty. */
  lemma NonePending(s: State)
    requires Accounts(s) && s.pending == 0
    ensures s.active == {} && NoStacks(s)
    ensures forall w <- s.workers :: w.activity.Idle?
  {
    forall w | w in s.workers ensures w.stack == [] && w.activity.Idle? {
      var i: nat :| i < |s.workers| && s.workers[i] == w;
      assert WorkerOk(s, i);
    }
  }

  /** The rounded-up share covers the roots. */
  lemma Ceiling(n: nat, k: nat)
    requires k > 0
    ensures n <= (n + k - 1) / k * k && ((n + k - 1) / k == 0 ==> n == 0)
  {
  }

  lemma StartSplits(s: State)
    requires Accounts(s) && MainOk(s) && s.main.Start?
    ensures Accounts(MainStep(s)) && MainOk(MainStep(s))
  {
    Ceiling(|s.global|, |s.workers|);
    forall i: nat | i < |s.workers| ensures WorkerOk(MainStep(s), i) {
      assert WorkerOk(s, i);
    }
  }

  lemma ShareLeft(n: nat, share: nat, left: nat)
    requires n <= share * left
    ensures left > 0 ==> (if share < n then n - share else 0) <= share * (left - 1)
    ensures left == 0 ==> n == 0
  {
    assert left > 0 ==> share * left == share * (left - 1) + share && share * (left - 1) >= 0;
  }

  lemma SplitControl(s: State)
    requires Accounts(s) && MainOk(s) && s.main.Splitting?
    ensures Accounts(MainStep(s)) && MainOk(MainStep(s))
  {
    hide WorkerOk;
    ShareLeft(|s.global|, s.main.share, |s.workers| - s.main.next);
    forall i: nat | i < |s.workers| ensures WorkerOk(MainStep(s), i) {
      SplitWorker(s, i);
    }
    if s.main.next < |s.workers| {
      SplitFresh(s);
    }
  }

  lemma SplitFresh(s: State)
    requires Accounts(s) && MainOk(s) && s.main.Splitting? && s.main.next < |s.workers|
    ensures s.main.next !in s.active && s.workers[s.main.next].stack == []
  {
    assert WorkerOk(s, s.main.next);
  }

  lemma SplitWorker(s: State, i: nat)
    requires Accounts(s) && MainOk(s) && s.main.Splitting? && i < |s.workers|
    ensures WorkerOk(MainStep(s), i)
  {
    assert WorkerOk(s, i);
  }

  lemma ReleaseControl(s: State)
    requires Accounts(s) && MainOk(s) && s.main.Releasing?
    ensures Accounts(MainStep(s)) && MainOk(MainStep(s))
  {
    forall i: nat | i < |s.workers| ensures WorkerOk(MainStep(s), i) {
      assert WorkerOk(s, i);
    }
  }

  lemma WorkerControl(h: Heap, lens: Lens, s: State, i: nat, ask: bool)
    requires Accounts(s) && MainOk(s) && i < |s.workers|
    ensures Accounts(WorkerStep(h, lens, s, i, ask)) && MainOk(WorkerStep(h, lens, s, i, ask))
  {
    hide WorkerOk, ScanStep, Enlist;
    if s.workers[i].activity.Handing? {
      HandingControl(h, lens, s, i, ask);
    } else {
      var s' := WorkerStep(h, lens, s, i, ask);
      ActiveControl(h, lens, s, i, ask);
      forall j: nat | j < |s.workers| ensures WorkerOk(s', j) {
        OneControl(h, lens, s, i, ask, j);
      }
    }
  }

  /** Outside the hand-off only a leaving worker changes the active mask and the count, and it is active. */
  lemma ActiveControl(h: Heap, lens: Lens, s: State, i: nat, ask: bool)
    requires Accounts(s) && MainOk(s) && i < |s.workers| && !s.workers[i].activity.Handing?
    ensures var s' := WorkerStep(h, lens, s, i, ask);
            && s'.main == s.main && s'.global == s.global && |s'.workers| == |s.workers| && !s'.failed
            && s'.pending == |s'.active| && s'.active <= s.active
            && (s'.lock == s.lock || (s.lock == Free && s'.lock == ByWorker(i) && i in s.active))
            && (s'.active != s.active ==> s.lock == Free)
  {
    assert WorkerOk(s, i);
  }

  lemma OneControl(h: Heap, lens: Lens, s: State, i: nat, ask: bool, j: nat)
    requires Accounts(s) && i < |s.workers| && !s.workers[i].activity.Handing? && j < |s.workers|
    ensures |WorkerStep(h, lens, s, i, ask).workers| == |s.workers| && WorkerOk(WorkerStep(h, lens, s, i, ask), j)
  {
    assert WorkerOk(s, i) && WorkerOk(s, j);
  }

  lemma HandingControl(h: Heap, lens: Lens, s: State, i: nat, ask: bool)
    requires Accounts(s) && MainOk(s) && i < |s.workers| && s.workers[i].activity.Handing?
    ensures Accounts(WorkerStep(h, lens, s, i, ask)) && MainOk(WorkerStep(h, lens, s, i, ask))
  {
    var s', next := WorkerStep(h, lens, s, i, ask), s.workers[i].activity.next;
    assert WorkerOk(s, i);
    assert next < |s.workers| ==> WorkerOk(s, next);
    forall j: nat | j < |s.workers| ensures WorkerOk(s', j) {
      assert WorkerOk(s, j);
    }
  }

  // ---------------------------------------------------------------- every step keeps it: the work

  lemma MainWork(s: State)
    ensures Work(MainStep(s)) == Work(s)
  {
    hide Total;
    match s.main
    case Splitting(next, share, idle) =>
      if next < |s.workers| && next !in s.active {
        var kept := Kept(s.global, share);
        EnlistConserves(s, next, s.global[kept..], false);
        StackSplits(s.global, kept);
        LessThenMore(multiset(s.global), multiset(s.global[..kept]), multiset(s.global[kept..]), Total(s.workers));
      }
    case Releasing(next) =>
      if next < |s.workers| {
        SameLoad(s.workers, next, s.workers[next].(ready := s.workers[next].ready + 1));
      }
    case _ =>
  }

  lemma LessThenMore(all: multiset<Block>, kept: multiset<Block>, given: multiset<Block>, rest: multiset<Block>)
    requires all == kept + given
    ensures kept + (rest + given) == all + rest
  {
  }

  lemma SameLoad(ws: seq<Worker>, i: nat, w: Worker)
    requires i < |ws| && Load(w) == Load(ws[i])
    ensures Total(ws[i := w]) == Total(ws)
  {
    hide Load, Total;
    TotalUpdate(ws, i, w);
    MoreLoad(Total(ws), Total(ws[i := w]), Load(w), multiset{});
  }

  lemma LessLoad(ws: seq<Worker>, i: nat, w: Worker, less: multiset<Block>)
    requires i < |ws| && Load(w) + less == Load(ws[i])
    ensures Total(ws[i := w]) + less == Total(ws)
  {
    hide Load, Total;
    TotalUpdate(ws, i, w);
    var total, total' := Total(ws), Total(ws[i := w]);
    forall b ensures (total' + less)[b] == total[b] {
      assert (total' + (Load(w) + less))[b] == (total + Load(w))[b];
    }
  }

  /** Neither scanning a word nor finishing a block. */
  predicate Shuffles(h: Heap, lens: Lens, s: State, i: nat, ask: bool)
    requires i < |s.workers|
  {
    s.workers[i].activity.Hand? ==> s.workers[i].activity.pos == 0 && ask
  }

  lemma WorkerShuffles(h: Heap, lens: Lens, s: State, i: nat, ask: bool)
    requires i < |s.workers| && Shuffles(h, lens, s, i, ask) && (s.workers[i].activity.Handing? ==> i in s.active)
    ensures Work(WorkerStep(h, lens, s, i, ask)) == Work(s) && WorkerStep(h, lens, s, i, ask).marks == s.marks
  {
    hide Total, Load, WorkerStep;
    ShuffleMarks(h, lens, s, i, ask);
    if s.workers[i].activity.Handing? {
      HandingShuffles(h, lens, s, i, ask);
    } else {
      var w := OwnLoad(h, lens, s, i, ask);
      SameLoad(s.workers, i, w);
    }
  }

  lemma ShuffleMarks(h: Heap, lens: Lens, s: State, i: nat, ask: bool)
    requires i < |s.workers| && Shuffles(h, lens, s, i, ask)
    ensures WorkerStep(h, lens, s, i, ask).marks == s.marks && WorkerStep(h, lens, s, i, ask).global == s.global
  {
    hide ScanStep;
  }

  lemma OwnLoad(h: Heap, lens: Lens, s: State, i: nat, ask: bool) returns (w: Worker)
    requires i < |s.workers| && Shuffles(h, lens, s, i, ask) && !s.workers[i].activity.Handing?
    ensures WorkerStep(h, lens, s, i, ask).workers == s.workers[i := w] && Load(w) == Load(s.workers[i])
  {
    hide Load, WorkerStep;
    w := OwnSlot(h, lens, s, i, ask);
    if s.workers[i].activity.Scan? && s.workers[i].stack != [] {
      PopLoad(s.workers[i]);
    } else {
      SameStackLoad(s.workers[i], w);
    }
  }

  lemma OwnSlot(h: Heap, lens: Lens, s: State, i: nat, ask: bool) returns (w: Worker)
    requires i < |s.workers| && Shuffles(h, lens, s, i, ask) && !s.workers[i].activity.Handing?
    ensures WorkerStep(h, lens, s, i, ask).workers == s.workers[i := w]
    ensures var was := s.workers[i];
            if was.activity.Scan? && was.stack != [] then
              w == was.(stack := was.stack[..|was.stack| - 1], activity := Hand(was.stack[|was.stack| - 1], 0))
            else w.stack == was.stack && InHand(w.activity) == InHand(was.activity)
  {
    hide Idles, ScanStep, Enlist, Kept;
    assert s.workers == s.workers[i := s.workers[i]];
    w := WorkerStep(h, lens, s, i, ask).workers[i];
  }

  lemma SameStackLoad(w: Worker, w': Worker)
    requires w'.stack == w.stack && InHand(w'.activity) == InHand(w.activity)
    ensures Load(w') == Load(w)
  {
  }

  lemma PopLoad(w: Worker)
    requires w.activity.Scan? && w.stack != []
    ensures Load(w.(stack := w.stack[..|w.stack| - 1], activity := Hand(w.stack[|w.stack| - 1], 0))) == Load(w)
  {
    hide Load;
    var top := w.stack[|w.stack| - 1];
    StackSplits(w.stack, |w.stack| - 1);
    assert w.stack[|w.stack| - 1..] == [top];
    LoadIs(w);
    LoadIs(w.(stack := w.stack[..|w.stack| - 1], activity := Hand(top, 0)));
    assert multiset(w.stack) + multiset{} == multiset(w.stack);
  }

  lemma LoadIs(w: Worker)
    ensures Load(w) == multiset(w.stack) + if w.activity.Hand? || w.activity.Handing? then multiset{w.activity.block} else multiset{}
  {
  }

  lemma HandingShuffles(h: Heap, lens: Lens, s: State, i: nat, ask: bool)
    requires i < |s.workers| && s.workers[i].activity.Handing? && i in s.active
    ensures Work(WorkerStep(h, lens, s, i, ask)) == Work(s)
  {
    hide Total, Load, Kept;
    var w := s.workers[i];
    var next, share, b := w.activity.next, w.activity.share, w.activity.block;
    if next < |s.workers| && next !in s.active {
      var kept := Kept(w.stack, share);
      var w', given := w.(stack := w.stack[..kept], activity := Handing(b, next + 1, share)), w.stack[kept..];
      KeptLoad(w, kept, w');
      LessLoad(s.workers, i, w', multiset(given));
      EnlistConserves(SetWorker(s, i, w'), next, given, true);
    } else {
      var w' := w.(activity := if next < |s.workers| then Handing(b, next + 1, share) else Hand(b, 0));
      SameStackLoad(w, w');
      SameLoad(s.workers, i, w');
    }
  }

  lemma KeptLoad(w: Worker, kept: nat, w': Worker)
    requires kept <= |w.stack| && w'.stack == w.stack[..kept] && InHand(w'.activity) == InHand(w.activity)
    ensures Load(w') + multiset(w.stack[kept..]) == Load(w)
  {
    hide InHand;
    StackSplits(w.stack, kept);
    Swap(multiset(w'.stack), InHand(w.activity), multiset(w.stack[kept..]));
  }

  lemma ScanWork(h: Heap, lens: Lens, s: State, i: nat, b: Block, pos: nat)
    requires i < |s.workers| && b in h.mem && pos < |h.mem[b]| && s.workers[i].activity == Hand(b, pos)
    ensures var won := Named(h, lens, b, pos) - s.marks;
            && ScanStep(h, lens, s, i, b, pos).marks == s.marks + won
            && Work(ScanStep(h, lens, s, i, b, pos)) == Work(s) + multiset(set c | c in won && h.Traced(c))
  {
    hide Total;
    var w, won := s.workers[i], Named(h, lens, b, pos) - s.marks;
    var w' := ScanStep(h, lens, s, i, b, pos).workers[i];
    var more := multiset(set c | c in won && h.Traced(c));
    assert Load(w') == Load(w) + more;
    TotalUpdate(s.workers, i, w');
    MoreLoad(Total(s.workers), Total(s.workers[i := w']), Load(w), more);
  }

  lemma FinishWork(h: Heap, lens: Lens, s: State, i: nat, b: Block, pos: nat)
    requires i < |s.workers| && s.workers[i].activity == Hand(b, pos)
    ensures Work(SetWorker(s, i, s.workers[i].(activity := Scan))) + multiset{b} == Work(s)
  {
    hide Total;
    LessLoad(s.workers, i, s.workers[i].(activity := Scan), multiset{b});
  }

  // ---------------------------------------------------------------- every step keeps it: the marks

  lemma WonWorkOk(h: Heap, lens: Lens, marks: set<Block>, work: multiset<Block>, won: set<Block>)
    requires WorkOk(h, lens, marks, work) && won !! marks && won <= h.mem.Keys
    ensures WorkOk(h, lens, marks + won, work + multiset(set c | c in won && h.Traced(c)))
  {
    var more := set c | c in won && h.Traced(c);
    forall b ensures (work + multiset(more))[b] <= 1 {
      assert b in won ==> b !in work;
    }
  }

  lemma FinishedWorkOk(h: Heap, lens: Lens, marks: set<Block>, work: multiset<Block>, work': multiset<Block>, b: Block)
    requires WorkOk(h, lens, marks, work) && work' + multiset{b} == work && b in h.mem && Scanned(h, lens, b, |h.mem[b]|, marks)
    ensures WorkOk(h, lens, marks, work')
  {
    forall c ensures work'[c] <= work[c] && (c != b ==> work'[c] == work[c]) {
      assert work[c] == (work' + multiset{b})[c];
    }
  }

  lemma WonReachable(h: Heap, lens: Lens, marks: set<Block>, b: Block, pos: nat)
    requires MarksOk(h, lens, marks) && b in marks && b in h.mem && h.Traced(b) && pos < |h.mem[b]|
    ensures MarksOk(h, lens, marks + Named(h, lens, b, pos))
  {
    var g := Seen(h, lens);
    forall c | c in Named(h, lens, b, pos) ensures Reachable(g, c) {
      assert NamesAt(h, b, pos, c);
      assert (b, c) in g.edges;
      EdgeReachable(g, b, c);
    }
  }

  // ---------------------------------------------------------------- whole runs

  lemma MainKeeps(h: Heap, lens: Lens, s: State)
    requires Inv(h, lens, s)
    ensures Inv(h, lens, MainStep(s))
  {
    hide Accounts, MainOk, WorkOk, Work, MarksOk, HandsOk;
    MainControl(s);
    MainWork(s);
    MainHands(h, lens, s);
  }

  lemma MainHands(h: Heap, lens: Lens, s: State)
    requires HandsOk(h, lens, s)
    ensures HandsOk(h, lens, MainStep(s))
  {
    hide Scanned;
    assert forall i: nat :: i < |s.workers| ==> MainStep(s).workers[i].activity == s.workers[i].activity;
  }

  lemma HeldIsMarked(h: Heap, lens: Lens, s: State, i: nat)
    requires WorkOk(h, lens, s.marks, Work(s)) && i < |s.workers|
    requires s.workers[i].activity.Hand? || s.workers[i].activity.Handing?
    ensures var b := s.workers[i].activity.block; b in s.marks && b in h.mem && h.Traced(b)
  {
    LoadCounts(s.workers, i);
    assert s.workers[i].activity.block in Load(s.workers[i]);
    assert s.workers[i].activity.block in Work(s);
  }

  lemma ScanKeeps(h: Heap, lens: Lens, s: State, i: nat, ask: bool)
    requires Inv(h, lens, s) && i < |s.workers| && !Shuffles(h, lens, s, i, ask)
    ensures Inv(h, lens, WorkerStep(h, lens, s, i, ask))
  {
    hide Accounts, MainOk, MarksOk, WorkOk, Work, Scanned;
    var b, pos := s.workers[i].activity.block, s.workers[i].activity.pos;
    var s' := WorkerStep(h, lens, s, i, ask);
    WorkerControl(h, lens, s, i, ask);
    HeldIsMarked(h, lens, s, i);
    if pos < |h.mem[b]| {
      var named := Named(h, lens, b, pos);
      ScanWork(h, lens, s, i, b, pos);
      WonWorkOk(h, lens, s.marks, Work(s), named - s.marks);
      WonReachable(h, lens, s.marks, b, pos);
      assert s.marks + (named - s.marks) == s.marks + named;
      ScanHands(h, lens, s, i, b, pos);
    } else {
      FinishWork(h, lens, s, i, b, pos);
      AllScanned(h, lens, b, pos, s.marks);
      FinishedWorkOk(h, lens, s.marks, Work(s), Work(s'), b);
    }
  }

  lemma AllScanned(h: Heap, lens: Lens, b: Block, pos: nat, marks: set<Block>)
    requires Scanned(h, lens, b, pos, marks) && pos >= |h.mem[b]|
    ensures Scanned(h, lens, b, |h.mem[b]|, marks)
  {
  }

  lemma ScanHands(h: Heap, lens: Lens, s: State, i: nat, b: Block, pos: nat)
    requires HandsOk(h, lens, s) && i < |s.workers| && b in h.mem && pos < |h.mem[b]| && s.workers[i].activity == Hand(b, pos)
    ensures HandsOk(h, lens, ScanStep(h, lens, s, i, b, pos))
  {
    hide Named;
    assert Scanned(h, lens, b, pos, s.marks);
    assert forall c, k :: Scanned(h, lens, c, k, s.marks) ==> Scanned(h, lens, c, k, ScanStep(h, lens, s, i, b, pos).marks);
  }

  lemma ShuffleKeeps(h: Heap, lens: Lens, s: State, i: nat, ask: bool)
    requires Inv(h, lens, s) && i < |s.workers| && Shuffles(h, lens, s, i, ask)
    ensures Inv(h, lens, WorkerStep(h, lens, s, i, ask))
  {
    hide MainOk, MarksOk, Work, WorkOk;
    assert WorkerOk(s, i);
    WorkerControl(h, lens, s, i, ask);
    WorkerShuffles(h, lens, s, i, ask);
    ShuffleHands(h, lens, s, i, ask);
  }

  lemma ShuffleHands(h: Heap, lens: Lens, s: State, i: nat, ask: bool)
    requires Inv(h, lens, s) && i < |s.workers| && Shuffles(h, lens, s, i, ask)
    ensures HandsOk(h, lens, WorkerStep(h, lens, s, i, ask))
  {
    hide MainOk, MarksOk, WorkOk, Work, Accounts;
    var s' := WorkerStep(h, lens, s, i, ask);
    if s.workers[i].activity.Handing? {
      HeldIsMarked(h, lens, s, i);
    }
    if s'.workers[i].activity.Hand? {
      ShuffleInv(h, lens, s, i, ask);
      HeldIsMarked(h, lens, s', i);
    }
  }

  lemma ShuffleInv(h: Heap, lens: Lens, s: State, i: nat, ask: bool)
    requires Inv(h, lens, s) && i < |s.workers| && Shuffles(h, lens, s, i, ask)
    ensures WorkOk(h, lens, WorkerStep(h, lens, s, i, ask).marks, Work(WorkerStep(h, lens, s, i, ask)))
  {
    hide MainOk, MarksOk, WorkOk, Work;
    assert WorkerOk(s, i);
    WorkerShuffles(h, lens, s, i, ask);
  }

  lemma StepKeeps(h: Heap, lens: Lens, s: State, c: Choice)
    requires Inv(h, lens, s)
    ensures Inv(h, lens, Step(h, lens, s, c))
  {
    hide Inv, Shuffles;
    match c
    case Collector => MainKeeps(h, lens, s);
    case Turn(i, ask) =>
      if i < |s.workers| {
        if Shuffles(h, lens, s, i, ask) {
          ShuffleKeeps(h, lens, s, i, ask);
        } else {
          ScanKeeps(h, lens, s, i, ask);
        }
      }
  }

  lemma {:induction false} RunKeeps(h: Heap, lens: Lens, s: State, schedule: seq<Choice>)
    requires Inv(h, lens, s)
    ensures Inv(h, lens, Run(h, lens, s, schedule))
  {
    hide Inv, Step;
    if schedule != [] {
      RunKeeps(h, lens, s, schedule[..|schedule| - 1]);
      StepKeeps(h, lens, Run(h, lens, s, schedule[..|schedule| - 1]), schedule[|schedule| - 1]);
    }
  }

  /** gc_mark has marked the blocks the roots name, and stacked those that may hold pointers. */
  ghost predicate Seeded(h: Heap, lens: Lens, s: State) {
    && |s.workers| > 0 && s.main.Start? && s.lock == Free && s.active == {} && s.pending == 0 && !s.failed
    && (forall w <- s.workers :: w == Worker([], 0, Idle))
    && (forall b :: b in s.marks <==> RootSeen(h, lens, b))
    && (forall b :: multiset(s.global)[b] <= 1 && (b in s.global <==> b in s.marks && h.Traced(b)))
  }

  lemma SeededInv(h: Heap, lens: Lens, s: State)
    requires Seeded(h, lens, s)
    ensures Inv(h, lens, s)
  {
    hide WorkOk;
    SeededWork(h, lens, s);
    forall b | RootSeen(h, lens, b) ensures Reachable(Seen(h, lens), b) {
      RootReachable(Seen(h, lens), b);
    }
    forall i: nat | i < |s.workers| ensures WorkerOk(s, i) && s.workers[i].activity.Idle? {
      assert s.workers[i] in s.workers;
    }
  }

  lemma SeededWork(h: Heap, lens: Lens, s: State)
    requires Seeded(h, lens, s)
    ensures WorkOk(h, lens, s.marks, Work(s))
  {
    NothingCounts(s.workers);
    assert Work(s) == multiset(s.global);
  }

  /** When the collector sees no pending worker, the marks are exactly the reachable blocks. */
  lemma NonePendingExact(h: Heap, lens: Lens, s: State)
    requires Inv(h, lens, s) && (s.main.Waiting? || s.main.Checked?) && s.pending == 0
    ensures forall b :: b in s.marks <==> Reachable(Seen(h, lens), b)
  {
    NonePending(s);
    NothingCounts(s.workers);
    assert Work(s) == multiset{};
    MarksClosed(h, lens, s.marks);
    forall b | Reachable(Seen(h, lens), b) ensures b in s.marks {
      ReachableInClosed(Seen(h, lens), (iset c | c in s.marks), b);
    }
  }

  lemma MarksClosed(h: Heap, lens: Lens, marks: set<Block>)
    requires WorkOk(h, lens, marks, multiset{}) && MarksOk(h, lens, marks)
    ensures Closed(Seen(h, lens), (iset c | c in marks))
  {
    forall e | e in Seen(h, lens).edges && e.0 in marks ensures e.1 in marks {
      var i: nat :| NamesAt(h, e.0, i, e.1) && lens.Reads(e.0, i);
      assert Scanned(h, lens, e.0, |h.mem[e.0]|, marks);
      assert e.1 in Named(h, lens, e.0, i);
    }
  }

  /** Under every schedule no fatal assert is met, no work is lost, and marking ends with exactly the blocks its types let it reach. */
  lemma MarkingIsExact(h: Heap, lens: Lens, s: State, schedule: seq<Choice>)
    requires Seeded(h, lens, s)
    ensures var t := Run(h, lens, s, schedule);
            && !t.failed && t.pending == |t.active|
            && (t.main.Checked? ==>
                  && (forall b :: b in t.marks <==> Reachable(Seen(h, lens), b))
                  && t.global == [] && t.active == {} && forall w <- t.workers :: w.stack == [])
  {
    SeededInv(h, lens, s);
    RunKeeps(h, lens, s, schedule);
    var t := Run(h, lens, s, schedule);
    if t.main.Checked? {
      CheckedExact(h, lens, t);
    }
  }

  /** With types that cover what the program holds, nothing the program can reach is left unmarked. */
  lemma MarkingCoversProgram(h: Heap, lens: Lens, s: State, schedule: seq<Choice>)
    requires Seeded(h, lens, s) && h.WellFormed() && NoDangling(h) && SeesHeld(h, lens)
    ensures var t := Run(h, lens, s, schedule); t.main.Checked? ==> forall b :: Reachable(Strong(h), b) ==> b in t.marks
  {
    hide Reachable, Run, Seeded, SeesHeld, NoDangling;
    MarkingIsExact(h, lens, s, schedule);
    forall b | Reachable(Strong(h), b) ensures Reachable(Seen(h, lens), b) {
      StrongIsSeen(h, lens, b);
    }
  }

  lemma CheckedExact(h: Heap, lens: Lens, t: State)
    requires Inv(h, lens, t) && t.main.Checked?
    ensures forall b :: b in t.marks <==> Reachable(Seen(h, lens), b)
    ensures t.global == [] && t.active == {} && forall w <- t.workers :: w.stack == []
  {
    NonePending(t);
    assert forall i: nat :: i < |t.workers| ==> WorkerOk(t, i);
    NonePendingExact(h, lens, t);
  }

  // ---------------------------------------------------------------- the roots are shared out evenly

  /** The roots divided by the workers, rounded up. */
  function Fair(roots: nat, workers: nat): (n: nat)
    requires workers > 0
  {
    (roots + workers - 1) / workers
  }

  /** Until the workers are woken each has at most the fair share, and exactly that while roots are left. */
  ghost predicate SharedOut(s: State, share: nat) {
    && |s.workers| > 0
    && (s.main.Start? ==> share == Fair(|s.global|, |s.workers|) && forall i: nat :: i < |s.workers| ==> s.workers[i].stack == [])
    && (s.main.Splitting? ==> s.main.share == share)
    && (s.main.Splitting? || (s.main.Releasing? && s.main.next == 0) ==>
          forall i: nat :: i < |s.workers| ==>
            |s.workers[i].stack| <= share && (s.main.Splitting? && i < s.main.next && s.global != [] ==> |s.workers[i].stack| == share))
  }

  lemma MainShares(s: State, share: nat)
    requires Accounts(s) && MainOk(s) && SharedOut(s, share)
    ensures SharedOut(MainStep(s), share)
  {
    hide WorkerOk;
    if s.main.Splitting? && s.main.next < |s.workers| {
      SplitFresh(s);
    }
  }

  /** No worker runs before it is woken. */
  lemma WorkerShares(h: Heap, lens: Lens, s: State, i: nat, ask: bool, share: nat)
    requires Accounts(s) && MainOk(s) && SharedOut(s, share) && i < |s.workers|
    ensures SharedOut(WorkerStep(h, lens, s, i, ask), share)
  {
    hide ScanStep, Enlist, Kept;
    assert WorkerOk(s, i);
    WorkerControl(h, lens, s, i, ask);
    if s.main.Start? || s.main.Splitting? || (s.main.Releasing? && s.main.next == 0) {
      assert WorkerStep(h, lens, s, i, ask) == s;
    } else {
      MainStays(h, lens, s, i, ask);
    }
  }

  lemma MainStays(h: Heap, lens: Lens, s: State, i: nat, ask: bool)
    requires i < |s.workers|
    ensures WorkerStep(h, lens, s, i, ask).main == s.main && |WorkerStep(h, lens, s, i, ask).workers| == |s.workers|
  {
  }

  lemma {:induction false} SharedOutRun(h: Heap, lens: Lens, s: State, schedule: seq<Choice>, share: nat)
    requires Inv(h, lens, s) && SharedOut(s, share)
    ensures SharedOut(Run(h, lens, s, schedule), share)
  {
    hide Accounts, MainOk, WorkOk, HandsOk, MarksOk, SharedOut, MainStep, WorkerStep;
    if schedule != [] {
      var before, c := Run(h, lens, s, schedule[..|schedule| - 1]), schedule[|schedule| - 1];
      SharedOutRun(h, lens, s, schedule[..|schedule| - 1], share);
      RunKeeps(h, lens, s, schedule[..|schedule| - 1]);
      if c.Collector? {
        MainShares(before, share);
      } else if c.i < |before.workers| {
        WorkerShares(h, lens, before, c.i, c.ask, share);
      }
    }
  }

  /** When the workers are about to be woken, none has more than its fair share of the roots. */
  lemma RootsAreShared(h: Heap, lens: Lens, s: State, schedule: seq<Choice>)
    requires Seeded(h, lens, s)
    ensures var t := Run(h, lens, s, schedule);
            t.main == Releasing(0) ==> forall w <- t.workers :: |w.stack| <= Fair(|s.global|, |s.workers|)
  {
    hide Inv, Run, Fair, RootSeen;
    SeededInv(h, lens, s);
    assert forall i: nat :: i < |s.workers| ==> s.workers[i] in s.workers;
    SharedOutRun(h, lens, s, schedule, Fair(|s.global|, |s.workers|));
  }

  // ---------------------------------------------------------------- marking can always be finished

  function MainLeft(m: Main, n: nat): (r: nat) {
    match m
    case Start => 2 * n + 5
    case Splitting(next, _, _) => 3 + n + if next < n then n - next else 0
    case Releasing(next) => 2 + if next < n then n - next else 0
    case Waiting => 1
    case Checked => 0
  }

  /** The rest of the hand-off that holds the lock. */
  function HandoffLeft(s: State): (r: nat) {
    if s.lock.ByWorker? && s.lock.i < |s.workers| && s.workers[s.lock.i].activity.Handing? then
      1 + if s.workers[s.lock.i].activity.next < |s.workers| then |s.workers| - s.workers[s.lock.i].activity.next else 0
    else 0
  }

  function Words(h: Heap, b: Block): (n: nat) {
    if b in h.mem then |h.mem[b]| else 0
  }

  function StackLeft(h: Heap, stack: seq<Block>): (r: nat) {
    if stack == [] then 0 else StackLeft(h, stack[..|stack| - 1]) + Words(h, stack[|stack| - 1]) + 2
  }

  function ActivityLeft(h: Heap, a: Activity): (r: nat) {
    match a
    case Idle => 0
    case Leaving => 1
    case Scan => 2
    case Hand(b, pos) => 3 + if pos < Words(h, b) then Words(h, b) - pos else 0
    case Handing(b, _, _) => 3 + Words(h, b)
  }

  /** The steps of its own a worker has left while no block is newly marked. */
  function WorkerLeft(h: Heap, w: Worker): (r: nat) {
    StackLeft(h, w.stack) + 3 * w.ready + ActivityLeft(h, w.activity)
  }

  function WorkersLeft(h: Heap, ws: seq<Worker>): (r: nat) {
    if ws == [] then 0 else WorkersLeft(h, ws[..|ws| - 1]) + WorkerLeft(h, ws[|ws| - 1])
  }

  function Unmarked(h: Heap, s: State): (r: nat) {
    |h.mem.Keys - s.marks|
  }

  /** Closer to the end: fewer blocks to mark, else less for the collector, else for the hand-off, else for the workers. */
  predicate Closer(h: Heap, s': State, s: State) {
    var n', n, main', main := Unmarked(h, s'), Unmarked(h, s), MainLeft(s'.main, |s'.workers|), MainLeft(s.main, |s.workers|);
    n' < n || (n' == n && (main' < main || (main' == main &&
      (HandoffLeft(s') < HandoffLeft(s) || (HandoffLeft(s') == HandoffLeft(s) && WorkersLeft(h, s'.workers) < WorkersLeft(h, s.workers))))))
  }

  lemma {:induction false} LeftUpdate(h: Heap, ws: seq<Worker>, i: nat, w: Worker)
    requires i < |ws|
    ensures WorkersLeft(h, ws[i := w]) + WorkerLeft(h, ws[i]) == WorkersLeft(h, ws) + WorkerLeft(h, w)
    decreases |ws|
  {
    hide WorkerLeft;
    var init, last, ws' := ws[..|ws| - 1], |ws| - 1, ws[i := w];
    if i == last {
      assert ws'[..last] == init;
    } else {
      LeftUpdate(h, init, i, w);
      assert ws'[..last] == init[i := w];
    }
  }

  lemma WorkerCloser(h: Heap, s: State, s': State, i: nat, w: Worker)
    requires i < |s.workers| && s'.workers == s.workers[i := w] && s'.marks == s.marks && s'.main == s.main
    requires s.lock == Free && s'.lock == Free && WorkerLeft(h, w) < WorkerLeft(h, s.workers[i])
    ensures Closer(h, s', s)
  {
    hide WorkersLeft, WorkerLeft;
    LeftUpdate(h, s.workers, i, w);
  }

  lemma ScanCloser(h: Heap, lens: Lens, s: State, i: nat)
    requires i < |s.workers| && s.workers[i].activity.Hand? && s.lock == Free
    ensures Closer(h, WorkerStep(h, lens, s, i, false), s)
  {
    hide Closer, ScanStep, StackLeft;
    var w := s.workers[i];
    var b, pos := w.activity.block, w.activity.pos;
    if b in h.mem && pos < |h.mem[b]| {
      WordCloser(h, lens, s, i, b, pos);
    } else {
      WorkerCloser(h, s, WorkerStep(h, lens, s, i, false), i, w.(activity := Scan));
    }
  }

  lemma WordCloser(h: Heap, lens: Lens, s: State, i: nat, b: Block, pos: nat)
    requires i < |s.workers| && s.workers[i].activity == Hand(b, pos) && s.lock == Free && b in h.mem && pos < |h.mem[b]|
    ensures Closer(h, ScanStep(h, lens, s, i, b, pos), s)
  {
    hide WorkersLeft, StackLeft, HandoffLeft, Named;
    var won, s' := Named(h, lens, b, pos) - s.marks, ScanStep(h, lens, s, i, b, pos);
    if won == {} {
      assert s.workers[i].stack + [] == s.workers[i].stack;
      WorkerCloser(h, s, s', i, s.workers[i].(activity := Hand(b, pos + 1)));
    } else {
      NamedInHeap(h, lens, b, pos);
      assert h.mem.Keys - s'.marks == (h.mem.Keys - s.marks) - won;
    }
  }

  lemma NamedInHeap(h: Heap, lens: Lens, b: Block, i: nat)
    requires b in h.mem && i < |h.mem[b]|
    ensures Named(h, lens, b, i) <= h.mem.Keys
  {
  }

  lemma TurnCloser(h: Heap, lens: Lens, s: State, i: nat)
    requires Accounts(s) && s.main.Waiting? && s.lock == Free && i in s.active && i < |s.workers| && !s.workers[i].activity.Hand?
    ensures Closer(h, WorkerStep(h, lens, s, i, false), s)
  {
    hide Closer, ScanStep, Enlist;
    assert WorkerOk(s, i);
    var s' := WorkerStep(h, lens, s, i, false);
    WorkerCloser(h, s, s', i, s'.workers[i]);
  }

  lemma HandoffCloser(h: Heap, lens: Lens, s: State, i: nat)
    requires Accounts(s) && i < |s.workers| && s.lock == ByWorker(i)
    ensures Closer(h, WorkerStep(h, lens, s, i, false), s)
  {
    hide WorkersLeft, WorkerStep, HandoffLeft;
    assert WorkerOk(s, i);
    HandoffMoves(h, lens, s, i);
  }

  /** The hand-off comes to its next worker, or gives up the lock. */
  lemma HandoffMoves(h: Heap, lens: Lens, s: State, i: nat)
    requires i < |s.workers| && s.lock == ByWorker(i) && s.workers[i].activity.Handing?
    ensures var s' := WorkerStep(h, lens, s, i, false);
            && s'.marks == s.marks && s'.main == s.main && |s'.workers| == |s.workers| && HandoffLeft(s') < HandoffLeft(s)
  {
    hide ScanStep, Kept;
  }

  lemma MainCloser(h: Heap, s: State)
    requires Accounts(s) && MainOk(s) && !s.main.Checked? && !s.lock.ByWorker? && (s.main.Waiting? ==> s.pending == 0)
    ensures Closer(h, MainStep(s), s)
  {
    hide WorkersLeft, HandoffLeft, MainStep, Accounts, MainOk;
    MainMoves(s);
  }

  lemma MainMoves(s: State)
    requires Accounts(s) && MainOk(s) && !s.main.Checked? && !s.lock.ByWorker? && (s.main.Waiting? ==> s.pending == 0)
    ensures MainStep(s).marks == s.marks && MainLeft(MainStep(s).main, |MainStep(s).workers|) < MainLeft(s.main, |s.workers|)
  {
    hide Accounts, Idles, Kept;
  }

  /** As long as marking is not over, some thread can take a step that brings it closer to its end. */
  lemma SomeoneCanStep(h: Heap, lens: Lens, s: State) returns (c: Choice)
    requires Inv(h, lens, s) && !s.main.Checked?
    ensures Closer(h, Step(h, lens, s, c), s)
  {
    hide WorkerStep, MainStep, Closer;
    if s.lock.ByWorker? {
      c := Turn(s.lock.i, false);
      HandoffCloser(h, lens, s, s.lock.i);
    } else if !s.main.Waiting? || s.pending == 0 {
      c := Collector;
      MainCloser(h, s);
    } else {
      var i: nat :| i in s.active;
      c := Turn(i, false);
      if s.workers[i].activity.Hand? {
        ScanCloser(h, lens, s, i);
      } else {
        TurnCloser(h, lens, s, i);
      }
    }
  }

  lemma {:induction false} RunFrom(h: Heap, lens: Lens, s: State, c: Choice, rest: seq<Choice>)
    ensures Run(h, lens, s, [c] + rest) == Run(h, lens, Step(h, lens, s, c), rest)
    decreases |rest|
  {
    hide Step;
    if rest == [] {
      assert Run(h, lens, s, []) == s;
      assert ([c] + rest)[..0] == [];
    } else {
      RunFrom(h, lens, s, c, rest[..|rest| - 1]);
      assert ([c] + rest)[..|rest|] == [c] + rest[..|rest| - 1];
    }
  }

  /** Whatever was scheduled so far, marking can be finished. */
  lemma {:induction false} CanFinish(h: Heap, lens: Lens, s: State) returns (rest: seq<Choice>)
    requires Inv(h, lens, s)
    ensures Run(h, lens, s, rest).main.Checked?
    decreases Unmarked(h, s), MainLeft(s.main, |s.workers|), HandoffLeft(s), WorkersLeft(h, s.workers)
  {
    hide Inv, Step;
    rest := [];
    if !s.main.Checked? {
      var c := SomeoneCanStep(h, lens, s);
      StepKeeps(h, lens, s, c);
      rest := CanFinish(h, lens, Step(h, lens, s, c));
      RunFrom(h, lens, s, c, rest);
      rest := [c] + rest;
    }
  }
}
