/**
 Stopping the world: the global lock with its uncontended and contended paths, blocking sections, safepoints, thread
 registration, collections, and exclusive sections with collections nested in them.

 Every access to a shared variable (the lock, a blocking counter, the stop flag) is a step of its own, and threads
 interleave in any order.
 */
module StopWorld {

  /** What a thread does once it holds the lock: return to its caller, or give it back at once (a parked thread). */
  datatype After = Return | Drop

  datatype Pc =
    | Run                     // the program's own code
    | Try(after: After)       // gc_global_lock(true), before hl_mutex_try_acquire
    | Got(after: After)       // the lock was free: about to count itself as blocking
    | Saved(after: After)     // the lock was taken: about to count itself as blocking
    | Parked(after: After)    // waiting in hl_mutex_acquire
    | Dropping                // gc_global_lock(false), about to stop counting itself as blocking
    | Releasing               // about to release the mutex
    | Woken                   // hl_blocking(false) left the last section: about to read the stop flag
    | Stopping(excl: bool)    // gc_stop_world(true), about to set the stop flag
    | Spin(next: nat, excl: bool)
    | Collecting
    | Resuming(excl: bool)    // gc_stop_world(false)
    | Gone

  /** `blocking` is the counter others see; `locks` and `sections` are the calls the thread has open. */
  datatype Thread = Thread(id: nat, pc: Pc, blocking: nat, locks: nat, sections: nat)

  /**
   What the threads share. `owner` holds the global lock, or is -1; `list` are the registered threads; `stopped` records
   that a stop has completed and no resume has followed.
   */
  datatype Shared = Shared(list: seq<nat>, owner: int, stopping: bool, depth: nat, heap: int, stopped: bool)

  datatype State = State(threads: seq<Thread>, g: Shared)

  /** What a step makes of the thread and of what is shared. */
  datatype Outcome = Outcome(th: Thread, g: Shared)

  /** What the program may ask for next. */
  datatype Op = Touch(heap: int) | Lock | TryLock | Unlock | Block | Unblock | Safepoint
              | Collect | Finish | BeginExclusive | EndExclusive | Register | Unregister

  /** A registered thread may use the heap when it counts as running, or holds the global lock. */
  predicate MayTouch(th: Thread, g: Shared) {
    th.pc.Collecting? || (th.pc.Run? && th.id in g.list && (th.blocking == 0 || g.owner == th.id))
  }

  // ---------------------------------------------------------------- the steps

  function Remove(list: seq<nat>, t: nat): (r: seq<nat>)
    ensures forall x <- r :: x in list && x != t
  {
    if list == [] then [] else (if list[0] == t then [] else [list[0]]) + Remove(list[1..], t)
  }

  /** One call of the program, up to its first access to shared memory. Calls the source forbids change nothing. */
  function Call(th: Thread, g: Shared, op: Op): Outcome {
    match op
    case Touch(heap) => Outcome(th, if MayTouch(th, g) then g.(heap := heap) else g)
    case Lock => Outcome(th.(pc := Try(Return)), g)
    case TryLock =>
      if g.owner == -1 || g.owner == th.id then Outcome(th.(pc := Got(Return), locks := th.locks + 1), g.(owner := th.id)) else Outcome(th, g)
    case Unlock => if g.owner == th.id && th.locks > g.depth then Outcome(th.(pc := Dropping), g) else Outcome(th, g)
    case Block => Outcome(th.(blocking := th.blocking + 1, sections := th.sections + 1), g)
    case Unblock =>
      if th.sections == 0 || th.blocking == 0 then Outcome(th, g)
      else Outcome(Thread(th.id, if th.blocking == 1 then Woken else Run, th.blocking - 1, th.locks, th.sections - 1), g)
    case Safepoint => if th.blocking == 0 && g.stopping then Outcome(th.(pc := Try(Drop)), g) else Outcome(th, g)
    case Collect => if g.owner == th.id then Outcome(th.(pc := Stopping(false)), g) else Outcome(th, g)
    case Finish => Outcome(th, g)
    case BeginExclusive => if g.owner == th.id && th.locks > g.depth then Outcome(th.(pc := Stopping(true)), g) else Outcome(th, g)
    case EndExclusive =>
      if g.owner == th.id && g.depth > 0 then Outcome(th.(pc := Resuming(true)), g.(depth := g.depth - 1)) else Outcome(th, g)
    case Register => Outcome(th, if g.owner == th.id && th.id !in g.list then g.(list := g.list + [th.id]) else g)
    case Unregister =>
      if g.owner == th.id && th.locks == 1 && g.depth == 0 then
        Outcome(th.(pc := Gone, locks := 0), g.(list := Remove(g.list, th.id), owner := -1))
      else Outcome(th, g)
  }

  /**
   The next step of a thread: what becomes of it and of what is shared. `seen` is what its spin loop reads, whether the
   thread it looks at counts as blocking. A thread that waits, for the lock or in its spin loop, changes nothing.
   */
  function Act(th: Thread, g: Shared, seen: bool, op: Op): Outcome {
    match th.pc
    case Run => Call(th, g, op)
    case Try(after) =>
      if g.owner == -1 || g.owner == th.id then Outcome(th.(pc := Got(after), locks := th.locks + 1), g.(owner := th.id))
      else Outcome(th.(pc := Saved(after)), g)
    case Got(after) => Outcome(th.(blocking := th.blocking + 1, pc := if after.Drop? then Dropping else Run), g)
    case Saved(after) => Outcome(th.(blocking := th.blocking + 1, pc := Parked(after)), g)
    case Parked(after) =>
      if g.owner == -1 then Outcome(th.(pc := if after.Drop? then Dropping else Run, locks := th.locks + 1), g.(owner := th.id))
      else Outcome(th, g)
    case Dropping => Outcome(if th.blocking > 0 then th.(pc := Releasing, blocking := th.blocking - 1) else th, g)
    case Releasing =>
      if th.locks > 0 then
        Outcome(th.(pc := Run, locks := th.locks - 1), g.(owner := if th.locks == 1 then -1 else g.owner))
      else Outcome(th, g)
    case Woken => Outcome(th.(pc := if g.stopping then Try(Drop) else Run), g)
    case Stopping(excl) => Outcome(th.(pc := Spin(0, excl)), g.(stopping := true))
    case Spin(next, excl) =>
      if next < |g.list| then Outcome(if seen then th.(pc := Spin(next + 1, excl)) else th, g)
      else if excl then Outcome(th.(pc := Run), g.(depth := g.depth + 1, stopped := true))
      else Outcome(th.(pc := Collecting), g.(stopped := true))
    case Collecting =>
      if op.Touch? then Outcome(th, g.(heap := op.heap))
      else if op.Finish? then Outcome(th.(pc := Resuming(false)), g)
      else Outcome(th, g)
    case Resuming(excl) =>
      Outcome(th.(pc := if excl then Dropping else Run), if g.depth == 0 then g.(stopping := false, stopped := false) else g)
    case Gone => Outcome(th, g)
  }

  predicate Seen(s: State, t: nat)
    requires t < |s.threads|
  {
    var pc := s.threads[t].pc;
    pc.Spin? && pc.next < |s.g.list| && s.g.list[pc.next] < |s.threads| && s.threads[s.g.list[pc.next]].blocking > 0
  }

  function Step(s: State, t: nat, op: Op): State {
    if t < |s.threads| then
      var o := Act(s.threads[t], s.g, Seen(s, t), op);
      State(s.threads[t := o.th], o.g)
    else s
  }

  // ---------------------------------------------------------------- the invariant

  /** The counter others see, by what the thread has open and where it is. */
  ghost predicate Counted(th: Thread) {
    && (th.pc.Got? || th.pc.Releasing? ==> th.locks > 0 && th.blocking == th.locks - 1 + th.sections)
    && (th.pc.Parked? ==> th.locks == 0 && th.blocking == 1 + th.sections)
    && (th.pc.Saved? ==> th.locks == 0)
    && (!(th.pc.Got? || th.pc.Releasing? || th.pc.Parked? || th.pc.Gone?) ==> th.blocking == th.locks + th.sections)
    && (th.pc.Woken? ==> th.blocking == 0)
    && ((th.pc.Try? || th.pc.Saved?) && th.pc.after.Drop? ==> th.blocking == 0)
    && (th.pc.Gone? ==> th.locks == 0)
  }

  predicate OwnersPc(pc: Pc) {
    pc.Got? || pc.Dropping? || pc.Releasing? || pc.Stopping? || pc.Spin? || pc.Collecting? || pc.Resuming?
  }

  /** A lock level belongs to the call in progress and not to an exclusive section. */
  predicate Spare(pc: Pc) {
    pc.Got? || pc.Dropping? || pc.Releasing? || ((pc.Stopping? || pc.Spin? || pc.Resuming?) && pc.excl)
  }

  ghost predicate ThreadOk(th: Thread, g: Shared) {
    && Counted(th)
    && (th.locks > 0 <==> g.owner == th.id)
    && (OwnersPc(th.pc) ==> g.owner == th.id)
    && (g.owner == th.id ==>
          && th.locks >= g.depth + (if Spare(th.pc) then 1 else 0)
          && (g.stopping <==> g.depth > 0 || th.pc.Spin? || th.pc.Collecting? || th.pc.Resuming?)
          && (th.pc.Collecting? || th.pc.Resuming? ==> g.stopped))
  }

  ghost predicate SharedOk(g: Shared) {
    && g.owner >= -1 && (g.owner == -1 ==> g.depth == 0 && !g.stopping)
    && (g.depth > 0 ==> g.stopped) && (g.stopped ==> g.stopping)
  }

  /** Counts as blocking, or is on its way to park and will touch nothing before. */
  ghost predicate Halted(th: Thread) {
    th.blocking > 0 || th.pc.Woken? || ((th.pc.Try? || th.pc.Saved?) && th.pc.after.Drop?)
  }

  ghost predicate HaltedAt(s: State, k: nat)
    requires k < |s.g.list|
  {
    s.g.list[k] < |s.threads| && (s.g.list[k] == s.g.owner || Halted(s.threads[s.g.list[k]]))
  }

  /** All listed threads are halted once the stop is complete, and the first ones while the owner looks at them. */
  ghost predicate HaltOk(s: State) {
    && (s.g.stopped ==> forall k: nat :: k < |s.g.list| ==> HaltedAt(s, k))
    && (0 <= s.g.owner < |s.threads| && s.threads[s.g.owner].pc.Spin? ==>
          forall k: nat :: k < |s.g.list| && k < s.threads[s.g.owner].pc.next ==> HaltedAt(s, k))
  }

  ghost predicate Inv(s: State) {
    && (forall t: nat :: t < |s.threads| ==> s.threads[t].id == t && ThreadOk(s.threads[t], s.g))
    && (forall t <- s.g.list :: t < |s.threads| && !s.threads[t].pc.Gone?)
    && s.g.owner < |s.threads| && SharedOk(s.g) && HaltOk(s)
  }

  // ---------------------------------------------------------------- every step keeps it

  lemma SelfKeeps(th: Thread, g: Shared, seen: bool, op: Op)
    requires ThreadOk(th, g) && SharedOk(g)
    ensures var o := Act(th, g, seen, op); ThreadOk(o.th, o.g) && SharedOk(o.g)
  {
    hide Call;
    match th.pc
    case Run => CallKeeps(th, g, op);
    case Stopping(_) => StopKeeps(th, g, seen, op);
    case Spin(_, _) => StopKeeps(th, g, seen, op);
    case Collecting => StopKeeps(th, g, seen, op);
    case Resuming(_) => StopKeeps(th, g, seen, op);
    case _ => LockingKeeps(th, g, seen, op);
  }

  lemma StopKeeps(th: Thread, g: Shared, seen: bool, op: Op)
    requires ThreadOk(th, g) && SharedOk(g) && (th.pc.Stopping? || th.pc.Spin? || th.pc.Collecting? || th.pc.Resuming?)
    ensures var o := Act(th, g, seen, op); ThreadOk(o.th, o.g) && SharedOk(o.g)
  {
    hide Call;
  }

  lemma LockingKeeps(th: Thread, g: Shared, seen: bool, op: Op)
    requires ThreadOk(th, g) && SharedOk(g) && !th.pc.Run?
    requires !(th.pc.Stopping? || th.pc.Spin? || th.pc.Collecting? || th.pc.Resuming?)
    ensures var o := Act(th, g, seen, op); ThreadOk(o.th, o.g) && SharedOk(o.g)
  {
  }

  lemma CallKeeps(th: Thread, g: Shared, op: Op)
    requires ThreadOk(th, g) && SharedOk(g) && th.pc.Run?
    ensures var o := Call(th, g, op); ThreadOk(o.th, o.g) && SharedOk(o.g)
  {
  }

  /** A thread that does not hold the lock only takes it when it is free, and changes nothing else but the heap. */
  lemma OthersKeep(th: Thread, g: Shared, seen: bool, op: Op, other: Thread)
    requires ThreadOk(th, g) && SharedOk(g) && other.id != th.id && ThreadOk(other, g)
    ensures ThreadOk(other, Act(th, g, seen, op).g)
  {
  }

  /** A halted thread that does not hold the lock stays halted, and touches nothing, as long as the stop flag is up. */
  lemma HaltedStays(th: Thread, g: Shared, seen: bool, op: Op)
    requires ThreadOk(th, g) && SharedOk(g) && g.owner != th.id && g.stopping
    ensures Act(th, g, seen, op).g == g || (Act(th, g, seen, op).g == g.(heap := op.heap) && MayTouch(th, g))
    ensures Halted(th) ==> Halted(Act(th, g, seen, op).th) && Act(th, g, seen, op).g == g
  {
  }

  lemma StepKeeps(s: State, t: nat, op: Op)
    requires Inv(s)
    ensures Inv(Step(s, t, op))
  {
    hide ThreadOk, SharedOk, HaltOk, Act;
    if t < |s.threads| {
      var s', seen := Step(s, t, op), Seen(s, t);
      SelfKeeps(s.threads[t], s.g, seen, op);
      forall u: nat | u < |s.threads| && u != t ensures ThreadOk(s.threads[u], s'.g) {
        OthersKeep(s.threads[t], s.g, seen, op, s.threads[u]);
      }
      ListStays(s.threads[t], s.g, seen, op);
      HaltKeeps(s, t, op);
    }
  }

  /** Only the owner of the lock changes the list, and only by entering or leaving it. */
  lemma ListStays(th: Thread, g: Shared, seen: bool, op: Op)
    ensures Act(th, g, seen, op).th.id == th.id
    ensures var g' := Act(th, g, seen, op).g;
            && (g'.owner == g.owner || g'.owner == th.id || g'.owner == -1) && (forall x <- g'.list :: x in g.list || x == th.id)
            && (g'.list == g.list || g.owner == th.id)
            && (Act(th, g, seen, op).th.pc.Gone? ==> th.pc.Gone? || th.id !in g'.list) && (th.pc.Gone? ==> g' == g)
  {
  }

  lemma HaltKeeps(s: State, t: nat, op: Op)
    requires Inv(s) && t < |s.threads|
    ensures HaltOk(Step(s, t, op))
  {
    hide Act, Halted;
    if s.g.owner == t {
      OwnerHalts(s, t, op);
    } else if s.g.stopping {
      HaltedStays(s.threads[t], s.g, Seen(s, t), op);
      BystanderHalts(s, t, op);
    } else {
      QuietStays(s.threads[t], s.g, Seen(s, t), op);
    }
  }

  /** Before any stop, a thread without the lock starts none. */
  lemma QuietStays(th: Thread, g: Shared, seen: bool, op: Op)
    requires ThreadOk(th, g) && SharedOk(g) && g.owner != th.id && !g.stopping
    ensures var Outcome(th', g') := Act(th, g, seen, op); !g'.stopped && !g'.stopping && !th'.pc.Spin?
  {
  }

  lemma BystanderHalts(s: State, t: nat, op: Op)
    requires Inv(s) && t < |s.threads| && s.g.owner != t && s.g.stopping
    ensures HaltOk(Step(s, t, op))
  {
    hide Act, Halted, ThreadOk;
    HaltedStays(s.threads[t], s.g, Seen(s, t), op);
    var s' := Step(s, t, op);
    forall k: nat | k < |s.g.list| && HaltedAt(s, k) ensures HaltedAt(s', k) {
    }
  }

  /** What the owner's steps do to the stop flags, the list and its own place in it. */
  lemma OwnerActs(th: Thread, g: Shared, seen: bool, op: Op)
    requires ThreadOk(th, g) && SharedOk(g) && g.owner == th.id
    ensures var Outcome(th', g') := Act(th, g, seen, op);
            && (g'.owner == th.id || (g'.owner == -1 && !g'.stopped))
            && (g'.stopped ==> g'.list == g.list || (g.stopped && g'.list == g.list + [th.id]))
            && (g'.stopped ==> g.stopped || (th.pc.Spin? && th.pc.next >= |g.list|))
            && (th'.pc.Spin? ==> g'.list == g.list && g'.owner == th.id)
            && (th'.pc.Spin? && th'.pc.next > 0 ==>
                  th.pc.Spin? && (th'.pc.next == th.pc.next || (seen && th'.pc.next == th.pc.next + 1)))
  {
  }

  lemma OwnerHalts(s: State, t: nat, op: Op)
    requires Inv(s) && t < |s.threads| && s.g.owner == t
    ensures HaltOk(Step(s, t, op))
  {
    hide Act, ThreadOk, SharedOk;
    OwnerActs(s.threads[t], s.g, Seen(s, t), op);
    var s' := Step(s, t, op);
    if s'.g.owner == t {
      forall k: nat | k < |s'.g.list| && (s'.g.stopped || (s'.threads[t].pc.Spin? && k < s'.threads[t].pc.next))
        ensures HaltedAt(s', k)
      {
        if k < |s.g.list| {
          assert s'.g.list[k] == s.g.list[k] && s.g.list[k] in s.g.list;
          assert HaltedAt(s, k) || Seen(s, t);
        }
      }
    }
  }

  // ---------------------------------------------------------------- whole runs

  /** A scheduling choice: who steps, and what its program asks for if it is running its own code. */
  datatype Choice = Choice(t: nat, op: Op)

  function Execute(s: State, schedule: seq<Choice>): State {
    if schedule == [] then s
    else
      var last := schedule[|schedule| - 1];
      Step(Execute(s, schedule[..|schedule| - 1]), last.t, last.op)
  }

  /** Any threads, some of them registered, all in their own code, and nothing held. */
  ghost predicate Initial(s: State) {
    && (forall t <- s.g.list :: t < |s.threads|)
    && (forall t: nat :: t < |s.threads| ==> s.threads[t] == Thread(t, Run, 0, 0, 0))
    && s.g.owner == -1 && s.g.depth == 0 && !s.g.stopping && !s.g.stopped
  }

  lemma {:induction false} RunKeeps(s: State, schedule: seq<Choice>)
    requires Inv(s)
    ensures Inv(Execute(s, schedule))
  {
    hide Inv, Step;
    if schedule != [] {
      RunKeeps(s, schedule[..|schedule| - 1]);
      var last := schedule[|schedule| - 1];
      StepKeeps(Execute(s, schedule[..|schedule| - 1]), last.t, last.op);
    }
  }

  /** In every reachable state of a stopped world no registered thread but the collecting one may touch the heap. */
  lemma StoppedWorldIsStill(s: State, schedule: seq<Choice>, t: nat)
    requires Initial(s)
    ensures var r := Execute(s, schedule);
            r.g.stopped && t < |r.threads| && t in r.g.list && t != r.g.owner ==> !MayTouch(r.threads[t], r.g)
  {
    forall u: nat | u < |s.threads| ensures ThreadOk(s.threads[u], s.g) {
      assert s.threads[u] in s.threads;
    }
    RunKeeps(s, schedule);
    StillNow(Execute(s, schedule), t);
  }

  lemma HaltedMayNot(th: Thread, g: Shared)
    requires ThreadOk(th, g) && Halted(th) && g.owner != th.id
    ensures !MayTouch(th, g)
  {
  }

  lemma StillNow(r: State, t: nat)
    requires Inv(r)
    ensures r.g.stopped && t < |r.threads| && t in r.g.list && t != r.g.owner ==> Halted(r.threads[t]) && !MayTouch(r.threads[t], r.g)
  {
    hide ThreadOk, Halted, MayTouch;
    if r.g.stopped && t < |r.threads| && t in r.g.list && t != r.g.owner {
      var k: nat :| k < |r.g.list| && r.g.list[k] == t;
      assert HaltedAt(r, k);
      HaltedMayNot(r.threads[t], r.g);
    }
  }

  /** However the other threads run on, a stopped world stays stopped, under the same owner, with the same heap. */
  lemma {:induction false} OthersLeaveTheHeapAlone(s: State, schedule: seq<Choice>)
    requires Inv(s) && s.g.stopped && forall c <- schedule :: c.t != s.g.owner
    ensures Execute(s, schedule).g == s.g
  {
    hide Inv, Step;
    if schedule != [] {
      var last := schedule[|schedule| - 1];
      assert last in schedule;
      OthersLeaveTheHeapAlone(s, schedule[..|schedule| - 1]);
      RunKeeps(s, schedule[..|schedule| - 1]);
      OneLeavesTheHeapAlone(Execute(s, schedule[..|schedule| - 1]), last.t, last.op);
    }
  }

  lemma OneLeavesTheHeapAlone(s: State, t: nat, op: Op)
    requires Inv(s) && s.g.stopped && t != s.g.owner
    ensures Step(s, t, op).g == s.g
  {
    hide Act;
    if t < |s.threads| {
      StillNow(s, t);
      HaltedStays(s.threads[t], s.g, Seen(s, t), op);
    }
  }

  // ---------------------------------------------------------------- a stop can be reached, and everyone gets on after it

  /** Nothing is held, and every thread is in its own code, or gone. */
  ghost predicate Settled(s: State) {
    s.g.owner == -1 && !s.g.stopping && forall t: nat :: t < |s.threads| ==> s.threads[t].pc.Run? || s.threads[t].pc.Gone?
  }

  const LEVEL: nat := 10
  const SECTION: nat := 5

  /** The steps until a thread has given up what it holds and is back in its own code, if it starts nothing new. */
  function ThreadLeft(th: Thread, listed: nat, stopping: bool): (n: nat) {
    LEVEL * th.locks +
      match th.pc
      case Run => if th.locks > 0 then 3 else if stopping && th.blocking == 0 then 17 else 0
      case Woken => 17
      case Try(_) => 16
      case Saved(_) => 15
      case Parked(_) => 14
      case Stopping(_) => 0
      case Spin(next, _) => 10 + if next < listed then listed - next else 0
      case Collecting => 5
      case Resuming(_) => 4
      case Got(_) => 4
      case Dropping => 2
      case Releasing => 1
      case Gone => 0
  }

  function ThreadsLeft(threads: seq<Thread>, listed: nat, stopping: bool): (n: nat) {
    if threads == [] then 0
    else ThreadsLeft(threads[..|threads| - 1], listed, stopping) + ThreadLeft(threads[|threads| - 1], listed, stopping)
  }

  function Left(s: State): (n: nat) {
    SECTION * s.g.depth + ThreadsLeft(s.threads, |s.g.list|, s.g.stopping)
  }

  /** Whether a stop is about to begin. */
  function Ahead(s: State): (n: nat) {
    if 0 <= s.g.owner < |s.threads| && s.threads[s.g.owner].pc.Stopping? then 1 else 0
  }

  lemma {:induction false} LeftUpdate(threads: seq<Thread>, t: nat, th: Thread, listed: nat, stopping: bool)
    requires t < |threads|
    ensures ThreadsLeft(threads[t := th], listed, stopping) + ThreadLeft(threads[t], listed, stopping)
         == ThreadsLeft(threads, listed, stopping) + ThreadLeft(th, listed, stopping)
    decreases |threads|
  {
    hide ThreadLeft;
    var init, last, threads' := threads[..|threads| - 1], |threads| - 1, threads[t := th];
    if t == last {
      assert threads'[..last] == init;
    } else {
      LeftUpdate(init, t, th, listed, stopping);
      assert threads'[..last] == init[t := th];
    }
  }

  /** Taking the stop flag down leaves nobody more to do. */
  lemma {:induction false} LessWhenDown(threads: seq<Thread>, listed: nat)
    ensures ThreadsLeft(threads, listed, false) <= ThreadsLeft(threads, listed, true)
    decreases |threads|
  {
    if threads != [] {
      LessWhenDown(threads[..|threads| - 1], listed);
    }
  }

  /** Nearer to the settled state. */
  ghost predicate Nearer(s': State, s: State) {
    && |s'.threads| == |s.threads| && (forall t: nat :: t < |s.threads| ==> (s'.threads[t].pc.Gone? <==> s.threads[t].pc.Gone?))
    && (Ahead(s') < Ahead(s) || (Ahead(s') == Ahead(s) && Left(s') < Left(s)))
  }

  /** What a thread asks for to give up what it holds. */
  function Winding(g: Shared): Op {
    if g.depth > 0 then EndExclusive else if g.owner >= 0 then Unlock else Finish
  }

  /** Asked so, a thread that can step has less to do. */
  lemma OwnerNearer(th: Thread, g: Shared, seen: bool)
    requires ThreadOk(th, g) && SharedOk(g) && g.owner == th.id && !th.pc.Stopping? && (th.pc.Spin? && th.pc.next < |g.list| ==> seen)
    ensures var op := if th.pc.Collecting? then Finish else Winding(g);
            var Outcome(th', g') := Act(th, g, seen, op);
            && g'.list == g.list && (g'.stopping ==> g.stopping) && !th'.pc.Stopping? && (th'.pc.Gone? <==> th.pc.Gone?)
            && (g'.owner == g.owner || g'.owner == -1)
            && SECTION * g'.depth + ThreadLeft(th', |g.list|, g'.stopping) < SECTION * g.depth + ThreadLeft(th, |g.list|, g'.stopping)
  {
  }

  /** A thread without the lock goes on to park, or takes the lock if it is free. */
  lemma WaiterNearer(th: Thread, g: Shared, seen: bool)
    requires ThreadOk(th, g) && SharedOk(g) && g.owner != th.id && !th.pc.Gone?
    requires if g.owner == -1 then !th.pc.Run? else th.blocking == 0 && g.stopping
    ensures var Outcome(th', g') := Act(th, g, seen, Safepoint);
            && g' == g.(owner := g'.owner) && (g'.owner == g.owner || (g.owner == -1 && g'.owner == th.id))
            && !th'.pc.Stopping? && !th'.pc.Gone?
            && ThreadLeft(th', |g.list|, g.stopping) < ThreadLeft(th, |g.list|, g.stopping)
  {
  }

  lemma StepNearer(s: State, t: nat, op: Op)
    requires Inv(s) && t < |s.threads|
    requires var Outcome(th', g') := Act(s.threads[t], s.g, Seen(s, t), op);
             && g'.list == s.g.list && (g'.stopping ==> s.g.stopping) && !th'.pc.Stopping? && (th'.pc.Gone? <==> s.threads[t].pc.Gone?)
             && (g'.owner == s.g.owner || g'.owner == -1 || g'.owner == t) && !s.threads[t].pc.Stopping?
             && SECTION * g'.depth + ThreadLeft(th', |s.g.list|, g'.stopping) < SECTION * s.g.depth + ThreadLeft(s.threads[t], |s.g.list|, g'.stopping)
    ensures Nearer(Step(s, t, op), s)
  {
    hide Act, ThreadLeft, ThreadsLeft, ThreadOk, SharedOk, HaltOk;
    var Outcome(th', g') := Act(s.threads[t], s.g, Seen(s, t), op);
    LeftUpdate(s.threads, t, th', |s.g.list|, g'.stopping);
    LessWhenDown(s.threads, |s.g.list|);
  }

  /** The stop flag goes up. */
  lemma StopNearer(s: State)
    requires Inv(s) && Ahead(s) == 1
    ensures Nearer(Step(s, s.g.owner, Finish), s)
  {
    hide ThreadsLeft, ThreadOk, SharedOk, HaltOk;
  }

  /** The thread an owner in its spin loop waits for. */
  function Awaited(s: State): nat
    requires 0 <= s.g.owner < |s.threads| && s.threads[s.g.owner].pc.Spin? && s.threads[s.g.owner].pc.next < |s.g.list|
  {
    s.g.list[s.threads[s.g.owner].pc.next]
  }

  predicate Waits(s: State) {
    0 <= s.g.owner < |s.threads| && s.threads[s.g.owner].pc.Spin? && s.threads[s.g.owner].pc.next < |s.g.list| && !Seen(s, s.g.owner)
  }

  lemma AwaitedFacts(s: State)
    requires Inv(s) && Waits(s)
    ensures Awaited(s) < |s.threads| && Awaited(s) != s.g.owner && s.g.stopping
    ensures s.threads[Awaited(s)].blocking == 0 && !s.threads[Awaited(s)].pc.Gone? && !s.threads[Awaited(s)].pc.Stopping?
  {
    hide HaltOk;
    assert Awaited(s) in s.g.list;
    assert ThreadOk(s.threads[s.g.owner], s.g) && ThreadOk(s.threads[Awaited(s)], s.g);
  }

  /** Until everything is settled, some thread can step towards it: the owner, the thread it waits for, or a waiter. */
  lemma SomeoneNearer(s: State) returns (c: Choice)
    requires Inv(s) && !Settled(s)
    ensures Nearer(Step(s, c.t, c.op), s)
    ensures s.g.owner >= 0 && !Waits(s) ==> c.t == s.g.owner
    ensures Waits(s) ==> c == Choice(Awaited(s), Safepoint)
  {
    hide Act, ThreadLeft, ThreadOk, SharedOk, HaltOk, Nearer, Step;
    var o := s.g.owner;
    if o >= 0 && s.threads[o].pc.Stopping? {
      c := Choice(o, Finish);
      StopNearer(s);
    } else if Waits(s) {
      AwaitedFacts(s);
      var t := Awaited(s);
      c := Choice(t, Safepoint);
      WaiterNearer(s.threads[t], s.g, Seen(s, t));
      StepNearer(s, t, Safepoint);
    } else if o >= 0 {
      c := Choice(o, if s.threads[o].pc.Collecting? then Finish else Winding(s.g));
      OwnerNearer(s.threads[o], s.g, Seen(s, o));
      StepNearer(s, o, c.op);
    } else {
      FreeFacts(s);
      var t: nat :| t < |s.threads| && !s.threads[t].pc.Run? && !s.threads[t].pc.Gone?;
      c := Choice(t, Safepoint);
      WaiterNearer(s.threads[t], s.g, Seen(s, t));
      StepNearer(s, t, Safepoint);
    }
  }

  lemma FreeFacts(s: State)
    requires Inv(s) && s.g.owner < 0
    ensures s.g.owner == -1 && !s.g.stopping && s.g.depth == 0
    ensures forall t: nat :: t < |s.threads| ==> !s.threads[t].pc.Stopping?
  {
    hide HaltOk;
    forall t: nat | t < |s.threads| ensures !s.threads[t].pc.Stopping? {
      assert ThreadOk(s.threads[t], s.g);
    }
  }

  lemma {:induction false} ExecuteMore(s: State, first: seq<Choice>, rest: seq<Choice>)
    ensures Execute(s, first + rest) == Execute(Execute(s, first), rest)
    decreases |rest|
  {
    hide Step;
    if rest == [] {
      assert first + rest == first;
    } else {
      ExecuteMore(s, first, rest[..|rest| - 1]);
      assert (first + rest)[..|first| + |rest| - 1] == first + rest[..|rest| - 1];
    }
  }

  lemma ExecuteOne(s: State, c: Choice)
    ensures Execute(s, [c]) == Step(s, c.t, c.op)
  {
    assert [c][..0] == [];
  }

  lemma {:induction false} CanSettle(s: State) returns (schedule: seq<Choice>)
    requires Inv(s)
    ensures Settled(Execute(s, schedule))
    ensures |Execute(s, schedule).threads| == |s.threads|
    ensures forall t: nat :: t < |s.threads| ==> (Execute(s, schedule).threads[t].pc.Gone? <==> s.threads[t].pc.Gone?)
    decreases Ahead(s), Left(s)
  {
    hide Inv, Settled, Step, Ahead, Left, Waits;
    schedule := [];
    if !Settled(s) {
      var c := SomeoneNearer(s);
      StepKeeps(s, c.t, c.op);
      var rest := CanSettle(Step(s, c.t, c.op));
      ExecuteOne(s, c);
      ExecuteMore(s, [c], rest);
      schedule := [c] + rest;
    }
  }

  /** The thread is about to collect, once everyone else is halted. */
  ghost predicate OnTheWay(s: State, t: nat) {
    Inv(s) && t < |s.threads| && s.g.owner == t && (s.threads[t].pc == Stopping(false) || (s.threads[t].pc.Spin? && !s.threads[t].pc.excl))
  }

  ghost predicate Collects(s: State, t: nat) {
    Inv(s) && t < |s.threads| && s.g.owner == t && s.threads[t].pc.Collecting? && s.g.stopped
  }

  lemma OnTheWayStep(s: State, t: nat, c: Choice)
    requires OnTheWay(s, t) && (if Waits(s) then c == Choice(Awaited(s), Safepoint) else c.t == t)
    ensures OnTheWay(Step(s, c.t, c.op), t) || Collects(Step(s, c.t, c.op), t)
  {
    hide Inv, Act, ThreadOk, SharedOk;
    StepKeeps(s, c.t, c.op);
    if Waits(s) {
      AwaitedFacts(s);
      AwaitedKeepsOff(s);
    } else {
      OwnerAdvances(s, t, c.op);
    }
  }

  lemma AwaitedKeepsOff(s: State)
    requires Inv(s) && Waits(s)
    ensures Step(s, Awaited(s), Safepoint).g == s.g && Awaited(s) != s.g.owner
  {
    hide HaltOk, Act;
    AwaitedFacts(s);
    assert ThreadOk(s.threads[Awaited(s)], s.g);
    HaltedStays(s.threads[Awaited(s)], s.g, Seen(s, Awaited(s)), Safepoint);
    AtSafepoint(s.threads[Awaited(s)], s.g, Seen(s, Awaited(s)));
  }

  lemma AtSafepoint(th: Thread, g: Shared, seen: bool)
    requires ThreadOk(th, g) && SharedOk(g) && g.owner != th.id && g.stopping
    ensures Act(th, g, seen, Safepoint).g == g
  {
  }

  lemma OwnerAdvances(s: State, t: nat, op: Op)
    requires OnTheWay(s, t) && !Waits(s)
    ensures var s' := Step(s, t, op);
            |s'.threads| == |s.threads| && s'.g.owner == t
            && ((s'.threads[t].pc.Spin? && !s'.threads[t].pc.excl) || (s'.threads[t].pc.Collecting? && s'.g.stopped))
  {
    hide Inv, Call;
  }

  lemma {:induction false} CanCollect(s: State, t: nat) returns (schedule: seq<Choice>)
    requires OnTheWay(s, t)
    ensures Collects(Execute(s, schedule), t)
    decreases Ahead(s), Left(s)
  {
    hide Inv, Step, Ahead, Left, Waits, Collects, Awaited;
    NotSettled(s);
    var c := SomeoneNearer(s);
    OnTheWayStep(s, t, c);
    var rest := [];
    if !Collects(Step(s, c.t, c.op), t) {
      rest := CanCollect(Step(s, c.t, c.op), t);
    }
    ExecuteOne(s, c);
    ExecuteMore(s, [c], rest);
    assert rest == [] ==> Execute(Step(s, c.t, c.op), rest) == Step(s, c.t, c.op);
    schedule := [c] + rest;
  }

  lemma NotSettled(s: State)
    requires Inv(s) && s.g.owner >= 0
    ensures !Settled(s)
  {
  }

  /** From a settled world a thread takes the lock and asks for a collection. */
  lemma CanAsk(s: State, t: nat) returns (schedule: seq<Choice>)
    requires Inv(s) && Settled(s) && t < |s.threads| && s.threads[t].pc.Run?
    ensures OnTheWay(Execute(s, schedule), t)
  {
    hide Inv, Act, Execute;
    var c0, c1, c2 := Choice(t, Lock), Choice(t, Finish), Choice(t, Collect);
    Asks(s, t);
    var s1 := Step(s, t, Lock);
    var s2 := Step(s1, t, Finish);
    var s3 := Step(s2, t, Finish);
    StepKeeps(s, t, Lock);
    StepKeeps(s1, t, Finish);
    StepKeeps(s2, t, Finish);
    StepKeeps(s3, t, Collect);
    ExecuteOne(s, c0);
    ExecuteOne(s1, c1);
    ExecuteOne(s2, c1);
    ExecuteOne(s3, c2);
    ExecuteMore(s, [c0], [c1]);
    ExecuteMore(s, [c0] + [c1], [c1]);
    ExecuteMore(s, [c0] + [c1] + [c1], [c2]);
    schedule := [c0] + [c1] + [c1] + [c2];
  }

  lemma Asks(s: State, t: nat)
    requires Inv(s) && Settled(s) && t < |s.threads| && s.threads[t].pc.Run?
    ensures var s4 := Step(Step(Step(Step(s, t, Lock), t, Finish), t, Finish), t, Collect);
            |s4.threads| == |s.threads| && s4.g.owner == t && s4.threads[t].pc == Stopping(false)
  {
    hide Inv, HaltOk;
    IdIs(s, t);
  }

  lemma IdIs(s: State, t: nat)
    requires Inv(s) && t < |s.threads|
    ensures s.threads[t].id == t
  {
  }

  /**
   From every state that keeps the invariant, and for every thread that has not gone, some schedule stops the world so that
   the thread collects, and from there some schedule resumes it and brings every thread back to its own code.
   */
  lemma WorldStopsAndResumes(s: State, t: nat) returns (stop: seq<Choice>, resume: seq<Choice>)
    requires Inv(s) && t < |s.threads| && !s.threads[t].pc.Gone?
    ensures Collects(Execute(s, stop), t) && Settled(Execute(Execute(s, stop), resume))
  {
    hide Inv, Execute, Settled, Collects, OnTheWay;
    var settle := CanSettle(s);
    RunKeeps(s, settle);
    var s1 := Execute(s, settle);
    BackInItsCode(s1, t);
    var ask := CanAsk(s1, t);
    var go := CanCollect(Execute(s1, ask), t);
    ExecuteMore(s, settle, ask);
    ExecuteMore(s, settle + ask, go);
    stop := settle + ask + go;
    RunKeeps(s, stop);
    resume := CanSettle(Execute(s, stop));
  }

  lemma BackInItsCode(s: State, t: nat)
    requires Settled(s) && t < |s.threads| && !s.threads[t].pc.Gone?
    ensures s.threads[t].pc.Run?
  {
  }
}
