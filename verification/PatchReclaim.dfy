/**
 Reclaiming the code of live patches. A patch's code is owned by the function slots that point into it, and counted; the
 code owned by some slot is published as a list. Readers (a sampling profiler, a diagnostics connection) are never
 stopped: they count themselves, load the list, and use what they found until they uncount themselves. A commit runs with
 every other thread stopped.

 Each access to what readers share is a step of its own, and readers interleave with a commit in any order.
 */
module PatchReclaim {
  type Id = nat

  /** Where a commit is; `Deciding` has read the count of readers and found it zero or not. */
  datatype Phase = Open | Redirecting(i: nat) | Listing | Reclaiming | Deciding(x: Id, quiet: bool)

  datatype Reader = Reader(registered: bool, held: set<Id>)

  /** What a commit works on. `owners` names for every slot the patch code it points to, or -1. */
  datatype Commit = Commit(phase: Phase, caller: nat, alloc: Id, targets: seq<nat>, superseded: seq<Id>)

  datatype State = State(stable: bool, owners: seq<int>, refs: seq<int>, live: set<Id>, retired: set<Id>, freed: set<Id>,
                         c: Commit, count: int, readers: seq<Reader>, stacks: seq<set<Id>>)

  datatype Event =
    | Register(r: nat)
    | Load(r: nat)
    | Unregister(r: nat)
    | Enter(t: nat, id: Id)
    | Return(t: nat, id: Id)
    | Begin(t: nat, targets: seq<nat>)
    | Advance

  function Owned(owners: seq<int>): set<Id> {
    set k: nat | k < |owners| && owners[k] >= 0 :: owners[k] as nat
  }

  /** Code on the caller's own stack that loses every slot it has. No step of a commit looks at that stack. */
  predicate CallerClear(s: State, t: nat, targets: seq<nat>)
    requires t < |s.stacks|
  {
    forall id <- s.stacks[t] :: id in s.owners ==> Keeps(s.owners, targets, id)
  }

  predicate Keeps(owners: seq<int>, targets: seq<nat>, id: Id) {
    exists k: nat :: k < |owners| && owners[k] == id && k !in targets
  }

  // ---------------------------------------------------------------- the steps

  function SetReader(s: State, r: nat, reader: Reader): State
    requires r < |s.readers|
  {
    s.(readers := s.readers[r := reader])
  }

  /** One slot: it points to the new code, and the old code loses a reference. */
  function Redirect(s: State): State
    requires s.c.phase.Redirecting? && s.c.phase.i < |s.c.targets|
  {
    var slot, next := s.c.targets[s.c.phase.i], s.c.(phase := Redirecting(s.c.phase.i + 1));
    if slot >= |s.owners| || s.c.alloc >= |s.refs| then s.(c := next)
    else
      var was, owners := s.owners[slot], s.owners[slot := s.c.alloc];
      var more := s.refs[s.c.alloc := s.refs[s.c.alloc] + 1];
      if was < 0 || was >= |more| then s.(owners := owners, refs := more, c := next)
      else
        var fewer := more[was := more[was] - 1];
        if fewer[was] != 0 then s.(owners := owners, refs := fewer, c := next)
        else if s.stable then s.(owners := owners, refs := fewer, c := next.(superseded := [was] + s.c.superseded))
        else s.(owners := owners, refs := fewer, c := next, retired := s.retired + {was})
  }

  /** The next step of a commit. */
  function AdvanceCommit(s: State): State {
    match s.c.phase
    case Open => s
    case Redirecting(i) => if i < |s.c.targets| then Redirect(s) else s.(c := s.c.(phase := Listing))
    case Listing => s.(live := Owned(s.owners), c := s.c.(phase := Reclaiming))
    case Reclaiming =>
      if s.c.superseded == [] then s.(c := s.c.(phase := Open))
      else s.(c := s.c.(phase := Deciding(s.c.superseded[0], s.count == 0), superseded := s.c.superseded[1..]))
    case Deciding(x, quiet) =>
      if quiet && forall t: nat :: t < |s.stacks| && t != s.c.caller ==> x !in s.stacks[t] then
        s.(freed := s.freed + {x}, c := s.c.(phase := Reclaiming))
      else
        s.(retired := s.retired + {x}, c := s.c.(phase := Reclaiming))
  }

  function Step(s: State, e: Event): State {
    match e
    case Register(r) =>
      if r < |s.readers| && !s.readers[r].registered then SetReader(s, r, Reader(true, {})).(count := s.count + 1) else s
    case Load(r) =>
      if r < |s.readers| && s.readers[r].registered then
        SetReader(s, r, Reader(true, s.readers[r].held + s.live + s.retired))
      else s
    case Unregister(r) =>
      if r < |s.readers| && s.readers[r].registered then SetReader(s, r, Reader(false, {})).(count := s.count - 1) else s
    case Enter(t, id) =>
      if t < |s.stacks| && s.c.phase.Open? && (id in s.owners || (!s.stable && id in s.retired)) then
        s.(stacks := s.stacks[t := s.stacks[t] + {id}])
      else s
    case Return(t, id) =>
      if t < |s.stacks| && s.c.phase.Open? then s.(stacks := s.stacks[t := s.stacks[t] - {id}]) else s
    case Begin(t, targets) =>
      if t < |s.stacks| && s.c.phase.Open? then
        s.(c := Commit(Redirecting(0), t, |s.refs|, targets, []), refs := s.refs + [0])
      else s
    case Advance => AdvanceCommit(s)
  }

  function Run(s: State, events: seq<Event>): State {
    if events == [] then s else Step(Run(s, events[..|events| - 1]), events[|events| - 1])
  }

  // ---------------------------------------------------------------- counting

  function Count(owners: seq<int>, id: int): nat {
    if owners == [] then 0
    else Count(owners[..|owners| - 1], id) + if owners[|owners| - 1] == id then 1 else 0
  }

  lemma {:induction false} CountUpdate(owners: seq<int>, k: nat, v: int, id: int)
    requires k < |owners|
    ensures Count(owners[k := v], id)
            == Count(owners, id) - (if owners[k] == id then 1 else 0) + if v == id then 1 else 0
    decreases |owners|
  {
    var init, last := owners[..|owners| - 1], |owners| - 1;
    if k == last {
      assert owners[k := v][..last] == init;
    } else {
      CountUpdate(init, k, v, id);
      assert owners[k := v][..last] == init[k := v];
    }
  }

  lemma {:induction false} CountZero(owners: seq<int>, id: int)
    ensures Count(owners, id) == 0 <==> id !in owners
    decreases |owners|
  {
    if owners != [] {
      CountZero(owners[..|owners| - 1], id);
      assert owners == owners[..|owners| - 1] + [owners[|owners| - 1]];
    }
  }

  function Registered(readers: seq<Reader>): nat {
    if readers == [] then 0
    else Registered(readers[..|readers| - 1]) + if readers[|readers| - 1].registered then 1 else 0
  }

  lemma {:induction false} RegisteredUpdate(readers: seq<Reader>, r: nat, reader: Reader)
    requires r < |readers|
    ensures Registered(readers[r := reader])
            == Registered(readers) - (if readers[r].registered then 1 else 0) + if reader.registered then 1 else 0
    decreases |readers|
  {
    var init, last := readers[..|readers| - 1], |readers| - 1;
    if r == last {
      assert readers[r := reader][..last] == init;
    } else {
      RegisteredUpdate(init, r, reader);
      assert readers[r := reader][..last] == init[r := reader];
    }
  }

  lemma {:induction false} NoneRegistered(readers: seq<Reader>, r: nat)
    requires Registered(readers) == 0 && r < |readers|
    ensures !readers[r].registered
    decreases |readers|
  {
    if r < |readers| - 1 {
      NoneRegistered(readers[..|readers| - 1], r);
    }
  }

  // ---------------------------------------------------------------- the invariant

  /** Every count is the number of slots. */
  ghost predicate Counted(owners: seq<int>, refs: seq<int>) {
    && (forall k :: 0 <= k < |owners| ==> -1 <= owners[k] < |refs|)
    && (forall id :: 0 <= id < |refs| ==> refs[id] == Count(owners, id))
  }

  /** Taken out of every slot, and not yet disposed of. */
  ghost predicate Pending(c: Commit, id: Id) {
    id in c.superseded || (c.phase.Deciding? && c.phase.x == id)
  }

  /** Some part of the runtime still keeps the code. */
  ghost predicate Kept(owners: seq<int>, retired: set<Id>, c: Commit, id: Id) {
    id in owners || id in retired || Pending(c, id)
  }

  /** Code is in one place: owned, waiting for a decision, retired or freed. */
  ghost predicate Apart(s: State) {
    && (forall id: Id :: Pending(s.c, id) ==> id < |s.refs| && id !in s.owners && id !in s.retired && id !in s.freed)
    && (forall id <- s.retired :: id < |s.refs| && id !in s.owners && id !in s.freed)
    && (forall id <- s.freed :: id < |s.refs| && id !in s.owners)
    && (forall i, j :: 0 <= i < j < |s.c.superseded| ==> s.c.superseded[i] != s.c.superseded[j])
    && (s.c.phase.Deciding? ==> s.c.phase.x !in s.c.superseded)
    && (s.c.phase.Open? ==> s.c.superseded == [])
  }

  ghost predicate Listed(s: State) {
    && (forall id <- s.live :: Kept(s.owners, s.retired, s.c, id))
    && (if s.c.phase.Redirecting? || s.c.phase.Listing? then Owned(s.owners) <= s.live + {s.c.alloc} else s.live == Owned(s.owners))
  }

  ghost predicate ReaderOk(owners: seq<int>, retired: set<Id>, c: Commit, reader: Reader) {
    && (!reader.registered ==> reader.held == {})
    && (forall id <- reader.held :: Kept(owners, retired, c, id))
    && (c.phase.Deciding? && c.phase.quiet ==> c.phase.x !in reader.held)
  }

  ghost predicate ReadersOk(s: State) {
    s.count == Registered(s.readers) && forall reader <- s.readers :: ReaderOk(s.owners, s.retired, s.c, reader)
  }

  /** What the caller of a commit runs in keeps a slot throughout. */
  ghost predicate CallerOk(s: State) {
    s.stable && !s.c.phase.Open? && s.c.caller < |s.stacks| ==>
      forall id <- s.stacks[s.c.caller] :: !Pending(s.c, id) && (id in s.owners ==> Keeps(s.owners, s.c.targets, id))
  }

  ghost predicate StackOk(owners: seq<int>, retired: set<Id>, c: Commit, stack: set<Id>) {
    forall id <- stack :: Kept(owners, retired, c, id)
  }

  ghost predicate StacksOk(s: State) {
    forall stack <- s.stacks :: StackOk(s.owners, s.retired, s.c, stack)
  }

  ghost predicate CommitOk(s: State) {
    && (!s.c.phase.Open? ==> s.c.alloc < |s.refs| && s.c.alloc !in s.retired && s.c.alloc !in s.freed && !Pending(s.c, s.c.alloc))
    && (!s.c.phase.Open? ==> s.c.caller < |s.stacks| && s.c.alloc !in s.stacks[s.c.caller])
    && (!s.stable ==> s.freed == {} && forall id: Id :: !Pending(s.c, id))
  }

  ghost predicate Inv(s: State) {
    Counted(s.owners, s.refs) && Apart(s) && Listed(s) && ReadersOk(s) && CallerOk(s) && StacksOk(s) && CommitOk(s)
  }

  // ---------------------------------------------------------------- every step keeps it

  ghost predicate IsReaders(e: Event) {
    e.Register? || e.Load? || e.Unregister?
  }

  lemma ReaderKeeps(s: State, e: Event)
    requires Inv(s) && IsReaders(e)
    ensures Inv(Step(s, e))
  {
    hide Counted, Keeps, StackOk, Kept, Registered, Owned, Pending;
    var s' := Step(s, e);
    if e.r < |s.readers| {
      var reader := s'.readers[e.r];
      RegisteredUpdate(s.readers, e.r, reader);
      LoadedOk(s, s.readers[e.r]);
      forall x | x in s'.readers ensures ReaderOk(s.owners, s.retired, s.c, x) {
        assert x in s.readers || x == reader;
      }
    }
  }

  lemma LoadedOk(s: State, reader: Reader)
    requires Apart(s) && Listed(s) && ReaderOk(s.owners, s.retired, s.c, reader)
    ensures ReaderOk(s.owners, s.retired, s.c, Reader(true, reader.held + s.live + s.retired))
    ensures ReaderOk(s.owners, s.retired, s.c, Reader(true, {})) && ReaderOk(s.owners, s.retired, s.c, Reader(false, {}))
  {
  }

  lemma ThreadKeeps(s: State, e: Event)
    requires Inv(s) && (e.Enter? || e.Return?)
    ensures Inv(Step(s, e))
  {
    hide Counted, ReaderOk, Owned, Registered, Keeps, Pending;
    var s' := Step(s, e);
    if e.t < |s.stacks| {
      forall stack | stack in s'.stacks ensures StackOk(s.owners, s.retired, s.c, stack) {
        assert s.stacks[e.t] in s.stacks;
        assert stack in s.stacks || stack == s'.stacks[e.t];
      }
    }
  }

  lemma BeginKeeps(s: State, e: Event)
    requires Inv(s) && e.Begin? && (s.stable && e.t < |s.stacks| ==> CallerClear(s, e.t, e.targets))
    ensures Inv(Step(s, e))
  {
    hide ReaderOk, StackOk, Count, Owned, Registered, Keeps;
    var s' := Step(s, e);
    if s' != s {
      assert forall id: Id :: !Pending(s.c, id) && !Pending(s'.c, id);
      BeginCounted(s);
      SameKept(s, s');
      FreshAlloc(s, e.t);
    }
  }

  lemma BeginCounted(s: State)
    requires Counted(s.owners, s.refs)
    ensures Counted(s.owners, s.refs + [0])
  {
    CountZero(s.owners, |s.refs|);
  }

  lemma FreshAlloc(s: State, t: nat)
    requires Inv(s) && t < |s.stacks| && forall id: Id :: !Pending(s.c, id)
    ensures |s.refs| !in s.retired && |s.refs| !in s.freed && |s.refs| !in s.stacks[t]
  {
    assert s.stacks[t] in s.stacks;
    assert |s.refs| in s.stacks[t] ==> Kept(s.owners, s.retired, s.c, |s.refs|);
  }

  /** Readers, stacks and the list stay right as long as no code they have is given up. */
  lemma SameKept(s: State, s': State)
    requires Inv(s) && s'.readers == s.readers && s'.count == s.count && s'.stacks == s.stacks
    requires forall id: Id :: Kept(s.owners, s.retired, s.c, id) ==> Kept(s'.owners, s'.retired, s'.c, id)
    requires s'.c.phase.Deciding? && s'.c.phase.quiet ==> forall reader <- s.readers :: s'.c.phase.x !in reader.held
    ensures ReadersOk(s') && StacksOk(s')
    ensures s'.live == s.live ==> forall id <- s'.live :: Kept(s'.owners, s'.retired, s'.c, id)
  {
    hide Kept, Counted, Apart, CallerOk, CommitOk;
    forall reader | reader in s.readers ensures ReaderOk(s'.owners, s'.retired, s'.c, reader) {
      assert ReaderOk(s.owners, s.retired, s.c, reader);
    }
    forall stack | stack in s.stacks ensures StackOk(s'.owners, s'.retired, s'.c, stack) {
      assert StackOk(s.owners, s.retired, s.c, stack);
    }
  }

  // ---------------------------------------------------------------- redirecting a slot

  /** The counts stay the numbers of slots, and code with none left is no longer owned. */
  lemma RedirectCounted(s: State)
    requires Counted(s.owners, s.refs) && s.c.phase.Redirecting? && s.c.phase.i < |s.c.targets|
    ensures Counted(Redirect(s).owners, Redirect(s).refs) && |Redirect(s).refs| == |s.refs|
  {
    var slot, alloc, s' := s.c.targets[s.c.phase.i], s.c.alloc, Redirect(s);
    if slot < |s.owners| && alloc < |s.refs| {
      hide Count;
      forall id | 0 <= id < |s.refs| ensures s'.refs[id] == Count(s'.owners, id) {
        CountUpdate(s.owners, slot, alloc, id);
      }
    }
  }

  /** What one redirection does, in terms of which code is owned. */
  lemma RedirectMoves(s: State)
    requires Counted(s.owners, s.refs) && s.c.phase.Redirecting? && s.c.phase.i < |s.c.targets| && s.c.alloc < |s.refs|
    ensures var s' := Redirect(s);
            && s' == s.(owners := s'.owners, refs := s'.refs, retired := s'.retired, c := s'.c)
            && s'.c == s.c.(phase := Redirecting(s.c.phase.i + 1), superseded := s'.c.superseded)
    ensures var s', slot := Redirect(s), s.c.targets[s.c.phase.i];
            if slot >= |s.owners| then
              s'.owners == s.owners && s'.refs == s.refs && s'.retired == s.retired && s'.c.superseded == s.c.superseded
            else
              && s'.owners == s.owners[slot := s.c.alloc] && -1 <= s.owners[slot] < |s.refs|
              && (if 0 <= s.owners[slot] && s.owners[slot] !in s'.owners then
                    if s.stable then s'.c.superseded == [s.owners[slot]] + s.c.superseded && s'.retired == s.retired
                    else s'.c.superseded == s.c.superseded && s'.retired == s.retired + {s.owners[slot]}
                  else s'.c.superseded == s.c.superseded && s'.retired == s.retired)
  {
    var slot, s' := s.c.targets[s.c.phase.i], Redirect(s);
    if slot < |s.owners| {
      RedirectCounted(s);
      CountZero(s'.owners, s.owners[slot]);
    }
  }

  lemma {:induction false} UpdateMembers(owners: seq<int>, slot: nat, v: int)
    requires slot < |owners|
    ensures v in owners[slot := v]
    ensures forall id <- owners :: id in owners[slot := v] || id == owners[slot]
    ensures forall id <- owners[slot := v] :: id in owners || id == v
  {
    var owners' := owners[slot := v];
    assert owners'[slot] == v;
    forall id | id in owners ensures id in owners' || id == owners[slot] {
      var k :| 0 <= k < |owners| && owners[k] == id;
      assert k != slot ==> owners'[k] == id;
    }
  }

  lemma RedirectAddsOne(s: State)
    requires s.c.phase.Redirecting? && s.c.phase.i < |s.c.targets|
    ensures Owned(Redirect(s).owners) <= Owned(s.owners) + {s.c.alloc}
  {
    var s' := Redirect(s);
    forall id | id in Owned(s'.owners) ensures id in Owned(s.owners) || id == s.c.alloc {
      var k: nat :| k < |s'.owners| && s'.owners[k] >= 0 && s'.owners[k] as nat == id;
      assert s'.owners[k] == s.owners[k] || s'.owners[k] == s.c.alloc;
    }
  }

  lemma RedirectKeeps(s: State)
    requires Inv(s) && s.c.phase.Redirecting? && s.c.phase.i < |s.c.targets|
    ensures Inv(Redirect(s))
  {
    hide Redirect, Counted, ReaderOk, StackOk, Owned, Registered, Keeps, Count;
    var s', slot := Redirect(s), s.c.targets[s.c.phase.i];
    RedirectCounted(s);
    RedirectMoves(s);
    RedirectAddsOne(s);
    if slot < |s.owners| {
      UpdateMembers(s.owners, slot, s.c.alloc);
      RedirectApart(s, s', slot);
      RedirectCaller(s, s', slot);
      RedirectHolds(s, s', slot);
    } else {
      assert forall id: Id :: Pending(s'.c, id) <==> Pending(s.c, id);
    }
    SameKept(s, s');
  }

  /** Code that loses its last slot is kept for the decision, or retired. */
  lemma RedirectHolds(s: State, s': State, slot: nat)
    requires slot < |s.owners| && s'.owners == s.owners[slot := s.c.alloc] && s.c.phase.Redirecting?
    requires s'.c == s.c.(phase := s'.c.phase, superseded := s'.c.superseded) && s'.c.phase.Redirecting?
    requires if 0 <= s.owners[slot] && s.owners[slot] !in s'.owners then
               if s.stable then s'.c.superseded == [s.owners[slot]] + s.c.superseded && s'.retired == s.retired
               else s'.c.superseded == s.c.superseded && s'.retired == s.retired + {s.owners[slot]}
             else s'.c.superseded == s.c.superseded && s'.retired == s.retired
    ensures forall id: Id :: Kept(s.owners, s.retired, s.c, id) ==> Kept(s'.owners, s'.retired, s'.c, id)
  {
    UpdateMembers(s.owners, slot, s.c.alloc);
    forall id: Id | Kept(s.owners, s.retired, s.c, id) ensures Kept(s'.owners, s'.retired, s'.c, id) {
      assert id in s.owners ==> id in s'.owners || id == s.owners[slot];
      assert id in s.c.superseded ==> id in s'.c.superseded;
    }
  }

  lemma RedirectApart(s: State, s': State, slot: nat)
    requires Apart(s) && CommitOk(s) && s.c.phase.Redirecting? && slot < |s.owners| && s'.owners == s.owners[slot := s.c.alloc]
    requires s'.c == s.c.(phase := s'.c.phase, superseded := s'.c.superseded) && s'.c.phase.Redirecting?
    requires |s'.refs| == |s.refs| && s'.freed == s.freed && -1 <= s.owners[slot] < |s.refs|
    requires if 0 <= s.owners[slot] && s.owners[slot] !in s'.owners then
               if s.stable then s'.c.superseded == [s.owners[slot]] + s.c.superseded && s'.retired == s.retired
               else s'.c.superseded == s.c.superseded && s'.retired == s.retired + {s.owners[slot]}
             else s'.c.superseded == s.c.superseded && s'.retired == s.retired
    ensures Apart(s') && s.c.alloc !in s'.retired && !Pending(s'.c, s.c.alloc)
  {
    var was := s.owners[slot];
    UpdateMembers(s.owners, slot, s.c.alloc);
    assert was in s.owners;
    assert !Pending(s.c, s.c.alloc);
    forall id: Id | Pending(s'.c, id)
      ensures id < |s.refs| && id !in s'.owners && id !in s'.retired && id !in s.freed && id != s.c.alloc
    {
      assert Pending(s.c, id) || (id == was && was !in s'.owners);
    }
    forall id | id in s'.retired ensures id < |s.refs| && id !in s'.owners && id !in s.freed && id != s.c.alloc {
      assert id in s.retired || (id == was && was !in s'.owners);
    }
    forall i, j | 0 <= i < j < |s'.c.superseded| ensures s'.c.superseded[i] != s'.c.superseded[j] {
      assert |s'.c.superseded| > |s.c.superseded| ==> s'.c.superseded[j] == s.c.superseded[j - 1] && Pending(s.c, s.c.superseded[j - 1]);
    }
  }

  lemma RedirectCaller(s: State, s': State, slot: nat)
    requires Inv(s) && s.c.phase.Redirecting? && slot < |s.owners| && slot in s.c.targets && s'.owners == s.owners[slot := s.c.alloc]
    requires s'.c == s.c.(phase := s'.c.phase, superseded := s'.c.superseded) && s'.c.phase.Redirecting?
    requires s'.stacks == s.stacks && s'.stable == s.stable
    requires s'.c.superseded == s.c.superseded
             || (0 <= s.owners[slot] && s.owners[slot] !in s'.owners && s'.c.superseded == [s.owners[slot]] + s.c.superseded)
    ensures CallerOk(s')
  {
    hide Counted, ReaderOk, StackOk, Owned, Registered, Count, Listed;
    UpdateMembers(s.owners, slot, s.c.alloc);
    if s.stable {
      forall id | id in s.stacks[s.c.caller] && id in s.owners ensures Keeps(s'.owners, s.c.targets, id) && id in s'.owners {
        var k: nat :| k < |s.owners| && s.owners[k] == id && k !in s.c.targets;
        assert s'.owners[k] == id;
      }
    }
  }

  // ---------------------------------------------------------------- publishing and reclaiming

  lemma PublishKeeps(s: State)
    requires Inv(s) && s.c.phase.Listing?
    ensures Inv(AdvanceCommit(s))
  {
    hide Counted, ReaderOk, StackOk, Registered, Keeps, Owned;
    OwnedAreOwners(s.owners);
    var s' := AdvanceCommit(s);
    assert forall id: Id :: Pending(s'.c, id) <==> Pending(s.c, id);
    SameKept(s, s');
  }

  lemma OwnedAreOwners(owners: seq<int>)
    ensures forall id <- Owned(owners) :: id in owners
  {
  }

  lemma PickKeeps(s: State)
    requires Inv(s) && s.c.phase.Reclaiming?
    ensures Inv(AdvanceCommit(s))
  {
    hide Counted, ReaderOk, StackOk, Owned, Registered, Keeps;
    var s' := AdvanceCommit(s);
    if s.c.superseded != [] {
      assert s.c.superseded == [s.c.superseded[0]] + s.c.superseded[1..];
      assert forall id: Id :: Pending(s'.c, id) <==> Pending(s.c, id);
      if s.count == 0 {
        NobodyHolds(s);
      }
    }
    SameKept(s, s');
  }

  lemma NobodyHolds(s: State)
    requires ReadersOk(s) && s.count == 0
    ensures forall reader <- s.readers :: reader.held == {}
  {
    forall reader | reader in s.readers ensures reader.held == {} {
      var r: nat :| r < |s.readers| && s.readers[r] == reader;
      NoneRegistered(s.readers, r);
      assert ReaderOk(s.owners, s.retired, s.c, reader);
    }
  }

  lemma RetireKeeps(s: State)
    requires Inv(s) && s.c.phase.Deciding?
    ensures Inv(s.(retired := s.retired + {s.c.phase.x}, c := s.c.(phase := Reclaiming)))
  {
    hide Counted, ReaderOk, StackOk, Owned, Registered, Keeps;
    var s', x := s.(retired := s.retired + {s.c.phase.x}, c := s.c.(phase := Reclaiming)), s.c.phase.x;
    assert Pending(s.c, x) && forall id: Id :: Pending(s'.c, id) <==> Pending(s.c, id) && id != x;
    SameKept(s, s');
  }

  /** Nobody has the code that is freed. */
  lemma FreeKeeps(s: State)
    requires Inv(s) && s.c.phase.Deciding? && s.c.phase.quiet
    requires forall t: nat :: t < |s.stacks| && t != s.c.caller ==> s.c.phase.x !in s.stacks[t]
    ensures Inv(s.(freed := s.freed + {s.c.phase.x}, c := s.c.(phase := Reclaiming)))
  {
    hide Counted, Owned, Registered, Keeps, StackOk;
    var s', x := s.(freed := s.freed + {s.c.phase.x}, c := s.c.(phase := Reclaiming)), s.c.phase.x;
    assert Pending(s.c, x) && forall id: Id :: Pending(s'.c, id) <==> Pending(s.c, id) && id != x;
    forall reader | reader in s.readers ensures ReaderOk(s'.owners, s'.retired, s'.c, reader) {
      assert ReaderOk(s.owners, s.retired, s.c, reader);
    }
    FreeStacks(s, s');
    FreeLive(s);
  }

  lemma FreeLive(s: State)
    requires Listed(s) && Apart(s) && s.c.phase.Deciding?
    ensures forall id <- s.live :: id in s.owners
  {
  }

  lemma FreeStacks(s: State, s': State)
    requires StacksOk(s) && CallerOk(s) && CommitOk(s) && s.c.phase.Deciding? && s'.c == s.c.(phase := Reclaiming)
    requires s'.owners == s.owners && s'.retired == s.retired && s'.stacks == s.stacks
    requires forall t: nat :: t < |s.stacks| && t != s.c.caller ==> s.c.phase.x !in s.stacks[t]
    ensures StacksOk(s') && s.stable
  {
    assert Pending(s.c, s.c.phase.x);
    forall stack | stack in s.stacks ensures StackOk(s'.owners, s'.retired, s'.c, stack) {
      var t: nat :| t < |s.stacks| && s.stacks[t] == stack;
      assert s.c.phase.x !in stack;
      assert StackOk(s.owners, s.retired, s.c, stack);
    }
  }

  // ---------------------------------------------------------------- one thread at a time

  /** The state as far as one thread's stack matters; with a thread that does not exist, no stack does. */
  function Only(s: State, t: nat): State {
    s.(stacks := seq(|s.stacks|, u requires 0 <= u < |s.stacks| => if u == t then s.stacks[u] else {}))
  }

  /** The thread does not begin a commit from inside code that loses all its slots. */
  predicate ClearFor(s: State, e: Event, t: nat) {
    e.Begin? && e.t == t && s.stable && t < |s.stacks| ==> CallerClear(s, t, e.targets)
  }

  lemma StepKeeps(s: State, t: nat, e: Event)
    requires Inv(Only(s, t)) && ClearFor(s, e, t)
    ensures Inv(Only(Step(s, e), t))
  {
    hide Inv;
    var o := Only(s, t);
    match e
    case Register(_) => OnlySteps(s, t, e); ReaderKeeps(o, e);
    case Load(_) => OnlySteps(s, t, e); ReaderKeeps(o, e);
    case Unregister(_) => OnlySteps(s, t, e); ReaderKeeps(o, e);
    case Enter(u, _) => OnlyThread(s, t, e); ThreadKeeps(o, e);
    case Return(u, _) => OnlyThread(s, t, e); ThreadKeeps(o, e);
    case Begin(_, _) => OnlySteps(s, t, e); BeginKeeps(o, e);
    case Advance => AdvanceKeeps(s, t);
  }

  lemma OnlySteps(s: State, t: nat, e: Event)
    requires IsReaders(e) || e.Begin?
    ensures Only(Step(s, e), t) == Step(Only(s, t), e)
  {
  }

  lemma OnlyThread(s: State, t: nat, e: Event)
    requires e.Enter? || e.Return?
    ensures Only(Step(s, e), t) == if e.t == t then Step(Only(s, t), e) else Only(s, t)
  {
    assert e.t != t ==> Only(Step(s, e), t).stacks == Only(s, t).stacks;
    assert e.t == t ==> Only(Step(s, e), t).stacks == Step(Only(s, t), e).stacks;
  }

  lemma AdvanceKeeps(s: State, t: nat)
    requires Inv(Only(s, t))
    ensures Inv(Only(AdvanceCommit(s), t))
  {
    hide Inv;
    var o := Only(s, t);
    match s.c.phase
    case Open =>
    case Redirecting(i) =>
      if i < |s.c.targets| {
        RedirectKeeps(o);
        assert Only(AdvanceCommit(s), t) == Redirect(o) by { OnlyRedirects(s, t); }
      } else {
        RedirectedKeeps(o);
        assert Only(AdvanceCommit(s), t) == o.(c := s.c.(phase := Listing));
      }
    case Listing =>
      PublishKeeps(o);
      assert Only(AdvanceCommit(s), t) == AdvanceCommit(o);
    case Reclaiming =>
      PickKeeps(o);
      assert Only(AdvanceCommit(s), t) == AdvanceCommit(o);
    case Deciding(x, quiet) =>
      if quiet && forall u: nat :: u < |s.stacks| && u != s.c.caller ==> x !in s.stacks[u] {
        FreeKeeps(o);
        assert Only(AdvanceCommit(s), t) == o.(freed := s.freed + {x}, c := s.c.(phase := Reclaiming));
      } else {
        RetireKeeps(o);
        assert Only(AdvanceCommit(s), t) == o.(retired := s.retired + {x}, c := s.c.(phase := Reclaiming));
      }
  }

  lemma OnlyRedirects(s: State, t: nat)
    requires s.c.phase.Redirecting? && s.c.phase.i < |s.c.targets|
    ensures Only(Redirect(s), t) == Redirect(Only(s, t))
  {
  }

  lemma RedirectedKeeps(s: State)
    requires Inv(s) && s.c.phase.Redirecting?
    ensures Inv(s.(c := s.c.(phase := Listing)))
  {
    hide Counted, ReaderOk, StackOk, Owned, Registered, Keeps;
    var s' := s.(c := s.c.(phase := Listing));
    assert forall id: Id :: Pending(s'.c, id) <==> Pending(s.c, id);
    SameKept(s, s');
  }

  // ---------------------------------------------------------------- whole runs

  /** None of the thread's own commits begins inside code that loses all its slots. */
  ghost predicate AllClearFor(s: State, events: seq<Event>, t: nat) {
    forall i: nat :: i < |events| ==> ClearFor(Run(s, events[..i]), events[i], t)
  }

  /** No patch yet, nobody reading, no commit in progress. */
  ghost predicate Initial(s: State) {
    && (forall k :: 0 <= k < |s.owners| ==> s.owners[k] == -1) && s.refs == [] && s.live == {} && s.retired == {} && s.freed == {}
    && s.c.phase.Open? && s.c.superseded == [] && s.count == 0
    && (forall reader <- s.readers :: reader == Reader(false, {})) && (forall stack <- s.stacks :: stack == {})
  }

  lemma {:induction false} RunKeeps(s: State, t: nat, events: seq<Event>)
    requires Inv(Only(s, t)) && AllClearFor(s, events, t)
    ensures Inv(Only(Run(s, events), t))
    decreases |events|
  {
    hide Inv, ClearFor, Step, Only;
    if events != [] {
      var last := |events| - 1;
      var init := events[..last];
      assert ClearFor(Run(s, events[..last]), events[last], t);
      forall i: nat | i < |init| ensures ClearFor(Run(s, init[..i]), init[i], t) {
        assert init[..i] == events[..i];
      }
      RunKeeps(s, t, init);
      StepKeeps(Run(s, init), t, events[last]);
    }
  }

  lemma {:induction false} InitialReaders(readers: seq<Reader>)
    requires forall reader <- readers :: reader == Reader(false, {})
    ensures Registered(readers) == 0
    decreases |readers|
  {
    if readers != [] {
      var init := readers[..|readers| - 1];
      forall reader | reader in init ensures reader == Reader(false, {}) {
        assert reader in readers;
      }
      InitialReaders(init);
      assert readers[|readers| - 1] in readers;
    }
  }

  lemma InitialInv(s: State)
    requires Initial(s)
    ensures Inv(s)
  {
    InitialReaders(s.readers);
    assert Owned(s.owners) == {};
  }

  lemma ThreadsStay(s: State, e: Event)
    ensures |Step(s, e).stacks| == |s.stacks|
  {
  }

  lemma {:induction false} ThreadsStayOver(s: State, events: seq<Event>)
    ensures |Run(s, events).stacks| == |s.stacks|
    decreases |events|
  {
    hide Step;
    if events != [] {
      ThreadsStayOver(s, events[..|events| - 1]);
      ThreadsStay(Run(s, events[..|events| - 1]), events[|events| - 1]);
    }
  }

  /** A thread that does not exist begins no commit. */
  lemma NoSuchThread(s: State, events: seq<Event>)
    ensures |Run(s, events).stacks| == |s.stacks| && AllClearFor(s, events, |s.stacks|)
  {
    hide Run;
    ThreadsStayOver(s, events);
    forall i: nat | i < |events| ensures ClearFor(Run(s, events[..i]), events[i], |s.stacks|) {
      ThreadsStayOver(s, events[..i]);
    }
  }

  lemma RunInv(s: State, events: seq<Event>, t: nat)
    requires Initial(s) && AllClearFor(s, events, t)
    ensures Inv(Only(Run(s, events), t))
  {
    hide Run, Inv;
    forall stack | stack in Only(s, t).stacks ensures stack == {} {
      assert forall u :: 0 <= u < |s.stacks| ==> s.stacks[u] in s.stacks;
    }
    InitialInv(Only(s, t));
    RunKeeps(s, t, events);
  }

  /**
   In every reachable state freed code is in no slot, on neither list and in no reader's hands, and every count is the
   number of slots, wherever commits are called from.
   */
  lemma FreedCodeIsUnreachable(s: State, events: seq<Event>)
    requires Initial(s)
    ensures var r := Run(s, events);
            forall id <- r.freed ::
              id !in r.owners && id !in r.retired && id !in r.live && forall reader <- r.readers :: id !in reader.held
    ensures forall id :: 0 <= id < |Run(s, events).refs| ==> Run(s, events).refs[id] == Count(Run(s, events).owners, id)
  {
    hide Run;
    NoSuchThread(s, events);
    RunInv(s, events, |s.stacks|);
    FreedIsNotKept(Only(Run(s, events), |s.stacks|));
  }

  lemma FreedIsNotKept(r: State)
    requires Inv(r)
    ensures forall id <- r.freed ::
              && id !in r.owners && id !in r.retired && id !in r.live
              && (forall reader <- r.readers :: id !in reader.held) && (forall stack <- r.stacks :: id !in stack)
    ensures forall id :: 0 <= id < |r.refs| ==> r.refs[id] == Count(r.owners, id)
  {
    forall id | id in r.freed ensures !Kept(r.owners, r.retired, r.c, id) {
    }
    assert forall reader <- r.readers :: ReaderOk(r.owners, r.retired, r.c, reader);
    assert forall stack <- r.stacks :: StackOk(r.owners, r.retired, r.c, stack);
  }

  /**
   A thread never has freed code on its stack if it begins no commit from inside code that loses all its slots, whatever
   the other threads do: no commit frees code that a stack other than its caller's has.
   */
  lemma StacksKeepTheirCode(s: State, events: seq<Event>, t: nat)
    requires Initial(s) && t < |s.stacks| && AllClearFor(s, events, t)
    ensures |Run(s, events).stacks| == |s.stacks| && Run(s, events).stacks[t] !! Run(s, events).freed
  {
    hide Run;
    NoSuchThread(s, events);
    RunInv(s, events, t);
    var r := Only(Run(s, events), t);
    FreedIsNotKept(r);
    assert r.stacks[t] in r.stacks;
  }

  /** The list that a commit publishes is exactly the owned code, and at most one longer than the list before. */
  lemma PublishedList(s: State, events: seq<Event>)
    requires Initial(s) && Run(s, events).c.phase.Listing?
    ensures var r := Run(s, events);
            var live := AdvanceCommit(r).live;
            |live| <= |r.live| + 1 && forall id: Id :: id in live <==> id in r.owners
  {
    hide Run;
    NoSuchThread(s, events);
    RunInv(s, events, |s.stacks|);
    var r := Run(s, events);
    assert Listed(Only(r, |s.stacks|));
    var live := AdvanceCommit(r).live;
    Fewer(live, r.live, r.c.alloc);
    forall id: Id | id in r.owners ensures id in live {
      var k: nat :| k < |r.owners| && r.owners[k] == id;
      assert r.owners[k] >= 0 && r.owners[k] as nat == id;
    }
  }

  lemma Fewer(a: set<Id>, b: set<Id>, x: Id)
    requires a <= b + {x}
    ensures |a| <= |b| + 1
  {
    Subset(a - {x}, b);
    assert a <= (a - {x}) + {x};
    if x in a {
      assert |a - {x}| == |a| - 1;
    } else {
      assert a - {x} == a;
    }
  }

  lemma {:induction false} Subset(a: set<Id>, b: set<Id>)
    requires a <= b
    ensures |a| <= |b|
  {
    assert b == a + (b - a);
  }

  // ---------------------------------------------------------------- exactly what a commit frees

  /** The code owned slots, and all of them are redirected. */
  predicate LosesAll(was: seq<int>, targets: seq<nat>, id: Id) {
    id in was && !Keeps(was, targets, id)
  }

  /** No stack but the caller's has the code. */
  predicate Clear(stacks: seq<set<Id>>, caller: nat, id: Id) {
    forall t: nat :: t < |stacks| && t != caller ==> id !in stacks[t]
  }

  /** This step reads the count of readers for the code, and finds it zero. */
  predicate ReadsZero(s: State, e: Event, id: Id) {
    e.Advance? && s.c.phase.Reclaiming? && s.c.superseded != [] && s.c.superseded[0] == id && s.count == 0
  }

  ghost predicate HasReadZero(s: State, events: seq<Event>, id: Id) {
    exists i: nat :: i < |events| && ReadsZero(Run(s, events[..i]), events[i], id)
  }

  /** The commit is under way until the last event. */
  ghost predicate UnderWay(s: State, events: seq<Event>) {
    forall i: nat :: i < |events| ==> !Run(s, events[..i]).c.phase.Open?
  }

  /** Slots redirected so far point to the new code, the others where they pointed. */
  ghost predicate Redirected(s: State, was: seq<int>) {
    && s.c.phase.Redirecting? && s.c.phase.i <= |s.c.targets| && |s.owners| == |was|
    && forall k: nat :: k < |was| ==> s.owners[k] == if k in s.c.targets[..s.c.phase.i] then s.c.alloc else was[k]
  }

  lemma RedirectedNext(s: State, was: seq<int>)
    requires Redirected(s, was) && s.c.phase.i < |s.c.targets| && s.c.alloc < |s.refs|
    ensures Redirected(Redirect(s), was)
  {
    var i := s.c.phase.i;
    assert s.c.targets[..i + 1] == s.c.targets[..i] + [s.c.targets[i]];
  }

  lemma RedirectedAll(s: State, was: seq<int>, id: Id)
    requires Redirected(s, was) && s.c.phase.i == |s.c.targets| && id != s.c.alloc
    ensures id in s.owners <==> Keeps(was, s.c.targets, id)
  {
    assert s.c.targets[..s.c.phase.i] == s.c.targets;
    if Keeps(was, s.c.targets, id) {
      var k: nat :| k < |was| && was[k] == id && k !in s.c.targets;
      assert s.owners[k] == id;
    }
    if id in s.owners {
      var k: nat :| k < |s.owners| && s.owners[k] == id;
      assert was[k] == id && k !in s.c.targets;
    }
  }

  lemma RedirectSupersedes(s: State, was: seq<int>, id: Id)
    requires Counted(s.owners, s.refs) && Redirected(s, was) && s.stable && s.c.alloc < |s.refs| && id != s.c.alloc
    requires s.c.phase.i < |s.c.targets|
    requires id in s.c.superseded <==> id in was && id !in s.owners
    ensures id in Redirect(s).c.superseded <==> id in was && id !in Redirect(s).owners
    ensures Once(s.c.superseded, id) ==> Once(Redirect(s).c.superseded, id)
  {
    RedirectMoves(s);
    var slot := s.c.targets[s.c.phase.i];
    if slot < |s.owners| {
      UpdateMembers(s.owners, slot, s.c.alloc);
      assert s.owners[slot] in s.owners;
      assert s.owners[slot] == s.c.alloc || (s.owners[slot] == was[slot] && was[slot] in was);
    }
  }

  ghost predicate Once(list: seq<Id>, id: Id) {
    forall i :: 0 < i < |list| && list[i] == id ==> id !in list[..i]
  }

  /** Decided: freed exactly if it lost its slots, no reader was counted and no other stack has it. */
  ghost predicate Decided(r: State, was: seq<int>, id: Id, read: bool) {
    id in r.freed <==> LosesAll(was, r.c.targets, id) && read && Clear(r.stacks, r.c.caller, id)
  }

  /** Where one piece of code stands while the commit is under way; `read` says whether its count was read as zero. */
  ghost predicate Standing(r: State, was: seq<int>, id: Id, read: bool) {
    match r.c.phase
    case Redirecting(_) =>
      Redirected(r, was) && (id in r.c.superseded <==> id in was && id !in r.owners) && !read && id !in r.freed
    case Listing => (id in r.c.superseded <==> LosesAll(was, r.c.targets, id)) && !read && id !in r.freed
    case Deciding(x, quiet) =>
      if x == id then LosesAll(was, r.c.targets, id) && quiet == read && id !in r.freed && id !in r.c.superseded
      else if id in r.c.superseded then LosesAll(was, r.c.targets, id) && !read && id !in r.freed
      else Decided(r, was, id, read)
    case _ =>
      if id in r.c.superseded then LosesAll(was, r.c.targets, id) && !read && id !in r.freed
      else Decided(r, was, id, read)
  }

  ghost predicate Track(r: State, b: State, was: seq<int>, id: Id, read: bool) {
    && r.stable && r.stacks == b.stacks && r.c.caller == b.c.caller && r.c.targets == b.c.targets && r.c.alloc == b.c.alloc
    && Counted(r.owners, r.refs) && r.c.alloc < |r.refs| && id != r.c.alloc
    && Once(r.c.superseded, id) && (r.c.phase.Open? ==> r.c.superseded == [])
    && Standing(r, was, id, read)
  }

  lemma TrackStep(r: State, b: State, was: seq<int>, id: Id, read: bool, e: Event)
    requires Track(r, b, was, id, read) && !r.c.phase.Open?
    ensures Track(Step(r, e), b, was, id, read || ReadsZero(r, e, id))
  {
    hide Counted, Keeps, LosesAll, Clear, Once;
    if e.Advance? {
      if r.c.phase.Redirecting? {
        TrackRedirect(r, b, was, id);
      } else {
        TrackReclaim(r, b, was, id, read);
      }
    }
  }

  lemma TrackRedirect(r: State, b: State, was: seq<int>, id: Id)
    requires Track(r, b, was, id, false) && r.c.phase.Redirecting?
    ensures Track(AdvanceCommit(r), b, was, id, false)
  {
    hide Counted, Keeps, Clear, Once;
    if r.c.phase.i < |r.c.targets| {
      RedirectCounted(r);
      RedirectMoves(r);
      RedirectedNext(r, was);
      RedirectSupersedes(r, was, id);
    } else {
      RedirectedAll(r, was, id);
    }
  }

  lemma TrackReclaim(r: State, b: State, was: seq<int>, id: Id, read: bool)
    requires Track(r, b, was, id, read) && !r.c.phase.Open? && !r.c.phase.Redirecting?
    ensures Track(AdvanceCommit(r), b, was, id, read || ReadsZero(r, Advance, id))
  {
    hide Counted, Redirected, Keeps, LosesAll;
    if r.c.phase.Reclaiming? && r.c.superseded != [] {
      TakesFirst(r.c.superseded, id);
    }
  }

  lemma TakesFirst(list: seq<Id>, id: Id)
    requires list != [] && Once(list, id)
    ensures Once(list[1..], id) && (id in list <==> id == list[0] || id in list[1..]) && (id == list[0] ==> id !in list[1..])
  {
    var tail := list[1..];
    assert list == [list[0]] + tail;
    forall i | 0 < i < |tail| && tail[i] == id ensures id !in tail[..i] {
      assert list[i + 1] == id && forall x <- tail[..i] :: x in list[..i + 1];
    }
    forall i | 0 <= i < |tail| && tail[i] == id ensures list[0] != id {
      assert list[i + 1] == id && list[0] in list[..i + 1];
    }
  }

  lemma {:induction false} TrackRun(b: State, was: seq<int>, id: Id, events: seq<Event>)
    requires Track(b, b, was, id, false) && UnderWay(b, events)
    ensures Track(Run(b, events), b, was, id, HasReadZero(b, events, id))
    decreases |events|
  {
    hide Track, Step, ReadsZero;
    if events != [] {
      var last := |events| - 1;
      var init := events[..last];
      forall i: nat | i < |init| ensures !Run(b, init[..i]).c.phase.Open? {
        assert init[..i] == events[..i];
      }
      TrackRun(b, was, id, init);
      assert !Run(b, events[..last]).c.phase.Open?;
      TrackStep(Run(b, init), b, was, id, HasReadZero(b, init, id), events[last]);
      ReadZeroGrows(b, events, id);
    }
  }

  lemma ReadZeroGrows(b: State, events: seq<Event>, id: Id)
    requires events != []
    ensures var init := events[..|events| - 1];
            HasReadZero(b, events, id) <==> HasReadZero(b, init, id) || ReadsZero(Run(b, init), events[|events| - 1], id)
  {
    hide Run, ReadsZero;
    var last := |events| - 1;
    var init := events[..last];
    assert forall i: nat :: i < last ==> init[..i] == events[..i] && init[i] == events[i];
    if ReadsZero(Run(b, init), events[last], id) {
      assert last < |events| && ReadsZero(Run(b, events[..last]), events[last], id);
    }
    if HasReadZero(b, init, id) {
      var i: nat :| i < |init| && ReadsZero(Run(b, init[..i]), init[i], id);
      assert i < |events| && ReadsZero(Run(b, events[..i]), events[i], id);
    }
    if HasReadZero(b, events, id) {
      var i: nat :| i < |events| && ReadsZero(Run(b, events[..i]), events[i], id);
      assert i < last ==> ReadsZero(Run(b, init[..i]), init[i], id);
    }
  }

  /**
   However readers interleave with it, a commit frees exactly the code whose slots were all among its targets, that no
   other thread's stack has, and for which it read a count of no readers. The caller's own stack makes no difference.
   */
  lemma CommitFreesExactly(s: State, t: nat, targets: seq<nat>, events: seq<Event>, id: Id)
    requires Counted(s.owners, s.refs) && s.c.phase.Open? && s.stable && t < |s.stacks| && id != |s.refs| && id !in s.freed
    requires var b := Step(s, Begin(t, targets)); UnderWay(b, events) && Run(b, events).c.phase.Open?
    ensures var b := Step(s, Begin(t, targets));
            && Run(b, events).stacks == s.stacks
            && (id in Run(b, events).freed <==>
                  LosesAll(s.owners, targets, id) && Clear(s.stacks, t, id) && HasReadZero(b, events, id))
  {
    hide Run, Keeps, HasReadZero, UnderWay, Clear;
    var b := Step(s, Begin(t, targets));
    BeginCounted(s);
    assert Redirected(b, s.owners);
    assert Track(b, b, s.owners, id, false);
    TrackRun(b, s.owners, id, events);
  }

  // ---------------------------------------------------------------- a commit ends

  function PhaseLeft(p: Phase): (n: nat) {
    match p
    case Open => 0
    case Reclaiming => 1
    case Deciding(_, _) => 1
    case Listing => 2
    case Redirecting(_) => 3
  }

  /** Slots to redirect, then superseded code to dispose of. */
  function WorkLeft(c: Commit): (n: nat) {
    match c.phase
    case Redirecting(i) => if i < |c.targets| then |c.targets| - i else 0
    case Reclaiming => 2 * |c.superseded|
    case Deciding(_, _) => 2 * |c.superseded| + 1
    case _ => 0
  }

  lemma CommitAdvances(s: State)
    requires !s.c.phase.Open?
    ensures var c := AdvanceCommit(s).c;
            PhaseLeft(c.phase) < PhaseLeft(s.c.phase) || (PhaseLeft(c.phase) == PhaseLeft(s.c.phase) && WorkLeft(c) < WorkLeft(s.c))
  {
  }

  lemma {:induction false} RunMore(s: State, first: seq<Event>, rest: seq<Event>)
    ensures Run(s, first + rest) == Run(Run(s, first), rest)
    decreases |rest|
  {
    hide Step;
    if rest == [] {
      assert first + rest == first;
    } else {
      RunMore(s, first, rest[..|rest| - 1]);
      assert (first + rest)[..|first| + |rest| - 1] == first + rest[..|rest| - 1];
    }
  }

  /** A commit waits for nobody: whatever readers hold, its own steps bring it to its end. */
  lemma {:induction false} CommitEnds(s: State) returns (events: seq<Event>)
    ensures Run(s, events).c.phase.Open? && forall e <- events :: e == Advance
    decreases PhaseLeft(s.c.phase), WorkLeft(s.c)
  {
    hide AdvanceCommit, PhaseLeft, WorkLeft;
    events := [];
    if !s.c.phase.Open? {
      CommitAdvances(s);
      var rest := CommitEnds(AdvanceCommit(s));
      assert [Advance][..0] == [];
      assert Run(s, [Advance]) == AdvanceCommit(s);
      RunMore(s, [Advance], rest);
      events := [Advance] + rest;
    }
  }

  // ---------------------------------------------------------------- why the caller matters

  /** A thread has code on its stack that is freed. */
  ghost predicate LosesCode(s: State) {
    exists t: nat, id: Id :: t < |s.stacks| && id in s.stacks[t] && id in s.freed
  }

  const ONE_SLOT: State := State(true, [-1], [], {}, {}, {}, Commit(Open, 0, 0, [], []), 0, [], [{}])

  lemma Then(s: State, events: seq<Event>, r: State, e: Event) returns (longer: seq<Event>)
    requires Run(s, events) == r
    ensures Run(s, longer) == Step(r, e)
  {
    hide Step;
    longer := events + [e];
    assert longer[..|events|] == events;
  }

  function FirstPatch(): State {
    ONE_SLOT.(owners := [0], refs := [1], live := {0}, c := Commit(Open, 0, 0, [0], []))
  }

  lemma CommitsFirst() returns (events: seq<Event>)
    ensures Run(ONE_SLOT, events) == FirstPatch()
  {
    var c := Commit(Redirecting(0), 0, 0, [0], []);
    var s1 := ONE_SLOT.(refs := [0], c := c);
    var s2 := s1.(owners := [0], refs := [1], c := c.(phase := Redirecting(1)));
    events := Then(ONE_SLOT, [], ONE_SLOT, Begin(0, [0]));
    assert Step(ONE_SLOT, Begin(0, [0])) == s1;
    events := Then(ONE_SLOT, events, s1, Advance);
    assert Step(s1, Advance) == s2;
    events := Then(ONE_SLOT, events, s2, Advance);
    events := Then(ONE_SLOT, events, s2.(c := c.(phase := Listing)), Advance);
    assert Owned([0]) == {0} by { assert [0][0] == 0; }
    events := Then(ONE_SLOT, events, s2.(live := {0}, c := c.(phase := Reclaiming)), Advance);
  }

  lemma EntersFirst()
    ensures Step(FirstPatch(), Enter(0, 0)) == FirstPatch().(stacks := [{0}])
  {
    var s := FirstPatch();
    assert s.owners[0] == 0 && s.stacks[0] + {0} == {0};
    assert s.stacks[0 := s.stacks[0] + {0}] == [{0}];
  }

  /** A thread runs in the only function of an earlier patch and commits a replacement of it. */
  lemma ACallerLosesItsCode() returns (events: seq<Event>)
    ensures Initial(ONE_SLOT) && LosesCode(Run(ONE_SLOT, events))
  {
    hide Step, Run;
    var first := CommitsFirst();
    EntersFirst();
    var entered := Then(ONE_SLOT, first, FirstPatch(), Enter(0, 0));
    events := CommitsSecond(entered);
    assert 0 in SecondPatch(Reclaiming, []).stacks[0];
  }

  function SecondPatch(phase: Phase, superseded: seq<Id>): State {
    FirstPatch().(stacks := [{0}], owners := [1], refs := [0, 1], c := Commit(phase, 0, 1, [0], superseded))
  }

  lemma CommitsSecond(before: seq<Event>) returns (events: seq<Event>)
    requires Run(ONE_SLOT, before) == FirstPatch().(stacks := [{0}])
    ensures Run(ONE_SLOT, events) == SecondPatch(Reclaiming, []).(live := {1}, freed := {0})
  {
    var inside := FirstPatch().(stacks := [{0}]);
    var begun := inside.(refs := [1, 0], c := Commit(Redirecting(0), 0, 1, [0], []));
    events := Then(ONE_SLOT, before, inside, Begin(0, [0]));
    assert Step(inside, Begin(0, [0])) == begun by { assert [1] + [0] == [1, 0]; }
    events := Then(ONE_SLOT, events, begun, Advance);
    RedirectsSlot();
    events := Then(ONE_SLOT, events, SecondPatch(Redirecting(1), [0]), Advance);
    events := Then(ONE_SLOT, events, SecondPatch(Listing, [0]), Advance);
    assert Owned([1]) == {1} by { assert [1][0] == 1; }
    events := Then(ONE_SLOT, events, SecondPatch(Reclaiming, [0]).(live := {1}), Advance);
    assert [0][1..] == [];
    events := Then(ONE_SLOT, events, SecondPatch(Deciding(0, true), []).(live := {1}), Advance);
  }

  lemma RedirectsSlot()
    ensures Step(FirstPatch().(stacks := [{0}], refs := [1, 0], c := Commit(Redirecting(0), 0, 1, [0], [])), Advance)
            == SecondPatch(Redirecting(1), [0])
  {
    assert [1, 0][1 := 1][0 := 0] == [0, 1] && [0] + [] == [0] && [0][0 := 1] == [1];
  }
}
