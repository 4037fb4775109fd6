/**
 The queue of written pages that mutators push to without a lock. A page's flag is exchanged first, so one thread at a
 time owns a page's link; the push itself is a compare-and-swap of the head. The collector takes the whole queue as its
 batch and pops it, with the world stopped and no push in flight.

 Every atomic access is a step of its own, and threads interleave in any order.
 */
module DirtyQueue {
  import opened Basics

  type Page = nat

  /** Where a thread is in gc_dirty_enqueue_source. */
  datatype Pc =
    | Idle
    | Flagging(p: Page)           // has written to the page, about to exchange its flag
    | Counting(p: Page)           // owns the page
    | Loading(p: Page)
    | Linking(p: Page, seen: int)
    | Swapping(p: Page, seen: int)

  /** `flag` and `next` are fields of the pages; -1 ends a list. `failed` records the fatal error of a capture. */
  datatype Queue = Queue(flag: seq<bool>, next: seq<int>, head: int, batch: int, count: int, drained: bool, failed: bool)

  /** What the queue stands for, and which pages have been written to since they were last popped. */
  datatype Meaning = Meaning(incoming: seq<Page>, captured: seq<Page>, written: set<Page>)

  datatype State = State(q: Queue, pcs: seq<Pc>, m: Meaning)

  datatype Event = Write(t: nat, p: Page) | Continue(t: nat) | Capture | Pop

  // ---------------------------------------------------------------- the steps

  function StepPc(q: Queue, pc: Pc): (Queue, Pc)
    requires |q.flag| == |q.next| && (!pc.Idle? ==> pc.p < |q.flag|)
  {
    match pc
    case Idle => (q, Idle)
    case Flagging(p) => (q.(flag := q.flag[p := true]), if q.flag[p] then Idle else Counting(p))
    case Counting(p) => (q.(count := q.count + 1), Loading(p))
    case Loading(p) => (q, Linking(p, q.head))
    case Linking(p, seen) => (q.(next := q.next[p := seen]), Swapping(p, seen))
    case Swapping(p, seen) => if q.head == seen then (q.(head := p), Idle) else (q, Linking(p, q.head))
  }

  predicate Quiet(pcs: seq<Pc>) {
    forall pc <- pcs :: pc.Idle?
  }

  /** gc_dirty_capture_done. The collector calls it when its batch has run out. */
  function CaptureQueue(q: Queue): Queue {
    if q.batch != -1 then q.(failed := true) else q.(batch := q.head, head := -1, drained := false)
  }

  /** gc_dirty_pop. */
  function PopQueue(q: Queue): Queue
    requires |q.flag| == |q.next| && -1 <= q.batch < |q.next|
  {
    if q.batch == -1 then q.(drained := true)
    else q.(batch := q.next[q.batch], count := q.count - 1, next := q.next[q.batch := -1], flag := q.flag[q.batch := false])
  }

  function Step(s: State, e: Event): State
    requires Sized(s)
  {
    match e
    case Write(t, p) =>
      if t < |s.pcs| && s.pcs[t].Idle? && p < |s.q.flag| then
        s.(pcs := s.pcs[t := Flagging(p)], m := s.m.(written := s.m.written + {p}))
      else s
    case Continue(t) =>
      if t < |s.pcs| then
        var r := StepPc(s.q, s.pcs[t]);
        var pushed := s.pcs[t].Swapping? && r.1.Idle?;
        State(r.0, s.pcs[t := r.1], if pushed then s.m.(incoming := [s.pcs[t].p] + s.m.incoming) else s.m)
      else s
    case Capture =>
      if Quiet(s.pcs) && s.q.drained then
        s.(q := CaptureQueue(s.q), m := s.m.(incoming := [], captured := s.m.captured + s.m.incoming))
      else s
    case Pop =>
      if Quiet(s.pcs) then
        State(PopQueue(s.q), s.pcs,
              if s.q.batch == -1 || s.m.captured == [] then s.m
              else s.m.(captured := s.m.captured[1..], written := s.m.written - {s.m.captured[0]}))
      else s
  }

  ghost predicate Sized(s: State) {
    && |s.q.flag| == |s.q.next| && -1 <= s.q.batch < |s.q.next|
    && forall pc <- s.pcs :: !pc.Idle? ==> pc.p < |s.q.flag|
  }

  // ---------------------------------------------------------------- the invariant

  ghost predicate LinkAt(next: seq<int>, list: seq<Page>, j: int) {
    0 <= j < |list| && list[j] < |next| && next[list[j]] == At(list, j + 1)
  }

  /** The links lead through exactly this list. */
  ghost predicate Chain(next: seq<int>, head: int, list: seq<Page>) {
    head == At(list, 0) && forall j :: 0 <= j < |list| ==> LinkAt(next, list, j)
  }

  /** Owns its page: has set the flag and not yet put the page in the queue. */
  predicate Holds(pc: Pc) {
    !pc.Idle? && !pc.Flagging?
  }

  ghost predicate Owned(pcs: seq<Pc>, p: Page) {
    exists t: nat :: t < |pcs| && Holds(pcs[t]) && pcs[t].p == p
  }

  /** A page is flagged when it is in one of the lists or owned by a thread, and never two of these. */
  ghost predicate Placed(flag: seq<bool>, pcs: seq<Pc>, all: seq<Page>) {
    && Distinct(all)
    && (forall p <- all :: p < |flag| && flag[p] && !Owned(pcs, p))
    && (forall p: Page :: p < |flag| && flag[p] ==> p in all || Owned(pcs, p))
    && (forall t: nat :: t < |pcs| && Holds(pcs[t]) ==> pcs[t].p < |flag| && flag[pcs[t].p])
    && (forall t: nat, u: nat :: t < u < |pcs| && Holds(pcs[t]) && Holds(pcs[u]) ==> pcs[t].p != pcs[u].p)
  }

  /** Threads that have counted their page but not put it in the queue. */
  function Counted(pcs: seq<Pc>): nat {
    if pcs == [] then 0
    else
      var last := pcs[|pcs| - 1];
      Counted(pcs[..|pcs| - 1]) + if last.Loading? || last.Linking? || last.Swapping? then 1 else 0
  }

  ghost predicate LinksOk(q: Queue, pcs: seq<Pc>, m: Meaning) {
    && Chain(q.next, q.head, m.incoming) && Chain(q.next, q.batch, m.captured)
    && forall t: nat :: t < |pcs| && pcs[t].Swapping? ==> pcs[t].p < |q.next| && q.next[pcs[t].p] == pcs[t].seen
  }

  /** A write is remembered by the flag, or the thread that made it is about to set the flag. */
  ghost predicate Remembered(flag: seq<bool>, pcs: seq<Pc>, written: set<Page>) {
    forall p <- written :: p < |flag| && (flag[p] || exists t: nat :: t < |pcs| && pcs[t] == Flagging(p))
  }

  ghost predicate Inv(s: State) {
    && Sized(s) && !s.q.failed && (s.q.drained ==> s.m.captured == [])
    && Placed(s.q.flag, s.pcs, s.m.incoming + s.m.captured)
    && s.q.count == |s.m.incoming| + |s.m.captured| + Counted(s.pcs)
    && LinksOk(s.q, s.pcs, s.m)
    && Remembered(s.q.flag, s.pcs, s.m.written)
  }

  lemma {:induction false} CountedUpdate(pcs: seq<Pc>, t: nat, pc: Pc)
    requires t < |pcs|
    ensures Counted(pcs[t := pc]) == Counted(pcs) - Counted([pcs[t]]) + Counted([pc])
    decreases |pcs|
  {
    var init, last := pcs[..|pcs| - 1], |pcs| - 1;
    assert [pc][..0] == [] && [pcs[t]][..0] == [];
    if t == last {
      assert pcs[t := pc][..last] == init;
    } else {
      CountedUpdate(init, t, pc);
      assert pcs[t := pc][..last] == init[t := pc];
    }
  }

  lemma {:induction false} QuietCounted(pcs: seq<Pc>)
    requires Quiet(pcs)
    ensures Counted(pcs) == 0
    decreases |pcs|
  {
    if pcs != [] {
      var init := pcs[..|pcs| - 1];
      forall pc | pc in init ensures pc.Idle? { assert pc in pcs; }
      QuietCounted(init);
      assert pcs[|pcs| - 1] in pcs;
    }
  }

  /** With no push in flight a page is in the lists, once, exactly when its flag is set, and no write is forgotten. */
  lemma QuietMeaning(s: State)
    requires Inv(s) && Quiet(s.pcs)
    ensures Distinct(s.m.incoming + s.m.captured)
    ensures forall p: Page :: p < |s.q.flag| ==> (s.q.flag[p] <==> p in s.m.incoming + s.m.captured)
    ensures s.q.count == |s.m.incoming| + |s.m.captured|
    ensures forall p <- s.m.written :: p in s.m.incoming + s.m.captured
  {
    QuietCounted(s.pcs);
    assert forall t: nat :: t < |s.pcs| ==> s.pcs[t] in s.pcs;
  }

  // ---------------------------------------------------------------- ownership

  lemma OwnedAfter(pcs: seq<Pc>, pcs': seq<Pc>, t: nat, pc: Pc, p: Page)
    requires t < |pcs| && pcs' == pcs[t := pc]
    requires forall u: nat :: u < |pcs| && u != t && Holds(pcs[u]) && Holds(pcs[t]) ==> pcs[u].p != pcs[t].p
    ensures Owned(pcs', p) <==> (Owned(pcs, p) && !(Holds(pcs[t]) && pcs[t].p == p)) || (Holds(pc) && pc.p == p)
  {
    assert pcs'[t] == pc;
    if Owned(pcs', p) {
      var u: nat :| u < |pcs'| && Holds(pcs'[u]) && pcs'[u].p == p;
      assert u != t ==> Holds(pcs[u]) && pcs[u].p == p;
    }
    if Owned(pcs, p) {
      var u: nat :| u < |pcs| && Holds(pcs[u]) && pcs[u].p == p;
      assert u != t ==> Holds(pcs'[u]) && pcs'[u].p == p;
    }
  }

  /** A step that neither takes nor gives up a page. */
  lemma PlacedSame(flag: seq<bool>, pcs: seq<Pc>, all: seq<Page>, t: nat, pc: Pc)
    requires Placed(flag, pcs, all) && t < |pcs| && Holds(pc) == Holds(pcs[t]) && (Holds(pc) ==> pc.p == pcs[t].p)
    ensures Placed(flag, pcs[t := pc], all)
  {
    hide Owned, Distinct, Holds;
    var pcs' := pcs[t := pc];
    forall p: Page ensures Owned(pcs', p) <==> Owned(pcs, p) {
      OwnedAfter(pcs, pcs', t, pc, p);
      HoldsOwned(pcs, t);
    }
  }

  lemma HoldsOwned(pcs: seq<Pc>, t: nat)
    requires t < |pcs|
    ensures Holds(pcs[t]) ==> Owned(pcs, pcs[t].p)
  {
  }

  /** Setting the flag makes the thread the page's owner. */
  lemma PlacedClaim(flag: seq<bool>, pcs: seq<Pc>, all: seq<Page>, t: nat, p: Page)
    requires Placed(flag, pcs, all) && t < |pcs| && p < |flag| && !flag[p] && pcs[t] == Flagging(p)
    ensures Placed(flag[p := true], pcs[t := Counting(p)], all)
  {
    hide Owned, Distinct;
    var pcs', flag' := pcs[t := Counting(p)], flag[p := true];
    forall x: Page ensures Owned(pcs', x) <==> Owned(pcs, x) || x == p {
      OwnedAfter(pcs, pcs', t, Counting(p), x);
    }
    assert forall u: nat :: u < |pcs| && Holds(pcs[u]) ==> pcs[u].p != p;
    assert forall x: Page :: x < |flag| ==> flag'[x] == (flag[x] || x == p);
    assert p !in all;
  }

  /** The swap puts the owned page in front. */
  lemma PlacedPush(flag: seq<bool>, pcs: seq<Pc>, all: seq<Page>, t: nat)
    requires Placed(flag, pcs, all) && t < |pcs| && pcs[t].Swapping?
    ensures Placed(flag, pcs[t := Idle], [pcs[t].p] + all)
  {
    hide Owned;
    var p, pcs', all' := pcs[t].p, pcs[t := Idle], [pcs[t].p] + all;
    HoldsOwned(pcs, t);
    assert p !in all;
    forall x: Page ensures Owned(pcs', x) <==> Owned(pcs, x) && x != p {
      OwnedAfter(pcs, pcs', t, Idle, x);
    }
    forall i, j | 0 <= i < j < |all'| ensures all'[i] != all'[j] {
      assert all'[j] == all[j - 1] && (i > 0 ==> all'[i] == all[i - 1]);
    }
  }

  lemma PlacedPop(flag: seq<bool>, pcs: seq<Pc>, incoming: seq<Page>, captured: seq<Page>)
    requires Placed(flag, pcs, incoming + captured) && captured != [] && captured[0] < |flag| && Quiet(pcs)
    ensures Placed(flag[captured[0] := false], pcs, incoming + captured[1..])
  {
    var all, fewer, p := incoming + captured, incoming + captured[1..], captured[0];
    var flag' := flag[p := false];
    Without(incoming, captured);
    forall t: nat | t < |pcs| ensures !Holds(pcs[t]) {
      assert pcs[t] in pcs;
    }
    assert forall x: Page :: x < |flag| ==> flag'[x] == (flag[x] && x != p);
    forall x: Page | x < |flag| && flag'[x] ensures x in fewer {
      assert x in all;
    }
  }

  lemma Without(incoming: seq<Page>, captured: seq<Page>)
    requires Distinct(incoming + captured) && captured != []
    ensures Distinct(incoming + captured[1..])
    ensures forall p :: p in incoming + captured[1..] <==> p in incoming + captured && p != captured[0]
  {
    var all, fewer, k := incoming + captured, incoming + captured[1..], |incoming|;
    assert all[k] == captured[0];
    forall i | 0 <= i < |fewer| ensures fewer[i] == all[if i < k then i else i + 1] && fewer[i] != captured[0] {
    }
    forall p | p in all && p != captured[0] ensures p in fewer {
      var i :| 0 <= i < |all| && all[i] == p;
      assert fewer[if i < k then i else i - 1] == p;
    }
  }

  // ---------------------------------------------------------------- links

  lemma ChainElsewhere(next: seq<int>, head: int, list: seq<Page>, p: Page, v: int)
    requires Chain(next, head, list) && p < |next| && p !in list
    ensures Chain(next[p := v], head, list)
  {
    var next' := next[p := v];
    forall j | 0 <= j < |list| ensures LinkAt(next', list, j) {
      assert LinkAt(next, list, j) && list[j] in list;
    }
  }

  lemma ChainPush(next: seq<int>, head: int, list: seq<Page>, p: Page)
    requires Chain(next, head, list) && p < |next| && next[p] == head
    ensures Chain(next, p, [p] + list)
  {
    var longer := [p] + list;
    forall j | 0 <= j < |longer| ensures LinkAt(next, longer, j) {
      assert j > 0 ==> LinkAt(next, list, j - 1);
    }
  }

  lemma ChainPop(next: seq<int>, head: int, list: seq<Page>)
    requires Chain(next, head, list) && list != [] && Distinct(list)
    ensures list[0] == head < |next| && Chain(next[list[0] := -1], next[list[0]], list[1..])
  {
    assert LinkAt(next, list, 0);
    var tail, next' := list[1..], next[list[0] := -1];
    forall j | 0 <= j < |tail| ensures LinkAt(next', tail, j) {
      assert LinkAt(next, list, j + 1);
    }
  }

  // ---------------------------------------------------------------- writes

  lemma RememberedAfter(flag: seq<bool>, flag': seq<bool>, pcs: seq<Pc>, t: nat, pc: Pc, written: set<Page>)
    requires Remembered(flag, pcs, written) && t < |pcs| && |flag'| == |flag|
    requires forall p: Page :: p < |flag| && flag[p] ==> flag'[p]
    requires pcs[t].Flagging? && pcs[t].p < |flag| ==> pc == pcs[t] || flag'[pcs[t].p]
    ensures Remembered(flag', pcs[t := pc], written)
  {
    var pcs' := pcs[t := pc];
    forall p | p in written ensures p < |flag| && (flag'[p] || exists u: nat :: u < |pcs'| && pcs'[u] == Flagging(p)) {
      if !flag[p] {
        var u: nat :| u < |pcs| && pcs[u] == Flagging(p);
        assert u != t || pc == pcs[t] ==> pcs'[u] == Flagging(p);
      }
    }
  }

  // ---------------------------------------------------------------- every step keeps it

  lemma WriteKeeps(s: State, t: nat, p: Page)
    requires Inv(s) && t < |s.pcs| && s.pcs[t].Idle? && p < |s.q.flag|
    ensures Inv(Step(s, Write(t, p)))
  {
    hide Placed, Chain, Counted;
    var pcs' := s.pcs[t := Flagging(p)];
    PlacedSame(s.q.flag, s.pcs, s.m.incoming + s.m.captured, t, Flagging(p));
    CountedStep(s.pcs, t, Flagging(p));
    RememberedAfter(s.q.flag, s.q.flag, s.pcs, t, Flagging(p), s.m.written);
    assert pcs'[t] == Flagging(p);
  }

  predicate Counts(pc: Pc) {
    pc.Loading? || pc.Linking? || pc.Swapping?
  }

  lemma CountedStep(pcs: seq<Pc>, t: nat, pc: Pc)
    requires t < |pcs|
    ensures Counted(pcs[t := pc]) == Counted(pcs) - (if Counts(pcs[t]) then 1 else 0) + if Counts(pc) then 1 else 0
  {
    CountedUpdate(pcs, t, pc);
    assert [pc][..0] == [] && [pcs[t]][..0] == [];
  }

  /** All but the last compare-and-swap: the lists stay as they are. */
  lemma ContinueKeeps(s: State, t: nat)
    requires Inv(s) && t < |s.pcs| && !(s.pcs[t].Swapping? && s.q.head == s.pcs[t].seen)
    ensures Inv(Step(s, Continue(t)))
  {
    hide Chain, Counted, Placed, Remembered;
    var s', pc, all := Step(s, Continue(t)), s.pcs[t], s.m.incoming + s.m.captured;
    assert pc in s.pcs;
    CountedStep(s.pcs, t, s'.pcs[t]);
    RememberedAfter(s.q.flag, s'.q.flag, s.pcs, t, s'.pcs[t], s.m.written);
    if pc.Flagging? && !s.q.flag[pc.p] {
      PlacedClaim(s.q.flag, s.pcs, all, t, pc.p);
    } else {
      assert s'.q.flag == s.q.flag;
      PlacedSame(s.q.flag, s.pcs, all, t, s'.pcs[t]);
    }
    ContinueLinks(s, t);
  }

  lemma ContinueLinks(s: State, t: nat)
    requires Inv(s) && t < |s.pcs| && !(s.pcs[t].Swapping? && s.q.head == s.pcs[t].seen)
    ensures LinksOk(Step(s, Continue(t)).q, Step(s, Continue(t)).pcs, s.m)
  {
    hide Chain, Counted, Remembered, Owned;
    var pc := s.pcs[t];
    assert pc in s.pcs;
    if pc.Linking? {
      HoldsOwned(s.pcs, t);
      NotListed(s.q.flag, s.pcs, s.m.incoming, s.m.captured, pc.p);
      ChainElsewhere(s.q.next, s.q.head, s.m.incoming, pc.p, pc.seen);
      ChainElsewhere(s.q.next, s.q.batch, s.m.captured, pc.p, pc.seen);
    }
  }

  lemma NotListed(flag: seq<bool>, pcs: seq<Pc>, incoming: seq<Page>, captured: seq<Page>, p: Page)
    requires Placed(flag, pcs, incoming + captured) && Owned(pcs, p)
    ensures p !in incoming && p !in captured
  {
    assert p !in incoming + captured;
  }

  /** The compare-and-swap that succeeds. */
  lemma PushKeeps(s: State, t: nat)
    requires Inv(s) && t < |s.pcs| && s.pcs[t].Swapping? && s.q.head == s.pcs[t].seen
    ensures Inv(Step(s, Continue(t)))
  {
    hide Chain, Counted, Placed, Remembered;
    var pc := s.pcs[t];
    assert pc in s.pcs;
    CountedStep(s.pcs, t, Idle);
    RememberedAfter(s.q.flag, s.q.flag, s.pcs, t, Idle, s.m.written);
    PlacedPush(s.q.flag, s.pcs, s.m.incoming + s.m.captured, t);
    assert [pc.p] + s.m.incoming + s.m.captured == [pc.p] + (s.m.incoming + s.m.captured);
    ChainPush(s.q.next, s.q.head, s.m.incoming, pc.p);
  }

  /** The fatal error of a capture is never met: the batch has run out. */
  lemma CaptureKeeps(s: State)
    requires Inv(s) && s.q.drained
    ensures Inv(Step(s, Capture)) && s.q.batch == -1
  {
    hide Counted, Placed, Remembered;
    assert s.m.incoming + s.m.captured == s.m.incoming == [] + (s.m.captured + s.m.incoming);
    assert s.m.captured + s.m.incoming == s.m.incoming;
    assert s.m.incoming != [] ==> LinkAt(s.q.next, s.m.incoming, 0);
  }

  lemma PopKeeps(s: State)
    requires Inv(s) && Quiet(s.pcs)
    ensures Inv(Step(s, Pop))
  {
    hide Counted, Placed, Remembered;
    if s.m.captured != [] {
      var captured, p := s.m.captured, s.m.captured[0];
      PlacedFacts(s.q.flag, s.pcs, s.m.incoming, captured);
      ChainPop(s.q.next, s.q.batch, captured);
      PlacedPop(s.q.flag, s.pcs, s.m.incoming, captured);
      ChainElsewhere(s.q.next, s.q.head, s.m.incoming, p, -1);
      PopRemembers(s.q.flag, s.pcs, s.m.written, p);
      assert |captured| > 1 ==> LinkAt(s.q.next, captured, 1);
      assert LinkAt(s.q.next, captured, 0);
      assert forall t: nat :: t < |s.pcs| ==> s.pcs[t] in s.pcs;
    }
  }

  lemma PlacedFacts(flag: seq<bool>, pcs: seq<Pc>, incoming: seq<Page>, captured: seq<Page>)
    requires Placed(flag, pcs, incoming + captured) && captured != []
    ensures Distinct(captured) && captured[0] !in incoming && captured[0] < |flag|
  {
    var all, k := incoming + captured, |incoming|;
    assert forall i :: 0 <= i < |captured| ==> captured[i] == all[k + i];
    assert all[k] in all;
    forall i | 0 <= i < |incoming| ensures incoming[i] != captured[0] {
      assert all[i] != all[k];
    }
    forall i, j | 0 <= i < j < |captured| ensures captured[i] != captured[j] {
      assert all[k + i] != all[k + j];
    }
  }

  lemma PopRemembers(flag: seq<bool>, pcs: seq<Pc>, written: set<Page>, p: Page)
    requires Remembered(flag, pcs, written) && Quiet(pcs) && p < |flag|
    ensures Remembered(flag[p := false], pcs, written - {p})
  {
    assert forall t: nat :: t < |pcs| ==> pcs[t] in pcs;
  }

  lemma StepKeeps(s: State, e: Event)
    requires Inv(s)
    ensures Inv(Step(s, e))
  {
    hide Placed, Remembered, LinksOk, Counted;
    match e
    case Write(t, p) =>
      if t < |s.pcs| && s.pcs[t].Idle? && p < |s.q.flag| {
        WriteKeeps(s, t, p);
      }
    case Continue(t) =>
      if t < |s.pcs| {
        if s.pcs[t].Swapping? && s.q.head == s.pcs[t].seen {
          PushKeeps(s, t);
        } else {
          ContinueKeeps(s, t);
        }
      }
    case Capture =>
      if s.q.drained {
        CaptureKeeps(s);
      }
    case Pop =>
      if Quiet(s.pcs) {
        PopKeeps(s);
      }
  }

  // ---------------------------------------------------------------- whole runs

  /** No page flagged, nothing queued, no thread writing. */
  ghost predicate Initial(s: State) {
    && |s.q.flag| == |s.q.next| && (forall p :: 0 <= p < |s.q.flag| ==> !s.q.flag[p])
    && s.q.head == -1 && s.q.batch == -1 && s.q.count == 0 && s.q.drained && !s.q.failed
    && s.m == Meaning([], [], {}) && Quiet(s.pcs)
  }

  lemma InitialInv(s: State)
    requires Initial(s)
    ensures Inv(s)
  {
    QuietCounted(s.pcs);
    assert forall t: nat :: t < |s.pcs| ==> s.pcs[t] in s.pcs;
    assert s.m.incoming + s.m.captured == [];
  }

  ghost function Run(s: State, events: seq<Event>): (r: State)
    requires Inv(s)
    ensures Inv(r)
  {
    if events == [] then s
    else
      var before := Run(s, events[..|events| - 1]);
      StepKeeps(before, events[|events| - 1]);
      Step(before, events[|events| - 1])
  }

  /**
   However pushes interleave: a capture never meets an unfinished batch, and whenever no push is in flight every page
   written to since it was last popped is in the queue or the batch, each flagged page is there exactly once, no other
   page is, and the counter is the number of queued pages.
   */
  lemma NoWriteIsForgotten(s: State, events: seq<Event>)
    requires Initial(s)
    ensures Inv(s) && !Run(s, events).q.failed
    ensures var r := Run(s, events);
            Quiet(r.pcs) ==>
              && Distinct(r.m.incoming + r.m.captured) && r.q.count == |r.m.incoming| + |r.m.captured|
              && (forall p: Page :: p < |r.q.flag| ==> (r.q.flag[p] <==> p in r.m.incoming + r.m.captured))
              && (forall p <- r.m.written :: p in r.m.incoming + r.m.captured)
              && Chain(r.q.next, r.q.head, r.m.incoming) && Chain(r.q.next, r.q.batch, r.m.captured)
  {
    InitialInv(s);
    var r := Run(s, events);
    if Quiet(r.pcs) {
      QuietMeaning(r);
    }
  }

  // ---------------------------------------------------------------- a push ends, and the queue can be emptied

  lemma {:induction false} RunMore(s: State, first: seq<Event>, rest: seq<Event>)
    requires Inv(s)
    ensures Run(s, first + rest) == Run(Run(s, first), rest)
    decreases |rest|
  {
    hide Inv, Step;
    if rest == [] {
      assert first + rest == first;
    } else {
      RunMore(s, first, rest[..|rest| - 1]);
      assert (first + rest)[..|first| + |rest| - 1] == first + rest[..|rest| - 1];
    }
  }

  lemma RunOne(s: State, e: Event)
    requires Inv(s)
    ensures Sized(s) && Run(s, [e]) == Step(s, e)
  {
    assert [e][..0] == [];
  }

  function Busy(pcs: seq<Pc>): (n: nat) {
    if pcs == [] then 0 else Busy(pcs[..|pcs| - 1]) + if pcs[|pcs| - 1].Idle? then 0 else 1
  }

  lemma {:induction false} BusyUpdate(pcs: seq<Pc>, t: nat, pc: Pc)
    requires t < |pcs|
    ensures Busy(pcs[t := pc]) == Busy(pcs) - (if pcs[t].Idle? then 0 else 1) + if pc.Idle? then 0 else 1
    decreases |pcs|
  {
    var init, last := pcs[..|pcs| - 1], |pcs| - 1;
    if t == last {
      assert pcs[t := pc][..last] == init;
    } else {
      BusyUpdate(init, t, pc);
      assert pcs[t := pc][..last] == init[t := pc];
    }
  }

  /** The steps a thread still takes if no other moves the head of the queue. */
  function PushLeft(q: Queue, pc: Pc): (n: nat) {
    match pc
    case Idle => 0
    case Flagging(_) => 5
    case Counting(_) => 4
    case Loading(_) => 3
    case Linking(_, seen) => if q.head == seen then 2 else 4
    case Swapping(_, seen) => if q.head == seen then 1 else 3
  }

  /** A thread that runs alone finishes its push in at most five steps: a swap fails only because another succeeded. */
  lemma {:induction false} PushEnds(s: State, t: nat) returns (events: seq<Event>)
    requires Inv(s) && t < |s.pcs|
    ensures |events| <= PushLeft(s.q, s.pcs[t]) <= 5
    ensures var r := Run(s, events); r.pcs == s.pcs[t := Idle]
    decreases PushLeft(s.q, s.pcs[t])
  {
    hide Inv, Run;
    events := [];
    if s.pcs[t].Idle? {
      assert s.pcs[t := Idle] == s.pcs;
      NoEvents(s);
    } else {
      RunOne(s, Continue(t));
      StepKeeps(s, Continue(t));
      PushSteps(s, t);
      var s' := Step(s, Continue(t));
      var rest := PushEnds(s', t);
      RunMore(s, [Continue(t)], rest);
      events := [Continue(t)] + rest;
      assert s'.pcs[t := Idle] == s.pcs[t := Idle];
    }
  }

  lemma NoEvents(s: State)
    requires Inv(s)
    ensures Run(s, []) == s
  {
  }

  lemma PushSteps(s: State, t: nat)
    requires Sized(s) && t < |s.pcs| && !s.pcs[t].Idle?
    ensures var s' := Step(s, Continue(t));
            s'.pcs == s.pcs[t := s'.pcs[t]] && PushLeft(s'.q, s'.pcs[t]) < PushLeft(s.q, s.pcs[t])
  {
    assert s.pcs[t] in s.pcs;
  }

  lemma {:induction false} CanQuiesce(s: State) returns (events: seq<Event>)
    requires Inv(s)
    ensures Quiet(Run(s, events).pcs)
    decreases Busy(s.pcs)
  {
    hide Inv, Run;
    events := [];
    NoEvents(s);
    if t: nat :| t < |s.pcs| && !s.pcs[t].Idle? {
      var push := PushEnds(s, t);
      BusyUpdate(s.pcs, t, Idle);
      var rest := CanQuiesce(Run(s, push));
      RunMore(s, push, rest);
      events := push + rest;
    }
  }

  /** With the world stopped, popping uses the batch up. */
  lemma {:induction false} CanPop(s: State) returns (events: seq<Event>)
    requires Inv(s) && Quiet(s.pcs)
    ensures var r := Run(s, events);
            r.pcs == s.pcs && r.m.captured == [] && r.m.incoming == s.m.incoming && r.q.drained && r.q.batch == -1
    decreases |s.m.captured|
  {
    hide Inv, Run;
    RunOne(s, Pop);
    StepKeeps(s, Pop);
    PopFacts(s);
    events := [Pop];
    if s.m.captured != [] {
      var rest := CanPop(Step(s, Pop));
      RunMore(s, [Pop], rest);
      events := [Pop] + rest;
    }
  }

  lemma PopFacts(s: State)
    requires Inv(s) && Quiet(s.pcs)
    ensures var r := Step(s, Pop);
            && r.pcs == s.pcs && r.m.incoming == s.m.incoming
            && if s.m.captured == [] then r.m.captured == [] && r.q.drained && r.q.batch == -1 else r.m.captured == s.m.captured[1..]
  {
    hide Placed, Remembered;
    assert s.m.captured != [] ==> LinkAt(s.q.next, s.m.captured, 0);
  }

  /** From every state some schedule empties the queue: then no page is flagged, and no write is left to find. */
  lemma CanDrain(s: State) returns (events: seq<Event>)
    requires Inv(s)
    ensures var r := Run(s, events);
            && r.m.incoming == [] && r.m.captured == [] && r.m.written == {} && r.q.count == 0 && r.q.head == -1 && r.q.batch == -1
            && forall p: Page :: p < |r.q.flag| ==> !r.q.flag[p]
  {
    hide Inv, Run, Chain, Quiet;
    var quiet := CanQuiesce(s);
    var s1 := Run(s, quiet);
    var pops := CanPop(s1);
    var s2 := Run(s1, pops);
    RunOne(s2, Capture);
    CaptureFacts(s2);
    StepKeeps(s2, Capture);
    var s3 := Step(s2, Capture);
    var more := CanPop(s3);
    RunMore(s, quiet, pops);
    RunMore(s, quiet + pops, [Capture]);
    RunMore(s, quiet + pops + [Capture], more);
    events := quiet + pops + [Capture] + more;
    QuietMeaning(Run(s, events));
    EmptyHead(Run(s, events));
  }

  lemma CaptureFacts(s: State)
    requires Inv(s) && Quiet(s.pcs) && s.q.drained
    ensures var r := Step(s, Capture); r.pcs == s.pcs && r.m.incoming == []
  {
  }

  lemma EmptyHead(s: State)
    requires Inv(s) && s.m.incoming == []
    ensures s.q.head == -1
  {
  }
}
