/**
 `validate_traps` and the branch checks of `validate_function`: a worklist over the instructions that computes the trap
 state of each, and decides exactly whether the code is well trapped.
 */
module TrapVerifier {
  import opened Basics
  import opened Traps

  // ---------------------------------------------------------------- static regions

  lemma OpenNext(code: Code, i: nat, targets: seq<int>)
    requires i < |code| && OpenBefore(code, i) == Open(targets)
    ensures RegionDepth(code, i) == |CloseAt(targets, i)|
    ensures OpenBefore(code, i + 1) ==
            if !code[i].Trap? then Open(CloseAt(targets, i))
            else if |CloseAt(targets, i)| == MAX_TRAPS then TooDeep
            else Open(CloseAt(targets, i) + [i + 1 + code[i].offset])
    ensures OpenBefore(code, i + 1).TooDeep? ==> OpenBefore(code, |code|).TooDeep?
  {
    if OpenBefore(code, |code|).Open? {
      OpenEarlier(code, i + 1, |code|);
    }
  }

  method ComputeRegions(code: Code, regions: array<nat>) returns (ok: bool)
    requires regions.Length == |code|
    modifies regions
    ensures ok <==> OpenBefore(code, |code|).Open?
    ensures ok ==> forall i: nat :: i < |code| ==> OpenBefore(code, i).Open? && regions[i] == RegionDepth(code, i)
  {
    hide OpenBefore, RegionDepth;
    var targets, open := new int[MAX_TRAPS], 0;
    NothingOpen(code);
    for i := 0 to |code|
      invariant open <= MAX_TRAPS && OpenBefore(code, i) == Open(targets[..open])
      invariant forall j: nat :: j < i ==> OpenBefore(code, j).Open? && regions[j] == RegionDepth(code, j)
    {
      OpenNext(code, i, targets[..open]);
      if open > 0 && targets[open - 1] == i {
        assert CloseAt(targets[..open], i) == targets[..open - 1];
        open := open - 1;
      }
      regions[i] := open;
      if code[i].Trap? {
        if open == MAX_TRAPS {
          return false;
        }
        ghost var kept := targets[..open];
        targets[open] := i + 1 + code[i].offset;
        open := open + 1;
        assert targets[..open] == kept + [i + 1 + code[i].offset];
      }
    }
    return true;
  }

  lemma NothingOpen(code: Code)
    ensures OpenBefore(code, 0) == Open([])
  {
  }

  // ---------------------------------------------------------------- the worklist

  function ConfigAt(depth: seq<int>, guards: seq<set<nat>>, i: int): Config
    requires 0 <= i < |depth| == |guards| && depth[i] >= 0
  {
    Config(i, depth[i], guards[i])
  }

  /** The state is the one recorded for its instruction, or lies past the end of the code. */
  predicate Recorded(depth: seq<int>, guards: seq<set<nat>>, d: Config)
    requires |depth| == |guards|
  {
    0 <= d.pc && (d.pc < |depth| ==> depth[d.pc] == d.depth && guards[d.pc] == d.mask)
  }

  /** The instruction is accepted in its recorded state and all that flows from it is recorded. */
  ghost predicate Explored(code: Code, depth: seq<int>, guards: seq<set<nat>>, i: int)
    requires 0 <= i < |code| == |depth| == |guards|
  {
    && depth[i] >= 0
    && Within(code, ConfigAt(depth, guards, i)) && Good(code, ConfigAt(depth, guards, i))
    && forall d <- Flow(code, ConfigAt(depth, guards, i)) :: Recorded(depth, guards, d)
  }

  /**
   Every recorded state is one the flow reaches; pending instructions are recorded, each once; every other recorded
   instruction, except one being explored, is explored.
   */
  ghost predicate Frontier(code: Code, depth: seq<int>, guards: seq<set<nat>>, pending: seq<int>, exploring: int) {
    && |code| == |depth| == |guards|
    && (|code| > 0 ==> Recorded(depth, guards, Config(0, 0, {})))
    && (forall i :: 0 <= i < |depth| && depth[i] >= 0 ==> Reached(code, ConfigAt(depth, guards, i)))
    && Distinct(pending)
    && (forall i <- pending :: 0 <= i < |depth| && depth[i] >= 0 && i != exploring)
    && (forall i :: 0 <= i < |depth| && depth[i] >= 0 && i !in pending && i != exploring ==> Explored(code, depth, guards, i))
  }

  function Unseen(depth: seq<int>): set<int> {
    set i | 0 <= i < |depth| && depth[i] < 0
  }

  lemma RecordKeeps(code: Code, depth: seq<int>, guards: seq<set<nat>>, pending: seq<int>, exploring: int, d: Config)
    requires Frontier(code, depth, guards, pending, exploring) && Reached(code, d)
    requires 0 <= d.pc < |code| && depth[d.pc] < 0 && 0 <= exploring < |code| && depth[exploring] >= 0
    ensures Frontier(code, depth[d.pc := d.depth], guards[d.pc := d.mask], pending + [d.pc], exploring)
    ensures Unseen(depth[d.pc := d.depth]) < Unseen(depth)
    ensures forall c :: Recorded(depth, guards, c) ==> Recorded(depth[d.pc := d.depth], guards[d.pc := d.mask], c)
  {
    hide Reached, Good, Flow, Within;
    var depth', guards' := depth[d.pc := d.depth], guards[d.pc := d.mask];
    assert d.pc in Unseen(depth);
    forall i | 0 <= i < |depth| && depth'[i] >= 0 && i !in pending + [d.pc] && i != exploring
      ensures Explored(code, depth', guards', i)
    {
      assert (pending + [d.pc])[|pending|] == d.pc;
      assert Explored(code, depth, guards, i);
    }
  }

  ghost function Range(n: nat): set<int> {
    if n == 0 then {} else Range(n - 1) + {n - 1}
  }

  lemma {:induction false} RangeFacts(n: nat)
    ensures |Range(n)| == n && forall i :: i in Range(n) <==> 0 <= i < n
  {
    if n > 0 {
      RangeFacts(n - 1);
    }
  }

  ghost function Elements(s: seq<int>): set<int> {
    if s == [] then {} else Elements(s[..|s| - 1]) + {s[|s| - 1]}
  }

  lemma {:induction false} ElementsFacts(s: seq<int>)
    requires Distinct(s)
    ensures |Elements(s)| == |s| && forall i :: i in Elements(s) <==> i in s
  {
    if |s| > 0 {
      ElementsFacts(s[..|s| - 1]);
      assert s == s[..|s| - 1] + [s[|s| - 1]];
    }
  }

  /** The pending stack holds distinct instructions, so it never outgrows its buffer of one entry per instruction. */
  lemma PendingFits(pending: seq<int>, n: nat, free: int)
    requires Distinct(pending) && (forall i <- pending :: 0 <= i < n && i != free) && 0 <= free < n
    ensures |pending| < n
  {
    RangeFacts(n);
    ElementsFacts(pending);
    var used := Elements(pending) + {free};
    forall i | i in used ensures i in Range(n) {
      assert i == free || i in pending;
    }
    assert Range(n) == used + (Range(n) - used);
  }

  /** Records one successor of the instruction being explored, or finds it recorded in another state. */
  method Enter(code: Code, depth: array<int>, guards: array<set<nat>>, pending: array<int>, top: nat, ghost exploring: int,
               d: Config) returns (ok: bool, top': nat)
    requires depth.Length == guards.Length == pending.Length == |code| && top <= |code|
    requires depth != pending && Frontier(code, depth[..], guards[..], pending[..top], exploring)
    requires 0 <= exploring < |code| && depth[exploring] >= 0
    requires 0 <= d.pc && (d.pc < |code| ==> Reached(code, d))
    modifies depth, guards, pending
    ensures top' <= |code| && Frontier(code, depth[..], guards[..], pending[..top'], exploring)
    ensures depth[exploring] == old(depth[exploring]) && guards[exploring] == old(guards[exploring])
    ensures forall c :: old(Recorded(depth[..], guards[..], c)) ==> Recorded(depth[..], guards[..], c)
    ensures ok ==> Recorded(depth[..], guards[..], d)
    ensures !ok ==> 0 <= d.pc < |code| && depth[d.pc] >= 0 && ConfigAt(depth[..], guards[..], d.pc) != d
    ensures Unseen(depth[..]) < old(Unseen(depth[..])) || (Unseen(depth[..]) == old(Unseen(depth[..])) && top' == top)
  {
    hide Frontier, Reached;
    ok, top' := true, top;
    if d.pc < |code| {
      if depth[d.pc] < 0 {
        FrontierFits(code, depth[..], guards[..], pending[..top], exploring, d.pc);
        RecordKeeps(code, depth[..], guards[..], pending[..top], exploring, d);
        ghost var was, guarded, stacked := depth[..], guards[..], pending[..top];
        depth[d.pc] := d.depth;
        guards[d.pc] := d.mask;
        pending[top] := d.pc;
        top' := top + 1;
        assert depth[..] == was[d.pc := d.depth] && guards[..] == guarded[d.pc := d.mask] && pending[..top'] == stacked + [d.pc];
      } else if depth[d.pc] != d.depth || guards[d.pc] != d.mask {
        ok := false;
      }
    }
  }

  lemma FrontierFits(code: Code, depth: seq<int>, guards: seq<set<nat>>, pending: seq<int>, exploring: int, free: int)
    requires Frontier(code, depth, guards, pending, exploring) && 0 <= free < |code| && depth[free] < 0
    ensures |pending| < |code|
  {
    PendingFits(pending, |code|, free);
  }

  // ---------------------------------------------------------------- the verdict

  /** With nothing pending, the recorded states are all the states the flow reaches. */
  lemma {:induction false} PathRecorded(code: Code, depth: seq<int>, guards: seq<set<nat>>, p: seq<Config>)
    requires Frontier(code, depth, guards, [], -1) && IsPath(code, p)
    ensures Recorded(depth, guards, p[|p| - 1])
    decreases |p|
  {
    hide Reached, Good, Flow, Within;
    if |p| > 1 {
      var before := p[..|p| - 1];
      assert IsPath(code, before);
      PathRecorded(code, depth, guards, before);
      StepRecorded(code, depth, guards, p[|p| - 2], p[|p| - 1]);
    }
  }

  lemma StepRecorded(code: Code, depth: seq<int>, guards: seq<set<nat>>, c: Config, d: Config)
    requires Frontier(code, depth, guards, [], -1) && Recorded(depth, guards, c) && FlowsTo(code, c, d)
    ensures Recorded(depth, guards, d)
  {
    hide Reached, Good, Flow, OpenBefore;
    assert Explored(code, depth, guards, c.pc);
    assert ConfigAt(depth, guards, c.pc) == c;
  }

  lemma ExploredAll(code: Code, depth: seq<int>, guards: seq<set<nat>>)
    requires Frontier(code, depth, guards, [], -1) && OpenBefore(code, |code|).Open?
    ensures WellTrapped(code)
    ensures forall c :: Reached(code, c) ==> 0 <= c.pc < |code| && Recorded(depth, guards, c)
  {
    hide Good, Flow, OpenBefore, FlowsTo;
    forall c | Reached(code, c) ensures 0 <= c.pc < |code| && Recorded(depth, guards, c) && Within(code, c) && Good(code, c) {
      var p :| IsPath(code, p) && p[|p| - 1] == c;
      PathRecorded(code, depth, guards, p);
      PathWithin(code, p);
      assert Explored(code, depth, guards, c.pc);
    }
  }

  lemma PathWithin(code: Code, p: seq<Config>)
    requires IsPath(code, p)
    ensures Within(code, p[|p| - 1])
  {
    hide Good, Flow, OpenBefore;
    if |p| > 1 {
      assert FlowsTo(code, p[|p| - 2], p[|p| - 1]);
    }
  }

  lemma FlowInBounds(code: Code, c: Config, d: Config)
    requires Bounded(code) && OpenBefore(code, |code|).Open? && Within(code, c) && Good(code, c) && d in Flow(code, c)
    ensures 0 <= d.pc && (d.pc < |code| ==> FlowsTo(code, c, d))
  {
    hide OpenBefore, RegionDepth;
    assert InBounds(code, c.pc);
    if 0 <= d.pc < |code| {
      OpenEarlier(code, d.pc, |code|);
    }
  }

  /** What the verifier demands of an instruction, read off its tables. */
  predicate Accepts(instr: Instr, region: nat, d: nat, mask: set<nat>) {
    && d <= region
    && match instr
       case Ret => d == 0
       case Trap(_, _) => d != MAX_TRAPS
       case EndTrap(cleanup) => d != 0 && (d - 1 in mask <==> cleanup)
       case _ => true
  }

  lemma {:induction false} NestingBounded(code: Code, i: nat)
    requires i <= |code| && OpenBefore(code, i).Open?
    ensures |OpenBefore(code, i).targets| <= MAX_TRAPS
  {
    if i > 0 {
      NestingBounded(code, i - 1);
    }
  }

  lemma AcceptsIsGood(code: Code, c: Config)
    requires Within(code, c)
    ensures Accepts(code[c.pc], RegionDepth(code, c.pc), c.depth, c.mask) <==> Good(code, c)
  {
    NestingBounded(code, c.pc);
  }

  lemma PopPending(code: Code, depth: seq<int>, guards: seq<set<nat>>, pending: seq<int>)
    requires Frontier(code, depth, guards, pending, -1) && pending != []
    ensures Frontier(code, depth, guards, pending[..|pending| - 1], pending[|pending| - 1])
  {
    hide Reached, Explored;
    var top := |pending| - 1;
    var rest, i := pending[..top], pending[top];
    assert pending == rest + [i] && i in pending;
    forall j | j in rest ensures j != i && j in pending {
      var k :| 0 <= k < top && rest[k] == j;
      assert pending[k] == j;
    }
  }

  lemma FinishExploring(code: Code, depth: seq<int>, guards: seq<set<nat>>, pending: seq<int>, i: int)
    requires Frontier(code, depth, guards, pending, i) && 0 <= i < |code| && Explored(code, depth, guards, i)
    ensures Frontier(code, depth, guards, pending, -1)
  {
    hide Reached;
  }

  lemma RecordedIsReached(code: Code, depth: seq<int>, guards: seq<set<nat>>, pending: seq<int>, exploring: int, i: int)
    requires Frontier(code, depth, guards, pending, exploring) && 0 <= i < |code| && depth[i] >= 0
    ensures Reached(code, ConfigAt(depth, guards, i)) && Within(code, ConfigAt(depth, guards, i))
  {
    hide Explored;
    var p :| IsPath(code, p) && p[|p| - 1] == ConfigAt(depth, guards, i);
    PathWithin(code, p);
  }

  /** Checks one pending instruction and records what flows from it. */
  method Explore(code: Code, regions: array<nat>, depth: array<int>, guards: array<set<nat>>, pending: array<int>, top: nat)
    returns (ok: bool, top': nat)
    requires Bounded(code) && OpenBefore(code, |code|).Open?
    requires regions.Length == depth.Length == guards.Length == pending.Length == |code| && 0 < top <= |code|
    requires depth != pending && Frontier(code, depth[..], guards[..], pending[..top], -1)
    requires forall i: nat :: i < |code| ==> OpenBefore(code, i).Open? && regions[i] == RegionDepth(code, i)
    modifies depth, guards, pending
    ensures top' <= |code|
    ensures ok ==> Frontier(code, depth[..], guards[..], pending[..top'], -1)
    ensures !ok ==> !WellTrapped(code)
    ensures Unseen(depth[..]) < old(Unseen(depth[..])) || (Unseen(depth[..]) == old(Unseen(depth[..])) && top' == top - 1)
  {
    hide Frontier, Reached, Good, OpenBefore, RegionDepth, Flow, Bounded, WellTrapped, Unseen, Explored;
    PopPending(code, depth[..], guards[..], pending[..top]);
    PendingRecorded(code, depth[..], guards[..], pending[..top]);
    top' := top - 1;
    var i := pending[top'];
    assert pending[..top][..top'] == pending[..top'];
    var c := Config(i, depth[i], guards[i]);
    RecordedIsReached(code, depth[..], guards[..], pending[..top'], i, i);
    AcceptsIsGood(code, c);
    if !Accepts(code[i], regions[i], depth[i], guards[i]) {
      RejectBad(code, c);
      return false, top';
    }
    AcceptedFlow(code, c);
    var next := Flow(code, c);
    var k := 0;
    while k < |next|
      invariant 0 <= k <= |next| && top' <= |code| && Frontier(code, depth[..], guards[..], pending[..top'], i)
      invariant depth[i] == c.depth && guards[i] == c.mask
      invariant forall j :: 0 <= j < k ==> Recorded(depth[..], guards[..], next[j])
      invariant Unseen(depth[..]) < old(Unseen(depth[..])) || (Unseen(depth[..]) == old(Unseen(depth[..])) && top' == top - 1)
    {
      FlowInBounds(code, c, next[k]);
      if next[k].pc < |code| {
        FlowReached(code, c, next[k]);
      }
      ok, top' := Enter(code, depth, guards, pending, top', i, next[k]);
      if !ok {
        RecordedIsReached(code, depth[..], guards[..], pending[..top'], i, next[k].pc);
        RejectClash(code, next[k], ConfigAt(depth[..], guards[..], next[k].pc));
        return;
      }
      k := k + 1;
    }
    ExploredNow(code, depth[..], guards[..], c);
    FinishExploring(code, depth[..], guards[..], pending[..top'], i);
    return true, top';
  }

  lemma PendingRecorded(code: Code, depth: seq<int>, guards: seq<set<nat>>, pending: seq<int>)
    requires Frontier(code, depth, guards, pending, -1) && pending != []
    ensures var i := pending[|pending| - 1]; 0 <= i < |code| && depth[i] >= 0
  {
    assert pending[|pending| - 1] in pending;
  }

  lemma AcceptedFlow(code: Code, c: Config)
    requires Within(code, c) && Good(code, c)
    ensures code[c.pc].EndTrap? ==> c.depth > 0
  {
  }

  lemma ExploredNow(code: Code, depth: seq<int>, guards: seq<set<nat>>, c: Config)
    requires |code| == |depth| == |guards| && Within(code, c) && Good(code, c) && Recorded(depth, guards, c)
    requires forall j :: 0 <= j < |Flow(code, c)| ==> Recorded(depth, guards, Flow(code, c)[j])
    ensures Explored(code, depth, guards, c.pc)
  {
    hide Good, Flow, OpenBefore;
    assert ConfigAt(depth, guards, c.pc) == c;
  }

  lemma RejectBad(code: Code, c: Config)
    requires Reached(code, c) && Within(code, c) && !Good(code, c)
    ensures !WellTrapped(code)
  {
  }

  lemma RejectClash(code: Code, c: Config, d: Config)
    requires Reached(code, c) && Reached(code, d) && c.pc == d.pc && c != d
    ensures !WellTrapped(code)
  {
  }

  /**
   The verdict is exact: code whose branches are in bounds is accepted if and only if it is well trapped, and the tables
   then hold the trap state of every instruction the flow reaches.
   */
  method ValidateTraps(code: Code) returns (ok: bool, depth: array<int>, guards: array<set<nat>>, regions: array<nat>)
    requires Bounded(code)
    ensures ok <==> WellTrapped(code)
    ensures ok <==> RunsSafely(code)
    ensures depth.Length == guards.Length == regions.Length == |code|
    ensures ok ==> forall c :: Reached(code, c) ==>
              && 0 <= c.pc < |code| && OpenBefore(code, c.pc).Open?
              && depth[c.pc] == c.depth && guards[c.pc] == c.mask && regions[c.pc] == RegionDepth(code, c.pc)
    ensures ok ==> forall i: nat :: i < |code| ==> (depth[i] >= 0 <==> ReachedAt(code, i))
    ensures ok ==> (FallsOff(code) <==> |code| == 0 || (depth[|code| - 1] >= 0 && FallsThrough(code[|code| - 1])))
  {
    hide Frontier, Reached, OpenBefore, RegionDepth, WellTrapped, Bounded, Unseen, RunsSafely, FallsOff;
    WellTrappedExactly(code);
    depth := new int[|code|](_ => -1);
    guards := new set<nat>[|code|](_ => {});
    regions := new nat[|code|];
    var pending := new int[|code|];
    ok := ComputeRegions(code, regions);
    if !ok {
      RejectNesting(code);
      return;
    }
    var top: nat := 0;
    if |code| > 0 {
      depth[0], guards[0], pending[0] := 0, {}, 0;
      top := 1;
      EntryReached(code);
    }
    StartFrontier(code, depth[..], guards[..], pending[..top]);
    while ok && top > 0
      invariant top <= |code|
      invariant forall i: nat :: i < |code| ==> OpenBefore(code, i).Open? && regions[i] == RegionDepth(code, i)
      invariant ok ==> Frontier(code, depth[..], guards[..], pending[..top], -1)
      invariant !ok ==> !WellTrapped(code)
      decreases ok, Unseen(depth[..]), top
    {
      ok, top := Explore(code, regions, depth, guards, pending, top);
    }
    if ok {
      assert pending[..top] == [];
      ExploredAll(code, depth[..], guards[..]);
      FrontierSize(code, depth[..], guards[..]);
      RecordedExactly(code, depth[..], guards[..]);
      FallsOffExactly(code);
    }
  }

  lemma RecordedExactly(code: Code, depth: seq<int>, guards: seq<set<nat>>)
    requires Frontier(code, depth, guards, [], -1)
    requires forall c :: Reached(code, c) ==> 0 <= c.pc < |code| && |depth| == |guards| == |code| && depth[c.pc] == c.depth
    ensures |depth| == |code| && forall i: nat :: i < |code| ==> (depth[i] >= 0 <==> ReachedAt(code, i))
  {
    hide Reached;
    forall i: nat | i < |code| && depth[i] >= 0 ensures ReachedAt(code, i) {
      assert Reached(code, ConfigAt(depth, guards, i));
    }
  }

  lemma RejectNesting(code: Code)
    requires OpenBefore(code, |code|).TooDeep?
    ensures !WellTrapped(code)
  {
  }

  lemma FrontierSize(code: Code, depth: seq<int>, guards: seq<set<nat>>)
    requires Frontier(code, depth, guards, [], -1)
    ensures |depth| == |guards| == |code|
  {
  }

  lemma StartFrontier(code: Code, depth: seq<int>, guards: seq<set<nat>>, pending: seq<int>)
    requires |depth| == |guards| == |code|
    requires |code| == 0 ==> pending == []
    requires |code| > 0 ==> pending == [0] && depth[0] == 0 && guards[0] == {} && Reached(code, Config(0, 0, {}))
    requires forall i :: 0 < i < |code| ==> depth[i] == -1
    ensures Frontier(code, depth, guards, pending, -1)
  {
    hide Reached, Explored;
  }

  /** `validate_function`, as far as control flow goes: code is accepted exactly if its branches stay inside and it runs safely. */
  method ValidateFunction(code: Code) returns (ok: bool)
    ensures ok <==> Bounded(code) && RunsSafely(code)
  {
    hide WellTrapped, RunsSafely, InBounds, FallsOff, Reached;
    for i := 0 to |code|
      invariant forall j: nat :: j < i ==> InBounds(code, j)
    {
      if !InBounds(code, i) {
        return false;
      }
    }
    var depth, guards, regions;
    ok, depth, guards, regions := ValidateTraps(code);
  }
}
