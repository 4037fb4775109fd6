/**
 The verifier of patch code for exception traps (`validate_traps`), and the machine it protects.

 Only control flow matters here, so an instruction is one of: an operation that falls through, a conditional or an
 unconditional branch, a return, a throw, a trap (ordinary or cleanup) and its end. Branch offsets count from the next
 instruction.
 */
module Traps {

  datatype Instr =
    | Plain
    | Branch(offset: int)
    | Always(offset: int)
    | Ret
    | Throw
    | Trap(cleanup: bool, offset: int)
    | EndTrap(cleanup: bool)

  type Code = seq<Instr>

  /** The JIT keeps at most this many try regions open. */
  const MAX_TRAPS: nat := 32

  // ---------------------------------------------------------------- static regions, in instruction order

  /** The JIT closes one region per instruction, the innermost, when it reaches that region's handler. */
  function CloseAt(targets: seq<int>, i: int): seq<int> {
    if |targets| > 0 && targets[|targets| - 1] == i then targets[..|targets| - 1] else targets
  }

  datatype Nesting = TooDeep | Open(targets: seq<int>)

  /** The handlers of the regions open before instruction `i` closes any. */
  function OpenBefore(code: Code, i: nat): Nesting
    requires i <= |code|
  {
    if i == 0 then Open([])
    else match OpenBefore(code, i - 1)
      case TooDeep => TooDeep
      case Open(targets) =>
        var kept := CloseAt(targets, i - 1);
        if !code[i - 1].Trap? then Open(kept)
        else if |kept| == MAX_TRAPS then TooDeep
        else Open(kept + [i + code[i - 1].offset])
  }

  function RegionDepth(code: Code, i: nat): nat
    requires i < |code| && OpenBefore(code, i).Open?
  {
    |CloseAt(OpenBefore(code, i).targets, i)|
  }

  // ---------------------------------------------------------------- the flow of trap states

  /** The trap state of a path: an instruction, how many traps are active, and which of them are cleanup traps. */
  datatype Config = Config(pc: int, depth: nat, mask: set<nat>)

  /** What the verifier demands of an instruction reached in a state. */
  predicate Good(code: Code, c: Config)
    requires 0 <= c.pc < |code| && OpenBefore(code, c.pc).Open?
  {
    && c.depth <= RegionDepth(code, c.pc)
    && match code[c.pc]
       case Ret => c.depth == 0
       case Trap(_, _) => c.depth < MAX_TRAPS
       case EndTrap(cleanup) => c.depth > 0 && (c.depth - 1 in c.mask <==> cleanup)
       case _ => true
  }

  /** The states control may flow to next. A trap also flows to its handler, in the state before the trap. */
  function Flow(code: Code, c: Config): seq<Config>
    requires 0 <= c.pc < |code| && (code[c.pc].EndTrap? ==> c.depth > 0)
  {
    match code[c.pc]
    case Plain => [c.(pc := c.pc + 1)]
    case Branch(offset) => [c.(pc := c.pc + 1 + offset), c.(pc := c.pc + 1)]
    case Always(offset) => [c.(pc := c.pc + 1 + offset)]
    case Ret => []
    case Throw => []
    case Trap(cleanup, offset) =>
      [c.(pc := c.pc + 1 + offset),
       Config(c.pc + 1, c.depth + 1, if cleanup then c.mask + {c.depth} else c.mask)]
    case EndTrap(_) => [Config(c.pc + 1, c.depth - 1, c.mask - {c.depth - 1})]
  }

  /** The bounds checks of `validate_function`: branches stay inside the function, traps jump forward. */
  predicate InBounds(code: Code, i: nat)
    requires i < |code|
  {
    match code[i]
    case Branch(offset) => 0 <= i + 1 + offset < |code|
    case Always(offset) => 0 <= i + 1 + offset < |code|
    case Trap(_, offset) => 0 <= offset && i + 1 + offset < |code|
    case _ => true
  }

  ghost predicate Bounded(code: Code) {
    forall i: nat :: i < |code| ==> InBounds(code, i)
  }

  predicate Within(code: Code, c: Config) {
    0 <= c.pc < |code| && OpenBefore(code, c.pc).Open?
  }

  /** Control flows from an instruction the verifier accepts to one inside the function. */
  predicate FlowsTo(code: Code, c: Config, d: Config) {
    Within(code, c) && Within(code, d) && Good(code, c) && d in Flow(code, c)
  }

  /** A path of trap states from the entry, through instructions the verifier accepts. */
  ghost predicate IsPath(code: Code, p: seq<Config>) {
    && |p| > 0
    && p[0] == Config(0, 0, {})
    && Within(code, p[0])
    && (forall k :: 0 < k < |p| ==> FlowsTo(code, p[k - 1], p[k]))
  }

  ghost predicate Reached(code: Code, c: Config) {
    exists p :: IsPath(code, p) && p[|p| - 1] == c
  }

  /** Regions nest within the JIT's limit, every path is accepted, and paths that meet agree. */
  ghost predicate WellTrapped(code: Code) {
    && OpenBefore(code, |code|).Open?
    && (forall c :: Reached(code, c) ==> Within(code, c) && Good(code, c))
    && (forall c, c' :: Reached(code, c) && Reached(code, c') && c.pc == c'.pc ==> c == c')
  }

  lemma {:induction false} OpenEarlier(code: Code, i: nat, j: nat)
    requires i <= j <= |code| && OpenBefore(code, j).Open?
    ensures OpenBefore(code, i).Open?
    decreases j
  {
    if i < j {
      OpenEarlier(code, i, j - 1);
    }
  }

  lemma EntryReached(code: Code)
    requires |code| > 0
    ensures Reached(code, Config(0, 0, {}))
  {
    var p := [Config(0, 0, {})];
    assert IsPath(code, p) && p[|p| - 1] == Config(0, 0, {});
  }

  lemma FlowReached(code: Code, c: Config, d: Config)
    requires Reached(code, c) && FlowsTo(code, c, d)
    ensures Reached(code, d)
  {
    hide FlowsTo, Within;
    var p :| IsPath(code, p) && p[|p| - 1] == c;
    var q := p + [d];
    assert IsPath(code, q) && q[|q| - 1] == d;
  }

  // ---------------------------------------------------------------- the machine

  /** An active trap: where a throw lands, and whether it is a cleanup trap. */
  datatype Entry = Entry(handler: int, cleanup: bool)

  /** The machine at an instruction, with the traps it has entered and not left, the innermost last. */
  datatype Machine = Machine(pc: int, stack: seq<Entry>)

  /** The cleanup traps of a stack, by position: what the verifier's guard mask spells. */
  function Mask(stack: seq<Entry>): set<nat> {
    set i | 0 <= i < |stack| && stack[i].cleanup
  }

  /** Normal execution of one instruction. A return or a throw has no successor here. */
  ghost predicate Executes(code: Code, m: Machine, m': Machine)
    requires 0 <= m.pc < |code|
  {
    match code[m.pc]
    case Plain => m' == m.(pc := m.pc + 1)
    case Branch(offset) => m' == m.(pc := m.pc + 1 + offset) || m' == m.(pc := m.pc + 1)
    case Always(offset) => m' == m.(pc := m.pc + 1 + offset)
    case Ret => false
    case Throw => false
    case Trap(cleanup, offset) => m' == Machine(m.pc + 1, m.stack + [Entry(m.pc + 1 + offset, cleanup)])
    case EndTrap(_) => |m.stack| > 0 && m' == Machine(m.pc + 1, m.stack[..|m.stack| - 1])
  }

  /** A throw, which any instruction may raise, lands in the innermost handler. */
  ghost predicate Raises(m: Machine, m': Machine) {
    |m.stack| > 0 && m' == Machine(m.stack[|m.stack| - 1].handler, m.stack[..|m.stack| - 1])
  }

  predicate Inside(code: Code, m: Machine) {
    0 <= m.pc < |code|
  }

  /** A run is at an instruction of the function until its last state, which may be anywhere. */
  ghost predicate IsRun(code: Code, run: seq<Machine>) {
    && |run| > 0
    && run[0] == Machine(0, [])
    && (forall k :: 0 <= k < |run| - 1 ==> Inside(code, run[k]))
    && (forall k :: 0 < k < |run| ==> Executes(code, run[k - 1], run[k]) || Raises(run[k - 1], run[k]))
  }

  function ConfigOf(m: Machine): Config {
    Config(m.pc, |m.stack|, Mask(m.stack))
  }

  /** The machine's own state and the state it would be in after each throw are states of the flow. */
  ghost predicate Tracked(code: Code, m: Machine) {
    && Reached(code, ConfigOf(m))
    && forall j :: 0 <= j < |m.stack| ==> Reached(code, ConfigOf(Machine(m.stack[j].handler, m.stack[..j])))
  }

  /** What goes wrong at run time in code that mishandles traps. */
  ghost predicate SafeAt(code: Code, m: Machine)
    requires 0 <= m.pc < |code| && OpenBefore(code, m.pc).Open?
  {
    && |m.stack| <= RegionDepth(code, m.pc)
    && (code[m.pc].Ret? ==> m.stack == [])
    && (code[m.pc].Trap? ==> |m.stack| < MAX_TRAPS)
    && (code[m.pc].EndTrap? ==> |m.stack| > 0 && m.stack[|m.stack| - 1].cleanup == code[m.pc].cleanup)
    && (forall j :: 0 <= j < |m.stack| ==> 0 <= m.stack[j].handler < |code|)
  }

  lemma MaskOfPush(stack: seq<Entry>, e: Entry)
    ensures Mask(stack + [e]) == if e.cleanup then Mask(stack) + {|stack|} else Mask(stack)
  {
  }

  lemma MaskOfPop(stack: seq<Entry>)
    requires |stack| > 0
    ensures Mask(stack[..|stack| - 1]) == Mask(stack) - {|stack| - 1}
  {
  }

  lemma ThrowTracked(code: Code, m: Machine, m': Machine)
    requires Tracked(code, m) && Raises(m, m')
    ensures Tracked(code, m')
  {
    hide Reached;
    var top := |m.stack| - 1;
    assert m' == Machine(m.stack[top].handler, m.stack[..top]);
    forall j | 0 <= j < |m'.stack| ensures Reached(code, ConfigOf(Machine(m'.stack[j].handler, m'.stack[..j]))) {
      assert m'.stack[..j] == m.stack[..j];
    }
  }

  /** Execution follows the flow, and a trap pushes a handler whose own state the flow has reached. */
  lemma ExecutionFlows(code: Code, m: Machine, m': Machine)
    requires Bounded(code) && 0 <= m.pc < |code| && 0 <= m'.pc < |code| && Executes(code, m, m')
    requires OpenBefore(code, |code|).Open? && Within(code, ConfigOf(m)) && Good(code, ConfigOf(m))
    ensures FlowsTo(code, ConfigOf(m), ConfigOf(m'))
    ensures code[m.pc].Trap? ==> FlowsTo(code, ConfigOf(m), ConfigOf(m).(pc := m.pc + 1 + code[m.pc].offset))
  {
    hide OpenBefore, RegionDepth, Mask;
    var c := ConfigOf(m);
    OpenEarlier(code, m'.pc, |code|);
    if code[m.pc].Trap? {
      assert InBounds(code, m.pc);
      OpenEarlier(code, m.pc + 1 + code[m.pc].offset, |code|);
      MaskOfPush(m.stack, Entry(m.pc + 1 + code[m.pc].offset, code[m.pc].cleanup));
    } else if code[m.pc].EndTrap? {
      MaskOfPop(m.stack);
    }
  }

  lemma StepTracked(code: Code, m: Machine, m': Machine)
    requires Bounded(code) && WellTrapped(code) && Tracked(code, m)
    requires 0 <= m.pc < |code| && 0 <= m'.pc < |code| && Executes(code, m, m')
    ensures Tracked(code, m')
  {
    hide Reached, Mask, FlowsTo, Good, OpenBefore, Bounded;
    var c := ConfigOf(m);
    ExecutionFlows(code, m, m');
    FlowReached(code, c, ConfigOf(m'));
    if code[m.pc].Trap? {
      FlowReached(code, c, c.(pc := m.pc + 1 + code[m.pc].offset));
    }
    forall j | 0 <= j < |m'.stack| ensures Reached(code, ConfigOf(Machine(m'.stack[j].handler, m'.stack[..j]))) {
      if j < |m.stack| {
        assert m'.stack[..j] == m.stack[..j];
      } else {
        assert m'.stack[..j] == m.stack;
      }
    }
  }

  /** The state a run has come to; without a step it is at the entry. */
  function Last(run: seq<Machine>): Machine {
    if run == [] then Machine(0, []) else run[|run| - 1]
  }

  lemma {:induction false} RunTracked(code: Code, run: seq<Machine>)
    requires Bounded(code) && WellTrapped(code) && IsRun(code, run) && Inside(code, Last(run))
    ensures Tracked(code, Last(run))
    decreases |run|
  {
    hide Reached, WellTrapped, Bounded, Mask, Tracked;
    if |run| == 1 {
      EntryTracked(code);
    } else {
      var before := run[..|run| - 1];
      assert IsRun(code, before) && Inside(code, Last(before));
      RunTracked(code, before);
      var m, m' := run[|run| - 2], run[|run| - 1];
      assert m == Last(before);
      if Executes(code, m, m') {
        StepTracked(code, m, m');
      } else {
        ThrowTracked(code, m, m');
      }
    }
  }

  lemma EntryTracked(code: Code)
    requires |code| > 0
    ensures Tracked(code, Machine(0, []))
  {
    assert Mask([]) == {};
    EntryReached(code);
  }

  lemma TrackedIsSafe(code: Code, m: Machine)
    requires WellTrapped(code) && Tracked(code, m) && 0 <= m.pc < |code|
    ensures OpenBefore(code, m.pc).Open? && SafeAt(code, m)
  {
    hide Reached, OpenBefore, RegionDepth;
    assert Good(code, ConfigOf(m));
    forall j | 0 <= j < |m.stack| ensures 0 <= m.stack[j].handler < |code| {
      assert Within(code, ConfigOf(Machine(m.stack[j].handler, m.stack[..j])));
    }
  }

  // ---------------------------------------------------------------- every state of the flow is met by a run

  ghost predicate Meets(code: Code, run: seq<Machine>, c: Config) {
    IsRun(code, run) && Inside(code, Last(run)) && ConfigOf(Last(run)) == c
  }

  lemma Extends(code: Code, run: seq<Machine>, m: Machine)
    requires IsRun(code, run) && Inside(code, Last(run)) && (Executes(code, Last(run), m) || Raises(Last(run), m))
    ensures IsRun(code, run + [m]) && Last(run + [m]) == m
  {
    var longer := run + [m];
    assert forall k :: 0 <= k < |run| ==> longer[k] == run[k];
  }

  /** A state flows to the next by one instruction, or by a trap and a throw right behind it. */
  lemma FlowMet(code: Code, run: seq<Machine>, c: Config, d: Config) returns (longer: seq<Machine>)
    requires Bounded(code) && Meets(code, run, c) && FlowsTo(code, c, d)
    ensures Meets(code, longer, d)
  {
    hide OpenBefore, RegionDepth, Mask;
    var m := Last(run);
    var i := m.pc;
    assert InBounds(code, i);
    match code[i]
    case Trap(cleanup, offset) =>
      var trapped := Machine(i + 1, m.stack + [Entry(i + 1 + offset, cleanup)]);
      MaskOfPush(m.stack, Entry(i + 1 + offset, cleanup));
      Extends(code, run, trapped);
      if d == ConfigOf(trapped) {
        return run + [trapped];
      }
      var thrown := Machine(i + 1 + offset, m.stack);
      assert trapped.stack[..|m.stack|] == m.stack;
      Extends(code, run + [trapped], thrown);
      return run + [trapped] + [thrown];
    case EndTrap(_) =>
      var ended := Machine(i + 1, m.stack[..|m.stack| - 1]);
      MaskOfPop(m.stack);
      Extends(code, run, ended);
      return run + [ended];
    case _ =>
      Extends(code, run, m.(pc := d.pc));
      return run + [m.(pc := d.pc)];
  }

  lemma {:induction false} PathMet(code: Code, p: seq<Config>) returns (run: seq<Machine>)
    requires Bounded(code) && IsPath(code, p)
    ensures Meets(code, run, p[|p| - 1])
    decreases |p|
  {
    hide FlowsTo, Bounded;
    if |p| == 1 {
      run := [Machine(0, [])];
      assert Mask([]) == {};
    } else {
      var q := p[..|p| - 1];
      assert IsPath(code, q);
      var shorter := PathMet(code, q);
      assert FlowsTo(code, p[|p| - 2], p[|p| - 1]);
      run := FlowMet(code, shorter, p[|p| - 2], p[|p| - 1]);
    }
  }

  lemma ReachedIsMet(code: Code, c: Config) returns (run: seq<Machine>)
    requires Bounded(code) && Reached(code, c)
    ensures Meets(code, run, c)
  {
    var p :| IsPath(code, p) && p[|p| - 1] == c;
    run := PathMet(code, p);
  }

  // ---------------------------------------------------------------- the demand, in terms of executions

  ghost predicate SafeEnd(code: Code, run: seq<Machine>) {
    IsRun(code, run) && Inside(code, Last(run)) ==> Within(code, ConfigOf(Last(run))) && SafeAt(code, Last(run))
  }

  ghost predicate Agree(code: Code, run: seq<Machine>, other: seq<Machine>) {
    && IsRun(code, run) && IsRun(code, other) && Inside(code, Last(run)) && Last(other).pc == Last(run).pc ==>
      ConfigOf(Last(other)) == ConfigOf(Last(run))
  }

  /**
   On every execution, throws at any instruction included: the stack fits the regions of the instruction, returns leave no
   trap, ends match their traps and throws land inside the function. And the trap stack is a property of the instruction
   alone: two executions that reach it, along any paths, have the same height and the same kinds.
   */
  ghost predicate RunsSafely(code: Code) {
    && OpenBefore(code, |code|).Open?
    && (forall run :: SafeEnd(code, run))
    && (forall run, other :: Agree(code, run, other))
  }

  lemma WellTrappedRunsSafely(code: Code)
    requires Bounded(code) && WellTrapped(code)
    ensures RunsSafely(code)
  {
    hide Reached, Bounded, Good, OpenBefore, SafeAt, Mask, IsRun;
    forall run ensures SafeEnd(code, run) {
      if IsRun(code, run) && Inside(code, Last(run)) {
        RunTracked(code, run);
        TrackedIsSafe(code, Last(run));
      }
    }
    forall run, other ensures Agree(code, run, other) {
      if IsRun(code, run) && IsRun(code, other) && Inside(code, Last(run)) && Last(other).pc == Last(run).pc {
        RunTracked(code, run);
        RunTracked(code, other);
      }
    }
  }

  lemma SafeIsGood(code: Code, m: Machine)
    requires Within(code, ConfigOf(m)) && SafeAt(code, m)
    ensures Good(code, ConfigOf(m))
  {
    hide OpenBefore, RegionDepth;
  }

  /** Being well trapped is no more and no less than running safely: the flow the verifier walks invents nothing. */
  lemma WellTrappedExactly(code: Code)
    requires Bounded(code)
    ensures WellTrapped(code) <==> RunsSafely(code)
  {
    hide Reached, Bounded, Good, OpenBefore, SafeAt, Mask, IsRun;
    if WellTrapped(code) {
      WellTrappedRunsSafely(code);
    }
    if RunsSafely(code) {
      forall c | Reached(code, c) ensures Within(code, c) && Good(code, c) {
        var run := ReachedIsMet(code, c);
        assert SafeEnd(code, run);
        SafeIsGood(code, Last(run));
      }
      forall c, d | Reached(code, c) && Reached(code, d) && c.pc == d.pc ensures c == d {
        var run := ReachedIsMet(code, c);
        var other := ReachedIsMet(code, d);
        assert Agree(code, run, other);
      }
    }
  }

  // ---------------------------------------------------------------- leaving the function at its end

  ghost predicate FallsOff(code: Code) {
    exists run :: IsRun(code, run) && Last(run).pc == |code|
  }

  predicate FallsThrough(instr: Instr) {
    instr.Plain? || instr.Branch? || instr.EndTrap?
  }

  ghost predicate ReachedAt(code: Code, i: int) {
    exists c :: Reached(code, c) && c.pc == i
  }

  /** An execution is inside the function, or has just left it at its end. */
  lemma RunsStayOrFallOff(code: Code, run: seq<Machine>)
    requires Bounded(code) && WellTrapped(code) && IsRun(code, run)
    ensures Inside(code, Last(run)) || Last(run).pc == |code|
    ensures Last(run).pc == |code| && |code| > 0 ==> ReachedAt(code, |code| - 1) && FallsThrough(code[|code| - 1])
  {
    hide Reached, Mask, OpenBefore, Good;
    if |run| > 1 {
      var before, m := run[..|run| - 1], run[|run| - 2];
      assert IsRun(code, before) && Last(before) == m && Inside(code, m);
      RunTracked(code, before);
      TrackedIsSafe(code, m);
      assert InBounds(code, m.pc) && Reached(code, ConfigOf(m));
      assert Executes(code, run[|run| - 2], run[|run| - 1]) || Raises(run[|run| - 2], run[|run| - 1]);
    }
  }

  /** Accepted code falls off its end exactly if its last instruction is reached and goes on to the next one. */
  lemma FallsOffExactly(code: Code)
    requires Bounded(code) && WellTrapped(code)
    ensures FallsOff(code) <==> |code| == 0 || (ReachedAt(code, |code| - 1) && FallsThrough(code[|code| - 1]))
  {
    hide Reached, Mask, OpenBefore, IsRun;
    if FallsOff(code) {
      var run :| IsRun(code, run) && Last(run).pc == |code|;
      RunsStayOrFallOff(code, run);
    }
    if |code| == 0 {
      EmptyFallsOff(code);
    } else if ReachedAt(code, |code| - 1) && FallsThrough(code[|code| - 1]) {
      var c :| Reached(code, c) && c.pc == |code| - 1;
      var run := ReachedIsMet(code, c);
      assert Good(code, c);
      var m := Last(run);
      var next := if code[m.pc].EndTrap? then Machine(m.pc + 1, m.stack[..|m.stack| - 1]) else m.(pc := m.pc + 1);
      Extends(code, run, next);
      assert IsRun(code, run + [next]) && Last(run + [next]).pc == |code|;
    }
  }

  lemma EmptyFallsOff(code: Code)
    requires |code| == 0
    ensures FallsOff(code)
  {
    var run := [Machine(0, [])];
    assert IsRun(code, run) && Last(run).pc == |code|;
  }

  ghost predicate HasEdge(code: Code, p: seq<Config>, k: int) {
    0 < k < |p| ==> FlowsTo(code, p[k - 1], p[k])
  }

  /** A single operation is accepted, and falls off. */
  lemma PlainFallsOff()
    ensures var code := [Plain]; Bounded(code) && WellTrapped(code) && FallsOff(code)
  {
    var code := [Plain];
    var run := [Machine(0, []), Machine(1, [])];
    assert IsRun(code, run) && Last(run).pc == |code|;
    assert OpenBefore(code, 0) == Open([]) && OpenBefore(code, 1) == Open([]);
    forall c | Reached(code, c) ensures c == Config(0, 0, {}) {
      var p :| IsPath(code, p) && p[|p| - 1] == c;
      assert HasEdge(code, p, 1);
    }
  }
}
