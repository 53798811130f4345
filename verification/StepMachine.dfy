/**
 The three-phase call of a router: a step counter and a flag that Goto and Abort set from inside
 the phases, proved to run the phases a plain reading of those calls asks for.
 */
module StepMachine {

  const PRE_HANDLE := 0
  const HANDLE := 1
  const POST_HANDLE := 2
  const HANDLE_OVER := 3

  /** What a phase does to the request while it runs, in order. */
  datatype Act = Goto(step: int) | Abort

  /** The request's step state. In handler-slice mode Abort leaves it alone. */
  datatype Req = Req(steps: int, needNext: bool, slicesMode: bool)

  function Apply(r: Req, act: Act): Req
  {
    match act
    case Goto(s) => r.(steps := s, needNext := false)
    case Abort => if r.slicesMode then r else r.(steps := HANDLE_OVER)
  }

  function ApplyAll(r: Req, acts: seq<Act>): Req
    decreases |acts|
  {
    if acts == [] then r else ApplyAll(Apply(r, acts[0]), acts[1..])
  }

  function Next(r: Req): Req
  {
    if !r.needNext then r.(needNext := true) else r.(steps := r.steps + 1)
  }

  predicate IsPhase(step: int)
  {
    PRE_HANDLE <= step <= POST_HANDLE
  }

  /**
   The loop of Call. `hooks` lists what the phases do in the order they are run; a router that
   calls Goto finitely often does nothing more after some point, which is what an empty list means.
   */
  function Loop(r: Req, hooks: seq<seq<Act>>): (Req, seq<int>)
    decreases |hooks|, if r.steps < HANDLE_OVER then HANDLE_OVER - r.steps else 0, !r.needNext
  {
    if HANDLE_OVER <= r.steps then
      (r, [])
    else if !IsPhase(r.steps) then
      Loop(Next(r), hooks)
    else if hooks == [] then
      var (last, later) := Loop(Next(r), []);
      (last, [r.steps] + later)
    else
      var (last, later) := Loop(Next(ApplyAll(r, hooks[0])), hooks[1..]);
      (last, [r.steps] + later)
  }

  // ----- what the calls mean

  /** Where a phase leads: the last Goto's target, the end after an Abort, else `next`. */
  function Target(next: int, acts: seq<Act>, slicesMode: bool): int
    decreases |acts|
  {
    if acts == [] then next
    else
      match acts[0]
      case Goto(s) => Target(s, acts[1..], slicesMode)
      case Abort => Target(if slicesMode then next else HANDLE_OVER, acts[1..], slicesMode)
  }

  /** The phases a call runs, from `step` on. */
  function Phases(step: int, hooks: seq<seq<Act>>, slicesMode: bool): seq<int>
    decreases |hooks|, if step < HANDLE_OVER then HANDLE_OVER - step else 0
  {
    if HANDLE_OVER <= step then []
    else if step < PRE_HANDLE then Phases(PRE_HANDLE, hooks, slicesMode)
    else if hooks == [] then [step] + Phases(step + 1, [], slicesMode)
    else [step] + Phases(Target(step + 1, hooks[0], slicesMode), hooks[1..], slicesMode)
  }

  /** Two steps that lead to the same phases. */
  predicate SameStep(a: int, b: int)
  {
    a == b || (HANDLE_OVER <= a && HANDLE_OVER <= b)
  }

  lemma {:induction false} ActsLeadToTarget(r: Req, acts: seq<Act>)
    ensures var t := Target(if r.needNext then r.steps + 1 else r.steps, acts, r.slicesMode);
            && SameStep(Next(ApplyAll(r, acts)).steps, t)
            && Next(ApplyAll(r, acts)).needNext
            && ApplyAll(r, acts).slicesMode == r.slicesMode
    decreases |acts|
  {
    if acts == [] {
    } else {
      var r1 := Apply(r, acts[0]);
      ActsLeadToTarget(r1, acts[1..]);
      if acts[0].Abort? && !r.slicesMode {
        TargetFromOver(if r1.needNext then r1.steps + 1 else r1.steps, HANDLE_OVER, acts[1..], r.slicesMode);
      }
    }
  }

  lemma {:induction false} TargetFromOver(a: int, b: int, acts: seq<Act>, slicesMode: bool)
    requires SameStep(a, b)
    ensures SameStep(Target(a, acts, slicesMode), Target(b, acts, slicesMode))
    decreases |acts|
  {
    if acts == [] {
    } else {
      match acts[0]
      case Goto(s) =>
      case Abort =>
        var a', b' := if slicesMode then a else HANDLE_OVER, if slicesMode then b else HANDLE_OVER;
        TargetFromOver(a', b', acts[1..], slicesMode);
    }
  }

  lemma {:induction false} PhasesFromNegative(step: int, hooks: seq<seq<Act>>, slicesMode: bool)
    requires step < PRE_HANDLE
    ensures Phases(step, hooks, slicesMode) == Phases(step + 1, hooks, slicesMode)
  {
  }

  /** The flag and the counter run exactly the phases that the Gotos and Aborts ask for, and end over. */
  lemma {:induction false} LoopRunsPhases(r: Req, hooks: seq<seq<Act>>)
    requires r.needNext
    ensures var (last, ran) := Loop(r, hooks);
            && ran == Phases(r.steps, hooks, r.slicesMode)
            && HANDLE_OVER <= last.steps && last.needNext && last.slicesMode == r.slicesMode
    decreases |hooks|, if r.steps < HANDLE_OVER then HANDLE_OVER - r.steps else 0
  {
    if HANDLE_OVER <= r.steps {
    } else if r.steps < PRE_HANDLE {
      LoopRunsPhases(Next(r), hooks);
      PhasesFromNegative(r.steps, hooks, r.slicesMode);
    } else if hooks == [] {
      LoopRunsPhases(Next(r), []);
    } else {
      var after := Next(ApplyAll(r, hooks[0]));
      ActsLeadToTarget(r, hooks[0]);
      LoopRunsPhases(after, hooks[1..]);
      PhasesSame(after.steps, Target(r.steps + 1, hooks[0], r.slicesMode), hooks[1..], r.slicesMode);
    }
  }

  lemma PhasesSame(a: int, b: int, hooks: seq<seq<Act>>, slicesMode: bool)
    requires SameStep(a, b)
    ensures Phases(a, hooks, slicesMode) == Phases(b, hooks, slicesMode)
  {
  }

  function Rest(hooks: seq<seq<Act>>): seq<seq<Act>>
  {
    if hooks == [] then [] else hooks[1..]
  }

  /**
   The phases of a call entered in any state. With the flag clear, as a Goto before the call leaves
   it, the first phase leads to itself instead of its successor.
   */
  function PhasesOnEntry(r: Req, hooks: seq<seq<Act>>): seq<int>
  {
    if r.needNext || !IsPhase(r.steps) then
      Phases(r.steps, hooks, r.slicesMode)
    else
      var next := if hooks == [] then r.steps else Target(r.steps, hooks[0], r.slicesMode);
      [r.steps] + Phases(next, Rest(hooks), r.slicesMode)
  }

  /** The loop runs those phases; only a call that finds it over already leaves the flag clear. */
  lemma LoopRunsOnEntry(r: Req, hooks: seq<seq<Act>>)
    ensures var (last, ran) := Loop(r, hooks);
            && ran == PhasesOnEntry(r, hooks)
            && HANDLE_OVER <= last.steps && last.slicesMode == r.slicesMode
            && last.needNext == (r.needNext || r.steps < HANDLE_OVER)
  {
    if r.needNext {
      LoopRunsPhases(r, hooks);
    } else if r.steps < PRE_HANDLE {
      LoopRunsPhases(Next(r), hooks);
    } else if r.steps < HANDLE_OVER {
      if hooks == [] {
        LoopRunsPhases(Next(r), []);
      } else {
        var after := Next(ApplyAll(r, hooks[0]));
        ActsLeadToTarget(r, hooks[0]);
        LoopRunsPhases(after, hooks[1..]);
        PhasesSame(after.steps, Target(r.steps, hooks[0], r.slicesMode), hooks[1..], r.slicesMode);
      }
    }
  }

  predicate NoGoto(acts: seq<Act>)
  {
    forall a <- acts :: !a.Goto?
  }

  predicate NoAbort(acts: seq<Act>)
  {
    forall a <- acts :: !a.Abort?
  }

  lemma {:induction false} TargetConcat(next: int, a: seq<Act>, b: seq<Act>, slicesMode: bool)
    ensures Target(next, a + b, slicesMode) == Target(Target(next, a, slicesMode), b, slicesMode)
    decreases |a|
  {
    if a == [] {
      assert a + b == b;
    } else {
      assert (a + b)[1..] == a[1..] + b;
      match a[0]
      case Goto(s) => TargetConcat(s, a[1..], b, slicesMode);
      case Abort => TargetConcat(if slicesMode then next else HANDLE_OVER, a[1..], b, slicesMode);
    }
  }

  lemma {:induction false} QuietTarget(next: int, acts: seq<Act>, slicesMode: bool)
    requires NoGoto(acts) && (slicesMode || NoAbort(acts) || next == HANDLE_OVER)
    ensures Target(next, acts, slicesMode) == next
    decreases |acts|
  {
    if acts == [] {
    } else {
      assert acts[0] in acts;
      QuietTarget(next, acts[1..], slicesMode);
    }
  }

  /** After a Goto that no later Goto or effective Abort overrides, its target is next. */
  lemma LastGotoDecides(next: int, before: seq<Act>, s: int, after: seq<Act>, slicesMode: bool)
    requires NoGoto(after) && (slicesMode || NoAbort(after))
    ensures Target(next, before + [Goto(s)] + after, slicesMode) == s
  {
    TargetConcat(next, before + [Goto(s)], after, slicesMode);
    TargetConcat(next, before, [Goto(s)], slicesMode);
    QuietTarget(s, after, slicesMode);
    assert Target(Target(next, before, slicesMode), [Goto(s)], slicesMode) == s;
  }

  lemma AbortLeadsOver(next: int, before: seq<Act>, after: seq<Act>)
    requires NoGoto(after)
    ensures Target(next, before + [Abort] + after, false) == HANDLE_OVER
  {
    TargetConcat(next, before + [Abort], after, false);
    TargetConcat(next, before, [Abort], false);
    QuietTarget(HANDLE_OVER, after, false);
    assert Target(Target(next, before, false), [Abort], false) == HANDLE_OVER;
  }

  /** After an Abort outside slices mode with no later Goto, no phase follows. */
  lemma NoPhaseAfterAbort(next: int, before: seq<Act>, after: seq<Act>, hooks: seq<seq<Act>>)
    requires NoGoto(after)
    ensures Phases(Target(next, before + [Abort] + after, false), hooks, false) == []
  {
    AbortLeadsOver(next, before, after);
  }

  /** Each phase run is one of the three, and the next is where its calls lead, or none. */
  lemma {:induction false} PhaseFollows(step: int, hooks: seq<seq<Act>>, slicesMode: bool, i: nat)
    requires i < |Phases(step, hooks, slicesMode)|
    ensures var ps := Phases(step, hooks, slicesMode);
            var next := Target(ps[i] + 1, if i < |hooks| then hooks[i] else [], slicesMode);
            && IsPhase(ps[i])
            && (i == 0 ==> ps[0] == if step < PRE_HANDLE then PRE_HANDLE else step)
            && if HANDLE_OVER <= next then |ps| == i + 1
               else i + 1 < |ps| && ps[i + 1] == if next < PRE_HANDLE then PRE_HANDLE else next
    decreases i, if step < PRE_HANDLE then 1 else 0
  {
    hide Target, Phases;
    if step < PRE_HANDLE {
      StartsOver(step, hooks, slicesMode);
      PhaseFollows(PRE_HANDLE, hooks, slicesMode, i);
    } else {
      FirstOfPhases(step, hooks, slicesMode);
      var next := Target(step + 1, if hooks == [] then [] else hooks[0], slicesMode);
      FirstThenRest(step, hooks, slicesMode);
      FirstOfPhases(next, Rest(hooks), slicesMode);
      if i > 0 {
        PhaseFollows(next, Rest(hooks), slicesMode, i - 1);
      }
    }
  }

  lemma StartsOver(step: int, hooks: seq<seq<Act>>, slicesMode: bool)
    requires step < PRE_HANDLE
    ensures Phases(step, hooks, slicesMode) == Phases(PRE_HANDLE, hooks, slicesMode)
  {
  }

  lemma FirstThenRest(step: int, hooks: seq<seq<Act>>, slicesMode: bool)
    requires IsPhase(step)
    ensures Phases(step, hooks, slicesMode)
         == [step] + Phases(Target(step + 1, if hooks == [] then [] else hooks[0], slicesMode), Rest(hooks), slicesMode)
  {
  }

  lemma FirstOfPhases(step: int, hooks: seq<seq<Act>>, slicesMode: bool)
    ensures var ps := Phases(step, hooks, slicesMode);
            if HANDLE_OVER <= step then ps == []
            else ps != [] && ps[0] == if step < PRE_HANDLE then PRE_HANDLE else step
  {
  }

  /**
   What follows phase `i` of a call: after a Goto that nothing overrides its target, the first phase
   for a negative one and no phase beyond the last; after an Abort with no later Goto, no phase,
   outside slices mode; and after neither its successor.
   */
  lemma NextPhaseExactly(step: int, hooks: seq<seq<Act>>, slicesMode: bool, i: nat, before: seq<Act>, after: seq<Act>)
    requires i < |Phases(step, hooks, slicesMode)|
    ensures var ps := Phases(step, hooks, slicesMode);
            var acts := if i < |hooks| then hooks[i] else [];
            && (forall s :: acts == before + [Goto(s)] + after && NoGoto(after) && (slicesMode || NoAbort(after)) ==>
                  if s >= HANDLE_OVER then |ps| == i + 1
                  else i + 1 < |ps| && ps[i + 1] == if s < PRE_HANDLE then PRE_HANDLE else s)
            && (acts == before + [Abort] + after && NoGoto(after) && !slicesMode ==> |ps| == i + 1)
            && (NoGoto(acts) && (slicesMode || NoAbort(acts)) ==>
                  if ps[i] == POST_HANDLE then |ps| == i + 1 else i + 1 < |ps| && ps[i + 1] == ps[i] + 1)
  {
    hide Target, Phases;
    var ps := Phases(step, hooks, slicesMode);
    var acts := if i < |hooks| then hooks[i] else [];
    PhaseFollows(step, hooks, slicesMode, i);
    forall s | acts == before + [Goto(s)] + after && NoGoto(after) && (slicesMode || NoAbort(after))
      ensures Target(ps[i] + 1, acts, slicesMode) == s
    {
      LastGotoDecides(ps[i] + 1, before, s, after, slicesMode);
    }
    if acts == before + [Abort] + after && NoGoto(after) && !slicesMode {
      AbortLeadsOver(ps[i] + 1, before, after);
    }
    if NoGoto(acts) && (slicesMode || NoAbort(acts)) {
      QuietTarget(ps[i] + 1, acts, slicesMode);
    }
  }

  predicate AllQuiet(hooks: seq<seq<Act>>)
  {
    forall acts <- hooks :: acts == []
  }

  lemma QuietPhase(step: int, hooks: seq<seq<Act>>, slicesMode: bool)
    requires IsPhase(step) && AllQuiet(hooks)
    ensures AllQuiet(Rest(hooks))
    ensures Phases(step, hooks, slicesMode) == [step] + Phases(step + 1, Rest(hooks), slicesMode)
  {
    if hooks == [] {
    } else {
      assert hooks[0] in hooks;
      assert forall acts <- hooks[1..] :: acts in hooks;
    }
  }

  /** Phases that call neither run as Pre, Handle, Post, once each. */
  lemma QuietRunIsPreHandlePost(hooks: seq<seq<Act>>, slicesMode: bool)
    requires AllQuiet(hooks)
    ensures Phases(PRE_HANDLE, hooks, slicesMode) == [PRE_HANDLE, HANDLE, POST_HANDLE]
  {
    QuietPhase(PRE_HANDLE, hooks, slicesMode);
    QuietPhase(HANDLE, Rest(hooks), slicesMode);
    QuietPhase(POST_HANDLE, Rest(Rest(hooks)), slicesMode);
  }

  // ----- the request object

  class Request {
    const slicesMode: bool
    var steps: int
    var needNext: bool
    var hasRouter: bool
    /** What the router's phases are going to do, in the order they are run. */
    var router: seq<seq<Act>>
    ghost var ran: seq<int>

    ghost function State(): Req
      reads this
    {
      Req(steps, needNext, slicesMode)
    }

    constructor (slicesMode: bool)
      ensures State() == Req(PRE_HANDLE, true, slicesMode) && !hasRouter && ran == []
    {
      this.slicesMode := slicesMode;
      steps, needNext, hasRouter, router, ran := PRE_HANDLE, true, false, [], [];
    }

    method BindRouter(router: seq<seq<Act>>)
      modifies this
      ensures hasRouter && this.router == router && State() == old(State()) && ran == old(ran)
    {
      hasRouter, this.router := true, router;
    }

    method Advance()
      modifies this`steps, this`needNext
      ensures State() == Next(old(State()))
    {
      if !needNext {
        needNext := true;
        return;
      }
      steps := steps + 1;
    }

    method GotoStep(step: int)
      modifies this`steps, this`needNext
      ensures State() == Apply(old(State()), Goto(step))
    {
      steps := step;
      needNext := false;
    }

    method AbortCall()
      modifies this`steps
      ensures State() == Apply(old(State()), Abort)
    {
      if !slicesMode {
        steps := HANDLE_OVER;
      }
    }

    /** Runs one phase of the router. */
    method RunPhase()
      modifies this
      ensures ran == old(ran) + [old(steps)] && hasRouter == old(hasRouter)
      ensures router == if old(router) == [] then [] else old(router)[1..]
      ensures State() == if old(router) == [] then old(State()) else ApplyAll(old(State()), old(router)[0])
    {
      ran := ran + [steps];
      if router == [] {
        return;
      }
      var acts := router[0];
      ghost var whole := ApplyAll(State(), acts);
      router := router[1..];
      while acts != []
        invariant whole == ApplyAll(State(), acts)
        invariant ran == old(ran) + [old(steps)] && hasRouter == old(hasRouter) && router == old(router)[1..]
        decreases |acts|
      {
        match acts[0] {
          case Goto(s) => GotoStep(s);
          case Abort => AbortCall();
        }
        acts := acts[1..];
      }
    }

    /** Runs the router's phases; without a router nothing happens. */
    method Call()
      modifies this
      ensures !old(hasRouter) ==> State() == old(State()) && ran == old(ran)
      ensures old(hasRouter) ==>
                && ran == old(ran) + PhasesOnEntry(old(State()), old(router))
                && State() == Req(PRE_HANDLE, old(needNext) || old(steps) < HANDLE_OVER, slicesMode)
    {
      if !hasRouter {
        return;
      }
      ghost var goal := LoopFrom(State(), router, ran);
      LoopRunsOnEntry(State(), router);
      hide Loop, Phases, ApplyAll, PhasesOnEntry;
      while steps < HANDLE_OVER
        invariant hasRouter && goal == LoopFrom(State(), router, ran)
        decreases |router|, if steps < HANDLE_OVER then HANDLE_OVER - steps else 0, !needNext
      {
        ghost var before := State();
        ghost var hooks, sofar := router, ran;
        if PRE_HANDLE <= steps <= POST_HANDLE {
          RunPhase();
        }
        Advance();
        LoopTurn(before, hooks, sofar);
      }
      LoopEnds(State(), router, ran);
      steps := PRE_HANDLE;
    }
  }

  /** The outcome of a loop that has run some phases already. */
  function LoopFrom(r: Req, hooks: seq<seq<Act>>, sofar: seq<int>): (Req, seq<int>)
  {
    (Loop(r, hooks).0, sofar + Loop(r, hooks).1)
  }

  lemma LoopEnds(r: Req, hooks: seq<seq<Act>>, sofar: seq<int>)
    requires HANDLE_OVER <= r.steps
    ensures LoopFrom(r, hooks, sofar) == (r, sofar)
  {
    assert sofar + [] == sofar;
  }

  lemma LoopTurn(r: Req, hooks: seq<seq<Act>>, sofar: seq<int>)
    requires r.steps < HANDLE_OVER
    ensures LoopFrom(r, hooks, sofar)
         == if !IsPhase(r.steps) then LoopFrom(Next(r), hooks, sofar)
            else if hooks == [] then LoopFrom(Next(r), [], sofar + [r.steps])
            else LoopFrom(Next(ApplyAll(r, hooks[0])), hooks[1..], sofar + [r.steps])
  {
    if IsPhase(r.steps) {
      var later := if hooks == [] then Loop(Next(r), []).1 else Loop(Next(ApplyAll(r, hooks[0])), hooks[1..]).1;
      assert sofar + ([r.steps] + later) == sofar + [r.steps] + later;
    }
  }
}
