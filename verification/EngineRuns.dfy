/** The engine's event loop and its detached decrements in time: how often rules can fire. */
module EngineRuns {
  import opened Wrappers
  import opened Events
  import opened Engine

  /** One firing of a rule; `ended` is set once its actions are done. */
  datatype Firing = Firing(rule: nat, start: nat, ended: Option<nat>)

  /** `executing` while the event loop awaits the actions of the newest firing; it handles no event meanwhile. */
  datatype State = State(now: nat, depth: nat, executing: bool, pending: seq<nat>, firings: seq<Firing>)

  datatype Step =
    | Tick(ms: nat)
    | Arrive(ev: Event)
    | ActionsDone
    | Decrement(which: nat)

  const START: State := State(0, 0, false, [], [])

  function FirstMatch<A>(rules: seq<CompiledRule<A>>, ev: Event, from: nat): (r: Option<nat>)
    requires from <= |rules|
    requires forall j | 0 <= j < from :: !RuleMatches(rules[j], ev)
    ensures IsFirstMatch(rules, ev, r)
    decreases |rules| - from
  {
    if from == |rules| then None
    else if RuleMatches(rules[from], ev) then Some(from)
    else FirstMatch(rules, ev, from + 1)
  }

  /** A step that is not possible in the state changes nothing; decrements may come late, never early. */
  function Next<A>(rules: seq<CompiledRule<A>>, decay: nat, st: State, step: Step): State {
    match step
    case Tick(ms) => st.(now := st.now + ms)
    case Arrive(ev) =>
      if st.executing || st.depth > 0 then st
      else
        (match FirstMatch(rules, ev, 0)
         case None => st
         case Some(rule) =>
           st.(depth := st.depth + 1, executing := true, firings := st.firings + [Firing(rule, st.now, None)]))
    case ActionsDone =>
      if !st.executing || st.firings == [] then st
      else
        var last := |st.firings| - 1;
        st.(executing := false, pending := st.pending + [st.now + decay],
            firings := st.firings[last := st.firings[last].(ended := Some(st.now))])
    case Decrement(k) =>
      if k < |st.pending| && st.pending[k] <= st.now
      then st.(depth := WrappingSub1(st.depth), pending := st.pending[..k] + st.pending[k + 1..])
      else st
  }

  function Run<A>(rules: seq<CompiledRule<A>>, decay: nat, st: State, steps: seq<Step>): State
    decreases |steps|
  {
    if steps == [] then st else Run(rules, decay, Next(rules, decay, st, steps[0]), steps[1..])
  }

  /** Consecutive firings: the later starts at least `decay` after the earlier's actions ended. */
  predicate Spaced(firings: seq<Firing>, decay: nat) {
    forall i | 0 <= i < |firings| - 1 ::
      && firings[i].ended.Some?
      && firings[i].start <= firings[i].ended.value
      && firings[i].ended.value + decay <= firings[i + 1].start
  }

  predicate Guarded(st: State, decay: nat) {
    && st.depth == |st.pending| + (if st.executing then 1 else 0)
    && st.depth <= 1
    && Spaced(st.firings, decay)
    && (st.firings == [] ==> st.depth == 0)
    && (st.firings != [] ==>
          var last := st.firings[|st.firings| - 1];
          && last.start <= st.now
          && (last.ended.None? <==> st.executing)
          && (last.ended.Some? ==>
                && last.start <= last.ended.value
                && (st.pending == [] ==> last.ended.value + decay <= st.now)
                && (st.pending != [] ==> st.pending == [last.ended.value + decay])))
  }

  lemma GuardedArrive<A>(rules: seq<CompiledRule<A>>, decay: nat, st: State, ev: Event)
    requires Guarded(st, decay)
    ensures Guarded(Next(rules, decay, st, Arrive(ev)), decay)
  {
    hide FirstMatch, RuleMatches;
    var st' := Next(rules, decay, st, Arrive(ev));
    forall i | 0 <= i < |st.firings| ensures st'.firings[i] == st.firings[i] {}
  }

  lemma GuardedDone<A>(rules: seq<CompiledRule<A>>, decay: nat, st: State)
    requires Guarded(st, decay)
    ensures Guarded(Next(rules, decay, st, ActionsDone), decay)
  {
    hide FirstMatch;
    var st' := Next(rules, decay, st, ActionsDone);
    forall i | 0 <= i < |st.firings| - 1 ensures st'.firings[i] == st.firings[i] {}
  }

  lemma GuardedStep<A>(rules: seq<CompiledRule<A>>, decay: nat, st: State, step: Step)
    requires Guarded(st, decay)
    ensures Guarded(Next(rules, decay, st, step), decay)
  {
    match step
    case Arrive(ev) => GuardedArrive(rules, decay, st, ev);
    case ActionsDone => GuardedDone(rules, decay, st);
    case _ =>
  }

  lemma {:induction false} GuardedRun<A>(rules: seq<CompiledRule<A>>, decay: nat, st: State, steps: seq<Step>)
    requires Guarded(st, decay)
    ensures Guarded(Run(rules, decay, st, steps), decay)
    decreases |steps|
  {
    if steps != [] {
      GuardedStep(rules, decay, st, steps[0]);
      GuardedRun(rules, decay, Next(rules, decay, st, steps[0]), steps[1..]);
    }
  }

  lemma {:induction false} SpacedApart(firings: seq<Firing>, decay: nat, i: nat, j: nat)
    requires Spaced(firings, decay) && i <= j < |firings|
    ensures firings[i].start + (j - i) * decay <= firings[j].start
    decreases j - i
  {
    if i < j {
      SpacedApart(firings, decay, i + 1, j);
      assert (j - i) * decay == (j - (i + 1)) * decay + decay;
    }
  }

  /**
   * Rule firing is rate-bounded. In every run the depth is the number of live guards plus pending decrements,
   * is never decremented at zero and never exceeds one; each firing starts at least `decay` after the previous
   * one's actions ended; so n + 1 firings take at least n times `decay` from the first start to the last.
   */
  lemma FiringRateBounded<A>(rules: seq<CompiledRule<A>>, decay: nat, steps: seq<Step>)
    ensures var st := Run(rules, decay, START, steps);
      && st.depth == |st.pending| + (if st.executing then 1 else 0)
      && st.depth <= 1
      && (forall i | 0 <= i < |st.firings| - 1 ::
            st.firings[i].ended.Some? && st.firings[i].ended.value + decay <= st.firings[i + 1].start)
      && (forall i, j | 0 <= i <= j < |st.firings| ::
            (j - i) * decay <= st.firings[j].start - st.firings[i].start)
  {
    GuardedRun(rules, decay, START, steps);
    var st := Run(rules, decay, START, steps);
    forall i, j | 0 <= i <= j < |st.firings|
      ensures (j - i) * decay <= st.firings[j].start - st.firings[i].start
    {
      SpacedApart(st.firings, decay, i, j);
    }
  }

  /** Until `decay` after its actions have ended no event makes the engine do anything: it never answers their echo. */
  lemma EchoIgnored<A>(rules: seq<CompiledRule<A>>, decay: nat, steps: seq<Step>, ev: Event)
    requires var st := Run(rules, decay, START, steps);
      && st.firings != []
      && var last := st.firings[|st.firings| - 1];
      last.ended.None? || st.now < last.ended.value + decay
    ensures var st := Run(rules, decay, START, steps);
      Next(rules, decay, st, Arrive(ev)) == st
  {
    GuardedRun(rules, decay, START, steps);
  }

  // ---- the loop ------------------------------------------------------------------------------------

  /** What happens next around the loop: an event and how its actions go, time passing, a decrement task waking up. */
  datatype Turn =
    | Receive(ev: Event, succeeds: nat -> bool, took: nat)
    | Wait(ms: nat)
    | Wake(which: nat)

  lemma {:induction false} RunSnoc<A>(rules: seq<CompiledRule<A>>, decay: nat, st: State, steps: seq<Step>, step: Step)
    ensures Run(rules, decay, st, steps + [step]) == Next(rules, decay, Run(rules, decay, st, steps), step)
    decreases |steps|
  {
    hide Next;
    var all := steps + [step];
    if steps == [] {
      assert all[1..] == [];
    } else {
      assert all[1..] == steps[1..] + [step];
      RunSnoc(rules, decay, Next(rules, decay, st, steps[0]), steps[1..], step);
    }
  }

  lemma OnlyFirstMatch<A>(rules: seq<CompiledRule<A>>, ev: Event, which: Option<nat>)
    requires IsFirstMatch(rules, ev, which)
    ensures FirstMatch(rules, ev, 0) == which
  {
    hide RuleMatches;
    assert IsFirstMatch(rules, ev, FirstMatch(rules, ev, 0));
  }

  /** A handled event is an arrival, then time passing, then the end of its actions. */
  lemma HandledEvent<A>(rules: seq<CompiledRule<A>>, decay: nat, st: State, ev: Event, fired: Option<nat>, took: nat)
    requires Guarded(st, decay) && !st.executing
    requires if st.depth > 0 then fired.None? else IsFirstMatch(rules, ev, fired)
    ensures var arrived := Next(rules, decay, st, Arrive(ev));
      var st' := Next(rules, decay, Next(rules, decay, arrived, Tick(took)), ActionsDone);
      && !st'.executing && st'.now == st.now + took
      && (fired.None? ==> st' == st.(now := st.now + took))
      && (fired.Some? ==>
            && st'.depth == st.depth + 1 && st'.pending == st.pending + [st.now + took + decay]
            && st'.firings == st.firings + [Firing(fired.value, st.now, Some(st.now + took))])
  {
    hide FirstMatch, RuleMatches, Guarded;
    if st.depth == 0 { OnlyFirstMatch(rules, ev, fired); }
  }

  /** The log of firings: rule and start time. */
  function Log(firings: seq<Firing>): (r: seq<(nat, nat)>)
    ensures |r| == |firings|
    ensures forall i | 0 <= i < |r| :: r[i] == (firings[i].rule, firings[i].start)
  {
    seq(|firings|, i requires 0 <= i < |firings| => (firings[i].rule, firings[i].start))
  }

  /** The engine's loop over any script of turns is a run of the steps above, so its firings are rate-bounded. */
  method Loop<A>(guard: ReentranceGuard, rules: seq<CompiledRule<A>>, script: seq<Turn>)
    returns (fired: seq<(nat, nat)>, ghost steps: seq<Step>)
    requires guard.depth == 0 && guard.pending == []
    modifies guard
    ensures var st := Run(rules, guard.decay, START, steps);
      guard.depth == st.depth && guard.pending == st.pending && fired == Log(st.firings)
    ensures forall i, j | 0 <= i <= j < |fired| :: fired[i].1 + (j - i) * guard.decay <= fired[j].1
  {
    hide Next, IsFirstMatch, RuleMatches, Guarded, Run;
    fired, steps := [], [];
    var now := 0;
    ghost var st := START;
    assert Run(rules, guard.decay, START, []) == START by { StartRun(rules, guard.decay); }
    for t := 0 to |script|
      invariant st == Run(rules, guard.decay, START, steps) && st.now == now && !st.executing
      invariant guard.depth == st.depth && guard.pending == st.pending && fired == Log(st.firings)
    {
      GuardedFromStart(rules, guard.decay, steps);
      match script[t] {
        case Wait(ms) =>
          now := now + ms;
          RunSnoc(rules, guard.decay, START, steps, Tick(ms));
          Passing(rules, guard.decay, st, ms);
          st, steps := Next(rules, guard.decay, st, Tick(ms)), steps + [Tick(ms)];
        case Wake(k) =>
          RunSnoc(rules, guard.decay, START, steps, Decrement(k));
          Waking(rules, guard.decay, st, k);
          if k < |guard.pending| && guard.pending[k] <= now {
            guard.Decrement(k);
          }
          st, steps := Next(rules, guard.decay, st, Decrement(k)), steps + [Decrement(k)];
        case Receive(ev, succeeds, took) =>
          var which, executed := guard.HandleEvent(rules, ev, succeeds, now + took);
          HandledEvent(rules, guard.decay, st, ev, which, took);
          if which.Some? {
            fired := fired + [(which.value, now)];
          }
          now := now + took;
          var st1 := Next(rules, guard.decay, st, Arrive(ev));
          var st2 := Next(rules, guard.decay, st1, Tick(took));
          RunSnoc(rules, guard.decay, START, steps, Arrive(ev));
          RunSnoc(rules, guard.decay, START, steps + [Arrive(ev)], Tick(took));
          RunSnoc(rules, guard.decay, START, steps + [Arrive(ev)] + [Tick(took)], ActionsDone);
          st := Next(rules, guard.decay, st2, ActionsDone);
          steps := steps + [Arrive(ev)] + [Tick(took)] + [ActionsDone];
      }
    }
    FiringRateBounded(rules, guard.decay, steps);
  }

  lemma StartRun<A>(rules: seq<CompiledRule<A>>, decay: nat)
    ensures Run(rules, decay, START, []) == START
  {
  }

  lemma GuardedFromStart<A>(rules: seq<CompiledRule<A>>, decay: nat, steps: seq<Step>)
    ensures Guarded(Run(rules, decay, START, steps), decay)
  {
    GuardedRun(rules, decay, START, steps);
  }

  lemma Passing<A>(rules: seq<CompiledRule<A>>, decay: nat, st: State, ms: nat)
    ensures Next(rules, decay, st, Tick(ms)) == st.(now := st.now + ms)
  {
  }

  lemma Waking<A>(rules: seq<CompiledRule<A>>, decay: nat, st: State, k: nat)
    ensures Next(rules, decay, st, Decrement(k))
         == if k < |st.pending| && st.pending[k] <= st.now
            then st.(depth := WrappingSub1(st.depth), pending := st.pending[..k] + st.pending[k + 1..]) else st
  {
  }
}
