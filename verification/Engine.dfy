/** The rules engine: first match wins, and a guard that keeps it from reacting to its own actions. */
module Engine {
  import opened Wrappers
  import opened Events

  /** A rule of the config: event kind, field predicates, and its actions as text. */
  datatype Rule = Rule(on: string, when: map<string, string>, actions: seq<string>)

  datatype CompiledRule<A> = CompiledRule(on: string, when: map<string, string>, actions: seq<A>)

  /** The rule and the action in it that did not parse. */
  datatype CompileError = CompileError(rule: nat, action: nat)

  // ---- compiling --------------------------------------------------------------------------------

  /** The actions of one rule, all parsed, or the position of the first that does not parse. */
  method ParseAll<A>(texts: seq<string>, parse: string -> Option<A>) returns (r: Result<seq<A>, nat>)
    ensures r.Ok? ==> |r.value| == |texts| && forall i | 0 <= i < |texts| :: parse(texts[i]) == Some(r.value[i])
    ensures r.Err? ==>
      && r.error < |texts| && parse(texts[r.error]).None?
      && forall i | 0 <= i < r.error :: parse(texts[i]).Some?
  {
    var actions := [];
    for i := 0 to |texts|
      invariant |actions| == i
      invariant forall j | 0 <= j < i :: parse(texts[j]) == Some(actions[j])
    {
      match parse(texts[i]) {
        case None => return Err(i);
        case Some(a) => actions := actions + [a];
      }
    }
    r := Ok(actions);
  }

  predicate Compiles<A(==)>(rule: Rule, compiled: CompiledRule<A>, parse: string -> Option<A>) {
    compiled.on == rule.on && compiled.when == rule.when && |compiled.actions| == |rule.actions|
    && forall i | 0 <= i < |rule.actions| :: parse(rule.actions[i]) == Some(compiled.actions[i])
  }

  predicate ParsesThrough<A>(rule: Rule, upTo: nat, parse: string -> Option<A>)
    requires upTo <= |rule.actions|
  {
    forall i | 0 <= i < upTo :: parse(rule.actions[i]).Some?
  }

  /** All rules are compiled, or none: the error names the first action of the config that does not parse. */
  method Compile<A(==)>(rules: seq<Rule>, parse: string -> Option<A>)
    returns (r: Result<seq<CompiledRule<A>>, CompileError>)
    ensures r.Ok? ==> |r.value| == |rules| && forall i | 0 <= i < |rules| :: Compiles(rules[i], r.value[i], parse)
    ensures r.Err? ==>
      && r.error.rule < |rules| && r.error.action < |rules[r.error.rule].actions|
      && parse(rules[r.error.rule].actions[r.error.action]).None?
      && ParsesThrough(rules[r.error.rule], r.error.action, parse)
      && forall i | 0 <= i < r.error.rule :: ParsesThrough(rules[i], |rules[i].actions|, parse)
  {
    var out := [];
    for i := 0 to |rules|
      invariant |out| == i
      invariant forall j | 0 <= j < i :: Compiles(rules[j], out[j], parse)
    {
      var parsed := ParseAll(rules[i].actions, parse);
      match parsed {
        case Err(k) => return Err(CompileError(i, k));
        case Ok(actions) => out := out + [CompiledRule(rules[i].on, rules[i].when, actions)];
      }
    }
    r := Ok(out);
  }

  // ---- matching ---------------------------------------------------------------------------------

  predicate PredicateMatches(when: map<string, string>, fields: map<string, string>) {
    forall k | k in when :: k in fields && fields[k] == when[k]
  }

  predicate RuleMatches<A>(rule: CompiledRule<A>, ev: Event) {
    rule.on == ev.kind && PredicateMatches(rule.when, ev.fields)
  }

  /** A rule matches the events of its kind whose fields include all its predicates, values and all. */
  lemma MatchesSubmap<A>(rule: CompiledRule<A>, ev: Event)
    ensures RuleMatches(rule, ev) <==> rule.on == ev.kind && rule.when.Items <= ev.fields.Items
  {
    if rule.when.Items <= ev.fields.Items {
      forall k | k in rule.when ensures k in ev.fields && ev.fields[k] == rule.when[k] {
        assert (k, rule.when[k]) in rule.when.Items;
      }
    }
    if PredicateMatches(rule.when, ev.fields) {
      forall item | item in rule.when.Items ensures item in ev.fields.Items {
        assert item.0 in rule.when && rule.when[item.0] == item.1;
      }
    }
  }

  /** The rule that an event fires: the first that matches, if any does. */
  ghost predicate IsFirstMatch<A>(rules: seq<CompiledRule<A>>, ev: Event, which: Option<nat>) {
    match which
    case Some(i) => i < |rules| && RuleMatches(rules[i], ev) && forall j | 0 <= j < i :: !RuleMatches(rules[j], ev)
    case None => forall j | 0 <= j < |rules| :: !RuleMatches(rules[j], ev)
  }

  // ---- the guard --------------------------------------------------------------------------------

  /** `usize` subtraction as an atomic counter does it. */
  function WrappingSub1(n: nat): nat {
    if n == 0 then 0xFFFF_FFFF_FFFF_FFFF else n - 1
  }

  /** A depth counter whose decrements run on detached tasks, each due `decay` after its guard is dropped. */
  class ReentranceGuard {
    var depth: nat
    var pending: seq<nat>
    const decay: nat

    constructor (decay: nat)
      ensures depth == 0 && pending == [] && this.decay == decay
    {
      depth, pending := 0, [];
      this.decay := decay;
    }

    method Bump()
      modifies this
      ensures depth == old(depth) + 1 && pending == old(pending)
    {
      depth := depth + 1;
    }

    method Drop(now: nat)
      modifies this
      ensures depth == old(depth) && pending == old(pending) + [now + decay]
    {
      pending := pending + [now + decay];
    }

    method Decrement(k: nat)
      requires k < |pending|
      modifies this
      ensures depth == WrappingSub1(old(depth)) && pending == old(pending)[..k] + old(pending)[k + 1..]
    {
      depth := WrappingSub1(depth);
      pending := pending[..k] + pending[k + 1..];
    }

    /**
     * One event. A failing action does not stop the later ones; `succeeds` tells which fail, and `ended` is when
     * the last one is done.
     */
    method HandleEvent<A>(rules: seq<CompiledRule<A>>, ev: Event, succeeds: nat -> bool, ended: nat)
      returns (fired: Option<nat>, executed: seq<(A, bool)>)
      modifies this
      ensures old(depth) > 0 ==> fired.None?
      ensures old(depth) == 0 ==> IsFirstMatch(rules, ev, fired)
      ensures fired.Some? ==>
        && fired.value < |rules|
        && |executed| == |rules[fired.value].actions|
        && forall i | 0 <= i < |executed| :: executed[i] == (rules[fired.value].actions[i], succeeds(i))
      ensures fired.Some? ==> depth == old(depth) + 1 && pending == old(pending) + [ended + decay]
      ensures fired.None? ==> executed == [] && depth == old(depth) && pending == old(pending)
    {
      fired, executed := None, [];
      if depth > 0 {
        return;
      }
      for i := 0 to |rules|
        invariant fired.None? && executed == [] && depth == old(depth) && pending == old(pending)
        invariant forall j | 0 <= j < i :: !RuleMatches(rules[j], ev)
      {
        if rules[i].on != ev.kind {
          continue;
        }
        if !PredicateMatches(rules[i].when, ev.fields) {
          continue;
        }
        Bump();
        var actions := rules[i].actions;
        for k := 0 to |actions|
          invariant depth == old(depth) + 1 && pending == old(pending)
          invariant |executed| == k
          invariant forall j | 0 <= j < k :: executed[j] == (actions[j], succeeds(j))
        {
          executed := executed + [(actions[k], succeeds(k))];
        }
        Drop(ended);
        return Some(i), executed;
      }
    }
  }
}
