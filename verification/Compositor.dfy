/**
 * An abstract Hyprland as snapshot restore drives it, and the applier. `togglefloating` and `pin` are flips,
 * `pin` is refused on a tiled window, exact moves and resizes do nothing on a tiled window, and each
 * dispatcher changes only its own attribute.
 */
module Compositor {
  import opened Wrappers
  import opened Snapshots
  import Selectors

  datatype Verb =
    | MoveSilent(workspace: string)
    | FlipFloating
    | MovePixel(at: Pair)
    | ResizePixel(size: Pair)
    | FullscreenState(mode: int)
    | FlipPin
    | Focus

  /**
   * Everything a run of the applier cannot foresee, by position of the action in the diff: whether its first
   * or second dispatch fails for an outside reason, and where a relative workspace move lands.
   */
  datatype World = World(fails: (nat, nat) -> bool, lands: nat -> Selectors.NumberedId)

  /** An `address:` selector names the window with that pointer, with or without `0x`. */
  predicate Selects(selector: string, w: Window) {
    match Selectors.ParseWindow(selector)
    case Ok(Address(a)) => Selectors.NormalizeAddr(a) == Selectors.NormalizeAddr(w.address)
    case _ => false
  }

  predicate Accepts(verb: Verb, w: Window) {
    match verb
    case MoveSilent(ws) => Selectors.ParseWorkspace(ws).Ok?
    case FlipPin => w.floating
    case _ => true
  }

  /** What survives every dispatcher: the attributes that matching looks at. */
  predicate SameIdentity(v: Window, w: Window) {
    v.address == w.address && v.pid == w.pid
    && v.initialClass == w.initialClass && v.initialTitle == w.initialTitle
  }

  function Effect(verb: Verb, w: Window, landing: Selectors.NumberedId): (r: Window)
    ensures SameIdentity(w, r)
  {
    match verb
    case MoveSilent(ws) =>
      (match Selectors.ParseWorkspace(ws)
       case Ok(Id(n)) => w.(workspaceId := n)
       case Ok(_) => w.(workspaceId := landing)
       case Err(_) => w)
    case FlipFloating => w.(floating := !w.floating)
    case MovePixel(at) => if w.floating then w.(at := at) else w
    case ResizePixel(size) => if w.floating then w.(size := size) else w
    case FullscreenState(mode) => w.(fullscreen := mode)
    case FlipPin => w.(pinned := !w.pinned)
    case Focus => w
  }

  function EffectOn(verb: Verb, selector: string, failed: bool, landing: Selectors.NumberedId, w: Window): (r: Window)
    ensures SameIdentity(w, r)
  {
    if !failed && Selects(selector, w) && Accepts(verb, w) then Effect(verb, w, landing) else w
  }

  function EffectAll(verb: Verb, selector: string, failed: bool, landing: Selectors.NumberedId,
                     ws: seq<Window>): (r: seq<Window>)
    ensures |r| == |ws|
    ensures forall k | 0 <= k < |ws| :: r[k] == EffectOn(verb, selector, failed, landing, ws[k])
  {
    if ws == [] then []
    else [EffectOn(verb, selector, failed, landing, ws[0])] + EffectAll(verb, selector, failed, landing, ws[1..])
  }

  function FirstAccepting(verb: Verb, selector: string, ws: seq<Window>): (r: Option<Window>)
    ensures r.Some? <==> exists k | 0 <= k < |ws| :: Selects(selector, ws[k]) && Accepts(verb, ws[k])
    ensures r.Some? ==> r.value in ws && Selects(selector, r.value) && Accepts(verb, r.value)
  {
    if ws == [] then None
    else if Selects(selector, ws[0]) && Accepts(verb, ws[0]) then Some(ws[0])
    else FirstAccepting(verb, selector, ws[1..])
  }

  /** One dispatcher call: the new desktop and whether the reply was `ok`. */
  function Dispatch(st: Snapshot, verb: Verb, selector: string, failed: bool,
                    landing: Selectors.NumberedId): (Snapshot, bool) {
    var target := FirstAccepting(verb, selector, st.windows);
    if failed || target.None? then (st, false)
    else
      var active := if verb.Focus? then Some(target.value.address) else st.active;
      (Snapshot(EffectAll(verb, selector, failed, landing, st.windows), active), true)
  }

  // ---- applying a diff -------------------------------------------------------------

  datatype Failure = MoveFailed | DispatchFailed

  datatype Outcome = Outcome(action: RestoreAction, ok: bool, skipped: bool, error: Option<Failure>)

  function OutcomeFrom(action: RestoreAction, ok: bool): Outcome {
    if ok then Outcome(action, true, false, None) else Outcome(action, false, false, Some(DispatchFailed))
  }

  function SelectorFor(address: string): string {
    Selectors.EncodeWindow(Selectors.Address(address))
  }

  /** The dispatcher an action uses; repositioning starts with the move. */
  function VerbFor(a: RestoreAction): Verb
    requires IsMutating(a)
  {
    match a
    case MoveToWorkspace(_, _, to) => MoveSilent(Selectors.EncodeWorkspace(Selectors.Id(to)))
    case ToggleFloating(_, _) => FlipFloating
    case RepositionFloating(_, at, _, _, _) => MovePixel(at)
    case SetFullscreen(_, _, mode) => FullscreenState(mode)
    case SetPin(_, _) => FlipPin
    case RestoreActiveFocus(_, _) => Focus
  }

  function ApplyAction(st: Snapshot, a: RestoreAction, i: nat, world: World): (Snapshot, Outcome) {
    if !IsMutating(a) then (st, Outcome(a, true, true, None))
    else
      var (st1, ok1) := Dispatch(st, VerbFor(a), SelectorFor(a.address), world.fails(i, 0), world.lands(i));
      if a.RepositionFloating? then
        if !ok1 then (st1, Outcome(a, false, false, Some(MoveFailed)))
        else
          var (st2, ok2) :=
            Dispatch(st1, ResizePixel(a.targetSize), SelectorFor(a.address), world.fails(i, 1), world.lands(i));
          (st2, OutcomeFrom(a, ok2))
      else (st1, OutcomeFrom(a, ok1))
  }

  /** An action whose first dispatch fails changes nothing: a reposition does not go on to resize. */
  lemma FailedFirst(st: Snapshot, a: RestoreAction, i: nat, world: World)
    requires IsMutating(a) && world.fails(i, 0)
    ensures ApplyAction(st, a, i, world).0 == st && !ApplyAction(st, a, i, world).1.ok
  {
  }

  /** The run of `actions`, the first of which stands at position `i` of the diff. */
  function Apply(st: Snapshot, actions: seq<RestoreAction>, i: nat, world: World): (Snapshot, seq<Outcome>)
    decreases |actions|
  {
    if actions == [] then (st, [])
    else
      var (st1, outcome) := ApplyAction(st, actions[0], i, world);
      var (st2, outcomes) := Apply(st1, actions[1..], i + 1, world);
      (st2, [outcome] + outcomes)
  }

  /** The compositor as the applier sees it: a state that dispatcher calls change. */
  class Hyprland {
    var desktop: Snapshot
    const world: World

    constructor (desktop: Snapshot, world: World)
      ensures this.desktop == desktop && this.world == world
    {
      this.desktop := desktop;
      this.world := world;
    }

    method Call(verb: Verb, selector: string, i: nat, part: nat) returns (ok: bool)
      modifies this`desktop
      ensures (desktop, ok) == Dispatch(old(desktop), verb, selector, world.fails(i, part), world.lands(i))
    {
      var (next, accepted) := Dispatch(desktop, verb, selector, world.fails(i, part), world.lands(i));
      desktop := next;
      ok := accepted;
    }
  }

  lemma {:induction false} ApplyConcat(st: Snapshot, a: seq<RestoreAction>, b: seq<RestoreAction>, i: nat, world: World)
    decreases |a|
    ensures var (st1, o1) := Apply(st, a, i, world);
      var (st2, o2) := Apply(st1, b, i + |a|, world);
      Apply(st, a + b, i, world) == (st2, o1 + o2)
  {
    if a == [] {
      assert a + b == b;
      assert Apply(st, a, i, world) == (st, []);
      assert [] + Apply(st, b, i, world).1 == Apply(st, b, i, world).1;
    } else {
      assert (a + b)[1..] == a[1..] + b;
      var (st0, o0) := ApplyAction(st, a[0], i, world);
      ApplyConcat(st0, a[1..], b, i + 1, world);
      var (st1, o1) := Apply(st0, a[1..], i + 1, world);
      var (st2, o2) := Apply(st1, b, i + |a|, world);
      assert [o0] + (o1 + o2) == ([o0] + o1) + o2;
    }
  }

  lemma ApplyOne(st: Snapshot, a: RestoreAction, i: nat, world: World)
    ensures var (st1, outcome) := ApplyAction(st, a, i, world);
      Apply(st, [a], i, world) == (st1, [outcome])
  {
    var (st1, outcome) := ApplyAction(st, a, i, world);
    assert Apply(st1, [a][1..], i + 1, world) == (st1, []);
    assert [outcome] + [] == [outcome];
  }

  /** One action: a second dispatch follows only when repositioning, and only when the first was accepted. */
  method Perform(conn: Hyprland, action: RestoreAction, i: nat) returns (outcome: Outcome)
    modifies conn`desktop
    ensures (conn.desktop, outcome) == ApplyAction(old(conn.desktop), action, i, conn.world)
  {
    hide Dispatch;
    if !IsMutating(action) {
      return Outcome(action, true, true, None);
    }
    var selector := SelectorFor(action.address);
    var ok := conn.Call(VerbFor(action), selector, i, 0);
    if action.RepositionFloating? {
      if !ok {
        return Outcome(action, false, false, Some(MoveFailed));
      }
      ok := conn.Call(ResizePixel(action.targetSize), selector, i, 1);
    }
    outcome := OutcomeFrom(action, ok);
  }

  method ApplyDiff(conn: Hyprland, actions: seq<RestoreAction>) returns (outcomes: seq<Outcome>)
    modifies conn`desktop
    ensures (conn.desktop, outcomes) == Apply(old(conn.desktop), actions, 0, conn.world)
  {
    hide ApplyAction;
    outcomes := [];
    assert actions[..0] == [];
    for i := 0 to |actions|
      invariant (conn.desktop, outcomes) == Apply(old(conn.desktop), actions[..i], 0, conn.world)
    {
      assert actions[..i + 1] == actions[..i] + [actions[i]];
      ApplyConcat(old(conn.desktop), actions[..i], [actions[i]], 0, conn.world);
      ApplyOne(conn.desktop, actions[i], i, conn.world);
      var outcome := Perform(conn, actions[i], i);
      outcomes := outcomes + [outcome];
    }
    assert actions[..|actions|] == actions;
  }
}
