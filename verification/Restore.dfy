/** What applying a diff achieves: per window under any failures, and for the whole desktop without any. */
module Restore {
  import opened Wrappers
  import opened Snapshots
  import opened Matching
  import opened Compositor
  import Selectors

  function Target(address: string): string {
    Selectors.NormalizeAddr(address)
  }

  /** No two windows answer to the same selector. */
  predicate DistinctTargets(ws: seq<Window>) {
    forall i, j | 0 <= i < j < |ws| :: Target(ws[i].address) != Target(ws[j].address)
  }

  lemma SelectsByAddress(address: string, w: Window)
    ensures Selects(SelectorFor(address), w) <==> Target(address) == Target(w.address)
  {
    Selectors.WindowRoundTrip(Selectors.Address(address));
  }

  // ---- a run seen from one window ------------------------------------------------------

  predicate ActsOn(a: RestoreAction, w: Window) {
    IsMutating(a) && !a.RestoreActiveFocus? && Target(a.address) == Target(w.address)
  }

  function EvolveAction(w: Window, a: RestoreAction, i: nat, world: World): (r: Window)
    ensures SameIdentity(w, r)
  {
    if !IsMutating(a) then w
    else
      var first := EffectOn(VerbFor(a), SelectorFor(a.address), world.fails(i, 0), world.lands(i), w);
      if a.RepositionFloating? && !world.fails(i, 0) then
        EffectOn(ResizePixel(a.targetSize), SelectorFor(a.address), world.fails(i, 1), world.lands(i), first)
      else first
  }

  predicate OkAction(w: Window, a: RestoreAction, i: nat, world: World)
    requires IsMutating(a)
  {
    !world.fails(i, 0) && Accepts(VerbFor(a), w) && (a.RepositionFloating? ==> !world.fails(i, 1))
  }

  function Evolve(w: Window, actions: seq<RestoreAction>, i: nat, world: World): (r: Window)
    ensures SameIdentity(w, r)
    decreases |actions|
  {
    if actions == [] then w else Evolve(EvolveAction(w, actions[0], i, world), actions[1..], i + 1, world)
  }

  /** Every action on `w` among `actions` succeeds. */
  predicate OwnOk(w: Window, actions: seq<RestoreAction>, i: nat, world: World)
    decreases |actions|
  {
    actions == []
    || ((ActsOn(actions[0], w) ==> OkAction(w, actions[0], i, world))
        && OwnOk(EvolveAction(w, actions[0], i, world), actions[1..], i + 1, world))
  }

  lemma DispatchPointwise(st: Snapshot, verb: Verb, address: string, failed: bool, landing: Selectors.NumberedId,
                          k: nat)
    requires k < |st.windows| && DistinctTargets(st.windows)
    ensures var (st1, ok) := Dispatch(st, verb, SelectorFor(address), failed, landing);
      && |st1.windows| == |st.windows|
      && st1.windows[k] == EffectOn(verb, SelectorFor(address), failed, landing, st.windows[k])
      && (Target(address) == Target(st.windows[k].address) ==> ok == (!failed && Accepts(verb, st.windows[k])))
      && (!verb.Focus? ==> st1.active == st.active)
  {
    var w := st.windows[k];
    var found := FirstAccepting(verb, SelectorFor(address), st.windows);
    SelectsByAddress(address, w);
    if found.Some? {
      SelectsByAddress(address, found.value);
      var j :| 0 <= j < |st.windows| && st.windows[j] == found.value;
      if Target(address) == Target(w.address) { assert j == k; }
    }
  }

  lemma DispatchKeepsTargets(st: Snapshot, verb: Verb, selector: string, failed: bool, landing: Selectors.NumberedId)
    requires DistinctTargets(st.windows)
    ensures DistinctTargets(Dispatch(st, verb, selector, failed, landing).0.windows)
  {
    hide EffectOn, Target;
    var ws := Dispatch(st, verb, selector, failed, landing).0.windows;
    forall k | 0 <= k < |ws| ensures ws[k].address == st.windows[k].address {}
  }

  lemma RepositionPointwise(st: Snapshot, a: RestoreAction, i: nat, world: World, k: nat)
    requires k < |st.windows| && DistinctTargets(st.windows) && a.RepositionFloating?
    ensures var (st1, outcome) := ApplyAction(st, a, i, world);
      && |st1.windows| == |st.windows|
      && st1.windows[k] == EvolveAction(st.windows[k], a, i, world)
      && (ActsOn(a, st.windows[k]) ==> outcome.ok == OkAction(st.windows[k], a, i, world))
      && st1.active == st.active
  {
    hide Selects, Target, Dispatch;
    var w, landing := st.windows[k], world.lands(i);
    var move, resize, selector := MovePixel(a.targetAt), ResizePixel(a.targetSize), SelectorFor(a.address);
    var (st1, ok1) := Dispatch(st, move, selector, world.fails(i, 0), landing);
    DispatchPointwise(st, move, a.address, world.fails(i, 0), landing, k);
    SelectsByAddress(a.address, w);
    if ok1 {
      DispatchKeepsTargets(st, move, selector, world.fails(i, 0), landing);
      DispatchPointwise(st1, resize, a.address, world.fails(i, 1), landing, k);
    } else if !world.fails(i, 0) {
      assert !Selects(selector, w);
      assert EffectOn(move, selector, false, landing, w) == w;
      assert EffectOn(resize, selector, world.fails(i, 1), landing, w) == w;
    }
  }

  lemma ActionPointwise(st: Snapshot, a: RestoreAction, i: nat, world: World, k: nat)
    requires k < |st.windows| && DistinctTargets(st.windows)
    ensures var (st1, outcome) := ApplyAction(st, a, i, world);
      && |st1.windows| == |st.windows|
      && st1.windows[k] == EvolveAction(st.windows[k], a, i, world)
      && (ActsOn(a, st.windows[k]) ==> outcome.ok == OkAction(st.windows[k], a, i, world))
      && (!a.RestoreActiveFocus? ==> st1.active == st.active)
  {
    if a.RepositionFloating? {
      RepositionPointwise(st, a, i, world, k);
    } else if IsMutating(a) {
      DispatchPointwise(st, VerbFor(a), a.address, world.fails(i, 0), world.lands(i), k);
    }
  }

  lemma ActionKeepsTargets(st: Snapshot, a: RestoreAction, i: nat, world: World)
    requires DistinctTargets(st.windows)
    ensures var st1 := ApplyAction(st, a, i, world).0;
      |st1.windows| == |st.windows| && DistinctTargets(st1.windows)
  {
    if IsMutating(a) {
      var (st1, ok1) := Dispatch(st, VerbFor(a), SelectorFor(a.address), world.fails(i, 0), world.lands(i));
      DispatchKeepsTargets(st, VerbFor(a), SelectorFor(a.address), world.fails(i, 0), world.lands(i));
      if a.RepositionFloating? {
        DispatchKeepsTargets(st1, ResizePixel(a.targetSize), SelectorFor(a.address), world.fails(i, 1), world.lands(i));
      }
    }
  }

  /** One outcome per action, in order; skipped exactly when the action is informational, and then never an error. */
  lemma {:induction false} OutcomesAlign(st: Snapshot, actions: seq<RestoreAction>, i: nat, world: World)
    ensures var outcomes := Apply(st, actions, i, world).1;
      && |outcomes| == |actions|
      && forall q | 0 <= q < |actions| ::
           && outcomes[q].action == actions[q]
           && outcomes[q].skipped == !IsMutating(actions[q])
           && outcomes[q].ok == outcomes[q].error.None?
           && (outcomes[q].skipped ==> outcomes[q].ok)
    decreases |actions|
  {
    if actions != [] {
      OutcomesAlign(ApplyAction(st, actions[0], i, world).0, actions[1..], i + 1, world);
    }
  }

  /** A run changes each window as `Evolve` says, whatever happens to the others. */
  lemma {:induction false} ApplyPointwise(st: Snapshot, actions: seq<RestoreAction>, i: nat, world: World, k: nat)
    requires k < |st.windows| && DistinctTargets(st.windows)
    ensures var (st1, outcomes) := Apply(st, actions, i, world);
      && |st1.windows| == |st.windows|
      && st1.windows[k] == Evolve(st.windows[k], actions, i, world)
      && ((forall q | 0 <= q < |outcomes| && ActsOn(outcomes[q].action, st.windows[k]) :: outcomes[q].ok)
          <==> OwnOk(st.windows[k], actions, i, world))
    decreases |actions|
  {
    if actions != [] {
      var w := st.windows[k];
      var (st1, outcome) := ApplyAction(st, actions[0], i, world);
      ActionPointwise(st, actions[0], i, world, k);
      ActionKeepsTargets(st, actions[0], i, world);
      ApplyPointwise(st1, actions[1..], i + 1, world, k);
      OutcomesAlign(st, actions, i, world);
      var (st2, rest) := Apply(st1, actions[1..], i + 1, world);
      var outcomes := Apply(st, actions, i, world).1;
      assert outcomes == [outcome] + rest;
      assert (forall q | 0 <= q < |outcomes| && ActsOn(outcomes[q].action, w) :: outcomes[q].ok)
        <==> ((ActsOn(outcome.action, w) ==> outcome.ok)
              && forall q | 0 <= q < |rest| && ActsOn(rest[q].action, w) :: rest[q].ok) by {
        forall q | 0 <= q < |rest| ensures outcomes[q + 1] == rest[q] {}
      }
    }
  }

  // ---- the actions of one window ------------------------------------------------------

  ghost predicate NoFailures(world: World) {
    forall i: nat, part: nat :: !world.fails(i, part)
  }

  /** Window `w` once everything recorded in `snap` has been applied; a relative move ends at `landing`. */
  function Restored(snap: Window, w: Window, landing: Selectors.NumberedId): Window {
    w.(workspaceId := if Attainable(snap, w) then snap.workspaceId else landing,
       floating := snap.floating,
       at := if snap.floating then snap.at else w.at,
       size := if snap.floating then snap.size else w.size,
       fullscreen := snap.fullscreen,
       pinned := if snap.floating then snap.pinned else w.pinned)
  }

  /** The recorded workspace needs no move, or a move that its printed id can express. */
  predicate Attainable(snap: Window, w: Window) {
    w.workspaceId == snap.workspaceId || snap.workspaceId >= 0
  }

  lemma {:induction false} EvolveConcat(w: Window, a: seq<RestoreAction>, b: seq<RestoreAction>, i: nat, world: World)
    ensures Evolve(w, a + b, i, world) == Evolve(Evolve(w, a, i, world), b, i + |a|, world)
    ensures OwnOk(w, a + b, i, world)
      <==> OwnOk(w, a, i, world) && OwnOk(Evolve(w, a, i, world), b, i + |a|, world)
    decreases |a|
  {
    hide EvolveAction, OkAction;
    if a == [] {
      assert a + b == b;
    } else {
      assert (a + b)[0] == a[0] && (a + b)[1..] == a[1..] + b;
      EvolveConcat(EvolveAction(w, a[0], i, world), a[1..], b, i + 1, world);
    }
  }

  /** What a single successful action does to its window. */
  function Achieved(v: Window, a: RestoreAction, landing: Selectors.NumberedId): Window
    requires IsMutating(a)
  {
    match a
    case MoveToWorkspace(_, _, to) => v.(workspaceId := if to >= 0 then to else landing)
    case ToggleFloating(_, _) => v.(floating := !v.floating)
    case RepositionFloating(_, at, size, _, _) => if v.floating then v.(at := at, size := size) else v
    case SetFullscreen(_, _, mode) => v.(fullscreen := mode)
    case SetPin(_, _) => v.(pinned := !v.pinned)
    case RestoreActiveFocus(_, _) => v
  }

  lemma SingleAction(v: Window, a: RestoreAction, i: nat, world: World)
    requires IsMutating(a) && a.address == v.address
    ensures OkAction(v, a, i, world) ==> EvolveAction(v, a, i, world) == Achieved(v, a, world.lands(i))
    ensures NoFailures(world) && (a.SetPin? ==> v.floating) ==> OkAction(v, a, i, world)
  {
    SelectsByAddress(a.address, v);
    if a.MoveToWorkspace? {
      Selectors.WorkspaceReparsed(Selectors.Id(a.toWorkspace));
    }
    if a.RepositionFloating? {
      SelectsByAddress(a.address, v.(at := a.targetAt));
    }
  }

  lemma SingleEvolves(v: Window, a: RestoreAction, i: nat, world: World)
    requires IsMutating(a) && !a.RestoreActiveFocus? && a.address == v.address
    ensures OwnOk(v, [a], i, world) <==> OkAction(v, a, i, world)
    ensures OwnOk(v, [a], i, world) ==> Evolve(v, [a], i, world) == Achieved(v, a, world.lands(i))
    ensures NoFailures(world) && (a.SetPin? ==> v.floating) ==> OwnOk(v, [a], i, world)
  {
    SingleAction(v, a, i, world);
    assert [a][1..] == [];
  }

  lemma WorkspaceStage(snap: Window, w: Window, i: nat, world: World)
    ensures var a := WorkspaceActions(snap, w);
      && (NoFailures(world) ==> OwnOk(w, a, i, world))
      && (OwnOk(w, a, i, world) ==>
            var id := if Attainable(snap, w) then snap.workspaceId else world.lands(i);
            Evolve(w, a, i, world) == w.(workspaceId := id))
  {
    if WorkspaceActions(snap, w) != [] { SingleEvolves(w, WorkspaceActions(snap, w)[0], i, world); }
  }

  lemma FloatStage(snap: Window, w: Window, v: Window, i: nat, world: World)
    requires v.address == w.address && v.floating == w.floating
    ensures var a := FloatActions(snap, w);
      && (NoFailures(world) ==> OwnOk(v, a, i, world))
      && (OwnOk(v, a, i, world) ==> Evolve(v, a, i, world) == v.(floating := snap.floating))
  {
    if FloatActions(snap, w) != [] { SingleEvolves(v, FloatActions(snap, w)[0], i, world); }
  }

  lemma GeometryStage(snap: Window, w: Window, v: Window, i: nat, world: World)
    requires v.address == w.address && v.floating == snap.floating && v.at == w.at && v.size == w.size
    ensures var a := GeometryActions(snap, w);
      && (NoFailures(world) ==> OwnOk(v, a, i, world))
      && (OwnOk(v, a, i, world) ==>
            Evolve(v, a, i, world) == if snap.floating then v.(at := snap.at, size := snap.size) else v)
  {
    if GeometryActions(snap, w) != [] { SingleEvolves(v, GeometryActions(snap, w)[0], i, world); }
  }

  lemma PinStage(snap: Window, w: Window, v: Window, i: nat, world: World)
    requires v.address == w.address && v.floating == snap.floating && v.pinned == w.pinned
    ensures var a := PinActions(snap, w);
      && (NoFailures(world) ==> OwnOk(v, a, i, world))
      && (OwnOk(v, a, i, world) ==> Evolve(v, a, i, world) == if snap.floating then v.(pinned := snap.pinned) else v)
  {
    if PinActions(snap, w) != [] { SingleEvolves(v, PinActions(snap, w)[0], i, world); }
  }

  /** From here on each lemma covers one more action kind: its own stage and all later ones. */
  lemma FullscreenOnward(snap: Window, w: Window, v: Window, i: nat, world: World)
    requires v.address == w.address && v.floating == snap.floating
    requires v.fullscreen == w.fullscreen && v.pinned == w.pinned
    ensures var a := FullscreenActions(snap, w) + PinActions(snap, w);
      && (NoFailures(world) ==> OwnOk(v, a, i, world))
      && (OwnOk(v, a, i, world) ==>
            Evolve(v, a, i, world) == v.(fullscreen := snap.fullscreen,
                                         pinned := if snap.floating then snap.pinned else v.pinned))
  {
    var a := FullscreenActions(snap, w);
    EvolveConcat(v, a, PinActions(snap, w), i, world);
    if a != [] { SingleEvolves(v, a[0], i, world); }
    if OwnOk(v, a, i, world) {
      PinStage(snap, w, Evolve(v, a, i, world), i + |a|, world);
    }
  }

  lemma GeometryOnward(snap: Window, w: Window, v: Window, i: nat, world: World)
    requires v.address == w.address && v.floating == snap.floating && v.at == w.at && v.size == w.size
    requires v.fullscreen == w.fullscreen && v.pinned == w.pinned
    ensures var a := GeometryActions(snap, w) + (FullscreenActions(snap, w) + PinActions(snap, w));
      && (NoFailures(world) ==> OwnOk(v, a, i, world))
      && (OwnOk(v, a, i, world) ==> Evolve(v, a, i, world) == Restored(snap, v, 1).(workspaceId := v.workspaceId))
  {
    hide EvolveAction, Evolve, OwnOk, GeometryActions, FullscreenActions, PinActions;
    var a := GeometryActions(snap, w);
    EvolveConcat(v, a, FullscreenActions(snap, w) + PinActions(snap, w), i, world);
    GeometryStage(snap, w, v, i, world);
    if OwnOk(v, a, i, world) {
      FullscreenOnward(snap, w, Evolve(v, a, i, world), i + |a|, world);
    }
  }

  lemma FloatOnward(snap: Window, w: Window, v: Window, i: nat, world: World)
    requires v.(workspaceId := w.workspaceId) == w
    ensures var a := FloatActions(snap, w)
        + (GeometryActions(snap, w) + (FullscreenActions(snap, w) + PinActions(snap, w)));
      && (NoFailures(world) ==> OwnOk(v, a, i, world))
      && (OwnOk(v, a, i, world) ==> Evolve(v, a, i, world) == Restored(snap, v, 1).(workspaceId := v.workspaceId))
  {
    hide EvolveAction, Evolve, OwnOk, FloatActions, GeometryActions, FullscreenActions, PinActions;
    var a := FloatActions(snap, w);
    EvolveConcat(v, a, GeometryActions(snap, w) + (FullscreenActions(snap, w) + PinActions(snap, w)), i, world);
    FloatStage(snap, w, v, i, world);
    if OwnOk(v, a, i, world) {
      GeometryOnward(snap, w, Evolve(v, a, i, world), i + |a|, world);
    }
  }

  /**
   * The order of a window's actions works: each one finds what it needs, and once all have succeeded the
   * window is as recorded. Without outside failures all do succeed; in particular no pin is refused.
   */
  lemma BlockReaches(snap: Window, w: Window, i: nat, world: World)
    ensures var block := WindowActions(snap, w);
      && (NoFailures(world) ==> OwnOk(w, block, i, world))
      && (OwnOk(w, block, i, world) ==> Evolve(w, block, i, world) == Restored(snap, w, world.lands(i)))
  {
    hide EvolveAction, Evolve, OwnOk, WorkspaceActions, FloatActions, GeometryActions, FullscreenActions, PinActions;
    var a := WorkspaceActions(snap, w);
    var last := GeometryActions(snap, w) + (FullscreenActions(snap, w) + PinActions(snap, w));
    var later := FloatActions(snap, w) + last;
    EvolveConcat(w, a, later, i, world);
    WorkspaceStage(snap, w, i, world);
    if OwnOk(w, a, i, world) {
      FloatOnward(snap, w, Evolve(w, a, i, world), i + |a|, world);
    }
  }

  /** A window is back exactly when its recorded workspace was attainable: the next diff has nothing for it. */
  lemma RestoredIsClean(snap: Window, w: Window, landing: Selectors.NumberedId)
    ensures WindowActions(snap, Restored(snap, w, landing)) == [] <==> Attainable(snap, w)
  {
  }

  // ---- a window's actions within the whole diff ------------------------------------------

  lemma {:induction false} Untouched(w: Window, actions: seq<RestoreAction>, i: nat, world: World)
    requires forall q | 0 <= q < |actions| :: !ActsOn(actions[q], w)
    ensures Evolve(w, actions, i, world) == w && OwnOk(w, actions, i, world)
    decreases |actions|
  {
    if actions != [] {
      if IsMutating(actions[0]) { SelectsByAddress(actions[0].address, w); }
      Untouched(w, actions[1..], i + 1, world);
    }
  }

  predicate ActsOnFree(a: RestoreAction, live: seq<Window>, taken: set<string>) {
    a.WindowMissing? || exists k | 0 <= k < |live| :: live[k].address == a.address && a.address !in taken
  }

  lemma {:induction false} ActionsOnFree(snaps: seq<Window>, live: seq<Window>, taken: set<string>)
    ensures forall a | a in DiffWindows(snaps, live, taken) :: ActsOnFree(a, live, taken)
  {
    hide WindowActions, MatchLive;
    if snaps != [] {
      var m := MatchLive(snaps[0], live, taken);
      if m.Some? { WindowActionsShape(snaps[0], m.value); }
      MatchIsFree(snaps[0], live, taken);
      ActionsOnFree(snaps[1..], live, Claim(m, taken));
      forall a | a in Block(snaps[0], m) ensures ActsOnFree(a, live, taken) {}
    }
  }

  /** Actions for the rest of the snapshot leave an already taken window alone. */
  lemma TakenUntouched(snaps: seq<Window>, live: seq<Window>, taken: set<string>, w: Window, i: nat, world: World)
    requires DistinctTargets(live) && w.address in taken
    requires exists k | 0 <= k < |live| :: live[k].address == w.address
    ensures Evolve(w, DiffWindows(snaps, live, taken), i, world) == w
    ensures OwnOk(w, DiffWindows(snaps, live, taken), i, world)
  {
    var actions := DiffWindows(snaps, live, taken);
    ActionsOnFree(snaps, live, taken);
    forall q | 0 <= q < |actions| ensures !ActsOn(actions[q], w) {
      assert actions[q] in actions;
    }
    Untouched(w, actions, i, world);
  }

  lemma OtherBlockUntouched(snap: Window, m: Option<Window>, live: seq<Window>, w: Window, i: nat, world: World)
    requires DistinctTargets(live) && w in live
    requires m.Some? ==> m.value in live && m.value.address != w.address
    ensures Evolve(w, Block(snap, m), i, world) == w && OwnOk(w, Block(snap, m), i, world)
  {
    hide WindowActions, EvolveAction, Evolve, OwnOk;
    if m.Some? {
      WindowActionsShape(snap, m.value);
      assert Target(m.value.address) != Target(w.address);
    }
    Untouched(w, Block(snap, m), i, world);
  }

  lemma HeadOnly(w: Window, head: seq<RestoreAction>, rest: seq<RestoreAction>, i: nat, world: World)
    requires var v := Evolve(w, head, i, world);
      Evolve(v, rest, i + |head|, world) == v && OwnOk(v, rest, i + |head|, world)
    ensures Evolve(w, head + rest, i, world) == Evolve(w, head, i, world)
    ensures OwnOk(w, head + rest, i, world) <==> OwnOk(w, head, i, world)
  {
    EvolveConcat(w, head, rest, i, world);
  }

  lemma TailOnly(w: Window, head: seq<RestoreAction>, rest: seq<RestoreAction>, i: nat, world: World)
    requires Evolve(w, head, i, world) == w && OwnOk(w, head, i, world)
    ensures Evolve(w, head + rest, i, world) == Evolve(w, rest, i + |head|, world)
    ensures OwnOk(w, head + rest, i, world) <==> OwnOk(w, rest, i + |head|, world)
  {
    EvolveConcat(w, head, rest, i, world);
  }

  /** `p` is where the actions on `w` begin: the run of all `actions` treats `w` as the run of `block` from there. */
  ghost predicate MeetsOnly(w: Window, actions: seq<RestoreAction>, i: nat, block: seq<RestoreAction>, p: nat,
                            world: World) {
    Evolve(w, actions, i, world) == Evolve(w, block, p, world)
    && (OwnOk(w, actions, i, world) <==> OwnOk(w, block, p, world))
  }

  lemma MeetsHead(snaps: seq<Window>, live: seq<Window>, taken: set<string>, w: Window, i: nat, world: World)
    requires DistinctTargets(live) && snaps != [] && w in live
    requires MatchLive(snaps[0], live, taken) == Some(w)
    ensures MeetsOnly(w, DiffWindows(snaps, live, taken), i, WindowActions(snaps[0], w), i, world)
  {
    hide WindowActions, EvolveAction, Evolve, OwnOk;
    var head, taken' := Block(snaps[0], Some(w)), Claim(Some(w), taken);
    TakenUntouched(snaps[1..], live, taken', Evolve(w, head, i, world), i + |head|, world);
    HeadOnly(w, head, DiffWindows(snaps[1..], live, taken'), i, world);
  }

  /** A paired window meets its own block of actions at some position `p`, and nothing else. */
  lemma {:induction false} PairedWindow(snaps: seq<Window>, live: seq<Window>, taken: set<string>, j: nat, w: Window,
                                        i: nat, world: World) returns (p: nat)
    requires DistinctTargets(live) && j < |snaps| && w in live
    requires Pairing(snaps, live, taken)[j] == Some(w)
    ensures MeetsOnly(w, DiffWindows(snaps, live, taken), i, WindowActions(snaps[j], w), p, world)
  {
    hide WindowActions, EvolveAction, Evolve, OwnOk;
    var m := MatchLive(snaps[0], live, taken);
    var tail := Pairing(snaps[1..], live, Claim(m, taken));
    assert Pairing(snaps, live, taken) == [m] + tail;
    if j == 0 {
      p := i;
      MeetsHead(snaps, live, taken, w, i, world);
    } else {
      assert tail[j - 1] == Some(w);
      PairingInjective(snaps[1..], live, Claim(m, taken));
      MatchIsFree(snaps[0], live, taken);
      OtherBlockUntouched(snaps[0], m, live, w, i, world);
      TailOnly(w, Block(snaps[0], m), DiffWindows(snaps[1..], live, Claim(m, taken)), i, world);
      p := PairedWindow(snaps[1..], live, Claim(m, taken), j - 1, w, i + |Block(snaps[0], m)|, world);
    }
  }

  lemma {:induction false} UnpairedWindow(snaps: seq<Window>, live: seq<Window>, taken: set<string>, w: Window,
                                          i: nat, world: World)
    requires DistinctTargets(live) && w in live && Some(w) !in Pairing(snaps, live, taken)
    ensures Evolve(w, DiffWindows(snaps, live, taken), i, world) == w
    ensures OwnOk(w, DiffWindows(snaps, live, taken), i, world)
  {
    hide WindowActions, EvolveAction, Evolve, OwnOk;
    if snaps == [] {
      Untouched(w, [], i, world);
    } else {
      var m := MatchLive(snaps[0], live, taken);
      assert Pairing(snaps, live, taken)[0] == m;
      MatchIsFree(snaps[0], live, taken);
      OtherBlockUntouched(snaps[0], m, live, w, i, world);
      TailOnly(w, Block(snaps[0], m), DiffWindows(snaps[1..], live, Claim(m, taken)), i, world);
      UnpairedWindow(snaps[1..], live, Claim(m, taken), w, i + |Block(snaps[0], m)|, world);
    }
  }

  /** The reports and the refocus that follow the window actions change no window. */
  lemma AfterwardsUntouched(snap: Snapshot, live: Snapshot, w: Window, i: nat, world: World)
    ensures var after := Extras(live.windows, TakenAfter(snap.windows, live.windows, {})) + FocusActions(snap, live);
      && Diff(snap, live) == DiffWindows(snap.windows, live.windows, {}) + after
      && Evolve(w, after, i, world) == w && OwnOk(w, after, i, world)
  {
    var taken := TakenAfter(snap.windows, live.windows, {});
    var extras := Extras(live.windows, taken);
    ExtrasShape(live.windows, taken);
    var after := extras + FocusActions(snap, live);
    forall q | 0 <= q < |after| ensures !ActsOn(after[q], w) {
      if q < |extras| { assert after[q] == extras[q]; }
    }
    Untouched(w, after, i, world);
    assert Diff(snap, live) == DiffWindows(snap.windows, live.windows, {}) + after;
  }

  // ---- main results ----------------------------------------------------------------------

  /**
   * Failure isolation: whatever fails elsewhere, a paired window whose own actions all succeed ends up as
   * recorded (up to a workspace no printed id can express).
   */
  lemma FailureIsolation(snap: Snapshot, live: Snapshot, world: World, j: nat, k: nat)
    requires DistinctTargets(live.windows) && j < |snap.windows| && k < |live.windows|
    requires Pairing(snap.windows, live.windows, {})[j] == Some(live.windows[k])
    ensures var (after, outcomes) := Apply(live, Diff(snap, live), 0, world);
      var own := forall q | 0 <= q < |outcomes| && ActsOn(outcomes[q].action, live.windows[k]) :: outcomes[q].ok;
      && |after.windows| == |live.windows|
      && (NoFailures(world) ==> own)
      && (own ==> exists landing :: after.windows[k] == Restored(snap.windows[j], live.windows[k], landing))
  {
    hide WindowActions, EvolveAction, Evolve, OwnOk, Restored, DiffWindows, Extras, FocusActions, Pairing;
    var w, s := live.windows[k], snap.windows[j];
    var actions := DiffWindows(snap.windows, live.windows, {});
    ApplyPointwise(live, Diff(snap, live), 0, world, k);
    AfterwardsUntouched(snap, live, Evolve(w, actions, 0, world), |actions|, world);
    var after := Extras(live.windows, TakenAfter(snap.windows, live.windows, {})) + FocusActions(snap, live);
    HeadOnly(w, actions, after, 0, world);
    var p := PairedWindow(snap.windows, live.windows, {}, j, w, 0, world);
    BlockReaches(s, w, p, world);
  }

  /** Restore is additive: under any failures a window without a counterpart in the snapshot is left as it was. */
  lemma UnmatchedUntouched(snap: Snapshot, live: Snapshot, world: World, k: nat)
    requires DistinctTargets(live.windows) && k < |live.windows|
    requires Some(live.windows[k]) !in Pairing(snap.windows, live.windows, {})
    ensures var after := Apply(live, Diff(snap, live), 0, world).0;
      |after.windows| == |live.windows| && after.windows[k] == live.windows[k]
  {
    hide WindowActions, EvolveAction, Evolve, OwnOk;
    var w := live.windows[k];
    var actions := DiffWindows(snap.windows, live.windows, {});
    ApplyPointwise(live, Diff(snap, live), 0, world, k);
    UnpairedWindow(snap.windows, live.windows, {}, w, 0, world);
    AfterwardsUntouched(snap, live, w, |actions|, world);
    var after := Extras(live.windows, TakenAfter(snap.windows, live.windows, {})) + FocusActions(snap, live);
    EvolveConcat(w, actions, after, 0, world);
  }

  // ---- convergence -----------------------------------------------------------------------

  predicate SameIdentities(ws: seq<Window>, ws': seq<Window>) {
    |ws| == |ws'| && forall k | 0 <= k < |ws| :: SameIdentity(ws[k], ws'[k])
  }

  /** `w'` stands in `live'` where `w` stands in `live`. */
  predicate Counterparts(live: seq<Window>, live': seq<Window>, w: Window, w': Window)
    requires |live| == |live'|
  {
    exists k | 0 <= k < |live| :: live[k] == w && live'[k] == w'
  }

  lemma {:induction false} SameCandidates(tier: Tier, snap: Window, live: seq<Window>, live': seq<Window>,
                                          taken: set<string>)
    requires SameIdentities(live, live')
    ensures var c, c' := Candidates(tier, snap, live, taken), Candidates(tier, snap, live', taken);
      |c| == |c'| && forall q | 0 <= q < |c| :: Counterparts(live, live', c[q], c'[q])
  {
    if live != [] {
      SameCandidates(tier, snap, live[1..], live'[1..], taken);
      forall w, w' | Counterparts(live[1..], live'[1..], w, w') ensures Counterparts(live, live', w, w') {
        var k :| 0 <= k < |live[1..]| && live[1..][k] == w && live'[1..][k] == w';
        assert live[k + 1] == w && live'[k + 1] == w';
      }
      assert Counterparts(live, live', live[0], live'[0]);
    }
  }

  /** Matching looks only at what restore never changes, so it finds the same windows again. */
  lemma SameMatch(snap: Window, live: seq<Window>, live': seq<Window>, taken: set<string>)
    requires SameIdentities(live, live')
    ensures var m, m' := MatchLive(snap, live, taken), MatchLive(snap, live', taken);
      && (m.Some? <==> m'.Some?)
      && (m.Some? ==> Counterparts(live, live', m.value, m'.value))
      && Claim(m, taken) == Claim(m', taken)
  {
    SameCandidates(ByAddress, snap, live, live', taken);
    SameCandidates(ByPid, snap, live, live', taken);
    SameCandidates(ByInitial, snap, live, live', taken);
  }

  lemma {:induction false} MutationConcat(a: seq<RestoreAction>, b: seq<RestoreAction>)
    ensures MutationCount(a + b) == MutationCount(a) + MutationCount(b)
  {
    if a == [] {
      assert a + b == b;
    } else {
      assert (a + b)[1..] == a[1..] + b;
      MutationConcat(a[1..], b);
    }
  }

  lemma {:induction false} AllMutating(a: seq<RestoreAction>)
    requires forall q | 0 <= q < |a| :: IsMutating(a[q])
    ensures MutationCount(a) == |a|
  {
    if a != [] { AllMutating(a[1..]); }
  }

  lemma {:induction false} NoneMutating(a: seq<RestoreAction>)
    requires forall q | 0 <= q < |a| :: !IsMutating(a[q])
    ensures MutationCount(a) == 0
  {
    if a != [] { NoneMutating(a[1..]); }
  }

  /** Every paired window that has been restored, seen in the desktop `live'` that followed `live`. */
  ghost predicate AllRestored(snaps: seq<Window>, pairing: seq<Option<Window>>, live: seq<Window>, live': seq<Window>)
    requires |pairing| == |snaps| && |live| == |live'|
  {
    forall j, k | 0 <= j < |snaps| && 0 <= k < |live| && pairing[j] == Some(live[k]) ::
      exists landing :: live'[k] == Restored(snaps[j], live[k], landing)
  }

  predicate AllAttainable(snaps: seq<Window>, pairing: seq<Option<Window>>)
    requires |pairing| == |snaps|
  {
    forall j | 0 <= j < |snaps| && pairing[j].Some? :: Attainable(snaps[j], pairing[j].value)
  }

  /** The second diff is quiet about a window exactly when its recorded workspace was attainable. */
  lemma SecondBlock(snap: Window, live: seq<Window>, live': seq<Window>, taken: set<string>)
    requires DistinctTargets(live) && SameIdentities(live, live')
    requires var m := MatchLive(snap, live, taken);
      forall k | 0 <= k < |live| && m == Some(live[k]) :: exists landing :: live'[k] == Restored(snap, live[k], landing)
    ensures var m, m' := MatchLive(snap, live, taken), MatchLive(snap, live', taken);
      MutationCount(Block(snap, m')) == 0 <==> (m.Some? ==> Attainable(snap, m.value))
  {
    hide Restored, MatchLive, WindowActions;
    var m, m' := MatchLive(snap, live, taken), MatchLive(snap, live', taken);
    SameMatch(snap, live, live', taken);
    if m.Some? {
      var k :| 0 <= k < |live| && live[k] == m.value && live'[k] == m'.value;
      var landing :| live'[k] == Restored(snap, live[k], landing);
      RestoredIsClean(snap, live[k], landing);
      WindowActionsShape(snap, m'.value);
      AllMutating(WindowActions(snap, m'.value));
    } else {
      NoneMutating(Block(snap, m'));
    }
  }

  lemma {:induction false} SecondDiff(snaps: seq<Window>, live: seq<Window>, live': seq<Window>, taken: set<string>)
    requires DistinctTargets(live) && SameIdentities(live, live')
    requires AllRestored(snaps, Pairing(snaps, live, taken), live, live')
    ensures MutationCount(DiffWindows(snaps, live', taken)) == 0 <==> AllAttainable(snaps, Pairing(snaps, live, taken))
  {
    hide Restored, WindowActions, Block, MatchLive, Attainable;
    if snaps != [] {
      var m, m' := MatchLive(snaps[0], live, taken), MatchLive(snaps[0], live', taken);
      var pairing, tail := Pairing(snaps, live, taken), Pairing(snaps[1..], live, Claim(m, taken));
      assert pairing == [m] + tail;
      forall j, k | 0 <= j < |snaps[1..]| && 0 <= k < |live| && tail[j] == Some(live[k])
        ensures exists landing :: live'[k] == Restored(snaps[1..][j], live[k], landing)
      {
        assert pairing[j + 1] == tail[j] && snaps[1..][j] == snaps[j + 1];
      }
      assert pairing[0] == m;
      SameMatch(snaps[0], live, live', taken);
      SecondBlock(snaps[0], live, live', taken);
      SecondDiff(snaps[1..], live, live', Claim(m, taken));
      MutationConcat(Block(snaps[0], m'), DiffWindows(snaps[1..], live', Claim(m', taken)));
      assert AllAttainable(snaps, pairing)
        <==> (m.Some? ==> Attainable(snaps[0], m.value)) && AllAttainable(snaps[1..], tail) by {
        forall j | 0 <= j < |tail| ensures pairing[j + 1] == tail[j] && snaps[1..][j] == snaps[j + 1] {}
      }
    }
  }

  /** No action asks for a workspace id that the dispatcher grammar reads as a relative move. */
  predicate NoNegativeMove(actions: seq<RestoreAction>) {
    forall q | 0 <= q < |actions| && actions[q].MoveToWorkspace? :: actions[q].toWorkspace >= 0
  }

  lemma NoNegativeConcat(a: seq<RestoreAction>, b: seq<RestoreAction>)
    ensures NoNegativeMove(a + b) <==> NoNegativeMove(a) && NoNegativeMove(b)
  {
    forall q | 0 <= q < |b| ensures (a + b)[|a| + q] == b[q] {}
    forall q | 0 <= q < |a| ensures (a + b)[q] == a[q] {}
  }

  lemma BlockNoNegative(snap: Window, m: Option<Window>)
    ensures NoNegativeMove(Block(snap, m)) <==> (m.Some? ==> Attainable(snap, m.value))
  {
    if m.Some? {
      var w := m.value;
      var last := GeometryActions(snap, w) + (FullscreenActions(snap, w) + PinActions(snap, w));
      var later := FloatActions(snap, w) + last;
      NoNegativeConcat(WorkspaceActions(snap, w), later);
      if w.workspaceId != snap.workspaceId { assert WorkspaceActions(snap, w)[0].MoveToWorkspace?; }
    }
  }

  lemma {:induction false} DiffNoNegative(snaps: seq<Window>, live: seq<Window>, taken: set<string>)
    ensures NoNegativeMove(DiffWindows(snaps, live, taken)) <==> AllAttainable(snaps, Pairing(snaps, live, taken))
  {
    hide WindowActions;
    if snaps != [] {
      var m := MatchLive(snaps[0], live, taken);
      var pairing, tail := Pairing(snaps, live, taken), Pairing(snaps[1..], live, Claim(m, taken));
      assert pairing == [m] + tail;
      BlockNoNegative(snaps[0], m);
      DiffNoNegative(snaps[1..], live, Claim(m, taken));
      NoNegativeConcat(Block(snaps[0], m), DiffWindows(snaps[1..], live, Claim(m, taken)));
      assert AllAttainable(snaps, pairing)
        <==> (m.Some? ==> Attainable(snaps[0], m.value)) && AllAttainable(snaps[1..], tail) by {
        forall j | 0 <= j < |tail| ensures pairing[j + 1] == tail[j] && snaps[1..][j] == snaps[j + 1] {}
      }
    }
  }

  predicate NoRefocus(actions: seq<RestoreAction>) {
    forall q | 0 <= q < |actions| :: !actions[q].RestoreActiveFocus?
  }

  lemma {:induction false} KeepsActive(st: Snapshot, actions: seq<RestoreAction>, i: nat, world: World)
    requires NoRefocus(actions)
    ensures Apply(st, actions, i, world).0.active == st.active
    decreases |actions|
  {
    if actions != [] {
      KeepsActive(ApplyAction(st, actions[0], i, world).0, actions[1..], i + 1, world);
    }
  }

  lemma NoFocusAmongWindows(snap: Snapshot, live: Snapshot)
    ensures NoRefocus(DiffWindows(snap.windows, live.windows, {})
      + Extras(live.windows, TakenAfter(snap.windows, live.windows, {})))
  {
    var actions := DiffWindows(snap.windows, live.windows, {});
    var extras := Extras(live.windows, TakenAfter(snap.windows, live.windows, {}));
    var all := actions + extras;
    NoFocusInBlocks(snap.windows, live.windows, {});
    ExtrasShape(live.windows, TakenAfter(snap.windows, live.windows, {}));
    forall q | 0 <= q < |all| ensures !all[q].RestoreActiveFocus? {
      if q < |actions| { assert actions[q] in actions; } else { assert extras[q - |actions|].WindowNotInSnapshot?; }
    }
  }

  lemma NoFocusInBlock(snap: Window, m: Option<Window>)
    ensures forall a | a in Block(snap, m) :: !a.RestoreActiveFocus?
  {
    hide WindowActions;
    if m.Some? { WindowActionsShape(snap, m.value); }
  }

  lemma {:induction false} NoFocusInBlocks(snaps: seq<Window>, live: seq<Window>, taken: set<string>)
    ensures forall a | a in DiffWindows(snaps, live, taken) :: !a.RestoreActiveFocus?
  {
    hide Block, MatchLive;
    if snaps != [] {
      NoFocusInBlock(snaps[0], MatchLive(snaps[0], live, taken));
      NoFocusInBlocks(snaps[1..], live, Claim(MatchLive(snaps[0], live, taken), taken));
    }
  }

  lemma FocusLands(st: Snapshot, address: string, from: Option<string>, i: nat, world: World)
    requires DistinctTargets(st.windows) && HasAddress(st.windows, address)
    ensures var (st1, outcome) := ApplyAction(st, RestoreActiveFocus(address, from), i, world);
      && (outcome.ok <==> !world.fails(i, 0))
      && (outcome.ok ==> st1.active == Some(address))
  {
    hide Selects, SelectorFor, EffectAll;
    var k :| 0 <= k < |st.windows| && st.windows[k].address == address;
    SelectsByAddress(address, st.windows[k]);
    var found := FirstAccepting(Focus, SelectorFor(address), st.windows);
    var l :| 0 <= l < |st.windows| && st.windows[l] == found.value;
    SelectsByAddress(address, st.windows[l]);
    assert k == l;
  }

  lemma SameAddresses(snap: Snapshot, live: Snapshot, actions: seq<RestoreAction>, world: World)
    requires DistinctTargets(live.windows)
    ensures var after := Apply(live, actions, 0, world).0;
      && SameIdentities(live.windows, after.windows)
      && DistinctTargets(after.windows)
      && forall address :: HasAddress(after.windows, address) <==> HasAddress(live.windows, address)
  {
    hide EvolveAction, OwnOk;
    var after := Apply(live, actions, 0, world).0;
    if live.windows != [] { ApplyPointwise(live, actions, 0, world, 0); }
    else { EmptyStaysEmpty(live, actions, 0, world); }
    forall k | 0 <= k < |live.windows| ensures SameIdentity(live.windows[k], after.windows[k]) {
      ApplyPointwise(live, actions, 0, world, k);
    }
    forall address ensures HasAddress(after.windows, address) <==> HasAddress(live.windows, address) {
      if k :| 0 <= k < |live.windows| && live.windows[k].address == address {
        assert after.windows[k].address == address;
      }
    }
  }

  lemma {:induction false} EmptyStaysEmpty(st: Snapshot, actions: seq<RestoreAction>, i: nat, world: World)
    requires st.windows == []
    ensures Apply(st, actions, i, world).0.windows == []
    decreases |actions|
  {
    if actions != [] {
      EmptyStaysEmpty(ApplyAction(st, actions[0], i, world).0, actions[1..], i + 1, world);
    }
  }

  /** The report of a run without an error. */
  predicate AllOk(outcomes: seq<Outcome>) {
    forall q | 0 <= q < |outcomes| :: outcomes[q].ok
  }

  /**
   * After a run that reports no error the recorded window has the focus, if it is open, and otherwise the focus is
   * where it was. Without outside failures the refocus is reported ok.
   */
  lemma FocusRestored(snap: Snapshot, live: Snapshot, world: World)
    requires DistinctTargets(live.windows)
    ensures var (after, outcomes) := Apply(live, Diff(snap, live), 0, world);
      && (AllOk(outcomes) ==>
            after.active == if snap.active.Some? && HasAddress(live.windows, snap.active.value) then snap.active
                            else live.active)
      && (NoFailures(world) ==>
            forall q | 0 <= q < |outcomes| && outcomes[q].action.RestoreActiveFocus? :: outcomes[q].ok)
  {
    hide ApplyAction, WindowActions;
    var before := DiffWindows(snap.windows, live.windows, {})
      + Extras(live.windows, TakenAfter(snap.windows, live.windows, {}));
    var focus := FocusActions(snap, live);
    NoFocusAmongWindows(snap, live);
    ApplyConcat(live, before, focus, 0, world);
    KeepsActive(live, before, 0, world);
    SameAddresses(snap, live, before, world);
    OutcomesAlign(live, before, 0, world);
    var outcomes := Apply(live, Diff(snap, live), 0, world).1;
    var (mid, first) := Apply(live, before, 0, world);
    forall q | 0 <= q < |first| ensures !first[q].action.RestoreActiveFocus? { assert first[q].action == before[q]; }
    if focus != [] {
      ApplyOne(mid, focus[0], |before|, world);
      assert focus == [focus[0]];
      FocusLands(mid, focus[0].address, focus[0].fromAddress, |before|, world);
      assert outcomes == first + [ApplyAction(mid, focus[0], |before|, world).1];
      assert outcomes[|before|] == ApplyAction(mid, focus[0], |before|, world).1;
    } else {
      assert outcomes == first;
    }
  }

  lemma WindowsRestored(snap: Snapshot, live: Snapshot, world: World)
    requires DistinctTargets(live.windows) && AllOk(Apply(live, Diff(snap, live), 0, world).1)
    ensures var after := Apply(live, Diff(snap, live), 0, world).0;
      && |after.windows| == |live.windows|
      && AllRestored(snap.windows, Pairing(snap.windows, live.windows, {}), live.windows, after.windows)
  {
    hide WindowActions, Restored, Apply, Diff, DistinctTargets, ActsOn;
    SameAddresses(snap, live, Diff(snap, live), world);
    var after := Apply(live, Diff(snap, live), 0, world).0;
    forall j, k | 0 <= j < |snap.windows| && 0 <= k < |live.windows|
               && Pairing(snap.windows, live.windows, {})[j] == Some(live.windows[k])
      ensures exists landing :: after.windows[k] == Restored(snap.windows[j], live.windows[k], landing)
    {
      FailureIsolation(snap, live, world, j, k);
    }
  }

  /** Without outside failures all of a window's own actions are reported ok. */
  lemma OwnAllOk(snap: Snapshot, live: Snapshot, world: World, k: nat)
    requires DistinctTargets(live.windows) && NoFailures(world) && k < |live.windows|
    ensures var outcomes := Apply(live, Diff(snap, live), 0, world).1;
      forall q | 0 <= q < |outcomes| && ActsOn(outcomes[q].action, live.windows[k]) :: outcomes[q].ok
  {
    hide Apply, DiffWindows, Extras, FocusActions, Pairing, Evolve, OwnOk, ActsOn;
    var w, pairing := live.windows[k], Pairing(snap.windows, live.windows, {});
    if Some(w) in pairing {
      var j :| 0 <= j < |pairing| && pairing[j] == Some(w);
      FailureIsolation(snap, live, world, j, k);
    } else {
      var actions := DiffWindows(snap.windows, live.windows, {});
      ApplyPointwise(live, Diff(snap, live), 0, world, k);
      UnpairedWindow(snap.windows, live.windows, {}, w, 0, world);
      AfterwardsUntouched(snap, live, w, |actions|, world);
      var after := Extras(live.windows, TakenAfter(snap.windows, live.windows, {})) + FocusActions(snap, live);
      EvolveConcat(w, actions, after, 0, world);
    }
  }

  /** Every mutating action of a diff but the refocus acts on a live window. */
  lemma ActsOnLive(snap: Snapshot, live: Snapshot, a: RestoreAction) returns (k: nat)
    requires a in Diff(snap, live) && IsMutating(a) && !a.RestoreActiveFocus?
    ensures k < |live.windows| && ActsOn(a, live.windows[k])
  {
    var taken := TakenAfter(snap.windows, live.windows, {});
    ExtrasShape(live.windows, taken);
    ActionsOnFree(snap.windows, live.windows, {});
    assert a in DiffWindows(snap.windows, live.windows, {});
    k :| 0 <= k < |live.windows| && live.windows[k].address == a.address;
  }

  /** A run without outside failures reports no error. */
  lemma NoFailuresAllOk(snap: Snapshot, live: Snapshot, world: World)
    requires DistinctTargets(live.windows) && NoFailures(world)
    ensures AllOk(Apply(live, Diff(snap, live), 0, world).1)
  {
    hide Apply, Diff, ActsOn;
    var outcomes := Apply(live, Diff(snap, live), 0, world).1;
    OutcomesAlign(live, Diff(snap, live), 0, world);
    FocusRestored(snap, live, world);
    forall q | 0 <= q < |outcomes| ensures outcomes[q].ok {
      var a := outcomes[q].action;
      assert a == Diff(snap, live)[q];
      if IsMutating(a) && !a.RestoreActiveFocus? {
        var k := ActsOnLive(snap, live, a);
        OwnAllOk(snap, live, world, k);
      }
    }
  }

  /**
   * Restore converges: after a run that reports no error, a second diff finds nothing to change exactly when the
   * first moved no window to a negative workspace id.
   */
  lemma RestoreConverges(snap: Snapshot, live: Snapshot, world: World)
    requires DistinctTargets(live.windows) && AllOk(Apply(live, Diff(snap, live), 0, world).1)
    ensures MutationCount(Diff(snap, Apply(live, Diff(snap, live), 0, world).0)) == 0
      <==> NoNegativeMove(Diff(snap, live))
  {
    hide WindowActions, Apply;
    var actions := Diff(snap, live);
    var after := Apply(live, actions, 0, world).0;
    SameAddresses(snap, live, actions, world);
    WindowsRestored(snap, live, world);
    SecondDiff(snap.windows, live.windows, after.windows, {});
    FocusRestored(snap, live, world);
    var blocks, blocks' := DiffWindows(snap.windows, live.windows, {}), DiffWindows(snap.windows, after.windows, {});
    var extras := Extras(live.windows, TakenAfter(snap.windows, live.windows, {}));
    var extras' := Extras(after.windows, TakenAfter(snap.windows, after.windows, {}));
    ExtrasShape(live.windows, TakenAfter(snap.windows, live.windows, {}));
    ExtrasShape(after.windows, TakenAfter(snap.windows, after.windows, {}));
    NoneMutating(extras');
    MutationConcat(blocks', extras');
    assert FocusActions(snap, after) == [];
    assert Diff(snap, after) == blocks' + extras';
    DiffNoNegative(snap.windows, live.windows, {});
    NoNegativeConcat(blocks, extras);
    NoNegativeConcat(blocks + extras, FocusActions(snap, live));
  }

  const SCRATCHED: Window :=
    Window("0x1", 1, "kitty", "kitty", "kitty", "kitty", -99, Pair(0, 0), Pair(8, 8), false, 0, false)

  /**
   * The failing branch, concretely: a window recorded on a scratchpad (id -99) and found on workspace 1 is
   * sent on a relative move, lands on a numbered workspace, and the next diff asks for the same move again.
   */
  lemma ScratchpadNotRestored(world: World)
    requires NoFailures(world)
    ensures var snap, live := Snapshot([SCRATCHED], None), Snapshot([SCRATCHED.(workspaceId := 1)], None);
      && DistinctTargets(live.windows)
      && Diff(snap, live) == [MoveToWorkspace("0x1", 1, -99)]
      && MutationCount(Diff(snap, Apply(live, Diff(snap, live), 0, world).0)) > 0
  {
    var snap, live := Snapshot([SCRATCHED], None), Snapshot([SCRATCHED.(workspaceId := 1)], None);
    var w := live.windows[0];
    assert w in live.windows;
    AddressPreferred(SCRATCHED, live.windows, {});
    var m := MatchLive(SCRATCHED, live.windows, {});
    assert m == Some(w);
    assert WindowActions(SCRATCHED, w) == [MoveToWorkspace("0x1", 1, -99)];
    assert snap.windows == [SCRATCHED] && snap.windows[1..] == [];
    assert DiffWindows(snap.windows, live.windows, {})
        == WindowActions(SCRATCHED, w) + DiffWindows([], live.windows, Claim(m, {}));
    assert TakenAfter(snap.windows, live.windows, {}) == TakenAfter([], live.windows, Claim(m, {})) == {"0x1"};
    assert live.windows[1..] == [];
    assert Extras(live.windows, {"0x1"}) == [];
    assert Diff(snap, live)[0].MoveToWorkspace?;
    NoFailuresAllOk(snap, live, world);
    RestoreConverges(snap, live, world);
  }
}
