/** Snapshots of the desktop and the diff that leads back to one. */
module Snapshots {
  import opened Wrappers
  import opened Decimal

  datatype Pair = Pair(x: int, y: int)

  datatype Window = Window(
    address: string,
    pid: int,
    initialClass: string,
    initialTitle: string,
    cls: string,
    title: string,
    workspaceId: i32,
    at: Pair,
    size: Pair,
    floating: bool,
    fullscreen: int,
    pinned: bool)

  /** The part of a snapshot that a diff reads. */
  datatype Snapshot = Snapshot(windows: seq<Window>, active: Option<string>)

  datatype RestoreAction =
    | WindowMissing(address: string, cls: string, title: string)
    | MoveToWorkspace(address: string, fromWorkspace: i32, toWorkspace: i32)
    | ToggleFloating(address: string, target: bool)
    | RepositionFloating(address: string, targetAt: Pair, targetSize: Pair, currentAt: Pair, currentSize: Pair)
    | SetFullscreen(address: string, fromMode: int, toMode: int)
    | SetPin(address: string, target: bool)
    | WindowNotInSnapshot(address: string, cls: string)
    | RestoreActiveFocus(address: string, fromAddress: Option<string>)

  predicate IsMutating(a: RestoreAction) {
    a.MoveToWorkspace? || a.ToggleFloating? || a.RepositionFloating? || a.SetFullscreen? || a.SetPin?
    || a.RestoreActiveFocus?
  }

  function MutationCount(actions: seq<RestoreAction>): nat {
    if actions == [] then 0
    else (if IsMutating(actions[0]) then 1 else 0) + MutationCount(actions[1..])
  }

  // ---- matching --------------------------------------------------------------

  /** The three ways a live window is recognised, in order of preference. */
  datatype Tier = ByAddress | ByPid | ByInitial

  predicate Fits(tier: Tier, snap: Window, w: Window) {
    match tier
    case ByAddress => w.address == snap.address
    case ByPid => w.pid == snap.pid
    case ByInitial => w.initialClass == snap.initialClass && w.initialTitle == snap.initialTitle
  }

  /** The live windows not yet taken that fit, in live order. */
  function Candidates(tier: Tier, snap: Window, live: seq<Window>, taken: set<string>): seq<Window> {
    if live == [] then []
    else if live[0].address !in taken && Fits(tier, snap, live[0])
    then [live[0]] + Candidates(tier, snap, live[1..], taken)
    else Candidates(tier, snap, live[1..], taken)
  }

  function MatchLive(snap: Window, live: seq<Window>, taken: set<string>): Option<Window> {
    var sameAddress := Candidates(ByAddress, snap, live, taken);
    var samePid := Candidates(ByPid, snap, live, taken);
    var sameInitial := Candidates(ByInitial, snap, live, taken);
    if sameAddress != [] then Some(sameAddress[0])
    else if snap.pid > 0 && |samePid| == 1 then Some(samePid[0])
    else if snap.initialClass != "" && |sameInitial| == 1 then Some(sameInitial[0])
    else None
  }

  function Claim(m: Option<Window>, taken: set<string>): set<string> {
    if m.Some? then taken + {m.value.address} else taken
  }

  /** The live window each snapshot window is paired with. */
  function Pairing(snaps: seq<Window>, live: seq<Window>, taken: set<string>): (p: seq<Option<Window>>)
    ensures |p| == |snaps|
  {
    if snaps == [] then []
    else
      var m := MatchLive(snaps[0], live, taken);
      [m] + Pairing(snaps[1..], live, Claim(m, taken))
  }

  function TakenAfter(snaps: seq<Window>, live: seq<Window>, taken: set<string>): set<string> {
    if snaps == [] then taken
    else TakenAfter(snaps[1..], live, Claim(MatchLive(snaps[0], live, taken), taken))
  }

  // ---- the diff ----------------------------------------------------------------

  function WorkspaceActions(snap: Window, w: Window): seq<RestoreAction> {
    if w.workspaceId != snap.workspaceId then [MoveToWorkspace(w.address, w.workspaceId, snap.workspaceId)] else []
  }

  function FloatActions(snap: Window, w: Window): seq<RestoreAction> {
    if w.floating != snap.floating then [ToggleFloating(w.address, snap.floating)] else []
  }

  function GeometryActions(snap: Window, w: Window): seq<RestoreAction> {
    if snap.floating && (w.at != snap.at || w.size != snap.size)
    then [RepositionFloating(w.address, snap.at, snap.size, w.at, w.size)] else []
  }

  function FullscreenActions(snap: Window, w: Window): seq<RestoreAction> {
    if w.fullscreen != snap.fullscreen then [SetFullscreen(w.address, w.fullscreen, snap.fullscreen)] else []
  }

  function PinActions(snap: Window, w: Window): seq<RestoreAction> {
    if snap.floating && w.pinned != snap.pinned then [SetPin(w.address, snap.pinned)] else []
  }

  /** What takes live window `w` to the recorded `snap`: workspace, floating, geometry, fullscreen, pin. */
  function WindowActions(snap: Window, w: Window): seq<RestoreAction> {
    WorkspaceActions(snap, w)
    + (FloatActions(snap, w) + (GeometryActions(snap, w) + (FullscreenActions(snap, w) + PinActions(snap, w))))
  }

  function Block(snap: Window, m: Option<Window>): seq<RestoreAction> {
    if m.Some? then WindowActions(snap, m.value) else [WindowMissing(snap.address, snap.cls, snap.title)]
  }

  function DiffWindows(snaps: seq<Window>, live: seq<Window>, taken: set<string>): seq<RestoreAction> {
    if snaps == [] then []
    else
      var m := MatchLive(snaps[0], live, taken);
      Block(snaps[0], m) + DiffWindows(snaps[1..], live, Claim(m, taken))
  }

  function Extras(live: seq<Window>, taken: set<string>): seq<RestoreAction> {
    if live == [] then []
    else if live[0].address in taken then Extras(live[1..], taken)
    else [WindowNotInSnapshot(live[0].address, live[0].cls)] + Extras(live[1..], taken)
  }

  predicate HasAddress(ws: seq<Window>, address: string) {
    exists k | 0 <= k < |ws| :: ws[k].address == address
  }

  function FocusActions(snap: Snapshot, live: Snapshot): seq<RestoreAction> {
    if snap.active.Some? && live.active != snap.active && HasAddress(live.windows, snap.active.value)
    then [RestoreActiveFocus(snap.active.value, live.active)] else []
  }

  function Diff(snap: Snapshot, live: Snapshot): seq<RestoreAction> {
    DiffWindows(snap.windows, live.windows, {})
    + Extras(live.windows, TakenAfter(snap.windows, live.windows, {}))
    + FocusActions(snap, live)
  }

  lemma WindowActionsShape(snap: Window, w: Window)
    ensures var actions := WindowActions(snap, w);
      forall q | 0 <= q < |actions| ::
        IsMutating(actions[q]) && !actions[q].RestoreActiveFocus? && actions[q].address == w.address
  {
    var a, b, c, d, e := WorkspaceActions(snap, w), FloatActions(snap, w), GeometryActions(snap, w),
      FullscreenActions(snap, w), PinActions(snap, w);
    var actions := WindowActions(snap, w);
    forall q | 0 <= q < |actions|
      ensures actions[q] in a || actions[q] in b || actions[q] in c || actions[q] in d || actions[q] in e
    {
      hide WorkspaceActions, FloatActions, GeometryActions, FullscreenActions, PinActions;
    }
  }

  lemma Reassociate(a: seq<RestoreAction>, b: seq<RestoreAction>, c: seq<RestoreAction>, d: seq<RestoreAction>,
                    e: seq<RestoreAction>)
    ensures [] + a + b + c + d + e == a + (b + (c + (d + e)))
  {
  }

  /** The pushes made for one pairing, in restore order. */
  method EmitBlock(s: Window, matched: Option<Window>) returns (actions: seq<RestoreAction>)
    ensures actions == Block(s, matched)
  {
    actions := [];
    if matched.Some? {
      var w := matched.value;
      if w.workspaceId != s.workspaceId {
        actions := actions + [MoveToWorkspace(w.address, w.workspaceId, s.workspaceId)];
      }
      ghost var before := actions;
      assert before == [] + WorkspaceActions(s, w);
      if w.floating != s.floating {
        actions := actions + [ToggleFloating(w.address, s.floating)];
      }
      assert actions == before + FloatActions(s, w);
      before := actions;
      if s.floating && (w.at != s.at || w.size != s.size) {
        actions := actions + [RepositionFloating(w.address, s.at, s.size, w.at, w.size)];
      }
      assert actions == before + GeometryActions(s, w);
      before := actions;
      if w.fullscreen != s.fullscreen {
        actions := actions + [SetFullscreen(w.address, w.fullscreen, s.fullscreen)];
      }
      assert actions == before + FullscreenActions(s, w);
      before := actions;
      if s.floating && w.pinned != s.pinned {
        actions := actions + [SetPin(w.address, s.pinned)];
      }
      assert actions == before + PinActions(s, w);
      Reassociate(WorkspaceActions(s, w), FloatActions(s, w), GeometryActions(s, w), FullscreenActions(s, w),
                  PinActions(s, w));
    } else {
      actions := actions + [WindowMissing(s.address, s.cls, s.title)];
    }
  }

  method DiffAgainst(snap: Snapshot, live: Snapshot) returns (actions: seq<RestoreAction>)
    ensures actions == Diff(snap, live)
  {
    hide MatchLive, Block, Candidates;
    actions := [];
    var matchedLive: set<string> := {};
    ghost var all := DiffWindows(snap.windows, live.windows, {});
    for i := 0 to |snap.windows|
      invariant actions + DiffWindows(snap.windows[i..], live.windows, matchedLive) == all
      invariant TakenAfter(snap.windows[i..], live.windows, matchedLive)
             == TakenAfter(snap.windows, live.windows, {})
    {
      var s := snap.windows[i];
      assert snap.windows[i..][0] == s && snap.windows[i..][1..] == snap.windows[i + 1..];
      var matched := MatchLive(s, live.windows, matchedLive);
      if matched.Some? {
        matchedLive := matchedLive + {matched.value.address};
      }
      var block := EmitBlock(s, matched);
      actions := actions + block;
    }
    assert snap.windows[|snap.windows|..] == [];
    assert actions == all;
    var extras := CollectExtras(live.windows, matchedLive);
    actions := actions + extras;
    if snap.active.Some? && live.active != snap.active && HasAddress(live.windows, snap.active.value) {
      actions := actions + [RestoreActiveFocus(snap.active.value, live.active)];
    }
  }

  method CollectExtras(live: seq<Window>, matchedLive: set<string>) returns (actions: seq<RestoreAction>)
    ensures actions == Extras(live, matchedLive)
  {
    actions := [];
    for i := 0 to |live|
      invariant actions + Extras(live[i..], matchedLive) == Extras(live, matchedLive)
    {
      assert live[i..][1..] == live[i + 1..];
      if live[i].address !in matchedLive {
        actions := actions + [WindowNotInSnapshot(live[i].address, live[i].cls)];
      }
    }
    assert live[|live|..] == [];
  }
}
