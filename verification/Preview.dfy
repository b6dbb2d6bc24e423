/** The dry-run preview of a restore, and its agreement with what the applier reports. */
module Preview {
  import opened Snapshots
  import opened Compositor
  import Restore

  datatype Kind = Move | Float | Reposition | Fullscreen | PinKind | Refocus | Missing | Extra

  function KindOf(a: RestoreAction): Kind {
    match a
    case MoveToWorkspace(_, _, _) => Move
    case ToggleFloating(_, _) => Float
    case RepositionFloating(_, _, _, _, _) => Reposition
    case SetFullscreen(_, _, _) => Fullscreen
    case SetPin(_, _) => PinKind
    case RestoreActiveFocus(_, _) => Refocus
    case WindowMissing(_, _, _) => Missing
    case WindowNotInSnapshot(_, _) => Extra
  }

  datatype Summary = Summary(
    totalActions: nat,
    mutatingActions: nat,
    moveToWorkspace: nat,
    toggleFloating: nat,
    repositionFloating: nat,
    setFullscreen: nat,
    setPin: nat,
    restoreActiveFocus: nat,
    windowsMissing: nat,
    windowsExtra: nat)

  function Count(kind: Kind, actions: seq<RestoreAction>): nat {
    if actions == [] then 0
    else (if KindOf(actions[0]) == kind then 1 else 0) + Count(kind, actions[1..])
  }

  /** The actions that do, or do not, change the desktop, in diff order. */
  function Select(mutating: bool, actions: seq<RestoreAction>): seq<RestoreAction> {
    if actions == [] then []
    else (if IsMutating(actions[0]) == mutating then [actions[0]] else []) + Select(mutating, actions[1..])
  }

  predicate Counted(s: Summary, actions: seq<RestoreAction>) {
    && s.totalActions == |actions|
    && s.mutatingActions == MutationCount(actions)
    && s.moveToWorkspace == Count(Move, actions)
    && s.toggleFloating == Count(Float, actions)
    && s.repositionFloating == Count(Reposition, actions)
    && s.setFullscreen == Count(Fullscreen, actions)
    && s.setPin == Count(PinKind, actions)
    && s.restoreActiveFocus == Count(Refocus, actions)
    && s.windowsMissing == Count(Missing, actions)
    && s.windowsExtra == Count(Extra, actions)
  }

  lemma {:induction false} CountSnoc(kind: Kind, actions: seq<RestoreAction>, a: RestoreAction)
    ensures Count(kind, actions + [a]) == Count(kind, actions) + if KindOf(a) == kind then 1 else 0
  {
    if actions != [] {
      assert (actions + [a])[1..] == actions[1..] + [a];
      CountSnoc(kind, actions[1..], a);
    }
  }

  lemma {:induction false} SelectSnoc(mutating: bool, actions: seq<RestoreAction>, a: RestoreAction)
    ensures Select(mutating, actions + [a])
         == Select(mutating, actions) + if IsMutating(a) == mutating then [a] else []
  {
    hide IsMutating;
    if actions == [] {
      assert [] + [a] == [a] && [a][1..] == [];
    } else {
      assert (actions + [a])[0] == actions[0] && (actions + [a])[1..] == actions[1..] + [a];
      SelectSnoc(mutating, actions[1..], a);
      var head := if IsMutating(actions[0]) == mutating then [actions[0]] else [];
      var last := if IsMutating(a) == mutating then [a] else [];
      assert head + (Select(mutating, actions[1..]) + last) == (head + Select(mutating, actions[1..])) + last;
    }
  }

  lemma OneMutation(a: RestoreAction)
    ensures MutationCount([a]) == if IsMutating(a) then 1 else 0
  {
    assert [a][1..] == [];
  }

  lemma Nothing()
    ensures MutationCount([]) == 0 && Select(true, []) == [] && Select(false, []) == []
    ensures forall kind: Kind :: Count(kind, []) == 0
  {
  }

  method FromDiff(actions: seq<RestoreAction>)
    returns (summary: Summary, willApply: seq<RestoreAction>, willSkip: seq<RestoreAction>)
    ensures Counted(summary, actions)
    ensures willApply == Select(true, actions) && willSkip == Select(false, actions)
  {
    hide Count, Select, MutationCount;
    Nothing();
    summary, willApply, willSkip := Summary(0, 0, 0, 0, 0, 0, 0, 0, 0, 0), [], [];
    for i := 0 to |actions|
      invariant Counted(summary, actions[..i])
      invariant willApply == Select(true, actions[..i]) && willSkip == Select(false, actions[..i])
    {
      var a := actions[i];
      assert actions[..i + 1] == actions[..i] + [a];
      forall kind: Kind
        ensures Count(kind, actions[..i + 1]) == Count(kind, actions[..i]) + if KindOf(a) == kind then 1 else 0
      {
        CountSnoc(kind, actions[..i], a);
      }
      SelectSnoc(true, actions[..i], a);
      SelectSnoc(false, actions[..i], a);
      Restore.MutationConcat(actions[..i], [a]);
      OneMutation(a);
      summary := summary.(totalActions := summary.totalActions + 1);
      match a {
        case MoveToWorkspace(_, _, _) => summary := summary.(moveToWorkspace := summary.moveToWorkspace + 1);
        case ToggleFloating(_, _) => summary := summary.(toggleFloating := summary.toggleFloating + 1);
        case RepositionFloating(_, _, _, _, _) =>
          summary := summary.(repositionFloating := summary.repositionFloating + 1);
        case SetFullscreen(_, _, _) => summary := summary.(setFullscreen := summary.setFullscreen + 1);
        case SetPin(_, _) => summary := summary.(setPin := summary.setPin + 1);
        case RestoreActiveFocus(_, _) => summary := summary.(restoreActiveFocus := summary.restoreActiveFocus + 1);
        case WindowMissing(_, _, _) => summary := summary.(windowsMissing := summary.windowsMissing + 1);
        case WindowNotInSnapshot(_, _) => summary := summary.(windowsExtra := summary.windowsExtra + 1);
      }
      if IsMutating(a) {
        summary := summary.(mutatingActions := summary.mutatingActions + 1);
        willApply := willApply + [a];
      } else {
        willSkip := willSkip + [a];
      }
    }
    assert actions[..|actions|] == actions;
  }

  lemma {:induction false} CountersAddUp(actions: seq<RestoreAction>)
    ensures MutationCount(actions) == Count(Move, actions) + Count(Float, actions) + Count(Reposition, actions)
                                    + Count(Fullscreen, actions) + Count(PinKind, actions) + Count(Refocus, actions)
    ensures |actions| == MutationCount(actions) + Count(Missing, actions) + Count(Extra, actions)
  {
    if actions != [] { CountersAddUp(actions[1..]); }
  }

  lemma {:induction false} ListsShare(actions: seq<RestoreAction>)
    ensures multiset(Select(true, actions)) + multiset(Select(false, actions)) == multiset(actions)
    ensures MutationCount(actions) == |Select(true, actions)|
  {
    if actions != [] {
      ListsShare(actions[1..]);
      assert actions == [actions[0]] + actions[1..];
    }
  }

  /** The two lists share out the diff, and the counters add up to the totals. */
  lemma PreviewAddsUp(s: Summary, actions: seq<RestoreAction>)
    requires Counted(s, actions)
    ensures multiset(Select(true, actions)) + multiset(Select(false, actions)) == multiset(actions)
    ensures s.mutatingActions == |Select(true, actions)|
    ensures s.mutatingActions == s.moveToWorkspace + s.toggleFloating + s.repositionFloating + s.setFullscreen
                               + s.setPin + s.restoreActiveFocus
    ensures s.totalActions == s.mutatingActions + s.windowsMissing + s.windowsExtra
  {
    CountersAddUp(actions);
    ListsShare(actions);
  }

  function Places(kind: Kind, actions: seq<RestoreAction>): set<nat> {
    set q: nat | q < |actions| && KindOf(actions[q]) == kind
  }

  lemma PlacesSnoc(kind: Kind, front: seq<RestoreAction>, a: RestoreAction)
    ensures Places(kind, front + [a]) == Places(kind, front) + (if KindOf(a) == kind then {|front|} else {})
    ensures |front| !in Places(kind, front)
  {
    hide KindOf;
    var all := front + [a];
    forall q: nat ensures q in Places(kind, all)
      <==> q in Places(kind, front) || (q == |front| && KindOf(a) == kind)
    {
      if q < |front| { assert all[q] == front[q]; }
    }
  }

  lemma {:induction false} CountIsCardinality(kind: Kind, actions: seq<RestoreAction>)
    ensures Count(kind, actions) == |Places(kind, actions)|
  {
    if actions == [] {
      assert Places(kind, actions) == {};
    } else {
      hide KindOf, Places, Count;
      var front, a := actions[..|actions| - 1], actions[|actions| - 1];
      assert actions == front + [a];
      CountIsCardinality(kind, front);
      CountSnoc(kind, front, a);
      PlacesSnoc(kind, front, a);
    }
  }

  /** Each counter is the number of actions of its own kind. */
  lemma CountersCount(s: Summary, actions: seq<RestoreAction>)
    requires Counted(s, actions)
    ensures s.moveToWorkspace == |set q | 0 <= q < |actions| && actions[q].MoveToWorkspace?|
    ensures s.toggleFloating == |set q | 0 <= q < |actions| && actions[q].ToggleFloating?|
    ensures s.repositionFloating == |set q | 0 <= q < |actions| && actions[q].RepositionFloating?|
    ensures s.setFullscreen == |set q | 0 <= q < |actions| && actions[q].SetFullscreen?|
    ensures s.setPin == |set q | 0 <= q < |actions| && actions[q].SetPin?|
    ensures s.restoreActiveFocus == |set q | 0 <= q < |actions| && actions[q].RestoreActiveFocus?|
    ensures s.windowsMissing == |set q | 0 <= q < |actions| && actions[q].WindowMissing?|
    ensures s.windowsExtra == |set q | 0 <= q < |actions| && actions[q].WindowNotInSnapshot?|
  {
    hide Count;
    forall kind: Kind ensures Count(kind, actions) == |Places(kind, actions)| { CountIsCardinality(kind, actions); }
    assert Places(Move, actions) == set q | 0 <= q < |actions| && actions[q].MoveToWorkspace?;
    assert Places(Float, actions) == set q | 0 <= q < |actions| && actions[q].ToggleFloating?;
    assert Places(Reposition, actions) == set q | 0 <= q < |actions| && actions[q].RepositionFloating?;
    assert Places(Fullscreen, actions) == set q | 0 <= q < |actions| && actions[q].SetFullscreen?;
    assert Places(PinKind, actions) == set q | 0 <= q < |actions| && actions[q].SetPin?;
    assert Places(Refocus, actions) == set q | 0 <= q < |actions| && actions[q].RestoreActiveFocus?;
    assert Places(Missing, actions) == set q | 0 <= q < |actions| && actions[q].WindowMissing?;
    assert Places(Extra, actions) == set q | 0 <= q < |actions| && actions[q].WindowNotInSnapshot?;
  }

  /** The actions of the outcomes that were, or were not, skipped. */
  function Reported(skipped: bool, outcomes: seq<Outcome>): seq<RestoreAction> {
    if outcomes == [] then []
    else (if outcomes[0].skipped == skipped then [outcomes[0].action] else []) + Reported(skipped, outcomes[1..])
  }

  lemma {:induction false} ReportedAlign(actions: seq<RestoreAction>, outcomes: seq<Outcome>, skipped: bool)
    requires |outcomes| == |actions|
    requires forall q | 0 <= q < |actions| ::
      outcomes[q].action == actions[q] && outcomes[q].skipped == !IsMutating(actions[q])
    ensures Reported(skipped, outcomes) == Select(!skipped, actions)
  {
    if actions != [] { ReportedAlign(actions[1..], outcomes[1..], skipped); }
  }

  /** The preview is truthful: for every pattern of failures the applier attempts `willApply` and skips `willSkip`. */
  lemma PreviewTruthful(live: Snapshot, actions: seq<RestoreAction>, world: World)
    ensures Reported(false, Apply(live, actions, 0, world).1) == Select(true, actions)
    ensures Reported(true, Apply(live, actions, 0, world).1) == Select(false, actions)
  {
    Restore.OutcomesAlign(live, actions, 0, world);
    ReportedAlign(actions, Apply(live, actions, 0, world).1, false);
    ReportedAlign(actions, Apply(live, actions, 0, world).1, true);
  }
}
