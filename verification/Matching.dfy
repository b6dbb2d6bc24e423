/** Which live window a snapshot window is paired with. */
module Matching {
  import opened Wrappers
  import opened Snapshots

  predicate Distinct(ws: seq<Window>) {
    forall i, j | 0 <= i < j < |ws| :: ws[i].address != ws[j].address
  }

  /** `w` is live, not taken, and agrees with the recorded window in what the tier compares. */
  predicate Eligible(tier: Tier, snap: Window, live: seq<Window>, taken: set<string>, w: Window) {
    && w in live && w.address !in taken
    && (tier == ByAddress ==> w.address == snap.address)
    && (tier == ByPid ==> w.pid == snap.pid)
    && (tier == ByInitial ==> w.initialClass == snap.initialClass && w.initialTitle == snap.initialTitle)
  }

  /** `w` is eligible in this tier and no other window is. */
  ghost predicate Sole(tier: Tier, snap: Window, live: seq<Window>, taken: set<string>, w: Window) {
    Eligible(tier, snap, live, taken, w)
    && forall v | Eligible(tier, snap, live, taken, v) :: v == w
  }

  ghost predicate Vacant(tier: Tier, snap: Window, live: seq<Window>, taken: set<string>) {
    forall v :: !Eligible(tier, snap, live, taken, v)
  }

  lemma {:induction false} CandidatesAreEligible(tier: Tier, snap: Window, live: seq<Window>, taken: set<string>,
                                                 w: Window)
    ensures w in Candidates(tier, snap, live, taken) <==> Eligible(tier, snap, live, taken, w)
  {
    if live != [] {
      CandidatesAreEligible(tier, snap, live[1..], taken, w);
      assert live == [live[0]] + live[1..];
    }
  }

  lemma {:induction false} CandidatesDistinct(tier: Tier, snap: Window, live: seq<Window>, taken: set<string>)
    requires Distinct(live)
    ensures Distinct(Candidates(tier, snap, live, taken))
  {
    if live != [] {
      CandidatesDistinct(tier, snap, live[1..], taken);
      var rest := Candidates(tier, snap, live[1..], taken);
      forall k | 0 <= k < |rest| ensures rest[k].address != live[0].address {
        CandidatesAreEligible(tier, snap, live[1..], taken, rest[k]);
      }
    }
  }

  lemma SoleCandidate(tier: Tier, snap: Window, live: seq<Window>, taken: set<string>, w: Window)
    requires Distinct(live)
    ensures var c := Candidates(tier, snap, live, taken);
      && (c == [] <==> Vacant(tier, snap, live, taken))
      && ((|c| == 1 && c[0] == w) <==> Sole(tier, snap, live, taken, w))
  {
    var c := Candidates(tier, snap, live, taken);
    forall v ensures v in c <==> Eligible(tier, snap, live, taken, v) {
      CandidatesAreEligible(tier, snap, live, taken, v);
    }
    CandidatesDistinct(tier, snap, live, taken);
    if c != [] { assert c[0] in c; }
    if |c| > 1 { assert c[1] in c && c[0].address != c[1].address; }
  }

  /**
   * The match, said without lists: the window with the recorded address when it is free; failing that, the
   * only free window with the recorded pid; failing that, the only free one with the recorded initial names.
   */
  ghost predicate Matches(snap: Window, live: seq<Window>, taken: set<string>, w: Window) {
    || Eligible(ByAddress, snap, live, taken, w)
    || (Vacant(ByAddress, snap, live, taken) && snap.pid > 0 && Sole(ByPid, snap, live, taken, w))
    || (Vacant(ByAddress, snap, live, taken)
        && !(snap.pid > 0 && exists v :: Sole(ByPid, snap, live, taken, v))
        && snap.initialClass != "" && Sole(ByInitial, snap, live, taken, w))
  }

  lemma MatchExact(snap: Window, live: seq<Window>, taken: set<string>, w: Window)
    requires Distinct(live)
    ensures MatchLive(snap, live, taken) == Some(w) <==> Matches(snap, live, taken, w)
  {
    var byAddress := Candidates(ByAddress, snap, live, taken);
    var byPid := Candidates(ByPid, snap, live, taken);
    SoleCandidate(ByAddress, snap, live, taken, w);
    SoleCandidate(ByPid, snap, live, taken, w);
    SoleCandidate(ByInitial, snap, live, taken, w);
    if byAddress != [] {
      CandidatesAreEligible(ByAddress, snap, live, taken, byAddress[0]);
      CandidatesAreEligible(ByAddress, snap, live, taken, w);
      if Eligible(ByAddress, snap, live, taken, w) {
        var i :| 0 <= i < |live| && live[i] == w;
        var j :| 0 <= j < |live| && live[j] == byAddress[0];
        assert i == j;
      }
    }
    if |byPid| == 1 {
      SoleCandidate(ByPid, snap, live, taken, byPid[0]);
    }
    forall v | Sole(ByPid, snap, live, taken, v) ensures |byPid| == 1 {
      SoleCandidate(ByPid, snap, live, taken, v);
    }
  }

  lemma MatchIsFree(snap: Window, live: seq<Window>, taken: set<string>)
    ensures var m := MatchLive(snap, live, taken);
      m.Some? ==> m.value in live && m.value.address !in taken
  {
    var m := MatchLive(snap, live, taken);
    if m.Some? {
      forall tier | tier in {ByAddress, ByPid, ByInitial} && m.value in Candidates(tier, snap, live, taken)
        ensures m.value in live && m.value.address !in taken
      {
        CandidatesAreEligible(tier, snap, live, taken, m.value);
      }
    }
  }

  // ---- each live window at most once ------------------------------------------

  /** Every pairing is with a free live window, and no live window is paired twice. */
  predicate IsPartialInjection(p: seq<Option<Window>>, live: seq<Window>, taken: set<string>) {
    && (forall i | 0 <= i < |p| && p[i].Some? :: p[i].value in live && p[i].value.address !in taken)
    && (forall i, j | 0 <= i < j < |p| && p[i].Some? && p[j].Some? ::
          p[i].value.address != p[j].value.address)
  }

  lemma {:induction false} PairingInjective(snaps: seq<Window>, live: seq<Window>, taken: set<string>)
    ensures IsPartialInjection(Pairing(snaps, live, taken), live, taken)
  {
    if snaps != [] {
      var m := MatchLive(snaps[0], live, taken);
      MatchIsFree(snaps[0], live, taken);
      PairingInjective(snaps[1..], live, Claim(m, taken));
      InjectionExtends(m, Pairing(snaps[1..], live, Claim(m, taken)), live, taken);
    }
  }

  lemma InjectionExtends(m: Option<Window>, rest: seq<Option<Window>>, live: seq<Window>, taken: set<string>)
    requires m.Some? ==> m.value in live && m.value.address !in taken
    requires IsPartialInjection(rest, live, Claim(m, taken))
    ensures IsPartialInjection([m] + rest, live, taken)
  {
  }

  function CountMatched(p: seq<Option<Window>>): nat {
    if p == [] then 0 else (if p[0].Some? then 1 else 0) + CountMatched(p[1..])
  }

  function CountMissing(actions: seq<RestoreAction>): nat {
    if actions == [] then 0 else (if actions[0].WindowMissing? then 1 else 0) + CountMissing(actions[1..])
  }

  lemma {:induction false} CountMissingConcat(a: seq<RestoreAction>, b: seq<RestoreAction>)
    ensures CountMissing(a + b) == CountMissing(a) + CountMissing(b)
  {
    if a == [] {
      assert a + b == b;
    } else {
      CountMissingConcat(a[1..], b);
      assert (a + b)[1..] == a[1..] + b;
    }
  }

  lemma {:induction false} NoneMissing(a: seq<RestoreAction>)
    requires forall i | 0 <= i < |a| :: !a[i].WindowMissing?
    ensures CountMissing(a) == 0
  {
    if a != [] { NoneMissing(a[1..]); }
  }

  lemma BlockMissing(snap: Window, m: Option<Window>)
    ensures CountMissing(Block(snap, m)) == if m.Some? then 0 else 1
  {
    hide WindowActions;
    if m.Some? {
      WindowActionsShape(snap, m.value);
      NoneMissing(WindowActions(snap, m.value));
    }
  }

  lemma {:induction false} MissingCount(snaps: seq<Window>, live: seq<Window>, taken: set<string>)
    ensures CountMissing(DiffWindows(snaps, live, taken)) + CountMatched(Pairing(snaps, live, taken)) == |snaps|
  {
    hide Block, MatchLive;
    if snaps != [] {
      var m := MatchLive(snaps[0], live, taken);
      var rest := DiffWindows(snaps[1..], live, Claim(m, taken));
      MissingCount(snaps[1..], live, Claim(m, taken));
      CountMissingConcat(Block(snaps[0], m), rest);
      BlockMissing(snaps[0], m);
    }
  }

  function Addresses(ws: seq<Window>): set<string> {
    set w | w in ws :: w.address
  }

  lemma {:induction false} TakenGrows(snaps: seq<Window>, live: seq<Window>, taken: set<string>)
    requires taken <= Addresses(live)
    ensures TakenAfter(snaps, live, taken) <= Addresses(live)
    ensures |TakenAfter(snaps, live, taken)| == |taken| + CountMatched(Pairing(snaps, live, taken))
  {
    if snaps != [] {
      MatchIsFree(snaps[0], live, taken);
      TakenGrows(snaps[1..], live, Claim(MatchLive(snaps[0], live, taken), taken));
    }
  }

  lemma {:induction false} ExtrasCount(live: seq<Window>, taken: set<string>)
    requires Distinct(live) && taken <= Addresses(live)
    ensures |Extras(live, taken)| + |taken| == |live|
  {
    if live == [] {
      assert taken == {};
    } else {
      var head, rest := live[0].address, live[1..];
      assert live == [live[0]] + rest;
      assert head !in Addresses(rest);
      ExtrasCount(rest, taken - {head});
      ExtrasIgnore(rest, taken, head);
      if head in taken { assert taken == (taken - {head}) + {head}; }
      else { assert taken - {head} == taken; }
    }
  }

  lemma {:induction false} ExtrasIgnore(live: seq<Window>, taken: set<string>, address: string)
    requires address !in Addresses(live)
    ensures Extras(live, taken - {address}) == Extras(live, taken)
  {
    if live != [] {
      assert live == [live[0]] + live[1..];
      assert live[0] in live;
      ExtrasIgnore(live[1..], taken, address);
    }
  }

  /** Nothing is lost: reported-missing and matched make up the snapshot, reported-extra and matched the desktop. */
  lemma MatchingConserves(snap: Snapshot, live: Snapshot)
    requires Distinct(live.windows)
    ensures var matched := CountMatched(Pairing(snap.windows, live.windows, {}));
      && CountMissing(Diff(snap, live)) + matched == |snap.windows|
      && |Extras(live.windows, TakenAfter(snap.windows, live.windows, {}))| + matched == |live.windows|
  {
    var taken := TakenAfter(snap.windows, live.windows, {});
    MissingCount(snap.windows, live.windows, {});
    TakenGrows(snap.windows, live.windows, {});
    ExtrasCount(live.windows, taken);
    var w, x, f := DiffWindows(snap.windows, live.windows, {}), Extras(live.windows, taken), FocusActions(snap, live);
    CountMissingConcat(w + x, f);
    CountMissingConcat(w, x);
    ExtrasShape(live.windows, taken);
    NoneMissing(x);
    NoneMissing(f);
  }

  lemma {:induction false} ExtrasShape(live: seq<Window>, taken: set<string>)
    ensures forall a :: a in Extras(live, taken) <==>
      exists w :: w in live && w.address !in taken && a == WindowNotInSnapshot(w.address, w.cls)
    ensures forall i | 0 <= i < |Extras(live, taken)| :: Extras(live, taken)[i].WindowNotInSnapshot?
    ensures forall i | 0 <= i < |Extras(live, taken)| :: Extras(live, taken)[i].address in Addresses(live)
  {
    if live != [] {
      ExtrasShape(live[1..], taken);
      assert live == [live[0]] + live[1..];
      assert live[0] in live;
    }
  }

  // ---- the order of the live list does not matter --------------------------------

  lemma {:induction false} ExtrasOnce(live: seq<Window>, taken: set<string>)
    requires Distinct(live)
    ensures forall a :: multiset(Extras(live, taken))[a] <= 1
  {
    if live != [] {
      ExtrasOnce(live[1..], taken);
      ExtrasShape(live[1..], taken);
      if live[0].address !in taken {
        var head := WindowNotInSnapshot(live[0].address, live[0].cls);
        assert live == [live[0]] + live[1..];
        assert head !in Extras(live[1..], taken);
      }
    }
  }

  lemma SameEligible(snap: Window, live: seq<Window>, live': seq<Window>, taken: set<string>, w: Window)
    requires forall tier, v :: Eligible(tier, snap, live, taken, v) <==> Eligible(tier, snap, live', taken, v)
    ensures Matches(snap, live, taken, w) <==> Matches(snap, live', taken, w)
  {
    forall v ensures Sole(ByPid, snap, live, taken, v) <==> Sole(ByPid, snap, live', taken, v) {}
    assert Sole(ByInitial, snap, live, taken, w) <==> Sole(ByInitial, snap, live', taken, w);
    assert Vacant(ByAddress, snap, live, taken) <==> Vacant(ByAddress, snap, live', taken);
  }

  lemma {:induction false} PermutedMatching(snaps: seq<Window>, live: seq<Window>, live': seq<Window>,
                                            taken: set<string>)
    requires Distinct(live) && Distinct(live') && multiset(live) == multiset(live')
    ensures Pairing(snaps, live, taken) == Pairing(snaps, live', taken)
    ensures DiffWindows(snaps, live, taken) == DiffWindows(snaps, live', taken)
    ensures TakenAfter(snaps, live, taken) == TakenAfter(snaps, live', taken)
  {
    if snaps != [] {
      var m, m' := MatchLive(snaps[0], live, taken), MatchLive(snaps[0], live', taken);
      forall tier: Tier, w
        ensures Eligible(tier, snaps[0], live, taken, w) <==> Eligible(tier, snaps[0], live', taken, w)
      {
        assert w in live <==> w in multiset(live);
        assert w in live' <==> w in multiset(live');
      }
      forall w ensures Matches(snaps[0], live, taken, w) <==> Matches(snaps[0], live', taken, w) {
        SameEligible(snaps[0], live, live', taken, w);
      }
      if m.Some? {
        MatchExact(snaps[0], live, taken, m.value);
        MatchExact(snaps[0], live', taken, m.value);
      }
      if m'.Some? {
        MatchExact(snaps[0], live, taken, m'.value);
        MatchExact(snaps[0], live', taken, m'.value);
      }
      assert m == m';
      PermutedMatching(snaps[1..], live, live', Claim(m, taken));
    }
  }

  /** Permuting the live list leaves every action in place except the order of the `WindowNotInSnapshot` reports. */
  lemma PermutedDiff(snap: Snapshot, live: Snapshot, live': Snapshot)
    requires Distinct(live.windows) && Distinct(live'.windows)
    requires multiset(live.windows) == multiset(live'.windows) && live.active == live'.active
    ensures DiffWindows(snap.windows, live.windows, {}) == DiffWindows(snap.windows, live'.windows, {})
    ensures FocusActions(snap, live) == FocusActions(snap, live')
    ensures multiset(Extras(live.windows, TakenAfter(snap.windows, live.windows, {})))
         == multiset(Extras(live'.windows, TakenAfter(snap.windows, live'.windows, {})))
    ensures multiset(Diff(snap, live)) == multiset(Diff(snap, live'))
  {
    PermutedMatching(snap.windows, live.windows, live'.windows, {});
    var taken := TakenAfter(snap.windows, live.windows, {});
    var x, x' := Extras(live.windows, taken), Extras(live'.windows, taken);
    forall w ensures w in live.windows <==> w in live'.windows {
      assert w in live.windows <==> w in multiset(live.windows);
      assert w in live'.windows <==> w in multiset(live'.windows);
    }
    if snap.active.Some? {
      assert HasAddress(live.windows, snap.active.value) <==> snap.active.value in Addresses(live.windows);
      assert HasAddress(live'.windows, snap.active.value) <==> snap.active.value in Addresses(live'.windows);
    }
    ExtrasShape(live.windows, taken);
    ExtrasShape(live'.windows, taken);
    ExtrasOnce(live.windows, taken);
    ExtrasOnce(live'.windows, taken);
    forall a ensures multiset(x)[a] == multiset(x')[a] {
      assert a in x <==> a in x';
    }
    assert multiset(x) == multiset(x');
  }

  // ---- surviving addresses ----------------------------------------------------------

  /** A free live window with the recorded address is preferred to every fallback. */
  lemma AddressPreferred(s: Window, live: seq<Window>, taken: set<string>)
    requires s.address in Addresses(live) && s.address !in taken
    ensures var m := MatchLive(s, live, taken);
      m.Some? && m.value in live && m.value.address == s.address
  {
    var w :| w in live && w.address == s.address;
    CandidatesAreEligible(ByAddress, s, live, taken, w);
    var c := Candidates(ByAddress, s, live, taken);
    CandidatesAreEligible(ByAddress, s, live, taken, c[0]);
  }

  predicate PairedByAddress(snaps: seq<Window>, live: seq<Window>, p: seq<Option<Window>>)
    requires |p| == |snaps|
  {
    forall i | 0 <= i < |p| :: p[i].Some? && p[i].value in live && p[i].value.address == snaps[i].address
  }

  /** While the recorded addresses are distinct, live and free, every snapshot window is matched by address. */
  lemma {:induction false} MatchedByAddress(snaps: seq<Window>, live: seq<Window>, taken: set<string>)
    requires Distinct(snaps)
    requires forall i | 0 <= i < |snaps| :: snaps[i].address in Addresses(live) && snaps[i].address !in taken
    ensures PairedByAddress(snaps, live, Pairing(snaps, live, taken))
  {
    hide MatchLive;
    if snaps != [] {
      AddressPreferred(snaps[0], live, taken);
      var m := MatchLive(snaps[0], live, taken);
      MatchedByAddress(snaps[1..], live, Claim(m, taken));
    }
  }

  lemma {:induction false} NoWindowActions(snaps: seq<Window>, live: seq<Window>, taken: set<string>)
    requires forall i | 0 <= i < |snaps| :: Pairing(snaps, live, taken)[i] == Some(snaps[i])
    ensures DiffWindows(snaps, live, taken) == []
  {
    if snaps != [] {
      var m := MatchLive(snaps[0], live, taken);
      assert Pairing(snaps, live, taken)[0] == m;
      forall i | 0 <= i < |snaps[1..]| ensures Pairing(snaps[1..], live, Claim(m, taken))[i] == Some(snaps[1..][i]) {
        assert Pairing(snaps, live, taken)[i + 1] == Some(snaps[i + 1]);
      }
      NoWindowActions(snaps[1..], live, Claim(m, taken));
    }
  }

  lemma SelfPaired(ws: seq<Window>)
    requires Distinct(ws)
    ensures forall i | 0 <= i < |ws| :: Pairing(ws, ws, {})[i] == Some(ws[i])
  {
    hide Pairing;
    forall i | 0 <= i < |ws| ensures ws[i].address in Addresses(ws) { assert ws[i] in ws; }
    MatchedByAddress(ws, ws, {});
    forall i | 0 <= i < |ws| ensures Pairing(ws, ws, {})[i] == Some(ws[i]) {
      var m := Pairing(ws, ws, {})[i].value;
      var k :| 0 <= k < |ws| && ws[k] == m;
      assert k == i;
    }
  }

  /** A snapshot compared with the desktop it was taken from yields no action at all. */
  lemma SelfDiffEmpty(snap: Snapshot)
    requires Distinct(snap.windows)
    ensures Diff(snap, snap) == []
  {
    hide Pairing, DiffWindows, TakenAfter, Extras;
    var ws := snap.windows;
    SelfPaired(ws);
    NoWindowActions(ws, ws, {});
    MissingCount(ws, ws, {});
    TakenGrows(ws, ws, {});
    ExtrasCount(ws, TakenAfter(ws, ws, {}));
  }

  // ---- what the actions tell --------------------------------------------------------------------------

  /** The action says truly how the live window `w` is and how the recorded window `s` was, and they differ. */
  predicate Tells(a: RestoreAction, s: Window, w: Window) {
    match a
    case MoveToWorkspace(address, from, to) =>
      address == w.address && from == w.workspaceId && to == s.workspaceId && from != to
    case ToggleFloating(address, target) => address == w.address && target == s.floating && w.floating != target
    case RepositionFloating(address, at, size, currentAt, currentSize) =>
      && address == w.address && s.floating && at == s.at && size == s.size
      && currentAt == w.at && currentSize == w.size && (at != currentAt || size != currentSize)
    case SetFullscreen(address, from, to) =>
      address == w.address && from == w.fullscreen && to == s.fullscreen && from != to
    case SetPin(address, target) => address == w.address && s.floating && target == s.pinned && w.pinned != target
    case _ => false
  }

  /** The action is about the `j`-th recorded window: a change to its counterpart, or the report that it has none. */
  predicate TellsOf(a: RestoreAction, j: nat, snaps: seq<Window>, p: seq<Option<Window>>)
    requires |p| == |snaps| && j < |snaps|
  {
    match p[j]
    case Some(w) => Tells(a, snaps[j], w)
    case None => a == WindowMissing(snaps[j].address, snaps[j].cls, snaps[j].title)
  }

  lemma BlockTells(s: Window, m: Option<Window>, a: RestoreAction)
    requires a in Block(s, m)
    ensures TellsOf(a, 0, [s], [m])
  {
    if m.Some? {
      var w := m.value;
      assert a in WorkspaceActions(s, w) || a in FloatActions(s, w) || a in GeometryActions(s, w)
        || a in FullscreenActions(s, w) || a in PinActions(s, w) by {
        hide WorkspaceActions, FloatActions, GeometryActions, FullscreenActions, PinActions;
      }
    }
  }

  lemma {:induction false} WindowsTell(snaps: seq<Window>, live: seq<Window>, taken: set<string>, a: RestoreAction)
    returns (j: nat)
    requires a in DiffWindows(snaps, live, taken)
    ensures j < |snaps| && TellsOf(a, j, snaps, Pairing(snaps, live, taken))
  {
    hide Block, MatchLive, Tells;
    var m := MatchLive(snaps[0], live, taken);
    var rest := Pairing(snaps[1..], live, Claim(m, taken));
    assert Pairing(snaps, live, taken) == [m] + rest;
    if a in Block(snaps[0], m) {
      BlockTells(snaps[0], m, a);
      j := 0;
    } else {
      var i := WindowsTell(snaps[1..], live, Claim(m, taken), a);
      j := i + 1;
    }
  }

  /** Every action of a diff tells the truth about the two desktops. */
  lemma DiffTells(snap: Snapshot, live: Snapshot, a: RestoreAction)
    requires a in Diff(snap, live)
    ensures
      || (exists j | 0 <= j < |snap.windows| :: TellsOf(a, j, snap.windows, Pairing(snap.windows, live.windows, {})))
      || (exists w | w in live.windows :: a == WindowNotInSnapshot(w.address, w.cls))
      || (a.RestoreActiveFocus? && snap.active == Some(a.address) && a.fromAddress == live.active
          && live.active != snap.active && HasAddress(live.windows, a.address))
  {
    hide DiffWindows, Pairing, TellsOf;
    var taken := TakenAfter(snap.windows, live.windows, {});
    ExtrasShape(live.windows, taken);
    if a in DiffWindows(snap.windows, live.windows, {}) {
      var j := WindowsTell(snap.windows, live.windows, {}, a);
    }
  }
}
