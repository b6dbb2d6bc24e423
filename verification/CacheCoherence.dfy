/** When the cached values agree with the compositor, and the ways in which they can fail to. */
module CacheCoherence {
  import opened Wrappers
  import opened Text
  import opened Events
  import opened Cache
  import opened CacheRuns

  /** Replaying the lines over `v` dirties it or leads to `target`. */
  predicate Tracks(slot: Slot, lines: seq<RawEvent>, v: Value, target: Value) {
    AnyDirties(slot, lines) || RetitleAll(v, lines) == target
  }

  /** The value itself survives the replay of any tail of the queue: titles in it are not older news. */
  predicate Settled(slot: Slot, lines: seq<RawEvent>, v: Value) {
    TracksFrom(slot, lines, v, v, |lines|)
  }

  /** Every tail of the lines that starts within the first `ahead` leads from `v` to `target`. */
  predicate TracksFrom(slot: Slot, lines: seq<RawEvent>, v: Value, target: Value, ahead: nat) {
    ahead <= |lines| && forall k | 0 <= k <= ahead :: Tracks(slot, lines[k..], v, target)
  }

  /** The step tells of what it changes: a title fits a line, and a change of some kind changes no more than that. */
  predicate Announced(st: State, step: Step) {
    match step
    case Retitle(_, title) => FitsLine(title)
    case Change(kind, data, world) => FitsLine(data) && Differing(st.world, world) <= Changes(kind)
    case Silent(world) => world == st.world
    case _ => true
  }

  predicate AnnouncedRun(st: State, steps: seq<Step>)
    decreases |steps|
  {
    steps == [] || (Announced(st, steps[0]) && AnnouncedRun(Next(st, steps[0]), steps[1..]))
  }

  /** Only the client slot holds client lists. */
  predicate RightKind(slot: Slot, v: Value) {
    v.ClientList? <==> slot == Clients
  }

  /** The reply, and what the queue will make of it, lead to the current value. */
  predicate OnTrack(f: Flight, slot: Slot, pending: seq<RawEvent>, now: Value) {
    f.slot == slot ==> RightKind(slot, f.value) && (!f.missed ==> TracksFrom(slot, pending, f.value, now, f.ahead))
  }

  predicate EntryOnTrack(e: Entry, slot: Slot, missed: bool, pending: seq<RawEvent>, now: Value) {
    e.value.Some? ==>
      RightKind(slot, e.value.value) && (missed || e.dirty || Tracks(slot, pending, e.value.value, now))
  }

  predicate Coherent(st: State, slot: Slot) {
    var now := Current(st.world, slot);
    && (!st.link.Live? ==> st.pending == [])
    && Settled(slot, st.pending, now)
    && EntryOnTrack(Pick(st.inner, slot), slot, slot in st.missed, st.pending, now)
    && forall k | 0 <= k < |st.flights| :: OnTrack(st.flights[k], slot, st.pending, now)
  }

  lemma AnyDirtiesConcat(slot: Slot, a: seq<RawEvent>, b: seq<RawEvent>)
    ensures AnyDirties(slot, a + b) <==> AnyDirties(slot, a) || AnyDirties(slot, b)
  {
    hide Dirties;
    forall k | 0 <= k < |a| ensures (a + b)[k] == a[k] {}
    forall k | 0 <= k < |b| ensures (a + b)[|a| + k] == b[k] {}
  }

  /** Written to the socket, a change is read as one line, which dirties exactly the slots its kind changes. */
  lemma ChangeLine(kind: Kind, data: string)
    requires FitsLine(data)
    ensures var line := RawEvent(EventName(kind), data);
      && Received(ChangeText(kind, data)) == [line]
      && TitleOf(FromRaw(line)) == None
      && forall slot :: Dirties(FromRaw(line), slot) <==> slot in Changes(kind)
  {
    hide FitsLine, Received, ExtractFields;
    PlainName(kind);
    LineRoundTrip(EventName(kind), data);
  }

  /** A title event without a title leaves the cached titles in doubt: it dirties the client list. */
  lemma TitleMissing(data: string)
    requires ',' !in data
    ensures forall slot :: Dirties(FromRaw(RawEvent("windowtitlev2", data)), slot) <==> slot == Clients
  {
    if data != "" { OnePiece(data, ','); }
  }

  predicate Plain(name: string) {
    '>' !in name && '\n' !in name
  }

  lemma PlainName(kind: Kind)
    ensures Plain(EventName(kind))
  {
    hide Plain;
    PlainWindowNames();
    PlainFocusNames();
    PlainMonitorNames();
  }

  lemma PlainWindowNames()
    ensures Plain("openwindow") && Plain("closewindow") && Plain("movewindow") && Plain("movewindowv2")
    ensures Plain("fullscreen") && Plain("changefloatingmode") && Plain("pin")
  {
  }

  lemma PlainFocusNames()
    ensures Plain("activewindow") && Plain("activewindowv2") && Plain("windowtitle")
    ensures Plain("workspace") && Plain("workspacev2") && Plain("focusedmon")
  {
  }

  lemma PlainMonitorNames()
    ensures Plain("monitoradded") && Plain("monitoraddedv2") && Plain("monitorremoved")
    ensures Plain("configreloaded") && Plain("urgent") && Plain("submap")
  {
  }

  lemma TitleLineFits(address: string, title: string)
    requires KnownAddress(address)
    ensures FitsLine(address[2..] + "," + title) <==> FitsLine(title)
    ensures ',' !in address[2..] && !("0x" <= address[2..])
  {
    var bare, data := address[2..], address[2..] + "," + title;
    forall i | 0 <= i < |bare| ensures IsHex(bare[i]) { assert bare[i] == address[i + 2]; }
    assert !IsHex('\n') && !IsHex(',') && !IsHex('x');
    assert !("0x" <= bare) by {
      if |bare| >= 2 { assert IsHex(bare[1]) && "0x"[1] == 'x'; }
    }
    assert '\n' in data <==> '\n' in title by {
      assert forall c :: c in data <==> c in bare || c in "," || c in title;
    }
    assert data[|data| - 1] == if title == "" then ',' else title[|title| - 1];
  }

  /** A title that fits a line is read back with its window's address, and dirties nothing. */
  lemma TitleLineEvent(address: string, title: string)
    requires KnownAddress(address) && FitsLine(title)
    ensures var lines := Received(TitleText(address, title));
      && |lines| == 1
      && TitleOf(FromRaw(lines[0])) == Some((address, title))
      && forall slot :: !Dirties(FromRaw(lines[0]), slot)
  {
    var bare := address[2..];
    assert address == "0x" + bare;
    TitleLineFits(address, title);
    LineRoundTrip("windowtitlev2", bare + "," + title);
    TitleEventFields(bare, title);
  }

  lemma {:induction false} PatchSame(cs: seq<Client>, a: string, t: string, u: string)
    ensures Patch(Patch(cs, a, t), a, u) == Patch(cs, a, u)
  {
    if cs != [] { PatchSame(cs[1..], a, t, u); }
  }

  lemma {:induction false} PatchOther(cs: seq<Client>, a: string, t: string, b: string, u: string)
    requires a != b
    ensures Patch(Patch(cs, a, t), b, u) == Patch(Patch(cs, b, u), a, t)
  {
    if cs != [] { PatchOther(cs[1..], a, t, b, u); }
  }

  /** A later title for the same window hides whatever the queue did to it before. */
  lemma {:induction false} LastTitleWins(v: Value, lines: seq<RawEvent>, a: string, t: string)
    ensures Renamed(RetitleAll(Renamed(v, a, t), lines), a, t) == Renamed(RetitleAll(v, lines), a, t)
    decreases |lines|
  {
    if v.ClientList? {
      if lines == [] {
        PatchSame(v.clients, a, t, t);
      } else {
        match TitleOf(FromRaw(lines[0])) {
          case None => LastTitleWins(v, lines[1..], a, t);
          case Some((b, u)) =>
            if a == b {
              PatchSame(v.clients, a, t, u);
            } else {
              PatchOther(v.clients, a, t, b, u);
              LastTitleWins(Renamed(v, b, u), lines[1..], a, t);
            }
        }
      }
    } else {
      ReplyUnchanged(v, lines);
    }
  }

  lemma {:induction false} ReplyUnchanged(v: Value, lines: seq<RawEvent>)
    requires v.Reply?
    ensures RetitleAll(v, lines) == v
  {
    if lines != [] { ReplyUnchanged(v, lines[1..]); }
  }

  /** More lines at the end keep `v` on track if they lead on, or dirty it. */
  lemma TracksMore(slot: Slot, lines: seq<RawEvent>, more: seq<RawEvent>, v: Value, target: Value, target': Value)
    requires Tracks(slot, lines, v, target) && Tracks(slot, more, target, target')
    ensures Tracks(slot, lines + more, v, target')
  {
    AnyDirtiesConcat(slot, lines, more);
    RetitleAllConcat(v, lines, more);
  }

  lemma TracksFromMore(slot: Slot, lines: seq<RawEvent>, more: seq<RawEvent>, v: Value, target: Value, target': Value,
                       ahead: nat)
    requires TracksFrom(slot, lines, v, target, ahead) && Tracks(slot, more, target, target')
    ensures TracksFrom(slot, lines + more, v, target', ahead)
  {
    hide Tracks;
    forall k | 0 <= k <= ahead ensures Tracks(slot, (lines + more)[k..], v, target') {
      assert (lines + more)[k..] == lines[k..] + more;
      TracksMore(slot, lines[k..], more, v, target, target');
    }
  }

  /** A title change keeps the queue and the value in step. */
  lemma SettledTitle(slot: Slot, lines: seq<RawEvent>, line: RawEvent, v: Value, address: string, title: string)
    requires Settled(slot, lines, v)
    requires TitleOf(FromRaw(line)) == Some((address, title))
    ensures Settled(slot, lines + [line], Renamed(v, address, title))
  {
    hide TitleOf, Dirties;
    var v', all := Renamed(v, address, title), lines + [line];
    forall k | 0 <= k <= |all| ensures Tracks(slot, all[k..], v', v') {
      if k <= |lines| {
        var tail := lines[k..];
        assert all[k..] == tail + [line];
        AnyDirtiesConcat(slot, tail, [line]);
        RetitleAllSnoc(v', tail, line);
        LastTitleWins(v, tail, address, title);
        assert Tracks(slot, tail, v, v);
      }
    }
  }

  /** So does any other line that dirties the slot if its value has changed. */
  lemma SettledLine(slot: Slot, lines: seq<RawEvent>, line: RawEvent, v: Value, v': Value)
    requires Settled(slot, lines, v)
    requires TitleOf(FromRaw(line)) == None && (v' == v || Dirties(FromRaw(line), slot))
    ensures Settled(slot, lines + [line], v') && Tracks(slot, [line], v, v')
  {
    hide TitleOf, Dirties;
    var all := lines + [line];
    assert [line][0] == line && [line][1..] == [];
    assert RetitleAll(v, [line]) == RetitleAll(Retitled(v, FromRaw(line)), []) == v;
    forall k | 0 <= k <= |all| ensures Tracks(slot, all[k..], v', v') {
      if k <= |lines| {
        assert all[k..] == lines[k..] + [line];
        if v' == v {
          assert Tracks(slot, lines[k..], v, v);
          TracksMore(slot, lines[k..], [line], v, v, v);
        } else {
          AnyDirtiesConcat(slot, lines[k..], [line]);
        }
      } else {
        assert all[k..] == [];
      }
    }
  }

  /** Applying the first line of the queue to a copy keeps the copy on track, unless it is dirtied. */
  lemma TracksTail(slot: Slot, lines: seq<RawEvent>, v: Value, target: Value)
    requires lines != [] && Tracks(slot, lines, v, target) && !Dirties(FromRaw(lines[0]), slot)
    ensures Tracks(slot, lines[1..], Retitled(v, FromRaw(lines[0])), target)
  {
    hide Dirties;
    assert lines == [lines[0]] + lines[1..];
    AnyDirtiesConcat(slot, [lines[0]], lines[1..]);
  }

  lemma PassedOnTrack(f: Flight, slot: Slot, pending: seq<RawEvent>, now: Value)
    requires pending != [] && OnTrack(f, slot, pending, now)
    ensures OnTrack(Passed(f, FromRaw(pending[0])), slot, pending[1..], now)
  {
    hide Dirties, Tracks;
    var f', rest := Passed(f, FromRaw(pending[0])), pending[1..];
    if f.slot == slot && !f'.missed {
      assert pending[0..] == pending && rest[0..] == rest;
      if f.ahead == 0 { TracksTail(slot, pending, f.value, now); }
      forall k | 0 <= k <= f'.ahead ensures Tracks(slot, rest[k..], f.value, now) {
        assert rest[k..] == pending[k + 1..];
      }
    }
  }

  lemma CutOnTrack(f: Flight, slot: Slot, pending: seq<RawEvent>, now: Value)
    requires OnTrack(f, slot, pending, now)
    ensures OnTrack(Cut(f, pending), slot, [], now)
  {
    hide Dirties;
  }

  lemma EntryAfter(e: Entry, slot: Slot, missed: bool, pending: seq<RawEvent>, now: Value)
    requires pending != [] && EntryOnTrack(e, slot, missed, pending, now)
    ensures EntryOnTrack(AfterEvent(e, slot, FromRaw(pending[0])), slot, missed, pending[1..], now)
  {
    hide Dirties, TitleOf, Tracks;
    var ev := FromRaw(pending[0]);
    if e.value.Some? && !missed && !e.dirty && !Dirties(ev, slot) { TracksTail(slot, pending, e.value.value, now); }
  }

  lemma CoherentDeliver(st: State, slot: Slot)
    requires Coherent(st, slot) && st.link.Live? && st.pending != []
    ensures Coherent(Next(st, Deliver), slot)
  {
    hide Tracks, OnTrack, EntryOnTrack, AfterEvent, Passed;
    var now, rest := Current(st.world, slot), st.pending[1..];
    var st' := Next(st, Deliver);
    forall k | 0 <= k <= |rest| ensures Tracks(slot, rest[k..], now, now) {
      assert rest[k..] == st.pending[k + 1..];
    }
    EntryAfter(Pick(st.inner, slot), slot, slot in st.missed, st.pending, now);
    forall k | 0 <= k < |st'.flights| ensures OnTrack(st'.flights[k], slot, rest, now) {
      PassedOnTrack(st.flights[k], slot, st.pending, now);
    }
  }

  /** The queue grows by lines that lead from the old value to the new one. */
  lemma CoherentAnnounce(st: State, slot: Slot, world: World, text: string)
    requires Coherent(st, slot) && st.link.Live?
    requires Settled(slot, st.pending + Received(text), Current(world, slot))
    requires Tracks(slot, Received(text), Current(st.world, slot), Current(world, slot))
    ensures Coherent(Announce(st, world, text), slot)
  {
    hide Tracks, Settled, TracksFrom, Received, Current;
    var more, now, now' := Received(text), Current(st.world, slot), Current(world, slot);
    var e := Pick(st.inner, slot);
    if !e.dirty && e.value.Some? && slot !in st.missed { TracksMore(slot, st.pending, more, e.value.value, now, now'); }
    forall k | 0 <= k < |st.flights| ensures OnTrack(st.flights[k], slot, st.pending + more, now') {
      var f := st.flights[k];
      if f.slot == slot && !f.missed { TracksFromMore(slot, st.pending, more, f.value, now, now', f.ahead); }
    }
  }

  lemma Unheard(st: State, slot: Slot, world: World, text: string)
    requires Coherent(st, slot) && !st.link.Live?
    ensures Coherent(Announce(st, world, text), slot)
  {
    hide Received, Current;
  }

  lemma CoherentCutOff(st: State, slot: Slot)
    requires Coherent(st, slot)
    ensures Coherent(CutOff(st), slot)
  {
    hide OnTrack, AnyDirties;
    var now, st' := Current(st.world, slot), CutOff(st);
    forall k | 0 <= k < |st'.flights| ensures OnTrack(st'.flights[k], slot, [], now) {
      CutOnTrack(st.flights[k], slot, st.pending, now);
    }
    AnyDirtiesConcat(slot, [], []);
    assert slot in st'.missed <==> slot in st.missed || EntryLoses(st, slot);
  }

  lemma CoherentAnswered(st: State, slot: Slot, asked: Slot)
    requires Coherent(st, slot)
    ensures Coherent(Answered(st, asked), slot)
  {
    hide Tracks;
  }

  lemma CoherentStored(st: State, slot: Slot, f: Flight)
    requires Coherent(st, slot) && OnTrack(f, slot, st.pending, Current(st.world, slot))
    ensures Coherent(Stored(st, f), slot)
  {
    hide Tracks, Current;
    assert st.pending[0..] == st.pending;
  }

  lemma CoherentRetitle(st: State, slot: Slot, address: string, title: string)
    requires Coherent(st, slot) && KnownAddress(address) && FitsLine(title) && st.link.Live?
    ensures Coherent(Next(st, Retitle(address, title)), slot)
  {
    hide Dirties, TitleOf, FitsLine, KnownAddress, Received, Settled;
    var now, world := Current(st.world, slot), st.world.(clients := Patch(st.world.clients, address, title));
    var text := TitleText(address, title);
    assert Current(world, slot) == Renamed(now, address, title);
    TitleLineEvent(address, title);
    var lines := Received(text);
    assert lines == [lines[0]];
    SettledTitle(slot, st.pending, lines[0], now, address, title);
    assert lines[1..] == [];
    assert RetitleAll(now, lines) == RetitleAll(Retitled(now, FromRaw(lines[0])), []);
    CoherentAnnounce(st, slot, world, text);
  }

  lemma CoherentChange(st: State, slot: Slot, kind: Kind, data: string, world: World)
    requires Coherent(st, slot) && st.link.Live? && Announced(st, Change(kind, data, world))
    ensures Coherent(Next(st, Change(kind, data, world)), slot)
  {
    hide Dirties, TitleOf, FitsLine, Received, Settled, Tracks, Changes, ChangeText, Current, FromRaw;
    var line := RawEvent(EventName(kind), data);
    ChangeLine(kind, data);
    assert slot in Differing(st.world, world) <==> Current(st.world, slot) != Current(world, slot);
    SettledLine(slot, st.pending, line, Current(st.world, slot), Current(world, slot));
    CoherentAnnounce(st, slot, world, ChangeText(kind, data));
  }

  lemma CoherentStep(st: State, slot: Slot, step: Step)
    requires Coherent(st, slot) && Announced(st, step)
    ensures Coherent(Next(st, step), slot)
  {
    hide ChangeText, TitleText, Changes, Differing, Announce, Settled, EntryOnTrack, OnTrack;
    match step
    case Retitle(address, title) =>
      if KnownAddress(address) {
        if st.link.Live? {
          CoherentRetitle(st, slot, address, title);
        } else {
          Unheard(st, slot, st.world.(clients := Patch(st.world.clients, address, title)), TitleText(address, title));
        }
      }
    case Change(kind, data, world) =>
      if st.link.Live? { CoherentChange(st, slot, kind, data, world); }
      else { Unheard(st, slot, world, ChangeText(kind, data)); }
    case Deliver => if st.link.Live? && st.pending != [] { CoherentDeliver(st, slot); }
    case HangUp => CoherentCutOff(st, slot);
    case Answer(asked) => CoherentAnswered(st, slot, asked);
    case Store(k) => if CanStore(st, k) { CoherentStored(st, slot, st.flights[k]); }
    case Refresh(asked) => CoherentRefresh(st, slot, asked);
    case _ =>
  }

  lemma CoherentRefresh(st: State, slot: Slot, asked: Slot)
    requires Coherent(st, slot)
    ensures Coherent(Next(st, Refresh(asked)), slot)
  {
    hide Tracks, OnTrack, Current;
    var answered := Answered(st, asked);
    var f := answered.flights[|st.flights|];
    CoherentAnswered(st, slot, asked);
    CoherentStored(answered, slot, f);
    var stored, st' := Stored(answered, f), Next(st, Refresh(asked));
    forall k | 0 <= k < |st'.flights|
      ensures OnTrack(st'.flights[k], slot, st'.pending, Current(st'.world, slot))
    {
      assert st'.flights[k] == stored.flights[k];
    }
  }

  lemma {:induction false} CoherentRun(st: State, slot: Slot, steps: seq<Step>)
    requires Coherent(st, slot) && AnnouncedRun(st, steps)
    ensures Coherent(Run(st, steps), slot)
    decreases |steps|
  {
    hide Coherent, Next, Announced;
    if steps != [] {
      CoherentStep(st, slot, steps[0]);
      CoherentRun(Next(st, steps[0]), slot, steps[1..]);
    }
  }

  lemma CoherentStart(w: World, slot: Slot)
    ensures Coherent(Initial(w), slot)
  {
  }

  /**
   * Cache coherence: in every run whose changes are of the announced kinds, unless the cached value of a slot misses
   * a line announced after it was composed, replaying the queued events over it leaves it dirty or equal to what the
   * compositor would reply. So once the queue is empty a served value is the compositor's own.
   */
  lemma SlotsCoherent(w: World, steps: seq<Step>, slot: Slot)
    requires AnnouncedRun(Initial(w), steps)
    ensures var st := Run(Initial(w), steps);
      var e := Pick(st.inner, slot);
      && (slot in st.missed || e.dirty || e.value.None? || AnyDirties(slot, st.pending)
          || RetitleAll(e.value.value, st.pending) == Current(st.world, slot))
      && (slot !in st.missed && st.pending == [] && Get(e, st.now).Some? ==>
            Get(e, st.now) == Some(Current(st.world, slot)))
  {
    hide Current, Next, Announced;
    CoherentStart(w, slot);
    CoherentRun(Initial(w), slot, steps);
  }

  /** For the client list this makes the active window derived from it the compositor's focused one. */
  lemma ClientsCoherent(w: World, steps: seq<Step>)
    requires AnnouncedRun(Initial(w), steps)
    ensures var st := Run(Initial(w), steps);
      var served := Get(st.inner.clients, st.now);
      Clients !in st.missed && st.pending == [] && served.Some? ==>
        && served == Some(ClientList(st.world.clients))
        && forall c :: ActiveFrom(served.value.clients) == Some(c) <==> IsFocused(c, st.world.clients)
  {
    SlotsCoherent(w, steps, Clients);
    forall c ensures ActiveFrom(Run(Initial(w), steps).world.clients) == Some(c)
      <==> IsFocused(c, Run(Initial(w), steps).world.clients)
    {
      ActiveIsFocused(Run(Initial(w), steps).world.clients, c);
    }
  }

  /** Client `k` is the first at the head of the focus history. */
  predicate FocusedAt(k: nat, cs: seq<Client>)
    requires k < |cs|
  {
    cs[k].focusHistoryId == 0 && forall j | 0 <= j < k :: cs[j].focusHistoryId != 0
  }

  predicate IsFocused(c: Client, cs: seq<Client>) {
    exists k | 0 <= k < |cs| :: cs[k] == c && FocusedAt(k, cs)
  }

  lemma {:induction false} ActiveIsFocused(cs: seq<Client>, c: Client)
    ensures ActiveFrom(cs) == Some(c) <==> IsFocused(c, cs)
  {
    if cs != [] {
      var rest := cs[1..];
      ActiveIsFocused(rest, c);
      forall k | 0 <= k < |rest| ensures rest[k] == cs[k + 1] {}
      if cs[0].focusHistoryId == 0 {
        assert FocusedAt(0, cs);
      } else {
        forall k | 0 <= k < |rest| ensures FocusedAt(k, rest) <==> FocusedAt(k + 1, cs) {
          if FocusedAt(k, rest) {
            forall j | 0 <= j < k + 1 ensures cs[j].focusHistoryId != 0 { if j > 0 { assert rest[j - 1] == cs[j]; } }
          }
        }
        if k :| 0 <= k < |cs| && cs[k] == c && FocusedAt(k, cs) { assert rest[k - 1] == c && FocusedAt(k - 1, rest); }
        if k :| 0 <= k < |rest| && rest[k] == c && FocusedAt(k, rest) { assert cs[k + 1] == c; }
      }
    }
  }

  // ---- when no line is missed -----------------------------------------------------------------

  /** Every query is stored at once, and the subscription lives on. */
  predicate Atomic(step: Step) {
    !step.HangUp? && !step.Answer?
  }

  predicate NothingMissed(st: State) {
    st.link.Live? && st.missed == {} && st.flights == []
  }

  lemma {:induction false} AtomicRun(st: State, steps: seq<Step>)
    requires NothingMissed(st) && forall k | 0 <= k < |steps| :: Atomic(steps[k])
    ensures NothingMissed(Run(st, steps))
    decreases |steps|
  {
    hide Misses, Received, Current;
    if steps != [] {
      AtomicRun(Next(st, steps[0]), steps[1..]);
    }
  }

  lemma RunHead(st: State, step: Step, rest: seq<Step>)
    ensures Run(st, [step] + rest) == Run(Next(st, step), rest)
    ensures Run(st, [step]) == Next(st, step)
  {
    hide Next;
    assert ([step] + rest)[1..] == rest && [step][1..] == [];
    assert Run(Next(st, step), []) == Next(st, step);
  }

  /**
   * With the subscription first and every query stored at once, the proviso holds in every run: whenever no event
   * is pending, a served value is the compositor's own.
   */
  lemma AtomicFetchesCoherent(w: World, steps: seq<Step>, slot: Slot)
    requires AnnouncedRun(Initial(w), [Subscribe] + steps)
    requires forall k | 0 <= k < |steps| :: Atomic(steps[k])
    ensures var st := Run(Initial(w), [Subscribe] + steps);
      var served := Get(Pick(st.inner, slot), st.now);
      st.pending == [] && served.Some? ==> served == Some(Current(st.world, slot))
  {
    hide Next;
    SlotsCoherent(w, [Subscribe] + steps, slot);
    RunHead(Initial(w), Subscribe, steps);
    assert NothingMissed(Next(Initial(w), Subscribe)) by { FirstSubscribed(w); }
    AtomicRun(Next(Initial(w), Subscribe), steps);
  }

  lemma FirstSubscribed(w: World)
    ensures NothingMissed(Next(Initial(w), Subscribe))
  {
  }

  lemma RunThree(st: State, a: Step, b: Step, c: Step)
    ensures Run(st, [a, b, c]) == Next(Next(Next(st, a), b), c)
  {
    hide Next;
    assert [a] + [b, c] == [a, b, c] && [b] + [c] == [b, c];
    RunHead(st, a, [b, c]);
    RunHead(Next(st, a), b, [c]);
    RunHead(Next(Next(st, a), b), c, []);
  }

  lemma RunFour(st: State, a: Step, b: Step, c: Step, d: Step)
    ensures Run(st, [a, b, c, d]) == Next(Next(Next(Next(st, a), b), c), d)
  {
    hide Next;
    assert [a] + [b, c, d] == [a, b, c, d];
    RunHead(st, a, [b, c, d]);
    RunThree(Next(st, a), b, c, d);
  }

  lemma RunFive(st: State, a: Step, b: Step, c: Step, d: Step, e: Step)
    ensures Run(st, [a, b, c, d, e]) == Next(Next(Next(Next(Next(st, a), b), c), d), e)
  {
    hide Next;
    assert [a] + [b, c, d, e] == [a, b, c, d, e];
    RunHead(st, a, [b, c, d, e]);
    RunFour(Next(st, a), b, c, d, e);
  }

  // ---- three ways to go wrong -------------------------------------------------------------------

  function One(c: Client): World {
    World([c], "", "", "", "")
  }

  /** The client closes. */
  function Close(address: string): Step {
    Change(WindowClosed, address, World([], "", "", "", ""))
  }

  function AnsweredThenClosed(c: Client, address: string): State {
    Next(Next(Next(Initial(One(c)), Subscribe), Answer(Clients)), Close(address))
  }

  lemma OldReplyInFlight(c: Client, address: string)
    requires FitsLine(address)
    ensures var st := AnsweredThenClosed(c, address);
      && st.link.Live? && st.pending == [RawEvent("closewindow", address)] && st.world.clients == [] && st.now == 0
      && st.flights == [Flight(Clients, ClientList([c]), 1, 0, false)]
      && |st.past| == 3 && st.past[1] == Moment(0, One(c))
  {
    hide Received, FitsLine;
    ChangeLine(WindowClosed, address);
    var st := Next(Next(Initial(One(c)), Subscribe), Answer(Clients));
    assert st.past == [Moment(0, One(c)), Moment(0, One(c))];
    assert st.flights == [Flight(Clients, ClientList([c]), 1, 0, false)];
  }

  /**
   * Between answer and store the window closes and its event is applied, so the old list goes in clean with
   * nothing left in the queue to correct it.
   */
  lemma LostInvalidation(c: Client, address: string)
    requires FitsLine(address)
    ensures var st := Run(Initial(One(c)), [Subscribe, Answer(Clients), Close(address), Deliver, Store(0)]);
      && st.pending == []
      && st.world.clients == []
      && Get(st.inner.clients, st.now) == Some(ClientList([c]))
  {
    hide Run, ApplyEvent, FromRaw, Misses, Received, FitsLine, Announce, Answered;
    RunFive(Initial(One(c)), Subscribe, Answer(Clients), Close(address), Deliver, Store(0));
    OldReplyInFlight(c, address);
    var applied := Next(AnsweredThenClosed(c, address), Deliver);
    assert applied.pending == [] && applied.flights[0].value == ClientList([c]);
  }

  /**
   * The daemon fills the cache before it subscribes: a window that closes in between is announced to nobody, and
   * stays in the cache, clean, until the age limit.
   */
  lemma SeedRace(c: Client, address: string)
    ensures var st := Run(Initial(One(c)), [Refresh(Clients), Close(address), Subscribe]);
      && st.link.Live? && st.pending == []
      && st.world.clients == []
      && Get(st.inner.clients, st.now) == Some(ClientList([c]))
  {
    hide Run, Received;
    RunThree(Initial(One(c)), Refresh(Clients), Close(address), Subscribe);
    var seeded := Next(Initial(One(c)), Refresh(Clients));
    assert Get(seeded.inner.clients, seeded.now) == Some(ClientList([c]));
  }

  /** A title that ends in a carriage return is cached without it, clean and with nothing left in the queue. */
  lemma MangledTitle(c: Client, title: string)
    requires KnownAddress(c.address) && FitsLine(title)
    ensures var st := Run(Initial(One(c)), [Subscribe, Refresh(Clients), Retitle(c.address, title + "\r"), Deliver]);
      && st.pending == []
      && st.world.clients == [c.(title := title + "\r")]
      && Get(st.inner.clients, st.now) == Some(ClientList([c.(title := title)]))
  {
    hide Run, Received, FitsLine, KnownAddress, FromRaw, Dirties, TitleOf;
    var start, retitle := Initial(One(c)), Retitle(c.address, title + "\r");
    RunFour(start, Subscribe, Refresh(Clients), retitle, Deliver);
    MangledLine(c.address, title);
    var lines := Received(TitleText(c.address, title + "\r"));
    var filled := Next(Next(start, Subscribe), Refresh(Clients));
    assert filled.inner.clients == Entry(Some(ClientList([c])), false, Some(0)) && filled.now == 0;
    var renamed := Next(filled, retitle);
    assert renamed.pending == [lines[0]] && renamed.inner == filled.inner && renamed.now == 0;
    assert renamed.world.clients == [c.(title := title + "\r")];
    assert Patch([c], c.address, title) == [c.(title := title)];
  }

  lemma MangledLine(address: string, title: string)
    requires KnownAddress(address) && FitsLine(title)
    ensures var lines := Received(TitleText(address, title + "\r"));
      && |lines| == 1
      && TitleOf(FromRaw(lines[0])) == Some((address, title))
      && forall slot :: !Dirties(FromRaw(lines[0]), slot)
  {
    var text := TitleText(address, title);
    assert TitleText(address, title + "\r") == text + "\r";
    TitleLineFits(address, title);
    assert '\n' !in text by {
      assert forall c :: c in text <==> c in "windowtitlev2" || c in ">>" || c in address[2..] + "," + title;
    }
    ReturnLost(text);
    TitleLineEvent(address, title);
  }
}
