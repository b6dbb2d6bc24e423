/** How old a served value can be, in every run whatever. */
module CacheStaleness {
  import opened Events
  import opened Cache
  import opened CacheRuns

  /** A slot's reply with the titles from later lines patched in; only the client list takes titles. */
  function Titled(slot: Slot, v: Value, lines: seq<RawEvent>): Value {
    if slot == Clients then RetitleAll(v, lines) else v
  }

  predicate FlightSourced(st: State, f: Flight) {
    f.moment < |st.past| && f.value == Current(st.past[f.moment].world, f.slot)
  }

  predicate SlotSourced(st: State, slot: Slot) {
    var e := Pick(st.inner, slot);
    e.value.Some? ==>
      && slot in st.origins
      && var o := st.origins[slot];
      && o.moment < |st.past| && o.seen <= |st.delivered|
      && e.refreshedAt.Some?
      && e.refreshedAt.value <= st.past[o.moment].time + QUERY_LIMIT
      && e.value.value == Titled(slot, Current(st.past[o.moment].world, slot), st.delivered[o.seen..])
  }

  ghost predicate Sourced(st: State) {
    && (forall m | 0 <= m < |st.past| :: st.past[m].time <= st.now)
    && (forall k | 0 <= k < |st.flights| :: FlightSourced(st, st.flights[k]))
    && (forall slot :: SlotSourced(st, slot))
  }

  predicate SameReplies(fs: seq<Flight>, fs': seq<Flight>) {
    |fs| == |fs'| && forall k | 0 <= k < |fs| :: fs'[k] == fs[k].(ahead := fs'[k].ahead, missed := fs'[k].missed)
  }

  /** Steps that only lengthen the history keep every source. */
  lemma SourcedLonger(st: State, st': State)
    requires Sourced(st) && st.past <= st'.past && st.now <= st'.now
    requires forall m | |st.past| <= m < |st'.past| :: st'.past[m].time <= st'.now
    requires st'.inner == st.inner && st'.origins == st.origins && SameReplies(st.flights, st'.flights)
    requires st'.delivered == st.delivered
    ensures Sourced(st')
  {
    hide Titled, Current;
    forall slot ensures SlotSourced(st', slot) { assert SlotSourced(st, slot); }
    forall k | 0 <= k < |st'.flights| ensures FlightSourced(st', st'.flights[k]) {
      assert FlightSourced(st, st.flights[k]);
    }
    forall m | 0 <= m < |st.past| ensures st'.past[m] == st.past[m] {}
  }

  lemma SourcedDeliver(st: State)
    requires Sourced(st)
    ensures Sourced(Next(st, Deliver))
  {
    hide Current, Dirties;
    if st.link.Live? && st.pending != [] {
      var st' := Next(st, Deliver);
      var line := st.pending[0];
      forall slot ensures SlotSourced(st', slot) {
        assert SlotSourced(st, slot);
        assert Pick(st'.inner, slot) == AfterEvent(Pick(st.inner, slot), slot, FromRaw(line));
        if Pick(st.inner, slot).value.Some? {
          var o := st.origins[slot];
          assert st'.delivered[o.seen..] == st.delivered[o.seen..] + [line];
          RetitleAllSnoc(Current(st.past[o.moment].world, slot), st.delivered[o.seen..], line);
        }
      }
      forall k | 0 <= k < |st'.flights| ensures FlightSourced(st', st'.flights[k]) {
        assert FlightSourced(st, st.flights[k]);
      }
    }
  }

  lemma SourcedStored(st: State, f: Flight)
    requires Sourced(st) && FlightSourced(st, f) && st.now <= st.past[f.moment].time + QUERY_LIMIT
    ensures Sourced(Stored(st, f))
  {
    hide Current;
    var st' := Stored(st, f);
    assert st.delivered[|st.delivered|..] == [];
    forall slot ensures SlotSourced(st', slot) { assert SlotSourced(st, slot); }
    forall j | 0 <= j < |st'.flights| ensures FlightSourced(st', st'.flights[j]) {
      assert FlightSourced(st, st.flights[j]);
    }
  }

  lemma SourcedAnswered(st: State, slot: Slot)
    requires Sourced(st)
    ensures Sourced(Answered(st, slot))
  {
    hide Current;
    var longer, st' := Observe(st), Answered(st, slot);
    SourcedLonger(st, longer);
    forall other ensures SlotSourced(st', other) { assert SlotSourced(longer, other); }
    forall k | 0 <= k < |st'.flights| ensures FlightSourced(st', st'.flights[k]) {
      if k < |st.flights| { assert FlightSourced(longer, st.flights[k]); }
    }
  }

  lemma SourcedRefresh(st: State, slot: Slot)
    requires Sourced(st)
    ensures Sourced(Next(st, Refresh(slot)))
  {
    hide Current, SlotSourced;
    SourcedAnswered(st, slot);
    var answered := Answered(st, slot);
    SourcedStored(answered, answered.flights[|st.flights|]);
    var st1, st' := Stored(answered, answered.flights[|st.flights|]), Next(st, Refresh(slot));
    forall other ensures SlotSourced(st', other) { SameSlot(st1, st', other); }
    forall k | 0 <= k < |st'.flights| ensures FlightSourced(st', st'.flights[k]) {
      assert FlightSourced(st1, st1.flights[k]);
    }
  }

  lemma SameSlot(st: State, st': State, slot: Slot)
    requires SlotSourced(st, slot) && st' == st.(flights := st'.flights)
    ensures SlotSourced(st', slot)
  {
  }

  lemma SourcedAnnounce(st: State, world: World, text: string)
    requires Sourced(st)
    ensures Sourced(Announce(st, world, text))
  {
    hide SlotSourced, FlightSourced, Received;
    SourcedLonger(st, Announce(st, world, text));
  }

  lemma SourcedStep(st: State, step: Step)
    requires Sourced(st)
    ensures Sourced(Next(st, step))
  {
    hide SlotSourced, FlightSourced, Received, Loses;
    match step
    case Deliver => SourcedDeliver(st);
    case Answer(slot) => SourcedAnswered(st, slot);
    case Store(k) => if CanStore(st, k) { SourcedStored(st, st.flights[k]); }
    case Refresh(slot) => SourcedRefresh(st, slot);
    case Retitle(address, title) =>
      if KnownAddress(address) {
        SourcedAnnounce(st, st.world.(clients := Patch(st.world.clients, address, title)), TitleText(address, title));
      }
    case Change(kind, data, world) => SourcedAnnounce(st, world, ChangeText(kind, data));
    case _ => SourcedLonger(st, Next(st, step));
  }

  lemma {:induction false} SourcedRun(st: State, steps: seq<Step>)
    requires Sourced(st)
    ensures Sourced(Run(st, steps))
    decreases |steps|
  {
    hide SlotSourced, FlightSourced;
    if steps != [] {
      SourcedStep(st, steps[0]);
      SourcedRun(Next(st, steps[0]), steps[1..]);
    }
  }

  /** `v` is what the compositor held at moment `m`, retitled by the lines applied after the first `seen`. */
  predicate WasCurrent(st: State, slot: Slot, v: Value, m: nat, seen: nat) {
    m < |st.past| && seen <= |st.delivered|
    && v == Titled(slot, Current(st.past[m].world, slot), st.delivered[seen..])
  }

  /**
   * Bounded staleness: in every run whatever, with unannounced changes, lost invalidations, racing queries and
   * a dead event task, a value served from the cache was the compositor's at a moment less than MAX_AGE plus
   * one query ago, with the titles of some later lines patched in; a value served from a query is younger still.
   */
  lemma BoundedStaleness(w: World, steps: seq<Step>, slot: Slot)
    ensures var st := Run(Initial(w), steps);
      var served := Get(Pick(st.inner, slot), st.now);
      && (served.Some? ==>
            exists m: nat, seen: nat | WasCurrent(st, slot, served.value, m, seen) ::
              st.past[m].time <= st.now < st.past[m].time + MAX_AGE + QUERY_LIMIT)
      && (forall k: nat | CanStore(st, k) ::
            var f := st.flights[k];
            && st.past[f.moment].time <= st.now <= st.past[f.moment].time + QUERY_LIMIT
            && f.value == Current(st.past[f.moment].world, f.slot))
  {
    hide Titled, Current, Next;
    var st := Run(Initial(w), steps);
    SourcedRun(Initial(w), steps);
    assert SlotSourced(st, slot);
    forall k: nat | CanStore(st, k) ensures FlightSourced(st, st.flights[k]) {}
    if Get(Pick(st.inner, slot), st.now).Some? {
      var o := st.origins[slot];
      assert WasCurrent(st, slot, Pick(st.inner, slot).value.value, o.moment, o.seen);
    }
  }
}
