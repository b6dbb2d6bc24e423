/**
 * The cache beside a compositor that changes and announces its changes over an ordered event queue. A query's
 * reply is composed at one step and stored at a later one, so anything may happen in between.
 */
module CacheRuns {
  import opened Events
  import opened Cache

  /** Milliseconds between a reply being composed and stored: the request timeout. */
  const QUERY_LIMIT: nat := 2000

  datatype World = World(clients: seq<Client>, workspaces: string, monitors: string, activeWorkspace: string,
                         binds: string)

  /** What a query for the slot returns now. */
  function Current(w: World, slot: Slot): Value {
    match slot
    case Clients => ClientList(w.clients)
    case Workspaces => Reply(w.workspaces)
    case Monitors => Reply(w.monitors)
    case ActiveWorkspace => Reply(w.activeWorkspace)
    case Binds => Reply(w.binds)
  }

  datatype Moment = Moment(time: nat, world: World)

  /**
   * A reply on its way into the cache. The first `ahead` lines of the queue were announced before the reply was
   * composed, so it reflects them; `missed` records that a later one, which it does not reflect, is past.
   */
  datatype Flight = Flight(slot: Slot, value: Value, moment: nat, ahead: nat, missed: bool)

  /** The moment of the reply a slot was filled with, and how many lines had been applied when it was stored. */
  datatype Origin = Origin(moment: nat, seen: nat)

  /** The event subscription; lines written while it is not live reach nobody. */
  datatype Link = Unsubscribed | Live | Dead

  /** `missed` holds the slots whose cached value misses what a flight can miss. */
  datatype State = State(
    world: World,
    now: nat,
    past: seq<Moment>,
    link: Link,
    pending: seq<RawEvent>,
    delivered: seq<RawEvent>,
    inner: Inner,
    missed: set<Slot>,
    flights: seq<Flight>,
    origins: map<Slot, Origin>)

  /** What the compositor announces besides titles. Some changes are announced twice, in an older and a newer form. */
  datatype Kind =
    | WindowOpened | WindowClosed | WindowMoved | WindowMovedV2
    | FullscreenChanged | FloatingChanged | PinChanged
    | FocusChanged | FocusChangedV2 | TitleChanged
    | WorkspaceSwitched | WorkspaceSwitchedV2
    | MonitorFocused | MonitorAdded | MonitorAddedV2 | MonitorRemoved
    | ConfigReloaded | Urgent | Submap

  /** The name the compositor writes before the `>>`. */
  function EventName(kind: Kind): string {
    match kind
    case WindowOpened => "openwindow"
    case WindowClosed => "closewindow"
    case WindowMoved => "movewindow"
    case WindowMovedV2 => "movewindowv2"
    case FullscreenChanged => "fullscreen"
    case FloatingChanged => "changefloatingmode"
    case PinChanged => "pin"
    case FocusChanged => "activewindow"
    case FocusChangedV2 => "activewindowv2"
    case TitleChanged => "windowtitle"
    case WorkspaceSwitched => "workspace"
    case WorkspaceSwitchedV2 => "workspacev2"
    case MonitorFocused => "focusedmon"
    case MonitorAdded => "monitoradded"
    case MonitorAddedV2 => "monitoraddedv2"
    case MonitorRemoved => "monitorremoved"
    case ConfigReloaded => "configreloaded"
    case Urgent => "urgent"
    case Submap => "submap"
  }

  /** The queries whose replies differ after such a change. */
  function Changes(kind: Kind): set<Slot> {
    match kind
    case WindowOpened | WindowClosed | WindowMoved | WindowMovedV2 | FullscreenChanged =>
      {Clients, Workspaces, ActiveWorkspace}
    case FloatingChanged | PinChanged | FocusChanged | FocusChangedV2 | TitleChanged => {Clients}
    case WorkspaceSwitched | WorkspaceSwitchedV2 => {Clients, Workspaces, ActiveWorkspace}
    case MonitorFocused => {Clients, Monitors, ActiveWorkspace}
    case MonitorAdded | MonitorAddedV2 | MonitorRemoved => {Clients, Workspaces, Monitors}
    case ConfigReloaded => {Binds, Monitors}
    case Urgent | Submap => {}
  }

  function ChangeText(kind: Kind, data: string): string {
    EventName(kind) + ">>" + data
  }

  datatype Step =
    | Subscribe
    | Retitle(address: string, title: string)
    | Change(kind: Kind, data: string, world: World)
    | Silent(world: World)
    | Deliver
    | HangUp
    | Answer(slot: Slot)
    | Store(flight: nat)
    | Refresh(slot: Slot)
    | Tick(ms: nat)

  /** The daemon's start: nothing is cached and nothing subscribed. */
  function Initial(w: World): State {
    State(w, 0, [Moment(0, w)], Unsubscribed, [], [], EMPTY, {}, [], map[])
  }

  predicate IsHex(c: char) {
    '0' <= c <= '9' || 'a' <= c <= 'f'
  }

  /** A window pointer as the compositor reports it. */
  predicate KnownAddress(address: string) {
    "0x" <= address && forall i | 2 <= i < |address| :: IsHex(address[i])
  }

  /** What is written to the socket when a title changes: the address without its `0x`, and the title as it is. */
  function TitleText(address: string, title: string): string
    requires KnownAddress(address)
  {
    "windowtitlev2" + ">>" + (address[2..] + "," + title)
  }

  function Observe(st: State): State {
    st.(past := st.past + [Moment(st.now, st.world)])
  }

  /** Whether applying the line would have changed or dirtied a copy of the reply. */
  predicate Misses(f: Flight, ev: Event) {
    Dirties(ev, f.slot) || Retitled(f.value, ev) != f.value
  }

  /** One line is applied: a reply that reflects it is one line closer to the head, any other may miss it. */
  function Passed(f: Flight, ev: Event): Flight {
    if f.ahead > 0 then f.(ahead := f.ahead - 1) else f.(missed := f.missed || Misses(f, ev))
  }

  function PassAll(fs: seq<Flight>, ev: Event): (r: seq<Flight>)
    ensures |r| == |fs|
    ensures forall k | 0 <= k < |fs| :: r[k] == Passed(fs[k], ev)
  {
    if fs == [] then [] else [Passed(fs[0], ev)] + PassAll(fs[1..], ev)
  }

  function Differing(w: World, w': World): set<Slot> {
    set slot: Slot | Current(w, slot) != Current(w', slot)
  }

  /** Replies that were composed before a change nobody hears of. */
  function Overtaken(fs: seq<Flight>, slots: set<Slot>): (r: seq<Flight>)
    ensures |r| == |fs|
    ensures forall k | 0 <= k < |fs| :: r[k] == fs[k].(missed := fs[k].missed || fs[k].slot in slots)
  {
    if fs == [] then []
    else [fs[0].(missed := fs[0].missed || fs[0].slot in slots)] + Overtaken(fs[1..], slots)
  }

  /** The world changes and a text is written to the socket; the cache misses a change that nobody hears of. */
  function Announce(st: State, world: World, text: string): State {
    var slots := Differing(st.world, world);
    var st' := if st.link.Live? then st.(world := world, pending := st.pending + Received(text))
               else st.(world := world, missed := st.missed + slots, flights := Overtaken(st.flights, slots));
    Observe(st')
  }

  predicate AnyDirties(slot: Slot, lines: seq<RawEvent>) {
    exists k | 0 <= k < |lines| :: Dirties(FromRaw(lines[k]), slot)
  }

  function RetitleAll(v: Value, lines: seq<RawEvent>): Value
    decreases |lines|
  {
    if lines == [] then v else RetitleAll(Retitled(v, FromRaw(lines[0])), lines[1..])
  }

  /** Losing these lines matters to a value of the slot. */
  predicate Loses(slot: Slot, v: Value, lines: seq<RawEvent>) {
    AnyDirties(slot, lines) || RetitleAll(v, lines) != v
  }

  /** The subscription ends: the lines still in the socket are lost. */
  function Cut(f: Flight, lines: seq<RawEvent>): Flight {
    var unseen := if f.ahead <= |lines| then lines[f.ahead..] else [];
    f.(ahead := 0, missed := f.missed || Loses(f.slot, f.value, unseen))
  }

  function CutAll(fs: seq<Flight>, lines: seq<RawEvent>): (r: seq<Flight>)
    ensures |r| == |fs|
    ensures forall k | 0 <= k < |fs| :: r[k] == Cut(fs[k], lines)
  {
    if fs == [] then [] else [Cut(fs[0], lines)] + CutAll(fs[1..], lines)
  }

  predicate EntryLoses(st: State, slot: Slot) {
    Pick(st.inner, slot).value.Some? && Loses(slot, Pick(st.inner, slot).value.value, st.pending)
  }

  function CutOff(st: State): State {
    var lost := set slot: Slot | EntryLoses(st, slot);
    st.(link := Dead, pending := [], missed := st.missed + lost, flights := CutAll(st.flights, st.pending))
  }

  predicate CanStore(st: State, k: nat) {
    k < |st.flights| && st.flights[k].moment < |st.past|
    && st.now <= st.past[st.flights[k].moment].time + QUERY_LIMIT
  }

  function Answered(st: State, slot: Slot): State {
    var f := Flight(slot, Current(st.world, slot), |st.past|, |st.pending|, false);
    Observe(st).(flights := st.flights + [f])
  }

  function Stored(st: State, f: Flight): State {
    st.(inner := Put(st.inner, f.slot, Set(f.value, st.now)),
        missed := if f.missed then st.missed + {f.slot} else st.missed - {f.slot},
        origins := st.origins[f.slot := Origin(f.moment, |st.delivered|)])
  }

  /** A step that is not possible in the state changes nothing. `Refresh` is a query whose reply is stored at once. */
  function Next(st: State, step: Step): State {
    match step
    case Subscribe => if st.link.Unsubscribed? then st.(link := Live) else st
    case Retitle(address, title) =>
      if !KnownAddress(address) then st
      else
        var world := st.world.(clients := Patch(st.world.clients, address, title));
        Announce(st, world, TitleText(address, title))
    case Change(kind, data, world) => Announce(st, world, ChangeText(kind, data))
    case Silent(world) => Observe(st.(world := world))
    case Deliver =>
      if !st.link.Live? || st.pending == [] then st
      else
        var ev := FromRaw(st.pending[0]);
        st.(pending := st.pending[1..], delivered := st.delivered + [st.pending[0]],
            inner := ApplyEvent(st.inner, ev), flights := PassAll(st.flights, ev))
    case HangUp => CutOff(st)
    case Answer(slot) => Answered(st, slot)
    case Store(k) => if CanStore(st, k) then Stored(st, st.flights[k]) else st
    case Refresh(slot) =>
      var answered := Answered(st, slot);
      Stored(answered, answered.flights[|st.flights|]).(flights := st.flights)
    case Tick(ms) => Observe(st.(now := st.now + ms))
  }

  function Run(st: State, steps: seq<Step>): State
    decreases |steps|
  {
    if steps == [] then st else Run(Next(st, steps[0]), steps[1..])
  }

  lemma {:induction false} RetitleAllConcat(v: Value, a: seq<RawEvent>, b: seq<RawEvent>)
    ensures RetitleAll(v, a + b) == RetitleAll(RetitleAll(v, a), b)
    decreases |a|
  {
    hide Retitled;
    if a == [] {
      assert a + b == b;
    } else {
      assert (a + b)[0] == a[0] && (a + b)[1..] == a[1..] + b;
      RetitleAllConcat(Retitled(v, FromRaw(a[0])), a[1..], b);
    }
  }

  lemma RetitleAllSnoc(v: Value, lines: seq<RawEvent>, line: RawEvent)
    ensures RetitleAll(v, lines + [line]) == Retitled(RetitleAll(v, lines), FromRaw(line))
  {
    RetitleAllConcat(v, lines, [line]);
    var u := RetitleAll(v, lines);
    assert [line][1..] == [];
    assert RetitleAll(u, [line]) == RetitleAll(Retitled(u, FromRaw(line)), []);
  }
}
