/** The daemon's world-model cache: entries with a dirty flag and an age, invalidated by socket events. */
module Cache {
  import opened Wrappers
  import opened Events

  /** A managed window; `rest` stands for the attributes the cache never looks at. */
  datatype Client = Client(address: string, title: string, focusHistoryId: int, rest: string)

  /** The cached query results that events invalidate. */
  datatype Slot = Clients | Workspaces | Monitors | ActiveWorkspace | Binds

  datatype Value = ClientList(clients: seq<Client>) | Reply(text: string)

  /** Milliseconds; a value this old is queried again even if no event came. */
  const MAX_AGE: nat := 5000

  datatype Entry = Entry(value: Option<Value>, dirty: bool, refreshedAt: Option<nat>)

  const UNSET: Entry := Entry(None, true, None)

  function Set(value: Value, now: nat): Entry {
    Entry(Some(value), false, Some(now))
  }

  /** The value, if it is present, clean and young enough. */
  function Get(e: Entry, now: nat): Option<Value> {
    if e.dirty then None
    else if e.value.Some? && e.refreshedAt.Some? && now - e.refreshedAt.value < MAX_AGE then e.value
    else None
  }

  /** A stored value is served for as long as it is younger than the maximal age, and no longer. */
  lemma ServedUntil(v: Value, stored: nat, now: nat)
    requires stored <= now
    ensures Get(Set(v, stored), now) == if now < stored + MAX_AGE then Some(v) else None
    ensures Get(Set(v, stored).(dirty := true), now) == None
  {
  }

  datatype Inner = Inner(clients: Entry, workspaces: Entry, monitors: Entry, activeWorkspace: Entry, binds: Entry)

  const EMPTY: Inner := Inner(UNSET, UNSET, UNSET, UNSET, UNSET)

  function Pick(i: Inner, slot: Slot): Entry {
    match slot
    case Clients => i.clients
    case Workspaces => i.workspaces
    case Monitors => i.monitors
    case ActiveWorkspace => i.activeWorkspace
    case Binds => i.binds
  }

  function Put(i: Inner, slot: Slot, e: Entry): Inner {
    match slot
    case Clients => i.(clients := e)
    case Workspaces => i.(workspaces := e)
    case Monitors => i.(monitors := e)
    case ActiveWorkspace => i.(activeWorkspace := e)
    case Binds => i.(binds := e)
  }

  // ---- events ----------------------------------------------------------------------------

  /** The address and new title, when the event carries both. */
  function TitleOf(ev: Event): Option<(string, string)> {
    if ev.kind == "windowtitlev2" && "address" in ev.fields && "title" in ev.fields
    then Some((ev.fields["address"], ev.fields["title"])) else None
  }

  /** Whether the event marks the slot dirty. */
  predicate Dirties(ev: Event, slot: Slot) {
    var k := ev.kind;
    if k in {"openwindow", "closewindow", "fullscreen", "movewindow", "movewindowv2"} then
      slot in {Clients, Workspaces, ActiveWorkspace}
    else if k in {"activewindow", "activewindowv2"} then slot == Clients
    else if k == "windowtitlev2" then TitleOf(ev).None? && slot == Clients
    else if k == "windowtitle" then slot == Clients
    else if k in {"workspace", "workspacev2"} then slot in {Clients, Workspaces, ActiveWorkspace}
    else if k == "focusedmon" then slot in {Clients, Monitors, ActiveWorkspace}
    else if k in {"changefloatingmode", "pin"} then slot == Clients
    else if k in {"monitoradded", "monitorremoved", "monitoraddedv2"} then slot in {Clients, Workspaces, Monitors}
    else if k == "configreloaded" then slot in {Binds, Monitors}
    else false
  }

  /** The title of the first client with this address is replaced. */
  function Patch(cs: seq<Client>, address: string, title: string): (r: seq<Client>)
    ensures |r| == |cs|
  {
    if cs == [] then []
    else if cs[0].address == address then [cs[0].(title := title)] + cs[1..]
    else [cs[0]] + Patch(cs[1..], address, title)
  }

  function Renamed(v: Value, address: string, title: string): Value {
    if v.ClientList? then ClientList(Patch(v.clients, address, title)) else v
  }

  /** A cached client list once the title an event carries is patched in. */
  function Retitled(v: Value, ev: Event): Value {
    match TitleOf(ev)
    case Some((address, title)) => Renamed(v, address, title)
    case None => v
  }

  function AfterEvent(e: Entry, slot: Slot, ev: Event): Entry {
    var flagged := if Dirties(ev, slot) then e.(dirty := true) else e;
    if slot == Clients && flagged.value.Some? then flagged.(value := Some(Retitled(flagged.value.value, ev)))
    else flagged
  }

  function ApplyEvent(i: Inner, ev: Event): Inner {
    Inner(AfterEvent(i.clients, Clients, ev), AfterEvent(i.workspaces, Workspaces, ev),
          AfterEvent(i.monitors, Monitors, ev), AfterEvent(i.activeWorkspace, ActiveWorkspace, ev),
          AfterEvent(i.binds, Binds, ev))
  }

  /** The focused window is the first client at the head of the focus history. */
  function ActiveFrom(cs: seq<Client>): Option<Client> {
    if cs == [] then None
    else if cs[0].focusHistoryId == 0 then Some(cs[0])
    else ActiveFrom(cs[1..])
  }

  /** The position of the first client with this address, or the length of the list. */
  method FindClient(cs: seq<Client>, address: string) returns (k: nat)
    ensures k <= |cs|
    ensures k < |cs| ==> cs[k].address == address
    ensures forall j | 0 <= j < k :: cs[j].address != address
  {
    k := 0;
    while k < |cs| && cs[k].address != address
      invariant k <= |cs|
      invariant forall j | 0 <= j < k :: cs[j].address != address
    {
      k := k + 1;
    }
  }

  /** Patching changes one title: that of the first client with the address, if there is one. */
  lemma {:induction false} PatchFirst(cs: seq<Client>, address: string, title: string, k: nat)
    requires k <= |cs|
    requires k < |cs| ==> cs[k].address == address
    requires forall j | 0 <= j < k :: cs[j].address != address
    ensures Patch(cs, address, title) == if k < |cs| then cs[k := cs[k].(title := title)] else cs
  {
    if k > 0 {
      PatchFirst(cs[1..], address, title, k - 1);
    }
  }

  // ---- the shared handle -----------------------------------------------------------------

  class StateCache {
    var inner: Inner

    constructor ()
      ensures inner == EMPTY
    {
      inner := EMPTY;
    }

    method Read(slot: Slot, now: nat) returns (v: Option<Value>)
      ensures v == Get(Pick(inner, slot), now)
    {
      v := Get(Pick(inner, slot), now);
    }

    method Write(slot: Slot, v: Value, now: nat)
      modifies this
      ensures inner == Put(old(inner), slot, Set(v, now))
      ensures Get(Pick(inner, slot), now) == Some(v)
      ensures forall other | other != slot :: Pick(inner, other) == Pick(old(inner), other)
    {
      inner := Put(inner, slot, Set(v, now));
    }

    /** A read that nothing interrupts; `reply` is what a query would return, nothing if it fails, at time `stored`. */
    method Serve(slot: Slot, now: nat, reply: Option<Value>, stored: nat) returns (v: Option<Value>)
      modifies this
      ensures v == if Get(Pick(old(inner), slot), now).Some? then Get(Pick(old(inner), slot), now) else reply
      ensures inner == if Get(Pick(old(inner), slot), now).None? && reply.Some?
                       then Put(old(inner), slot, Set(reply.value, stored)) else old(inner)
    {
      var cached := Read(slot, now);
      if cached.Some? {
        return cached;
      }
      if reply.Some? {
        Write(slot, reply.value, stored);
      }
      v := reply;
    }

    method MarkDirty(slot: Slot)
      modifies this
      ensures inner == Put(old(inner), slot, Pick(old(inner), slot).(dirty := true))
    {
      inner := Put(inner, slot, Pick(inner, slot).(dirty := true));
    }

    method PatchTitle(address: string, title: string)
      modifies this
      ensures inner == old(inner).(clients := old(inner).clients.(value := match old(inner).clients.value
                                                                      case Some(v) => Some(Renamed(v, address, title))
                                                                      case None => None))
    {
      if inner.clients.value.Some? && inner.clients.value.value.ClientList? {
        var list := inner.clients.value.value.clients;
        var k := FindClient(list, address);
        PatchFirst(list, address, title, k);
        if k < |list| {
          list := list[k := list[k].(title := title)];
        }
        inner := inner.(clients := inner.clients.(value := Some(ClientList(list))));
      }
    }

    /** Event handling: flip dirty flags, or patch a title in place. */
    method Apply(ev: Event)
      modifies this
      ensures inner == ApplyEvent(old(inner), ev)
    {
      var k := ev.kind;
      if k in {"openwindow", "closewindow", "fullscreen", "movewindow", "movewindowv2"} {
        MarkDirty(Clients);
        MarkDirty(Workspaces);
        MarkDirty(ActiveWorkspace);
      } else if k in {"activewindow", "activewindowv2"} {
        MarkDirty(Clients);
      } else if k == "windowtitlev2" {
        var address, title := Field(ev, "address"), Field(ev, "title");
        if address.Some? && title.Some? {
          PatchTitle(address.value, title.value);
        } else {
          MarkDirty(Clients);
        }
      } else if k == "windowtitle" {
        MarkDirty(Clients);
      } else if k in {"workspace", "workspacev2"} {
        MarkDirty(Workspaces);
        MarkDirty(ActiveWorkspace);
        MarkDirty(Clients);
      } else if k == "focusedmon" {
        MarkDirty(Monitors);
        MarkDirty(ActiveWorkspace);
        MarkDirty(Clients);
      } else if k in {"changefloatingmode", "pin"} {
        MarkDirty(Clients);
      } else if k in {"monitoradded", "monitorremoved", "monitoraddedv2"} {
        MarkDirty(Monitors);
        MarkDirty(Workspaces);
        MarkDirty(Clients);
      } else if k == "configreloaded" {
        MarkDirty(Binds);
        MarkDirty(Monitors);
      }
    }
  }
}
