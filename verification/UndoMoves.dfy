/** Recorded workspace moves and their undos, on a desktop that maps windows to workspaces. */
module UndoMoves {
  import opened Wrappers
  import opened Decimal
  import opened Selectors
  import opened UndoStack

  /** Where every open window is, by the address Hyprland reports for it, and which one has focus. */
  datatype Desktop = Desktop(places: map<string, i32>, focus: Option<string>)

  predicate Hexed(places: map<string, i32>) {
    forall a | a in places :: "0x" <= a
  }

  // ---- dispatchers ----------------------------------------------------------------------------

  /** `focuswindow <selector>`: refused when no open window is meant, or for an outside reason. */
  function FocusWindow(d: Desktop, selector: string, accepted: bool): Option<Desktop> {
    match ParseWindow(selector)
    case Ok(Address(a)) => if accepted && a in d.places then Some(d.(focus := Some(a))) else None
    case _ => None
  }

  /**
   * `movetoworkspace[silent] <workspace>`: the focused window goes to a numeric id as given, and to `landing`
   * when the text names any other place; focus may change, to `focus`.
   */
  function MoveActive(d: Desktop, workspace: string, landing: i32, focus: Option<string>,
                      accepted: bool): Option<Desktop> {
    if !accepted || d.focus.None? || d.focus.value !in d.places then None
    else match ParseWorkspace(workspace)
      case Ok(Id(n)) => Some(Desktop(d.places[d.focus.value := n], focus))
      case Ok(_) => Some(Desktop(d.places[d.focus.value := landing], focus))
      case Err(_) => None
  }

  /** What an undo cannot foresee: where a relative move lands, the focus after it, which dispatches are accepted. */
  datatype Way = Way(landing: NumberedId, focus: Option<string>, focuses: bool, moves: bool)

  /** The desktop afterwards, and whether all went well; a move that is refused leaves the focus on the window. */
  function ApplyInverse(d: Desktop, inverse: InverseAction, way: Way): (Desktop, bool) {
    match inverse
    case MoveBack(selector, workspace, silent) =>
      (match FocusWindow(d, EncodeWindow(selector), way.focuses)
       case None => (d, false)
       case Some(focused) =>
         match MoveActive(focused, EncodeWorkspace(workspace), way.landing, way.focus, way.moves)
         case None => (focused, false)
         case Some(moved) => (moved, true))
    case Spawn(_) => (d, way.moves)
  }

  // ---- the daemon -----------------------------------------------------------------------------

  /** `log` keeps the places from before every move that has not been undone; the daemon itself has no such list. */
  datatype State = State(desk: Desktop, stack: seq<UndoEntry>, capacity: nat, log: seq<map<string, i32>>)

  datatype Step =
    | Record(to: WorkspaceRef, silent: bool, resolved: i32, focus: Option<string>, accepted: bool,
             timestamp: int, description: string)
    | Undo(way: Way)
    | Refocus(focus: Option<string>)

  /** The entry for a move of the window that is active now. */
  function EntryFor(d: Desktop, silent: bool, timestamp: int, description: string): Option<UndoEntry> {
    if d.focus.None? || d.focus.value !in d.places then None
    else
      var inverse := MoveBack(Address(d.focus.value), Id(d.places[d.focus.value]), silent);
      Some(UndoEntry(timestamp, description, inverse))
  }

  /** A recorded move that the compositor refuses leaves everything as it was. */
  function Record1(st: State, step: Step): State
    requires step.Record?
  {
    match (EntryFor(st.desk, step.silent, step.timestamp, step.description),
           MoveActive(st.desk, EncodeWorkspace(step.to), step.resolved, step.focus, step.accepted))
    case (Some(entry), Some(moved)) =>
      State(moved, Pushed(st.stack, st.capacity, entry), st.capacity, st.log + [st.desk.places])
    case _ => st
  }

  function ShorterLog(log: seq<map<string, i32>>, ok: bool): seq<map<string, i32>> {
    if ok && log != [] then log[..|log| - 1] else log
  }

  function Undo1(st: State, way: Way): State {
    var (rest, entry) := Popped(st.stack);
    if entry.None? then st
    else
      var (d, ok) := ApplyInverse(st.desk, entry.value.inverse, way);
      State(d, rest, st.capacity, ShorterLog(st.log, ok))
  }

  function Next(st: State, step: Step): State {
    match step
    case Record(_, _, _, _, _, _, _) => Record1(st, step)
    case Undo(way) => Undo1(st, way)
    case Refocus(focus) => st.(desk := st.desk.(focus := focus))
  }

  function Run(st: State, steps: seq<Step>): State
    decreases |steps|
  {
    if steps == [] then st else Run(Next(st, steps[0]), steps[1..])
  }

  // ---- the request handlers ---------------------------------------------------------------------

  /** The open window with the focus. */
  function FocusedWindow(d: Desktop): Option<string> {
    match d.focus
    case Some(a) => if a in d.places then d.focus else None
    case None => None
  }

  /** A recorded move can be undone when its window is open and both dispatches are accepted. */
  predicate Undoable(e: UndoEntry, d: Desktop, way: Way) {
    match e.inverse
    case MoveBack(Address(a), _, _) => NormalizeAddr(a) in d.places && way.focuses && way.moves
    case MoveBack(_, _, _) => false
    case Spawn(_) => way.moves
  }

  lemma InverseSucceeds(d: Desktop, e: UndoEntry, way: Way)
    ensures ApplyInverse(d, e.inverse, way).1 <==> Undoable(e, d, way)
  {
    hide ParseWindow, ParseWorkspace, EncodeWindow, EncodeWorkspace;
    if e.inverse.MoveBack? {
      WindowRoundTrip(e.inverse.selector);
      WorkspaceReparsed(e.inverse.workspace);
    }
  }

  datatype Response =
    | Moved(address: string) | NothingToMove | Rejected
    | Undone(description: string) | UndoEmpty | UndoFailed

  /** The handlers around the shared undo stack, served one at a time; `desk` is the compositor. */
  class Handlers {
    var desk: Desktop
    const undo: UndoStack

    constructor (desk: Desktop, undo: UndoStack)
      ensures this.desk == desk && this.undo == undo
    {
      this.desk, this.undo := desk, undo;
    }

    ghost function Abstract(log: seq<map<string, i32>>): State
      reads this, undo
    {
      State(desk, undo.entries, undo.capacity, log)
    }

    method MoveToWorkspaceRecorded(to: WorkspaceRef, silent: bool, resolved: i32, focus: Option<string>, accepted: bool,
                                   timestamp: int, description: string, ghost log: seq<map<string, i32>>)
      returns (response: Response, ghost log': seq<map<string, i32>>)
      modifies this`desk, undo`entries, undo.disk
      ensures Abstract(log')
           == Record1(old(Abstract(log)), Record(to, silent, resolved, focus, accepted, timestamp, description))
      ensures response == match FocusedWindow(old(desk))
                          case None => NothingToMove
                          case Some(active) => if accepted then Moved(active) else Rejected
      ensures response.Moved? ==>
        && log' == log + [old(desk).places] && undo.entries != []
        && undo.entries[|undo.entries| - 1]
           == UndoEntry(timestamp, description,
                        MoveBack(Address(response.address), Id(old(desk).places[response.address]), silent))
      ensures !response.Moved? ==> desk == old(desk) && undo.entries == old(undo.entries)
    {
      WorkspaceReparsed(to);
      log' := log;
      var entry := EntryFor(desk, silent, timestamp, description);
      if entry.None? {
        return NothingToMove, log;
      }
      var active := desk.focus.value;
      var moved := MoveActive(desk, EncodeWorkspace(to), resolved, focus, accepted);
      if moved.None? {
        return Rejected, log;
      }
      log' := log + [desk.places];
      desk := moved.value;
      undo.Push(entry.value);
      response := Moved(active);
    }

    method UndoLast(way: Way, ghost log: seq<map<string, i32>>)
      returns (response: Response, ghost log': seq<map<string, i32>>)
      modifies this`desk, undo`entries, undo.disk
      ensures Abstract(log') == Undo1(old(Abstract(log)), way)
      ensures old(undo.entries) == [] ==> response == UndoEmpty
      ensures old(undo.entries) != [] ==>
        var e := old(undo.entries)[|old(undo.entries)| - 1];
        && undo.entries == old(undo.entries)[..|old(undo.entries)| - 1]
        && response == if Undoable(e, old(desk), way) then Undone(e.description) else UndoFailed
      ensures response == UndoFailed ==> desk.places == old(desk).places
    {
      log' := log;
      var entry := undo.Pop();
      if entry.None? {
        return UndoEmpty, log;
      }
      InverseSucceeds(desk, entry.value, way);
      var (d, ok) := ApplyInverse(desk, entry.value.inverse, way);
      desk := d;
      log' := ShorterLog(log, ok);
      response := if ok then Undone(entry.value.description) else UndoFailed;
    }
  }

  /** Every undo of the run is accepted by the compositor and takes its window back to a numbered workspace. */
  predicate Faithful(st: State, steps: seq<Step>)
    decreases |steps|
  {
    steps == [] || (FaithfulStep(st, steps[0]) && Faithful(Next(st, steps[0]), steps[1..]))
  }

  predicate FaithfulStep(st: State, step: Step) {
    step.Undo? && st.stack != [] ==>
      step.way.focuses && step.way.moves && Source(st.stack[|st.stack| - 1]) >= 0
  }

  // ---- what an entry undoes -------------------------------------------------------------------

  predicate IsMove(e: UndoEntry) {
    e.inverse.MoveBack? && e.inverse.selector.Address? && e.inverse.workspace.Id?
  }

  function Who(e: UndoEntry): string {
    if IsMove(e) then e.inverse.selector.address else ""
  }

  /** The workspace the entry's window was taken from. */
  function Source(e: UndoEntry): i32 {
    if IsMove(e) then e.inverse.workspace.id else 0
  }

  /** `after` differs from `before` by one move, the one that `e` records. */
  predicate Reverses(e: UndoEntry, before: map<string, i32>, after: map<string, i32>) {
    IsMove(e) && Who(e) in before && Hexed(before) && before.Keys == after.Keys
    && before[Who(e)] == Source(e) && after[Who(e) := Source(e)] == before
  }

  /** Entry `j` of the stack, counted from the newest end of the log, reverses the move logged there. */
  predicate Linked(st: State) {
    var maps := st.log + [st.desk.places];
    var evicted := |st.log| - |st.stack|;
    && Hexed(st.desk.places)
    && 0 <= evicted
    && forall j | 0 <= j < |st.stack| :: Reverses(st.stack[j], maps[evicted + j], maps[evicted + j + 1])
  }

  lemma InverseMoves(d: Desktop, e: UndoEntry, way: Way)
    requires IsMove(e) && Who(e) in d.places && Hexed(d.places) && way.focuses && way.moves
    ensures ApplyInverse(d, e.inverse, way)
         == (Desktop(d.places[Who(e) := if Source(e) >= 0 then Source(e) else way.landing], way.focus), true)
  {
    WindowRoundTrip(e.inverse.selector);
    WorkspaceReparsed(e.inverse.workspace);
  }

  lemma PushedKeeps(entries: seq<UndoEntry>, capacity: nat, e: UndoEntry)
    ensures var pushed := Pushed(entries, capacity, e);
      && 1 <= |pushed| <= |entries| + 1 && pushed[|pushed| - 1] == e
      && forall j | 0 <= j < |pushed| - 1 :: pushed[j] == entries[j + |entries| + 1 - |pushed|]
  {
  }

  lemma NewEntryReverses(st: State, step: Step)
    requires step.Record? && Hexed(st.desk.places) && Next(st, step) != st
    ensures var st' := Next(st, step);
      && Hexed(st'.desk.places)
      && st'.log == st.log + [st.desk.places]
      && exists e :: st'.stack == Pushed(st.stack, st.capacity, e) && Reverses(e, st.desk.places, st'.desk.places)
  {
    hide ParseWorkspace, EncodeWorkspace, Pushed;
    var d, st' := st.desk, Next(st, step);
    var active := d.focus.value;
    assert d.places == st'.desk.places[active := d.places[active]];
    var e := EntryFor(d, step.silent, step.timestamp, step.description).value;
    assert st'.stack == Pushed(st.stack, st.capacity, e);
  }

  lemma LinkedRecord(st: State, step: Step)
    requires Linked(st) && step.Record?
    ensures Linked(Next(st, step))
  {
    hide ParseWorkspace, EncodeWorkspace, Reverses, Pushed;
    var d, st' := st.desk, Next(st, step);
    if st' != st {
      var maps, maps' := st.log + [d.places], st'.log + [st'.desk.places];
      assert maps' == maps + [st'.desk.places];
      NewEntryReverses(st, step);
      var e :| st'.stack == Pushed(st.stack, st.capacity, e) && Reverses(e, d.places, st'.desk.places);
      PushedKeeps(st.stack, st.capacity, e);
      forall j | 0 <= j < |st'.stack|
        ensures Reverses(st'.stack[j], maps'[|st'.log| - |st'.stack| + j], maps'[|st'.log| - |st'.stack| + j + 1])
      {
        if j < |st'.stack| - 1 {
          var i := j + |st.stack| + 1 - |st'.stack|;
          assert Reverses(st.stack[i], maps[|st.log| - |st.stack| + i], maps[|st.log| - |st.stack| + i + 1]);
        }
      }
    }
  }

  /** An undo of a linked entry takes the desktop back to the last map of the log. */
  lemma UndoReturns(st: State, way: Way)
    requires Linked(st) && st.stack != [] && FaithfulStep(st, Undo(way))
    ensures var st' := Undo1(st, way);
      && st'.desk.places == st.log[|st.log| - 1] && Hexed(st'.desk.places)
      && st'.log == st.log[..|st.log| - 1] && st'.stack == st.stack[..|st.stack| - 1]
  {
    hide ApplyInverse;
    var e := st.stack[|st.stack| - 1];
    var maps := st.log + [st.desk.places];
    assert Reverses(e, maps[|st.log| - 1], maps[|st.log|]);
    InverseMoves(st.desk, e, way);
    ReversesBack(e, maps[|st.log| - 1], st.desk.places);
  }

  lemma LinkedUndo(st: State, way: Way)
    requires Linked(st) && st.stack != [] && FaithfulStep(st, Undo(way))
    ensures var st' := Undo1(st, way);
      && Linked(st')
      && st'.desk.places == st.log[|st.log| - 1]
      && st'.log == st.log[..|st.log| - 1]
  {
    hide Undo1, Reverses, Hexed, Source;
    UndoReturns(st, way);
    var n, st', maps := |st.stack|, Undo1(st, way), st.log + [st.desk.places];
    assert st'.log + [st'.desk.places] == st.log;
    forall j | 0 <= j < n - 1
      ensures Reverses(st'.stack[j], st.log[|st.log| - n + j], st.log[|st.log| - n + j + 1])
    {
      assert Reverses(st.stack[j], maps[|st.log| - n + j], maps[|st.log| - n + j + 1]);
    }
  }

  lemma NothingToUndo(st: State, way: Way)
    requires st.stack == []
    ensures Undo1(st, way) == st
  {
  }

  lemma {:induction false} LinkedRun(st: State, steps: seq<Step>)
    requires Linked(st) && Faithful(st, steps)
    ensures Linked(Run(st, steps))
    decreases |steps|
  {
    hide Reverses, Hexed, Record1, Undo1, Source;
    if steps != [] {
      match steps[0] {
        case Record(_, _, _, _, _, _, _) => LinkedRecord(st, steps[0]);
        case Undo(way) => if st.stack != [] { LinkedUndo(st, way); } else { NothingToUndo(st, way); }
        case Refocus(_) =>
      }
      LinkedRun(Next(st, steps[0]), steps[1..]);
    }
  }

  // ---- undoing k entries ------------------------------------------------------------------------

  /** Nothing is refused. */
  function Smoothly(landing: NumberedId, focus: Option<string>): Way {
    Way(landing, focus, true, true)
  }

  /** `k` undos in a row; the entry at stack position `j` lands a relative move on `lands(j)`. */
  function UndoTimes(st: State, k: nat, lands: nat -> NumberedId, focus: Option<string>): State
    decreases k
  {
    if k == 0 || st.stack == [] then st
    else UndoTimes(Undo1(st, Smoothly(lands(|st.stack| - 1), focus)), k - 1, lands, focus)
  }

  /** The entries' sources written back, newest first, so that the oldest entry for a window has the last word. */
  function WrittenBack(places: map<string, i32>, es: seq<UndoEntry>): map<string, i32> {
    if es == [] then places else WrittenBack(places, es[1..])[Who(es[0]) := Source(es[0])]
  }

  /** The same with every source that no printed id expresses replaced by where the relative move lands. */
  function Landed(places: map<string, i32>, es: seq<UndoEntry>, base: nat, lands: nat -> NumberedId): map<string, i32> {
    if es == [] then places
    else
      var older := if Source(es[0]) >= 0 then Source(es[0]) else lands(base);
      Landed(places, es[1..], base + 1, lands)[Who(es[0]) := older]
  }

  /** For each window among the entries, the oldest one took it from a numbered workspace. */
  predicate OldestNumbered(es: seq<UndoEntry>) {
    forall j | 0 <= j < |es| && IsOldest(es, j) :: Source(es[j]) >= 0
  }

  /** No older entry is about the same window. */
  predicate IsOldest(es: seq<UndoEntry>, j: nat)
    requires j < |es|
  {
    forall i | 0 <= i < j :: Who(es[i]) != Who(es[j])
  }

  lemma {:induction false} LandedSnoc(places: map<string, i32>, es: seq<UndoEntry>, e: UndoEntry, base: nat,
                                      lands: nat -> NumberedId)
    ensures Landed(places, es + [e], base, lands)
         == Landed(places[Who(e) := if Source(e) >= 0 then Source(e) else lands(base + |es|)], es, base, lands)
  {
    if es != [] {
      assert (es + [e])[1..] == es[1..] + [e];
      LandedSnoc(places, es[1..], e, base + 1, lands);
    }
  }

  lemma ReversesBack(e: UndoEntry, before: map<string, i32>, after: map<string, i32>)
    requires Reverses(e, before, after)
    ensures after[Who(e) := Source(e)] == before
  {
  }

  /** Newest-to-oldest write-back through the log is the old map. */
  lemma {:induction false} WrittenBackIsLogged(st: State, k: nat)
    requires Linked(st) && k <= |st.stack|
    ensures WrittenBack(st.desk.places, st.stack[|st.stack| - k..]) == (st.log + [st.desk.places])[|st.log| - k]
  {
    hide Reverses;
    if k > 0 {
      var n, maps := |st.stack|, st.log + [st.desk.places];
      WrittenBackIsLogged(st, k - 1);
      var es := st.stack[n - k..];
      assert es[1..] == st.stack[n - (k - 1)..];
      assert Reverses(st.stack[n - k], maps[|st.log| - n + (n - k)], maps[|st.log| - n + (n - k) + 1]);
      ReversesBack(st.stack[n - k], maps[|st.log| - k], maps[|st.log| - k + 1]);
    }
  }

  lemma UndoneOne(st: State, landing: NumberedId, focus: Option<string>)
    requires st.stack != [] && Hexed(st.desk.places)
    requires var e := st.stack[|st.stack| - 1]; IsMove(e) && Who(e) in st.desk.places
    ensures var e, st' := st.stack[|st.stack| - 1], Undo1(st, Smoothly(landing, focus));
      && st'.stack == st.stack[..|st.stack| - 1]
      && st'.desk.places == st.desk.places[Who(e) := if Source(e) >= 0 then Source(e) else landing]
      && Hexed(st'.desk.places)
  {
    InverseMoves(st.desk, st.stack[|st.stack| - 1], Smoothly(landing, focus));
  }

  lemma LandedNone(places: map<string, i32>, es: seq<UndoEntry>, base: nat, lands: nat -> NumberedId)
    requires es == []
    ensures Landed(places, es, base, lands) == places
  {
  }

  /** Real undos write back as `Landed` says. */
  lemma {:induction false} UndoTimesLands(st: State, k: nat, lands: nat -> NumberedId, focus: Option<string>)
    requires k <= |st.stack| && Hexed(st.desk.places)
    requires forall j | |st.stack| - k <= j < |st.stack| :: IsMove(st.stack[j]) && Who(st.stack[j]) in st.desk.places
    ensures UndoTimes(st, k, lands, focus).desk.places
         == Landed(st.desk.places, st.stack[|st.stack| - k..], |st.stack| - k, lands)
    decreases k
  {
    hide Undo1, Landed, IsMove, Who, Source, Hexed;
    if k == 0 {
      LandedNone(st.desk.places, st.stack[|st.stack|..], |st.stack|, lands);
    } else {
      var n := |st.stack|;
      var e := st.stack[n - 1];
      UndoneOne(st, lands(n - 1), focus);
      var st' := Undo1(st, Smoothly(lands(n - 1), focus));
      UndoTimesLands(st', k - 1, lands, focus);
      assert st.stack[n - k..] == st'.stack[n - k..] + [e];
      LandedSnoc(st.desk.places, st'.stack[n - k..], e, n - k, lands);
    }
  }

  predicate OldestNumberedFor(es: seq<UndoEntry>, who: string) {
    es == [] || (if Who(es[0]) == who then Source(es[0]) >= 0 else OldestNumberedFor(es[1..], who))
  }

  lemma {:induction false} LandedAgrees(places: map<string, i32>, es: seq<UndoEntry>, base: nat,
                                        lands: nat -> NumberedId, who: string)
    ensures Landed(places, es, base, lands).Keys == WrittenBack(places, es).Keys
    ensures who in WrittenBack(places, es) ==>
      (Landed(places, es, base, lands)[who] == WrittenBack(places, es)[who] <==> OldestNumberedFor(es, who))
    ensures who !in WrittenBack(places, es) ==> OldestNumberedFor(es, who)
  {
    if es != [] { LandedAgrees(places, es[1..], base + 1, lands, who); }
  }

  lemma OldestForAll(es: seq<UndoEntry>, who: string)
    requires OldestNumbered(es)
    ensures OldestNumberedFor(es, who)
  {
    assert es[0..] == es;
    OldestFor(es, 0, who);
  }

  /** If every window's oldest entry is numbered then `OldestNumbered` holds; otherwise some window tells why not. */
  lemma OldestOrWitness(es: seq<UndoEntry>) returns (who: string)
    ensures OldestNumbered(es) || !OldestNumberedFor(es, who)
  {
    who := "";
    if !OldestNumbered(es) {
      var j :| 0 <= j < |es| && IsOldest(es, j) && Source(es[j]) < 0;
      FirstOccurrence(es, j);
      who := Who(es[j]);
    }
  }

  lemma {:induction false} OldestFor(es: seq<UndoEntry>, from: nat, who: string)
    requires OldestNumbered(es) && from <= |es|
    requires forall i | 0 <= i < from :: Who(es[i]) != who
    ensures OldestNumberedFor(es[from..], who)
    decreases |es| - from
  {
    if from < |es| {
      assert es[from..][1..] == es[from + 1..];
      if Who(es[from]) != who { OldestFor(es, from + 1, who); }
    }
  }

  lemma {:induction false} FirstOccurrence(es: seq<UndoEntry>, j: nat)
    requires j < |es| && IsOldest(es, j)
    ensures OldestNumberedFor(es, Who(es[j])) <==> Source(es[j]) >= 0
  {
    if j > 0 {
      FirstOccurrence(es[1..], j - 1);
    }
  }

  lemma SameMaps(a: map<string, i32>, b: map<string, i32>)
    requires a.Keys == b.Keys
    ensures a == b <==> forall k | k in b :: a[k] == b[k]
  {
  }

  /**
   * k undos reverse the last k moves. After any run of recorded moves, faithful undos and focus changes, with
   * whatever forward targets and evictions, undoing the newest `k` entries restores the places from before the
   * k-th most recent move not yet undone, exactly when the oldest of those entries for each window took it
   * from a numbered workspace.
   */
  lemma UndosRestore(start: Desktop, capacity: nat, steps: seq<Step>, k: nat, lands: nat -> NumberedId,
                     focus: Option<string>)
    requires Hexed(start.places)
    requires var init := State(start, [], capacity, []);
      Faithful(init, steps) && k <= |Run(init, steps).stack|
    ensures var st := Run(State(start, [], capacity, []), steps);
      && |st.stack| <= |st.log|
      && (UndoTimes(st, k, lands, focus).desk.places == (st.log + [st.desk.places])[|st.log| - k]
          <==> OldestNumbered(st.stack[|st.stack| - k..]))
  {
    hide Run, Faithful, Landed, WrittenBack, UndoTimes, OldestNumbered, OldestNumberedFor, Reverses;
    var st := Run(State(start, [], capacity, []), steps);
    LinkedRun(State(start, [], capacity, []), steps);
    var es := st.stack[|st.stack| - k..];
    WindowsKnown(st);
    UndoTimesLands(st, k, lands, focus);
    WrittenBackIsLogged(st, k);
    LandedRight(st.desk.places, es, |st.stack| - k, lands);
  }

  lemma LandedRight(places: map<string, i32>, es: seq<UndoEntry>, base: nat, lands: nat -> NumberedId)
    ensures Landed(places, es, base, lands) == WrittenBack(places, es) <==> OldestNumbered(es)
  {
    hide Landed, WrittenBack, OldestNumbered, OldestNumberedFor;
    var landed, ideal := Landed(places, es, base, lands), WrittenBack(places, es);
    LandedAgrees(places, es, base, lands, "");
    SameMaps(landed, ideal);
    if OldestNumbered(es) {
      forall who | who in ideal ensures landed[who] == ideal[who] {
        LandedAgrees(places, es, base, lands, who);
        OldestForAll(es, who);
      }
    } else {
      var who := OldestOrWitness(es);
      LandedAgrees(places, es, base, lands, who);
    }
  }

  lemma WindowsKnown(st: State)
    requires Linked(st)
    ensures forall j | 0 <= j < |st.stack| :: IsMove(st.stack[j]) && Who(st.stack[j]) in st.desk.places
  {
    var n, maps := |st.stack|, st.log + [st.desk.places];
    SameKeys(st, 0);
    forall j | 0 <= j < n ensures IsMove(st.stack[j]) && Who(st.stack[j]) in st.desk.places {
      assert Reverses(st.stack[j], maps[|st.log| - n + j], maps[|st.log| - n + j + 1]);
      SameKeys(st, j);
    }
  }

  lemma {:induction false} SameKeys(st: State, j: nat)
    requires Linked(st) && j <= |st.stack|
    ensures (st.log + [st.desk.places])[|st.log| - |st.stack| + j].Keys == st.desk.places.Keys
    decreases |st.stack| - j
  {
    var n, maps := |st.stack|, st.log + [st.desk.places];
    if j < n {
      assert Reverses(st.stack[j], maps[|st.log| - n + j], maps[|st.log| - n + j + 1]);
      SameKeys(st, j + 1);
    }
  }
}
