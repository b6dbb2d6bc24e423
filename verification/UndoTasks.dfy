/**
 * The same requests as tasks that run side by side, one per connection: a recorded move reads the active window,
 * dispatches, and only then locks the stack; an undo pops under the lock and dispatches twice after it.
 */
module UndoTasks {
  import opened Wrappers
  import opened Decimal
  import opened Selectors
  import opened UndoStack
  import opened UndoMoves

  /** What a request in progress will do next. */
  datatype Task =
    | ToMove(entry: UndoEntry, to: WorkspaceRef)
    | ToPush(entry: UndoEntry)
    | ToFocus(entry: UndoEntry)
    | ToReturn(entry: UndoEntry)

  datatype Shared = Shared(core: State, tasks: seq<Task>)

  datatype Act =
    | ReadActive(to: WorkspaceRef, silent: bool, timestamp: int, description: string)
    | Move(task: nat, resolved: i32, focus: Option<string>, accepted: bool)
    | PushEntry(task: nat)
    | PopEntry
    | FocusBack(task: nat, accepted: bool)
    | MoveBackTo(task: nat, landing: NumberedId, focus: Option<string>, accepted: bool)
    | UserFocus(focus: Option<string>)

  function Without(tasks: seq<Task>, k: nat): seq<Task>
    requires k < |tasks|
  {
    tasks[..k] + tasks[k + 1..]
  }

  /** The task is done with, leaving the state as given. */
  function Done(s: Shared, k: nat, core: State): Shared
    requires k < |s.tasks|
  {
    Shared(core, Without(s.tasks, k))
  }

  function DoMove(s: Shared, k: nat, resolved: i32, focus: Option<string>, accepted: bool): Shared
    requires k < |s.tasks| && s.tasks[k].ToMove?
  {
    match MoveActive(s.core.desk, EncodeWorkspace(s.tasks[k].to), resolved, focus, accepted)
    case None => Done(s, k, s.core)
    case Some(moved) =>
      Shared(s.core.(desk := moved, log := s.core.log + [s.core.desk.places]),
             s.tasks[k := ToPush(s.tasks[k].entry)])
  }

  function DoFocusBack(s: Shared, k: nat, accepted: bool): Shared
    requires k < |s.tasks| && s.tasks[k].ToFocus?
  {
    match s.tasks[k].entry.inverse
    case Spawn(_) => Done(s, k, s.core.(log := ShorterLog(s.core.log, accepted)))
    case MoveBack(selector, _, _) =>
      match FocusWindow(s.core.desk, EncodeWindow(selector), accepted)
      case None => Done(s, k, s.core)
      case Some(focused) => Shared(s.core.(desk := focused), s.tasks[k := ToReturn(s.tasks[k].entry)])
  }

  function DoMoveBack(s: Shared, k: nat, landing: NumberedId, focus: Option<string>, accepted: bool): Shared
    requires k < |s.tasks| && s.tasks[k].ToReturn?
  {
    match s.tasks[k].entry.inverse
    case Spawn(_) => Done(s, k, s.core)
    case MoveBack(_, workspace, _) =>
      match MoveActive(s.core.desk, EncodeWorkspace(workspace), landing, focus, accepted)
      case None => Done(s, k, s.core)
      case Some(moved) => Done(s, k, s.core.(desk := moved, log := ShorterLog(s.core.log, true)))
  }

  /** An act that is not possible in the state changes nothing. */
  function Next(s: Shared, act: Act): Shared {
    match act
    case ReadActive(to, silent, timestamp, description) =>
      (match EntryFor(s.core.desk, silent, timestamp, description)
       case None => s
       case Some(entry) => s.(tasks := s.tasks + [ToMove(entry, to)]))
    case Move(k, resolved, focus, accepted) =>
      if k < |s.tasks| && s.tasks[k].ToMove? then DoMove(s, k, resolved, focus, accepted) else s
    case PushEntry(k) =>
      if k < |s.tasks| && s.tasks[k].ToPush?
      then Done(s, k, s.core.(stack := Pushed(s.core.stack, s.core.capacity, s.tasks[k].entry))) else s
    case PopEntry =>
      (match Popped(s.core.stack)
       case (_, None) => s
       case (rest, Some(entry)) => Shared(s.core.(stack := rest), s.tasks + [ToFocus(entry)]))
    case FocusBack(k, accepted) =>
      if k < |s.tasks| && s.tasks[k].ToFocus? then DoFocusBack(s, k, accepted) else s
    case MoveBackTo(k, landing, focus, accepted) =>
      if k < |s.tasks| && s.tasks[k].ToReturn? then DoMoveBack(s, k, landing, focus, accepted) else s
    case UserFocus(focus) => s.(core := s.core.(desk := s.core.desk.(focus := focus)))
  }

  function Run(s: Shared, acts: seq<Act>): Shared
    decreases |acts|
  {
    if acts == [] then s else Run(Next(s, acts[0]), acts[1..])
  }

  // ---- requests that do not overlap ------------------------------------------------------------

  /** No request starts, and the user does not change focus, while another request is in progress. */
  predicate InTurn(s: Shared, act: Act) {
    act.ReadActive? || act.PopEntry? || act.UserFocus? ==> s.tasks == []
  }

  /** Every dispatch of an undo is accepted, and its window came from a numbered workspace. */
  predicate FaithfulAct(s: Shared, act: Act) {
    match act
    case PopEntry => s.core.stack != [] ==> Source(s.core.stack[|s.core.stack| - 1]) >= 0
    case FocusBack(_, accepted) => accepted
    case MoveBackTo(_, _, _, accepted) => accepted
    case _ => true
  }

  predicate InTurnRun(s: Shared, acts: seq<Act>)
    decreases |acts|
  {
    acts == [] || (InTurn(s, acts[0]) && FaithfulAct(s, acts[0]) && InTurnRun(Next(s, acts[0]), acts[1..]))
  }

  /** What the tasks amount to in whole requests: a recorded move, like an undo, counts as soon as it has moved. */
  function Amounts(s: Shared): State {
    if s.tasks == [] || s.tasks[0].ToMove? then s.core
    else if s.tasks[0].ToPush?
    then s.core.(stack := Pushed(s.core.stack, s.core.capacity, s.tasks[0].entry))
    else s.core.(stack := s.core.stack + [s.tasks[0].entry])
  }

  /** At most one request is in progress, and what it has read still holds. */
  predicate Single(s: Shared) {
    |s.tasks| <= 1
    && (|s.tasks| == 1 ==>
          var e := s.tasks[0].entry;
          match s.tasks[0]
          case ToMove(_, _) =>
            e.inverse.MoveBack? && EntryFor(s.core.desk, e.inverse.silent, e.timestamp, e.description) == Some(e)
          case ToPush(_) => true
          case ToFocus(_) => Source(e) >= 0
          case ToReturn(_) =>
            && Source(e) >= 0 && e.inverse.MoveBack?
            && FocusWindow(s.core.desk, EncodeWindow(e.inverse.selector), true) == Some(s.core.desk))
  }

  lemma OneStep(st: State, step: Step)
    ensures UndoMoves.Run(st, [step]) == UndoMoves.Next(st, step)
    ensures Faithful(st, [step]) <==> FaithfulStep(st, step)
  {
    hide UndoMoves.Next, FaithfulStep;
    assert [step][1..] == [];
    assert UndoMoves.Run(UndoMoves.Next(st, step), []) == UndoMoves.Next(st, step);
    assert Faithful(UndoMoves.Next(st, step), []);
  }

  /** The acts of a request in turn amount to whole steps of the machine of requests. */
  lemma ActInTurn(s: Shared, act: Act) returns (steps: seq<Step>)
    requires Single(s) && InTurn(s, act) && FaithfulAct(s, act)
    ensures Single(Next(s, act))
    ensures Amounts(Next(s, act)) == UndoMoves.Run(Amounts(s), steps) && Faithful(Amounts(s), steps)
  {
    steps := [];
    match act {
      case ReadActive(_, _, _, _) =>
      case Move(k, resolved, focus, accepted) =>
        if k < |s.tasks| && s.tasks[k].ToMove? { steps := MoveInTurn(s, resolved, focus, accepted); }
      case PushEntry(k) =>
      case PopEntry => PopInTurn(s);
      case FocusBack(k, accepted) =>
        if k < |s.tasks| && s.tasks[k].ToFocus? { steps := FocusInTurn(s, accepted); }
      case MoveBackTo(k, landing, focus, accepted) =>
        if k < |s.tasks| && s.tasks[k].ToReturn? { steps := ReturnInTurn(s, landing, focus, accepted); }
      case UserFocus(focus) =>
        steps := [Refocus(focus)];
        OneStep(Amounts(s), steps[0]);
    }
  }

  lemma MoveInTurn(s: Shared, resolved: i32, focus: Option<string>, accepted: bool) returns (steps: seq<Step>)
    requires Single(s) && s.tasks != [] && s.tasks[0].ToMove?
    ensures var s' := DoMove(s, 0, resolved, focus, accepted);
      Single(s') && Amounts(s') == UndoMoves.Run(Amounts(s), steps) && Faithful(Amounts(s), steps)
  {
    hide MoveActive, EntryFor;
    var e := s.tasks[0].entry;
    steps := [Record(s.tasks[0].to, e.inverse.silent, resolved, focus, accepted, e.timestamp, e.description)];
    OneStep(Amounts(s), steps[0]);
  }

  lemma PopInTurn(s: Shared)
    requires Single(s) && s.tasks == [] && FaithfulAct(s, PopEntry)
    ensures Single(Next(s, PopEntry)) && Amounts(Next(s, PopEntry)) == s.core
  {
    hide Source;
    if s.core.stack != [] {
      var n := |s.core.stack|;
      assert s.core.stack[..n - 1] + [s.core.stack[n - 1]] == s.core.stack;
    }
  }

  lemma FocusInTurn(s: Shared, accepted: bool) returns (steps: seq<Step>)
    requires Single(s) && s.tasks != [] && s.tasks[0].ToFocus? && accepted
    ensures var s' := DoFocusBack(s, 0, accepted);
      Single(s') && Amounts(s') == UndoMoves.Run(Amounts(s), steps) && Faithful(Amounts(s), steps)
  {
    hide ParseWindow, EncodeWindow, Source, MoveActive;
    var e, s' := s.tasks[0].entry, DoFocusBack(s, 0, accepted);
    if s'.tasks == [] {
      var way := Way(1, None, true, true);
      steps := [Undo(way)];
      assert Popped(s.core.stack + [e]) == (s.core.stack, Some(e));
    } else {
      steps := [Refocus(s'.core.desk.focus)];
    }
    OneStep(Amounts(s), steps[0]);
  }

  lemma ReturnInTurn(s: Shared, landing: NumberedId, focus: Option<string>, accepted: bool) returns (steps: seq<Step>)
    requires Single(s) && s.tasks != [] && s.tasks[0].ToReturn? && accepted
    ensures var s' := DoMoveBack(s, 0, landing, focus, accepted);
      Single(s') && Amounts(s') == UndoMoves.Run(Amounts(s), steps) && Faithful(Amounts(s), steps)
  {
    hide FocusWindow, MoveActive, Source;
    var e, way := s.tasks[0].entry, Way(landing, focus, true, accepted);
    steps := [Undo(way)];
    assert Popped(s.core.stack + [e]) == (s.core.stack, Some(e));
    OneStep(Amounts(s), steps[0]);
  }

  lemma {:induction false} RunConcat(st: State, a: seq<Step>, b: seq<Step>)
    ensures UndoMoves.Run(st, a + b) == UndoMoves.Run(UndoMoves.Run(st, a), b)
    ensures Faithful(st, a + b) <==> Faithful(st, a) && Faithful(UndoMoves.Run(st, a), b)
    decreases |a|
  {
    hide UndoMoves.Next, FaithfulStep;
    if a == [] {
      assert a + b == b;
    } else {
      assert (a + b)[0] == a[0] && (a + b)[1..] == a[1..] + b;
      RunConcat(UndoMoves.Next(st, a[0]), a[1..], b);
    }
  }

  /** A run of requests in turn is a run of whole requests. */
  lemma {:induction false} RunInTurn(s: Shared, acts: seq<Act>) returns (steps: seq<Step>)
    requires Single(s) && InTurnRun(s, acts)
    ensures Single(Run(s, acts))
    ensures Amounts(Run(s, acts)) == UndoMoves.Run(Amounts(s), steps) && Faithful(Amounts(s), steps)
    decreases |acts|
  {
    hide Single, Next, Amounts, InTurn, FaithfulAct, UndoMoves.Next, FaithfulStep;
    if acts == [] {
      steps := [];
    } else {
      var first := ActInTurn(s, acts[0]);
      var rest := RunInTurn(Next(s, acts[0]), acts[1..]);
      steps := first + rest;
      RunConcat(Amounts(s), first, rest);
    }
  }

  /**
   * k undos reverse the last k moves: after any run of requests that do not overlap, with whatever moves refused,
   * forward targets and evictions, and once the last request is done, undoing the newest `k` entries restores the
   * places from before the k-th most recent move not yet undone, exactly when the oldest of those entries for
   * each window took it from a numbered workspace.
   */
  lemma UndosRestoreInTurn(start: Desktop, capacity: nat, acts: seq<Act>, k: nat, lands: nat -> NumberedId,
                           focus: Option<string>)
    requires Hexed(start.places)
    requires var init := Shared(State(start, [], capacity, []), []);
      InTurnRun(init, acts) && Run(init, acts).tasks == [] && k <= |Run(init, acts).core.stack|
    ensures var st := Run(Shared(State(start, [], capacity, []), []), acts).core;
      && |st.stack| <= |st.log|
      && (UndoTimes(st, k, lands, focus).desk.places == (st.log + [st.desk.places])[|st.log| - k]
          <==> OldestNumbered(st.stack[|st.stack| - k..]))
  {
    hide Run, UndoMoves.Run, InTurnRun, Faithful, UndoTimes, OldestNumbered;
    var steps := RunInTurn(Shared(State(start, [], capacity, []), []), acts);
    UndosRestore(start, capacity, steps, k, lands, focus);
  }

  // ---- requests that overlap -----------------------------------------------------------------

  lemma MoveLands(d: Desktop, n: i32, resolved: i32, focus: Option<string>)
    requires d.focus.Some? && d.focus.value in d.places && n >= 0
    ensures MoveActive(d, EncodeWorkspace(Id(n)), resolved, focus, true)
         == Some(Desktop(d.places[d.focus.value := n], focus))
  {
    hide ParseWorkspace, EncodeWorkspace;
    WorkspaceReparsed(Id(n));
  }

  lemma RunHead(s: Shared, act: Act, rest: seq<Act>)
    ensures Run(s, [act] + rest) == Run(Next(s, act), rest)
  {
    hide Next;
    assert ([act] + rest)[1..] == rest;
  }

  lemma RunFour(s: Shared, a: Act, b: Act, c: Act, d: Act)
    ensures Run(s, [a, b, c, d]) == Next(Next(Next(Next(s, a), b), c), d)
  {
    hide Next;
    assert [a] + [b, c, d] == [a, b, c, d] && [b] + [c, d] == [b, c, d] && [c] + [d] == [c, d] && [d] + [] == [d];
    RunHead(s, a, [b, c, d]);
    RunHead(Next(s, a), b, [c, d]);
    RunHead(Next(Next(s, a), b), c, [d]);
    RunHead(Next(Next(Next(s, a), b), c), d, []);
  }

  lemma {:induction false} ActsConcat(s: Shared, a: seq<Act>, b: seq<Act>)
    ensures Run(s, a + b) == Run(Run(s, a), b)
    decreases |a|
  {
    hide Next;
    if a == [] {
      assert a + b == b;
    } else {
      assert (a + b)[0] == a[0] && (a + b)[1..] == a[1..] + b;
      ActsConcat(Next(s, a[0]), a[1..], b);
    }
  }

  const ALONE: Desktop := Desktop(map["0x1" := 1], Some("0x1"))

  function EntryFrom(address: string, workspace: i32): UndoEntry {
    UndoEntry(0, "", MoveBack(Address(address), Id(workspace), true))
  }

  /** After both moves: each task still has to push an entry that says workspace 1. */
  function BothMoved(): Shared {
    var desk := Desktop(map["0x1" := 3], Some("0x1"));
    var push := ToPush(EntryFrom("0x1", 1));
    Shared(State(desk, [], 64, [ALONE.places, map["0x1" := 2]]), [push, push])
  }

  lemma OverlapMoved()
    ensures var stay := Some("0x1");
      var acts := [ReadActive(Id(2), true, 0, ""), ReadActive(Id(3), true, 0, ""),
                   Move(0, 1, stay, true), Move(1, 1, stay, true)];
      Run(Shared(State(ALONE, [], 64, []), []), acts) == BothMoved()
  {
    hide Run, MoveActive;
    var stay, e := Some("0x1"), EntryFrom("0x1", 1);
    var init := Shared(State(ALONE, [], 64, []), []);
    var read2, read3 := ReadActive(Id(2), true, 0, ""), ReadActive(Id(3), true, 0, "");
    RunFour(init, read2, read3, Move(0, 1, stay, true), Move(1, 1, stay, true));
    var moved := Desktop(map["0x1" := 2], stay);
    MoveLands(ALONE, 2, 1, stay);
    MoveLands(moved, 3, 1, stay);
    assert ALONE.places["0x1" := 2] == moved.places && moved.places["0x1" := 3] == map["0x1" := 3];
    var both := Next(Next(init, read2), read3);
    assert both == Shared(init.core, [ToMove(e, Id(2)), ToMove(e, Id(3))]);
    var half := Next(both, Move(0, 1, stay, true));
    assert half == Shared(State(moved, [], 64, [ALONE.places]), [ToPush(e), ToMove(e, Id(3))]);
  }

  /**
   * Two recorded moves overlap: both read workspace 1 before either dispatches, so both entries say 1 and one undo
   * goes back too far. The places before the last move had the window on workspace 2.
   */
  lemma OverlappingMoves(lands: nat -> NumberedId)
    ensures var stay := Some("0x1");
      var acts := [ReadActive(Id(2), true, 0, ""), ReadActive(Id(3), true, 0, ""),
                   Move(0, 1, stay, true), Move(1, 1, stay, true)] + [PushEntry(0), PushEntry(0)];
      var s := Run(Shared(State(ALONE, [], 64, []), []), acts);
      && s.tasks == [] && s.core.stack == [EntryFrom("0x1", 1), EntryFrom("0x1", 1)]
      && s.core.log == [ALONE.places, map["0x1" := 2]]
      && OldestNumbered(s.core.stack[1..])
      && UndoTimes(s.core, 1, lands, stay).desk.places == map["0x1" := 1]
  {
    hide Run, MoveActive, UndoTimes;
    var stay, e := Some("0x1"), EntryFrom("0x1", 1);
    OverlapMoved();
    ActsConcat(Shared(State(ALONE, [], 64, []), []),
               [ReadActive(Id(2), true, 0, ""), ReadActive(Id(3), true, 0, ""),
                Move(0, 1, stay, true), Move(1, 1, stay, true)],
               [PushEntry(0), PushEntry(0)]);
    RunTwo(BothMoved(), PushEntry(0), PushEntry(0));
    var st := BothMoved().core.(stack := [e, e]);
    assert Next(Next(BothMoved(), PushEntry(0)), PushEntry(0)) == Shared(st, []);
    OneUndo(st, e, lands, stay);
    assert map["0x1" := 3 as i32]["0x1" := 1] == map["0x1" := 1];
  }

  lemma RunTwo(s: Shared, a: Act, b: Act)
    ensures Run(s, [a, b]) == Next(Next(s, a), b)
  {
    hide Next;
    assert [a] + [b] == [a, b] && [b] + [] == [b];
    RunHead(s, a, [b]);
    RunHead(Next(s, a), b, []);
    assert Run(Next(Next(s, a), b), []) == Next(Next(s, a), b);
  }

  lemma OneUndo(st: State, e: UndoEntry, lands: nat -> NumberedId, focus: Option<string>)
    requires st.stack != [] && st.stack[|st.stack| - 1] == e
    requires IsMove(e) && Who(e) in st.desk.places && Hexed(st.desk.places)
    ensures UndoTimes(st, 1, lands, focus).desk.places
         == st.desk.places[Who(e) := if Source(e) >= 0 then Source(e) else lands(|st.stack| - 1)]
  {
    hide Undo1;
    UndoneOne(st, lands(|st.stack| - 1), focus);
    var st' := Undo1(st, Smoothly(lands(|st.stack| - 1), focus));
    assert UndoTimes(st', 0, lands, focus) == st';
  }

  const PAIR: Desktop := Desktop(map["0x1" := 1, "0x2" := 1], Some("0x1"))

  /**
   * The focus changes between the read and the dispatch: the other window moves, the first one is recorded, and
   * the undo moves nothing back.
   */
  lemma FocusChangesBetween(lands: nat -> NumberedId)
    ensures var other := Some("0x2");
      var acts := [ReadActive(Id(5), true, 0, ""), UserFocus(other), Move(0, 1, other, true), PushEntry(0)];
      var s := Run(Shared(State(PAIR, [], 64, []), []), acts);
      && s.tasks == [] && s.core.stack == [EntryFrom("0x1", 1)]
      && s.core.log == [PAIR.places]
      && OldestNumbered(s.core.stack)
      && UndoTimes(s.core, 1, lands, other).desk.places == map["0x1" := 1, "0x2" := 5]
  {
    hide Run, MoveActive, UndoTimes;
    var other, e := Some("0x2"), EntryFrom("0x1", 1);
    var init := Shared(State(PAIR, [], 64, []), []);
    RunFour(init, ReadActive(Id(5), true, 0, ""), UserFocus(other), Move(0, 1, other, true), PushEntry(0));
    MoveLands(PAIR.(focus := other), 5, 1, other);
    var places := map["0x1" := 1, "0x2" := 5];
    assert PAIR.places["0x2" := 5] == places;
    var st := State(Desktop(places, other), [e], 64, [PAIR.places]);
    OneUndo(st, e, lands, other);
    assert places["0x1" := 1] == places;
  }

  // ---- a workspace below zero -------------------------------------------------------------------

  /** A window moved off a scratchpad (workspace -99) is not moved back: the undo, a relative move, lands elsewhere. */
  lemma ScratchpadNotUndone(lands: nat -> NumberedId)
    ensures var start := Desktop(map["0x1" := -99], Some("0x1"));
      var st := UndoMoves.Run(State(start, [], 64, []), [Record(Id(2), true, 1, Some("0x1"), true, 0, "")]);
      && st.stack == [EntryFrom("0x1", -99)]
      && UndoTimes(st, 1, lands, Some("0x1")).desk.places == map["0x1" := lands(0) as i32]
      && UndoTimes(st, 1, lands, Some("0x1")).desk.places != start.places
  {
    hide UndoMoves.Run, MoveActive, UndoTimes;
    var stay := Some("0x1");
    var start := Desktop(map["0x1" := -99], stay);
    var init := State(start, [], 64, []);
    OneStep(init, Record(Id(2), true, 1, stay, true, 0, ""));
    MoveLands(start, 2, 1, stay);
    var e := EntryFrom("0x1", -99);
    var st := State(Desktop(map["0x1" := 2], stay), [e], 64, [start.places]);
    assert start.places["0x1" := 2] == map["0x1" := 2];
    assert UndoMoves.Next(init, Record(Id(2), true, 1, stay, true, 0, "")) == st;
    OneUndo(st, e, lands, stay);
    var after := map["0x1" := 2 as i32]["0x1" := lands(0) as i32];
    assert after == map["0x1" := lands(0) as i32];
    assert after["0x1"] != start.places["0x1"];
  }
}
