/** The daemon's bounded undo stack and its file. */
module UndoStack {
  import opened Wrappers
  import opened Selectors

  datatype InverseAction =
    | Spawn(command: string)
    | MoveBack(selector: WindowSelector, workspace: WorkspaceRef, silent: bool)

  datatype UndoEntry = UndoEntry(timestamp: int, description: string, inverse: InverseAction)

  // ---- the stack as a value; the newest entry is the last -----------------------------------

  function Pushed<T>(entries: seq<T>, capacity: nat, e: T): seq<T> {
    (if |entries| == capacity && entries != [] then entries[1..] else entries) + [e]
  }

  function Popped<T>(entries: seq<T>): (seq<T>, Option<T>) {
    if entries == [] then (entries, None) else (entries[..|entries| - 1], Some(entries[|entries| - 1]))
  }

  /** The newest `capacity` entries. */
  function Trimmed<T>(entries: seq<T>, capacity: nat): seq<T> {
    if |entries| > capacity then entries[|entries| - capacity..] else entries
  }

  // ---- the file -------------------------------------------------------------------------------

  /** File contents: a whole serialised stack, or bytes that do not parse. */
  datatype Content<T> = Json(entries: seq<T>) | Garbage

  datatype LoadOutcome = Loaded(count: nat) | Empty | Corrupt

  class Disk {
    var file: Option<Content<UndoEntry>>
    var tmp: Option<Content<UndoEntry>>
    /** Whether writes currently succeed. */
    var writable: bool

    constructor (file: Option<Content<UndoEntry>>)
      ensures this.file == file && tmp == None && writable
    {
      this.file, tmp, writable := file, None, true;
    }
  }

  class UndoStack {
    var entries: seq<UndoEntry>
    const capacity: nat
    var disk: Disk?

    constructor (capacity: nat)
      ensures entries == [] && this.capacity == capacity && disk == null
    {
      entries, disk := [], null;
      this.capacity := capacity;
    }

    method EnablePersistence(path: Disk) returns (outcome: LoadOutcome)
      modifies this
      ensures disk == path && path.file == old(path.file)
      ensures outcome == match path.file
                         case None => LoadOutcome.Empty
                         case Some(Garbage) => Corrupt
                         case Some(Json(saved)) => Loaded(|entries|)
      ensures entries == if path.file.Some? && path.file.value.Json?
                         then Trimmed(path.file.value.entries, capacity) else old(entries)
    {
      match path.file {
        case None => outcome := LoadOutcome.Empty;
        case Some(Garbage) => outcome := Corrupt;
        case Some(Json(saved)) =>
          entries := saved;
          while |entries| > capacity
            invariant |entries| <= |saved| && entries == saved[|saved| - |entries|..]
            invariant |saved| <= capacity ==> entries == saved
            invariant |saved| > capacity ==> |entries| >= capacity
          {
            entries := entries[1..];
          }
          outcome := Loaded(|entries|);
      }
      disk := path;
    }

    /** Best effort: the stack is written beside the file and renamed over it; errors are swallowed. */
    method Persist()
      modifies disk
      ensures disk != null ==> disk.writable == old(disk.writable)
      ensures disk != null && old(disk.writable) ==> disk.file == Some(Json(entries)) && disk.tmp == None
      ensures disk != null && !old(disk.writable) ==> disk.file == old(disk.file) && disk.tmp == old(disk.tmp)
    {
      if disk == null || !disk.writable {
        return;
      }
      disk.tmp := Some(Json(entries));
      disk.file, disk.tmp := disk.tmp, None;
    }

    method Push(e: UndoEntry)
      modifies this`entries, disk
      ensures entries == Pushed(old(entries), capacity, e)
      ensures disk != null && old(disk.writable) ==> disk.file == Some(Json(entries))
      ensures disk != null && !old(disk.writable) ==> disk.file == old(disk.file)
    {
      if |entries| == capacity && entries != [] {
        entries := entries[1..];
      }
      entries := entries + [e];
      Persist();
    }

    method Pop() returns (out: Option<UndoEntry>)
      modifies this`entries, disk
      ensures (entries, out) == Popped(old(entries))
      ensures disk != null && old(disk.writable) && out.Some? ==> disk.file == Some(Json(entries))
      ensures disk != null && (!old(disk.writable) || out.None?) ==> disk.file == old(disk.file)
    {
      if entries == [] {
        return None;
      }
      out := Some(entries[|entries| - 1]);
      entries := entries[..|entries| - 1];
      Persist();
    }

    /** What `undo_list` shows: newest first, numbered from zero. */
    method List() returns (list: seq<(nat, UndoEntry)>)
      ensures list == Listed(entries)
    {
      list := [];
      for i := 0 to |entries|
        invariant list == Listed(entries)[..i]
      {
        list := list + [(i, entries[|entries| - 1 - i])];
      }
    }
  }

  function Listed<T>(entries: seq<T>): (r: seq<(nat, T)>)
    ensures |r| == |entries|
    ensures forall i | 0 <= i < |r| :: r[i] == (i, entries[|entries| - 1 - i])
  {
    seq(|entries|, i requires 0 <= i < |entries| => (i, entries[|entries| - 1 - i]))
  }

  // ---- the bounded stack against an unbounded one ---------------------------------------------

  datatype Op<T> = Push(e: T) | Pop

  function Run<T>(entries: seq<T>, capacity: nat, ops: seq<Op<T>>): seq<T>
    decreases |ops|
  {
    if ops == [] then entries
    else match ops[0]
      case Push(e) => Run(Pushed(entries, capacity, e), capacity, ops[1..])
      case Pop => Run(Popped(entries).0, capacity, ops[1..])
  }

  /** What the pops of a run return. */
  function Returned<T>(entries: seq<T>, capacity: nat, ops: seq<Op<T>>): seq<Option<T>>
    decreases |ops|
  {
    if ops == [] then []
    else match ops[0]
      case Push(e) => Returned(Pushed(entries, capacity, e), capacity, ops[1..])
      case Pop => [Popped(entries).1] + Returned(Popped(entries).0, capacity, ops[1..])
  }

  /** The same operations on a stack that never forgets. */
  function History<T>(entries: seq<T>, ops: seq<Op<T>>): seq<T>
    decreases |ops|
  {
    if ops == [] then entries
    else match ops[0]
      case Push(e) => History(entries + [e], ops[1..])
      case Pop => History(Popped(entries).0, ops[1..])
  }

  function HistoryReturned<T>(entries: seq<T>, ops: seq<Op<T>>): seq<Option<T>>
    decreases |ops|
  {
    if ops == [] then []
    else match ops[0]
      case Push(e) => HistoryReturned(entries + [e], ops[1..])
      case Pop => [Popped(entries).1] + HistoryReturned(Popped(entries).0, ops[1..])
  }

  predicate IsSuffix<T(==)>(s: seq<T>, of: seq<T>) {
    |s| <= |of| && s == of[|of| - |s|..]
  }

  /**
   * The stack refines an unbounded one: it always holds the newest entries of the full history, never more than
   * `capacity`, and every pop that returns an entry returns the one the full history would.
   */
  lemma {:induction false} RefinesHistory<T>(entries: seq<T>, history: seq<T>, capacity: nat, ops: seq<Op<T>>)
    requires capacity >= 1 && IsSuffix(entries, history) && |entries| <= capacity
    ensures IsSuffix(Run(entries, capacity, ops), History(history, ops))
    ensures |Run(entries, capacity, ops)| <= capacity
    ensures var got, full := Returned(entries, capacity, ops), HistoryReturned(history, ops);
      |got| == |full| && forall k | 0 <= k < |got| && got[k].Some? :: got[k] == full[k]
    decreases |ops|
  {
    if ops != [] {
      match ops[0]
      case Push(e) => RefinesHistory(Pushed(entries, capacity, e), history + [e], capacity, ops[1..]);
      case Pop => RefinesHistory(Popped(entries).0, Popped(history).0, capacity, ops[1..]);
    }
  }

  /** The bound holds for all operation sequences exactly when the capacity is at least one. */
  lemma BoundedExactly<T(!new)>(capacity: nat, e: T)
    ensures (forall ops: seq<Op<T>> :: |Run([], capacity, ops)| <= capacity) <==> capacity >= 1
  {
    if capacity >= 1 {
      forall ops: seq<Op<T>> ensures |Run([], capacity, ops)| <= capacity {
        RefinesHistory([], [], capacity, ops);
      }
    } else {
      var ops: seq<Op<T>> := [Push(e)];
      assert ops[1..] == [];
      assert Run([], capacity, ops) == [e];
    }
  }

  function PopTimes<T>(entries: seq<T>, n: nat): seq<T> {
    if n == 0 then entries else PopTimes(Popped(entries).0, n - 1)
  }

  /** Entry `i` of the list is what the undo after `i` others returns. */
  lemma {:induction false} ListPredictsUndo<T>(entries: seq<T>, i: nat)
    requires i < |entries|
    ensures Popped(PopTimes(entries, i)).1 == Some(Listed(entries)[i].1)
    ensures Listed(entries)[i].0 == i
  {
    if i > 0 { ListPredictsUndo(Popped(entries).0, i - 1); }
  }

  /** What loading keeps is the newest end of the file, as much as fits. */
  lemma TrimmedNewest<T>(entries: seq<T>, capacity: nat)
    ensures IsSuffix(Trimmed(entries, capacity), entries)
    ensures |Trimmed(entries, capacity)| == if |entries| < capacity then |entries| else capacity
  {
  }
}
