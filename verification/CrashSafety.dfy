/**
 * The undo stack over crashes and restarts. An operation changes memory, then writes the stack to a temporary
 * file and renames it over the real one; a crash may fall between any two of these, or tear the write.
 * Entries are known by serial numbers, one per push.
 */
module CrashSafety {
  import opened Wrappers
  import opened UndoStack

  /** Where the operation in progress has got to; `before` is the stack it started from. */
  datatype Job =
    | Idle
    | Saving(before: seq<nat>, out: Option<nat>)

  datatype State = State(
    capacity: nat,
    up: bool,
    mem: seq<nat>,
    file: Option<Content<nat>>,
    tmp: Option<Content<nat>>,
    job: Job,
    handing: seq<nat>,
    applied: seq<nat>,
    next: nat)

  datatype Step =
    | PushEntry
    | PopEntry
    | TearTmp
    | WriteTmp
    | Rename
    | SaveFails
    | HandOver(which: nat)
    | Crash
    | Restart

  function Initial(capacity: nat): State {
    State(capacity, false, [], None, None, Idle, [], [], 0)
  }

  function Saved(file: Option<Content<nat>>): seq<nat> {
    if file.Some? && file.value.Json? then file.value.entries else []
  }

  /** The stack a restart would load now. */
  function Reload(st: State): seq<nat> {
    Trimmed(Saved(st.file), st.capacity)
  }

  /** The end of an operation: what it popped may now be handed to the compositor. */
  function Finish(st: State): State
    requires st.job.Saving?
  {
    st.(job := Idle, handing := if st.job.out.Some? then st.handing + [st.job.out.value] else st.handing)
  }

  /** A step that is not possible in the state changes nothing. */
  function Next(st: State, step: Step): State {
    match step
    case PushEntry =>
      if !st.up || st.job.Saving? then st
      else st.(mem := Pushed(st.mem, st.capacity, st.next), job := Saving(st.mem, None), next := st.next + 1)
    case PopEntry =>
      if !st.up || st.job.Saving? || st.mem == [] then st
      else st.(mem := Popped(st.mem).0, job := Saving(st.mem, Popped(st.mem).1))
    case TearTmp => if st.up && st.job.Saving? then st.(tmp := Some(Garbage)) else st
    case WriteTmp => if st.up && st.job.Saving? then st.(tmp := Some(Json(st.mem))) else st
    case Rename =>
      if st.up && st.job.Saving? && st.tmp == Some(Json(st.mem)) then Finish(st.(file := st.tmp, tmp := None)) else st
    case SaveFails => if st.up && st.job.Saving? then Finish(st) else st
    case HandOver(k) =>
      if st.up && k < |st.handing|
      then st.(applied := st.applied + [st.handing[k]], handing := st.handing[..k] + st.handing[k + 1..]) else st
    case Crash => st.(up := false, mem := [], job := Idle, handing := [])
    case Restart => if st.up then st else st.(up := true, mem := Reload(st))
  }

  function Run(st: State, steps: seq<Step>): State
    decreases |steps|
  {
    if steps == [] then st else Run(Next(st, steps[0]), steps[1..])
  }

  // ---- the file -------------------------------------------------------------------------------

  /** No write of the stack fails short of a crash. */
  predicate AllSaved(steps: seq<Step>) {
    SaveFails !in steps
  }

  /** The file is whole, and holds the stack from before or after the operation in progress. */
  predicate FileAgrees(st: State) {
    && (st.file.Some? ==> st.file.value.Json?)
    && (st.up ==> Reload(st) == if st.job.Saving? then st.job.before else st.mem)
    && (st.up ==> |st.mem| <= st.capacity)
    && (!st.up ==> st.job.Idle?)
  }

  lemma FileAgreesStep(st: State, step: Step)
    requires FileAgrees(st) && step != SaveFails && st.capacity >= 1
    ensures FileAgrees(Next(st, step))
  {
    match step
    case PushEntry =>
    case PopEntry =>
    case Rename =>
      if st.up && st.job.Saving? && st.tmp == Some(Json(st.mem)) {
        assert Saved(Next(st, Rename).file) == st.mem;
      }
    case _ =>
  }

  lemma {:induction false} FileAgreesRun(st: State, steps: seq<Step>)
    requires FileAgrees(st) && AllSaved(steps) && st.capacity >= 1
    ensures FileAgrees(Run(st, steps))
    decreases |steps|
  {
    if steps != [] {
      FileAgreesStep(st, steps[0]);
      FileAgreesRun(Next(st, steps[0]), steps[1..]);
    }
  }

  /**
   * In every run with no failing save, crashes anywhere included, the file is never torn, and restarting would
   * load exactly the stack from before the operation in progress or, once it is renamed, the current one.
   */
  lemma CrashSafeFile(capacity: nat, steps: seq<Step>)
    requires capacity >= 1 && AllSaved(steps)
    ensures var st := Run(Initial(capacity), steps);
      && (st.file.Some? ==> st.file.value.Json?)
      && (st.up && st.job.Idle? ==> Reload(st) == st.mem)
      && (st.up && st.job.Saving? ==> Reload(st) == st.job.before)
      && (st.up ==> Next(Next(st, Crash), Restart).mem == if st.job.Saving? then st.job.before else st.mem)
  {
    FileAgreesRun(Initial(capacity), steps);
  }

  // ---- nothing is undone twice -----------------------------------------------------------------

  /** No save of a pop fails; saves of pushes may. */
  predicate PopsSaved(st: State, steps: seq<Step>)
    decreases |steps|
  {
    steps == []
    || ((steps[0] == SaveFails && st.up && st.job.Saving? ==> st.job.out.None?)
        && PopsSaved(Next(st, steps[0]), steps[1..]))
  }

  predicate NoRepeat(s: seq<nat>) {
    forall i, j | 0 <= i < j < |s| :: s[i] != s[j]
  }

  predicate Apart(s: seq<nat>, t: seq<nat>) {
    forall x | x in s :: x !in t
  }

  /** The entries on their way out: popped, handed over next, and already applied. */
  function Gone(st: State): seq<nat> {
    st.applied + st.handing
  }

  /** What the operation in progress has popped. */
  function InHand(st: State): seq<nat> {
    if st.job.Saving? && st.job.out.Some? then [st.job.out.value] else []
  }

  predicate Below(s: seq<nat>, n: nat) {
    forall x | x in s :: x < n
  }

  /** Serial numbers are fresh: no stack holds one twice, and what is popped is no longer in memory. */
  predicate Fresh(st: State) {
    && NoRepeat(st.mem) && NoRepeat(Saved(st.file)) && Apart(InHand(st), st.mem)
    && (!st.up ==> st.job.Idle? && st.mem == [] && st.handing == [])
    && Below(st.applied, st.next) && Below(st.handing, st.next) && Below(st.mem, st.next)
    && Below(Saved(st.file), st.next) && Below(InHand(st), st.next)
  }

  /** Nothing that is gone, or goes next, is there to be popped again, in memory or after a restart. */
  predicate Separate(st: State) {
    && NoRepeat(Gone(st))
    && Apart(Gone(st), st.mem) && Apart(Gone(st), Reload(st)) && Apart(InHand(st), Gone(st))
  }

  predicate OnceOnly(st: State) {
    Fresh(st) && Separate(st)
  }

  lemma FreshPush(st: State)
    requires Fresh(st) && st.up && st.job.Idle?
    ensures Fresh(Next(st, PushEntry))
    ensures forall x | x in Next(st, PushEntry).mem :: x in st.mem || x == st.next
  {
    var st' := Next(st, PushEntry);
    forall x | x in st'.mem ensures x in st.mem || x == st.next {}
    assert st.next !in st.mem;
    forall i, j | 0 <= i < j < |st'.mem| ensures st'.mem[i] != st'.mem[j] {
      var shift := |st.mem| + 1 - |st'.mem|;
      assert st'.mem[i] == st.mem[i + shift];
      if j + shift < |st.mem| { assert st'.mem[j] == st.mem[j + shift]; } else { assert st'.mem[j] == st.next; }
    }
  }

  lemma FreshPop(st: State)
    requires Fresh(st) && st.up && st.job.Idle? && st.mem != []
    ensures Fresh(Next(st, PopEntry))
    ensures forall x | x in Next(st, PopEntry).mem :: x in st.mem
  {
    var st' := Next(st, PopEntry);
    forall x | x in st'.mem ensures x in st.mem && x != st.mem[|st.mem| - 1] {}
    assert st.mem[|st.mem| - 1] in st.mem;
  }

  lemma FreshFinish(st: State)
    requires Fresh(st) && st.up && st.job.Saving?
    ensures Fresh(Finish(st)) && Gone(Finish(st)) == Gone(st) + InHand(st)
  {
  }

  lemma FreshHandOver(st: State, k: nat)
    requires Fresh(st) && st.up && k < |st.handing|
    ensures Fresh(Next(st, HandOver(k)))
  {
    var st' := Next(st, HandOver(k));
    assert st.handing[k] in st.handing;
    forall x | x in st'.applied ensures x in st.applied || x in st.handing {}
    forall x | x in st'.handing ensures x in st.handing {}
  }

  /** Fresh numbers stay fresh whatever happens, failing saves included. */
  lemma FreshStep(st: State, step: Step)
    requires Fresh(st)
    ensures Fresh(Next(st, step))
  {
    match step
    case PushEntry => if st.up && st.job.Idle? { FreshPush(st); }
    case PopEntry => if st.up && st.job.Idle? && st.mem != [] { FreshPop(st); }
    case Restart => forall x | x in Reload(st) ensures x in Saved(st.file) {}
    case HandOver(k) => if st.up && k < |st.handing| { FreshHandOver(st, k); }
    case Rename =>
      if st.up && st.job.Saving? && st.tmp == Some(Json(st.mem)) { FreshFinish(st.(file := st.tmp, tmp := None)); }
    case SaveFails => if st.up && st.job.Saving? { FreshFinish(st); }
    case _ =>
  }

  lemma {:induction false} FreshRun(st: State, steps: seq<Step>)
    requires Fresh(st)
    ensures Fresh(Run(st, steps))
    decreases |steps|
  {
    hide Fresh, Next;
    if steps != [] {
      FreshStep(st, steps[0]);
      FreshRun(Next(st, steps[0]), steps[1..]);
    }
  }

  lemma SeparateFinish(st: State)
    requires OnceOnly(st) && st.up && st.job.Saving?
    requires Apart(InHand(st), Reload(st))
    ensures Separate(Finish(st))
  {
    FreshFinish(st);
    assert Gone(Finish(st)) == Gone(st) + InHand(st);
    if st.job.out.Some? { assert st.job.out.value in InHand(st); }
  }

  lemma MovedForward(a: seq<nat>, h: seq<nat>, k: nat)
    requires k < |h| && NoRepeat(a + h)
    ensures var moved := (a + [h[k]]) + (h[..k] + h[k + 1..]);
      NoRepeat(moved) && forall x | x in moved :: x in a + h
  {
    var moved, n := (a + [h[k]]) + (h[..k] + h[k + 1..]), |a|;
    assert |moved| == |a + h|;
    forall i | 0 <= i < |moved|
      ensures moved[i] == (a + h)[if i < n then i else if i == n then n + k else if i <= n + k then i - 1 else i]
    {
    }
  }

  lemma SeparateHandOver(st: State, k: nat)
    requires Separate(st) && st.up && k < |st.handing|
    ensures Separate(Next(st, HandOver(k)))
  {
    hide NoRepeat;
    MovedForward(st.applied, st.handing, k);
  }

  lemma SeparateRename(st: State)
    requires OnceOnly(st) && st.up && st.job.Saving? && st.tmp == Some(Json(st.mem))
    ensures Separate(Next(st, Rename))
  {
    var st' := st.(file := st.tmp, tmp := None);
    forall x | x in Reload(st') ensures x in st.mem {}
    SeparateFinish(st');
  }

  lemma SeparatePush(st: State)
    requires OnceOnly(st) && st.up && st.job.Idle?
    ensures Separate(Next(st, PushEntry))
  {
    hide NoRepeat, Pushed;
    FreshPush(st);
    var st' := Next(st, PushEntry);
    assert Gone(st') == Gone(st) && Reload(st') == Reload(st) && InHand(st') == [];
    forall x | x in Gone(st) ensures x != st.next { assert x in st.applied || x in st.handing; }
  }

  lemma SeparatePop(st: State)
    requires OnceOnly(st) && st.up && st.job.Idle? && st.mem != []
    ensures Separate(Next(st, PopEntry))
  {
    hide NoRepeat;
    FreshPop(st);
    assert st.mem[|st.mem| - 1] in st.mem;
  }

  lemma SeparateCrash(st: State)
    requires Separate(st)
    ensures Separate(Next(st, Crash))
  {
    var st' := Next(st, Crash);
    assert Gone(st') == st.applied;
    forall x | x in st.applied ensures x in Gone(st) {}
    forall i | 0 <= i < |st.applied| ensures st.applied[i] == Gone(st)[i] {}
  }

  lemma OnceOnlyStep(st: State, step: Step)
    requires OnceOnly(st)
    requires step == SaveFails && st.up && st.job.Saving? ==> st.job.out.None?
    ensures OnceOnly(Next(st, step))
  {
    FreshStep(st, step);
    match step
    case PushEntry => if st.up && st.job.Idle? { SeparatePush(st); }
    case PopEntry => if st.up && st.job.Idle? && st.mem != [] { SeparatePop(st); }
    case Crash => SeparateCrash(st);
    case HandOver(k) => if st.up && k < |st.handing| { SeparateHandOver(st, k); }
    case Rename => if st.up && st.job.Saving? && st.tmp == Some(Json(st.mem)) { SeparateRename(st); }
    case SaveFails => if st.up && st.job.Saving? { SeparateFinish(st); }
    case _ =>
  }

  lemma {:induction false} OnceOnlyRun(st: State, steps: seq<Step>)
    requires OnceOnly(st) && PopsSaved(st, steps)
    ensures OnceOnly(Run(st, steps))
    decreases |steps|
  {
    if steps != [] {
      OnceOnlyStep(st, steps[0]);
      OnceOnlyRun(Next(st, steps[0]), steps[1..]);
    }
  }

  lemma OnceOnlyApplied(st: State, steps: seq<Step>)
    requires OnceOnly(st) && PopsSaved(st, steps)
    ensures NoRepeat(Run(st, steps).applied)
  {
    OnceOnlyRun(st, steps);
    var st' := Run(st, steps);
    forall i | 0 <= i < |st'.applied| ensures st'.applied[i] == Gone(st')[i] {}
  }

  /**
   * No entry is handed to the compositor twice, over any number of crashes and restarts, provided the saves
   * that follow a pop succeed; saves after a push may fail.
   */
  lemma NothingAppliedTwice(capacity: nat, steps: seq<Step>)
    requires PopsSaved(Initial(capacity), steps)
    ensures NoRepeat(Run(Initial(capacity), steps).applied)
  {
    OnceOnlyApplied(Initial(capacity), steps);
  }

  // ---- exactly when a repeat can come -----------------------------------------------------------

  lemma {:induction false} RunConcat(st: State, a: seq<Step>, b: seq<Step>)
    ensures Run(st, a + b) == Run(Run(st, a), b)
    ensures PopsSaved(st, a + b) <==> PopsSaved(st, a) && PopsSaved(Run(st, a), b)
    decreases |a|
  {
    hide Next;
    if a == [] {
      assert a + b == b;
    } else {
      assert (a + b)[0] == a[0] && (a + b)[1..] == a[1..] + b;
      RunConcat(Next(st, a[0]), a[1..], b);
    }
  }

  lemma OneStep(st: State, step: Step)
    requires step != SaveFails
    ensures Run(st, [step]) == Next(st, step) && PopsSaved(st, [step])
  {
    hide Next;
    assert [step][1..] == [];
    assert Run(Next(st, step), []) == Next(st, step) && PopsSaved(Next(st, step), []);
  }

  lemma FirstHanded(st: State)
    requires st.up && st.handing != []
    ensures var next := Next(st, HandOver(0));
      next == st.(applied := st.applied + [st.handing[0]], handing := st.handing[1..]) && Gone(next) == Gone(st)
  {
    assert [st.handing[0]] + st.handing[1..] == st.handing;
    assert st.handing[..0] + st.handing[1..] == st.handing[1..];
  }

  /** Hand over everything that waits. */
  lemma {:induction false} HandAll(st: State) returns (steps: seq<Step>)
    requires st.up
    ensures PopsSaved(st, steps) && Run(st, steps) == st.(applied := Gone(st), handing := [])
    decreases |st.handing|
  {
    if st.handing == [] {
      assert st.applied + [] == st.applied;
      return [];
    }
    FirstHanded(st);
    hide Next, Gone;
    var rest := HandAll(Next(st, HandOver(0)));
    OneStep(st, HandOver(0));
    RunConcat(st, [HandOver(0)], rest);
    steps := [HandOver(0)] + rest;
  }

  /** The save in progress goes through. */
  lemma SaveNow(st: State) returns (steps: seq<Step>)
    requires st.up && st.job.Saving?
    ensures PopsSaved(st, steps)
    ensures Run(st, steps) == Finish(st.(file := Some(Json(st.mem)), tmp := None))
  {
    steps := [WriteTmp] + [Rename];
    OneStep(st, WriteTmp);
    OneStep(Next(st, WriteTmp), Rename);
    RunConcat(st, [WriteTmp], [Rename]);
  }

  function Backwards(s: seq<nat>): (r: seq<nat>)
    ensures forall x :: x in s <==> x in r
  {
    if s == [] then [] else [s[|s| - 1]] + Backwards(s[..|s| - 1])
  }

  /** Pop everything, each pop saved. */
  lemma {:induction false} PopAll(st: State) returns (steps: seq<Step>)
    requires st.up && st.job.Idle?
    ensures PopsSaved(st, steps)
    ensures var st' := Run(st, steps);
      st'.up && st'.job.Idle? && st'.applied == st.applied && st'.handing == st.handing + Backwards(st.mem)
    decreases |st.mem|
  {
    if st.mem == [] {
      assert st.handing + Backwards([]) == st.handing;
      return [];
    }
    var last := st.mem[|st.mem| - 1];
    var popped := Next(st, PopEntry);
    OneStep(st, PopEntry);
    var save := SaveNow(popped);
    var saved := Run(popped, save);
    assert saved.handing == st.handing + [last] && saved.mem == st.mem[..|st.mem| - 1];
    var rest := PopAll(saved);
    RunConcat(popped, save, rest);
    RunConcat(st, [PopEntry], save + rest);
    steps := [PopEntry] + (save + rest);
    assert st.handing + [last] + Backwards(saved.mem) == st.handing + Backwards(st.mem);
  }

  /** Everything within reach, handed over without a failing save. */
  lemma Drain(st: State) returns (steps: seq<Step>)
    requires st.up
    ensures PopsSaved(st, steps) && Run(st, steps).applied == Gone(st) + (InHand(st) + Backwards(st.mem))
  {
    var save: seq<Step> := [];
    if st.job.Saving? { save := SaveNow(st); }
    var idle := Run(st, save);
    hide Next;
    assert Gone(idle) == Gone(st) + InHand(st);
    var pop := PopAll(idle);
    var popped := Run(idle, pop);
    var hand := HandAll(popped);
    RunConcat(idle, pop, hand);
    RunConcat(st, save, pop + hand);
    steps := save + (pop + hand);
    assert Gone(popped) == Gone(idle) + Backwards(st.mem);
  }

  /** The same after a crash and a restart. */
  lemma DrainReloaded(st: State) returns (steps: seq<Step>)
    requires Fresh(st)
    ensures PopsSaved(st, steps) && Run(st, steps).applied == Gone(st) + Backwards(Reload(st))
  {
    var off, down := st, [];
    if st.up {
      var hand := HandAll(st);
      var handed := Run(st, hand);
      OneStep(handed, Crash);
      RunConcat(st, hand, [Crash]);
      off, down := Next(handed, Crash), hand + [Crash];
    }
    assert Run(st, down) == off && PopsSaved(st, down) && !off.up && Gone(off) == Gone(st) && off.file == st.file;
    OneStep(off, Restart);
    var on := Next(off, Restart);
    assert Gone(on) == Gone(st) && InHand(on) == [] && on.mem == Reload(st);
    var drain := Drain(on);
    RunConcat(off, [Restart], drain);
    RunConcat(st, down, [Restart] + drain);
    steps := down + ([Restart] + drain);
    assert [] + Backwards(on.mem) == Backwards(on.mem);
  }

  lemma Overlap(a: seq<nat>, b: seq<nat>)
    requires !NoRepeat(a) || !Apart(a, b)
    ensures !NoRepeat(a + b)
  {
    if !NoRepeat(a) {
      var i, j :| 0 <= i < j < |a| && a[i] == a[j];
      assert (a + b)[i] == (a + b)[j];
    } else {
      var x :| x in a && x in b;
      var i :| 0 <= i < |a| && a[i] == x;
      var j :| 0 <= j < |b| && b[j] == x;
      assert (a + b)[i] == (a + b)[|a| + j];
    }
  }

  /** From here, with no failing save of a pop any more, some entry can still be handed over twice. */
  ghost predicate CanRepeat(st: State) {
    exists steps :: PopsSaved(st, steps) && !NoRepeat(Run(st, steps).applied)
  }

  /**
   * After any past, failing saves included, a repeat can still come exactly when one is under way already, or an
   * entry that is gone is there to be popped: in memory, in the operation in progress, or in what a restart loads.
   */
  lemma RepeatExactly(capacity: nat, past: seq<Step>)
    ensures var st := Run(Initial(capacity), past);
      CanRepeat(st) <==> !Separate(st)
  {
    var st := Run(Initial(capacity), past);
    FreshRun(Initial(capacity), past);
    if Separate(st) {
      forall steps | PopsSaved(st, steps) ensures NoRepeat(Run(st, steps).applied) { OnceOnlyApplied(st, steps); }
    } else if st.up && (!NoRepeat(Gone(st)) || !Apart(Gone(st), st.mem) || !Apart(InHand(st), Gone(st))) {
      var steps := Drain(st);
      if !Apart(InHand(st), Gone(st)) {
        var x :| x in InHand(st) && x in Gone(st);
        assert x in InHand(st) + Backwards(st.mem);
      } else if !Apart(Gone(st), st.mem) {
        var x :| x in Gone(st) && x in st.mem;
        assert x in InHand(st) + Backwards(st.mem);
      }
      Overlap(Gone(st), InHand(st) + Backwards(st.mem));
    } else {
      var steps := DrainReloaded(st);
      Overlap(Gone(st), Backwards(Reload(st)));
    }
  }

  /** An operation whose save goes through. */
  function SavedOp(st: State, op: Step): State {
    Next(Next(Next(st, op), WriteTmp), Rename)
  }

  /** The daemon has crashed with `[0]` in its file, after the entries in `applied` were handed over. */
  function Crashed(capacity: nat, applied: seq<nat>): State {
    State(capacity, false, [], Some(Json([0])), None, Idle, [], applied, 1)
  }

  lemma OneEntry(capacity: nat, e: nat)
    requires capacity >= 1
    ensures Pushed([], capacity, e) == [e] && Popped([e]) == ([], Some(e))
    ensures Trimmed([e], capacity) == [e] && Trimmed<nat>([], capacity) == []
  {
  }

  lemma FirstPush(capacity: nat)
    requires capacity >= 1
    ensures SavedOp(Next(Initial(capacity), Restart), PushEntry)
         == State(capacity, true, [0], Some(Json([0])), None, Idle, [], [], 1)
  {
    hide Pushed, Popped, Trimmed;
    OneEntry(capacity, 0);
    assert Next(Initial(capacity), Restart) == State(capacity, true, [], None, None, Idle, [], [], 0);
  }

  lemma FirstHandOver(capacity: nat)
    requires capacity >= 1
    ensures var pushed := SavedOp(Next(Initial(capacity), Restart), PushEntry);
      Next(Next(Next(Next(pushed, PopEntry), SaveFails), HandOver(0)), Crash) == Crashed(capacity, [0])
  {
    hide Pushed, Popped, Trimmed, SavedOp;
    OneEntry(capacity, 0);
    FirstPush(capacity);
    var pushed := SavedOp(Next(Initial(capacity), Restart), PushEntry);
    var unsaved := Next(Next(pushed, PopEntry), SaveFails);
    assert unsaved == State(capacity, true, [], Some(Json([0])), None, Idle, [0], [], 1);
  }

  lemma SecondHandOver(capacity: nat)
    requires capacity >= 1
    ensures Next(SavedOp(Next(Crashed(capacity, [0]), Restart), PopEntry), HandOver(0)).applied == [0, 0]
  {
    hide Pushed, Popped, Trimmed;
    OneEntry(capacity, 0);
    var again := Next(Crashed(capacity, [0]), Restart);
    assert again == State(capacity, true, [0], Some(Json([0])), None, Idle, [], [0], 1);
    var popped := SavedOp(again, PopEntry);
    assert popped == State(capacity, true, [], Some(Json([])), None, Idle, [0], [0], 1);
  }

  /** The proviso is needed: a pop whose save fails is undone again after a crash. */
  lemma FailedSaveRepeats(capacity: nat)
    requires capacity >= 1
    ensures var pushed := SavedOp(Next(Initial(capacity), Restart), PushEntry);
      var crashed := Next(Next(Next(Next(pushed, PopEntry), SaveFails), HandOver(0)), Crash);
      var again := Next(SavedOp(Next(crashed, Restart), PopEntry), HandOver(0));
      crashed.applied == [0] && again.applied == [0, 0]
  {
    hide Next, SavedOp;
    FirstHandOver(capacity);
    SecondHandOver(capacity);
  }
}
