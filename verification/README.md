# HyprPilot: a verified model of its core

HyprPilot drives the Hyprland compositor for scripts and assistants: it snapshots and restores desktops, caches the
compositor's state in a daemon, walks accessibility trees, records undoable operations, fires rules on events, and
clicks on text found in screenshots. This project models the parts of it that hold state, loops and arithmetic, and
proves what they are for. `dafny verify dfyconfig.toml` checks all of it.

## What is proved

- **Snapshot restore** (`Snapshots`, `Matching`, `Compositor`, `Restore`, `Preview`). The greedy three-tier matcher,
  the diff in restore order, the applier against an abstract compositor, and the dry-run preview. Running a diff on any
  desktop leaves a second diff with no mutation exactly when the first moves no window to a negative workspace id. Any
  failure stays with its window.
- **World-model cache** (`Cache`, `CacheRuns`, `CacheCoherence`, `CacheStaleness`). The cache beside a compositor that
  announces its changes over an ordered socket. Unless a cached value misses a change announced after it was composed,
  replaying the queue over it gives the compositor's own value; with the subscription first and every query stored at
  once it misses none. The age bound holds in every run.
- **Accessibility walk** (`Walk`). The explicit-stack walk over any graph, cyclic ones included, returns a prefix of
  the recursive preorder, and the preorder lists exactly the nodes that bounded chains of child references lead to.
- **Undo** (`UndoStack`, `UndoMoves`, `UndoTasks`, `CrashSafety`, `Shell`). The bounded stack and its file refine an
  unbounded stack; when requests do not overlap, k undos restore the places from before the last k moves under an exact
  condition; the file survives crashes at any point; captured command lines tokenise back to the argument vector.
- **Rules engine** (`Engine`, `EngineRuns`). The reentrancy guard with its detached decrements bounds how often rules
  fire, in every interleaving; the event loop is a run of that state machine.
- **OCR and pointer** (`Boxes`, `Ocr`, `Pointer`, `ClickGeometry`). Phrase matching and the boxes it merges, the
  virtual-pointer worker's request stream, and the rounding from an image pixel to the pixel that is clicked.
- **Codecs** (`Decimal`, `Selectors`, `Events`, `Keys`, with the shared `Text`). Printers and parsers that undo each
  other, with the exact exceptions, and the key events of a chord.

Some promises turn out not to hold on all inputs. Each has the condition under which it holds, exact unless said
otherwise, and a lemma at a failing input:

- A workspace id below zero (Hyprland's special workspaces) is printed as a relative move, so a window recorded on a
  scratchpad is not restored (`Restore.RestoreConverges`, `Restore.ScratchpadNotRestored`,
  `Selectors.WorkspaceRoundTrip`) and a move away from one is not undone (`UndoMoves.UndosRestore`,
  `UndoTasks.ScratchpadNotUndone`).
- The daemon serves connections side by side, and a recorded move is not atomic: when two overlap, or the focus changes
  in the middle of one, an undo misses (`UndoTasks.OverlappingMoves`, `UndoTasks.FocusChangesBetween`). Requests that
  do not overlap are enough for the theorem (`UndoTasks.UndosRestoreInTurn`); they are not necessary.
- The daemon fills its cache before it subscribes to events, so a change in between goes unnoticed
  (`CacheCoherence.SeedRace`), as does one between a query's reply and its store (`CacheCoherence.LostInvalidation`); a
  title that does not fit a line of the socket is cached mangled (`CacheCoherence.MangledTitle`). What is enough for
  coherence is that none of the three happens to the cached list (`CacheCoherence.SlotsCoherent`).
- An event survives the socket exactly when its payload holds no newline and ends in no carriage return
  (`Events.LineRoundTrip`).
- An undo stack of capacity zero grows without bound (`UndoStack.BoundedExactly`, which pushes once). The daemon always
  passes 64 (`crates/hyprpilot-daemon/src/server.rs:34`), so only other callers of the constructor can meet this.
- A region-scoped click adds the region's origin twice, so it is right exactly for regions that start at zero
  (`ClickGeometry.ScopedClickExact`, `ClickGeometry.RegionAtHundred`). A full-screen click never adds the monitor's
  position, so it is right exactly for a monitor placed at zero (`ClickGeometry.FullClickExact`).
- The pointer's extents are not kept current: an output event that arrives while the worker waits takes effect after
  the next command (`Pointer.ExtentsKnown`, `Pointer.StaleExtents`).
- An entry can be undone twice after a crash if the save of its pop failed (`CrashSafety.FailedSaveRepeats`);
  `CrashSafety.RepeatExactly` tells the states from which that can still happen.
- A combo with the Super key is displayed as `logo`, which the parser refuses (`Keys.DisplayRoundTrip`,
  `Keys.SuperNotRedisplayed`).

Where comments and code disagree the model follows the code: the header of `snapshot.rs` says that geometry,
fullscreen, pin and focus are not restored, but `apply_diff` restores them; its own comment says that it returns the
actions attempted, but it reports every action; the header of `undo.rs` says that the stack lives in memory only, but
it is persisted; `virtual_pointer.rs` calls its extents a union box, but they are measured from the origin, and says
that output changes while idle are picked up before the next command, but the socket is read only in the round trip
that ends it.

## Assumptions about the compositor

- Window addresses are distinct, also up to a leading `0x`. `togglefloating` and `pin` are flips, `pin` is refused on a
  tiled window, exact moves and resizes do nothing on a tiled window, and each dispatcher changes only its own
  attribute. Whatever else can make a dispatch fail is an arbitrary oracle (`Compositor.World`).
- A relative workspace move lands on some numbered workspace; which one is an oracle.
- A change and the text that announces it are one step of the compositor, and the socket keeps the order of texts. A
  query's reply is composed at one instant and stored at a later one, within the request timeout of two seconds.
- Titles change with a `windowtitlev2` text that carries the title as it is. Any other announced change is of one of the
  kinds in `CacheRuns.Kind`, is written under that kind's event name, and changes no query's reply but those listed in
  `CacheRuns.Changes`.
- The accessibility bus and the set of writable paths do not change in the middle of one walk or one write.
- A rule's actions, parsing of action texts, and the delay of a decrement beyond its due time are arbitrary.

## Model

| member | source | states |
|---|---|---|
| Snapshots.DiffAgainst | crates/hyprpilot-core/src/snapshot.rs:454-539 | The diff loop computes `Diff`, of which Matching.DiffTells, Restore.BlockReaches and Restore.FocusRestored say what its actions are and achieve |
| Snapshots.EmitBlock | crates/hyprpilot-core/src/snapshot.rs:460-513 | The pushes for one pairing come out as workspace, floating, geometry, fullscreen, pin, each only under its guard, or as one missing report |
| Snapshots.CollectExtras | crates/hyprpilot-core/src/snapshot.rs:515-522 | The second loop reports exactly the unmatched live windows in live order |
| Snapshots.WindowActionsShape | crates/hyprpilot-core/src/snapshot.rs:465-503 | Every action emitted for a pairing changes the live window of that pairing and nothing else, and none is a refocus |
| Matching.DiffTells | crates/hyprpilot-core/src/snapshot.rs:454-539 | Every action of a diff tells the truth: a change names the paired live window's present state and the recorded one, which differ; a missing report a recorded window without counterpart; an extra report a live window; the refocus the recorded and the present focus |
| Matching.MatchExact | crates/hyprpilot-core/src/snapshot.rs:542-571 | For distinct live addresses the matcher returns a window if and only if it is the free one with the recorded address, else the only free one with the recorded positive pid, else the only free one with the recorded initial class, which is not empty, and title |
| Matching.MatchIsFree | crates/hyprpilot-core/src/snapshot.rs:542-571 | A match is a live window that no earlier snapshot window has taken |
| Matching.PairingInjective | crates/hyprpilot-core/src/snapshot.rs:455-464 | The matching is a partial injection: no live window is paired twice |
| Matching.MatchingConserves | crates/hyprpilot-core/src/snapshot.rs:454-522 | Missing plus matched is the number of snapshot windows, and extra plus matched the number of live windows |
| Matching.ExtrasShape | crates/hyprpilot-core/src/snapshot.rs:515-522 | An extra report is in the diff if and only if some live window with that address and class was not matched |
| Matching.PermutedDiff | crates/hyprpilot-core/src/snapshot.rs:454-539 | Permuting the live list changes only the order of the extra reports: window actions and refocus are equal, the rest is a permutation |
| Matching.AddressPreferred | crates/hyprpilot-core/src/snapshot.rs:547-550 | A free live window with the recorded address beats every fallback |
| Matching.MatchedByAddress | crates/hyprpilot-core/src/snapshot.rs:542-550 | If all recorded addresses are distinct, live and free, every snapshot window is matched by address |
| Matching.SelfDiffEmpty | crates/hyprpilot-core/src/snapshot.rs:454-539 | A snapshot compared with the desktop it was taken from yields no action at all |
| Compositor.ApplyDiff | crates/hyprpilot-core/src/snapshot.rs:580-647 | The applier goes through all actions whatever fails, and its outcomes and the final desktop are those of `Apply` |
| Compositor.Perform | crates/hyprpilot-core/src/snapshot.rs:583-645 | One action is one dispatch, two for a reposition whose move was accepted, none for a report |
| Compositor.FailedFirst | crates/hyprpilot-core/src/snapshot.rs:601-619 | An action whose first dispatch fails changes nothing: a reposition does not go on to resize |
| Compositor.ApplyConcat | crates/hyprpilot-core/src/snapshot.rs:580-647 | Applying a list is applying its parts one after the other, outcomes included |
| Restore.OutcomesAlign | crates/hyprpilot-core/src/snapshot.rs:580-669 | One outcome per action in order, for every failure pattern; skipped exactly for reports, an error exactly when not ok |
| Restore.ApplyPointwise | crates/hyprpilot-core/src/snapshot.rs:580-647 | A run changes each window by the actions addressed to it alone, and its own outcomes are ok exactly when those actions succeed on it |
| Restore.BlockReaches | crates/hyprpilot-core/src/snapshot.rs:465-503 | The emitted order works: without outside failures every action of a window succeeds, no pin is refused, and once all have succeeded the window is as recorded |
| Restore.RestoredIsClean | crates/hyprpilot-core/src/snapshot.rs:465-503 | A restored window needs no further action if and only if its recorded workspace needs no move or has a non-negative id |
| Restore.PairedWindow | crates/hyprpilot-core/src/snapshot.rs:454-539 | Out of a whole diff, a paired window meets its own block of actions and nothing else |
| Restore.FailureIsolation | crates/hyprpilot-core/src/snapshot.rs:577-647 | Whatever fails elsewhere, a paired window whose own outcomes are all ok ends up as recorded; without outside failures they all are |
| Restore.UnmatchedUntouched | crates/hyprpilot-core/src/snapshot.rs:21-23 | Restore is additive: under any failures a live window without a counterpart stays as it was |
| Restore.SameMatch | crates/hyprpilot-core/src/snapshot.rs:542-571 | Matching looks only at what restore never changes, so it finds the same windows again afterwards |
| Restore.FocusRestored | crates/hyprpilot-core/src/snapshot.rs:524-537 | After a report without errors the recorded window has the focus if it is open, and otherwise the focus is where it was; without outside failures the refocus is reported ok |
| Restore.NoFailuresAllOk | crates/hyprpilot-core/src/snapshot.rs:580-647 | Without outside failures no action of a diff is reported as failed: none finds its window missing or its dispatch refused |
| Restore.RestoreConverges | crates/hyprpilot-core/src/snapshot.rs:454-539 | For any snapshot and desktop, after a run whose report shows no error, the second diff has mutation count zero if and only if the first moves no window to a negative workspace id |
| Restore.ScratchpadNotRestored | crates/hyprpilot-core/src/snapshot.rs:584-595 | A window recorded on workspace -99 is not restored, and the next diff asks for the move again |
| Preview.FromDiff | crates/hyprpilot-core/src/snapshot.rs:256-291 | The counters count each kind of action and the two lists are the mutating and the other actions in diff order |
| Preview.PreviewAddsUp | crates/hyprpilot-core/src/snapshot.rs:177-291 | The two lists share out the diff, and the per-kind counters sum to the mutating and total counts |
| Preview.CountersCount | crates/hyprpilot-core/src/snapshot.rs:235-291 | Each counter is the number of the diff's actions of its own kind |
| Preview.PreviewTruthful | crates/hyprpilot-core/src/snapshot.rs:204-291 | For every failure pattern the applier attempts exactly `will_apply` and skips exactly `will_skip`, in order |
| Cache.FindClient | crates/hyprpilot-daemon/src/cache.rs:220-224 | The position of the first client with the address, or the length of the list |
| Cache.PatchFirst | crates/hyprpilot-daemon/src/cache.rs:222-228 | A title event rewrites the title of the first client with the address and nothing else |
| Cache.StateCache.Write | crates/hyprpilot-daemon/src/cache.rs:184-187 | A stored value can be read back at once and no other entry changes |
| Cache.StateCache.Serve | crates/hyprpilot-daemon/src/cache.rs:112-155 | A read returns the fresh cached value untouched, else the reply, which it stores; a query that fails is passed on and nothing is stored |
| Cache.StateCache.Apply | crates/hyprpilot-daemon/src/cache.rs:203-257 | One event dirties the entries in the table or patches a title in place, and leaves all else; CacheCoherence.ChangeLine says which, and SlotsCoherent that it is enough |
| Cache.ServedUntil | crates/hyprpilot-daemon/src/cache.rs:52-86 | A stored value is served until it reaches the maximal age or is dirtied, and no longer |
| CacheCoherence.TitleLineEvent | crates/hyprpilot-core/src/events.rs:55-155 | The text that announces a title is read, through line cut, trim and split, as that window's address and that title, for every title that fits a line |
| CacheCoherence.LastTitleWins | crates/hyprpilot-daemon/src/cache.rs:218-227 | Replaying queued titles over a list fetched ahead of them ends with the newest title of each window |
| CacheCoherence.PassedOnTrack | crates/hyprpilot-daemon/src/cache.rs:112-257 | A line announced before a reply was composed does the reply no harm when it is applied first, whatever it dirties; a later one is missed only if it would have dirtied or changed the reply |
| CacheCoherence.ChangeLine | crates/hyprpilot-daemon/src/cache.rs:203-257 | Written to the socket with any payload that fits a line, each kind of change is read as one event that dirties exactly the slots which that kind of change affects |
| CacheCoherence.TitleMissing | crates/hyprpilot-daemon/src/cache.rs:218-227 | A title event without a title dirties the client list and nothing else |
| CacheCoherence.CoherentStep | crates/hyprpilot-daemon/src/cache.rs:112-287 | Every step of compositor, subscription, queue, fetch and store keeps each slot coherent, before, during and after the subscription |
| CacheCoherence.SlotsCoherent | crates/hyprpilot-daemon/src/cache.rs:112-287 | In every run whose changes are titles or of the announced kinds, a clean value of any slot that misses no line announced after it was composed, replayed over the pending events, is dirtied or equals the compositor's; with none pending the served value is the compositor's own |
| CacheCoherence.ClientsCoherent | crates/hyprpilot-daemon/src/cache.rs:112-198 | For clients this makes the active window derived from the served list the first one at the head of the compositor's focus history |
| CacheCoherence.AtomicFetchesCoherent | crates/hyprpilot-daemon/src/cache.rs:112-155 | With the subscription first and every query stored at once, every value served with no event pending is the compositor's, in all slots |
| CacheCoherence.LostInvalidation | crates/hyprpilot-daemon/src/cache.rs:112-119 | With an event applied between fetch and store, a closed window is served as fresh |
| CacheCoherence.SeedRace | crates/hyprpilot-daemon/src/cache.rs:262-269 | With a window closed between seeding and subscribing, it is served as fresh although no event is pending |
| CacheCoherence.MangledTitle | crates/hyprpilot-core/src/events.rs:55-63 | A title that ends in a carriage return is cached without it, clean, with no event pending |
| CacheStaleness.BoundedStaleness | crates/hyprpilot-daemon/src/cache.rs:52-86 | In every run, whatever is lost, any served value was the compositor's, up to title patches, less than the maximal age plus one query earlier |
| Walk.PushChildren | crates/hyprpilot-a11y/src/lib.rs:185-190 | Children are pushed last first |
| Walk.PoppedFrame | crates/hyprpilot-a11y/src/lib.rs:133-190 | Popping a frame trades it for its element and its children's frames without changing what is still to come, or drops a frame with nothing to show |
| Walk.PushedChildren | crates/hyprpilot-a11y/src/lib.rs:185-190 | Pushed children are visited in document order, before what was below them |
| Walk.Collect | crates/hyprpilot-a11y/src/lib.rs:128-197 | On any graph the walk stops and returns the first `max_nodes` entries of the recursive preorder cut at `max_depth`; the whole of it unless truncated |
| Walk.PreorderExact | crates/hyprpilot-a11y/src/lib.rs:138-190 | The preorder lists an element if and only if a chain of at most `max_depth` child references through buildable nodes leads to it |
| Walk.PreorderInOrder | crates/hyprpilot-a11y/src/lib.rs:185-190 | It lists them in document order, parents before children and siblings as given, one entry for each chain |
| UndoStack.UndoStack.EnablePersistence | crates/hyprpilot-daemon/src/undo.rs:55-78 | Loading keeps the newest `capacity` entries of a readable file, and leaves the stack as it was otherwise |
| UndoStack.TrimmedNewest | crates/hyprpilot-daemon/src/undo.rs:55-78 | What loading keeps is the newest end of the file, as much as fits |
| UndoStack.UndoStack.Persist | crates/hyprpilot-daemon/src/undo.rs:117-146 | A save that succeeds replaces the file as a whole, and one that fails leaves it |
| UndoStack.UndoStack.Push | crates/hyprpilot-daemon/src/undo.rs:80-91 | The newest entry goes on top, the oldest out when full, and the file follows |
| UndoStack.UndoStack.Pop | crates/hyprpilot-daemon/src/undo.rs:93-99 | The newest entry comes off and the file no longer holds it before it is returned |
| UndoStack.UndoStack.List | crates/hyprpilot-daemon/src/server.rs:765-778 | The listing is newest first with running numbers |
| UndoStack.RefinesHistory | crates/hyprpilot-daemon/src/undo.rs:80-99 | Over all push and pop sequences the entries are a suffix of the unbounded history, at most `capacity` long, and any non-empty pop agrees with it |
| UndoStack.BoundedExactly | crates/hyprpilot-daemon/src/undo.rs:80-91 | The length bound holds for all sequences if and only if the capacity is at least one |
| UndoStack.ListPredictsUndo | crates/hyprpilot-daemon/src/server.rs:765-778 | Entry i of the list is what the undo after i others returns |
| UndoMoves.Handlers.MoveToWorkspaceRecorded | crates/hyprpilot-daemon/src/server.rs:689-722 | Served with no other request in between: without an active window there is nothing to move; an accepted move records the window, the workspace it came from and how it was moved; a refused one changes neither desktop nor stack; and the answer says which |
| UndoMoves.Handlers.UndoLast | crates/hyprpilot-daemon/src/server.rs:744-763 | Served with no other request in between: an undo takes the newest entry off and answers with its description if and only if the window is open and both dispatches are accepted, and with a failure otherwise; a failed inverse moves no window, though it may leave the focus changed |
| UndoMoves.InverseMoves | crates/hyprpilot-daemon/src/undo.rs:174-187 | When both its dispatches are accepted, the inverse of a recorded move takes that window to its recorded workspace, or, when that id is negative, to wherever a relative move lands |
| UndoMoves.LinkedRun | crates/hyprpilot-daemon/src/server.rs:689-763 | In every run of requests served one at a time each stack entry reverses the move it was recorded for, evictions, refused moves and forward targets notwithstanding |
| UndoMoves.WrittenBackIsLogged | crates/hyprpilot-daemon/src/server.rs:689-763 | Writing the newest k sources back, newest first, gives the places from before the k-th most recent move not yet undone |
| UndoMoves.LandedRight | crates/hyprpilot-daemon/src/undo.rs:174-187 | Real undos agree with that write-back if and only if each window's oldest entry names a non-negative workspace |
| UndoMoves.UndosRestore | crates/hyprpilot-daemon/src/server.rs:744-763 | After any run of whole requests, k undos restore the places from before the k-th most recent un-undone move if and only if the oldest of those entries for each window took it from a non-negative workspace id |
| UndoTasks.ActInTurn | crates/hyprpilot-daemon/src/server.rs:689-763 | Each read, dispatch, push and pop of a request that no other overlaps amounts to at most one whole request |
| UndoTasks.RunInTurn | crates/hyprpilot-daemon/src/server.rs:183-763 | A run of such acts is a run of whole requests |
| UndoTasks.UndosRestoreInTurn | crates/hyprpilot-daemon/src/server.rs:689-763 | The same if and only if after any run of the separate acts of requests that do not overlap, refused moves included, once the last request is done |
| UndoTasks.OverlappingMoves | crates/hyprpilot-daemon/src/server.rs:694-719 | Two moves that both read before either dispatches push the same source, and one undo goes back too far |
| UndoTasks.FocusChangesBetween | crates/hyprpilot-daemon/src/server.rs:694-719 | With the focus changed between read and dispatch the wrong window is recorded and the undo moves nothing back |
| UndoTasks.ScratchpadNotUndone | crates/hyprpilot-daemon/src/undo.rs:174-187 | A window moved away from workspace -99 is not taken back there by the undo |
| CrashSafety.FileAgreesStep | crates/hyprpilot-daemon/src/undo.rs:80-148 | Every step, crashes and torn temporary writes included, keeps the file whole and equal to the stack from before or after the operation under way |
| CrashSafety.CrashSafeFile | crates/hyprpilot-daemon/src/undo.rs:61-148 | In every run without failing saves the file is never torn, and a restart loads exactly the stack from before or after the interrupted operation |
| CrashSafety.OnceOnlyStep | crates/hyprpilot-daemon/src/undo.rs:93-99 | No step makes an entry that was taken for undoing available again, in memory or in the file |
| CrashSafety.NothingAppliedTwice | crates/hyprpilot-daemon/src/server.rs:744-752 | Over any crashes and restarts no entry is handed to the inverse twice, provided the saves after pops succeed |
| CrashSafety.RepeatExactly | crates/hyprpilot-daemon/src/undo.rs:61-130 | After any past, failing saves included, some future whose pops are saved can still hand an entry over twice if and only if a repeat is under way or an entry that is gone is in memory, in the operation in progress, or in what a restart would load |
| CrashSafety.FailedSaveRepeats | crates/hyprpilot-daemon/src/undo.rs:117-130 | A pop whose save is swallowed is undone a second time after a crash |
| Shell.ShellQuote | crates/hyprpilot-daemon/src/undo.rs:210-230 | The quoting loop leaves safe non-empty text bare and otherwise produces single-quoted text with embedded quotes escaped |
| Shell.QuotedWord | crates/hyprpilot-daemon/src/undo.rs:210-230 | Whatever follows, a POSIX tokeniser reads a quoted argument as that one word and meets no special character in it |
| Shell.ArgumentsOf | crates/hyprpilot-daemon/src/undo.rs:196-199 | Splitting the kernel's command line gives the non-empty arguments of the vector |
| Shell.JoinedScan | crates/hyprpilot-daemon/src/undo.rs:200-207 | The joined command tokenises to exactly the quoted words |
| Shell.CaptureRoundTrip | crates/hyprpilot-daemon/src/undo.rs:190-230 | For every argument vector, tokenising the captured command and removing its quotes gives the non-empty arguments; there is no command exactly when there are none |
| Engine.ParseAll | crates/hyprpilot-daemon/src/engine.rs:105-106 | All actions of a rule parse, or the error is the position of the first that does not |
| Engine.Compile | crates/hyprpilot-daemon/src/engine.rs:98-115 | All rules compile with trigger, predicates and parsed actions kept, or the error names the first action of the config that does not parse |
| Engine.MatchesSubmap | crates/hyprpilot-daemon/src/engine.rs:239-246 | A rule matches exactly the events of its kind whose fields include all its predicates |
| Engine.ReentranceGuard.HandleEvent | crates/hyprpilot-daemon/src/engine.rs:199-237 | An inhibited engine does nothing; otherwise the first matching rule runs all its actions in order, failures notwithstanding, and schedules one decrement `decay` after they end |
| EngineRuns.GuardedStep | crates/hyprpilot-daemon/src/engine.rs:57-90 | Every step keeps depth equal to live guards plus pending decrements and at most one, and firings spaced |
| EngineRuns.FiringRateBounded | crates/hyprpilot-daemon/src/engine.rs:57-90 | In every run the depth is exact, never underflows, never exceeds one; a firing starts at least `decay` after the previous one's actions ended; N+1 firings take at least N times `decay` |
| EngineRuns.EchoIgnored | crates/hyprpilot-daemon/src/engine.rs:1-30 | An event handled before `decay` has passed since the last actions ended makes the engine do nothing |
| EngineRuns.HandledEvent | crates/hyprpilot-daemon/src/engine.rs:199-237 | Handling an event is an arrival, time passing and the end of the actions in the state machine |
| EngineRuns.Loop | crates/hyprpilot-daemon/src/engine.rs:174-197 | The event loop, with decrement tasks waking at any time, is a run of the state machine, and its firings are rate-bounded |
| Boxes.UnionIsSmallest | crates/hyprpilot-vision/src/capture.rs:50-58 | For any two boxes, negative sizes included, the union is the smallest box containing both if and only if the far edges and the extents are 32-bit numbers |
| Boxes.CenterInMiddle | crates/hyprpilot-vision/src/capture.rs:41-48 | On each axis the centre is equally far from both edges or one pixel nearer to the near one, and inside a box of positive size |
| Boxes.SharedRow | crates/hyprpilot-vision/src/ocr.rs:233-236 | Boxes of positive height share a row if and only if some line before the last expressible one crosses both |
| Ocr.CheckRun | crates/hyprpilot-vision/src/ocr.rs:251-264 | The inner loop accepts a start if and only if all tokens match and neighbours share a row |
| Ocr.FindWordRuns | crates/hyprpilot-vision/src/ocr.rs:238-282 | One match per start, in order, for exactly the positions where the words read as the tokens along one row |
| Ocr.RunMeaning | crates/hyprpilot-vision/src/ocr.rs:245-264 | A run position is one where each word is the token, or is up to ASCII case when matching ignores it, on the row of the word before |
| Ocr.MatchText | crates/hyprpilot-vision/src/ocr.rs:274-279 | The text of a case-sensitive match is the query with its tokens one space apart |
| Ocr.RunEdges | crates/hyprpilot-vision/src/ocr.rs:268-272 | On each axis the merged box starts at the run's nearest edge, and ends at its farthest whenever that and the extent are 32-bit numbers, for words of any size |
| Ocr.MatchBoxIsSmallest | crates/hyprpilot-vision/src/ocr.rs:268-272 | For words of any size, the box of a match is the smallest one containing every word of the run if and only if there is one word or the far edges and extents are 32-bit numbers |
| Ocr.RunIsChained | crates/hyprpilot-vision/src/ocr.rs:233-266 | The words of any match overlap in rows one after the other |
| Ocr.NoVerticalGap | crates/hyprpilot-vision/src/ocr.rs:257-264 | Every line of a match's box crosses the row of some word, whatever the sizes, wrapped boxes included |
| Ocr.ClickInSpan | crates/hyprpilot-vision/src/capture.rs:41-48 | On an axis where all words have positive size the centre of a match lies between the run's outermost edges if and only if the match's size has not wrapped below -1 or it starts at the least number; when edge and extent are 32-bit numbers it is within a pixel of the middle |
| Ocr.ClickHitsARow | crates/hyprpilot-vision/src/capture.rs:41-48 | Under the same exact condition for heights, the centre of a match along one row lies in the row of one of its words |
| Ocr.LowestConfidence | crates/hyprpilot-vision/src/ocr.rs:273-273 | The confidence of a match is that of its least certain word |
| Pointer.UnionExtents | crates/hyprpilot-input/src/virtual_pointer.rs:75-83 | The extents are the least numbers that are at least one and reach every output's right and bottom edge, in any iteration order |
| Pointer.ExtentReaches | crates/hyprpilot-input/src/virtual_pointer.rs:72-83 | The extents reach the right and bottom edge of every output |
| Pointer.OutputPlaced | crates/hyprpilot-input/src/virtual_pointer.rs:397-411 | A position and a current mode, in either order, place an output |
| Pointer.QuietEvent | crates/hyprpilot-input/src/virtual_pointer.rs:402-414 | A mode that is not current, or any other event, changes no extent |
| Pointer.Worker.OnOutput | crates/hyprpilot-input/src/virtual_pointer.rs:388-415 | An output event updates position, or size for the current mode, and makes the output known |
| Pointer.Worker.NextTime | crates/hyprpilot-input/src/virtual_pointer.rs:190-196 | The clock goes up by one until it is pinned at its maximum |
| Pointer.Worker.RoundTrip | crates/hyprpilot-input/src/virtual_pointer.rs:325-333 | The round trip after a command applies everything that has arrived, in order, or some of it when it breaks |
| Pointer.Worker.Handle | crates/hyprpilot-input/src/virtual_pointer.rs:287-317 | One command sends its requests under the extents of the outputs known before it and the current clock, then makes its round trip and is answered with how that went |
| Pointer.Worker.Serve | crates/hyprpilot-input/src/virtual_pointer.rs:282-322 | Over any order of arrival, every command before shutdown is handled once, in order, under the outputs that the round trips before it have applied, and the pointer is destroyed last |
| Pointer.ExtentsKnown | crates/hyprpilot-input/src/virtual_pointer.rs:282-316 | While round trips complete, a command is handled under exactly the outputs announced before the previous round trip ended; if nothing has arrived since, its extents reach every current edge |
| Pointer.StaleExtents | crates/hyprpilot-input/src/virtual_pointer.rs:278-290 | A monitor that grows to 3840 while the worker waits is not seen: a move to 3000 is sent to 1920 of 1920, and only the next one goes right |
| Pointer.TranscriptSafe | crates/hyprpilot-input/src/virtual_pointer.rs:282-319 | Between any two commands of any run motion is inside extents of at least one, stamps tick up from zero, presses and releases pair up and no button is held |
| Pointer.TranscriptObeyed | crates/hyprpilot-input/src/virtual_pointer.rs:287-314 | Played by the compositor, frame by frame, the requests leave the pointer where the commands put it: absolute moves at the nearest point inside the extents, relative ones by their own steps on each axis, each click's button pressed once where the pointer is |
| Pointer.StampsRise | crates/hyprpilot-input/src/virtual_pointer.rs:184-196 | Of two stamps the later is larger, unless it is the maximum |
| Pointer.StampCounts | crates/hyprpilot-input/src/virtual_pointer.rs:184-196 | The stamps count one by one from one, up to the maximum |
| Pointer.EmittedHeld | crates/hyprpilot-input/src/virtual_pointer.rs:304-314 | A click presses the commanded button first and has released it at the end |
| Pointer.MotionNearest | crates/hyprpilot-input/src/virtual_pointer.rs:287-293 | An absolute move is sent, with the outputs' extents, to the nearest point within them |
| ClickGeometry.RoundHalves | crates/hyprpilot-daemon/src/server.rs:475-478 | Rounding keeps whole numbers and takes halves away from zero |
| ClickGeometry.ThereAndBack | crates/hyprpilot-daemon/src/server.rs:470-479 | Rounding a pixel to logical coordinates and back costs at most half a logical plus half a device pixel |
| ClickGeometry.ClickLandsNearby | crates/hyprpilot-mcp/src/server.rs:301-309 | On a single monitor of any scale and position, a full-screen match is clicked within half a logical plus half a device pixel of the place with the pixel's own coordinates on each axis, or of the nearest one inside the extents, scale selection, saturation and clamping included |
| ClickGeometry.FullClickExact | crates/hyprpilot-mcp/src/server.rs:302-308 | Every pixel of a full-screen scan of a monitor is clicked where it is shown if and only if the monitor is placed at zero on that axis |
| ClickGeometry.ScaleAgrees | crates/hyprpilot-mcp/src/server.rs:881-897 | The scale a region is scanned at is the scale its origin is clicked at |
| ClickGeometry.ScaleOfCovering | crates/hyprpilot-daemon/src/server.rs:484-496 | A point that only one monitor covers has that monitor's scale |
| ClickGeometry.ScaleElsewhere | crates/hyprpilot-daemon/src/server.rs:484-496 | A point that none covers, and a full-screen scan, have the focused monitor's scale, or the first one's if none is focused |
| ClickGeometry.SideBySide | crates/hyprpilot-daemon/src/server.rs:487-491 | Monitors side by side, of whatever scales, cover no common point and leave no gap |
| ClickGeometry.ScopedDisplacement | crates/hyprpilot-mcp/src/server.rs:616-622 | A region-scoped click is off by the region's origin over the scale, up to half a logical pixel |
| ClickGeometry.ScopedClickExact | crates/hyprpilot-mcp/src/server.rs:301-309 | Every pixel of a region is clicked where it is shown if and only if the region starts at zero on that axis |
| ClickGeometry.RegionAtHundred | crates/hyprpilot-mcp/src/server.rs:616-622 | At scale two, the first pixel of a region that starts at 100 is clicked at 150 |
| Decimal.ParsePrint | crates/hyprpilot-core/src/selector.rs:100-114 | Decimal printing and parsing of 32-bit integers undo each other |
| Decimal.ParsedText | crates/hyprpilot-core/src/selector.rs:127-159 | A text is read as a number if and only if it is the decimal form of it after leading zeros and an optional, agreeing sign |
| Selectors.WindowRoundTrip | crates/hyprpilot-core/src/selector.rs:33-77 | Parsing an encoded window selector gives it back with its address `0x`-normalised; exactly an unprefixed address changes, and a second pass changes nothing |
| Selectors.WindowGrammar | crates/hyprpilot-core/src/selector.rs:57-77 | Exactly the texts that spell a window selector are read as it, and a missing prefix and a bad pid are refused as such |
| Selectors.WorkspaceReparsed | crates/hyprpilot-core/src/selector.rs:100-159 | What the parser makes of every encoded workspace reference |
| Selectors.WorkspaceRoundTrip | crates/hyprpilot-core/src/selector.rs:100-159 | A workspace reference survives encoding and parsing if and only if it is not a numeric id below zero |
| Selectors.WorkspaceGrammar | crates/hyprpilot-core/src/selector.rs:127-159 | Exactly the texts that spell a workspace reference are read as it |
| Events.LineRoundTrip | crates/hyprpilot-core/src/events.rs:55-65 | An event written to the socket is read back as itself if and only if its payload holds no newline and does not end in a carriage return; later `>>` stay in the payload |
| Text.JoinSplit | crates/hyprpilot-core/src/events.rs:125-136 | Splitting on a separator and joining again loses nothing |
| Text.SplitHead | crates/hyprpilot-core/src/events.rs:125-136 | A leading field without the separator comes off unchanged |
| Text.TrimOnlySpace | crates/hyprpilot-input/src/keys.rs:173-177 | Trimming takes off white space at the ends and nothing else |
| Events.TitleEventFields | crates/hyprpilot-core/src/events.rs:152-155 | A `windowtitlev2` payload gives back the address, normalised, and any title |
| Events.ActiveEventFields | crates/hyprpilot-core/src/events.rs:156-159 | An `activewindow` payload gives back the class and any title |
| Events.OpenEventFields | crates/hyprpilot-core/src/events.rs:131-136 | An `openwindow` payload gives back address, workspace, class and any title |
| Events.OneWindowField | crates/hyprpilot-core/src/events.rs:137-200 | Events about one window give back its address, normalised |
| Events.OneField | crates/hyprpilot-core/src/events.rs:163-195 | Events with one other field give it back under its name |
| Events.TwoWindowFields | crates/hyprpilot-core/src/events.rs:140-200 | Events about a window with one more field give back both |
| Events.TwoFields | crates/hyprpilot-core/src/events.rs:166-195 | Events with two other fields give back both |
| Events.ThreeFields | crates/hyprpilot-core/src/events.rs:144-192 | `movewindowv2` gives back address, workspace id and name; `monitoraddedv2` gives back any description |
| Keys.ParseTokens | crates/hyprpilot-input/src/keys.rs:184-194 | The loop collects the set of modifiers the tokens name, or fails if one names none |
| Keys.ModifierNames | crates/hyprpilot-input/src/keys.rs:35-43 | Modifiers are read under their listed names and no others, in any case |
| Keys.ComboErrors | crates/hyprpilot-input/src/keys.rs:172-182 | A combo is refused as empty if and only if it is all white space, and for an empty token if and only if it is not and some piece between plus signs is |
| Keys.DisplayNames | crates/hyprpilot-input/src/keys.rs:46-53 | The displayed names are `ctrl`, `shift`, `alt` and `logo`, in this order |
| Keys.DisplayRoundTrip | crates/hyprpilot-input/src/keys.rs:172-270 | The displayed form of a parsed combo parses back to it if and only if Super is not among its modifiers |
| Keys.SuperNotRedisplayed | crates/hyprpilot-input/src/keys.rs:262-270 | `super+t` parses, is displayed as `logo+t`, and that is refused |
| Keys.EncodeYdotoolKey | crates/hyprpilot-input/src/keys.rs:241-259 | A combo whose key has a code becomes modifier presses, the key's press and release, and modifier releases in reverse |
| Keys.KeyIsNoModifier | crates/hyprpilot-input/src/keys.rs:65-141 | No key of the table has a modifier's code |
| Keys.KeyboardLayout | crates/hyprpilot-input/src/keys.rs:79-141 | The key codes count along the rows of the keyboard, the function keys and the navigation block, so each name stands for the key in its place |
| Keys.OtherNames | crates/hyprpilot-input/src/keys.rs:107-140 | The keys off the rows have their codes, and second names stand for the same keys as the first |
| Keys.KeyCaseIgnored | crates/hyprpilot-input/src/keys.rs:84-110 | Keys are named without regard to case |
| Keys.FullChord | crates/hyprpilot-input/src/keys.rs:65-77 | A chord with all four modifiers presses the left control, shift, alt and meta keys in this order and releases them in reverse |
| Keys.ChordBrackets | crates/hyprpilot-input/src/keys.rs:226-259 | Played on any keyboard with those keys up, every press finds its key up and every release finds it down, the key goes down with exactly the combo's modifiers added, and in the end the keyboard is as it was |

## Left out

- Sockets, subprocesses, D-Bus and Wayland transport, the async runtime, shutdown signals and logging: calls are steps or oracles.
- JSON and TOML encoding (taken to be invertible), snapshot naming, saving and loading, and the human-readable preview summary.
- Snapshot fields the diff does not read: monitors, the workspace list, version and creation time.
- Command-line and tool surfaces, schemas, capability profiles, the action verb table, backend probing: matches one branch at a time.
- The cached Hyprland version, which is fetched once and never expires.
- CacheCoherence.SlotsCoherent: covers changes of the announced kinds; changes that come without an event (geometry while dragging, say) fall under CacheStaleness.BoundedStaleness alone.
- CacheCoherence.SlotsCoherent: the last-window fields in the replies for workspaces, which titles and focus changes alter without an event that dirties them, are not part of the modelled replies.
- CacheStaleness.BoundedStaleness: a reply counts as composed at one instant, at most one request timeout before it is stored.
- Walk.Collect: element role, text and extents (taken as part of the name), and overflow of a 32-bit depth counter.
- Walk.Collect: the truncation flag says that the cap was reached with a frame left on the stack, not that the tree has more elements; the warning in the source says the latter.
- UndoTasks.UndosRestoreInTurn: no window closes and no unrecorded move happens during the run, and its undos are accepted; of the overlapping runs only the two failing ones are described.
- CacheCoherence.SlotsCoherent: one direction only; a value that misses a line may still happen to be the compositor's.
- Undoing a kill: a command is recorded (`Shell`), but starting it again restores no state to reason about.
- Shell.CaptureRoundTrip: tokens and quote removal only; that a first argument such as `A=b` or a reserved word means something else to the shell's grammar is not captured, nor is the replacement of invalid UTF-8.
- EngineRuns.FiringRateBounded: an event counts when the loop handles it; how long it waited in the socket is not modelled.
- Ocr.FindWordRuns: takes the query already split at white space; reading tesseract's table is not modelled.
- CrashSafety.CrashSafeFile: a crash of the daemon, not a loss of power, which may lose or reorder writes that were never synced.
- ClickGeometry.ClickLandsNearby: floating-point numbers are reals, and the logical size of the monitor is a 32-bit number.
- Pointer.ExtentsKnown: for runs whose round trips complete; after a broken one Pointer.Worker.Serve says which outputs are known.
- ClickGeometry.ScopedClickExact: logical coordinates after the second addition are unbounded integers.
- UndoMoves.Handlers.MoveToWorkspaceRecorded: which of the two move dispatchers is used; both move the window, and the focus after either is arbitrary.
- Key names for other back ends, mouse button names, and the white space of a Unicode version later than the one in `Text.IsSpace`.
